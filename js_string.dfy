/**
 * The ECMAScript string operations the gallery relies on, as defined in
 * ECMA-262: the whitespace of TrimString (sections 12.2 and 12.3),
 * String.prototype.trim, the first-occurrence String.prototype.replace with a
 * plain string pattern, the global parseInt (section 19.2.5) and the decimal
 * form that String(n) gives an integral Number.
 */
module JsString {
  import opened Wrappers

  /** WhiteSpace (TAB, VT, FF, ZWNBSP and every Zs code point) or LineTerminator (LF, CR, LS, PS). */
  predicate IsStrWhiteSpace(c: char) {
    c == '\t' || c == '\n' || c == '\U{000B}' || c == '\U{000C}' || c == '\r'
    || c == ' ' || c == '\U{00A0}' || c == '\U{1680}' || ('\U{2000}' <= c <= '\U{200A}')
    || c == '\U{2028}' || c == '\U{2029}' || c == '\U{202F}' || c == '\U{205F}'
    || c == '\U{3000}' || c == '\U{FEFF}'
  }

  predicate AllWhiteSpace(s: string) {
    forall i :: 0 <= i < |s| ==> IsStrWhiteSpace(s[i])
  }

  /** TrimString(s, start): drops the maximal leading run of whitespace. */
  function TrimStart(s: string): (r: string)
    ensures |r| <= |s| && r == s[|s| - |r|..]
    ensures forall i :: 0 <= i < |s| - |r| ==> IsStrWhiteSpace(s[i])
    ensures r == [] || !IsStrWhiteSpace(r[0])
  {
    if s != [] && IsStrWhiteSpace(s[0]) then TrimStart(s[1..]) else s
  }

  /** TrimString(s, end): drops the maximal trailing run of whitespace. */
  function TrimEnd(s: string): (r: string)
    ensures |r| <= |s| && r == s[..|r|]
    ensures forall i :: |r| <= i < |s| ==> IsStrWhiteSpace(s[i])
    ensures r == [] || !IsStrWhiteSpace(r[|r| - 1])
  {
    if s != [] && IsStrWhiteSpace(s[|s| - 1]) then TrimEnd(s[..|s| - 1]) else s
  }

  lemma {:induction false} TrimEndOfNonSpace(s: string, w: string)
    requires AllWhiteSpace(w)
    requires s == [] || !IsStrWhiteSpace(s[|s| - 1])
    ensures TrimEnd(s + w) == s
  {
    if w != [] {
      assert (s + w)[|s + w| - 1] == w[|w| - 1];
      assert (s + w)[..|s + w| - 1] == s + w[..|w| - 1];
      TrimEndOfNonSpace(s, w[..|w| - 1]);
    }
  }

  /** String.prototype.trim. */
  function Trim(s: string): (r: string)
    ensures |r| <= |s|
    ensures r == [] || (!IsStrWhiteSpace(r[0]) && !IsStrWhiteSpace(r[|r| - 1]))
    ensures r == [] <==> AllWhiteSpace(s)
  {
    TrimEnd(TrimStart(s))
  }

  /** trim removes exactly the padding around a string that neither starts nor ends with whitespace. */
  lemma TrimPadded(w: string, s: string, w': string)
    requires AllWhiteSpace(w) && AllWhiteSpace(w')
    requires s != [] && !IsStrWhiteSpace(s[0]) && !IsStrWhiteSpace(s[|s| - 1])
    ensures Trim(w + s + w') == s
  {
    assert w + s + w' == w + (s + w');
    TrimStartOfNonSpace(w, s + w');
    TrimEndOfNonSpace(s, w');
  }

  predicate OccursAt(s: string, pat: string, p: nat) {
    p + |pat| <= |s| && s[p..p + |pat|] == pat
  }

  /** String.prototype.indexOf(pat) on a whole string: the first position where `pat` occurs. */
  function IndexOf(s: string, pat: string): (r: Option<nat>)
    ensures r.Some? ==> OccursAt(s, pat, r.value)
    ensures r.Some? ==> forall q :: 0 <= q < r.value ==> !OccursAt(s, pat, q)
    ensures r.None? ==> forall q :: 0 <= q <= |s| ==> !OccursAt(s, pat, q)
  {
    if |pat| > |s| then None
    else if s[..|pat|] == pat then Some(0)
    else
      assert forall q :: 1 <= q <= |s| ==> (OccursAt(s, pat, q) <==> OccursAt(s[1..], pat, q - 1));
      match IndexOf(s[1..], pat)
      case None => None
      case Some(p) => Some(p + 1)
  }

  /** String.prototype.replace(pat, rep) with a string pattern: only the first occurrence is replaced
      (the replacement text of the application contains no `$` substitutions). */
  function ReplaceFirst(s: string, pat: string, rep: string): (r: string)
    ensures (forall q :: 0 <= q <= |s| ==> !OccursAt(s, pat, q)) ==> r == s
    ensures forall p: nat :: OccursAt(s, pat, p) && (forall q :: 0 <= q < p ==> !OccursAt(s, pat, q)) ==>
      r == s[..p] + rep + s[p + |pat|..]
  {
    match IndexOf(s, pat)
    case None => s
    case Some(p) => s[..p] + rep + s[p + |pat|..]
  }

  /** Removing a leading occurrence of the pattern leaves the rest of the string. */
  lemma ReplaceFirstAtStart(pat: string, tail: string)
    ensures ReplaceFirst(pat + tail, pat, "") == tail
  {
    var s := pat + tail;
    assert s[..|pat|] == pat;
    assert IndexOf(s, pat) == Some(0);
    assert s[|pat|..] == tail;
  }

  /** The radix argument of parseInt as the application passes it: 10, or left out. */
  datatype Radix = Ten | Unspecified

  /** The digit value of a code unit in radix 36 ('0'-'9', then 'a'-'z' or 'A'-'Z'); 36 for any other. */
  function DigitValue(c: char): (v: nat)
    ensures v <= 36
  {
    if '0' <= c <= '9' then c as int - '0' as int
    else if 'a' <= c <= 'z' then c as int - 'a' as int + 10
    else if 'A' <= c <= 'Z' then c as int - 'A' as int + 10
    else 36
  }

  predicate IsRadixDigit(c: char, radix: nat) {
    DigitValue(c) < radix
  }

  predicate IsDecimalDigit(c: char) {
    '0' <= c <= '9'
  }

  /** The length of the longest prefix of `s` made of radix-`radix` digits. */
  function DigitRunLength(s: string, radix: nat): (n: nat)
    ensures n <= |s|
    ensures forall i :: 0 <= i < n ==> IsRadixDigit(s[i], radix)
    ensures n == |s| || !IsRadixDigit(s[n], radix)
  {
    if s != [] && IsRadixDigit(s[0], radix) then 1 + DigitRunLength(s[1..], radix) else 0
  }

  /** The mathematical value of a digit string in the given radix. */
  function DigitsValue(ds: string, radix: nat): nat {
    if ds == [] then 0 else DigitsValue(ds[..|ds| - 1], radix) * radix + DigitValue(ds[|ds| - 1])
  }

  /** Drops one leading '+' or '-'. */
  function AfterSign(s: string): string {
    if s != [] && (s[0] == '+' || s[0] == '-') then s[1..] else s
  }

  /** Whether a string (without its sign) carries the 0x / 0X prefix that parseInt honours without a radix. */
  predicate HasHexPrefix(s: string) {
    |s| >= 2 && s[0] == '0' && (s[1] == 'x' || s[1] == 'X')
  }

  /**
   * parseInt(input, radix) for the radix 10 and an absent radix: skip leading
   * whitespace, take an optional sign, (without a radix) take a 0x prefix to
   * mean radix 16, then read the longest run of digits; `None` stands for NaN,
   * the result when that run is empty. The sign of a zero result is lost.
   */
  function ParseInt(input: string, radix: Radix): Option<int> {
    ParseSigned(TrimStart(input), radix)
  }

  /** Steps 3 to 17 of parseInt, on the string left after the leading whitespace. */
  function ParseSigned(s: string, radix: Radix): Option<int> {
    var sign := if s != [] && s[0] == '-' then -1 else 1;
    match ParseUnsigned(AfterSign(s), radix)
    case None => None
    case Some(v) => Some(sign * v)
  }

  /** The digits part of parseInt, after the sign. */
  function ParseUnsigned(u: string, radix: Radix): Option<nat> {
    var hex := radix == Unspecified && HasHexPrefix(u);
    var body := if hex then u[2..] else u;
    var base := if hex then 16 else 10;
    var z := body[..DigitRunLength(body, base)];
    if z == [] then None else Some(DigitsValue(z, base))
  }

  function DigitChar(d: nat): (c: char)
    requires d < 10
    ensures IsDecimalDigit(c) && DigitValue(c) == d
  {
    (d + '0' as int) as char
  }

  /** The decimal digits of a natural number, without leading zeros. */
  function ShowNat(n: nat): (r: string)
    ensures |r| >= 1
    ensures forall i :: 0 <= i < |r| ==> IsDecimalDigit(r[i])
    ensures DigitsValue(r, 10) == n
    ensures r[0] == '0' ==> n == 0 && |r| == 1
  {
    if n < 10 then [DigitChar(n)] else ShowNat(n / 10) + [DigitChar(n % 10)]
  }

  /** String(n) for an integral Number (below 10^21 in magnitude, where no exponent is used). */
  function Show(n: int): (r: string)
    ensures r != [] && IsDecimalDigit(r[|r| - 1])
    ensures !IsStrWhiteSpace(r[0])
  {
    if n < 0 then "-" + ShowNat(-n) else ShowNat(n)
  }

  // ---------------------------------------------------------------------------
  // Properties of parseInt and String(n)

  lemma {:induction false} DigitRunOfDigits(s: string, rest: string, radix: nat)
    requires forall i :: 0 <= i < |s| ==> IsRadixDigit(s[i], radix)
    requires rest == [] || !IsRadixDigit(rest[0], radix)
    ensures DigitRunLength(s + rest, radix) == |s|
  {
    if s != [] {
      assert (s + rest)[1..] == s[1..] + rest;
      DigitRunOfDigits(s[1..], rest, radix);
    }
  }

  lemma {:induction false} TrimStartOfNonSpace(w: string, s: string)
    requires AllWhiteSpace(w)
    requires s == [] || !IsStrWhiteSpace(s[0])
    ensures TrimStart(w + s) == s
  {
    if w == [] {
      assert w + s == s;
    } else {
      var ws := w + s;
      assert ws[0] == w[0] && IsStrWhiteSpace(w[0]);
      assert ws[1..] == w[1..] + s;
      assert AllWhiteSpace(w[1..]) by {
        forall i | 0 <= i < |w| - 1 ensures IsStrWhiteSpace(w[1..][i]) {
          assert w[1..][i] == w[i + 1];
        }
      }
      TrimStartOfNonSpace(w[1..], s);
      assert TrimStart(ws) == TrimStart(ws[1..]);
    }
  }

  lemma ParseUnsignedOfDigits(digits: string, rest: string)
    requires forall i :: 0 <= i < |digits| ==> IsDecimalDigit(digits[i])
    requires digits != []
    requires rest == [] || !IsDecimalDigit(rest[0])
    ensures ParseUnsigned(digits + rest, Ten) == Some(DigitsValue(digits, 10))
  {
    assert forall i :: 0 <= i < |digits| ==> IsRadixDigit(digits[i], 10);
    DigitRunOfDigits(digits, rest, 10);
    assert (digits + rest)[..|digits|] == digits;
  }

  /** parseInt reads the decimal form of any integer back, whatever whitespace precedes it
      and whatever non-digit text follows it. */
  lemma ParseIntOfShow(w: string, n: int, rest: string)
    requires AllWhiteSpace(w)
    requires rest == [] || !IsDecimalDigit(rest[0])
    ensures ParseInt(w + Show(n) + rest, Ten) == Some(n)
  {
    assert w + Show(n) + rest == w + (Show(n) + rest);
    TrimStartOfNonSpace(w, Show(n) + rest);
    ParseSignedOfShow(n, rest);
  }

  lemma ParseSignedUnsigned(u: string)
    requires u != [] && IsDecimalDigit(u[0])
    ensures ParseSigned(u, Ten) == ParseUnsigned(u, Ten)
  {
    assert AfterSign(u) == u;
    match ParseUnsigned(u, Ten)
    case None =>
    case Some(v) =>
  }

  lemma ParseSignedNegated(u: string)
    requires u != [] && IsDecimalDigit(u[0])
    ensures ParseUnsigned(u, Ten).Some? ==> ParseSigned("-" + u, Ten) == Some(-(ParseUnsigned(u, Ten).value as int))
  {
    assert ("-" + u)[1..] == u;
    assert AfterSign("-" + u) == u;
  }

  lemma ParseSignedOfShow(n: int, rest: string)
    requires rest == [] || !IsDecimalDigit(rest[0])
    ensures ParseSigned(Show(n) + rest, Ten) == Some(n)
  {
    if n < 0 {
      ParseSignedOfShowNegative(n, rest);
    } else {
      var digits := ShowNat(n);
      assert Show(n) == digits;
      ParseUnsignedOfDigits(digits, rest);
      ParseSignedUnsigned(digits + rest);
    }
  }

  lemma ParseSignedOfShowNegative(n: int, rest: string)
    requires n < 0
    requires rest == [] || !IsDecimalDigit(rest[0])
    ensures ParseSigned(Show(n) + rest, Ten) == Some(n)
  {
    var digits := ShowNat(-n);
    var u := digits + rest;
    assert Show(n) == "-" + digits;
    SignedConcat(digits, rest);
    ParseUnsignedOfDigits(digits, rest);
    assert u[0] == digits[0];
    ParseSignedNegated(u);
  }

  lemma SignedConcat(digits: string, rest: string)
    ensures ("-" + digits) + rest == "-" + (digits + rest)
  {
  }

  /** The special case that matters to the counter: String(k) parses back to k. */
  lemma ParseIntShowRoundTrip(n: int)
    ensures ParseInt(Show(n), Ten) == Some(n)
  {
    TrimStartOfNonSpace([], Show(n));
    assert Show(n) + [] == Show(n);
    ParseSignedOfShow(n, []);
  }

  /** The decimal form of an integer padded with whitespace on both sides parses back after trim. */
  lemma ParseTrimmedShow(w: string, n: int, w': string)
    requires AllWhiteSpace(w) && AllWhiteSpace(w')
    ensures ParseInt(Trim(w + Show(n) + w'), Unspecified) == Some(n)
  {
    TrimPadded(w, Show(n), w');
    ParseIntShowWithoutRadix(n);
  }

  /** parseInt gives NaN exactly when no digit follows the leading whitespace and the optional sign. */
  lemma ParseIntNaN(input: string)
    ensures ParseInt(input, Ten).None? <==>
      var u := AfterSign(TrimStart(input)); u == [] || !IsDecimalDigit(u[0])
  {
    ParseUnsignedNaN(AfterSign(TrimStart(input)));
  }

  lemma ParseUnsignedNaN(u: string)
    ensures ParseUnsigned(u, Ten).None? <==> u == [] || !IsDecimalDigit(u[0])
  {
    if u != [] {
      assert IsRadixDigit(u[0], 10) <==> IsDecimalDigit(u[0]);
    }
  }

  /** Without a radix, parseInt differs from parseInt(·, 10) only on a 0x / 0X prefix. */
  lemma ParseSignedIgnoresRadix(s: string)
    requires !HasHexPrefix(AfterSign(s))
    ensures ParseSigned(s, Unspecified) == ParseSigned(s, Ten)
  {
    assert ParseUnsigned(AfterSign(s), Unspecified) == ParseUnsigned(AfterSign(s), Ten);
  }

  lemma AfterSignOfShow(n: int)
    ensures AfterSign(Show(n)) == ShowNat(if n < 0 then -n else n)
  {
    if n < 0 {
      assert Show(n)[1..] == ShowNat(-n);
    } else {
      assert Show(n) == ShowNat(n);
    }
  }

  /** The decimal form of an integer also parses back when parseInt is given no radix. */
  lemma ParseIntShowWithoutRadix(n: int)
    ensures ParseInt(Show(n), Unspecified) == Some(n)
  {
    ParseIntShowRoundTrip(n);
    var digits := ShowNat(if n < 0 then -n else n);
    assert TrimStart(Show(n)) == Show(n);
    AfterSignOfShow(n);
    assert !HasHexPrefix(digits) by {
      if |digits| >= 2 {
        assert IsDecimalDigit(digits[1]);
      }
    }
    ParseSignedIgnoresRadix(Show(n));
  }
}
