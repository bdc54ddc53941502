/**
  The part of Go's `strings` and `fmt` packages that the embroidery rig relies on:
  prefix and suffix trimming, `strings.Index` and `strings.Split` for a one-character
  separator, the `%g` and `%d` scanning verbs of `fmt.Sscanf`, and the `%d` and `%.2f`
  printing verbs of `fmt.Sprintf`.

  Numbers are scanned in the form sign, decimal digits, optional fraction; exponents,
  `inf`/`nan`, hexadecimal forms, digit separators and the blank skipping that `Sscanf`
  does before a number are not part of this model.
*/
module Text {
  import opened Wrappers

  predicate IsDigit(c: char) { '0' <= c <= '9' }

  predicate AllDigits(d: string) { forall k :: 0 <= k < |d| ==> IsDigit(d[k]) }

  function DigitValue(c: char): (d: nat)
    requires IsDigit(c)
    ensures d < 10
  {
    c as int - '0' as int
  }

  function DigitChar(d: nat): (c: char)
    requires d < 10
    ensures IsDigit(c) && DigitValue(c) == d
  {
    ('0' as int + d) as char
  }

  function Abs(x: real): (r: real)
    ensures r >= 0.0 && (r == x || r == -x)
  {
    if x < 0.0 then -x else x
  }

  // ---------------------------------------------------------------- strings

  predicate HasPrefix(s: string, p: string) { |p| <= |s| && s[..|p|] == p }

  predicate HasSuffix(s: string, p: string) { |p| <= |s| && s[|s| - |p|..] == p }

  /** strings.TrimPrefix: removes p once from the front of s when s starts with it. */
  function TrimPrefix(s: string, p: string): (r: string)
    ensures HasPrefix(s, p) ==> s == p + r
    ensures !HasPrefix(s, p) ==> r == s
  {
    if HasPrefix(s, p) then s[|p|..] else s
  }

  /** strings.TrimSuffix: removes p once from the end of s when s ends with it. */
  function TrimSuffix(s: string, p: string): (r: string)
    ensures HasSuffix(s, p) ==> s == r + p
    ensures !HasSuffix(s, p) ==> r == s
  {
    if HasSuffix(s, p) then s[..|s| - |p|] else s
  }

  /** strings.Index for a one-character needle: the first position of c in s, or -1. */
  function Index(s: string, c: char): (r: int)
    ensures -1 <= r < |s|
    ensures r == -1 <==> c !in s
    ensures r >= 0 ==> s[r] == c && c !in s[..r]
  {
    if |s| == 0 then -1
    else if s[0] == c then 0
    else
      var k := Index(s[1..], c);
      if k == -1 then -1
      else
        assert s[..k + 1] == [s[0]] + s[1..][..k];
        k + 1
  }

  /** strings.Split for a one-character separator: the pieces between separators, at least one. */
  function Split(s: string, sep: char): (parts: seq<string>)
    ensures |parts| >= 1
    ensures forall k :: 0 <= k < |parts| ==> sep !in parts[k]
    decreases |s|
  {
    var i := Index(s, sep);
    if i < 0 then [s] else [s[..i]] + Split(s[i + 1..], sep)
  }

  /** strings.Join, the inverse of Split. */
  function Join(parts: seq<string>, sep: char): string
    requires |parts| >= 1
  {
    if |parts| == 1 then parts[0] else parts[0] + [sep] + Join(parts[1..], sep)
  }

  /** Splitting a joined list gives the list back, provided no piece holds the separator. */
  lemma {:induction false} SplitJoin(parts: seq<string>, sep: char)
    requires |parts| >= 1
    requires forall k :: 0 <= k < |parts| ==> sep !in parts[k]
    ensures Split(Join(parts, sep), sep) == parts
  {
    if |parts| == 1 {
      assert Index(parts[0], sep) == -1;
    } else {
      var a, rest := parts[0], Join(parts[1..], sep);
      SplitAfterPiece(a, sep, rest);
      SplitJoin(parts[1..], sep);
    }
  }

  lemma SplitAfterPiece(a: string, sep: char, rest: string)
    requires sep !in a
    ensures Split(a + [sep] + rest, sep) == [a] + Split(rest, sep)
  {
    var s := a + [sep] + rest;
    IndexAfterPrefix(a, sep, rest);
    assert s[..|a|] == a;
    assert s[|a| + 1..] == rest;
  }

  lemma IndexAfterPrefix(a: string, c: char, rest: string)
    requires c !in a
    ensures Index(a + [c] + rest, c) == |a|
  {
    assert (a + [c] + rest)[|a|] == c;
  }

  // ---------------------------------------------------------------- scanning

  /** The number of decimal digits at the start of s. */
  function LeadingDigits(s: string): (n: nat)
    ensures n <= |s|
    ensures forall k :: 0 <= k < n ==> IsDigit(s[k])
    ensures n < |s| ==> !IsDigit(s[n])
  {
    if |s| > 0 && IsDigit(s[0]) then 1 + LeadingDigits(s[1..]) else 0
  }

  /** The value of a string of decimal digits (0 for the empty string). */
  function DigitsValue(d: string): nat
    requires AllDigits(d)
  {
    if |d| == 0 then 0 else 10 * DigitsValue(d[..|d| - 1]) + DigitValue(d[|d| - 1])
  }

  function Pow10(m: nat): (p: nat)
    ensures p >= 1
  {
    if m == 0 then 1 else 10 * Pow10(m - 1)
  }

  /** The length of an optional leading sign. */
  function SignLength(s: string): (n: nat)
    ensures n <= 1 && n <= |s|
  {
    if |s| > 0 && (s[0] == '-' || s[0] == '+') then 1 else 0
  }

  /**
    An unsigned decimal number at the start of s, as the %g verb reads it: digits and an
    optional fraction, with at least one digit overall. Gives the value and the number of
    characters read.
  */
  function ScanUnsignedFloat(s: string): (r: Option<(real, nat)>)
    ensures r.Some? ==> 0 < r.value.1 <= |s| && r.value.0 >= 0.0
  {
    var n := LeadingDigits(s);
    var whole := DigitsValue(s[..n]);
    if n < |s| && s[n] == '.' then
      var m := LeadingDigits(s[n + 1..]);
      if n + m == 0 then None
      else Some((DecimalValue(whole, DigitsValue(s[n + 1..][..m]), m), n + 1 + m))
    else if n == 0 then None
    else Some((whole as real, n))
  }

  /** The value of the decimal text `whole.frac` where frac has m digits. */
  function DecimalValue(whole: nat, frac: nat, m: nat): (v: real)
    ensures v >= 0.0
  {
    whole as real + frac as real / Pow10(m) as real
  }

  /** The %g verb of fmt.Sscanf: an optionally signed decimal number at the start of s. */
  function ScanFloat(s: string): (r: Option<(real, nat)>)
    ensures r.Some? ==> 0 < r.value.1 <= |s|
  {
    var k := SignLength(s);
    match ScanUnsignedFloat(s[k..])
    case None => None
    case Some((v, n)) => Some((if k == 1 && s[0] == '-' then -v else v, k + n))
  }

  /** The %d verb of fmt.Sscanf: an optionally signed decimal integer at the start of s. */
  function ScanInt(s: string): (r: Option<(int, nat)>)
    ensures r.Some? ==> 0 < r.value.1 <= |s|
  {
    var k := SignLength(s);
    var n := LeadingDigits(s[k..]);
    if n == 0 then None
    else
      var v: int := DigitsValue(s[k..][..n]);
      Some((if k == 1 && s[0] == '-' then -v else v, k + n))
  }

  /**
    fmt.Sscanf(token, "<letter>%g", &x) where only the value matters: None when the letter
    does not match or no number follows (x is then left as it was).
  */
  function ScanLetterFloat(token: string, letter: char): (r: Option<real>)
    ensures r.Some? ==> |token| > 1 && token[0] == letter
  {
    if |token| > 0 && token[0] == letter then
      match ScanFloat(token[1..])
      case None => None
      case Some((v, _)) => Some(v)
    else None
  }

  /** fmt.Sscanf(token, "<letter>%d", &n). */
  function ScanLetterInt(token: string, letter: char): (r: Option<int>)
    ensures r.Some? ==> |token| > 1 && token[0] == letter
  {
    if |token| > 0 && token[0] == letter then
      match ScanInt(token[1..])
      case None => None
      case Some((v, _)) => Some(v)
    else None
  }

  /** One piece of an Sscanf format: literal text that must match, or a %g verb. */
  datatype Verb = Lit(text: string) | Float

  /**
    The outcome of fmt.Sscanf over a format made of literals and %g verbs: the values
    assigned before the first mismatch (their count is Sscanf's n) and whether the whole
    format matched (err == nil). Input left over after the format is ignored, as Sscanf does.
  */
  datatype Scanned = Scanned(values: seq<real>, ok: bool)

  function Scanf(input: string, format: seq<Verb>): (r: Scanned)
    ensures r.ok ==> |r.values| == CountFloats(format)
    ensures |r.values| <= CountFloats(format)
  {
    if format == [] then Scanned([], true)
    else match format[0]
      case Lit(t) =>
        if HasPrefix(input, t) then Scanf(input[|t|..], format[1..]) else Scanned([], false)
      case Float =>
        match ScanFloat(input)
        case None => Scanned([], false)
        case Some((v, n)) =>
          var r := Scanf(input[n..], format[1..]);
          Scanned([v] + r.values, r.ok)
  }

  function CountFloats(format: seq<Verb>): nat
  {
    if format == [] then 0 else (if format[0] == Float then 1 else 0) + CountFloats(format[1..])
  }

  // ---------------------------------------------------------------- printing

  /** The %d verb for a natural number. */
  function FormatNat(n: nat): (s: string)
    ensures |s| >= 1 && AllDigits(s) && DigitsValue(s) == n
  {
    if n < 10 then [DigitChar(n)]
    else
      var s := FormatNat(n / 10) + [DigitChar(n % 10)];
      assert s[..|s| - 1] == FormatNat(n / 10);
      s
  }

  /** The %d verb. */
  function FormatInt(i: int): string
  {
    if i < 0 then "-" + FormatNat(-i) else FormatNat(i)
  }

  /** The nearest integer to a >= 0, ties to the even neighbour. */
  function RoundHalfEven(a: real): (n: nat)
    requires a >= 0.0
    ensures n as real - 0.5 <= a <= n as real + 0.5
  {
    var f := a.Floor;
    var frac := a - f as real;
    if frac > 0.5 then f + 1
    else if frac < 0.5 then f
    else if f % 2 == 0 then f
    else f + 1
  }

  /** The value that the %.2f verb prints for x. */
  function Round2(x: real): (r: real)
    ensures x - 0.005 <= r <= x + 0.005
  {
    var n := RoundHalfEven(Abs(x) * 100.0);
    if x < 0.0 then -(n as real / 100.0) else n as real / 100.0
  }

  /** The %.2f verb: sign, integer part, point and two decimals of the correctly rounded value. */
  function Fixed2(x: real): string
  {
    (if x < 0.0 then "-" else "") + Hundredths(RoundHalfEven(Abs(x) * 100.0))
  }

  /** n / 100 written with two decimals. */
  function Hundredths(n: nat): (s: string)
    ensures |s| >= 4 && IsDigit(s[0])
  {
    FormatNat(n / 100) + "." + [DigitChar(n / 10 % 10), DigitChar(n % 10)]
  }

  // ---------------------------------------------------------------- round trips

  lemma LeadingDigitsOfDigits(d: string, rest: string)
    requires AllDigits(d)
    requires rest == [] || !IsDigit(rest[0])
    ensures LeadingDigits(d + rest) == |d|
    ensures (d + rest)[..|d|] == d
  {
    assert forall k :: 0 <= k < |d| ==> (d + rest)[k] == d[k];
    assert |rest| > 0 ==> (d + rest)[|d|] == rest[0];
  }

  /** Scanning with %d what %d printed gives the integer back. */
  lemma ScanFormatInt(i: int, rest: string)
    requires rest == [] || !IsDigit(rest[0])
    ensures ScanInt(FormatInt(i) + rest) == Some((i, |FormatInt(i)|))
  {
    if i < 0 {
      ScanNegative(FormatNat(-i), rest);
    } else {
      ScanNonNegative(FormatNat(i), rest);
    }
  }

  /** %d reads a minus sign followed by digits as the negated value of the digits. */
  lemma ScanNegative(d: string, rest: string)
    requires |d| >= 1 && AllDigits(d)
    requires rest == [] || !IsDigit(rest[0])
    ensures ScanInt("-" + d + rest) == Some((-(DigitsValue(d) as int), 1 + |d|))
  {
    MinusSign(d, rest);
    ScanAfterSign("-" + d + rest, 1, d, rest);
  }

  /** %d reads unsigned digits as their value. */
  lemma ScanNonNegative(d: string, rest: string)
    requires |d| >= 1 && AllDigits(d)
    requires rest == [] || !IsDigit(rest[0])
    ensures ScanInt(d + rest) == Some((DigitsValue(d) as int, |d|))
  {
    NoSign(d, rest);
    ScanAfterSign(d + rest, 0, d, rest);
  }

  lemma MinusSign(d: string, rest: string)
    ensures var s := "-" + d + rest; SignLength(s) == 1 && s[0] == '-' && s[1..] == d + rest
  {
  }

  lemma NoSign(d: string, rest: string)
    requires |d| >= 1 && IsDigit(d[0])
    ensures SignLength(d + rest) == 0 && (d + rest)[0..] == d + rest
  {
    assert (d + rest)[0] == d[0];
  }

  /** Once the sign is read, %d reads exactly the digits that follow it. */
  lemma ScanAfterSign(s: string, k: nat, d: string, rest: string)
    requires k == SignLength(s) && k <= |s| && s[k..] == d + rest
    requires |d| >= 1 && AllDigits(d)
    requires rest == [] || !IsDigit(rest[0])
    ensures ScanInt(s) == Some((if k == 1 && s[0] == '-' then -(DigitsValue(d) as int) else DigitsValue(d) as int, k + |d|))
  {
    DigitsAfterSign(s, k, d, rest);
    ScanIntParts(s, k, |d|, DigitsValue(d));
  }

  lemma DigitsAfterSign(s: string, k: nat, d: string, rest: string)
    requires k <= |s| && s[k..] == d + rest && AllDigits(d)
    requires rest == [] || !IsDigit(rest[0])
    ensures LeadingDigits(s[k..]) == |d| && s[k..][..|d|] == d && AllDigits(s[k..][..|d|])
    ensures DigitsValue(s[k..][..|d|]) == DigitsValue(d)
  {
    LeadingDigitsOfDigits(d, rest);
  }

  /** %d gives the signed value of the leading digits after the sign, and the characters read. */
  lemma ScanIntParts(s: string, k: nat, n: nat, v: int)
    requires k == SignLength(s) && n == LeadingDigits(s[k..]) && n > 0
    requires AllDigits(s[k..][..n]) && v == DigitsValue(s[k..][..n])
    ensures ScanInt(s) == Some((if k == 1 && s[0] == '-' then -v else v, k + n))
  {
  }

  /** Scanning with %g what %.2f printed gives the printed value back. */
  lemma ScanFixed2(x: real, rest: string)
    requires rest == [] || !IsDigit(rest[0])
    ensures var r := ScanFloat(Fixed2(x) + rest);
      r.Some? && r.value.0 == Round2(x) && r.value.1 == |Fixed2(x)|
  {
    Fixed2Shape(x, rest);
    ScanSignedHundredths(x < 0.0, RoundHalfEven(Abs(x) * 100.0), rest);
  }

  /** %.2f writes an optional minus sign and the hundredths of the rounded magnitude. */
  lemma Fixed2Shape(x: real, rest: string)
    ensures x < 0.0 ==> Fixed2(x) + rest == "-" + (Hundredths(RoundHalfEven(Abs(x) * 100.0)) + rest)
    ensures x >= 0.0 ==> Fixed2(x) + rest == Hundredths(RoundHalfEven(Abs(x) * 100.0)) + rest
    ensures x < 0.0 ==> Round2(x) == -(RoundHalfEven(Abs(x) * 100.0) as real / 100.0)
    ensures x >= 0.0 ==> Round2(x) == RoundHalfEven(Abs(x) * 100.0) as real / 100.0
    ensures |Fixed2(x)| == (if x < 0.0 then 1 else 0) + |Hundredths(RoundHalfEven(Abs(x) * 100.0))|
  {
  }

  lemma ScanSignedHundredths(neg: bool, n: nat, rest: string)
    requires rest == [] || !IsDigit(rest[0])
    ensures var h := Hundredths(n) + rest;
      var r := ScanFloat(if neg then "-" + h else h);
      && r.Some?
      && r.value.0 == (if neg then -(n as real / 100.0) else n as real / 100.0)
      && r.value.1 == (if neg then 1 else 0) + |Hundredths(n)|
  {
    var h := Hundredths(n) + rest;
    ScanHundredths(n, rest);
    assert h[0] == Hundredths(n)[0];
    if neg {
      ScanMinus(h);
    } else {
      ScanUnsigned(h);
    }
  }

  lemma ScanHundredths(n: nat, rest: string)
    requires rest == [] || !IsDigit(rest[0])
    ensures var r := ScanUnsignedFloat(Hundredths(n) + rest);
      r.Some? && r.value.0 == n as real / 100.0 && r.value.1 == |Hundredths(n)|
  {
    var whole := FormatNat(n / 100);
    var frac := [DigitChar(n / 10 % 10), DigitChar(n % 10)];
    assert Hundredths(n) + rest == whole + ("." + frac + rest);
    ScanDecimal(whole, frac, rest);
    TwoDigits(n);
  }

  /** %g reads a number that starts with a digit as an unsigned one. */
  lemma ScanUnsigned(u: string)
    requires |u| > 0 && IsDigit(u[0])
    ensures ScanFloat(u) == ScanUnsignedFloat(u)
  {
    assert SignLength(u) == 0;
    assert u[0..] == u;
  }

  /** %g reads a minus sign in front of an unsigned number as its negation. */
  lemma ScanMinus(u: string)
    requires |u| > 0 && IsDigit(u[0])
    ensures ScanUnsignedFloat(u).Some? ==>
      ScanFloat("-" + u) == Some((-ScanUnsignedFloat(u).value.0, 1 + ScanUnsignedFloat(u).value.1))
  {
    var s := "-" + u;
    assert SignLength(s) == 1;
    assert s[1..] == u;
  }

  lemma TwoDigits(n: nat)
    ensures var frac := [DigitChar(n / 10 % 10), DigitChar(n % 10)];
      AllDigits(frac) &&
      DecimalValue(DigitsValue(FormatNat(n / 100)), DigitsValue(frac), 2) == n as real / 100.0
  {
    var frac := [DigitChar(n / 10 % 10), DigitChar(n % 10)];
    assert frac[..1] == [DigitChar(n / 10 % 10)];
    assert frac[..1][..0] == [];
    assert DigitsValue(frac[..1]) == n / 10 % 10;
    assert DigitsValue(frac) == 10 * (n / 10 % 10) + n % 10;
    Hundreds(n);
    assert Pow10(2) == 100;
    HundredthsValue(n / 100, n % 100);
  }

  /** The last two decimal digits of n, and what is left above them. */
  lemma Hundreds(n: nat)
    ensures n % 100 == 10 * (n / 10 % 10) + n % 10
    ensures n == 100 * (n / 100) + n % 100
  {
    var q := n / 10;
    assert n == 10 * q + n % 10;
    assert q == 10 * (q / 10) + q % 10;
    assert n == 100 * (q / 10) + (10 * (q % 10) + n % 10);
  }

  lemma HundredthsValue(h: nat, r: nat)
    ensures h as real + r as real / 100.0 == (100 * h + r) as real / 100.0
  {
  }

  /** %g reads digits, a point and fraction digits, and stops at the first other character. */
  lemma ScanDecimal(whole: string, frac: string, rest: string)
    requires |whole| >= 1 && AllDigits(whole) && AllDigits(frac)
    requires rest == [] || !IsDigit(rest[0])
    ensures var r := ScanUnsignedFloat(whole + ("." + frac + rest));
      r.Some? && r.value.0 == DecimalValue(DigitsValue(whole), DigitsValue(frac), |frac|)
      && r.value.1 == |whole| + 1 + |frac|
  {
    DecimalShape(whole, frac, rest);
    var u := whole + ("." + frac + rest);
    ScanFloatParts(u, |whole|, DigitsValue(whole), |frac|, DigitsValue(frac));
  }

  /** %g reads digits, a point and more digits as the decimal they spell. */
  lemma ScanFloatParts(u: string, n: nat, w: nat, m: nat, f: nat)
    requires n >= 1 && n == LeadingDigits(u) && n < |u| && u[n] == '.' && m == LeadingDigits(u[n + 1..])
    requires AllDigits(u[..n]) && w == DigitsValue(u[..n])
    requires AllDigits(u[n + 1..][..m]) && f == DigitsValue(u[n + 1..][..m])
    ensures ScanUnsignedFloat(u) == Some((DecimalValue(w, f, m), n + 1 + m))
  {
    ScanPointed(u, n, m);
  }

  lemma ScanPointed(u: string, n: nat, m: nat)
    requires n >= 1 && n == LeadingDigits(u) && n < |u| && u[n] == '.' && m == LeadingDigits(u[n + 1..])
    ensures ScanUnsignedFloat(u) == Some((DecimalValue(DigitsValue(u[..n]), DigitsValue(u[n + 1..][..m]), m), n + 1 + m))
  {
  }

  /** Where the digits, the point and the fraction of `whole.frac` followed by rest lie. */
  lemma DecimalShape(whole: string, frac: string, rest: string)
    requires |whole| >= 1 && AllDigits(whole) && AllDigits(frac)
    requires rest == [] || !IsDigit(rest[0])
    ensures var u := whole + ("." + frac + rest);
      var n := LeadingDigits(u);
      n == |whole| && u[..n] == whole && n < |u| && u[n] == '.' &&
      LeadingDigits(u[n + 1..]) == |frac| && u[n + 1..][..|frac|] == frac
  {
    var tail := "." + frac + rest;
    var u := whole + tail;
    LeadingDigitsOfDigits(whole, tail);
    assert u[|whole|] == tail[0] == '.';
    assert u[|whole| + 1..] == frac + rest;
    LeadingDigitsOfDigits(frac, rest);
  }

  lemma NoSpaceInFixed2(x: real)
    ensures ' ' !in Fixed2(x) && ',' !in Fixed2(x)
  {
    var n := RoundHalfEven(Abs(x) * 100.0);
    var s := Fixed2(x);
    var whole := FormatNat(n / 100);
    var t := (if x < 0.0 then "-" else "") + whole;
    assert s == t + "." + [DigitChar(n / 10 % 10), DigitChar(n % 10)];
    forall k | 0 <= k < |s| ensures s[k] != ' ' && s[k] != ','
    {
      if k < |t| {
        assert s[k] == t[k];
        if x < 0.0 && k > 0 { assert t[k] == whole[k - 1]; }
        if x >= 0.0 { assert t[k] == whole[k]; }
      }
    }
  }

  lemma NoSpaceInFormatInt(i: int)
    ensures ' ' !in FormatInt(i)
  {
    var d := FormatNat(if i < 0 then -i else i);
    var s := FormatInt(i);
    forall k | 0 <= k < |s| ensures s[k] != ' '
    {
      if i < 0 && k > 0 { assert s[k] == d[k - 1]; }
    }
  }

  /** %d prints distinct integers as distinct text. */
  lemma FormatIntInjective(i: int, j: int)
    requires FormatInt(i) == FormatInt(j)
    ensures i == j
  {
    ScanFormatInt(i, []);
    ScanFormatInt(j, []);
    assert FormatInt(i) + [] == FormatInt(i);
    assert FormatInt(j) + [] == FormatInt(j);
  }
}
