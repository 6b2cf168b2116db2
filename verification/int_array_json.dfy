/**
 The connections column holds a JSON array of person ids as text. The graph
 view hands it to `JSON.parse` and iterates the result; this module fixes the
 outcome of that step as the `Parsed` datatype, and gives a reference parser
 and formatter for the part of JSON the column is meant to hold: an array of
 integer literals, with JSON's insignificant whitespace allowed between tokens.
 */
module IntArrayJson {

  /** What the graph code gets out of `JSON.parse`: a list of targets, or nothing usable. */
  datatype Parsed = Fail | Ok(targets: seq<int>)

  /** Result of reading one integer literal at the front of a string. */
  datatype NumberScan = NoNumber | Number(value: int, rest: string)

  /** Result of reading the elements of an array up to and including its `]`. */
  datatype ElementsScan = Malformed | Elements(values: seq<int>, rest: string)

  predicate IsWhitespace(c: char)
  {
    c == ' ' || c == '\t' || c == '\n' || c == '\r'
  }

  predicate IsDigit(c: char)
  {
    '0' <= c <= '9'
  }

  predicate AllDigits(s: string)
  {
    forall i :: 0 <= i < |s| ==> IsDigit(s[i])
  }

  function DigitValue(c: char): nat
    requires IsDigit(c)
  {
    c as int - '0' as int
  }

  function DigitChar(d: nat): (c: char)
    requires d < 10
    ensures IsDigit(c) && DigitValue(c) == d
  {
    ('0' as int + d) as char
  }

  /** Drops the leading whitespace; what is left starts with a non-blank or is empty. */
  function SkipWhitespace(s: string): (r: string)
    ensures |r| <= |s|
    ensures |r| == 0 || !IsWhitespace(r[0])
  {
    if |s| > 0 && IsWhitespace(s[0]) then SkipWhitespace(s[1..]) else s
  }

  /** Length of the longest prefix of `s` made of decimal digits. */
  function DigitRun(s: string): (n: nat)
    ensures n <= |s|
    ensures AllDigits(s[..n])
    ensures n == |s| || !IsDigit(s[n])
  {
    if |s| > 0 && IsDigit(s[0]) then
      var n := 1 + DigitRun(s[1..]);
      assert s[..n] == [s[0]] + s[1..][..n - 1];
      n
    else 0
  }

  /** The value of a string of decimal digits, most significant first. */
  function DigitsValue(ds: string): nat
    requires AllDigits(ds)
  {
    if |ds| == 0 then 0
    else DigitsValue(ds[..|ds| - 1]) * 10 + DigitValue(ds[|ds| - 1])
  }

  /**
   Reads a JSON number without fraction or exponent: an optional minus sign,
   then `0` or a non-zero digit followed by digits. A leading zero ends the
   literal, so `01` is left for the caller to reject.
   */
  function ScanNumber(s: string): (r: NumberScan)
    ensures r.Number? ==> |r.rest| < |s|
  {
    if |s| > 0 && s[0] == '-' then
      match ScanNatural(s[1..])
      case NoNumber => NoNumber
      case Number(v, rest) => Number(-v, rest)
    else ScanNatural(s)
  }

  function ScanNatural(s: string): (r: NumberScan)
    ensures r.Number? ==> |r.rest| < |s| && r.value >= 0
  {
    if |s| == 0 || !IsDigit(s[0]) then NoNumber
    else if s[0] == '0' then Number(0, s[1..])
    else
      var n := DigitRun(s);
      Number(DigitsValue(s[..n]), s[n..])
  }

  /**
   Reads `element (, element)* ]` where `s` starts at the first element; the
   result's `rest` is what follows the closing bracket.
   */
  function ScanElements(s: string): (r: ElementsScan)
    ensures r.Elements? ==> |r.rest| < |s|
    decreases |s|
  {
    match ScanNumber(s)
    case NoNumber => Malformed
    case Number(v, rest) =>
      var t := SkipWhitespace(rest);
      if |t| == 0 then Malformed
      else if t[0] == ']' then Elements([v], t[1..])
      else if t[0] == ',' then
        match ScanElements(SkipWhitespace(t[1..]))
        case Malformed => Malformed
        case Elements(vs, r) => Elements([v] + vs, r)
      else Malformed
  }

  /** Reference parser: a whole string holding one JSON array of integers, and nothing else. */
  function ParseIntArray(s: string): Parsed
  {
    var t := SkipWhitespace(s);
    if |t| == 0 || t[0] != '[' then Fail
    else
      var u := SkipWhitespace(t[1..]);
      if |u| > 0 && u[0] == ']' then
        if SkipWhitespace(u[1..]) == "" then Ok([]) else Fail
      else
        match ScanElements(u)
        case Malformed => Fail
        case Elements(vs, rest) => if SkipWhitespace(rest) == "" then Ok(vs) else Fail
  }

  /** Decimal digits of a natural number, without leading zeros. */
  function FormatNatural(n: nat): (s: string)
    ensures |s| > 0 && AllDigits(s)
    ensures n > 0 ==> s[0] != '0'
  {
    if n < 10 then [DigitChar(n)]
    else
      var s := FormatNatural(n / 10) + [DigitChar(n % 10)];
      assert s[0] == FormatNatural(n / 10)[0];
      s
  }

  function FormatInt(x: int): (s: string)
    ensures |s| > 0 && (s[0] == '-' || IsDigit(s[0]))
  {
    if x < 0 then "-" + FormatNatural(-x) else FormatNatural(x)
  }

  /** The elements of an array, comma-separated, as `JSON.stringify` writes them. */
  function FormatElements(xs: seq<int>): (s: string)
    ensures |xs| > 0 ==> |s| > 0 && (s[0] == '-' || IsDigit(s[0]))
  {
    if |xs| == 0 then ""
    else if |xs| == 1 then FormatInt(xs[0])
    else FormatInt(xs[0]) + "," + FormatElements(xs[1..])
  }

  /** `JSON.stringify` of an integer array: the text the seed rows and the form's default hold. */
  function FormatIntArray(xs: seq<int>): string
  {
    "[" + FormatElements(xs) + "]"
  }

  lemma {:induction false} DigitRunOfDigits(ds: string, rest: string)
    requires AllDigits(ds)
    requires |rest| == 0 || !IsDigit(rest[0])
    ensures DigitRun(ds + rest) == |ds|
    decreases |ds|
  {
    if |ds| > 0 {
      assert (ds + rest)[1..] == ds[1..] + rest;
      DigitRunOfDigits(ds[1..], rest);
    } else {
      assert ds + rest == rest;
    }
  }

  lemma {:induction false} DigitsValueOfFormat(n: nat)
    ensures DigitsValue(FormatNatural(n)) == n
  {
    var s := FormatNatural(n);
    if n >= 10 {
      assert s[..|s| - 1] == FormatNatural(n / 10);
      DigitsValueOfFormat(n / 10);
    }
  }

  /** Reading back a formatted natural stops exactly where the digits end. */
  lemma ScanNaturalOfFormat(n: nat, rest: string)
    requires |rest| == 0 || !IsDigit(rest[0])
    ensures ScanNatural(FormatNatural(n) + rest) == Number(n, rest)
  {
    var f := FormatNatural(n);
    var s := f + rest;
    assert s[0] == f[0];
    if n == 0 {
      assert f == ['0'];
      assert s[1..] == rest;
    } else {
      DigitRunOfDigits(f, rest);
      assert s[..|f|] == f;
      assert s[|f|..] == rest;
      DigitsValueOfFormat(n);
    }
  }

  lemma ScanNumberOfFormat(x: int, rest: string)
    requires |rest| == 0 || !IsDigit(rest[0])
    ensures ScanNumber(FormatInt(x) + rest) == Number(x, rest)
  {
    if x < 0 {
      var f := FormatNatural(-x);
      var s := "-" + f + rest;
      assert FormatInt(x) + rest == s;
      assert s[0] == '-';
      assert s[1..] == f + rest;
      ScanNaturalOfFormat(-x, rest);
    } else {
      ScanNaturalOfFormat(x, rest);
    }
  }

  lemma SkipWhitespaceAtToken(s: string)
    requires |s| > 0 && !IsWhitespace(s[0])
    ensures SkipWhitespace(s) == s
  {
  }

  /** One element followed by the closing bracket. */
  lemma ScanLastElement(s: string, v: int, rest: string)
    requires ScanNumber(s) == Number(v, "]" + rest)
    ensures ScanElements(s) == Elements([v], rest)
  {
    var t := "]" + rest;
    SkipWhitespaceAtToken(t);
    assert t[1..] == rest;
  }

  /** One element followed by a comma and the remaining elements. */
  lemma ScanNextElement(s: string, v: int, tail: string, vs: seq<int>, rest: string)
    requires ScanNumber(s) == Number(v, "," + tail)
    requires |tail| > 0 && !IsWhitespace(tail[0])
    requires ScanElements(tail) == Elements(vs, rest)
    ensures ScanElements(s) == Elements([v] + vs, rest)
  {
    var t := "," + tail;
    SkipWhitespaceAtToken(t);
    assert t[1..] == tail;
    SkipWhitespaceAtToken(tail);
  }

  lemma FormatElementsSplit(xs: seq<int>, rest: string)
    requires |xs| > 1
    ensures FormatElements(xs) + ("]" + rest)
            == FormatInt(xs[0]) + ("," + (FormatElements(xs[1..]) + ("]" + rest)))
  {
    ConcatAssociates(FormatInt(xs[0]), ",", FormatElements(xs[1..]), "]" + rest);
  }

  lemma ConcatAssociates(a: string, b: string, c: string, d: string)
    ensures a + b + c + d == a + (b + (c + d))
  {
  }

  lemma {:induction false} ScanElementsOfFormat(xs: seq<int>, rest: string)
    requires |xs| > 0
    ensures ScanElements(FormatElements(xs) + ("]" + rest)) == Elements(xs, rest)
    decreases |xs|
  {
    var f := FormatInt(xs[0]);
    if |xs| == 1 {
      ScanNumberOfFormat(xs[0], "]" + rest);
      ScanLastElement(f + ("]" + rest), xs[0], rest);
    } else {
      var tail := FormatElements(xs[1..]) + ("]" + rest);
      FormatElementsSplit(xs, rest);
      ScanNumberOfFormat(xs[0], "," + tail);
      ScanElementsOfFormat(xs[1..], rest);
      ScanNextElement(f + ("," + tail), xs[0], tail, xs[1..], rest);
      assert [xs[0]] + xs[1..] == xs;
    }
  }

  /** The reference parser reads back exactly the list the formatter wrote. */
  lemma ParseFormatRoundTrip(xs: seq<int>)
    ensures ParseIntArray(FormatIntArray(xs)) == Ok(xs)
  {
    var s := FormatIntArray(xs);
    SkipWhitespaceAtToken(s);
    var u := s[1..];
    assert u == FormatElements(xs) + ("]" + "");
    if |xs| == 0 {
      assert u == "]";
      assert u[1..] == "";
    } else {
      SkipWhitespaceAtToken(u);
      ScanElementsOfFormat(xs, "");
    }
  }
}
