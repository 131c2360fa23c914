/**
 * Decimal text of 64-bit integers: `long.ToString()` and `long.TryParse(s, out v)` with
 * `NumberStyles.Integer` under a culture whose signs are "-" and "+".
 */
module DecimalText {
  import opened Wrappers
  import opened Numerics
  import opened Text

  function DigitChar(d: int): (c: char)
    requires 0 <= d < 10
    ensures IsAsciiDigit(c)
  {
    ('0' as int + d) as char
  }

  function DigitValue(c: char): (d: nat)
    requires IsAsciiDigit(c)
    ensures d < 10 && DigitChar(d) == c
  {
    c as int - '0' as int
  }

  predicate AllDigits(s: string)
  {
    forall i :: 0 <= i < |s| ==> IsAsciiDigit(s[i])
  }

  /** The decimal digits of `n`, most significant first, without leading zeros. */
  function NatDigits(n: nat): (r: string)
    ensures |r| >= 1 && AllDigits(r)
    ensures |r| > 1 ==> r[0] != '0'
    decreases n
  {
    if n < 10 then [DigitChar(n)] else NatDigits(n / 10) + [DigitChar(n % 10)]
  }

  /** The number a string of decimal digits denotes. */
  function DigitsValue(s: string): nat
    requires AllDigits(s)
    decreases |s|
  {
    if s == [] then 0 else DigitsValue(s[..|s| - 1]) * 10 + DigitValue(s[|s| - 1])
  }

  lemma {:induction false} DigitsValueOfNatDigits(n: nat)
    ensures DigitsValue(NatDigits(n)) == n
    decreases n
  {
    if n >= 10 {
      var r := NatDigits(n);
      DigitsValueOfNatDigits(n / 10);
      assert r[..|r| - 1] == NatDigits(n / 10);
      assert DigitValue(r[|r| - 1]) == n % 10 by {
        assert r[|r| - 1] == DigitChar(n % 10);
      }
    }
  }

  /** `long.ToString()`: an optional "-" followed by the digits of the magnitude. */
  function Int64ToString(v: Int64): (r: string)
    ensures |r| >= 1
    ensures v < 0 <==> r[0] == '-'
    ensures v >= 0 ==> AllDigits(r)
    ensures v < 0 ==> AllDigits(r[1..])
  {
    if v < 0 then "-" + NatDigits(-(v as int)) else NatDigits(v)
  }

  /** The white space `NumberStyles.AllowLeadingWhite`/`AllowTrailingWhite` skip. */
  predicate IsParseWhite(c: char)
  {
    c == ' ' || '\U{0009}' <= c <= '\U{000D}'
  }

  /** The length of the longest prefix of `s` whose characters all satisfy `p`. */
  function PrefixLength(s: string, p: char -> bool): (n: nat)
    ensures n <= |s|
    ensures forall i :: 0 <= i < n ==> p(s[i])
    ensures n < |s| ==> !p(s[n])
    decreases |s|
  {
    if s != [] && p(s[0]) then 1 + PrefixLength(s[1..], p) else 0
  }

  /** What may follow the digits: white space, then NUL characters, then nothing. */
  predicate IsParseTail(t: string)
  {
    var w := PrefixLength(t, IsParseWhite);
    forall j :: w <= j < |t| ==> t[j] == '\U{0000}'
  }

  /** What `long.Parse` makes of a string: the value, a `FormatException` or an `OverflowException`. */
  datatype ParseOutcome = Parsed(value: Int64) | BadFormat | OutOfRange

  /**
   * `long.Parse(s)` with `NumberStyles.Integer`: leading white space, an optional sign, one or
   * more ASCII digits, trailing white space and NULs; a string of that form whose value does
   * not fit in 64 bits overflows, any other string is badly formed.
   */
  function ParseInt64(s: string): (r: ParseOutcome)
  {
    var t := s[PrefixLength(s, IsParseWhite)..];
    var negative := |t| > 0 && t[0] == '-';
    var u := if |t| > 0 && (t[0] == '-' || t[0] == '+') then t[1..] else t;
    var d := PrefixLength(u, IsAsciiDigit);
    if d == 0 || !IsParseTail(u[d..]) then BadFormat
    else
      var m: int := DigitsValue(u[..d]);
      var v: int := if negative then -m else m;
      if INT64_MIN <= v <= INT64_MAX then Parsed(v) else OutOfRange
  }

  /** `long.TryParse(s, out v)`: the value exactly when `long.Parse` would return one. */
  function TryParseInt64(s: string): (r: Option<Int64>)
    ensures r.Some? <==> ParseInt64(s).Parsed?
    ensures r.Some? ==> r.value == ParseInt64(s).value
  {
    match ParseInt64(s)
    case Parsed(v) => Some(v)
    case _ => None
  }

  lemma PrefixLengthAll(s: string, p: char -> bool)
    requires forall i :: 0 <= i < |s| ==> p(s[i])
    ensures PrefixLength(s, p) == |s|
  {
  }

  /** Parsing what `ToString` printed gives the value back. */
  lemma ParseToString(v: Int64)
    ensures TryParseInt64(Int64ToString(v)) == Some(v)
  {
    var s := Int64ToString(v);
    assert !IsParseWhite(s[0]);
    assert PrefixLength(s, IsParseWhite) == 0;
    assert s[0..] == s;
    var u := if v < 0 then s[1..] else s;
    assert u == NatDigits(Abs(v));
    PrefixLengthAll(u, IsAsciiDigit);
    assert u[..|u|] == u;
    DigitsValueOfNatDigits(Abs(v));
    assert IsParseTail(u[|u|..]);
  }

  /** A bare string of digits parses to its value when that fits in 64 bits and overflows otherwise. */
  lemma DigitsParse(s: string)
    requires |s| >= 1 && AllDigits(s)
    ensures ParseInt64(s) == if DigitsValue(s) <= INT64_MAX then Parsed(DigitsValue(s)) else OutOfRange
  {
    assert !IsParseWhite(s[0]);
    assert PrefixLength(s, IsParseWhite) == 0;
    assert s[0..] == s;
    PrefixLengthAll(s, IsAsciiDigit);
    assert s[..|s|] == s;
    assert IsParseTail(s[|s|..]);
  }
}
