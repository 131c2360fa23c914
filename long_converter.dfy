/**
 * The JSON converter that writes a `long` as a JSON string and reads it back from either
 * a string token or any token `Convert.ToInt64` accepts.
 */
module LongConverter {
  import opened Wrappers
  import opened Numerics
  import opened DecimalText

  /** The JSON tokens the reader can present (floating-point and date tokens are not modelled). */
  datatype JsonToken =
    | StringToken(text: string)
    | IntegerToken(number: int)
    | BooleanToken(flag: bool)
    | NullToken

  /** The exceptions `Convert.ToInt64` throws. */
  datatype ConvertError =
    | FormatError       // FormatException: a string `long.Parse` cannot read
    | OverflowError     // OverflowException: a well-formed string beyond 64 bits
    | InvalidCastError  // InvalidCastException: the reader's BigInteger for an integer beyond 64 bits

  /** `WriteJson`: the value is written as the JSON string of its decimal text. */
  function WriteJson(value: Int64): (t: JsonToken)
    ensures t.StringToken? && |t.text| >= 1
    ensures value < 0 <==> t.text[0] == '-'
  {
    StringToken(Int64ToString(value))
  }

  /**
   * `Convert.ToInt64(reader.Value)` for the value of each token kind. An integer beyond 64 bits
   * reaches it as a `BigInteger`, which is not `IConvertible`; a string goes through `long.Parse`.
   */
  function ConvertToInt64(t: JsonToken): (r: Result<Int64, ConvertError>)
    ensures t.NullToken? ==> r == Ok(0)
    ensures t.BooleanToken? ==> r == Ok(if t.flag then 1 else 0)
    ensures t.IntegerToken? ==> (r.Ok? <==> INT64_MIN <= t.number <= INT64_MAX)
    ensures t.IntegerToken? && r.Ok? ==> r.value == t.number
    ensures t.IntegerToken? && r.Err? ==> r.error == InvalidCastError
    ensures t.StringToken? ==> (r.Ok? <==> ParseInt64(t.text).Parsed?)
    ensures t.StringToken? && r.Ok? ==> r.value == ParseInt64(t.text).value
    ensures t.StringToken? && ParseInt64(t.text).BadFormat? ==> r == Err(FormatError)
    ensures t.StringToken? && ParseInt64(t.text).OutOfRange? ==> r == Err(OverflowError)
  {
    match t
    case NullToken => Ok(0)
    case BooleanToken(b) => Ok(if b then 1 else 0)
    case IntegerToken(n) => if INT64_MIN <= n <= INT64_MAX then Ok(n) else Err(InvalidCastError)
    case StringToken(s) =>
      match ParseInt64(s)
      case Parsed(v) => Ok(v)
      case BadFormat => Err(FormatError)
      case OutOfRange => Err(OverflowError)
  }

  /**
   * `ReadJson`: a string token that `long.TryParse` accepts gives that long; any other
   * token goes to `Convert.ToInt64`.
   */
  function ReadJson(t: JsonToken): (r: Result<Int64, ConvertError>)
    ensures t.StringToken? && TryParseInt64(t.text).Some? ==> r == Ok(TryParseInt64(t.text).value)
    ensures t.StringToken? && ParseInt64(t.text).BadFormat? ==> r == Err(FormatError)
    ensures t.StringToken? && ParseInt64(t.text).OutOfRange? ==> r == Err(OverflowError)
    ensures !t.StringToken? ==> r == ConvertToInt64(t)
  {
    if t.StringToken? && TryParseInt64(t.text).Some? then Ok(TryParseInt64(t.text).value)
    else ConvertToInt64(t)
  }

  /** A string of digits too large for a long is read as an `OverflowException`, not a format error. */
  lemma ReadOversizedDigits(s: string)
    requires |s| >= 1 && AllDigits(s) && DigitsValue(s) > INT64_MAX
    ensures ReadJson(StringToken(s)) == Err(OverflowError)
  {
    DigitsParse(s);
  }

  /** Every long survives a write followed by a read. */
  lemma {:induction false} ReadWriteRoundTrip(value: Int64)
    ensures ReadJson(WriteJson(value)) == Ok(value)
  {
    ParseToString(value);
  }
}
