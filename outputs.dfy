/** The sealed result type every stage of the pipeline returns, and the
    exceptions that the Kotlin code throws or catches. */
module Outputs {

  datatype Option<+T> = None | Some(value: T)

  /** An exception as the code sees it. Only the kind and, where the code
      chooses it, the message matter to the model. */
  datatype Exception =
    | RuntimeException(message: string)   // thrown explicitly by this code base
    | IndexOutOfBounds(index: int)        // a List or array access out of range
    | LibraryException(message: string)   // thrown inside a library (Multik, OpenCV, java.util)

  /** `Output<T>`: `Success(data)` or `Failure(msg, e)` with an optional cause. */
  datatype Output<+T> = Success(data: T) | Failure(msg: string, cause: Option<Exception>)

  /** How a Kotlin call ends: it returns a value, or an exception escapes it. */
  datatype Try<+T> = Returned(value: T) | Thrown(exception: Exception)

  /** The number a string of decimal digits denotes, most significant first. */
  function DecimalValue(s: string): int
  {
    if s == [] then 0 else DecimalValue(s[..|s| - 1]) * 10 + (s[|s| - 1] as int - '0' as int)
  }

  /** The number a decimal numeral with an optional leading '-' denotes. */
  function SignedDecimalValue(s: string): int
  {
    if |s| > 0 && s[0] == '-' then -DecimalValue(s[1..]) else DecimalValue(s)
  }

  /** Decimal rendering of a non-negative Int, as string templates print it:
      digits that denote n, without a leading zero. */
  function NatToString(n: nat): (s: string)
    ensures |s| >= 1
    ensures forall k :: 0 <= k < |s| ==> '0' <= s[k] <= '9'
    ensures DecimalValue(s) == n
    ensures s[0] == '0' ==> n == 0
  {
    var digit := ('0' as int + n % 10) as char;
    if n < 10 then
      assert [digit][..0] == [];
      [digit]
    else
      var prefix := NatToString(n / 10);
      var s := prefix + [digit];
      assert s[..|s| - 1] == prefix;
      s
  }

  /** Decimal rendering of an Int: a '-' before the digits of a negative
      value. The text denotes i, so different values print differently. */
  function IntToString(i: int): (s: string)
    ensures |s| >= 1
    ensures forall k :: 0 <= k < |s| ==> s[k] == '-' || '0' <= s[k] <= '9'
    ensures SignedDecimalValue(s) == i
  {
    if i < 0 then
      var s := "-" + NatToString(-i);
      assert s[1..] == NatToString(-i);
      s
    else NatToString(i)
  }
}
