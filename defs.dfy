/** Assertion and unit helpers of the engine (src/defs.h). */
module Defs {

  /** The outcome of an operation that either yields a value or aborts with an error. */
  datatype Result<+T, +E> = Ok(value: T) | Err(error: E)

  /** What `__M_Assert` prints before it aborts the process. */
  datatype AssertFailure = AssertFailure(msg: string, expr: string, file: string, line: int)

  /**
   * `__M_Assert(expr_str, expr, file, line, msg)`: the process aborts, reporting the
   * failed expression, its place and the message, exactly when `expr` is false;
   * otherwise nothing happens.
   */
  function MAssertCheck(exprStr: string, expr: bool, file: string, line: int, msg: string)
    : (r: Result<(), AssertFailure>)
    ensures r.Err? <==> !expr
    ensures r.Err? ==> r.error == AssertFailure(msg, exprStr, file, line)
  {
    if expr then Ok(()) else Err(AssertFailure(msg, exprStr, file, line))
  }

  /**
   * The `M_Assert(Expr, Msg)` macro: in a build with `NDEBUG` defined it expands to an
   * empty statement, otherwise to `__M_Assert`.
   */
  function MAssert(ndebug: bool, exprStr: string, expr: bool, file: string, line: int, msg: string)
    : (r: Result<(), AssertFailure>)
    ensures ndebug ==> r.Ok?
    ensures !ndebug ==> (r.Err? <==> !expr)
  {
    if ndebug then Ok(()) else MAssertCheck(exprStr, expr, file, line, msg)
  }

  const INT32_MIN: int := -0x8000_0000
  const INT32_MAX: int := 0x7fff_ffff
  const NANOS_PER_SECOND: int := 1_000_000_000

  predicate IsInt32(x: int) {
    INT32_MIN <= x <= INT32_MAX
  }

  /**
   * The `int` overload of `seconds_to_nanoseconds`. Signed overflow is undefined in C++
   * (and rejected in a constant expression), so the caller must keep the product in range.
   */
  function SecondsToNanoseconds(seconds: int): (ns: int)
    requires IsInt32(seconds) && IsInt32(seconds * NANOS_PER_SECOND)
    ensures IsInt32(ns)
    ensures ns % NANOS_PER_SECOND == 0 && ns / NANOS_PER_SECOND == seconds
  {
    seconds * NANOS_PER_SECOND
  }

  /** The product fits a 32-bit `int` for exactly the five inputs -2 .. 2. */
  lemma SecondsToNanosecondsDomain(seconds: int)
    ensures IsInt32(seconds * NANOS_PER_SECOND) <==> -2 <= seconds <= 2
  {
    if seconds >= 3 {
      assert seconds * NANOS_PER_SECOND >= 3 * NANOS_PER_SECOND;
    } else if seconds <= -3 {
      assert seconds * NANOS_PER_SECOND <= -3 * NANOS_PER_SECOND;
    }
  }
}
