/**
 * Java's 32-bit `int`: the range of its values and the wrap-around of `++`.
 * Everything else in the model uses unbounded integers.
 */
module JavaInt {

  const INT_MIN: int := -0x8000_0000
  const INT_MAX: int := 0x7fff_ffff

  /** The values of a Java `int`. */
  type Int32 = x: int | INT_MIN <= x <= INT_MAX

  /** Two's-complement truncation of an unbounded integer to 32 bits. */
  function Wrap32(v: int): Int32
  {
    (v - INT_MIN) % 0x1_0000_0000 + INT_MIN
  }

  /** Java's `x++` on an `int`: one more, except that `Integer.MAX_VALUE` wraps to `Integer.MIN_VALUE`. */
  function Increment(x: Int32): (r: Int32)
    ensures x < INT_MAX ==> r == x + 1
    ensures x == INT_MAX ==> r == INT_MIN
  {
    Wrap32(x + 1)
  }

}
