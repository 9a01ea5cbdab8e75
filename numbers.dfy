/** Fixed-width JVM integers and the doubling delay schedule both retry
    loops share (`currentDelay *= 2` on a `Long`). */
module Numbers {

  /** A Kotlin `Int`. */
  type Int32 = x: int | -0x8000_0000 <= x < 0x8000_0000

  /** A Kotlin `Long`. */
  type Int64 = x: int | -0x8000_0000_0000_0000 <= x < 0x8000_0000_0000_0000

  /** Two's-complement wrap-around of an integer into a `Long`, as JVM
      `Long` arithmetic does on overflow. */
  function WrapLong(x: int): (r: Int64)
    ensures (x - r) % 0x1_0000_0000_0000_0000 == 0
    ensures -0x8000_0000_0000_0000 <= x < 0x8000_0000_0000_0000 ==> r == x
  {
    (x + 0x8000_0000_0000_0000) % 0x1_0000_0000_0000_0000 - 0x8000_0000_0000_0000
  }

  /** Two's-complement wrap-around of an integer into an `Int`. */
  function WrapInt(x: int): (r: Int32)
    ensures (x - r) % 0x1_0000_0000 == 0
    ensures -0x8000_0000 <= x < 0x8000_0000 ==> r == x
  {
    (x + 0x8000_0000) % 0x1_0000_0000 - 0x8000_0000
  }

  /** Adding a multiple of 2^64 does not change a remainder modulo 2^64. */
  lemma ModAddMultiple(a: int, k: int)
    ensures (a + 0x1_0000_0000_0000_0000 * k) % 0x1_0000_0000_0000_0000
            == a % 0x1_0000_0000_0000_0000
  {
    var m := 0x1_0000_0000_0000_0000;
    var q, r := a / m, a % m;
    assert a == m * q + r && 0 <= r < m;
    assert a + m * k == m * (q + k) + r;
  }

  /** Doubling a wrapped value and wrapping again is wrapping the exact double. */
  lemma WrapLongDouble(y: int)
    ensures WrapLong(2 * WrapLong(y)) == WrapLong(2 * y)
  {
    var m := 0x1_0000_0000_0000_0000;
    var h := 0x8000_0000_0000_0000;
    var r := WrapLong(y);
    var q := (y - r) / m;
    assert y - r == m * q;
    assert 2 * y + h == (2 * r + h) + m * (2 * q);
    ModAddMultiple(2 * r + h, 2 * q);
  }

  function Pow2(n: nat): (r: nat)
    ensures r >= 1
  {
    if n == 0 then 1 else 2 * Pow2(n - 1)
  }

  /** The delay after one more failed attempt: doubled (as a `Long`) when
      backoff is on, unchanged otherwise. */
  function NextDelay(d: Int64, backoff: bool): Int64 {
    if backoff then WrapLong(d * 2) else d
  }

  /** The delay waited after the `j`-th failure (from 0) when the first
      delay is `d`. */
  function DelayAt(d: Int64, backoff: bool, j: nat): Int64 {
    if j == 0 then d else NextDelay(DelayAt(d, backoff, j - 1), backoff)
  }

  /** Starting one step later is starting from the next delay. */
  lemma {:induction false} DelayAtShift(d: Int64, backoff: bool, j: nat)
    ensures DelayAt(d, backoff, j + 1) == DelayAt(NextDelay(d, backoff), backoff, j)
  {
    if j > 0 {
      DelayAtShift(d, backoff, j - 1);
    }
  }

  /** One doubling step of the backoff schedule in closed form. */
  lemma DoublingStep(d: Int64, j: nat)
    requires j > 0
    ensures WrapLong(2 * WrapLong(d * Pow2(j - 1))) == WrapLong(d * Pow2(j))
  {
    var p := Pow2(j - 1);
    assert Pow2(j) == 2 * p;
    assert d * Pow2(j) == 2 * (d * p);
    WrapLongDouble(d * p);
  }

  /** The schedule is d, 2d, 4d, … (wrapped to a `Long`) with backoff and
      d, d, d, … without. */
  lemma {:induction false} DelaySchedule(d: Int64, backoff: bool, j: nat)
    ensures DelayAt(d, backoff, j) == if backoff then WrapLong(d * Pow2(j)) else d
  {
    if j > 0 {
      DelaySchedule(d, backoff, j - 1);
      if backoff {
        DoublingStep(d, j);
      }
    }
  }

  /** While no overflow occurs the backoff delays are exactly d * 2^j. */
  lemma DelayExact(d: Int64, j: nat)
    requires -0x8000_0000_0000_0000 <= d * Pow2(j) < 0x8000_0000_0000_0000
    ensures DelayAt(d, true, j) == d * Pow2(j)
  {
    DelaySchedule(d, true, j);
  }
}
