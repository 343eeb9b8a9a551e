/** The arithmetic of `prepare`'s deadline conversion: C's truncating
    division, the `struct timeval` libusb fills in, and the store of a wide
    integer into a `gint`. */
module Timeout {

  const GINT_MIN: int := -0x8000_0000
  const GINT_MAX: int := 0x7fff_ffff
  const GINT_RANGE: int := 0x1_0000_0000

  /** `struct timeval`; integers are unbounded, so `time_t` arithmetic is exact. */
  datatype Timeval = Timeval(sec: int, usec: int)

  /** What `libusb_get_next_timeout` hands back: a non-negative, normalised delay. */
  predicate Normalised(tv: Timeval)
  {
    tv.sec >= 0 && 0 <= tv.usec < 1_000_000
  }

  /** The delay in microseconds. */
  function TotalMicros(tv: Timeval): int
  {
    tv.sec * 1_000_000 + tv.usec
  }

  /** C's `a / b` for a positive divisor: the quotient rounded toward zero,
      so the remainder takes the sign of the dividend. */
  function CDiv(a: int, b: int): (q: int)
    requires b > 0
    ensures a >= 0 ==> 0 <= a - q * b < b
    ensures a < 0 ==> -b < a - q * b <= 0
  {
    if a >= 0 then a / b else -((-a) / b)
  }

  /** Storing a value into a `gint`: the implementation-defined conversion
      that GCC defines as reduction modulo 2^32 into the signed range. */
  function WrapGint(x: int): (r: int)
    ensures GINT_MIN <= r <= GINT_MAX
    ensures (x - r) % GINT_RANGE == 0
    ensures GINT_MIN <= x <= GINT_MAX ==> r == x
  {
    if GINT_MIN <= x <= GINT_MAX then x
    else
      var m := x % GINT_RANGE;
      if m > GINT_MAX then m - GINT_RANGE else m
  }

  /** The stored `gint` is fixed by the residue of the value modulo 2^32: it
      is that residue, less 2^32 when the residue is above `GINT_MAX`. */
  lemma WrapGintByResidue(x: int)
    ensures WrapGint(x) == if x % GINT_RANGE > GINT_MAX then x % GINT_RANGE - GINT_RANGE else x % GINT_RANGE
  {
    if 0 <= x <= GINT_MAX {
      assert x % GINT_RANGE == x;
    } else if GINT_MIN <= x < 0 {
      assert x % GINT_RANGE == x + GINT_RANGE;
    }
  }

  /** `tv_sec*1000 + tv_usec/1000`, evaluated in the width of `time_t`. */
  function DeadlineMillis(tv: Timeval): int
  {
    tv.sec * 1000 + CDiv(tv.usec, 1000)
  }

  /** The millisecond value never exceeds the true delay and is less than a
      millisecond short of it. */
  lemma MillisRoundDown(tv: Timeval)
    requires Normalised(tv)
    ensures DeadlineMillis(tv) >= 0
    ensures DeadlineMillis(tv) * 1000 <= TotalMicros(tv) < DeadlineMillis(tv) * 1000 + 1000
  {
    var q := CDiv(tv.usec, 1000);
    assert 0 <= tv.usec - q * 1000 < 1000;
    assert DeadlineMillis(tv) * 1000 == tv.sec * 1_000_000 + q * 1000;
  }

  /** The largest delay whose millisecond value still fits a `gint`. */
  const MAX_FITTING_MICROS: int := GINT_MAX * 1000 + 999

  /** A normalised delay of at most `MAX_FITTING_MICROS` survives the store into
      a `gint` unchanged, so the wait is the truncated delay. */
  lemma FittingDeadlineKept(tv: Timeval)
    requires Normalised(tv) && TotalMicros(tv) <= MAX_FITTING_MICROS
    ensures 0 <= WrapGint(DeadlineMillis(tv)) * 1000 <= TotalMicros(tv)
    ensures TotalMicros(tv) < WrapGint(DeadlineMillis(tv)) * 1000 + 1000
  {
    MillisRoundDown(tv);
    assert DeadlineMillis(tv) <= GINT_MAX;
  }

}
