/**
 * Time and Java's 32-bit integers.  An Instant is a count of nanoseconds since
 * the epoch and a Duration a count of nanoseconds, both unbounded.
 */
module Clock {

  type Instant = int
  type Duration = int

  const NanosPerSecond: int := 1_000_000_000

  /** Instant.ofEpochSecond(seconds, nanos): the nanosecond adjustment may lie outside one second. */
  function OfEpochSecond(seconds: int, nanos: int): Instant {
    seconds * NanosPerSecond + nanos
  }

  /** Instant.getEpochSecond: whole seconds, rounded towards negative infinity. */
  function EpochSecond(t: Instant): int {
    t / NanosPerSecond
  }

  /** Instant.getNano: the nanoseconds within the second, always in [0, 10^9). */
  function Nano(t: Instant): (n: int)
    ensures 0 <= n < NanosPerSecond
  {
    t % NanosPerSecond
  }

  /** An instant is rebuilt from its second and nano fields, whatever its sign. */
  lemma SecondsAndNanosRoundTrip(t: Instant)
    ensures OfEpochSecond(EpochSecond(t), Nano(t)) == t
  {
  }

  /** A normalised (seconds, nanos) pair is read back unchanged. */
  lemma EpochFieldsRoundTrip(seconds: int, nanos: int)
    requires 0 <= nanos < NanosPerSecond
    ensures EpochSecond(OfEpochSecond(seconds, nanos)) == seconds
    ensures Nano(OfEpochSecond(seconds, nanos)) == nanos
  {
    var t := OfEpochSecond(seconds, nanos);
    assert t == seconds * NanosPerSecond + nanos;
    DivModUnique(t, seconds, nanos);
  }

  lemma DivModUnique(t: int, q: int, r: int)
    requires 0 <= r < NanosPerSecond && t == q * NanosPerSecond + r
    ensures t / NanosPerSecond == q && t % NanosPerSecond == r
  {
    var q', r' := t / NanosPerSecond, t % NanosPerSecond;
    assert (q - q') * NanosPerSecond == r' - r;
    assert -NanosPerSecond < (q - q') * NanosPerSecond < NanosPerSecond;
  }

  const IntMin: int := -0x8000_0000
  const IntMax: int := 0x7fff_ffff

  /** Java's int. */
  type Int32 = x: int | -0x8000_0000 <= x <= 0x7fff_ffff

  /** Two's-complement wrap-around of a mathematical integer into an int. */
  function Wrap(x: int): (r: Int32)
    ensures (r - x) % 0x1_0000_0000 == 0
    ensures IntMin <= x <= IntMax ==> r == x
  {
    var m := x % 0x1_0000_0000;
    if m <= IntMax then m else m - 0x1_0000_0000
  }

  /** Two integers that differ by a multiple of 2^32 wrap to the same int. */
  lemma WrapCongruent(x: int, y: int, k: int)
    requires x - y == k * 0x1_0000_0000
    ensures Wrap(x) == Wrap(y)
  {
    assert x % 0x1_0000_0000 == y % 0x1_0000_0000 by {
      var q, r := y / 0x1_0000_0000, y % 0x1_0000_0000;
      assert x == (q + k) * 0x1_0000_0000 + r;
    }
  }

  /** Math.min and Math.max on ints. */
  function Min(a: Int32, b: Int32): Int32 { if a <= b then a else b }
  function Max(a: Int32, b: Int32): Int32 { if a >= b then a else b }
}
