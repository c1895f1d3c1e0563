/**
 * DateTime and C# integer arithmetic as the mute engine uses them.
 * An instant is a DateTime tick count (one tick is 100 nanoseconds since 0001-01-01);
 * the clock is never read here: callers pass `now` explicitly.
 */
module Time {

  const TicksPerSecond: int := 10_000_000
  const TicksPerMinute: int := 600_000_000
  const TicksPerHour: int := 36_000_000_000
  const TicksPerDay: int := 864_000_000_000

  /** DateTime.MaxValue.Ticks: the last tick of 31 December 9999. */
  const MaxTicks: int := 3_155_378_975_999_999_999

  /** A tick count a DateTime can hold; constructing one outside this range throws. */
  type Instant = t: int | 0 <= t <= MaxTicks

  const Int32Min: int := -0x8000_0000
  const Int32Max: int := 0x7FFF_FFFF
  const Int64Min: int := -0x8000_0000_0000_0000
  const Int64Max: int := 0x7FFF_FFFF_FFFF_FFFF

  /** C# `a / b` on integers: the quotient truncated toward zero. */
  function Quot(a: int, b: int): int
    requires b > 0
  {
    if a >= 0 then a / b else -((-a) / b)
  }

  /** C# `a % b` on integers: the remainder takes the sign of the dividend. */
  function Rem(a: int, b: int): int
    requires b > 0
  {
    if a >= 0 then a % b else -((-a) % b)
  }

  /** Truncating division: quotient times divisor plus remainder gives back the dividend. */
  lemma QuotRem(a: int, b: int)
    requires b > 0
    ensures a == Quot(a, b) * b + Rem(a, b)
    ensures a >= 0 ==> 0 <= Rem(a, b) < b
    ensures a < 0 ==> -b < Rem(a, b) <= 0
  {
    if a < 0 {
      assert -a == ((-a) / b) * b + (-a) % b;
    }
  }

  /** Unchecked C# `int` arithmetic: the value modulo 2^32, read back as a signed 32-bit integer. */
  function Wrap32(x: int): (r: int)
    ensures Int32Min <= r <= Int32Max
    ensures Int32Min <= x <= Int32Max ==> r == x
    ensures (x - r) % 0x1_0000_0000 == 0
  {
    (x + 0x8000_0000) % 0x1_0000_0000 - 0x8000_0000
  }

  /** Wrapping after every addition gives the same value as wrapping once at the end. */
  lemma WrapAdd(a: int, b: int)
    ensures Wrap32(Wrap32(a) + b) == Wrap32(a + b)
  {
    var m := 0x1_0000_0000;
    var x := a + 0x8000_0000;
    assert Wrap32(a) + b + 0x8000_0000 == x % m + b;
    assert x == (x / m) * m + x % m;
    ModShift(x % m + b, x / m, m);
  }

  /** Adding a multiple of the modulus does not change a remainder. */
  lemma ModShift(y: int, k: int, m: int)
    requires m > 0
    ensures (y + k * m) % m == y % m
  {
    var q, r := y / m, y % m;
    assert y + k * m == (q + k) * m + r;
    DivUnique(y + k * m, q + k, r, m);
  }

  /** Euclidean division is determined by quotient and remainder. */
  lemma DivUnique(a: int, q: int, r: int, m: int)
    requires m > 0 && 0 <= r < m && a == q * m + r
    ensures a / m == q && a % m == r
  {
    var q', r' := a / m, a % m;
    assert q * m + r == q' * m + r';
    MulDistance(q, q', m);
  }

  /** Two distinct multiples of m are at least m apart. */
  lemma MulDistance(q: int, q': int, m: int)
    requires m > 0
    ensures q > q' ==> q * m - q' * m >= m
    ensures q < q' ==> q' * m - q * m >= m
  {
    if q > q' {
      MulAtLeast(q - q', m);
      assert q * m - q' * m == (q - q') * m;
    } else if q < q' {
      MulAtLeast(q' - q, m);
      assert q' * m - q * m == (q' - q) * m;
    }
  }

  lemma {:induction false} MulAtLeast(d: int, m: int)
    requires d >= 1 && m > 0
    ensures d * m >= m
    decreases d
  {
    if d > 1 {
      MulAtLeast(d - 1, m);
      assert d * m == (d - 1) * m + m;
    }
  }

  /** Dividing by b and then by c is dividing by b * c. */
  lemma NestedDiv(a: int, b: int, c: int)
    requires a >= 0 && b > 0 && c > 0
    ensures a / b / c == a / (b * c)
  {
    var q, r := a / b, a % b;
    var q2, r2 := q / c, q % c;
    NestedSplit(a, b, c, q, r, q2, r2);
    DivUnique(a, q2, r2 * b + r, b * c);
  }

  lemma NestedSplit(a: int, b: int, c: int, q: int, r: int, q2: int, r2: int)
    requires b > 0 && c > 0 && a == q * b + r && 0 <= r < b && q == q2 * c + r2 && 0 <= r2 < c
    ensures a == q2 * (b * c) + (r2 * b + r)
    ensures 0 <= r2 * b + r < b * c
  {
    assert q * b == q2 * c * b + r2 * b;
    assert q2 * c * b == q2 * (b * c);
    assert r2 * b <= (c - 1) * b;
    assert (c - 1) * b == b * c - b;
  }
}
