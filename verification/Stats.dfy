/** The ring of the last sixteen durations, and its average. */
module Stats {
  import opened Prelude
  import opened Format

  // ---- The ring of durations ----

  const RINGBUFFERS: nat := 16

  /** The last `n` elements. */
  function LastOf(xs: seq<int>, n: nat): (r: seq<int>) { if |xs| <= n then xs else xs[|xs| - n..] }

  predicate AreInts(xs: seq<int>) { forall i :: 0 <= i < |xs| ==> -TWO31 <= xs[i] < TWO31 }

  lemma {:induction false} SumBound(xs: seq<int>)
    requires AreInts(xs)
    ensures -TWO31 * |xs| <= Sum(xs) <= (TWO31 - 1) * |xs|
  {
    if xs != [] {
      SumBound(xs[1..]);
    }
  }

  function WindowOf(val: seq<int>, index: nat, count: nat): (r: seq<int>)
    requires |val| == RINGBUFFERS && index < RINGBUFFERS && count <= RINGBUFFERS
  {
    if count < RINGBUFFERS then val[..count] else val[index..] + val[..index]
  }

  /** A sample goes behind the others while there is room. */
  lemma FillsUp(v: seq<int>, n: nat, h: seq<int>, d: int)
    requires |v| == RINGBUFFERS && n < RINGBUFFERS && |h| == n && WindowOf(v, n, n) == LastOf(h, RINGBUFFERS)
    ensures WindowOf(v[n := d], (n + 1) % RINGBUFFERS, n + 1) == LastOf(h + [d], RINGBUFFERS)
  {
    var w := v[n := d];
    assert w[..n + 1] == v[..n] + [d];
    if n + 1 == RINGBUFFERS {
      assert w[0..] + w[..0] == w[..n + 1];
    }
  }

  lemma NextIndex(n: nat)
    ensures (n % RINGBUFFERS + 1) % RINGBUFFERS == (n + 1) % RINGBUFFERS
    ensures n < RINGBUFFERS ==> n % RINGBUFFERS == n
  {
  }

  lemma StillInts(h: seq<int>, d: int)
    requires AreInts(h) && -TWO31 <= d < TWO31
    ensures AreInts(h + [d])
  {
  }

  /** And then in the place of the oldest one. */
  lemma Overwrites(v: seq<int>, i: nat, h: seq<int>, d: int)
    requires |v| == RINGBUFFERS && i < RINGBUFFERS <= |h| && WindowOf(v, i, RINGBUFFERS) == LastOf(h, RINGBUFFERS)
    ensures WindowOf(v[i := d], (i + 1) % RINGBUFFERS, RINGBUFFERS) == LastOf(h + [d], RINGBUFFERS)
  {
    Rotates(v, i, d);
    LastShifts(h, d);
  }

  lemma LastShifts(h: seq<int>, d: int)
    requires |h| >= RINGBUFFERS
    ensures LastOf(h + [d], RINGBUFFERS) == LastOf(h, RINGBUFFERS)[1..] + [d]
  {
    var k := |h| - RINGBUFFERS;
    assert (h + [d])[k + 1..] == h[k + 1..] + [d] && h[k..][1..] == h[k + 1..];
  }

  lemma Rotates(v: seq<int>, i: nat, d: int)
    requires |v| == RINGBUFFERS && i < RINGBUFFERS
    ensures WindowOf(v[i := d], (i + 1) % RINGBUFFERS, RINGBUFFERS) == (v[i..] + v[..i])[1..] + [d]
  {
    var w := v[i := d];
    if i + 1 < RINGBUFFERS {
      SameTail(v, i, d);
      assert w[..i + 1] == v[..i] + [d];
      ThreeParts(v[i + 1..], v[..i], [d]);
    } else {
      assert w[0..] + w[..0] == w && w == v[..i] + [d];
      assert (v[i..] + v[..i])[1..] == v[..i];
    }
  }

  lemma SameTail(v: seq<int>, i: nat, d: int)
    requires i < |v|
    ensures v[i := d][i + 1..] == v[i + 1..]
    ensures (v[i..] + v[..i])[1..] == v[i + 1..] + v[..i]
  {
  }

  lemma ThreeParts(a: seq<int>, b: seq<int>, c: seq<int>)
    ensures a + (b + c) == a + b + c
  {
  }

  class Ring {
    var count: nat
    var index: nat
    var val: array<int>
    ghost var history: seq<int>   // every sample ever stored

    /** The samples still held, oldest first: the ring rotated to its start. */
    ghost function Window(): (r: seq<int>)
      reads this, val
      requires val.Length == RINGBUFFERS && index < RINGBUFFERS && count <= RINGBUFFERS
    {
      WindowOf(val[..], index, count)
    }

    ghost predicate Valid()
      reads this, val
    {
      && val.Length == RINGBUFFERS
      && count == Min(|history|, RINGBUFFERS) && index == |history| % RINGBUFFERS
      && Window() == LastOf(history, RINGBUFFERS)
      && AreInts(history)
    }

    /** A zeroed ring. */
    constructor ()
      ensures Valid() && history == [] && fresh(val)
    {
      count, index, history := 0, 0, [];
      val := new int[RINGBUFFERS](_ => 0);
    }

    /** The update of stats_worker_time and stats_solver_time. */
    method Store(duration: int)
      requires Valid() && -TWO31 <= duration < TWO31
      modifies this, val
      ensures Valid() && history == old(history) + [duration] && val == old(val)
    {
      ghost var v, i, n, h := val[..], index, count, history;
      val[index] := duration;
      if count < RINGBUFFERS {
        count := count + 1;
      }
      index := (index + 1) % RINGBUFFERS;
      history := history + [duration];
      assert val[..] == v[i := duration];
      NextIndex(|h|);
      StillInts(h, duration);
      hide LastOf, WindowOf, AreInts;
      if n < RINGBUFFERS {
        FillsUp(v, n, h, duration);
      } else {
        Overwrites(v, i, h, duration);
      }
      assert Window() == WindowOf(val[..], index, count);
    }

    lemma WindowIsInts()
      requires Valid()
      ensures |Window()| == count && AreInts(Window())
    {
    }

    /** ring_average: the samples are added as unsigned 64-bit numbers, and the
        quotient is returned as an int. */
    method Average() returns (a: int)
      requires Valid()
      ensures a == if count == 0 then 0 else ToInt(ToUnsignedLong(Sum(Window())) / count)
      ensures count > 0 ==> (a == Sum(Window()) / count <==> Sum(Window()) >= 0 || IsPowerOfTwo(count))
    {
      if count == 0 {
        return 0;
      }
      var i, sum := 0, 0;
      while i < count
        invariant 0 <= i <= count
        invariant sum == ToUnsignedLong(Sum(val[..i]))
      {
        assert val[..i + 1] == val[..i] + [val[i]];
        SumConcat(val[..i], [val[i]]);
        AddUnsigned(Sum(val[..i]), val[i]);
        sum := ToUnsignedLong(sum + ToUnsignedLong(val[i]));
        i := i + 1;
      }
      if count == RINGBUFFERS {
        assert val[..count] == val[..index] + val[index..];
        SumConcat(val[..index], val[index..]);
        SumConcat(val[index..], val[..index]);
      }
      WindowIsInts();
      AverageIsFloor(Window());
      return ToInt(sum / count);
    }
  }

  /** Of the counts that the ring can have. */
  predicate IsPowerOfTwo(c: nat) { c == 1 || c == 2 || c == 4 || c == 8 || c == 16 }

  lemma AddUnsigned(x: int, y: int)
    ensures ToUnsignedLong(ToUnsignedLong(x) + ToUnsignedLong(y)) == ToUnsignedLong(x + y)
  {
    var a := Wraps(x);
    var b := Wraps(y);
    SameWrap(x + y, ToUnsignedLong(x) + ToUnsignedLong(y), a + b);
  }

  lemma Wraps(x: int) returns (k: int)
    ensures x == ToUnsignedLong(x) + k * TWO64
  {
    k := x / TWO64;
  }

  lemma SameWrap(x: int, y: int, k: int)
    requires x == y + k * TWO64
    ensures ToUnsignedLong(y) == ToUnsignedLong(x)
  {
  }

  /** What the unsigned quotient comes to when the sum is negative. */
  lemma NegativeQuotient(total: int, c: nat, q: nat, r0: nat)
    requires c > 0 && -TWO63 <= total < 0 && TWO64 == c * q + r0 && r0 < c
    ensures var d := ToUnsignedLong(total) / c - (q + total / c);
            0 <= d <= 1 && (r0 == 0 ==> d == 0)
  {
    var f, r := total / c, total % c;
    assert total == c * f + r;
    var x := TWO64 + total;
    assert ToUnsignedLong(total) == x;
    assert x == c * (q + f) + (r0 + r);
    if r0 + r < c {
      QuotientIs(x, c, q + f, r0 + r);
    } else {
      assert x == c * (q + f + 1) + (r0 + r - c);
      QuotientIs(x, c, q + f + 1, r0 + r - c);
    }
  }

  lemma QuotientIs(x: int, c: nat, q: int, r: nat)
    requires c > 0 && x == c * q + r && r < c
    ensures x / c == q
  {
    var q', r' := x / c, x % c;
    assert c * (q' - q) == r - r' && c * (q - q') == r' - r;
    if q' > q {
      AtLeast(c, q' - q);
    } else if q' < q {
      AtLeast(c, q - q');
    }
  }

  lemma Monotone(c: nat, x: int, y: int)
    requires x <= y
    ensures c * x <= c * y
  {
  }

  lemma AtLeast(c: nat, k: int)
    requires k >= 1
    ensures c * k >= c
  {
  }

  /** Whether the wrapped quotient is the floor, for one divisor. */
  lemma WrappedQuotient(total: int, c: nat, q: nat, r0: nat)
    requires 1 <= c <= 16 && -TWO31 * c <= total < 0 && TWO64 == c * q + r0 && r0 < c
    ensures q % TWO32 == 0 && r0 == 0 ==> ToInt(ToUnsignedLong(total) / c) == total / c
    ensures q % TWO32 != 0 && (q + 1) % TWO32 != 0 ==> ToInt(ToUnsignedLong(total) / c) != total / c
  {
    hide ToInt, ToUnsignedLong;
    NegativeQuotient(total, c, q, r0);
    FloorBound(total, c);
    var u, f := ToUnsignedLong(total) / c, total / c;
    BackToInt(u, f, u - f);
  }

  /** Converting an unsigned number back to a negative int. */
  lemma BackToInt(u: int, f: int, distance: int)
    requires -TWO31 <= f < 0 <= u && u == f + distance
    ensures ToInt(u) == f <==> distance % TWO32 == 0
  {
  }

  lemma FloorBound(total: int, c: nat)
    requires 1 <= c && -TWO31 * c <= total < 0
    ensures -TWO31 <= total / c < 0
  {
    var f := total / c;
    assert total == c * f + total % c;
    if f < -TWO31 {
      Monotone(c, f, -TWO31 - 1);
    } else if f >= 0 {
      Monotone(c, 0, f);
    }
  }

  /** ring_average is the floor of the mean exactly when the samples do not add
      up to a negative number or their count is a power of two. */
  lemma AverageIsFloor(w: seq<int>)
    requires 1 <= |w| <= RINGBUFFERS && AreInts(w)
    ensures ToInt(ToUnsignedLong(Sum(w)) / |w|) == Sum(w) / |w|
            <==> Sum(w) >= 0 || IsPowerOfTwo(|w|)
  {
    SumBound(w);
    var total, c := Sum(w), |w|;
    if total >= 0 {
      assert ToUnsignedLong(total) == total;
      assert 0 <= total / c <= TWO31 - 1 by { NonNegativeMean(total, c); }
    } else {
      var q, r0 := Residues(c);
      WrappedQuotient(total, c, q, r0);
    }
  }

  /** Three samples of -1 have the mean -1, and this is what is returned. */
  lemma AverageIsNotFloor(w: seq<int>)
    requires w == [-1, -1, -1]
    ensures Sum(w) / |w| == -1 && ToInt(ToUnsignedLong(Sum(w)) / |w|) == 1431655764
  {
    assert Sum(w[2..]) == -1 && Sum(w[1..]) == -2;
    hide Sum;
    assert ToUnsignedLong(-3) / 3 == 6148914691236517204;
  }

  lemma NonNegativeMean(total: nat, c: nat)
    requires c >= 1 && total <= (TWO31 - 1) * c
    ensures 0 <= total / c <= TWO31 - 1
  {
    var f := total / c;
    assert total == c * f + total % c;
    if f > TWO31 - 1 {
      Monotone(c, TWO31, f);
    }
  }

  /** 2^64 divided by every count the ring can have. */
  lemma Residues(c: nat) returns (q: nat, r0: nat)
    requires 1 <= c <= 16
    ensures TWO64 == c * q + r0 && r0 < c
    ensures IsPowerOfTwo(c) ==> r0 == 0 && q % TWO32 == 0
    ensures !IsPowerOfTwo(c) ==> q % TWO32 != 0 && (q + 1) % TWO32 != 0
  {
    if c == 1 { q, r0 := 0x10000000000000000, 0; assert 1 * q + r0 == TWO64; }
    else if c == 2 { q, r0 := 0x8000000000000000, 0; assert 2 * q + r0 == TWO64; }
    else if c == 3 { q, r0 := 0x5555555555555555, 1; assert 3 * q + r0 == TWO64; }
    else if c == 4 { q, r0 := 0x4000000000000000, 0; assert 4 * q + r0 == TWO64; }
    else if c == 5 { q, r0 := 0x3333333333333333, 1; assert 5 * q + r0 == TWO64; }
    else if c == 6 { q, r0 := 0x2aaaaaaaaaaaaaaa, 4; assert 6 * q + r0 == TWO64; }
    else if c == 7 { q, r0 := 0x2492492492492492, 2; assert 7 * q + r0 == TWO64; }
    else if c == 8 { q, r0 := 0x2000000000000000, 0; assert 8 * q + r0 == TWO64; }
    else if c == 9 { q, r0 := 0x1c71c71c71c71c71, 7; assert 9 * q + r0 == TWO64; }
    else if c == 10 { q, r0 := 0x1999999999999999, 6; assert 10 * q + r0 == TWO64; }
    else if c == 11 { q, r0 := 0x1745d1745d1745d1, 5; assert 11 * q + r0 == TWO64; }
    else if c == 12 { q, r0 := 0x1555555555555555, 4; assert 12 * q + r0 == TWO64; }
    else if c == 13 { q, r0 := 0x13b13b13b13b13b1, 3; assert 13 * q + r0 == TWO64; }
    else if c == 14 { q, r0 := 0x1249249249249249, 2; assert 14 * q + r0 == TWO64; }
    else if c == 15 { q, r0 := 0x1111111111111111, 1; assert 15 * q + r0 == TWO64; }
    else { q, r0 := 0x1000000000000000, 0; assert 16 * q + r0 == TWO64; }
  }
}
