/** Rotating two adjacent blocks of an array in place, and what it costs. */
module Rotation {

  // ---- Greatest common divisor ----

  ghost predicate Multiple(k: nat, d: nat, a: nat) { k * d == a }

  ghost predicate Divides(d: nat, a: nat) { exists k: nat :: Multiple(k, d, a) }

  /** Subtractive Euclid. */
  function Gcd(a: nat, b: nat): (r: nat)
    requires a > 0 && b > 0
    decreases a + b
  {
    if a == b then a else if a < b then Gcd(a, b - a) else Gcd(a - b, b)
  }

  lemma DividesSum(d: nat, a: nat, b: nat)
    requires Divides(d, a) && Divides(d, b)
    ensures Divides(d, a + b)
  {
    var j: nat, k: nat :| Multiple(j, d, a) && Multiple(k, d, b);
    assert Multiple(j + k, d, a + b);
  }

  lemma DividesDifference(d: nat, a: nat, b: nat)
    requires Divides(d, a) && Divides(d, b) && a < b
    ensures Divides(d, b - a)
  {
    var j: nat, k: nat :| Multiple(j, d, a) && Multiple(k, d, b);
    assert j < k by { assert (k - j) * d == b - a; }
    assert (k - j) * d == b - a;
    assert Multiple(k - j, d, b - a);
  }

  /** `Gcd` is a common divisor, and every common divisor divides it. */
  lemma {:induction false} GcdIsGreatest(a: nat, b: nat)
    requires a > 0 && b > 0
    ensures Divides(Gcd(a, b), a) && Divides(Gcd(a, b), b)
    ensures forall d: nat :: Divides(d, a) && Divides(d, b) ==> Divides(d, Gcd(a, b))
    decreases a + b
  {
    if a == b {
      assert Multiple(1, a, a);
    } else {
      var lo, hi := if a < b then a else b, if a < b then b else a;
      if a < b { GcdIsGreatest(a, b - a); } else { GcdIsGreatest(a - b, b); }
      DividesSum(Gcd(a, b), lo, hi - lo);
      forall d: nat | Divides(d, a) && Divides(d, b) ensures Divides(d, Gcd(a, b)) {
        DividesDifference(d, lo, hi);
      }
    }
  }

  // ---- Blocks ----

  /** Where the element that ends up at `i` came from. */
  function Source(b: nat, m: nat, t: nat, i: nat): (j: nat)
    requires b <= m <= t
    ensures b <= i < t ==> b <= j < t
    ensures !(b <= i < t) ==> j == i
  {
    if b <= i < b + (t - m) then i + (m - b)
    else if b + (t - m) <= i < t then i - (t - m)
    else i
  }

  /** `s` with the adjacent blocks `[b, m)` and `[m, t)` exchanged. */
  function Rotated<T>(s: seq<T>, b: nat, m: nat, t: nat): (r: seq<T>)
    requires b <= m <= t <= |s|
    ensures |r| == |s|
  {
    seq(|s|, i requires 0 <= i < |s| => s[Source(b, m, t, i)])
  }

  lemma RotatedBlocks<T>(s: seq<T>, b: nat, m: nat, t: nat)
    requires b <= m <= t <= |s|
    ensures Rotated(s, b, m, t) == s[..b] + s[m..t] + s[b..m] + s[t..]
  {
  }

  /** `s` with the equally long disjoint blocks at `x` and `y` swapped. */
  function Swapped<T>(s: seq<T>, x: nat, y: nat, n: nat): (r: seq<T>)
    requires x + n <= y && y + n <= |s|
    ensures |r| == |s|
  {
    seq(|s|, i requires 0 <= i < |s| =>
      if x <= i < x + n then s[i + (y - x)] else if y <= i < y + n then s[i - (y - x)] else s[i])
  }

  /** The short bottom block moves to the top; the rest is still to rotate. */
  lemma RotateShortBottom<T>(s: seq<T>, b: nat, m: nat, t: nat)
    requires b <= m <= t <= |s| && m - b <= t - m
    ensures Rotated(Swapped(s, b, t - (m - b), m - b), b, m, t - (m - b)) == Rotated(s, b, m, t)
  {
  }

  /** The short top block moves to the bottom; the rest is still to rotate. */
  lemma RotateShortTop<T>(s: seq<T>, b: nat, m: nat, t: nat)
    requires b <= m <= t <= |s| && t - m <= m - b
    ensures Rotated(Swapped(s, b, m, t - m), b + (t - m), m, t) == Rotated(s, b, m, t)
  {
  }

  lemma RotateNothing<T>(s: seq<T>, b: nat, m: nat, t: nat)
    requires b <= m <= t <= |s| && (b == m || m == t)
    ensures Rotated(s, b, m, t) == s
  {
  }

  /** What a rotation still has to pay: the elements left less the gcd. */
  function Cost(a: nat, b: nat): (r: int) {
    if a == 0 || b == 0 then 0 else a + b - Gcd(a, b)
  }

  lemma CostStep(a: nat, b: nat)
    requires a > 0 && b > 0
    ensures a < b ==> Cost(a, b) == a + Cost(a, b - a)
    ensures a >= b ==> Cost(a, b) == b + Cost(a - b, b)
  {
  }

  /** Swaps element by element, and counts the swaps. */
  method SwapBlocks<T>(a: array<T>, x: nat, y: nat, n: nat) returns (ghost swaps: nat)
    requires x + n <= y && y + n <= a.Length
    modifies a
    ensures a[..] == Swapped(old(a[..]), x, y, n)
    ensures swaps == n
  {
    var i := 0;
    swaps := 0;
    while i < n
      invariant 0 <= i <= n && swaps == i
      invariant forall k :: 0 <= k < a.Length && !(x <= k < x + i) && !(y <= k < y + i) ==> a[k] == old(a[k])
      invariant forall k :: x <= k < x + i ==> a[k] == old(a[k + (y - x)])
      invariant forall k :: y <= k < y + i ==> a[k] == old(a[k - (y - x)])
    {
      var tem := a[x + i];
      a[x + i] := a[y + i];
      a[y + i] := tem;
      swaps := swaps + 1;
      i := i + 1;
    }
    ghost var s := old(a[..]);
    forall k | 0 <= k < a.Length ensures a[..][k] == Swapped(s, x, y, n)[k] {
      assert s[k] == old(a[k]);
    }
  }

  /** Swaps the short bottom block with the top part of the top block. */
  method SwapShortBottom<T>(a: array<T>, b: nat, m: nat, t: nat) returns (ghost swaps: nat)
    requires b <= m <= t <= a.Length && m - b <= t - m
    modifies a
    ensures Rotated(a[..], b, m, t - (m - b)) == Rotated(old(a[..]), b, m, t)
    ensures swaps == m - b
  {
    hide Rotated, Swapped;
    RotateShortBottom(a[..], b, m, t);
    swaps := SwapBlocks(a, b, t - (m - b), m - b);
  }

  /** Swaps the short top block with the bottom part of the bottom block. */
  method SwapShortTop<T>(a: array<T>, b: nat, m: nat, t: nat) returns (ghost swaps: nat)
    requires b <= m <= t <= a.Length && t - m <= m - b
    modifies a
    ensures Rotated(a[..], b + (t - m), m, t) == Rotated(old(a[..]), b, m, t)
    ensures swaps == t - m
  {
    hide Rotated, Swapped;
    RotateShortTop(a[..], b, m, t);
    swaps := SwapBlocks(a, b, m, t - m);
  }

  /** Exchanges the two blocks of `[from, to)`, always swapping the shorter one
      with the far end of the longer one.  Each pass is one step of Euclid on
      the block lengths, so the number of element swaps is their sum less their
      greatest common divisor. */
  method Rotate<T>(a: array<T>, from: nat, mid: nat, to: nat) returns (ghost swaps: nat)
    requires from <= mid <= to <= a.Length
    modifies a
    ensures a[..] == Rotated(old(a[..]), from, mid, to)
    ensures swaps == Cost(mid - from, to - mid)
  {
    hide Rotated, Gcd;
    var bottom, middle, top := from, mid, to;
    swaps := 0;
    ghost var goal := Rotated(a[..], from, mid, to);
    while top > middle && middle > bottom
      invariant from <= bottom <= middle <= top <= to
      invariant Rotated(a[..], bottom, middle, top) == goal
      invariant swaps + Cost(middle - bottom, top - middle) == Cost(mid - from, to - mid)
      decreases top - bottom
    {
      CostStep(middle - bottom, top - middle);
      if top - middle > middle - bottom {
        var len := middle - bottom;
        ghost var made := SwapShortBottom(a, bottom, middle, top);
        swaps := swaps + made;
        top := top - len;
      } else {
        var len := top - middle;
        ghost var made := SwapShortTop(a, bottom, middle, top);
        swaps := swaps + made;
        bottom := bottom + len;
      }
    }
    RotateNothing(a[..], bottom, middle, top);
  }
}
