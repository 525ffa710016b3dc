/** Small vocabulary shared by the other modules. */
module Prelude {

  datatype Option<+T> = None | Some(value: T)

  function Min(a: int, b: int): (r: int) { if a < b then a else b }

  function Max(a: int, b: int): (r: int) { if a > b then a else b }

  /** C's `s[i]` on a NUL-terminated string whose characters are `s`. */
  function At(s: string, i: nat): (r: char) { if i < |s| then s[i] else '\0' }

  function Repeat<T>(x: T, n: int): (r: seq<T>)
  {
    seq(Max(n, 0), _ => x)
  }

  function Sum(xs: seq<int>): (r: int) { if xs == [] then 0 else xs[0] + Sum(xs[1..]) }

  lemma {:induction false} SumConcat(xs: seq<int>, ys: seq<int>)
    ensures Sum(xs + ys) == Sum(xs) + Sum(ys)
  {
    if xs == [] {
      assert xs + ys == ys;
    } else {
      assert (xs + ys)[1..] == xs[1..] + ys;
      SumConcat(xs[1..], ys);
    }
  }

  /** `list` without the first occurrence of `x`. */
  function RemoveFirst<T(==)>(list: seq<T>, x: T): (r: seq<T>) {
    if list == [] then [] else if list[0] == x then list[1..] else [list[0]] + RemoveFirst(list[1..], x)
  }

  ghost predicate Distinct<T>(list: seq<T>) { forall i, j :: 0 <= i < j < |list| ==> list[i] != list[j] }

  lemma {:induction false} RemoveFirstAt<T>(list: seq<T>, x: T, k: nat)
    requires k < |list| && list[k] == x && forall j :: 0 <= j < k ==> list[j] != x
    ensures RemoveFirst(list, x) == list[..k] + list[k + 1..]
  {
    if k > 0 {
      RemoveFirstAt(list[1..], x, k - 1);
    }
  }

  lemma {:induction false} RemoveFirstMissing<T>(list: seq<T>, x: T)
    requires x !in list
    ensures RemoveFirst(list, x) == list
  {
    if list != [] {
      RemoveFirstMissing(list[1..], x);
    }
  }

  /** Where nothing occurs twice, exactly `x` goes. */
  lemma {:induction false} RemovesOne<T>(list: seq<T>, x: T)
    requires Distinct(list)
    ensures forall u :: u in RemoveFirst(list, x) <==> u in list && u != x
    ensures Distinct(RemoveFirst(list, x)) && |RemoveFirst(list, x)| == |list| - (if x in list then 1 else 0)
  {
    if list != [] {
      if list[0] == x {
        assert forall u :: u in list <==> u == x || u in list[1..];
      } else {
        RemovesOne(list[1..], x);
        assert forall k :: 0 <= k < |list| - 1 ==> list[1..][k] != list[0];
        assert list[0] !in RemoveFirst(list[1..], x);
      }
    }
  }

  // ---- Slices ----

  lemma TakeDrop<T>(s: seq<T>, k: nat)
    requires k <= |s|
    ensures s[..k] + s[k..] == s
  {
  }

  /** A slice that is a concatenation. */
  lemma SplitSlice<T>(s: seq<T>, i: nat, x: seq<T>, y: seq<T>)
    requires i + |x| + |y| <= |s| && s[i..i + |x| + |y|] == x + y
    ensures s[i..i + |x|] == x && s[i + |x|..i + |x| + |y|] == y
  {
    var z := s[i..i + |x| + |y|];
    assert z[..|x|] == x && z[|x|..] == y;
  }

  /** The index of the first NUL. */
  method StrLen(buffer: array<char>) returns (n: nat)
    requires exists i :: 0 <= i < buffer.Length && buffer[i] == '\0'
    ensures n < buffer.Length && buffer[n] == '\0' && '\0' !in buffer[..n]
    ensures forall i :: 0 <= i < n ==> buffer[i] != '\0'
  {
    n := 0;
    while buffer[n] != '\0'
      invariant n < buffer.Length && forall i :: 0 <= i < n ==> buffer[i] != '\0'
      invariant exists i :: n <= i < buffer.Length && buffer[i] == '\0'
      decreases buffer.Length - n
    {
      n := n + 1;
    }
  }
}
