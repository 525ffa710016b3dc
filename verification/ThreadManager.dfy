/** The thread manager: a counter and a doubly linked list of the threads. */
module ThreadManager {
  import opened Prelude

  type Tid = int

  /** thrd_t; `last` is the entry before this one. */
  class Entry {
    var tid: Tid
    var next: Entry?
    var last: Entry?

    constructor (tid: Tid)
      ensures this.tid == tid && next == null && last == null
    {
      this.tid, next, last := tid, null, null;
    }
  }

  /** The `i`th entry, or NULL past either end. */
  ghost function Nth(es: seq<Entry>, i: int): (r: Entry?) { if 0 <= i < |es| then es[i] else null }

  ghost function Without(es: seq<Entry>, k: nat): (r: seq<Entry>)
    requires k < |es|
  {
    seq(|es| - 1, i requires 0 <= i < |es| - 1 => es[if i < k then i else i + 1])
  }

  ghost function TidsOf(es: seq<Entry>): (r: seq<Tid>)
    reads es
    ensures |r| == |es|
  {
    seq(|es|, i requires 0 <= i < |es| reads es => es[i].tid)
  }

  lemma TidsWithout(es: seq<Entry>, k: nat)
    requires k < |es|
    ensures TidsOf(Without(es, k)) == TidsOf(es)[..k] + TidsOf(es)[k + 1..]
  {
  }

  lemma TidsInFront(e: Entry, es: seq<Entry>)
    ensures TidsOf([e] + es) == [e.tid] + TidsOf(es)
  {
  }

  ghost predicate BypassedNext(es: seq<Entry>, k: nat)
    reads es`next
  {
    forall j {:trigger es[j].next} :: 0 <= j < |es| && j != k ==>
      es[j].next == Nth(es, if j == k - 1 then k + 1 else j + 1)
  }

  ghost predicate BypassedLast(es: seq<Entry>, k: nat)
    reads es`last
  {
    forall j {:trigger es[j].last} :: 0 <= j < |es| && j != k ==>
      es[j].last == Nth(es, if j == k + 1 then k - 1 else j - 1)
  }

  /** Around the entry at `k` the links skip it; elsewhere they are as before. */
  lemma BypassLinks(es: seq<Entry>, k: nat)
    requires k < |es|
    requires BypassedNext(es, k) && BypassedLast(es, k)
    ensures var fs := Without(es, k);
      && (forall i {:trigger fs[i].next} :: 0 <= i < |fs| ==> fs[i].next == Nth(fs, i + 1))
      && (forall i {:trigger fs[i].last} :: 0 <= i < |fs| ==> fs[i].last == Nth(fs, i - 1))
  {
    var fs := Without(es, k);
    forall i | 0 <= i < |fs|
      ensures fs[i].next == Nth(fs, i + 1) && fs[i].last == Nth(fs, i - 1)
    {
      var j := if i < k then i else i + 1;
      assert fs[i] == es[j];
    }
  }

  /** A new entry that points to the others, and that the first of them points
      back to. */
  lemma FrontLinks(e: Entry, es: seq<Entry>)
    requires e.next == Nth(es, 0) && e.last == null && e !in es && Distinct(es)
    requires forall i {:trigger es[i].next} :: 0 <= i < |es| ==> es[i].next == Nth(es, i + 1)
    requires forall i {:trigger es[i].last} :: 0 <= i < |es| ==> es[i].last == (if i == 0 then e else es[i - 1])
    ensures var fs := [e] + es;
      && Distinct(fs) && Nth(fs, 0) == e
      && (forall i {:trigger fs[i].next} :: 0 <= i < |fs| ==> fs[i].next == Nth(fs, i + 1))
      && (forall i {:trigger fs[i].last} :: 0 <= i < |fs| ==> fs[i].last == Nth(fs, i - 1))
  {
    var fs := [e] + es;
    forall i | 0 <= i < |fs|
      ensures fs[i].next == Nth(fs, i + 1) && fs[i].last == Nth(fs, i - 1)
    {
      if i > 0 {
        assert fs[i] == es[i - 1];
      }
    }
  }

  lemma WithoutIsShorter(es: seq<Entry>, k: nat)
    requires Distinct(es) && k < |es|
    ensures Distinct(Without(es, k)) && |Without(es, k)| == |es| - 1
    ensures Nth(Without(es, k), 0) == Nth(es, if k == 0 then 1 else 0)
  {
  }

  /** thrmgr_t.  `entries` is the list in order; `lost` counts the threads that
      were counted but found no memory for an entry. */
  class Manager {
    var tlist: Entry?
    var nthreads: int
    ghost var entries: seq<Entry>
    ghost var lost: nat

    /** The list has no cycle, `next` and `last` are inverse to each other, and
        the counter is the length, but for the lost ones. */
    ghost predicate Valid()
      reads this, entries
    {
      && Distinct(entries)
      && tlist == Nth(entries, 0)
      && (forall i {:trigger entries[i].next} :: 0 <= i < |entries| ==> entries[i].next == Nth(entries, i + 1))
      && (forall i {:trigger entries[i].last} :: 0 <= i < |entries| ==> entries[i].last == Nth(entries, i - 1))
      && nthreads == |entries| + lost
    }

    ghost function Threads(): (r: seq<Tid>)
      reads this, entries
    {
      TidsOf(entries)
    }

    constructor ()
      ensures Valid() && Threads() == [] && lost == 0
    {
      tlist, nthreads, entries, lost := null, 0, [], 0;
    }

    /** Links the new entry to the list and the list to it. */
    method Link(e: Entry)
      requires e !in entries && e.last == null && Distinct(entries) && tlist == Nth(entries, 0)
      requires forall i {:trigger entries[i].last} :: 0 <= i < |entries| ==> entries[i].last == Nth(entries, i - 1)
      modifies this`tlist, e`next, entries`last
      ensures tlist == e && e.next == Nth(entries, 0) && e.last == null
      ensures forall i {:trigger entries[i].last} :: 0 <= i < |entries| ==>
                entries[i].last == (if i == 0 then e else entries[i - 1])
      ensures TidsOf(entries) == old(TidsOf(entries))
    {
      e.next := tlist;
      if e.next != null {
        e.next.last := e;
      }
      tlist := e;
    }

    /** `memory` says whether malloc succeeds; `corrupt` whether the walk over
        the new list finds a missing back link. */
    method Register(tid: Tid, memory: bool) returns (r: int, corrupt: bool, length: nat)
      requires Valid()
      modifies this, entries
      ensures Valid()
      ensures nthreads == old(nthreads) + 1
      ensures r == if memory then 0 else -1
      ensures Threads() == if memory then [tid] + old(Threads()) else old(Threads())
      ensures lost == if memory then old(lost) else old(lost) + 1
      ensures memory ==> !corrupt && length == |Threads()|
    {
      nthreads := nthreads + 1;
      if !memory {
        lost := lost + 1;
        return -1, false, 0;
      }
      hide TidsOf, Nth;
      ghost var was := entries;
      var e := new Entry(tid);
      Link(e);
      TidsInFront(e, was);
      FrontLinks(e, was);
      entries := [e] + was;
      corrupt, length := Walk();
      return 0, corrupt, length;
    }

    method Walk() returns (corrupt: bool, length: nat)
      requires Valid()
      ensures !corrupt && length == |entries|
    {
      corrupt, length := false, 0;
      var e := tlist;
      while e != null
        invariant length <= |entries| && e == Nth(entries, length) && !corrupt
        decreases |entries| - length
      {
        if length > 0 && e.last == null {
          corrupt := true;
        }
        length := length + 1;
        e := e.next;
      }
    }

    /** Makes what comes before `e` point to what comes behind it. */
    method BypassForward(e: Entry, ghost k: nat)
      requires Valid() && k < |entries| && e == entries[k]
      modifies this`tlist, entries`next
      ensures TidsOf(entries) == old(TidsOf(entries))
      ensures BypassedNext(entries, k) && tlist == Nth(entries, if k == 0 then 1 else 0)
      ensures e.next == old(e.next)
    {
      if e.last != null {
        e.last.next := e.next;
      } else {
        tlist := e.next;
      }
    }

    /** Makes what comes behind `e` point back to what comes before it. */
    method BypassBackward(e: Entry, ghost k: nat)
      requires k < |entries| && e == entries[k] && Distinct(entries) && e.next == Nth(entries, k + 1)
      requires forall i {:trigger entries[i].last} :: 0 <= i < |entries| ==> entries[i].last == Nth(entries, i - 1)
      modifies entries`last
      ensures TidsOf(entries) == old(TidsOf(entries))
      ensures BypassedLast(entries, k)
    {
      if e.next != null {
        e.next.last := e.last;
      }
    }

    method Unlink(e: Entry, ghost k: nat)
      requires Valid() && k < |entries| && e == entries[k]
      modifies this, entries
      ensures Valid() && lost == old(lost) && nthreads == old(nthreads) - 1
      ensures Threads() == old(Threads()[..k] + Threads()[k + 1..])
    {
      hide BypassedNext, BypassedLast, TidsOf, Without;
      ghost var was := entries;
      BypassForward(e, k);
      BypassBackward(e, k);
      nthreads := nthreads - 1;
      entries := Without(was, k);
      TidsWithout(was, k);
      BypassLinks(was, k);
      WithoutIsShorter(was, k);
    }

    method Unregister(tid: Tid) returns (r: int)
      requires Valid()
      modifies this, entries
      ensures Valid()
      ensures lost == old(lost)
      ensures r == if tid in old(Threads()) then 0 else -1
      ensures r == 0 ==> nthreads == old(nthreads) - 1
      ensures r == -1 ==> nthreads == old(nthreads)
      ensures Threads() == RemoveFirst(old(Threads()), tid)
    {
      ghost var ts := Threads();
      ghost var k := 0;
      var e := tlist;
      while e != null
        invariant k <= |entries| && e == Nth(entries, k)
        invariant forall j :: 0 <= j < k ==> ts[j] != tid
        decreases |entries| - k
      {
        if e.tid == tid {
          Unlink(e, k);
          RemoveFirstAt(ts, tid, k);
          return 0;
        }
        e, k := e.next, k + 1;
      }
      RemoveFirstMissing(ts, tid);
      return -1;
    }
  }
}
