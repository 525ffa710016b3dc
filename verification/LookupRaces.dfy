/** That what the threads share is changed under its mutex only. */
module LookupRaces {
  import opened Prelude
  import opened Verdict
  import opened LookupProtocol
  import opened LookupSafety

  lemma WriterHolds(c: Config, s: State, a: Act, w: nat)
    requires ValidConfig(c) && WellShaped(c, s) && Can(c, s, a) && w < |s.workers| && IsThread(c, Actor(a))
    ensures var s', held := Do(c, s, a), Held(c, s, Actor(a));
      && |s'.workers| == |s.workers|
      && (s'.workers[w].resolvers != s.workers[w].resolvers || (a == Work(w) && s.workers[w].pc == Test) ==>
            Res(w) in held)
      && (s'.workers[w].score != s.workers[w].score || s'.workers[w].reply != s.workers[w].reply ==> List in held)
      && (s'.enlisted != s.enlisted || s'.nthreads != s.nthreads ==> Mgr in held)
  {
  }

  /** No data race: whoever changes a worker's counter, its total or its reply,
      or the manager's list or counter, owns the mutex of these at that moment,
      and so does a worker that tests its counter. */
  lemma WritesUnderLock(c: Config, s: State, a: Act, w: nat)
    requires ValidConfig(c) && Reachable(c, s) && WellShaped(c, s) && Can(c, s, a) && w < |s.workers|
    ensures var s' := Do(c, s, a);
      && |s'.workers| == |s.workers|
      && (s'.workers[w].resolvers != s.workers[w].resolvers || (a == Work(w) && s.workers[w].pc == Test) ==>
            Res(w) in s.locks && s.locks[Res(w)] == Actor(a))
      && (s'.workers[w].score != s.workers[w].score || s'.workers[w].reply != s.workers[w].reply ==>
            List in s.locks && s.locks[List] == Actor(a))
      && (s'.enlisted != s.enlisted || s'.nthreads != s.nthreads ==> Mgr in s.locks && s.locks[Mgr] == Actor(a))
  {
    hide Reachable, ListInv, NotAhead, WorkersInv, OwnersHold, Do, Can, Held;
    ReachableInv(c, s);
    ActorIsThread(c, s, a);
    var t := Actor(a);
    assert IsThread(c, t);
    WriterHolds(c, s, a, w);
    assert forall l :: l in Held(c, s, t) ==> l in s.locks && s.locks[l] == t;
  }
}
