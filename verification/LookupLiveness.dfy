/** Every schedule of the lookup protocol comes to an end, and where it ends all
    workers have answered and exited, except those for which a solver thread could not be
    created. */
module LookupLiveness {
  import opened Prelude
  import opened Verdict
  import opened LookupProtocol
  import opened LookupSafety

  // ---- No deadlock ----

  /** No thread can take a step. */
  ghost predicate Quiet(c: Config, s: State)
    requires WellShaped(c, s)
  {
    && (forall w :: 0 <= w < |s.workers| ==> !Can(c, s, Work(w)))
    && forall w, i :: 0 <= w < |s.workers| && 0 <= i < |c.rbls| ==> !Can(c, s, Solve(w, i))
  }

  predicate Abandoned(s: State, l: Lock) {
    l.Res? && l.w < |s.workers| && s.workers[l.w].pc.Finished?
  }

  /** In a quiet state the owner of a mutex would have to wait for one further
      up; only a worker that has finished keeps its own. */
  lemma {:induction false} NobodyWaits(c: Config, s: State, l: Lock)
    requires ValidConfig(c) && Inv(c, s) && Quiet(c, s) && l in s.locks
    ensures Abandoned(s, l)
    decreases 4 - Rank(l)
  {
    if !Abandoned(s, l) {
      var m := OwnerWaits(c, s, l);
      NobodyWaits(c, s, m);
    }
  }

  lemma OwnerWaits(c: Config, s: State, l: Lock) returns (m: Lock)
    requires ValidConfig(c) && Inv(c, s) && Quiet(c, s) && l in s.locks && !Abandoned(s, l)
    ensures m in s.locks && Rank(l) < Rank(m) && !Abandoned(s, m)
  {
    var t := s.locks[l];
    if t.S? {
      SolverOwnerMoves(c, s, t.w, t.i, l);
      assert false;
    } else {
      var wk := s.workers[t.w];
      OwnerIsNotDone(t.w, wk.pc, l);
      assert !Can(c, s, Work(t.w));
      m := WOp(t.w, wk.pc, wk.resolvers).l;
      LocksNest(c, s, t, m);
    }
  }

  /** A solver never waits for a second mutex. */
  lemma SolverOwnerMoves(c: Config, s: State, w: nat, i: nat, l: Lock)
    requires WellShaped(c, s) && w < |c.hits| && i < |c.rbls| && l in Held(c, s, S(w, i))
    ensures Can(c, s, Solve(w, i))
  {
  }

  lemma OwnerIsNotDone(w: nat, pc: WPc, l: Lock)
    requires l in WHolds(w, pc)
    ensures pc != Asleep && (pc == Finished ==> l == Res(w))
  {
  }

  lemma WaitsForItsOwn(w: nat, wpc: WPc, spc: SPc, resolvers: int)
    ensures WOp(w, wpc, resolvers).Take? && WOp(w, wpc, resolvers).l.Res? ==> WOp(w, wpc, resolvers).l.w == w
    ensures SOp(w, spc).Take? && SOp(w, spc).l.Res? ==> SOp(w, spc).l.w == w && spc.TakeRes?
  {
  }

  /** A worker that has finished has no solver left that waits for it. */
  lemma NoWaiterLeft(c: Config, w: nat, wk: Worker, i: nat)
    requires ValidConfig(c) && WorkerInv(c, w, wk) && wk.pc.Finished? && i < |wk.solvers|
    ensures !wk.solvers[i].pc.TakeRes?
  {
    if wk.solvers[i].pc.TakeRes? {
      PendingAt(wk.solvers, i);
    }
  }

  lemma QuietSolver(c: Config, s: State, w: nat, i: nat)
    requires ValidConfig(c) && Inv(c, s) && Quiet(c, s) && w < |s.workers| && i < |c.rbls|
    ensures !Running(s.workers[w].solvers[i].pc)
  {
    var wk := s.workers[w];
    if Running(wk.solvers[i].pc) {
      var op := SOp(w, wk.solvers[i].pc);
      assert op.Take? && op.l in s.locks by { assert !Can(c, s, Solve(w, i)); }
      NobodyWaits(c, s, op.l);
      WaitsForItsOwn(w, wk.pc, wk.solvers[i].pc, wk.resolvers);
      NoWaiterLeft(c, w, wk, i);
    }
  }

  lemma QuietWorker(c: Config, s: State, w: nat)
    requires ValidConfig(c) && Inv(c, s) && Quiet(c, s) && w < |s.workers|
    ensures AtRest(s.workers[w].pc)
  {
    var wk := s.workers[w];
    if !AtRest(wk.pc) {
      var op := WOp(w, wk.pc, wk.resolvers);
      assert op.Take? && op.l in s.locks by { assert !Can(c, s, Work(w)); }
      NobodyWaits(c, s, op.l);
      WaitsForItsOwn(w, wk.pc, Gone, wk.resolvers);
    }
  }

  ghost predicate AnySpawnFailed(wk: Worker) {
    exists i :: 0 <= i < |wk.solvers| && wk.solvers[i].pc.Failed?
  }

  /** How the worker stands when nothing moves any more. */
  lemma QuietOutcome(c: Config, s: State, w: nat)
    requires ValidConfig(c) && Inv(c, s) && Quiet(c, s) && w < |s.workers|
    ensures s.workers[w].pc.Finished? <==> !AnySpawnFailed(s.workers[w])
    ensures s.workers[w].pc.Asleep? <==> AnySpawnFailed(s.workers[w])
    ensures forall i :: 0 <= i < |c.rbls| ==>
      s.workers[w].solvers[i].pc.Gone? || s.workers[w].solvers[i].pc.Failed?
  {
    var wk := s.workers[w];
    QuietWorker(c, s, w);
    forall i | 0 <= i < |c.rbls|
      ensures wk.solvers[i].pc.Gone? || wk.solvers[i].pc.Failed?
    {
      QuietSolver(c, s, w, i);
      assert i < Through(wk.pc, |wk.solvers|);
    }
    if AnySpawnFailed(wk) {
      var i :| 0 <= i < |wk.solvers| && wk.solvers[i].pc.Failed?;
      PendingAt(wk.solvers, i);
    }
    if wk.pc.Asleep? {
      if wk.resolvers > 0 {
        var i := SomePending(wk.solvers);
        assert wk.solvers[i].pc.Failed?;
      }
    }
  }

  // ---- No endless schedule ----

  function WorkerCost(pc: WPc, n: nat): (r: int) {
    var later := 2 * n + 7;
    match pc
    case TakeRes(i) => 12 * (n - i) + later
    case Prepare(i) => 12 * (n - i) + later - 1
    case TakeInit(i) => 12 * (n - i) + later - 2
    case DropInit(i) => 12 * (n - i) + later - 3
    case TakeMgr(i) => 12 * (n - i) + later - 4
    case Spawn(i) => 12 * (n - i) + later - 5
    case Enlist(i) => 12 * (n - i) + later - 6
    case TakeCount(i) => 12 * (n - i) + later - 7
    case DropCount(i) => 12 * (n - i) + later - 8
    case DropMgr(i) => 12 * (n - i) + later - 9
    case DropRes(i) => 12 * (n - i) + later - 10
    case TakeWait => later
    case Woken => later - 1
    case Test => later - 2
    case Asleep => later - 3
    case TakeList(i) => 2 * (n - i) + 4
    case Collect(i) => 2 * (n - i) + 3
    case Answered => 4
    case DropWorkTime => 3
    case TakeWorkMgr => 2
    case DropWorkMgr => 1
    case Finished => 0
  }

  function SolverCost(pc: SPc): (r: nat) {
    match pc
    case Unborn => 14
    case Counted => 14
    case Query => 14
    case TakeRes => 13
    case Decrement => 12
    case Broadcast => 11
    case DropRes => 8
    case TakeTime => 7
    case DropTime => 6
    case TakeMgr => 5
    case Delist => 4
    case DropMgr => 3
    case Gone => 0
    case Failed => 0
  }

  function SolversCost(svs: seq<Solver>): (r: nat) {
    if svs == [] then 0 else SolversCost(svs[..|svs| - 1]) + SolverCost(svs[|svs| - 1].pc)
  }

  function Cost(wk: Worker): (r: int) { WorkerCost(wk.pc, |wk.solvers|) + SolversCost(wk.solvers) }

  function Costs(wks: seq<Worker>): (r: int) {
    if wks == [] then 0 else Costs(wks[..|wks| - 1]) + Cost(wks[|wks| - 1])
  }

  lemma {:induction false} SolversCostUpdate(svs: seq<Solver>, i: nat, sv: Solver)
    requires i < |svs|
    ensures SolversCost(svs[i := sv]) == SolversCost(svs) - SolverCost(svs[i].pc) + SolverCost(sv.pc)
  {
    var n := |svs| - 1;
    if i == n {
      assert svs[i := sv][..n] == svs[..n];
    } else {
      assert svs[i := sv][..n] == svs[..n][i := sv];
      SolversCostUpdate(svs[..n], i, sv);
    }
  }

  lemma {:induction false} CostsUpdate(wks: seq<Worker>, w: nat, wk: Worker)
    requires w < |wks|
    ensures Costs(wks[w := wk]) == Costs(wks) - Cost(wks[w]) + Cost(wk)
  {
    var n := |wks| - 1;
    if w == n {
      assert wks[w := wk][..n] == wks[..n];
    } else {
      assert wks[w := wk][..n] == wks[..n][w := wk];
      CostsUpdate(wks[..n], w, wk);
    }
  }

  lemma {:induction false} CostsNonnegative(c: Config, wks: seq<Worker>)
    requires forall w :: 0 <= w < |wks| ==> |wks[w].solvers| == |c.rbls| && PcInRange(wks[w].pc, |c.rbls|)
    ensures Costs(wks) >= 0
  {
    if wks != [] {
      assert wks[|wks| - 1].solvers == wks[|wks| - 1].solvers;
      CostsNonnegative(c, wks[..|wks| - 1]);
    }
  }

  lemma {:induction false} UnbornCost(n: nat)
    ensures SolversCost(seq(n, _ => Solver(Unborn, 0))) == 14 * n
  {
    if n > 0 {
      assert seq(n, _ => Solver(Unborn, 0))[..n - 1] == seq(n - 1, _ => Solver(Unborn, 0));
      UnbornCost(n - 1);
    }
  }

  lemma {:induction false} InitialCosts(n: nat, m: nat)
    ensures Costs(seq(m, _ => InitialWorker(n))) == m * (28 * n + 7)
  {
    if m > 0 {
      assert seq(m, _ => InitialWorker(n))[..m - 1] == seq(m - 1, _ => InitialWorker(n));
      UnbornCost(n);
      InitialCosts(n, m - 1);
    }
  }

  lemma WorkerProceeds(c: Config, w: nat, wk: Worker)
    requires ValidConfig(c) && WorkerInv(c, w, wk) && !AtRest(wk.pc)
    ensures Cost(WAfter(c, wk)) < Cost(wk)
  {
    var wk' := WAfter(c, wk);
    if wk.pc.Prepare? || wk.pc.Spawn? {
      SolversCostUpdate(wk.solvers, wk.pc.i, wk'.solvers[wk.pc.i]);
    } else {
      assert wk'.solvers == wk.solvers;
    }
    PcProceeds(c, wk);
  }

  lemma PcProceeds(c: Config, wk: Worker)
    requires |wk.solvers| == |c.rbls| && PcInRange(wk.pc, |c.rbls|) && !AtRest(wk.pc)
    ensures WorkerCost(WAfter(c, wk).pc, |c.rbls|) < WorkerCost(wk.pc, |c.rbls|)
  {
  }

  lemma SolverProceeds(c: Config, w: nat, wk: Worker, i: nat)
    requires ValidConfig(c) && WorkerInv(c, w, wk) && i < |wk.solvers| && Running(wk.solvers[i].pc)
    ensures Cost(SAfter(c, w, wk, i)) < Cost(wk)
  {
    var wk' := SAfter(c, w, wk, i);
    SolversCostUpdate(wk.solvers, i, wk'.solvers[i]);
    SolverPcProceeds(c, w, wk, i);
  }

  lemma SolverPcProceeds(c: Config, w: nat, wk: Worker, i: nat)
    requires i < |wk.solvers| == |c.rbls| && w < |c.hits| && |c.hits[w]| == |c.rbls| && Running(wk.solvers[i].pc)
    ensures var wk' := SAfter(c, w, wk, i);
      && wk'.solvers == wk.solvers[i := wk'.solvers[i]]
      && WorkerCost(wk'.pc, |c.rbls|) + SolverCost(wk'.solvers[i].pc)
         < WorkerCost(wk.pc, |c.rbls|) + SolverCost(wk.solvers[i].pc)
  {
  }

  lemma FailureProceeds(c: Config, w: nat, wk: Worker)
    requires ValidConfig(c) && WorkerInv(c, w, wk) && wk.pc.Spawn?
    ensures Cost(WFails(wk)) < Cost(wk)
  {
    SolversCostUpdate(wk.solvers, wk.pc.i, wk.solvers[wk.pc.i].(pc := Failed));
  }

  lemma InvOfWorker(c: Config, s: State, w: nat)
    requires ValidConfig(c) && Inv(c, s) && w < |s.workers|
    ensures WorkerInv(c, w, s.workers[w])
  {
  }

  /** Every step brings the end nearer, but for a spurious wakeup. */
  lemma StepProceeds(c: Config, s: State, a: Act)
    requires ValidConfig(c) && Inv(c, s) && Can(c, s, a)
    ensures Costs(Do(c, s, a).workers) <= Costs(s.workers) + if a.Spurious? then 2 else -1
  {
    hide Do, WAfter, SAfter, WFails, Costs, SolversCost;
    var wk := s.workers[a.w];
    InvOfWorker(c, s, a.w);
    hide Inv;
    StepIsLocal(c, s, a);
    CostsUpdate(s.workers, a.w, Do(c, s, a).workers[a.w]);
    match a
    case Work(w) => WorkerProceeds(c, w, wk);
    case SpawnFails(w) => FailureProceeds(c, w, wk);
    case Spurious(w) =>
    case Solve(w, i) => SolverProceeds(c, w, wk, i);
  }

  function Spurious(run: seq<Act>): (r: nat) {
    if run == [] then 0 else (if run[0].Spurious? then 1 else 0) + Spurious(run[1..])
  }

  lemma {:induction false} RunProceeds(c: Config, s: State, run: seq<Act>)
    requires ValidConfig(c) && Inv(c, s) && Playable(c, s, run)
    ensures |run| + Costs(Play(c, s, run).workers) <= Costs(s.workers) + 3 * Spurious(run)
    decreases |run|
  {
    if run != [] {
      StepKeeps(c, s, run[0]);
      StepProceeds(c, s, run[0]);
      RunProceeds(c, Do(c, s, run[0]), run[1..]);
    }
  }

  /** However the threads are scheduled, the number of steps is bounded by the
      numbers of workers and lists and the spurious wakeups. */
  lemma RunsAreShort(c: Config, run: seq<Act>)
    requires ValidConfig(c) && Playable(c, InitialState(c), run)
    ensures |run| <= |c.hits| * (28 * |c.rbls| + 7) + 3 * Spurious(run)
  {
    InitialInv(c);
    RunKeeps(c, InitialState(c), run);
    RunProceeds(c, InitialState(c), run);
    CostsNonnegative(c, Play(c, InitialState(c), run).workers);
    InitialCosts(|c.rbls|, |c.hits|);
  }

  // ---- What is left in the end ----

  ghost predicate NoneFailed(s: State) {
    forall w :: 0 <= w < |s.workers| ==> !AnySpawnFailed(s.workers[w])
  }

  lemma {:induction false} RunWithoutFailure(c: Config, s: State, run: seq<Act>)
    requires ValidConfig(c) && WellShaped(c, s) && Playable(c, s, run) && NoneFailed(s)
    requires forall a :: a in run ==> !a.SpawnFails?
    ensures NoneFailed(Play(c, s, run))
    decreases |run|
  {
    if run != [] {
      DoWellShaped(c, s, run[0]);
      assert !run[0].SpawnFails?;
      StepWithoutFailure(c, s, run[0]);
      RunWithoutFailure(c, Do(c, s, run[0]), run[1..]);
    }
  }

  lemma StepWithoutFailure(c: Config, s: State, a: Act)
    requires ValidConfig(c) && WellShaped(c, s) && Can(c, s, a) && NoneFailed(s) && !a.SpawnFails?
    ensures NoneFailed(Do(c, s, a))
  {
    var wk, wk' := s.workers[a.w], Do(c, s, a).workers[a.w];
    StepIsLocal(c, s, a);
    assert !AnySpawnFailed(wk);
    forall i | 0 <= i < |wk'.solvers|
      ensures !wk'.solvers[i].pc.Failed?
    {
      assert !wk.solvers[i].pc.Failed?;
    }
  }

  /** Where no step is possible any more: a worker has answered exactly if all
      its solvers could be created, and sleeps forever otherwise; its answer is
      the verdict; every solver has gone and the manager's list is empty. */
  lemma EndOfRun(c: Config, s: State, w: nat)
    requires ValidConfig(c) && Reachable(c, s) && WellShaped(c, s) && Quiet(c, s) && w < |s.workers|
    ensures s.workers[w].pc.Finished? <==> !AnySpawnFailed(s.workers[w])
    ensures s.workers[w].pc.Asleep? <==> AnySpawnFailed(s.workers[w])
    ensures s.workers[w].pc.Finished? ==>
      s.workers[w].score == Score(c.rbls, c.hits[w]) && s.workers[w].reply == Blocking(c.rbls, c.hits[w])
    ensures s.enlisted == [] && s.nthreads == 0
  {
    ReachableInv(c, s);
    QuietOutcome(c, s, w);
    AnswerIsVerdict(c, s, w);
    if s.enlisted != [] {
      var t := s.enlisted[0];
      assert t in s.enlisted;
      QuietSolver(c, s, t.w, t.i);
    }
  }

  lemma PlayStep(c: Config, s: State, a: Act, run: seq<Act>)
    requires ValidConfig(c) && WellShaped(c, s) && Can(c, s, a)
    requires WellShaped(c, Do(c, s, a)) && Playable(c, Do(c, s, a), run)
    ensures Playable(c, s, [a] + run) && Play(c, s, [a] + run) == Play(c, Do(c, s, a), run)
  {
    hide Do, Can, WellShaped;
    assert ([a] + run)[1..] == run;
  }

  /** One worker that asks one list. */
  function LoneWorker(pc: WPc, resolvers: int, sv: SPc): (wk: Worker) {
    Worker(pc, resolvers, [Solver(sv, 0)], 0, [])
  }

  function Lone(wk: Worker, locks: map<Lock, Thread>): (s: State) { State([wk], locks, [], 0) }

  predicate SameRecord(x: Worker, y: Worker) {
    && x.pc == y.pc && x.resolvers == y.resolvers && x.score == y.score && x.reply == y.reply
    && |x.solvers| == |y.solvers| == 1 && x.solvers[0] == y.solvers[0]
  }

  lemma LoneStep(c: Config, wk: Worker, locks: map<Lock, Thread>, wk': Worker, locks': map<Lock, Thread>, run: seq<Act>)
    requires ValidConfig(c) && |c.rbls| == |c.hits| == 1
    requires |wk.solvers| == |wk'.solvers| == 1 && PcInRange(wk.pc, 1) && PcInRange(wk'.pc, 1)
    requires !AtRest(wk.pc) && !wk.pc.Enlist? && Free(locks, WOp(0, wk.pc, wk.resolvers))
    requires SameRecord(WAfter(c, wk), wk') && locks' == Locked(locks, WOp(0, wk.pc, wk.resolvers), W(0))
    requires Playable(c, Lone(wk', locks'), run)
    ensures Playable(c, Lone(wk, locks), [Work(0)] + run)
    ensures Play(c, Lone(wk, locks), [Work(0)] + run) == Play(c, Lone(wk', locks'), run)
  {
    hide WAfter, WOp, Locked, Playable, Play;
    var s, t := Lone(wk, locks), Do(c, Lone(wk, locks), Work(0));
    assert WAfter(c, wk).solvers == wk'.solvers;
    assert t.workers == [wk'] && t == Lone(wk', locks');
    PlayStep(c, s, Work(0), run);
  }

  lemma LoneFailure(c: Config, locks: map<Lock, Thread>, run: seq<Act>)
    requires ValidConfig(c) && |c.rbls| == |c.hits| == 1
    requires Playable(c, Lone(LoneWorker(WPc.DropMgr(0), 1, Failed), locks), run)
    ensures Playable(c, Lone(LoneWorker(Spawn(0), 1, Counted), locks), [SpawnFails(0)] + run)
    ensures Play(c, Lone(LoneWorker(Spawn(0), 1, Counted), locks), [SpawnFails(0)] + run)
         == Play(c, Lone(LoneWorker(WPc.DropMgr(0), 1, Failed), locks), run)
  {
    hide Playable, Play;
    var s, wk' := Lone(LoneWorker(Spawn(0), 1, Counted), locks), LoneWorker(WPc.DropMgr(0), 1, Failed);
    var t := Do(c, s, SpawnFails(0));
    assert WFails(s.workers[0]).solvers == wk'.solvers;
    assert t.workers == [wk'] && t == Lone(wk', locks);
    PlayStep(c, s, SpawnFails(0), run);
  }

  const RES: map<Lock, Thread> := map[Res(0) := W(0)]

  const RES_MGR: map<Lock, Thread> := map[Res(0) := W(0), Mgr := W(0)]

  lemma Waits(c: Config, asleep: State) returns (run: seq<Act>)
    requires ValidConfig(c) && |c.rbls| == |c.hits| == 1 && asleep == Lone(LoneWorker(Asleep, 1, Failed), map[])
    ensures Playable(c, Lone(LoneWorker(TakeWait, 1, Failed), map[]), run)
    ensures Play(c, Lone(LoneWorker(TakeWait, 1, Failed), map[]), run) == asleep
  {
    run := [];
    assert Playable(c, asleep, run) && Play(c, asleep, run) == asleep;
    hide Playable, Play;
    var none: map<Lock, Thread> := map[];
    assert RES - {Res(0)} == none;
    LoneStep(c, LoneWorker(Test, 1, Failed), RES, LoneWorker(Asleep, 1, Failed), none, run);
    run := [Work(0)] + run;
    LoneStep(c, LoneWorker(TakeWait, 1, Failed), none, LoneWorker(Test, 1, Failed), RES, run);
    run := [Work(0)] + run;
  }

  /** From the failure on. */
  lemma FallsAsleep(c: Config, asleep: State) returns (run: seq<Act>)
    requires ValidConfig(c) && |c.rbls| == |c.hits| == 1 && asleep == Lone(LoneWorker(Asleep, 1, Failed), map[])
    ensures Playable(c, Lone(LoneWorker(WPc.DropMgr(0), 1, Failed), RES_MGR), run)
    ensures Play(c, Lone(LoneWorker(WPc.DropMgr(0), 1, Failed), RES_MGR), run) == asleep
  {
    run := Waits(c, asleep);
    hide Playable, Play;
    var none: map<Lock, Thread> := map[];
    assert RES - {Res(0)} == none;
    LoneStep(c, LoneWorker(WPc.DropRes(0), 1, Failed), RES, LoneWorker(TakeWait, 1, Failed), none, run);
    run := [Work(0)] + run;
    run := LeavesManager(c, run);
  }

  lemma LeavesManager(c: Config, run: seq<Act>) returns (run': seq<Act>)
    requires ValidConfig(c) && |c.rbls| == |c.hits| == 1
    requires Playable(c, Lone(LoneWorker(WPc.DropRes(0), 1, Failed), RES), run)
    ensures Playable(c, Lone(LoneWorker(WPc.DropMgr(0), 1, Failed), RES_MGR), run')
    ensures Play(c, Lone(LoneWorker(WPc.DropMgr(0), 1, Failed), RES_MGR), run')
         == Play(c, Lone(LoneWorker(WPc.DropRes(0), 1, Failed), RES), run)
  {
    hide Playable, Play;
    assert RES_MGR - {Mgr} == RES;
    LoneStep(c, LoneWorker(WPc.DropMgr(0), 1, Failed), RES_MGR, LoneWorker(WPc.DropRes(0), 1, Failed), RES, run);
    run' := [Work(0)] + run;
  }

  /** Up to the creation of the solver. */
  lemma CreationBegins(c: Config, run: seq<Act>) returns (run': seq<Act>)
    requires ValidConfig(c) && |c.rbls| == |c.hits| == 1
    requires Playable(c, Lone(LoneWorker(Spawn(0), 1, Counted), RES_MGR), run)
    ensures Playable(c, Lone(LoneWorker(WPc.TakeRes(0), 0, Unborn), map[]), run')
    ensures Play(c, Lone(LoneWorker(WPc.TakeRes(0), 0, Unborn), map[]), run')
         == Play(c, Lone(LoneWorker(Spawn(0), 1, Counted), RES_MGR), run)
  {
    hide Playable, Play;
    var none: map<Lock, Thread>, init: map<Lock, Thread> := map[], map[Res(0) := W(0), Init := W(0)];
    assert init - {Init} == RES;
    LoneStep(c, LoneWorker(WPc.TakeMgr(0), 1, Counted), RES, LoneWorker(Spawn(0), 1, Counted), RES_MGR, run);
    run' := [Work(0)] + run;
    LoneStep(c, LoneWorker(DropInit(0), 1, Counted), init, LoneWorker(WPc.TakeMgr(0), 1, Counted), RES, run');
    run' := [Work(0)] + run';
    LoneStep(c, LoneWorker(TakeInit(0), 1, Counted), RES, LoneWorker(DropInit(0), 1, Counted), init, run');
    run' := [Work(0)] + run';
    LoneStep(c, LoneWorker(Prepare(0), 0, Unborn), RES, LoneWorker(TakeInit(0), 1, Counted), RES, run');
    run' := [Work(0)] + run';
    LoneStep(c, LoneWorker(WPc.TakeRes(0), 0, Unborn), none, LoneWorker(Prepare(0), 0, Unborn), RES, run');
    run' := [Work(0)] + run';
  }

  lemma LoneInitial(c: Config)
    requires ValidConfig(c) && |c.rbls| == |c.hits| == 1
    ensures InitialState(c) == Lone(LoneWorker(WPc.TakeRes(0), 0, Unborn), map[])
  {
    assert InitialWorker(1).solvers == [Solver(Unborn, 0)];
    assert InitialState(c).workers == [InitialWorker(1)];
  }

  /** Such an end exists: a worker whose only solver could not be created falls
      asleep, and nobody is left to wake it. */
  lemma FailedCreationHangs(c: Config) returns (run: seq<Act>)
    requires ValidConfig(c) && |c.rbls| == |c.hits| == 1
    ensures Playable(c, InitialState(c), run)
    ensures var s := Play(c, InitialState(c), run); Quiet(c, s) && s.workers[0].pc.Asleep?
  {
    var asleep := Lone(LoneWorker(Asleep, 1, Failed), map[]);
    assert Quiet(c, asleep);
    hide Playable, Play, Quiet;
    run := FallsAsleep(c, asleep);
    LoneFailure(c, RES_MGR, run);
    run := [SpawnFails(0)] + run;
    run := CreationBegins(c, run);
    LoneInitial(c);
  }

  /** If every rthread_create succeeds, every complete run of any number of
      workers ends with every worker's verdict: rejected exactly when the
      sequential decision of process_request rejects. */
  lemma AllAnswer(c: Config, run: seq<Act>, w: nat)
    requires ValidConfig(c) && Playable(c, InitialState(c), run) && w < |c.hits|
    requires forall a :: a in run ==> !a.SpawnFails?
    requires Quiet(c, Play(c, InitialState(c), run))
    ensures var wk := Play(c, InitialState(c), run).workers[w]; var k := Asked(c.rbls, c.hits[w], 0);
      && wk.pc.Finished?
      && wk.score == Score(c.rbls, c.hits[w]) && wk.reply == Blocking(c.rbls, c.hits[w])
      && (wk.score >= LIMIT <==> Score(c.rbls[..k], c.hits[w][..k]) >= LIMIT)
      && Blocking(c.rbls[..k], c.hits[w][..k]) <= wk.reply
  {
    var s := Play(c, InitialState(c), run);
    assert Reachable(c, s);
    RunWithoutFailure(c, InitialState(c), run);
    EndOfRun(c, s, w);
    EarlyVerdictIsVerdict(c.rbls, c.hits[w]);
  }
}
