/** What no schedule of the lookup protocol can break: the join counts exactly
    the solvers still to come, the mutexes are held by those who took them, no
    wakeup is lost, nobody reads a result record after it was freed, and an
    answer is the verdict on the client. */
module LookupSafety {
  import opened Prelude
  import opened Verdict
  import opened LookupProtocol

  // ---- One worker and its solvers ----

  /** A solver that `resolvers` still counts. */
  predicate IsPending(pc: SPc) { pc.Counted? || pc.Failed? || pc.Query? || pc.TakeRes? || pc.Decrement? }

  function Weigh(pc: SPc): (r: nat) { if IsPending(pc) then 1 else 0 }

  function Pending(svs: seq<Solver>): (r: nat) {
    if svs == [] then 0 else Pending(svs[..|svs| - 1]) + Weigh(svs[|svs| - 1].pc)
  }

  lemma {:induction false} PendingUpdate(svs: seq<Solver>, i: nat, sv: Solver)
    requires i < |svs|
    ensures Pending(svs[i := sv]) == Pending(svs) - Weigh(svs[i].pc) + Weigh(sv.pc)
  {
    var n := |svs| - 1;
    if i == n {
      assert svs[i := sv][..n] == svs[..n];
    } else {
      assert svs[i := sv][..n] == svs[..n][i := sv];
      PendingUpdate(svs[..n], i, sv);
    }
  }

  lemma {:induction false} PendingAt(svs: seq<Solver>, i: nat)
    requires i < |svs| && IsPending(svs[i].pc)
    ensures Pending(svs) > 0
  {
    if i < |svs| - 1 {
      PendingAt(svs[..|svs| - 1], i);
    }
  }

  lemma {:induction false} SomePending(svs: seq<Solver>) returns (i: nat)
    requires Pending(svs) > 0
    ensures i < |svs| && IsPending(svs[i].pc)
  {
    var n := |svs| - 1;
    if IsPending(svs[n].pc) {
      i := n;
    } else {
      i := SomePending(svs[..n]);
    }
  }

  lemma {:induction false} NonePending(n: nat)
    ensures Pending(seq(n, _ => Solver(Unborn, 0))) == 0
  {
    if n > 0 {
      var svs := seq(n, _ => Solver(Unborn, 0));
      assert svs[..n - 1] == seq(n - 1, _ => Solver(Unborn, 0));
      NonePending(n - 1);
    }
  }

  /** The lists the worker is through with spawning for. */
  function Through(pc: WPc, n: nat): (r: nat) {
    match pc
    case TakeRes(i) => i
    case Prepare(i) => i
    case TakeInit(i) => i
    case DropInit(i) => i
    case TakeMgr(i) => i
    case Spawn(i) => i
    case Enlist(i) => i + 1
    case TakeCount(i) => i + 1
    case DropCount(i) => i + 1
    case DropMgr(i) => i + 1
    case DropRes(i) => i + 1
    case _ => n
  }

  /** The next solver is counted, but not yet created. */
  predicate Announced(pc: WPc) { pc.TakeInit? || pc.DropInit? || pc.TakeMgr? || pc.Spawn? }

  ghost predicate Stages(wk: Worker) {
    forall j :: 0 <= j < |wk.solvers| ==>
      var pc := wk.solvers[j].pc;
      var k := Through(wk.pc, |wk.solvers|);
      if j < k then pc != Unborn && pc != Counted
      else if j == k && Announced(wk.pc) then pc == Counted
      else pc == Unborn
  }

  predicate HasLooked(pc: SPc) { !pc.Unborn? && !pc.Counted? && !pc.Failed? && !pc.Query? }

  ghost predicate Scores(c: Config, w: nat, wk: Worker)
    requires ValidConfig(c) && w < |c.hits| && |wk.solvers| == |c.rbls|
  {
    forall j :: 0 <= j < |wk.solvers| ==>
      wk.solvers[j].score == if HasLooked(wk.solvers[j].pc) && c.hits[w][j] then c.rbls[j].weight else 0
  }

  /** No lost wakeup: who sleeps waits for a solver that has not decremented
      yet, or one that is about to broadcast. */
  ghost predicate WillWake(wk: Worker) {
    wk.pc == Asleep ==> wk.resolvers > 0 || exists j :: 0 <= j < |wk.solvers| && wk.solvers[j].pc == Broadcast
  }

  predicate IsCollecting(pc: WPc) { pc.TakeList? || pc.Collect? || HasAnswered(pc) }

  function Collected(pc: WPc, n: nat): (r: nat) {
    if pc.TakeList? || pc.Collect? then pc.i else if HasAnswered(pc) then n else 0
  }

  ghost predicate Totals(c: Config, w: nat, wk: Worker)
    requires ValidConfig(c) && w < |c.hits| && |wk.solvers| == |c.rbls| && PcInRange(wk.pc, |c.rbls|)
  {
    var k := Collected(wk.pc, |c.rbls|);
    && (IsCollecting(wk.pc) ==> wk.resolvers == 0)
    && wk.score == Score(c.rbls[..k], c.hits[w][..k])
    && wk.reply == Blocking(c.rbls[..k], c.hits[w][..k])
  }

  ghost predicate WorkerInv(c: Config, w: nat, wk: Worker)
    requires ValidConfig(c)
  {
    && w < |c.hits| && |wk.solvers| == |c.rbls| && PcInRange(wk.pc, |c.rbls|)
    && Stages(wk)
    && wk.resolvers == Pending(wk.solvers)
    && Scores(c, w, wk)
    && WillWake(wk)
    && Totals(c, w, wk)
  }

  lemma InitialWorkerInv(c: Config, w: nat)
    requires ValidConfig(c) && w < |c.hits|
    ensures WorkerInv(c, w, InitialWorker(|c.rbls|))
  {
    NonePending(|c.rbls|);
  }

  lemma WAfterKeeps(c: Config, w: nat, wk: Worker)
    requires ValidConfig(c) && WorkerInv(c, w, wk) && !AtRest(wk.pc)
    ensures WorkerInv(c, w, WAfter(c, wk))
  {
    hide WorkerInv, WAfter;
    if wk.pc.Prepare? || wk.pc.Spawn? {
      SpawningKeeps(c, w, wk);
    } else if wk.pc.Collect? {
      CollectKeeps(c, w, wk);
    } else {
      QuietStepKeeps(c, w, wk);
    }
  }

  /** The other steps touch neither the solvers nor their number. */
  lemma QuietStepKeeps(c: Config, w: nat, wk: Worker)
    requires ValidConfig(c) && WorkerInv(c, w, wk) && !AtRest(wk.pc)
    requires !wk.pc.Prepare? && !wk.pc.Spawn? && !wk.pc.Collect?
    ensures WorkerInv(c, w, WAfter(c, wk))
  {
    hide Score, Blocking, Pending, Stages, Totals, WillWake;
    QuietTotals(c, w, wk);
    QuietStages(c, wk);
  }

  lemma QuietTotals(c: Config, w: nat, wk: Worker)
    requires ValidConfig(c) && w < |c.hits| && |wk.solvers| == |c.rbls| && PcInRange(wk.pc, |c.rbls|)
    requires Totals(c, w, wk) && !AtRest(wk.pc) && !wk.pc.Prepare? && !wk.pc.Spawn? && !wk.pc.Collect?
    ensures PcInRange(WAfter(c, wk).pc, |c.rbls|) && |WAfter(c, wk).solvers| == |c.rbls|
    ensures Totals(c, w, WAfter(c, wk))
  {
    hide Score, Blocking;
    assert IsCollecting(wk.pc) || Collected(WAfter(c, wk).pc, |c.rbls|) == 0 || |c.rbls| == 0;
  }

  lemma QuietStages(c: Config, wk: Worker)
    requires |wk.solvers| == |c.rbls| && PcInRange(wk.pc, |c.rbls|)
    requires Stages(wk) && wk.resolvers >= 0 && !AtRest(wk.pc)
    requires !wk.pc.Prepare? && !wk.pc.Spawn? && !wk.pc.Collect?
    ensures Stages(WAfter(c, wk)) && WillWake(WAfter(c, wk))
  {
  }

  lemma SpawningKeeps(c: Config, w: nat, wk: Worker)
    requires ValidConfig(c) && WorkerInv(c, w, wk) && (wk.pc.Prepare? || wk.pc.Spawn?)
    ensures WorkerInv(c, w, WAfter(c, wk))
  {
    hide Score, Blocking, Pending;
    var wk' := WAfter(c, wk);
    PendingUpdate(wk.solvers, wk.pc.i, wk'.solvers[wk.pc.i]);
    assert Collected(wk'.pc, |c.rbls|) == 0 == Collected(wk.pc, |c.rbls|);
  }

  lemma CollectKeeps(c: Config, w: nat, wk: Worker)
    requires ValidConfig(c) && WorkerInv(c, w, wk) && wk.pc.Collect?
    ensures WorkerInv(c, w, WAfter(c, wk))
  {
    hide Score, Blocking, Pending;
    var i, wk' := wk.pc.i, WAfter(c, wk);
    ResultIsHit(c, w, wk, i);
    ScoreStep(c.rbls, c.hits[w], i);
    assert Collected(wk'.pc, |c.rbls|) == i + 1;
    assert wk'.solvers == wk.solvers && Through(wk'.pc, |c.rbls|) == Through(wk.pc, |c.rbls|);
  }

  /** A result that is collected was written, and is zero unless the client is
      listed. */
  lemma ResultIsHit(c: Config, w: nat, wk: Worker, i: nat)
    requires ValidConfig(c) && WorkerInv(c, w, wk) && IsCollecting(wk.pc) && i < |c.rbls|
    ensures wk.solvers[i].score == if c.hits[w][i] then c.rbls[i].weight else 0
    ensures wk.solvers[i].score != 0 <==> c.hits[w][i]
  {
    if IsPending(wk.solvers[i].pc) {
      PendingAt(wk.solvers, i);
    }
    assert wk.solvers[i].pc != Unborn && HasLooked(wk.solvers[i].pc);
    assert c.rbls[i] in c.rbls;
  }

  lemma WFailsKeeps(c: Config, w: nat, wk: Worker)
    requires ValidConfig(c) && WorkerInv(c, w, wk) && wk.pc.Spawn?
    ensures WorkerInv(c, w, WFails(wk))
  {
    PendingUpdate(wk.solvers, wk.pc.i, wk.solvers[wk.pc.i].(pc := Failed));
  }

  lemma SAfterKeeps(c: Config, w: nat, wk: Worker, i: nat)
    requires ValidConfig(c) && WorkerInv(c, w, wk) && i < |wk.solvers|
    requires Running(wk.solvers[i].pc)
    ensures WorkerInv(c, w, SAfter(c, w, wk, i))
  {
    hide Score, Blocking, Pending;
    var wk' := SAfter(c, w, wk, i);
    PendingUpdate(wk.solvers, i, wk'.solvers[i]);
    if IsPending(wk.solvers[i].pc) { PendingAt(wk.solvers, i); }
    StillWakes(c, w, wk, i);
    LooksOnce(c, w, wk, i);
    StagesKeep(c, w, wk, i);
    assert Totals(c, w, wk');
  }

  lemma StagesKeep(c: Config, w: nat, wk: Worker, i: nat)
    requires ValidConfig(c) && WorkerInv(c, w, wk) && i < |wk.solvers|
    requires Running(wk.solvers[i].pc)
    ensures Stages(SAfter(c, w, wk, i))
  {
    hide Score, Blocking, Pending;
    var wk' := SAfter(c, w, wk, i);
    assert Through(wk'.pc, |wk.solvers|) == Through(wk.pc, |wk.solvers|) && Announced(wk'.pc) == Announced(wk.pc);
  }

  lemma LooksOnce(c: Config, w: nat, wk: Worker, i: nat)
    requires ValidConfig(c) && WorkerInv(c, w, wk) && i < |wk.solvers|
    requires Running(wk.solvers[i].pc)
    ensures Scores(c, w, SAfter(c, w, wk, i))
  {
    hide Score, Blocking, Pending;
  }

  lemma StillWakes(c: Config, w: nat, wk: Worker, i: nat)
    requires ValidConfig(c) && WorkerInv(c, w, wk) && i < |wk.solvers|
    requires Running(wk.solvers[i].pc)
    ensures WillWake(SAfter(c, w, wk, i))
  {
    var wk' := SAfter(c, w, wk, i);
    if wk'.pc == Asleep {
      if wk.solvers[i].pc == Decrement {
        assert wk'.solvers[i].pc == Broadcast;
      } else if wk.resolvers <= 0 {
        var j :| 0 <= j < |wk.solvers| && wk.solvers[j].pc == Broadcast;
        assert wk'.solvers[j].pc == Broadcast;
      }
    }
  }

  // ---- Mutexes ----

  function WHolds(w: nat, pc: WPc): (r: set<Lock>) {
    match pc
    case Prepare(_) => {Res(w)}
    case TakeInit(_) => {Res(w)}
    case DropInit(_) => {Res(w), Init}
    case TakeMgr(_) => {Res(w)}
    case Spawn(_) => {Res(w), Mgr}
    case Enlist(_) => {Res(w), Mgr}
    case TakeCount(_) => {Res(w), Mgr}
    case DropCount(_) => {Res(w), Mgr, Count}
    case DropMgr(_) => {Res(w), Mgr}
    case DropRes(_) => {Res(w)}
    case Test => {Res(w)}
    case TakeList(_) => {Res(w)}
    case Collect(_) => {Res(w), List}
    case Answered => {Res(w)}
    case DropWorkTime => {Res(w), WorkTime}
    case TakeWorkMgr => {Res(w)}
    case DropWorkMgr => {Res(w), WorkMgr}
    case Finished => {Res(w)}   // never unlocked after the wait
    case _ => {}
  }

  function SHolds(w: nat, pc: SPc): (r: set<Lock>) {
    match pc
    case Decrement => {Res(w)}
    case Broadcast => {Res(w)}
    case DropRes => {Res(w)}
    case DropTime => {Time}
    case Delist => {Mgr}
    case DropMgr => {Mgr}
    case _ => {}
  }

  predicate IsThread(c: Config, t: Thread) {
    t.w < |c.hits| && (t.S? ==> t.i < |c.rbls|)
  }

  function Held(c: Config, s: State, t: Thread): (r: set<Lock>)
    requires WellShaped(c, s) && IsThread(c, t)
  {
    match t
    case W(w) => WHolds(w, s.workers[w].pc)
    case S(w, i) => SHolds(w, s.workers[w].solvers[i].pc)
  }

  /** Every mutex is owned by exactly the thread whose code is between its lock
      and its unlock. */
  ghost predicate LockInv(c: Config, s: State)
    requires WellShaped(c, s)
  {
    OwnersHold(c, s) && HoldersOwn(c, s)
  }

  ghost predicate OwnersHold(c: Config, s: State)
    requires WellShaped(c, s)
  {
    forall l :: l in s.locks ==> IsThread(c, s.locks[l]) && l in Held(c, s, s.locks[l])
  }

  ghost predicate HoldersOwn(c: Config, s: State)
    requires WellShaped(c, s)
  {
    forall t, l :: IsThread(c, t) && l in Held(c, s, t) ==> l in s.locks && s.locks[l] == t
  }

  ghost predicate WorkersInv(c: Config, s: State)
    requires ValidConfig(c)
  {
    |s.workers| == |c.hits| && forall w :: 0 <= w < |s.workers| ==> WorkerInv(c, w, s.workers[w])
  }

  function Operated(ls: set<Lock>, op: LockOp): (r: set<Lock>) {
    match op case NoOp => ls case Take(l) => ls + {l} case Drop(l) => ls - {l}
  }

  /** The thread that acts, and what it does to the mutexes. */
  function Actor(a: Act): (r: Thread) { if a.Solve? then S(a.w, a.i) else W(a.w) }

  function Op(c: Config, s: State, a: Act): (r: LockOp)
    requires WellShaped(c, s) && Can(c, s, a)
  {
    match a
    case Work(w) => WOp(w, s.workers[w].pc, s.workers[w].resolvers)
    case Solve(w, i) => SOp(w, s.workers[w].solvers[i].pc)
    case _ => NoOp
  }

  /** A step is a step of one worker's record. */
  lemma StepIsLocal(c: Config, s: State, a: Act)
    requires ValidConfig(c) && WellShaped(c, s) && Can(c, s, a)
    ensures |Do(c, s, a).workers| == |s.workers| && Do(c, s, a).workers == s.workers[a.w := Do(c, s, a).workers[a.w]]
    ensures Do(c, s, a).workers[a.w] == match a
      case Work(w) => WAfter(c, s.workers[w])
      case SpawnFails(w) => WFails(s.workers[w])
      case Spurious(w) => s.workers[w].(pc := Woken)
      case Solve(w, i) => SAfter(c, w, s.workers[w], i)
  {
  }

  lemma WorkersKeep(c: Config, s: State, a: Act)
    requires ValidConfig(c) && WorkersInv(c, s) && WellShaped(c, s) && Can(c, s, a)
    ensures WellShaped(c, Do(c, s, a)) && WorkersInv(c, Do(c, s, a))
  {
    StepIsLocal(c, s, a);
    ActorKeeps(c, s, a, Do(c, s, a).workers[a.w]);
    OneWorkerChanges(c, s, Do(c, s, a), a.w);
  }

  lemma ActorKeeps(c: Config, s: State, a: Act, wk': Worker)
    requires ValidConfig(c) && WorkersInv(c, s) && WellShaped(c, s) && Can(c, s, a)
    requires wk' == match a
      case Work(w) => WAfter(c, s.workers[w])
      case SpawnFails(w) => WFails(s.workers[w])
      case Spurious(w) => s.workers[w].(pc := Woken)
      case Solve(w, i) => SAfter(c, w, s.workers[w], i)
    ensures WorkerInv(c, a.w, wk')
  {
    hide WAfter, SAfter, WFails;
    var wk := s.workers[a.w];
    match a
    case Work(w) => WAfterKeeps(c, w, wk);
    case SpawnFails(w) => WFailsKeeps(c, w, wk);
    case Spurious(w) =>
    case Solve(w, i) => SAfterKeeps(c, w, wk, i);
  }

  lemma OneWorkerChanges(c: Config, s: State, s': State, w: nat)
    requires ValidConfig(c) && WorkersInv(c, s) && w < |s.workers| == |s'.workers|
    requires s'.workers == s.workers[w := s'.workers[w]] && WorkerInv(c, w, s'.workers[w])
    ensures WellShaped(c, s') && WorkersInv(c, s')
  {
  }

  /** A step changes what its own thread holds, by its own lock operation, and
      no other thread's share. */
  lemma HoldsAfter(c: Config, s: State, a: Act, t: Thread)
    requires ValidConfig(c) && WorkersInv(c, s) && WellShaped(c, s) && Can(c, s, a) && IsThread(c, t)
    requires WellShaped(c, Do(c, s, a))
    ensures Held(c, Do(c, s, a), t)
         == if t == Actor(a) then Operated(Held(c, s, t), Op(c, s, a)) else Held(c, s, t)
  {
    hide Do, WAfter, SAfter, SHolds, WOp, SOp, WorkerInv;
    StepIsLocal(c, s, a);
    if t.w == a.w {
      var wk, wk' := s.workers[a.w], Do(c, s, a).workers[a.w];
      match a
      case Work(w) => WorkerHolds(c, w, wk); SolversHold(c, w, wk, wk', t);
      case Solve(w, i) => SolverHolds(c, w, wk, i);
      case _ => SolversHold(c, a.w, wk, wk', t);
    }
  }

  lemma WorkerHolds(c: Config, w: nat, wk: Worker)
    requires |wk.solvers| == |c.rbls| && PcInRange(wk.pc, |c.rbls|) && !AtRest(wk.pc)
    ensures WHolds(w, WAfter(c, wk).pc) == Operated(WHolds(w, wk.pc), WOp(w, wk.pc, wk.resolvers))
  {
  }

  /** A worker's own step leaves its solvers with what they hold. */
  lemma SolversHold(c: Config, w: nat, wk: Worker, wk': Worker, t: Thread)
    requires ValidConfig(c) && WorkerInv(c, w, wk)
    requires
      || (!AtRest(wk.pc) && wk' == WAfter(c, wk))
      || (wk.pc.Spawn? && wk' == WFails(wk))
      || wk' == wk.(pc := Woken)
    ensures |wk'.solvers| == |wk.solvers|
    ensures t.S? && t.i < |wk.solvers| ==> SHolds(w, wk'.solvers[t.i].pc) == SHolds(w, wk.solvers[t.i].pc)
  {
  }

  lemma SolverHolds(c: Config, w: nat, wk: Worker, i: nat)
    requires i < |wk.solvers| == |c.rbls| && w < |c.hits| && |c.hits[w]| == |c.rbls| && Running(wk.solvers[i].pc)
    ensures var wk' := SAfter(c, w, wk, i);
      && wk'.solvers == wk.solvers[i := wk'.solvers[i]]
      && WHolds(w, wk'.pc) == WHolds(w, wk.pc)
      && SHolds(w, wk'.solvers[i].pc) == Operated(SHolds(w, wk.solvers[i].pc), SOp(w, wk.solvers[i].pc))
  {
  }

  lemma HoldsWhatItDrops(c: Config, s: State, a: Act)
    requires ValidConfig(c) && WellShaped(c, s) && Can(c, s, a)
    ensures Op(c, s, a).Drop? ==> Op(c, s, a).l in Held(c, s, Actor(a))
  {
  }

  lemma LocksAfter(c: Config, s: State, a: Act)
    requires ValidConfig(c) && WellShaped(c, s) && Can(c, s, a)
    ensures Do(c, s, a).locks == Locked(s.locks, Op(c, s, a), Actor(a))
    ensures Free(s.locks, Op(c, s, a))
  {
  }

  /** Whoever holds a mutex after the step owns it. */
  lemma HolderOwns(c: Config, s: State, s': State, me: Thread, op: LockOp, t: Thread, l: Lock)
    requires WellShaped(c, s) && WellShaped(c, s') && LockInv(c, s) && IsThread(c, me) && IsThread(c, t)
    requires Free(s.locks, op) && s'.locks == Locked(s.locks, op, me)
    requires op.Drop? ==> op.l in Held(c, s, me)
    requires Held(c, s', t) == if t == me then Operated(Held(c, s, t), op) else Held(c, s, t)
    requires l in Held(c, s', t)
    ensures l in s'.locks && s'.locks[l] == t
  {
    hide Held, WellShaped;
    if op.Drop? {
      assert l in Held(c, s, t) && s.locks[op.l] == me;
    } else if l !in Held(c, s, t) {
      assert t == me && op == Take(l);
    } else {
      assert l in s.locks && s.locks[l] == t;
    }
  }

  lemma LocksKeep(c: Config, s: State, a: Act)
    requires ValidConfig(c) && WorkersInv(c, s) && WellShaped(c, s) && LockInv(c, s) && Can(c, s, a)
    requires WellShaped(c, Do(c, s, a))
    ensures LockInv(c, Do(c, s, a))
  {
    hide Do, Held, WorkersInv, Can, HoldersOwn, OwnersHold, WellShaped;
    OwnersKeep(c, s, a);
    HoldersKeep(c, s, a);
  }

  lemma OwnersKeep(c: Config, s: State, a: Act)
    requires ValidConfig(c) && WorkersInv(c, s) && WellShaped(c, s) && LockInv(c, s) && Can(c, s, a)
    requires WellShaped(c, Do(c, s, a))
    ensures OwnersHold(c, Do(c, s, a))
  {
    hide Do, Held, WorkersInv, Can, HoldersOwn, WellShaped, IsThread;
    forall l | l in Do(c, s, a).locks
      ensures var t := Do(c, s, a).locks[l]; IsThread(c, t) && l in Held(c, Do(c, s, a), t)
    {
      OwnerHolds(c, s, a, l);
    }
  }

  lemma HoldersKeep(c: Config, s: State, a: Act)
    requires ValidConfig(c) && WorkersInv(c, s) && WellShaped(c, s) && LockInv(c, s) && Can(c, s, a)
    requires WellShaped(c, Do(c, s, a))
    ensures HoldersOwn(c, Do(c, s, a))
  {
    hide Do, Held, WorkersInv, Can, OwnersHold, WellShaped, IsThread;
    forall t, l | IsThread(c, t) && l in Held(c, Do(c, s, a), t)
      ensures l in Do(c, s, a).locks && Do(c, s, a).locks[l] == t
    {
      OwnsWhatItHolds(c, s, a, t, l);
    }
  }

  lemma ActorIsThread(c: Config, s: State, a: Act)
    requires WellShaped(c, s) && Can(c, s, a)
    ensures IsThread(c, Actor(a))
  {
  }

  lemma OwnsWhatItHolds(c: Config, s: State, a: Act, t: Thread, l: Lock)
    requires ValidConfig(c) && WorkersInv(c, s) && WellShaped(c, s) && LockInv(c, s) && Can(c, s, a)
    requires WellShaped(c, Do(c, s, a)) && IsThread(c, t) && l in Held(c, Do(c, s, a), t)
    ensures l in Do(c, s, a).locks && Do(c, s, a).locks[l] == t
  {
    hide Do, Held, WorkersInv, WellShaped;
    LocksAfter(c, s, a);
    HoldsWhatItDrops(c, s, a);
    HoldsAfter(c, s, a, t);
    ActorIsThread(c, s, a);
    HolderOwns(c, s, Do(c, s, a), Actor(a), Op(c, s, a), t, l);
  }

  /** Whoever owns a mutex after the step holds it. */
  lemma OwnerHolds(c: Config, s: State, a: Act, l: Lock)
    requires ValidConfig(c) && WorkersInv(c, s) && WellShaped(c, s) && LockInv(c, s) && Can(c, s, a)
    requires WellShaped(c, Do(c, s, a)) && l in Do(c, s, a).locks
    ensures var t := Do(c, s, a).locks[l]; IsThread(c, t) && l in Held(c, Do(c, s, a), t)
  {
    hide Do, Held, WorkersInv, WellShaped;
    LocksAfter(c, s, a);
    ActorIsThread(c, s, a);
    var op, t := Op(c, s, a), Do(c, s, a).locks[l];
    assert op == Take(l) || (l in s.locks && t == s.locks[l] && (op.Drop? ==> l != op.l));
    HoldsAfter(c, s, a, t);
  }

  // ---- The thread manager's list ----

  /** The solver has been registered and has not unregistered. */
  predicate Registered(wk: Worker, i: nat)
    requires i < |wk.solvers|
  {
    Running(wk.solvers[i].pc) && !wk.solvers[i].pc.DropMgr? && wk.pc != Enlist(i)
  }

  predicate OnList(c: Config, s: State, t: Thread)
    requires WellShaped(c, s) && IsThread(c, t)
  {
    t.S? && Registered(s.workers[t.w], t.i)
  }

  /** A thread that its creator has not registered yet cannot be past the
      manager's lock. */
  predicate Behind(wk: Worker) {
    wk.pc.Enlist? ==>
      && wk.pc.i < |wk.solvers|
      && var pc := wk.solvers[wk.pc.i].pc; Running(pc) && !pc.Delist? && !pc.DropMgr?
  }

  ghost predicate NotAhead(c: Config, s: State) { forall w :: 0 <= w < |s.workers| ==> Behind(s.workers[w]) }

  ghost predicate ListInv(c: Config, s: State)
    requires WellShaped(c, s)
  {
    && (forall t :: t in s.enlisted <==> IsThread(c, t) && OnList(c, s, t))
    && Distinct(s.enlisted)
    && s.nthreads == |s.enlisted|
  }

  lemma ManagerExcludes(c: Config, s: State, t: Thread, u: Thread)
    requires WellShaped(c, s) && LockInv(c, s) && IsThread(c, t) && IsThread(c, u)
    requires Mgr in Held(c, s, t) && Mgr in Held(c, s, u)
    ensures t == u
  {
    assert s.locks[Mgr] == t && s.locks[Mgr] == u;
  }

  lemma NotAheadKeeps(c: Config, s: State, a: Act)
    requires ValidConfig(c) && WorkersInv(c, s) && WellShaped(c, s) && LockInv(c, s) && NotAhead(c, s)
    requires Can(c, s, a) && WellShaped(c, Do(c, s, a))
    ensures NotAhead(c, Do(c, s, a))
  {
    hide Do, WAfter, SAfter, WFails, WorkersInv, Behind, LockInv;
    var wk := s.workers[a.w];
    StepIsLocal(c, s, a);
    match a
    case Work(w) => EnlistsTheNewborn(c, wk);
    case Solve(w, i) =>
      ManagerIsTaken(c, s, w, i);
      StaysBehind(c, w, wk, i);
    case SpawnFails(w) => FailureIsBehind(wk);
    case Spurious(w) => WokenIsBehind(wk);
  }

  lemma ManagerIsTaken(c: Config, s: State, w: nat, i: nat)
    requires WellShaped(c, s) && LockInv(c, s) && Can(c, s, Solve(w, i))
    ensures s.workers[w].pc == Enlist(i) ==> SOp(w, s.workers[w].solvers[i].pc) != Take(Mgr)
  {
    if s.workers[w].pc == Enlist(i) {
      assert Mgr in Held(c, s, W(w));
    }
  }

  /** While its creator holds the manager's lock, a solver does not take it. */
  lemma StaysBehind(c: Config, w: nat, wk: Worker, i: nat)
    requires i < |wk.solvers| == |c.rbls| && w < |c.hits| && |c.hits[w]| == |c.rbls|
    requires Running(wk.solvers[i].pc) && Behind(wk)
    requires wk.pc == Enlist(i) ==> SOp(w, wk.solvers[i].pc) != Take(Mgr)
    ensures Behind(SAfter(c, w, wk, i))
  {
  }

  lemma EnlistsTheNewborn(c: Config, wk: Worker)
    requires |wk.solvers| == |c.rbls| && PcInRange(wk.pc, |c.rbls|) && !AtRest(wk.pc)
    ensures Behind(WAfter(c, wk))
  {
  }

  lemma FailureIsBehind(wk: Worker)
    requires wk.pc.Spawn? && wk.pc.i < |wk.solvers|
    ensures Behind(WFails(wk))
  {
  }

  lemma WokenIsBehind(wk: Worker)
    ensures Behind(wk.(pc := Woken))
  {
  }

  /** Only two steps change what is registered. */
  lemma OnListAfter(c: Config, s: State, a: Act, t: Thread)
    requires ValidConfig(c) && WorkersInv(c, s) && WellShaped(c, s) && NotAhead(c, s)
    requires Can(c, s, a) && IsThread(c, t) && WellShaped(c, Do(c, s, a))
    ensures OnList(c, Do(c, s, a), t) ==
      if a.Work? && s.workers[a.w].pc.Enlist? && t == S(a.w, s.workers[a.w].pc.i) then true
      else if a.Solve? && s.workers[a.w].solvers[a.i].pc.Delist? && t == S(a.w, a.i) then false
      else OnList(c, s, t)
  {
    hide Do, WAfter, SAfter, WFails, Registered, Behind;
    StepIsLocal(c, s, a);
    if t.S? && t.w == a.w {
      var wk := s.workers[a.w];
      match a
      case Work(w) => WorkRegisters(c, wk, t.i);
      case Solve(w, i) => SolverUnregisters(c, w, wk, i, t.i);
      case SpawnFails(w) => FailureRegisters(wk, t.i);
      case Spurious(w) => WokenRegisters(wk, t.i);
    }
  }

  /** Only Enlist makes its thread registered. */
  lemma WorkRegisters(c: Config, wk: Worker, i: nat)
    requires |wk.solvers| == |c.rbls| && PcInRange(wk.pc, |c.rbls|) && Stages(wk) && Behind(wk) && i < |c.rbls|
    requires !AtRest(wk.pc)
    ensures Registered(WAfter(c, wk), i) == (wk.pc == Enlist(i) || Registered(wk, i))
  {
  }

  lemma SolverUnregisters(c: Config, w: nat, wk: Worker, i: nat, j: nat)
    requires i < |wk.solvers| == |c.rbls| && w < |c.hits| && |c.hits[w]| == |c.rbls| && j < |wk.solvers|
    requires Running(wk.solvers[i].pc)
    ensures Registered(SAfter(c, w, wk, i), j)
         == (Registered(wk, j) && !(wk.solvers[i].pc.Delist? && j == i))
  {
  }

  lemma FailureRegisters(wk: Worker, i: nat)
    requires wk.pc.Spawn? && wk.pc.i < |wk.solvers| && Stages(wk) && i < |wk.solvers|
    ensures Registered(WFails(wk), i) == Registered(wk, i)
  {
  }

  lemma WokenRegisters(wk: Worker, i: nat)
    requires wk.pc.Asleep? && i < |wk.solvers|
    ensures Registered(wk.(pc := Woken), i) == Registered(wk, i)
  {
  }

  /** An exiting solver always finds its entry. */
  lemma ExitFindsEntry(c: Config, s: State, w: nat, i: nat)
    requires ValidConfig(c) && WellShaped(c, s) && LockInv(c, s) && ListInv(c, s)
    requires w < |s.workers| && i < |c.rbls| && s.workers[w].solvers[i].pc.Delist?
    ensures S(w, i) in s.enlisted
  {
    if s.workers[w].pc == Enlist(i) {
      ManagerExcludes(c, s, W(w), S(w, i));
    }
    assert IsThread(c, S(w, i)) && OnList(c, s, S(w, i));
  }

  lemma ListKeeps(c: Config, s: State, a: Act)
    requires ValidConfig(c) && WorkersInv(c, s) && WellShaped(c, s) && LockInv(c, s) && NotAhead(c, s)
    requires ListInv(c, s) && Can(c, s, a) && WellShaped(c, Do(c, s, a))
    ensures ListInv(c, Do(c, s, a))
  {
    var s' := Do(c, s, a);
    if a.Solve? && s.workers[a.w].solvers[a.i].pc.Delist? {
      ExitFindsEntry(c, s, a.w, a.i);
      RemovesOne(s.enlisted, S(a.w, a.i));
    } else if a.Work? && s.workers[a.w].pc.Enlist? {
      var t := S(a.w, s.workers[a.w].pc.i);
      assert !OnList(c, s, t);
      assert s'.enlisted == [t] + s.enlisted;
    } else {
      assert s'.enlisted == s.enlisted;
    }
    forall t | IsThread(c, t)
      ensures t in s'.enlisted <==> OnList(c, s', t)
    {
      OnListAfter(c, s, a, t);
    }
  }

  // ---- Every run ----

  ghost predicate Inv(c: Config, s: State)
    requires ValidConfig(c)
  {
    WorkersInv(c, s) && WellShaped(c, s) && LockInv(c, s) && NotAhead(c, s) && ListInv(c, s)
  }

  lemma InitialInv(c: Config)
    requires ValidConfig(c)
    ensures Inv(c, InitialState(c))
  {
    forall w: nat | w < |c.hits|
      ensures WorkerInv(c, w, InitialWorker(|c.rbls|))
    {
      InitialWorkerInv(c, w);
    }
  }

  lemma StepKeeps(c: Config, s: State, a: Act)
    requires ValidConfig(c) && Inv(c, s) && Can(c, s, a)
    ensures Inv(c, Do(c, s, a))
  {
    WorkersKeep(c, s, a);
    LocksKeep(c, s, a);
    NotAheadKeeps(c, s, a);
    ListKeeps(c, s, a);
  }

  lemma {:induction false} RunKeeps(c: Config, s: State, run: seq<Act>)
    requires ValidConfig(c) && Inv(c, s) && Playable(c, s, run)
    ensures Inv(c, Play(c, s, run))
    decreases |run|
  {
    if run != [] {
      StepKeeps(c, s, run[0]);
      RunKeeps(c, Do(c, s, run[0]), run[1..]);
    }
  }

  lemma ReachableInv(c: Config, s: State)
    requires ValidConfig(c) && Reachable(c, s)
    ensures Inv(c, s)
  {
    InitialInv(c);
    var run: seq<Act> :| Playable(c, InitialState(c), run) && Play(c, InitialState(c), run) == s;
    RunKeeps(c, InitialState(c), run);
  }

  /** Whatever the schedule, a worker that has collected its results carries the
      full score and the blocking lists in configuration order, and it has left
      its wait only after every solver wrote its result. */
  lemma AnswerIsVerdict(c: Config, s: State, w: nat)
    requires ValidConfig(c) && Reachable(c, s) && w < |s.workers| == |c.hits|
    ensures IsCollecting(s.workers[w].pc) ==>
      s.workers[w].resolvers == 0 && |s.workers[w].solvers| == |c.rbls|
      && forall i :: 0 <= i < |c.rbls| ==>
        s.workers[w].solvers[i].score == if c.hits[w][i] then c.rbls[i].weight else 0
    ensures HasAnswered(s.workers[w].pc) ==>
      s.workers[w].score == Score(c.rbls, c.hits[w]) && s.workers[w].reply == Blocking(c.rbls, c.hits[w])
  {
    ReachableInv(c, s);
    var wk := s.workers[w];
    if IsCollecting(wk.pc) {
      forall i | 0 <= i < |c.rbls|
        ensures wk.solvers[i].score == if c.hits[w][i] then c.rbls[i].weight else 0
      {
        ResultIsHit(c, w, wk, i);
      }
    }
    assert c.rbls[..|c.rbls|] == c.rbls && c.hits[w][..|c.rbls|] == c.hits[w];
  }

  /** At the join, `resolvers` is the number of solvers counted in and not yet
      counted out. */
  lemma CountIsPending(c: Config, s: State, w: nat)
    requires ValidConfig(c) && Reachable(c, s) && w < |s.workers|
    ensures s.workers[w].resolvers == Pending(s.workers[w].solvers)
  {
    ReachableInv(c, s);
  }

  /** No lost wakeup. */
  lemma SleeperWillWake(c: Config, s: State, w: nat)
    requires ValidConfig(c) && Reachable(c, s) && w < |s.workers| && s.workers[w].pc.Asleep?
    ensures exists i :: 0 <= i < |s.workers[w].solvers| &&
                        (IsPending(s.workers[w].solvers[i].pc) || s.workers[w].solvers[i].pc.Broadcast?)
  {
    ReachableInv(c, s);
    if s.workers[w].resolvers > 0 {
      var i := SomePending(s.workers[w].solvers);
    }
  }

  /** A solver here reads or writes its resdata_t, or what that points to. */
  predicate UsesRecord(pc: SPc) {
    pc.Query? || pc.TakeRes? || pc.Decrement? || pc.Broadcast? || pc.DropRes?
  }

  /** No late access: a worker that frees result records has no solver left that
      would look at one. */
  lemma NoLateAccess(c: Config, s: State, w: nat, i: nat)
    requires ValidConfig(c) && Reachable(c, s) && w < |s.workers| && i < |s.workers[w].solvers|
    requires IsCollecting(s.workers[w].pc)
    ensures !UsesRecord(s.workers[w].solvers[i].pc)
  {
    hide Reachable, LockInv, ListInv, NotAhead;
    ReachableInv(c, s);
    CollectorOwns(c, s, w);
    var wk := s.workers[w];
    if IsPending(wk.solvers[i].pc) {
      PendingAt(wk.solvers, i);
    }
    assert Res(w) !in Held(c, s, S(w, i));
  }

  /** A worker that collects has the mutex of its own, and no solver has it. */
  lemma CollectorOwns(c: Config, s: State, w: nat)
    requires WellShaped(c, s) && LockInv(c, s) && w < |s.workers| && IsCollecting(s.workers[w].pc)
    ensures forall i :: 0 <= i < |c.rbls| ==> Res(w) !in Held(c, s, S(w, i))
  {
    assert Res(w) in Held(c, s, W(w)) && s.locks[Res(w)] == W(w);
    forall i | 0 <= i < |c.rbls|
      ensures Res(w) !in Held(c, s, S(w, i))
    {
      assert s.locks[Res(w)] != S(w, i);
    }
  }

  /** The order in which the mutexes nest. */
  function Rank(l: Lock): (r: nat) {
    match l
    case Res(_) => 0
    case Init => 1
    case Mgr => 2
    case List => 2
    case Count => 3
    case Time => 3
    case WorkTime => 3
    case WorkMgr => 2
  }

  /** A thread takes a mutex only above all those it holds. */
  lemma LocksNest(c: Config, s: State, t: Thread, l: Lock)
    requires WellShaped(c, s) && IsThread(c, t)
    requires (if t.S? then SOp(t.w, s.workers[t.w].solvers[t.i].pc)
              else WOp(t.w, s.workers[t.w].pc, s.workers[t.w].resolvers)) == Take(l)
    ensures forall h :: h in Held(c, s, t) ==> Rank(h) < Rank(l)
  {
  }

  /** The manager's list holds the live registered solvers, each once, and its
      counter is its length; an exiting solver finds its entry. */
  lemma ListIsExact(c: Config, s: State)
    requires ValidConfig(c) && Reachable(c, s)
    ensures WellShaped(c, s) && ListInv(c, s)
    ensures forall w, i :: 0 <= w < |c.hits| && 0 <= i < |c.rbls| && s.workers[w].solvers[i].pc.Delist? ==>
                             S(w, i) in s.enlisted
  {
    ReachableInv(c, s);
    forall w, i | 0 <= w < |c.hits| && 0 <= i < |c.rbls| && s.workers[w].solvers[i].pc.Delist?
      ensures S(w, i) in s.enlisted
    {
      ExitFindsEntry(c, s, w, i);
    }
  }
}
