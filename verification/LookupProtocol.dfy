/** Any number of workers, each of which spawns one solver per list, waits for
    all of them on a condition variable and collects the results: a system of
    threads that take one step at a time in any order. */
module LookupProtocol {
  import opened Prelude
  import opened Verdict

  /** The configured lists, and which of them name the client of each worker. */
  datatype Config = Config(rbls: seq<Rbl>, hits: seq<seq<bool>>)

  ghost predicate ValidConfig(c: Config) {
    Positive(c.rbls) && forall w :: 0 <= w < |c.hits| ==> |c.hits[w]| == |c.rbls|
  }

  datatype Thread = W(w: nat) | S(w: nat, i: nat)

  /** The mutexes: a worker's `resolvers_`; solver_init_mutex; the lock of the
      solver manager; those of stats_solver_thr and stats_solver_time;
      rblist_mutex; that of stats_worker_time; and the lock of the worker
      manager. */
  datatype Lock = Res(w: nat) | Init | Mgr | Count | Time | List | WorkTime | WorkMgr

  /** Where a worker stands.  `i` is the list it deals with. */
  datatype WPc =
    | TakeRes(i: nat)     // lock resolvers_
    | Prepare(i: nat)     // allocate the result record, resolvers++
    | TakeInit(i: nat)    // rthread_create: lock solver_init_mutex
    | DropInit(i: nat)
    | TakeMgr(i: nat)     // lock the manager
    | Spawn(i: nat)       // pthread_create
    | Enlist(i: nat)      // thr_register
    | TakeCount(i: nat)   // stats_solver_thr
    | DropCount(i: nat)
    | DropMgr(i: nat)
    | DropRes(i: nat)
    | TakeWait            // lock resolvers_ to wait
    | Test                // while (resolvers)
    | Asleep              // pthread_cond_wait
    | Woken               // ... which takes the mutex again
    | TakeList(i: nat)    // collect result i: lock rblist_mutex
    | Collect(i: nat)
    | Answered            // the answer is out; stats_worker_time
    | DropWorkTime
    | TakeWorkMgr         // wthread_exit
    | DropWorkMgr
    | Finished

  /** Where a solver stands. */
  datatype SPc =
    | Unborn
    | Counted             // resolvers++ done, thread not yet created
    | Failed              // pthread_create failed
    | Query               // the DNS lookup; writes the score
    | TakeRes
    | Decrement
    | Broadcast
    | DropRes
    | TakeTime            // stats_solver_time
    | DropTime
    | TakeMgr             // rthread_exit
    | Delist
    | DropMgr
    | Gone

  datatype Solver = Solver(pc: SPc, score: int)

  datatype Worker = Worker(pc: WPc, resolvers: int, solvers: seq<Solver>, score: int, reply: seq<string>)

  datatype State = State(workers: seq<Worker>, locks: map<Lock, Thread>, enlisted: seq<Thread>, nthreads: int)

  /** A worker does not go on from here by itself. */
  predicate AtRest(pc: WPc) { pc.Asleep? || pc.Finished? }

  /** The answer has been given. */
  predicate HasAnswered(pc: WPc) {
    pc.Answered? || pc.DropWorkTime? || pc.TakeWorkMgr? || pc.DropWorkMgr? || pc.Finished?
  }

  function Spawning(i: nat, n: nat): (r: WPc) { if i < n then WPc.TakeRes(i) else TakeWait }

  function Collecting(i: nat, n: nat): (r: WPc) { if i < n then TakeList(i) else Answered }

  function InitialWorker(n: nat): (r: Worker) {
    Worker(Spawning(0, n), 0, seq(n, _ => Solver(Unborn, 0)), 0, [])
  }

  function InitialState(c: Config): (r: State) {
    State(seq(|c.hits|, _ => InitialWorker(|c.rbls|)), map[], [], 0)
  }

  // ---- Steps ----

  datatype LockOp = NoOp | Take(l: Lock) | Drop(l: Lock)

  function WOp(w: nat, pc: WPc, resolvers: int): (r: LockOp) {
    match pc
    case TakeRes(_) => Take(Res(w))
    case TakeInit(_) => Take(Init)
    case DropInit(_) => Drop(Init)
    case TakeMgr(_) => Take(Mgr)
    case TakeCount(_) => Take(Count)
    case DropCount(_) => Drop(Count)
    case DropMgr(_) => Drop(Mgr)
    case DropRes(_) => Drop(Res(w))
    case TakeWait => Take(Res(w))
    case Test => if resolvers != 0 then Drop(Res(w)) else NoOp
    case Woken => Take(Res(w))
    case TakeList(_) => Take(List)
    case Collect(_) => Drop(List)
    case Answered => Take(WorkTime)
    case DropWorkTime => Drop(WorkTime)
    case TakeWorkMgr => Take(WorkMgr)
    case DropWorkMgr => Drop(WorkMgr)
    case _ => NoOp
  }

  function SOp(w: nat, pc: SPc): (r: LockOp) {
    match pc
    case TakeRes => Take(Res(w))
    case DropRes => Drop(Res(w))
    case TakeTime => Take(Time)
    case DropTime => Drop(Time)
    case TakeMgr => Take(Mgr)
    case DropMgr => Drop(Mgr)
    case _ => NoOp
  }

  predicate PcInRange(pc: WPc, n: nat) {
    match pc
    case TakeRes(i) => i < n
    case Prepare(i) => i < n
    case TakeInit(i) => i < n
    case DropInit(i) => i < n
    case TakeMgr(i) => i < n
    case Spawn(i) => i < n
    case Enlist(i) => i < n
    case TakeCount(i) => i < n
    case DropCount(i) => i < n
    case DropMgr(i) => i < n
    case DropRes(i) => i < n
    case TakeList(i) => i < n
    case Collect(i) => i < n
    case _ => true
  }

  function WithSolver(wk: Worker, i: nat, sv: Solver): (r: Worker)
    requires i < |wk.solvers|
  {
    wk.(solvers := wk.solvers[i := sv])
  }

  /** A worker's step, as far as its own record goes. */
  function WAfter(c: Config, wk: Worker): (r: Worker)
    requires PcInRange(wk.pc, |c.rbls|) && |wk.solvers| == |c.rbls|
  {
    var n := |c.rbls|;
    match wk.pc
    case TakeRes(i) => wk.(pc := Prepare(i))
    case Prepare(i) => WithSolver(wk, i, Solver(Counted, 0)).(pc := TakeInit(i), resolvers := wk.resolvers + 1)
    case TakeInit(i) => wk.(pc := DropInit(i))
    case DropInit(i) => wk.(pc := WPc.TakeMgr(i))
    case TakeMgr(i) => wk.(pc := Spawn(i))
    case Spawn(i) => WithSolver(wk, i, wk.solvers[i].(pc := Query)).(pc := Enlist(i))
    case Enlist(i) => wk.(pc := TakeCount(i))
    case TakeCount(i) => wk.(pc := DropCount(i))
    case DropCount(i) => wk.(pc := WPc.DropMgr(i))
    case DropMgr(i) => wk.(pc := WPc.DropRes(i))
    case DropRes(i) => wk.(pc := Spawning(i + 1, n))
    case TakeWait => wk.(pc := Test)
    case Test => if wk.resolvers != 0 then wk.(pc := Asleep) else wk.(pc := Collecting(0, n))
    case Woken => wk.(pc := Test)
    case TakeList(i) => wk.(pc := Collect(i))
    case Collect(i) =>
      if wk.solvers[i].score != 0 then
        wk.(pc := Collecting(i + 1, n), score := wk.score + wk.solvers[i].score,
            reply := wk.reply + [c.rbls[i].domain])
      else wk.(pc := Collecting(i + 1, n))
    case Answered => wk.(pc := DropWorkTime)
    case DropWorkTime => wk.(pc := TakeWorkMgr)
    case TakeWorkMgr => wk.(pc := DropWorkMgr)
    case DropWorkMgr => wk.(pc := Finished)
    case Asleep => wk
    case Finished => wk
  }

  /** pthread_create fails. */
  function WFails(wk: Worker): (r: Worker)
    requires wk.pc.Spawn? && wk.pc.i < |wk.solvers|
  {
    WithSolver(wk, wk.pc.i, wk.solvers[wk.pc.i].(pc := Failed)).(pc := WPc.DropMgr(wk.pc.i))
  }

  /** A solver's step, as far as its worker's record goes. */
  function SAfter(c: Config, w: nat, wk: Worker, i: nat): (r: Worker)
    requires i < |wk.solvers| == |c.rbls| && w < |c.hits| && |c.hits[w]| == |c.rbls|
  {
    var sv := wk.solvers[i];
    match sv.pc
    case Query => WithSolver(wk, i, Solver(SPc.TakeRes, if c.hits[w][i] then c.rbls[i].weight else 0))
    case TakeRes => WithSolver(wk, i, sv.(pc := Decrement))
    case Decrement => WithSolver(wk, i, sv.(pc := Broadcast)).(resolvers := wk.resolvers - 1)
    case Broadcast =>
      WithSolver(wk, i, sv.(pc := SPc.DropRes)).(pc := if wk.pc == Asleep then Woken else wk.pc)
    case DropRes => WithSolver(wk, i, sv.(pc := TakeTime))
    case TakeTime => WithSolver(wk, i, sv.(pc := DropTime))
    case DropTime => WithSolver(wk, i, sv.(pc := SPc.TakeMgr))
    case TakeMgr => WithSolver(wk, i, sv.(pc := Delist))
    case Delist => WithSolver(wk, i, sv.(pc := SPc.DropMgr))
    case DropMgr => WithSolver(wk, i, sv.(pc := Gone))
    case _ => wk
  }

  function Locked(locks: map<Lock, Thread>, op: LockOp, t: Thread): (r: map<Lock, Thread>) {
    match op case NoOp => locks case Take(l) => locks[l := t] case Drop(l) => locks - {l}
  }

  predicate Free(locks: map<Lock, Thread>, op: LockOp) { op.Take? ==> op.l !in locks }

  /** A solver whose thread exists and has not returned. */
  predicate Running(pc: SPc) { !pc.Unborn? && !pc.Counted? && !pc.Failed? && !pc.Gone? }

  datatype Act = Work(w: nat) | SpawnFails(w: nat) | Spurious(w: nat) | Solve(w: nat, i: nat)

  predicate WellShaped(c: Config, s: State) {
    && |s.workers| == |c.hits|
    && forall w :: 0 <= w < |s.workers| ==>
         |s.workers[w].solvers| == |c.rbls| && PcInRange(s.workers[w].pc, |c.rbls|)
  }

  /** Whether an action is possible. */
  predicate Can(c: Config, s: State, a: Act)
    requires WellShaped(c, s)
  {
    && a.w < |s.workers|
    && var wk := s.workers[a.w];
    match a
    case Work(w) => !AtRest(wk.pc) && Free(s.locks, WOp(w, wk.pc, wk.resolvers))
    case SpawnFails(w) => wk.pc.Spawn?
    case Spurious(w) => wk.pc == Asleep
    case Solve(w, i) =>
      && i < |wk.solvers|
      && Running(wk.solvers[i].pc) && Free(s.locks, SOp(w, wk.solvers[i].pc))
  }

  /** What it does. */
  function Do(c: Config, s: State, a: Act): (r: State)
    requires ValidConfig(c) && WellShaped(c, s) && Can(c, s, a)
  {
    var w, wk := a.w, s.workers[a.w];
    match a
    case Work(_) =>
      var s' := s.(workers := s.workers[w := WAfter(c, wk)],
                   locks := Locked(s.locks, WOp(w, wk.pc, wk.resolvers), W(w)));
      if wk.pc.Enlist? then s'.(enlisted := [S(w, wk.pc.i)] + s.enlisted, nthreads := s.nthreads + 1) else s'
    case SpawnFails(_) => s.(workers := s.workers[w := WFails(wk)])
    case Spurious(_) => s.(workers := s.workers[w := wk.(pc := Woken)])
    case Solve(_, i) =>
      var t := S(w, i);
      var s' := s.(workers := s.workers[w := SAfter(c, w, wk, i)],
                   locks := Locked(s.locks, SOp(w, wk.solvers[i].pc), t));
      if wk.solvers[i].pc == Delist && t in s.enlisted
      then s'.(enlisted := RemoveFirst(s.enlisted, t), nthreads := s.nthreads - 1) else s'
  }

  lemma DoWellShaped(c: Config, s: State, a: Act)
    requires ValidConfig(c) && WellShaped(c, s) && Can(c, s, a)
    ensures WellShaped(c, Do(c, s, a))
  {
  }

  // ---- Runs ----

  /** `run` can be played from `s`. */
  ghost predicate Playable(c: Config, s: State, run: seq<Act>)
    requires ValidConfig(c) && WellShaped(c, s)
    decreases |run|
  {
    run == [] || (Can(c, s, run[0]) && (DoWellShaped(c, s, run[0]); Playable(c, Do(c, s, run[0]), run[1..])))
  }

  ghost function Play(c: Config, s: State, run: seq<Act>): (s': State)
    requires ValidConfig(c) && WellShaped(c, s) && Playable(c, s, run)
    ensures WellShaped(c, s')
    decreases |run|
  {
    if run == [] then s else (DoWellShaped(c, s, run[0]); Play(c, Do(c, s, run[0]), run[1..]))
  }

  /** `s` can come about. */
  ghost predicate Reachable(c: Config, s: State)
    requires ValidConfig(c)
  {
    exists run: seq<Act> :: Playable(c, InitialState(c), run) && Play(c, InitialState(c), run) == s
  }
}
