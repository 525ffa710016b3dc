/** The cap on worker threads: the accepting thread creates workers one after
    the other, workers exit when they like, and a signal may stop the service at
    any moment. */
module WorkerCap {
  import opened Prelude
  import opened ThreadManager

  const POLLS: nat := 20

  datatype Code = Ok | AppState | TooMany | SysErr

  /** Where the accepting thread stands in wthread_create. */
  datatype CPc =
    | Idle
    | Poll(left: nat)         // for (err = 20; ...)
    | CheckState(left: nat)   // if (appstate != APP_RUN)
    | CheckLeft(left: nat)    // if (err <= 0)
    | Spawn                   // pthread_create
    | Enter(tid: Tid)         // thr_register
    | Leave(code: Code)       // unlock and return

  datatype TPc = Working | TakeLock | Unlist | DropLock | Gone

  /** A worker; `cancelled` by pthread_cancel when it could not be registered. */
  datatype Thr = Thr(pc: TPc, cancelled: bool)

  datatype Owner = Creator | Exiting(t: nat)

  /** `atLock`, `born`, `wasRunning` and `lost` record history: the counter and
      the number of threads ever created when the creator took the lock, what
      its check of the application state saw, and the threads counted without
      an entry. */
  datatype State = State(
    creator: CPc, running: bool, lock: Option<Owner>,
    list: seq<Tid>, nthreads: int, threads: seq<Thr>, atLock: int, born: nat,
    wasRunning: bool, lost: nat)

  const INITIAL: State := State(Idle, true, None, [], 0, [], 0, 0, true, 0)

  datatype Act =
    | Create                       // the next step of wthread_create
    | SpawnFails                   // ... where pthread_create fails
    | NoMemory                     // ... where thr_register gets no memory
    | Stop                         // a signal: appstate leaves APP_RUN
    | Resume                       // the accepting thread sets it to APP_RUN
    | Step(t: nat)                 // a worker: done, then wthread_exit
    | Vanish(t: nat)               // a cancelled worker ends

  predicate Can(s: State, a: Act) {
    match a
    case Create => s.creator.Idle? ==> s.lock.None?
    case SpawnFails => s.creator.Spawn?
    case NoMemory => s.creator.Enter? && 0 <= s.creator.tid < |s.threads|
    case Stop => true
    case Resume => s.creator.Idle?
    case Step(t) =>
      t < |s.threads| && s.threads[t].pc != Gone && (s.threads[t].pc == TakeLock ==> s.lock.None?)
    case Vanish(t) =>
      t < |s.threads| && s.threads[t].cancelled && (s.threads[t].pc == Working || s.threads[t].pc == TakeLock)
  }

  function Moved(s: State, t: nat, pc: TPc): (r: State)
    requires t < |s.threads|
  {
    s.(threads := s.threads[t := s.threads[t].(pc := pc)])
  }

  /** The next step of wthread_create under the cap `max`. */
  function CreateStep(s: State, max: int): (r: State) {
    match s.creator
    case Idle => s.(creator := Poll(POLLS), lock := Some(Creator), atLock := s.nthreads, born := |s.threads|)
    case Poll(left) =>
      s.(creator := if left > 0 && s.nthreads >= max && s.running then Poll(left - 1) else CheckState(left))
    case CheckState(left) =>
      s.(creator := if !s.running then Leave(AppState) else CheckLeft(left), wasRunning := s.running)
    case CheckLeft(left) => s.(creator := if left <= 0 then Leave(TooMany) else Spawn)
    case Spawn => s.(creator := Enter(|s.threads|), threads := s.threads + [Thr(Working, false)])
    case Enter(tid) => s.(creator := Leave(Ok), list := [tid] + s.list, nthreads := s.nthreads + 1)
    case Leave(_) => s.(creator := Idle, lock := None)
  }

  /** What a worker does next; thr_unregister is the step at Unlist. */
  function ThreadStep(s: State, t: nat): (r: State)
    requires t < |s.threads|
  {
    match s.threads[t].pc
    case Working => Moved(s, t, TakeLock)
    case TakeLock => Moved(s, t, Unlist).(lock := Some(Exiting(t)))
    case Unlist =>
      Moved(s, t, DropLock).(list := RemoveFirst(s.list, t),
                             nthreads := if t in s.list then s.nthreads - 1 else s.nthreads)
    case DropLock => Moved(s, t, Gone).(lock := None)
    case Gone => s
  }

  function Do(s: State, a: Act, max: int): (r: State)
    requires Can(s, a)
  {
    match a
    case Create => CreateStep(s, max)
    case SpawnFails => s.(creator := Leave(SysErr))
    case NoMemory =>
      s.(creator := Leave(SysErr), nthreads := s.nthreads + 1, lost := s.lost + 1,
         threads := s.threads[s.creator.tid := s.threads[s.creator.tid].(cancelled := true)])
    case Stop => s.(running := false)
    case Resume => s.(running := true)
    case Step(t) => ThreadStep(s, t)
    case Vanish(t) => Moved(s, t, Gone)
  }

  ghost predicate Playable(s: State, run: seq<Act>, max: int)
    decreases |run|
  {
    run == [] || (Can(s, run[0]) && Playable(Do(s, run[0], max), run[1..], max))
  }

  ghost function Play(s: State, run: seq<Act>, max: int): (r: State)
    requires Playable(s, run, max)
    decreases |run|
  {
    if run == [] then s else Play(Do(s, run[0], max), run[1..], max)
  }

  ghost predicate Reachable(s: State, max: int) {
    exists run: seq<Act> :: Playable(INITIAL, run, max) && Play(INITIAL, run, max) == s
  }

  // ---- Invariants ----

  ghost predicate LockInv(s: State) {
    && (s.lock == Some(Creator) <==> !s.creator.Idle?)
    && forall t :: 0 <= t < |s.threads| ==>
         (s.lock == Some(Exiting(t)) <==> s.threads[t].pc == Unlist || s.threads[t].pc == DropLock)
  }

  /** Registered, and not yet unregistered. */
  predicate Listed(s: State, t: nat)
    requires t < |s.threads|
  {
    && !s.threads[t].cancelled && s.creator != Enter(t)
    && (s.threads[t].pc == Working || s.threads[t].pc == TakeLock || s.threads[t].pc == Unlist)
  }

  ghost predicate ListInv(s: State) {
    && (forall x: int :: x in s.list <==> 0 <= x < |s.threads| && Listed(s, x))
    && Distinct(s.list)
    && s.nthreads == |s.list| + s.lost
    && PendingInv(s)
  }

  /** A thread that is still to be registered has not got far. */
  ghost predicate PendingInv(s: State) {
    s.creator.Enter? ==>
      && 0 <= s.creator.tid < |s.threads|
      && !s.threads[s.creator.tid].cancelled
      && (s.threads[s.creator.tid].pc == Working || s.threads[s.creator.tid].pc == TakeLock)
  }

  /** What the creator has found out since it took the lock. */
  ghost predicate CallInv(s: State, max: int) {
    && (s.creator.Idle? || s.creator.Leave? || s.nthreads == s.atLock)
    && match s.creator
       case Idle => true
       case Poll(left) => left <= POLLS && (left < POLLS ==> s.atLock >= max)
       case CheckState(left) => if s.running then left == 0 <==> s.atLock >= max else true
       case CheckLeft(left) => s.wasRunning && (left == 0 <==> s.atLock >= max)
       case Spawn => s.wasRunning && s.atLock < max
       case Enter(_) => s.wasRunning && s.atLock < max
       case Leave(code) =>
         match code
         case AppState => !s.wasRunning && !s.running
         case TooMany => s.wasRunning && s.atLock >= max
         case _ => s.wasRunning && s.atLock < max
  }

  /** What the creator has made of its call. */
  ghost predicate BirthInv(s: State) {
    match s.creator
    case Idle => true
    case Enter(tid) => tid == s.born && |s.threads| == s.born + 1
    case Leave(Ok) =>
      |s.threads| == s.born + 1 && !s.threads[s.born].cancelled && s.list != [] && s.list[0] == s.born
    case Leave(SysErr) => |s.threads| == s.born || (|s.threads| == s.born + 1 && s.threads[s.born].cancelled)
    case _ => |s.threads| == s.born
  }

  ghost predicate Inv(s: State, max: int) {
    LockInv(s) && ListInv(s) && CallInv(s, max) && BirthInv(s) && s.nthreads <= Max(0, max)
  }

  // ---- Every step keeps them ----

  lemma ListedCreated(s: State, max: int, t: nat)
    requires PendingInv(s) && t < |CreateStep(s, max).threads|
    ensures Listed(CreateStep(s, max), t) ==
      if s.creator.Enter? && t == s.creator.tid then true else t < |s.threads| && Listed(s, t)
  {
  }

  lemma ListedStepped(s: State, u: nat, t: nat)
    requires u < |s.threads| && t < |ThreadStep(s, u).threads|
    ensures t < |s.threads|
    ensures Listed(ThreadStep(s, u), t) == if t == u && s.threads[t].pc.Unlist? then false else Listed(s, t)
  {
    hide RemoveFirst;
  }

  lemma ListedAfter(s: State, a: Act, max: int, t: nat)
    requires Inv(s, max) && Can(s, a) && t < |Do(s, a, max).threads|
    ensures Listed(Do(s, a, max), t) ==
      if a.Create? && s.creator.Enter? && t == s.creator.tid then true
      else if a.Step? && t == a.t && s.threads[t].pc.Unlist? then false
      else t < |s.threads| && Listed(s, t)
  {
    assert PendingInv(s);
    hide CallInv, ListInv, LockInv, BirthInv, RemoveFirst;
    match a
    case Create => ListedCreated(s, max, t);
    case Step(u) => ListedStepped(s, u, t);
    case _ =>
  }

  lemma LockKeeps(s: State, a: Act, max: int)
    requires Inv(s, max) && Can(s, a)
    ensures LockInv(Do(s, a, max))
  {
    hide CallInv, ListInv, BirthInv;
  }

  lemma PendingIsNotListed(s: State, t: nat)
    requires s.creator == Enter(t) && t < |s.threads|
    ensures !Listed(s, t)
  {
  }

  lemma PendingKeeps(s: State, a: Act, max: int)
    requires Inv(s, max) && Can(s, a)
    ensures PendingInv(Do(s, a, max))
  {
    hide CallInv, BirthInv;
  }

  lemma ListKeeps(s: State, a: Act, max: int)
    requires Inv(s, max) && Can(s, a)
    ensures ListInv(Do(s, a, max))
  {
    hide LockInv, CallInv, BirthInv, Listed;
    PendingKeeps(s, a, max);
    var s' := Do(s, a, max);
    if a.Step? && s.threads[a.t].pc.Unlist? {
      RemovesOne(s.list, a.t);
    }
    if a.Create? && s.creator.Enter? {
      PendingIsNotListed(s, s.creator.tid);
      assert s.creator.tid !in s.list;
    }
    forall x: int
      ensures x in s'.list <==> 0 <= x < |s'.threads| && Listed(s', x)
    {
      if 0 <= x < |s'.threads| { ListedAfter(s, a, max, x); }
    }
  }

  lemma CallKeeps(s: State, a: Act, max: int)
    requires Inv(s, max) && Can(s, a)
    ensures CallInv(Do(s, a, max), max) && Do(s, a, max).nthreads <= Max(0, max)
  {
    hide BirthInv;
  }

  lemma BirthKeeps(s: State, a: Act, max: int)
    requires Inv(s, max) && Can(s, a)
    ensures BirthInv(Do(s, a, max))
  {
    assert PendingInv(s);
    hide CallInv, ListInv, PendingInv;
  }

  lemma {:induction false} RunKeeps(s: State, run: seq<Act>, max: int)
    requires Inv(s, max) && Playable(s, run, max)
    ensures Inv(Play(s, run, max), max)
    decreases |run|
  {
    if run != [] {
      LockKeeps(s, run[0], max);
      ListKeeps(s, run[0], max);
      CallKeeps(s, run[0], max);
      BirthKeeps(s, run[0], max);
      RunKeeps(Do(s, run[0], max), run[1..], max);
    }
  }

  lemma ReachableInv(s: State, max: int)
    requires Reachable(s, max)
    ensures Inv(s, max)
  {
    var run: seq<Act> :| Playable(INITIAL, run, max) && Play(INITIAL, run, max) == s;
    RunKeeps(INITIAL, run, max);
  }

  // ---- What holds in every run ----

  /** Threads that were created and neither cancelled nor unregistered. */
  ghost predicate InService(s: State, live: seq<Tid>) {
    && Distinct(live)
    && forall t :: t in live ==>
         && 0 <= t < |s.threads| && !s.threads[t].cancelled
         && (s.threads[t].pc == Working || s.threads[t].pc == TakeLock || s.threads[t].pc == Unlist)
  }

  lemma {:induction false} NoMoreThanListed(live: seq<Tid>, list: seq<Tid>)
    requires Distinct(live) && Distinct(list)
    requires forall t :: t in live ==> t in list
    ensures |live| <= |list|
  {
    if live != [] {
      var x := live[0];
      assert x in list;
      RemovesOne(list, x);
      forall t | t in live[1..]
        ensures t in RemoveFirst(list, x)
      {
        assert t in live && t != x;
      }
      NoMoreThanListed(live[1..], RemoveFirst(list, x));
    }
  }

  /** Never are more workers in service than the cap allows, and the counter
      is the number of entries and of those lost. */
  lemma CapHolds(s: State, max: int, live: seq<Tid>)
    requires Reachable(s, max) && InService(s, live)
    ensures |live| <= Max(0, max)
    ensures s.nthreads == |s.list| + s.lost <= Max(0, max) && Distinct(s.list)
  {
    ReachableInv(s, max);
    if s.creator.Enter? {
      assert s.creator.tid !in s.list;
      NoMoreThanListed(live, [s.creator.tid] + s.list);
    } else {
      NoMoreThanListed(live, s.list);
    }
  }

  /** A worker that unregisters finds its entry, unless it was cancelled for
      want of one. */
  lemma ExitFindsEntry(s: State, max: int, t: nat)
    requires Reachable(s, max) && t < |s.threads| && s.threads[t].pc.Unlist?
    ensures t in s.list <==> !s.threads[t].cancelled
  {
    ReachableInv(s, max);
    assert s.lock == Some(Exiting(t));
  }

  /** How wthread_create ends: it depends on what its check of the application
      state saw and on the counter at the moment the lock was taken; the twenty
      polls cannot see a worker leave, for its exit waits for the lock. */
  lemma CallOutcome(s: State, max: int)
    requires Reachable(s, max) && s.creator.Leave?
    ensures s.creator.code.AppState? <==> !s.wasRunning
    ensures s.creator.code.TooMany? <==> s.wasRunning && s.atLock >= max
    ensures s.creator.code.Ok? || s.creator.code.SysErr? <==> s.wasRunning && s.atLock < max
    ensures s.running ==> s.wasRunning
    ensures |s.threads| == s.born || |s.threads| == s.born + 1
    ensures s.creator.code.Ok? <==>
              |s.threads| == s.born + 1 && !s.threads[s.born].cancelled && s.list != [] && s.list[0] == s.born
    ensures s.creator.code.SysErr? && |s.threads| > s.born ==> s.threads[s.born].cancelled
  {
    ReachableInv(s, max);
  }

  /** How many steps of `run` are the creator's. */
  function Creates(run: seq<Act>): (r: nat)
    ensures r <= |run|
  {
    if run == [] then 0 else (if run[0].Create? then 1 else 0) + Creates(run[1..])
  }

  /** Where a call that must find the service stopped stands, `left` steps
      before its end. */
  predicate Stopped(s: State, left: nat) {
    && (left > 0 ==> !s.running)
    && match left
       case 0 => s.creator.Idle?
       case 1 => s.creator == Leave(AppState)
       case 2 => s.creator.CheckState?
       case _ => left == 3 && s.creator.Poll?
  }

  lemma StoppedStep(s: State, left: nat, a: Act, max: int)
    requires Stopped(s, left) && Can(s, a) && (a.Create? ==> left > 0)
    ensures Stopped(Do(s, a, max), if a.Create? then left - 1 else left)
    ensures |Do(s, a, max).threads| == |s.threads|
  {
  }

  /** A service that has left APP_RUN gets no new worker from a call that has
      not passed the check: whatever happens meanwhile, the call leaves with
      that error, and until it has left the threads are those there were. */
  lemma {:induction false} StoppedCallCreatesNothing(s: State, left: nat, run: seq<Act>, max: int)
    requires Stopped(s, left) && Playable(s, run, max) && Creates(run) <= left
    ensures var s' := Play(s, run, max);
      Stopped(s', left - Creates(run)) && |s'.threads| == |s.threads|
    decreases |run|
  {
    if run != [] {
      StoppedStep(s, left, run[0], max);
      StoppedCallCreatesNothing(Do(s, run[0], max), if run[0].Create? then left - 1 else left, run[1..], max);
    }
  }

  /** A run of steps of the creator alone. */
  function Steps(n: nat): (r: seq<Act>) { seq(n, _ => Create) }

  lemma StepsAgain(n: nat)
    requires n > 0
    ensures Steps(n)[0] == Create && Steps(n)[1..] == Steps(n - 1)
  {
  }

  /** The polling of a service that runs and is full. */
  lemma {:induction false} PollsDown(s: State, max: int, left: nat)
    requires s.creator == Poll(left) && s.running && s.nthreads >= max
    ensures Playable(s, Steps(left + 3), max)
    ensures Play(s, Steps(left + 3), max) == s.(creator := Leave(TooMany), wasRunning := true)
    decreases left
  {
    StepsAgain(left + 3);
    if left > 0 {
      PollsDown(s.(creator := Poll(left - 1)), max, left - 1);
    } else {
      StepsAgain(2);
      StepsAgain(1);
      var s1 := s.(creator := CheckState(0));
      var s2 := s.(creator := CheckLeft(0), wasRunning := true);
      var s3 := s.(creator := Leave(TooMany), wasRunning := true);
      assert Steps(1)[1..] == [] && Playable(s3, [], max);
      assert Playable(s2, Steps(1), max) && Play(s2, Steps(1), max) == s3;
      assert Playable(s1, Steps(2), max) && Play(s1, Steps(2), max) == s3;
    }
  }

  /** With all slots taken the call takes the lock, sleeps twenty times, sees
      that it may stop, checks twice, and gives up. */
  lemma GivesUp(s: State, max: int)
    requires s.creator.Idle? && s.lock.None? && s.running && s.nthreads >= max
    ensures Playable(s, Steps(1 + 20 + 3), max)
    ensures var s' := Play(s, Steps(1 + 20 + 3), max);
      s'.creator == Leave(TooMany) && s'.nthreads == s.nthreads && s'.threads == s.threads && s'.list == s.list
  {
    StepsAgain(24);
    PollsDown(CreateStep(s, max), max, 20);
  }

  lemma PollsSeeNoChange(s: State, max: int)
    requires Reachable(s, max) && s.creator.Poll?
    ensures s.nthreads == s.atLock
    ensures forall t :: 0 <= t < |s.threads| ==> s.threads[t].pc != Unlist
  {
    ReachableInv(s, max);
  }

  /** Once as many entries were lost as the cap allows threads, no worker is
      ever created again. */
  lemma LeakBlocksForGood(s: State, run: seq<Act>, max: int)
    requires Reachable(s, max) && s.lost >= max && s.creator.Idle? && Playable(s, run, max)
    ensures !Play(s, run, max).creator.Spawn? && Play(s, run, max).creator != Leave(Ok)
    ensures |Play(s, run, max).threads| == |s.threads|
  {
    ReachableInv(s, max);
    NoMoreThreads(s, run, max);
  }

  /** Beyond the cap for good, and not creating. */
  ghost predicate Full(s: State, max: int) {
    && s.lost >= max && Inv(s, max)
    && (!s.creator.Idle? ==> s.atLock >= max)
  }

  lemma {:induction false} NoMoreThreads(s: State, run: seq<Act>, max: int)
    requires Full(s, max) && Playable(s, run, max)
    ensures Full(Play(s, run, max), max) && |Play(s, run, max).threads| == |s.threads|
    decreases |run|
  {
    hide Full, Do, Can;
    if run != [] {
      StaysFull(s, run[0], max);
      NoMoreThreads(Do(s, run[0], max), run[1..], max);
    }
  }

  lemma StaysFull(s: State, a: Act, max: int)
    requires Full(s, max) && Can(s, a)
    ensures Full(Do(s, a, max), max) && |Do(s, a, max).threads| == |s.threads|
  {
    LockKeeps(s, a, max);
    ListKeeps(s, a, max);
    CallKeeps(s, a, max);
    BirthKeeps(s, a, max);
    hide LockInv, ListInv, BirthInv;
  }
}
