/**
 The recursive mutex of kernel/ipc.cc: semaphore::lock, unlock, wait and signal, with every read and write of
 `count`, `owner_pid` and `recursive_count` a step of its own. Only `count` is protected, by `sem_lock`; the other
 two fields are read by everybody without a lock. Sleeping on the wait queue may end at any time, so timeouts and
 wakeups are both covered.
 */
module Mutex {
  import opened Common

  /** task_id; 0 is no task. */
  type Tid = nat

  datatype Pc =
    | Idle
    // lock
    | LockOwner | LockRec | IncRead | IncWrite(r: int)
    // wait, called by lock until it returns 1
    | WaitTest | WaitSleep | WaitAcquire | WaitCheck | DecCountRead | DecCountWrite(c: int) | WaitRelease(got: bool)
    | SetOwner | SetRec
    // unlock
    | UnlockOwner | UnlockRec | DecRead | DecWrite(r: int) | ClearOwner | ClearRec
    // signal
    | SignalAcquire | IncCountRead | IncCountWrite(c: int) | SignalRelease

  /** `depth`: lock calls minus unlock calls of this task; `holding`: between taking and giving back the count. */
  datatype Thread = Thread(pc: Pc, depth: nat, holding: bool)

  datatype State = State(count: int, semLock: Option<Tid>, owner: Tid, rec: int, threads: map<Tid, Thread>)

  function Init(ts: set<Tid>, garbage: int): State {
    State(1, None, 0, garbage, map t | t in ts :: Thread(Idle, 0, false))
  }

  datatype Action = Lock(t: Tid) | Unlock(t: Tid) | Next(t: Tid)

  /** A well-behaved task unlocks only what it has locked, and starts a call only when it is not inside one. */
  ghost predicate Enabled(s: State, a: Action) {
    && a.t in s.threads
    && var th := s.threads[a.t];
       match a
       case Lock(_) => th.pc.Idle?
       case Unlock(_) => th.pc.Idle? && th.depth > 0
       case Next(_) => !th.pc.Idle? && (th.pc.WaitAcquire? || th.pc.SignalAcquire? ==> s.semLock.None?)
  }

  function Goto(s: State, t: Tid, pc: Pc): State
    requires t in s.threads
  {
    s.(threads := s.threads[t := s.threads[t].(pc := pc)])
  }

  function Return(s: State, t: Tid, depth: nat): State
    requires t in s.threads
  {
    s.(threads := s.threads[t := s.threads[t].(pc := Idle, depth := depth)])
  }

  function Hold(s: State, t: Tid, pc: Pc, holding: bool): State
    requires t in s.threads
  {
    s.(threads := s.threads[t := s.threads[t].(pc := pc, holding := holding)])
  }

  function NextStep(s: State, t: Tid): State
    requires t in s.threads && !s.threads[t].pc.Idle?
  {
    var th := s.threads[t];
    match th.pc
    case LockOwner => Goto(s, t, if s.owner == t then LockRec else WaitTest)
    case LockRec => Goto(s, t, if s.rec != 0 then IncRead else WaitTest)
    case IncRead => Goto(s, t, IncWrite(s.rec))
    case IncWrite(r) => Return(s.(rec := r + 1), t, th.depth + 1)
    case WaitTest => Goto(s, t, if s.count <= 0 then WaitSleep else WaitAcquire)
    case WaitSleep => Goto(s, t, WaitAcquire)
    case WaitAcquire => Goto(s.(semLock := Some(t)), t, WaitCheck)
    case WaitCheck => Goto(s, t, if s.count > 0 then DecCountRead else WaitRelease(false))
    case DecCountRead => Goto(s, t, DecCountWrite(s.count))
    case DecCountWrite(c) => Hold(s.(count := c - 1), t, WaitRelease(true), true)
    case WaitRelease(got) => Goto(s.(semLock := None), t, if got then SetOwner else WaitTest)
    case SetOwner => Goto(s.(owner := t), t, SetRec)
    case SetRec => Return(s.(rec := 1), t, 1)
    case UnlockOwner => Goto(s, t, if s.owner == t then UnlockRec else ClearOwner)
    case UnlockRec => Goto(s, t, if s.rec > 1 then DecRead else ClearOwner)
    case DecRead => Goto(s, t, DecWrite(s.rec))
    case DecWrite(r) => Return(s.(rec := r - 1), t, if th.depth > 0 then th.depth - 1 else 0)
    case ClearOwner => Goto(s.(owner := 0), t, ClearRec)
    case ClearRec => Goto(s.(rec := 0), t, SignalAcquire)
    case SignalAcquire => Goto(s.(semLock := Some(t)), t, IncCountRead)
    case IncCountRead => Goto(s, t, IncCountWrite(s.count))
    case IncCountWrite(c) => Hold(s.(count := c + 1), t, SignalRelease, false)
    case SignalRelease => Return(s.(semLock := None), t, 0)
  }

  function Step(s: State, a: Action): State
    requires Enabled(s, a)
  {
    match a
    case Lock(t) => Goto(s, t, LockOwner)
    case Unlock(t) => Goto(s, t, UnlockOwner)
    case Next(t) => NextStep(s, t)
  }

  // ------------------------------------------------------------------ the invariant

  /** Program points at which `sem_lock` is held. */
  predicate HasSemLock(pc: Pc) {
    pc.WaitCheck? || pc.DecCountRead? || pc.DecCountWrite? || pc.WaitRelease? || pc.IncCountRead? || pc.IncCountWrite?
      || pc.SignalRelease?
  }

  /** Program points at which the fields say who owns the mutex and how deep. */
  predicate Settled(th: Thread) {
    match th.pc
    case Idle => th.depth > 0
    case LockOwner => th.depth > 0
    case LockRec => true
    case IncRead => true
    case IncWrite(_) => true
    case UnlockOwner => true
    case UnlockRec => true
    case DecRead => true
    case DecWrite(_) => true
    case _ => false
  }

  /** What is known of one task from the shared fields. */
  ghost predicate ThreadOk(s: State, t: Tid)
    requires t in s.threads
  {
    var th := s.threads[t];
    && t != 0
    && (HasSemLock(th.pc) <==> s.semLock == Some(t))
    && (Settled(th) ==> th.holding && th.depth > 0 && s.owner == t && s.rec == th.depth)
    && (s.owner == t ==> th.holding)
    && match th.pc
       case Idle => th.holding <==> th.depth > 0
       case LockOwner => th.holding <==> th.depth > 0
       case IncWrite(r) => r == s.rec
       case WaitTest => !th.holding && th.depth == 0
       case WaitSleep => !th.holding && th.depth == 0
       case WaitAcquire => !th.holding && th.depth == 0
       case WaitCheck => !th.holding && th.depth == 0
       case DecCountRead => !th.holding && th.depth == 0 && s.count > 0
       case DecCountWrite(c) => !th.holding && th.depth == 0 && c == s.count && s.count > 0
       case WaitRelease(got) => th.holding == got && th.depth == 0
       case SetOwner => th.holding && th.depth == 0
       case SetRec => th.holding && th.depth == 0 && s.owner == t
       case DecRead => s.rec > 1
       case DecWrite(r) => r == s.rec && r > 1
       case ClearOwner => th.holding && th.depth == 1
       case ClearRec => th.holding && th.depth == 1 && s.owner == 0
       case SignalAcquire => th.holding && th.depth == 1 && s.owner == 0
       case IncCountRead => th.holding && th.depth == 1 && s.owner == 0
       case IncCountWrite(c) => th.holding && th.depth == 1 && s.owner == 0 && c == s.count
       case SignalRelease => !th.holding && th.depth == 1
       case _ => true
  }

  /** `count` plus the number of holders is always 1. */
  ghost predicate CountOk(s: State) {
    && (forall t, u :: t in s.threads && u in s.threads && s.threads[t].holding && s.threads[u].holding ==> t == u)
    && ((exists t :: t in s.threads && s.threads[t].holding) ==> s.count == 0)
    && ((forall t :: t in s.threads ==> !s.threads[t].holding) ==> s.count == 1 && s.owner == 0)
  }

  ghost predicate Inv(s: State) {
    CountOk(s) && forall t :: t in s.threads ==> ThreadOk(s, t)
  }

  lemma InitInv(ts: set<Tid>, garbage: int)
    requires 0 !in ts
    ensures Inv(Init(ts, garbage))
  {
  }

  predicate InUnlock(pc: Pc) {
    || pc.UnlockOwner? || pc.UnlockRec? || pc.DecRead? || pc.DecWrite? || pc.ClearOwner? || pc.ClearRec?
    || pc.SignalAcquire? || pc.IncCountRead? || pc.IncCountWrite? || pc.SignalRelease?
  }

  lemma LockerOk(s: State, t: Tid)
    requires Enabled(s, Next(t)) && ThreadOk(s, t) && !InUnlock(s.threads[t].pc)
    ensures ThreadOk(NextStep(s, t), t)
  {
  }

  predicate InSignal(pc: Pc) {
    pc.SignalAcquire? || pc.IncCountRead? || pc.IncCountWrite? || pc.SignalRelease?
  }

  lemma UnlockerOk(s: State, t: Tid)
    requires Enabled(s, Next(t)) && ThreadOk(s, t) && InUnlock(s.threads[t].pc) && !InSignal(s.threads[t].pc)
    ensures ThreadOk(NextStep(s, t), t)
  {
  }

  lemma SignallerOk(s: State, t: Tid)
    requires Enabled(s, Next(t)) && ThreadOk(s, t) && InSignal(s.threads[t].pc)
    ensures ThreadOk(NextStep(s, t), t)
  {
  }

  /** The task that moves. */
  lemma MoverOk(s: State, a: Action)
    requires Enabled(s, a) && ThreadOk(s, a.t)
    ensures ThreadOk(Step(s, a), a.t)
  {
    match a
    case Next(t) =>
      hide NextStep;
      if InSignal(s.threads[t].pc) {
        SignallerOk(s, t);
      } else if InUnlock(s.threads[t].pc) {
        UnlockerOk(s, t);
      } else {
        LockerOk(s, t);
      }
    case _ =>
  }

  /** Only the holder writes `owner_pid` and `recursive_count`, so nobody else notices. */
  lemma OthersOk(s: State, a: Action, u: Tid)
    requires Enabled(s, a) && u in s.threads && u != a.t && ThreadOk(s, a.t) && ThreadOk(s, u)
    requires !(s.threads[u].holding && s.threads[a.t].holding)
    requires s.threads[u].holding ==> s.count == 0
    ensures ThreadOk(Step(s, a), u)
  {
    assert Step(s, a).threads[u] == s.threads[u];
  }

  ghost predicate OnlyMoved(s: State, s': State, t: Tid) {
    s'.threads.Keys == s.threads.Keys && t in s.threads && forall u :: u in s.threads && u != t ==>
      s'.threads[u] == s.threads[u]
  }

  /** The count and the holder change together, in the two critical sections of `sem_lock`. */
  lemma StepShape(s: State, a: Action)
    requires Enabled(s, a) && ThreadOk(s, a.t)
    ensures var s', th, th' := Step(s, a), s.threads[a.t], Step(s, a).threads[a.t];
            && OnlyMoved(s, s', a.t)
            && (th.holding == th'.holding ==> s'.count == s.count && (s'.owner == s.owner || th.holding))
            && (!th.holding && th'.holding ==> s.count > 0 && s'.count == s.count - 1 && s'.owner == s.owner)
            && (th.holding && !th'.holding ==> s'.count == s.count + 1 && s'.owner == 0)
  {
  }

  lemma HoldersOk(s: State, s': State, t: Tid)
    requires CountOk(s) && OnlyMoved(s, s', t)
    requires var th, th' := s.threads[t], s'.threads[t];
             && (th.holding == th'.holding ==> s'.count == s.count && (s'.owner == s.owner || th.holding))
             && (!th.holding && th'.holding ==> s.count > 0 && s'.count == s.count - 1 && s'.owner == s.owner)
             && (th.holding && !th'.holding ==> s'.count == s.count + 1 && s'.owner == 0)
    ensures CountOk(s')
  {
  }

  lemma StepInv(s: State, a: Action)
    requires Inv(s) && Enabled(s, a)
    ensures Inv(Step(s, a))
  {
    hide Step, ThreadOk;
    var s' := Step(s, a);
    StepShape(s, a);
    HoldersOk(s, s', a.t);
    MoverOk(s, a);
    forall u | u in s'.threads
      ensures ThreadOk(s', u)
    {
      if u != a.t {
        OthersOk(s, a, u);
      }
    }
  }

  // ------------------------------------------------------------------ every run

  ghost predicate IsRun(ts: set<Tid>, garbage: int, acts: seq<Action>, s: State)
    decreases |acts|
  {
    if acts == [] then s == Init(ts, garbage)
    else
      var m := |acts| - 1;
      exists s0 :: IsRun(ts, garbage, acts[..m], s0) && Enabled(s0, acts[m]) && s == Step(s0, acts[m])
  }

  lemma {:induction false} RunInv(ts: set<Tid>, garbage: int, acts: seq<Action>, s: State)
    requires 0 !in ts && IsRun(ts, garbage, acts, s)
    ensures Inv(s)
    decreases |acts|
  {
    hide Inv;
    if acts == [] {
      InitInv(ts, garbage);
    } else {
      var m := |acts| - 1;
      var s0 :| IsRun(ts, garbage, acts[..m], s0) && Enabled(s0, acts[m]) && s == Step(s0, acts[m]);
      RunInv(ts, garbage, acts[..m], s0);
      StepInv(s0, acts[m]);
    }
  }

  /** The calls a task has made: its locks less its unlocks. */
  function Calls(acts: seq<Action>, t: Tid): int {
    if acts == [] then 0
    else
      var m := |acts| - 1;
      Calls(acts[..m], t) + if acts[m] == Lock(t) then 1 else if acts[m] == Unlock(t) then -1 else 0
  }

  /** The part of that which belongs to the call under way. */
  function UnderWay(pc: Pc): int {
    if pc.Idle? then 0 else if InUnlock(pc) then -1 else 1
  }

  function Total(th: Thread): int {
    th.depth + UnderWay(th.pc)
  }

  /** A call counts when it returns, and then once. */
  lemma LockerCalls(s: State, t: Tid)
    requires Enabled(s, Next(t)) && ThreadOk(s, t) && !InUnlock(s.threads[t].pc)
    ensures t in NextStep(s, t).threads && Total(NextStep(s, t).threads[t]) == Total(s.threads[t])
  {
  }

  lemma UnlockerCalls(s: State, t: Tid)
    requires Enabled(s, Next(t)) && ThreadOk(s, t) && InUnlock(s.threads[t].pc)
    ensures t in NextStep(s, t).threads && Total(NextStep(s, t).threads[t]) == Total(s.threads[t])
  {
  }

  lemma StepCalls(s: State, a: Action, t: Tid)
    requires Enabled(s, a) && ThreadOk(s, a.t) && t in s.threads
    ensures Step(s, a).threads.Keys == s.threads.Keys
    ensures Total(Step(s, a).threads[t]) - Total(s.threads[t]) ==
            if a == Lock(t) then 1 else if a == Unlock(t) then -1 else 0
  {
    StepShape(s, a);
    hide ThreadOk, NextStep;
    if a.Next? {
      if InUnlock(s.threads[a.t].pc) {
        UnlockerCalls(s, a.t);
      } else {
        LockerCalls(s, a.t);
      }
    }
  }

  lemma StepTasks(s: State, a: Action)
    requires Enabled(s, a)
    ensures Step(s, a).threads.Keys == s.threads.Keys
  {
  }

  lemma {:induction false} RunTasks(ts: set<Tid>, garbage: int, acts: seq<Action>, s: State)
    requires IsRun(ts, garbage, acts, s)
    ensures s.threads.Keys == ts
    decreases |acts|
  {
    hide Step, Enabled;
    if acts != [] {
      var m := |acts| - 1;
      var s0 :| IsRun(ts, garbage, acts[..m], s0) && Enabled(s0, acts[m]) && s == Step(s0, acts[m]);
      RunTasks(ts, garbage, acts[..m], s0);
      StepTasks(s0, acts[m]);
    }
  }

  /** Over every run the nesting depth of a task is the number of its locks less the number of its unlocks. */
  lemma {:induction false} DepthIsCalls(ts: set<Tid>, garbage: int, acts: seq<Action>, s: State, t: Tid)
    requires 0 !in ts && IsRun(ts, garbage, acts, s) && t in ts
    ensures t in s.threads && Total(s.threads[t]) == Calls(acts, t)
    decreases |acts|
  {
    hide Inv, Step;
    RunTasks(ts, garbage, acts, s);
    if acts != [] {
      var m := |acts| - 1;
      var s0 :| IsRun(ts, garbage, acts[..m], s0) && Enabled(s0, acts[m]) && s == Step(s0, acts[m]);
      RunInv(ts, garbage, acts[..m], s0);
      RunTasks(ts, garbage, acts[..m], s0);
      DepthIsCalls(ts, garbage, acts[..m], s0, t);
      MoverIsOk(s0, acts[m]);
      StepCalls(s0, acts[m], t);
    }
  }

  lemma MoverIsOk(s: State, a: Action)
    requires Inv(s) && Enabled(s, a)
    ensures ThreadOk(s, a.t)
  {
  }

  /** The tasks between taking and giving back the count. */
  ghost function Holders(s: State): set<Tid> {
    set t | t in s.threads && s.threads[t].holding
  }

  /**
   In every interleaving: `count` plus the number of holders is 1, so at most one task is between acquiring and
   releasing. A task that is not inside a call holds the mutex exactly if it has made more locks than unlocks, and then
   the fields name it and give the difference.
   */
  lemma MutualExclusion(ts: set<Tid>, garbage: int, acts: seq<Action>, s: State)
    requires 0 !in ts && IsRun(ts, garbage, acts, s)
    ensures s.count + |Holders(s)| == 1 && 0 <= s.count && s.threads.Keys == ts
    ensures forall t :: t in ts && s.threads[t].pc.Idle? ==>
              && Calls(acts, t) >= 0 && (t in Holders(s) <==> Calls(acts, t) > 0)
              && (Calls(acts, t) > 0 ==> s.owner == t && s.rec == Calls(acts, t))
  {
    RunInv(ts, garbage, acts, s);
    RunTasks(ts, garbage, acts, s);
    forall t | t in ts ensures Total(s.threads[t]) == Calls(acts, t) { DepthIsCalls(ts, garbage, acts, s, t); }
    hide IsRun, Calls;
    if t :| t in s.threads && s.threads[t].holding {
      assert Holders(s) == {t};
    } else {
      assert Holders(s) == {};
    }
    forall t | t in ts && s.threads[t].pc.Idle? ensures Calls(acts, t) == s.threads[t].depth && ThreadOk(s, t) {
    }
  }

  /** Two tasks are never both between acquiring and releasing, whatever either of them is doing there. */
  lemma OneAtATime(ts: set<Tid>, garbage: int, acts: seq<Action>, s: State, t: Tid, u: Tid)
    requires 0 !in ts && IsRun(ts, garbage, acts, s) && t in Holders(s) && u in Holders(s)
    ensures t == u
  {
    RunInv(ts, garbage, acts, s);
  }

  // ------------------------------------------------------------------ progress

  /** Up to `k` steps of task `t` with nobody else moving. */
  ghost function Alone(s: State, t: Tid, k: nat): (s': State)
    requires t in s.threads
    ensures t in s'.threads
    decreases k
  {
    if k == 0 || !Enabled(s, Next(t)) then s else Alone(Step(s, Next(t)), t, k - 1)
  }

  lemma AloneNext(s: State, t: Tid, k: nat)
    requires Enabled(s, Next(t)) && k > 0
    ensures t in NextStep(s, t).threads && Alone(s, t, k) == Alone(NextStep(s, t), t, k - 1)
  {
    hide NextStep;
    NextTask(s, t);
  }

  lemma NextTask(s: State, t: Tid)
    requires Enabled(s, Next(t))
    ensures t in NextStep(s, t).threads
  {
  }

  /** What a task sees: its own program counter and the four shared fields. */
  ghost predicate Sees(s: State, t: Tid, th: Thread, count: int, semLock: Option<Tid>, owner: Tid, rec: int) {
    t in s.threads && s == State(count, semLock, owner, rec, s.threads) && s.threads[t] == th
  }

  /** A lock of the free mutex gets it without sleeping, in nine accesses. */
  lemma FreeLockReturns(s: State, t: Tid)
    requires Inv(s) && Enabled(s, Lock(t)) && s.count == 1 && s.semLock.None?
    ensures Sees(Alone(Step(s, Lock(t)), t, 9), t, Thread(Idle, 1, true), 0, None, t, 1)
  {
    assert ThreadOk(s, t);
    hide Alone;
    var s0 := Step(s, Lock(t));
    AloneNext(s0, t, 9);
    FreeWaits(NextStep(s0, t), t, s.rec);
  }

  lemma FreeWaits(s: State, t: Tid, rec: int)
    requires Sees(s, t, Thread(WaitTest, 0, false), 1, None, 0, rec)
    ensures Sees(Alone(s, t, 8), t, Thread(Idle, 1, true), 0, None, t, 1)
  {
    hide Alone;
    AloneNext(s, t, 8);
    var s1 := NextStep(s, t);
    AloneNext(s1, t, 7);
    var s2 := NextStep(s1, t);
    AloneNext(s2, t, 6);
    FreeTakes(NextStep(s2, t), t, rec);
  }

  lemma FreeTakes(s: State, t: Tid, rec: int)
    requires Sees(s, t, Thread(DecCountRead, 0, false), 1, Some(t), 0, rec)
    ensures Sees(Alone(s, t, 5), t, Thread(Idle, 1, true), 0, None, t, 1)
  {
    hide Alone;
    AloneNext(s, t, 5);
    var s1 := NextStep(s, t);
    AloneNext(s1, t, 4);
    var s2 := NextStep(s1, t);
    AloneNext(s2, t, 3);
    FreeOwns(NextStep(s2, t), t, rec);
  }

  lemma FreeOwns(s: State, t: Tid, rec: int)
    requires Sees(s, t, Thread(SetOwner, 0, true), 0, None, 0, rec)
    ensures Sees(Alone(s, t, 2), t, Thread(Idle, 1, true), 0, None, t, 1)
  {
    AloneNext(s, t, 2);
    var s1 := NextStep(s, t);
    AloneNext(s1, t, 1);
  }

  /** A lock of a mutex that another task has goes to sleep. */
  lemma TakenLockSleeps(s: State, t: Tid)
    requires Inv(s) && Enabled(s, Lock(t)) && s.count == 0 && s.threads[t].depth == 0
    ensures Sees(Alone(Step(s, Lock(t)), t, 2), t, Thread(WaitSleep, 0, false), 0, s.semLock, s.owner, s.rec)
  {
    assert ThreadOk(s, t);
    hide Alone;
    var s0 := Step(s, Lock(t));
    AloneNext(s0, t, 2);
    var s1 := NextStep(s0, t);
    AloneNext(s1, t, 1);
    AloneDone(NextStep(s1, t), t);
  }

  /** Woken after the mutex was given back, it gets it. */
  lemma WokenLockReturns(s: State, t: Tid)
    requires Sees(s, t, Thread(WaitSleep, 0, false), 1, None, 0, s.rec)
    ensures Sees(Alone(s, t, 8), t, Thread(Idle, 1, true), 0, None, t, 1)
  {
    hide Alone;
    AloneNext(s, t, 8);
    var s1 := NextStep(s, t);
    AloneNext(s1, t, 7);
    var s2 := NextStep(s1, t);
    AloneNext(s2, t, 6);
    FreeTakes(NextStep(s2, t), t, s.rec);
  }

  /** The last unlock gives the mutex back in eight accesses. */
  lemma LastUnlockReturns(s: State, t: Tid)
    requires Inv(s) && Enabled(s, Unlock(t)) && s.threads[t].depth == 1 && s.semLock.None?
    ensures Sees(Alone(Step(s, Unlock(t)), t, 8), t, Thread(Idle, 0, false), 1, None, 0, 0)
  {
    assert ThreadOk(s, t);
    hide Alone;
    var s0 := Step(s, Unlock(t));
    AloneNext(s0, t, 8);
    var s1 := NextStep(s0, t);
    AloneNext(s1, t, 7);
    LastClears(NextStep(s1, t), t);
  }

  lemma LastClears(s: State, t: Tid)
    requires Sees(s, t, Thread(ClearOwner, 1, true), 0, None, t, 1)
    ensures Sees(Alone(s, t, 6), t, Thread(Idle, 0, false), 1, None, 0, 0)
  {
    hide Alone;
    AloneNext(s, t, 6);
    var s1 := NextStep(s, t);
    AloneNext(s1, t, 5);
    var s2 := NextStep(s1, t);
    AloneNext(s2, t, 4);
    LastSignals(NextStep(s2, t), t);
  }

  lemma LastSignals(s: State, t: Tid)
    requires Sees(s, t, Thread(IncCountRead, 1, true), 0, Some(t), 0, 0)
    ensures Sees(Alone(s, t, 3), t, Thread(Idle, 0, false), 1, None, 0, 0)
  {
    AloneNext(s, t, 3);
    var s1 := NextStep(s, t);
    AloneNext(s1, t, 2);
    var s2 := NextStep(s1, t);
    AloneNext(s2, t, 1);
    hide Alone;
    AloneDone(NextStep(s2, t), t);
  }

  lemma AloneDone(s: State, t: Tid)
    requires t in s.threads
    ensures Alone(s, t, 0) == s
  {
  }

  /** The holder's further locks take four accesses and never wait, whoever has `sem_lock`. */
  lemma NestedLockReturns(s: State, t: Tid)
    requires Inv(s) && Enabled(s, Unlock(t))
    ensures Sees(Alone(Step(s, Lock(t)), t, 4), t, Thread(Idle, s.threads[t].depth + 1, true), 0, s.semLock, t,
                 s.threads[t].depth + 1)
  {
    assert ThreadOk(s, t);
    hide Alone;
    var s0 := Step(s, Lock(t));
    AloneNext(s0, t, 4);
    var s1 := NextStep(s0, t);
    AloneNext(s1, t, 3);
    NestedLocks(NextStep(s1, t), t, s.threads[t].depth, s.semLock);
  }

  lemma NestedLocks(s: State, t: Tid, depth: nat, semLock: Option<Tid>)
    requires Sees(s, t, Thread(IncRead, depth, true), 0, semLock, t, depth)
    ensures Sees(Alone(s, t, 2), t, Thread(Idle, depth + 1, true), 0, semLock, t, depth + 1)
  {
    AloneNext(s, t, 2);
    var s1 := NextStep(s, t);
    AloneNext(s1, t, 1);
  }

  /** And so do its unlocks but the last. */
  lemma NestedUnlockReturns(s: State, t: Tid)
    requires Inv(s) && Enabled(s, Unlock(t)) && s.threads[t].depth > 1
    ensures Sees(Alone(Step(s, Unlock(t)), t, 4), t, Thread(Idle, s.threads[t].depth - 1, true), 0, s.semLock, t,
                 s.threads[t].depth - 1)
  {
    assert ThreadOk(s, t);
    hide Alone;
    var s0 := Step(s, Unlock(t));
    AloneNext(s0, t, 4);
    var s1 := NextStep(s0, t);
    AloneNext(s1, t, 3);
    NestedUnlocks(NextStep(s1, t), t, s.threads[t].depth, s.semLock);
  }

  lemma NestedUnlocks(s: State, t: Tid, depth: nat, semLock: Option<Tid>)
    requires Sees(s, t, Thread(DecRead, depth, true), 0, semLock, t, depth) && depth > 1
    ensures Sees(Alone(s, t, 2), t, Thread(Idle, depth - 1, true), 0, semLock, t, depth - 1)
  {
    AloneNext(s, t, 2);
    var s1 := NextStep(s, t);
    AloneNext(s1, t, 1);
  }
}
