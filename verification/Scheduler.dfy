/**
 The run queues of kernel/sched_task.cc and the wait and wakeup protocol of kernel/ipc.cc on any number of CPUs and
 tasks. A task that waits puts itself on a wait queue under `g_global_lock` and hands the lock to `_schedule`, which
 releases it once `current_cpu` is cleared; until then nobody can wake the task. Each `_schedule` is one step.
 */
module Scheduler {
  import opened Common

  type Task = nat

  /** The scheduling fields of a task; `currentCpu` is None for 0xffff, `onRunq` is `run_queue.next != 0`. */
  datatype Info = Info(running: bool, currentCpu: Option<nat>, onRunq: bool, allocatedCpu: nat)

  /** One g_cpu_state: the current task (None: the idle task), the run queue, and whether `sched_lock` is set. */
  datatype Cpu = Cpu(current: Option<Task>, runQueue: seq<Task>, schedLock: bool)

  /** Where a task really is; a history variable that no step reads. */
  datatype Place = OnCpu(c: nat) | OnRunQueue(c: nat) | OnWaitQueue(q: nat) | Leaving(c: nat, q: nat)

  /** `bug`: some BUG() guard has fired. */
  datatype State = State(cpus: seq<Cpu>, active: seq<bool>, waitQueues: seq<seq<Task>>, tasks: map<Task, Info>,
                         globalLock: Option<nat>, bug: bool, place: map<Task, Place>)

  /** Boot: every CPU runs its idle task. */
  function Init(active: seq<bool>, queues: nat): State {
    State(seq(|active|, i => Cpu(None, [], false)), active, seq(queues, i => []), map[], None, false, map[])
  }

  datatype Action =
    | Clone(p: Task, allocatedCpu: nat)     // the end of SYS_sc_clone
    | Yield(c: nat)                         // sc_schedule by the running task, or at the end of its time slice
    | Wait(c: nat, q: nat, i: nat)          // wait_internal up to sc_schedule; `i`: where _add_to_me puts the task
    | Leave(c: nat)                         // the sc_schedule of wait_internal
    | Wakeup(q: nat)                        // one turn of wait_queue::wakeup, or a timeout in ipc_check_waitqueues

  ghost predicate Enabled(s: State, a: Action) {
    && |s.active| == |s.cpus|
    && match a
       case Clone(p, cpu) => s.globalLock.None? && p !in s.tasks && cpu < |s.cpus|
       case Yield(c) =>
         && c < |s.cpus| && !s.cpus[c].schedLock
         && (s.cpus[c].current.Some? ==> s.cpus[c].current.value in s.tasks)
       case Wait(c, q, i) =>
         && c < |s.cpus| && !s.cpus[c].schedLock && s.globalLock.None? && q < |s.waitQueues|
         && i <= |s.waitQueues[q]| && s.cpus[c].current.Some? && s.cpus[c].current.value in s.tasks
       case Leave(c) =>
         && c < |s.cpus| && s.cpus[c].schedLock
         && (s.cpus[c].current.Some? ==> s.cpus[c].current.value in s.tasks)
       case Wakeup(q) =>
         && s.globalLock.None? && q < |s.waitQueues| && s.waitQueues[q] != []
         && s.waitQueues[q][0] in s.tasks
  }

  /** add_to_runqueue on CPU `c`, with its two guards. */
  function AddToRunQueue(s: State, p: Task, c: nat): State
    requires p in s.tasks && c < |s.cpus|
  {
    var t := s.tasks[p];
    if t.onRunq || t.currentCpu.Some? then s.(bug := true)
    else s.(cpus := s.cpus[c := s.cpus[c].(runQueue := s.cpus[c].runQueue + [p])],
            tasks := s.tasks[p := t.(running := true, onRunq := true)],
            place := s.place[p := OnRunQueue(c)])
  }

  /** sc_task_assign_to_cpu: the allocated CPU, or CPU 0 when that one is not active. */
  function AssignToCpu(s: State, p: Task): State
    requires p in s.tasks && 0 < |s.cpus| == |s.active| && s.tasks[p].allocatedCpu < |s.cpus|
  {
    var c := if s.active[s.tasks[p].allocatedCpu] then s.tasks[p].allocatedCpu else 0;
    AddToRunQueue(s.(tasks := s.tasks[p := s.tasks[p].(allocatedCpu := c)]), p, c)
  }

  predicate Runnable(s: State, t: Option<Task>)
    requires t.Some? ==> t.value in s.tasks
  {
    t.None? || s.tasks[t.value].running
  }

  /** What `_schedule` picks: the head of its own run queue, else the idle task, else whoever runs. */
  function PickNext(s: State, c: nat): Option<Task>
    requires c < |s.cpus| == |s.active|
    requires s.cpus[c].current.Some? ==> s.cpus[c].current.value in s.tasks
  {
    if c != 0 && !s.active[c] then None
    else if s.cpus[c].runQueue != [] then Some(s.cpus[c].runQueue[0])
    else if Runnable(s, s.cpus[c].current) then s.cpus[c].current
    else None
  }

  /** del_from_runqueue of the picked task. */
  function Dequeue(s: State, c: nat): State
    requires c < |s.cpus| == |s.active|
  {
    if (c != 0 && !s.active[c]) || s.cpus[c].runQueue == [] then s
    else
      var t := s.cpus[c].runQueue[0];
      s.(cpus := s.cpus[c := s.cpus[c].(runQueue := s.cpus[c].runQueue[1..])],
         tasks := if t in s.tasks then s.tasks[t := s.tasks[t].(onRunq := false)] else s.tasks)
  }

  /** A runnable task that loses its CPU goes to the back of that CPU's run queue. */
  function Requeue(s: State, c: nat, prev: Task): State
    requires c < |s.cpus| && prev in s.tasks
  {
    if !s.tasks[prev].running then s
    else if s.tasks[prev].onRunq then s.(bug := true)
    else AddToRunQueue(s.(tasks := s.tasks[prev := s.tasks[prev].(currentCpu := None)]), prev, c)
  }

  function SetCurrentCpu(s: State, t: Option<Task>, cpu: Option<nat>): State {
    if t.Some? && t.value in s.tasks then s.(tasks := s.tasks[t.value := s.tasks[t.value].(currentCpu := cpu)]) else s
  }

  /** sc_schedule and _schedule on CPU `c`. */
  function Schedule(s: State, c: nat): State
    requires c < |s.cpus| == |s.active|
    requires s.cpus[c].current.Some? ==> s.cpus[c].current.value in s.tasks
  {
    var prev, next := s.cpus[c].current, PickNext(s, c);
    var corrupted := prev.Some? && s.tasks[prev.value].currentCpu != Some(c);
    var s1 := Dequeue(s.(bug := s.bug || corrupted), c);
    if prev == next then s1.(bug := s1.bug || !Runnable(s1, prev))
    else
      var s2 := if prev.Some? && prev.value in s1.tasks then Requeue(s1, c, prev.value) else s1;
      var s3 := SetCurrentCpu(SetCurrentCpu(s2, next, Some(c)), prev, None);
      s3.(cpus := s3.cpus[c := s3.cpus[c].(current := next, schedLock := false)],
          globalLock := if s.cpus[c].schedLock then None else s.globalLock,
          place := Moved(s3.place, prev, next, c))
  }

  /** The history: the next task is on the CPU, a task that was leaving has left. */
  function Moved(place: map<Task, Place>, prev: Option<Task>, next: Option<Task>, c: nat): map<Task, Place> {
    var p1 := if prev.Some? && prev.value in place && place[prev.value].Leaving?
              then place[prev.value := OnWaitQueue(place[prev.value].q)] else place;
    if next.Some? then p1[next.value := OnCpu(c)] else p1
  }

  /** The head leaves the wait queue and is assigned to a CPU; a waiter that is still on a run queue is a bug. */
  function WakeHead(s: State, q: nat): State
    requires q < |s.waitQueues| && s.waitQueues[q] != [] && s.waitQueues[q][0] in s.tasks
    requires 0 < |s.cpus| == |s.active|
  {
    var t := s.waitQueues[q][0];
    var s1 := s.(waitQueues := s.waitQueues[q := s.waitQueues[q][1..]]);
    if s.tasks[t].onRunq || s.tasks[t].allocatedCpu >= |s.cpus| then s1.(bug := true) else AssignToCpu(s1, t)
  }

  function Step(s: State, a: Action): State
    requires Enabled(s, a) && 0 < |s.cpus|
  {
    match a
    case Clone(p, cpu) => AssignToCpu(s.(tasks := s.tasks[p := Info(true, None, false, cpu)]), p)
    case Yield(c) => Schedule(s, c)
    case Wait(c, q, i) =>
      var t := s.cpus[c].current.value;
      s.(globalLock := Some(c), cpus := s.cpus[c := s.cpus[c].(schedLock := true)],
         tasks := s.tasks[t := s.tasks[t].(running := false)],
         waitQueues := s.waitQueues[q := s.waitQueues[q][..i] + [t] + s.waitQueues[q][i..]],
         place := s.place[t := Leaving(c, q)])
    case Leave(c) => Schedule(s, c)
    case Wakeup(q) => WakeHead(s, q)
  }

  // ------------------------------------------------------------------ the invariant

  predicate Schedulable(s: State, c: nat) {
    c < |s.cpus| == |s.active| && (c == 0 || s.active[c])
  }

  /** The fields of a task agree with the place it is in. */
  ghost predicate TaskOk(s: State, t: Task)
    requires t in s.tasks
  {
    && t in s.place
    && var i := s.tasks[t];
       match s.place[t]
       case OnCpu(c) =>
         Schedulable(s, c) && s.cpus[c].current == Some(t) && !s.cpus[c].schedLock && i == Info(true, Some(c), false, c)
       case OnRunQueue(c) =>
         Schedulable(s, c) && t in s.cpus[c].runQueue && i == Info(true, None, true, c)
       case OnWaitQueue(q) =>
         q < |s.waitQueues| && t in s.waitQueues[q] && i == Info(false, None, false, i.allocatedCpu)
           && i.allocatedCpu < |s.cpus|
       case Leaving(c, q) =>
         && Schedulable(s, c) && s.cpus[c].current == Some(t) && s.cpus[c].schedLock
         && q < |s.waitQueues| && t in s.waitQueues[q] && i == Info(false, Some(c), false, c)
  }

  ghost predicate RunQueueOk(s: State, c: nat)
    requires c < |s.cpus|
  {
    && Distinct(s.cpus[c].runQueue)
    && (forall t :: t in s.cpus[c].runQueue ==> t in s.tasks && t in s.place && s.place[t] == OnRunQueue(c))
  }

  /** The current task is where it should be, and `sched_lock` is set exactly on the CPU that holds the lock. */
  ghost predicate CurrentOk(s: State, c: nat)
    requires c < |s.cpus|
  {
    && (s.cpus[c].current.Some? ==>
          var t := s.cpus[c].current.value;
          && t in s.tasks && t in s.place
          && (if s.cpus[c].schedLock then s.place[t].Leaving? && s.place[t].c == c else s.place[t] == OnCpu(c)))
    && (s.cpus[c].schedLock <==> s.globalLock == Some(c))
    && (s.cpus[c].schedLock ==> s.cpus[c].current.Some?)
  }

  ghost predicate CpuOk(s: State, c: nat)
    requires c < |s.cpus|
  {
    RunQueueOk(s, c) && CurrentOk(s, c)
  }

  ghost predicate QueueOk(s: State, q: nat)
    requires q < |s.waitQueues|
  {
    && Distinct(s.waitQueues[q])
    && forall t :: t in s.waitQueues[q] ==>
         t in s.tasks && t in s.place && (s.place[t] == OnWaitQueue(q) || (s.place[t].Leaving? && s.place[t].q == q))
  }

  ghost predicate Inv(s: State) {
    && !s.bug && 0 < |s.cpus| == |s.active|
    && (forall t :: t in s.tasks ==> TaskOk(s, t))
    && (forall c :: 0 <= c < |s.cpus| ==> CpuOk(s, c))
    && (forall q :: 0 <= q < |s.waitQueues| ==> QueueOk(s, q))
  }

  lemma InitInv(active: seq<bool>, queues: nat)
    requires |active| > 0
    ensures Inv(Init(active, queues))
  {
  }

  // ------------------------------------------------------------------ what _schedule amounts to

  /** A context switch from `prev` to `next` on CPU `c`. */
  function Switch(s: State, c: nat, prev: Option<Task>, next: Option<Task>): State
    requires c < |s.cpus|
    requires prev.Some? ==> prev.value in s.tasks && prev.value in s.place
    requires next.Some? ==> next.value in s.tasks && s.cpus[c].runQueue != []
  {
    var requeue := prev.Some? && s.tasks[prev.value].running;
    var tasks1 := if next.Some?
                  then s.tasks[next.value := s.tasks[next.value].(onRunq := false, currentCpu := Some(c))]
                  else s.tasks;
    var tasks2 := if prev.Some?
                  then tasks1[prev.value := s.tasks[prev.value].(onRunq := requeue, currentCpu := None)]
                  else tasks1;
    var rest := if next.Some? then s.cpus[c].runQueue[1..] else s.cpus[c].runQueue;
    var place1 := if next.Some? then s.place[next.value := OnCpu(c)] else s.place;
    var place2 := if requeue then place1[prev.value := OnRunQueue(c)]
                  else if prev.Some? && s.place[prev.value].Leaving?
                    then place1[prev.value := OnWaitQueue(s.place[prev.value].q)]
                  else place1;
    s.(tasks := tasks2, place := place2,
       cpus := s.cpus[c := Cpu(next, if requeue then rest + [prev.value] else rest, false)],
       globalLock := if s.cpus[c].schedLock then None else s.globalLock)
  }

  /** `Switch` applies: `prev` is the current task, `next` the head of the run queue or, failing one, the idle task. */
  ghost predicate CanSwitch(s: State, c: nat, prev: Option<Task>, next: Option<Task>) {
    && 0 < |s.cpus| == |s.active| && Schedulable(s, c) && CpuOk(s, c) && prev == s.cpus[c].current && prev != next
    && (if s.cpus[c].runQueue == [] then next == None else next == Some(s.cpus[c].runQueue[0]))
    && (prev.Some? ==> TaskOk(s, prev.value))
    && (next.Some? ==> s.cpus[c].runQueue[0] in s.cpus[c].runQueue && TaskOk(s, next.value))
    && (next == None ==> !s.tasks[prev.value].running)
  }

  /** In a state that meets the invariant `_schedule` either keeps the current task or may switch. */
  lemma Picks(s: State, c: nat)
    requires Inv(s) && c < |s.cpus|
    requires s.cpus[c].current.Some? ==> s.cpus[c].current.value in s.tasks
    ensures s.cpus[c].current != PickNext(s, c) ==> CanSwitch(s, c, s.cpus[c].current, PickNext(s, c))
    ensures s.cpus[c].current == PickNext(s, c) ==> Schedule(s, c) == s
  {
    var prev := s.cpus[c].current;
    assert CpuOk(s, c);
    if prev.Some? { assert TaskOk(s, prev.value); }
    if s.cpus[c].runQueue != [] {
      var t := s.cpus[c].runQueue[0];
      assert t in s.cpus[c].runQueue;
      assert TaskOk(s, t);
    }
  }

  /** The three assignments to `current_cpu` and the two queue operations of `_schedule`, taken together. */
  lemma ScheduleSwitches(s: State, c: nat)
    requires !s.bug && c < |s.cpus| == |s.active|
    requires s.cpus[c].current.Some? ==> s.cpus[c].current.value in s.tasks
    requires CanSwitch(s, c, s.cpus[c].current, PickNext(s, c))
    ensures Schedule(s, c) == Switch(s, c, s.cpus[c].current, PickNext(s, c))
  {
    hide Distinct;
    var prev, next := s.cpus[c].current, PickNext(s, c);
    var s1 := Dequeue(s, c);
    assert next.Some? ==> s1.tasks == s.tasks[next.value := s.tasks[next.value].(onRunq := false)];
    assert next.None? ==> s1 == s;
    if prev.Some? && s.tasks[prev.value].running {
      assert Requeue(s1, c, prev.value).cpus[c].runQueue == s1.cpus[c].runQueue + [prev.value];
    }
  }

  lemma SwitchTasks(s: State, c: nat, prev: Option<Task>, next: Option<Task>, t: Task)
    requires CanSwitch(s, c, prev, next) && t in s.tasks && TaskOk(s, t)
    ensures TaskOk(Switch(s, c, prev, next), t)
  {
  }

  lemma SwitchCurrent(s: State, c: nat, prev: Option<Task>, next: Option<Task>)
    requires CanSwitch(s, c, prev, next)
    ensures CurrentOk(Switch(s, c, prev, next), c)
  {
  }

  lemma SwitchRunQueue(s: State, c: nat, prev: Option<Task>, next: Option<Task>)
    requires CanSwitch(s, c, prev, next)
    ensures RunQueueOk(Switch(s, c, prev, next), c)
  {
    hide Distinct;
    var s' := Switch(s, c, prev, next);
    var q, q' := s.cpus[c].runQueue, s'.cpus[c].runQueue;
    if next.Some? { Dropped(q); }
    if prev.Some? && s.tasks[prev.value].running { Appended(if next.Some? then q[1..] else q, prev.value); }
  }

  lemma SwitchCpu(s: State, c: nat, prev: Option<Task>, next: Option<Task>)
    requires CanSwitch(s, c, prev, next)
    ensures CpuOk(Switch(s, c, prev, next), c)
  {
    hide RunQueueOk, CurrentOk;
    SwitchRunQueue(s, c, prev, next);
    SwitchCurrent(s, c, prev, next);
  }

  lemma SwitchOtherCpus(s: State, c: nat, prev: Option<Task>, next: Option<Task>, d: nat)
    requires CanSwitch(s, c, prev, next) && c != d < |s.cpus| && CpuOk(s, d)
    ensures CpuOk(Switch(s, c, prev, next), d)
  {
  }

  lemma SwitchQueues(s: State, c: nat, prev: Option<Task>, next: Option<Task>, q: nat)
    requires CanSwitch(s, c, prev, next) && q < |s.waitQueues| && QueueOk(s, q)
    ensures QueueOk(Switch(s, c, prev, next), q)
  {
  }

  lemma ScheduleInv(s: State, c: nat)
    requires Inv(s) && c < |s.cpus|
    requires s.cpus[c].current.Some? ==> s.cpus[c].current.value in s.tasks
    ensures Inv(Schedule(s, c)) && Schedule(s, c).active == s.active
  {
    Picks(s, c);
    var prev, next := s.cpus[c].current, PickNext(s, c);
    if prev != next {
      ScheduleSwitches(s, c);
      hide TaskOk, CpuOk, QueueOk, PickNext, Schedule;
      var s' := Switch(s, c, prev, next);
      forall t | t in s'.tasks ensures TaskOk(s', t) { SwitchTasks(s, c, prev, next, t); }
      forall d | 0 <= d < |s'.cpus| ensures CpuOk(s', d) {
        if d == c { SwitchCpu(s, c, prev, next); } else { SwitchOtherCpus(s, c, prev, next, d); }
      }
      forall q | 0 <= q < |s'.waitQueues| ensures QueueOk(s', q) { SwitchQueues(s, c, prev, next, q); }
    }
  }

  // ------------------------------------------------------------------ clone, wait and wakeup

  /** Task `p`, new or off its wait queue, arrives on the run queue of CPU `c`. */
  function Arrive(s: State, p: Task, c: nat, waitQueues: seq<seq<Task>>): State
    requires c < |s.cpus|
  {
    s.(cpus := s.cpus[c := s.cpus[c].(runQueue := s.cpus[c].runQueue + [p])], waitQueues := waitQueues,
       tasks := s.tasks[p := Info(true, None, true, c)], place := s.place[p := OnRunQueue(c)])
  }

  ghost predicate CanArrive(s: State, p: Task, c: nat, waitQueues: seq<seq<Task>>) {
    && 0 < |s.cpus| == |s.active| && Schedulable(s, c) && |waitQueues| == |s.waitQueues|
    && (p in s.tasks ==> p in s.place && s.place[p].OnWaitQueue?)
    && (forall q :: 0 <= q < |waitQueues| ==> Distinct(waitQueues[q]))
    && (forall q, u :: 0 <= q < |waitQueues| ==> (u in waitQueues[q] <==> u in s.waitQueues[q] && u != p))
  }

  lemma ArriveTasks(s: State, p: Task, c: nat, waitQueues: seq<seq<Task>>, t: Task)
    requires CanArrive(s, p, c, waitQueues) && (t == p || (t in s.tasks && TaskOk(s, t)))
    ensures TaskOk(Arrive(s, p, c, waitQueues), t)
  {
    assert p in s.cpus[c].runQueue + [p];
    assert forall u :: u in s.cpus[c].runQueue ==> u in s.cpus[c].runQueue + [p];
  }

  lemma ArriveCpus(s: State, p: Task, c: nat, waitQueues: seq<seq<Task>>, d: nat)
    requires CanArrive(s, p, c, waitQueues) && d < |s.cpus| && CpuOk(s, d)
    ensures CpuOk(Arrive(s, p, c, waitQueues), d)
  {
    if d == c { Appended(s.cpus[c].runQueue, p); }
  }

  lemma ArriveQueues(s: State, p: Task, c: nat, waitQueues: seq<seq<Task>>, q: nat)
    requires CanArrive(s, p, c, waitQueues) && q < |s.waitQueues| && QueueOk(s, q)
    ensures QueueOk(Arrive(s, p, c, waitQueues), q)
  {
  }

  lemma ArriveInv(s: State, p: Task, c: nat, waitQueues: seq<seq<Task>>)
    requires Inv(s) && CanArrive(s, p, c, waitQueues)
    ensures Inv(Arrive(s, p, c, waitQueues))
  {
    hide TaskOk, CpuOk, QueueOk, CanArrive;
    ArriveShape(s, p, c, waitQueues);
    var s' := Arrive(s, p, c, waitQueues);
    forall t | t in s'.tasks ensures TaskOk(s', t) { ArriveTasks(s, p, c, waitQueues, t); }
    forall d | 0 <= d < |s'.cpus| ensures CpuOk(s', d) { ArriveCpus(s, p, c, waitQueues, d); }
    forall q | 0 <= q < |s'.waitQueues| ensures QueueOk(s', q) { ArriveQueues(s, p, c, waitQueues, q); }
  }

  lemma ArriveShape(s: State, p: Task, c: nat, waitQueues: seq<seq<Task>>)
    requires CanArrive(s, p, c, waitQueues)
    ensures |waitQueues| == |s.waitQueues| && c < |s.cpus|
  {
  }

  lemma CloneInv(s: State, p: Task, cpu: nat)
    requires Inv(s) && Enabled(s, Clone(p, cpu))
    ensures Inv(Step(s, Clone(p, cpu))) && Step(s, Clone(p, cpu)).active == s.active
  {
    var c := if s.active[cpu] then cpu else 0;
    forall q, u | 0 <= q < |s.waitQueues| ensures u in s.waitQueues[q] <==> u in s.waitQueues[q] && u != p {
      assert QueueOk(s, q);
    }
    forall q | 0 <= q < |s.waitQueues| ensures Distinct(s.waitQueues[q]) { assert QueueOk(s, q); }
    ArriveInv(s, p, c, s.waitQueues);
    assert Step(s, Clone(p, cpu)) == Arrive(s, p, c, s.waitQueues);
  }

  lemma LeavingLocks(s: State, t: Task)
    requires Inv(s) && t in s.tasks && t in s.place
    ensures s.place[t].Leaving? ==> s.globalLock == Some(s.place[t].c)
  {
    assert TaskOk(s, t);
    assert s.place[t].Leaving? ==> CpuOk(s, s.place[t].c);
  }

  /** While the lock is free nobody is half-way off a CPU, so the head of a wait queue really waits there. */
  lemma HeadWaits(s: State, q: nat)
    requires Inv(s) && s.globalLock.None? && q < |s.waitQueues| && s.waitQueues[q] != []
    ensures var t := s.waitQueues[q][0];
            t in s.tasks && TaskOk(s, t) && s.place[t] == OnWaitQueue(q)
  {
    var t := s.waitQueues[q][0];
    assert QueueOk(s, q) && t in s.waitQueues[q];
    assert TaskOk(s, t);
    LeavingLocks(s, t);
  }

  lemma WakeupInv(s: State, q: nat)
    requires Inv(s) && Enabled(s, Wakeup(q))
    ensures Inv(Step(s, Wakeup(q))) && Step(s, Wakeup(q)).active == s.active
  {
    HeadWaits(s, q);
    var t, cpu := s.waitQueues[q][0], s.tasks[s.waitQueues[q][0]].allocatedCpu;
    var c := if s.active[cpu] then cpu else 0;
    var waitQueues := s.waitQueues[q := s.waitQueues[q][1..]];
    forall r | 0 <= r < |waitQueues|
      ensures Distinct(waitQueues[r]) && forall u :: u in waitQueues[r] <==> u in s.waitQueues[r] && u != t
    {
      assert QueueOk(s, r);
      if r == q { Dropped(s.waitQueues[q]); }
    }
    ArriveInv(s, t, c, waitQueues);
    assert Step(s, Wakeup(q)) == Arrive(s, t, c, waitQueues);
  }

  /** A task inserted anywhere into a queue that does not hold it. */
  lemma Inserted(q: seq<Task>, i: nat, t: Task)
    requires Distinct(q) && t !in q && i <= |q|
    ensures Distinct(q[..i] + [t] + q[i..]) && forall u :: u in q[..i] + [t] + q[i..] <==> u in q || u == t
  {
    assert q == q[..i] + q[i..];
  }

  lemma WaitTasks(s: State, c: nat, q: nat, i: nat, t: Task)
    requires Enabled(s, Wait(c, q, i)) && 0 < |s.cpus| && CpuOk(s, c) && QueueOk(s, q) && t in s.tasks && TaskOk(s, t)
    requires TaskOk(s, s.cpus[c].current.value)
    ensures TaskOk(Step(s, Wait(c, q, i)), t)
  {
    Inserted(s.waitQueues[q], i, s.cpus[c].current.value);
  }

  lemma WaitCpus(s: State, c: nat, q: nat, i: nat, d: nat)
    requires Enabled(s, Wait(c, q, i)) && 0 < |s.cpus| && CpuOk(s, c) && d < |s.cpus| && CpuOk(s, d)
    ensures CpuOk(Step(s, Wait(c, q, i)), d)
  {
  }

  lemma WaitQueues(s: State, c: nat, q: nat, i: nat, r: nat)
    requires Enabled(s, Wait(c, q, i)) && 0 < |s.cpus| && CpuOk(s, c) && r < |s.waitQueues| && QueueOk(s, r)
    ensures QueueOk(Step(s, Wait(c, q, i)), r)
  {
    if r == q { Inserted(s.waitQueues[q], i, s.cpus[c].current.value); }
  }

  lemma WaitInv(s: State, c: nat, q: nat, i: nat)
    requires Inv(s) && Enabled(s, Wait(c, q, i))
    ensures Inv(Step(s, Wait(c, q, i))) && Step(s, Wait(c, q, i)).active == s.active
  {
    hide TaskOk, CpuOk, QueueOk;
    var s' := Step(s, Wait(c, q, i));
    forall t | t in s'.tasks ensures TaskOk(s', t) { WaitTasks(s, c, q, i, t); }
    forall d | 0 <= d < |s'.cpus| ensures CpuOk(s', d) { WaitCpus(s, c, q, i, d); }
    forall r | 0 <= r < |s'.waitQueues| ensures QueueOk(s', r) { WaitQueues(s, c, q, i, r); }
  }

  // ------------------------------------------------------------------ every run

  lemma StepInv(s: State, a: Action)
    requires Inv(s) && Enabled(s, a)
    ensures Inv(Step(s, a)) && Step(s, a).active == s.active
  {
    hide TaskOk, CpuOk, QueueOk;
    match a
    case Clone(p, cpu) => CloneInv(s, p, cpu);
    case Yield(c) => ScheduleInv(s, c);
    case Wait(c, q, i) => WaitInv(s, c, q, i);
    case Leave(c) => ScheduleInv(s, c);
    case Wakeup(q) => WakeupInv(s, q);
  }

  ghost predicate IsRun(active: seq<bool>, queues: nat, acts: seq<Action>, s: State) {
    if acts == [] then s == Init(active, queues)
    else
      var m := |acts| - 1;
      exists s0 :: IsRun(active, queues, acts[..m], s0) && Enabled(s0, acts[m]) && 0 < |s0.cpus|
        && s == Step(s0, acts[m])
  }

  lemma {:induction false} RunInv(active: seq<bool>, queues: nat, acts: seq<Action>, s: State)
    requires |active| > 0 && IsRun(active, queues, acts, s)
    ensures Inv(s) && s.active == active
    decreases |acts|
  {
    if acts == [] {
      InitInv(active, queues);
    } else {
      var m := |acts| - 1;
      var s0 :| IsRun(active, queues, acts[..m], s0) && Enabled(s0, acts[m]) && 0 < |s0.cpus| && s == Step(s0, acts[m]);
      RunInv(active, queues, acts[..m], s0);
      StepInv(s0, acts[m]);
    }
  }

  // Where a task is, read off the machine without looking at the history.

  predicate Running(s: State, t: Task, c: nat) {
    c < |s.cpus| && s.cpus[c].current == Some(t)
  }

  predicate Queued(s: State, t: Task, c: nat) {
    c < |s.cpus| && t in s.cpus[c].runQueue
  }

  predicate Waiting(s: State, t: Task, q: nat) {
    q < |s.waitQueues| && t in s.waitQueues[q]
  }

  lemma RunningPlace(s: State, t: Task, c: nat)
    requires Inv(s) && t in s.tasks
    ensures Running(s, t, c) <==> t in s.place && (s.place[t].OnCpu? || s.place[t].Leaving?) && s.place[t].c == c
  {
    assert TaskOk(s, t) && (c < |s.cpus| ==> CpuOk(s, c));
  }

  lemma QueuedPlace(s: State, t: Task, c: nat)
    requires Inv(s) && t in s.tasks
    ensures Queued(s, t, c) <==> t in s.place && s.place[t] == OnRunQueue(c)
  {
    assert TaskOk(s, t) && (c < |s.cpus| ==> CpuOk(s, c));
  }

  lemma WaitingPlace(s: State, t: Task, q: nat)
    requires Inv(s) && t in s.tasks
    ensures Waiting(s, t, q) <==> t in s.place && (s.place[t].OnWaitQueue? || s.place[t].Leaving?) && s.place[t].q == q
  {
    assert TaskOk(s, t) && (q < |s.waitQueues| ==> QueueOk(s, q));
  }

  /**
   Whatever the interleaving, no BUG() guard has fired, and every task is in exactly one place: current on one CPU, on
   the run queue of its allocated CPU, or on one wait queue. The one overlap is the task that has just queued itself
   and still holds the lock for `_schedule`.
   */
  lemma Exclusive(active: seq<bool>, queues: nat, acts: seq<Action>, s: State, t: Task)
    requires |active| > 0 && IsRun(active, queues, acts, s) && t in s.tasks
    ensures !s.bug
    ensures (exists c: nat :: Running(s, t, c)) || (exists c: nat :: Queued(s, t, c))
            || (exists q: nat :: Waiting(s, t, q))
    ensures forall c: nat, d: nat :: Running(s, t, c) && Running(s, t, d) ==> c == d
    ensures forall c: nat, d: nat :: Queued(s, t, c) && Queued(s, t, d) ==> c == d
    ensures forall q: nat, r: nat :: Waiting(s, t, q) && Waiting(s, t, r) ==> q == r
    ensures forall c: nat, d: nat :: Running(s, t, c) ==> !Queued(s, t, d)
    ensures forall c: nat, q: nat :: Queued(s, t, c) ==> !Waiting(s, t, q)
    ensures forall c: nat, q: nat :: Running(s, t, c) && Waiting(s, t, q) ==> s.globalLock == Some(c)
    ensures forall c: nat :: Queued(s, t, c) ==> s.tasks[t].allocatedCpu == c < |active| && (c == 0 || active[c])
  {
    RunInv(active, queues, acts, s);
    forall c: nat
      ensures Running(s, t, c) <==> t in s.place && (s.place[t].OnCpu? || s.place[t].Leaving?) && s.place[t].c == c
    {
      RunningPlace(s, t, c);
    }
    forall c: nat ensures Queued(s, t, c) <==> t in s.place && s.place[t] == OnRunQueue(c) { QueuedPlace(s, t, c); }
    forall q: nat
      ensures Waiting(s, t, q) <==>
              t in s.place && (s.place[t].OnWaitQueue? || s.place[t].Leaving?) && s.place[t].q == q
    {
      WaitingPlace(s, t, q);
    }
    assert TaskOk(s, t);
    LeavingLocks(s, t);
    hide Inv, Running, Queued, Waiting;
    Somewhere(s, t);
  }

  lemma Somewhere(s: State, t: Task)
    requires Inv(s) && t in s.tasks
    ensures (exists c: nat :: Running(s, t, c)) || (exists c: nat :: Queued(s, t, c))
            || (exists q: nat :: Waiting(s, t, q))
  {
    assert TaskOk(s, t);
    match s.place[t]
    case OnCpu(c) => RunningPlace(s, t, c);
    case Leaving(c, _) => RunningPlace(s, t, c);
    case OnRunQueue(c) => QueuedPlace(s, t, c);
    case OnWaitQueue(q) => WaitingPlace(s, t, q);
  }

  /** Nobody is listed twice in a queue. */
  lemma QueuedOnce(active: seq<bool>, queues: nat, acts: seq<Action>, s: State)
    requires |active| > 0 && IsRun(active, queues, acts, s)
    ensures forall c :: 0 <= c < |s.cpus| ==> Distinct(s.cpus[c].runQueue)
    ensures forall q :: 0 <= q < |s.waitQueues| ==> Distinct(s.waitQueues[q])
  {
    RunInv(active, queues, acts, s);
    forall c | 0 <= c < |s.cpus| ensures Distinct(s.cpus[c].runQueue) { assert CpuOk(s, c); }
    forall q | 0 <= q < |s.waitQueues| ensures Distinct(s.waitQueues[q]) { assert QueueOk(s, q); }
  }

  /** Why the lock is handed over: were it free before `current_cpu` is cleared, a wakeup would hit the guard. */
  lemma EarlyReleaseIsFatal(s: State, c: nat, q: nat)
    requires Inv(s) && Enabled(s, Wait(c, q, 0))
    ensures var s1 := Step(s, Wait(c, q, 0)).(globalLock := None);
            Enabled(s1, Wakeup(q)) && Step(s1, Wakeup(q)).bug
  {
    var t := s.cpus[c].current.value;
    assert CpuOk(s, c) && TaskOk(s, t);
    assert s.waitQueues[q][..0] + [t] + s.waitQueues[q][0..] == [t] + s.waitQueues[q];
  }

  // ------------------------------------------------------------------ who runs next

  /**
   `_schedule` gives the CPU to the task that has been on the run queue longest, with the current task behind all others
   if it can go on; only an empty run queue lets the current task keep the CPU. Nothing else moves.
   */
  lemma TakesTurn(s: State, c: nat)
    requires Inv(s) && c < |s.cpus|
    requires s.cpus[c].current.Some? ==> s.cpus[c].current.value in s.tasks
    ensures var q, prev, s' := s.cpus[c].runQueue, s.cpus[c].current, Schedule(s, c);
            var on := prev.Some? && s.tasks[prev.value].running;
            && |s'.cpus| == |s.cpus| && s'.waitQueues == s.waitQueues
            && (forall d :: 0 <= d < |s.cpus| && d != c ==> s'.cpus[d] == s.cpus[d])
            && (q != [] ==>
                  s'.cpus[c].current == Some(q[0]) && s'.cpus[c].runQueue == q[1..] + if on then [prev.value] else [])
            && (q == [] ==> s'.cpus[c].runQueue == [] && s'.cpus[c].current == if on then prev else None)
  {
    Picks(s, c);
    assert CpuOk(s, c);
    var q := s.cpus[c].runQueue;
    if q != [] {
      assert q[0] in q && TaskOk(s, q[0]);
    }
    if s.cpus[c].current.Some? {
      assert TaskOk(s, s.cpus[c].current.value);
    }
    if s.cpus[c].current != PickNext(s, c) {
      ScheduleSwitches(s, c);
    }
  }

  predicate Schedules(a: Action, c: nat) {
    a == Yield(c) || a == Leave(c)
  }

  /** A task on a run queue comes one place nearer with every `_schedule` of its CPU and keeps its place otherwise. */
  lemma MovesUp(s: State, a: Action, c: nat, i: nat)
    requires Inv(s) && Enabled(s, a) && c < |s.cpus| && i < |s.cpus[c].runQueue|
    ensures var t, s' := s.cpus[c].runQueue[i], Step(s, a);
            && |s'.cpus| == |s.cpus|
            && (Schedules(a, c) && i == 0 ==> s'.cpus[c].current == Some(t))
            && (Schedules(a, c) && i > 0 ==> i - 1 < |s'.cpus[c].runQueue| && s'.cpus[c].runQueue[i - 1] == t)
            && (!Schedules(a, c) ==> i < |s'.cpus[c].runQueue| && s'.cpus[c].runQueue[i] == t)
  {
    hide Inv, Schedule;
    match a
    case Yield(d) => TakesTurn(s, d);
    case Leave(d) => TakesTurn(s, d);
    case Wakeup(q) => WakeupAssigns(s, q);
    case Clone(p, cpu) => CloneAssigns(s, p, cpu);
    case Wait(_, _, _) =>
  }

  /** The head of the wait queue goes to the back of the run queue of its own CPU, or of CPU 0 if that is not active. */
  lemma WakeupAssigns(s: State, q: nat)
    requires Inv(s) && Enabled(s, Wakeup(q))
    ensures var t, s' := s.waitQueues[q][0], Step(s, Wakeup(q));
            var cpu := s.tasks[t].allocatedCpu;
            && cpu < |s.cpus| && s'.waitQueues == s.waitQueues[q := s.waitQueues[q][1..]]
            && var c := if s.active[cpu] then cpu else 0;
               && s'.cpus == s.cpus[c := s.cpus[c].(runQueue := s.cpus[c].runQueue + [t])]
               && s'.tasks == s.tasks[t := Info(true, None, true, c)]
  {
    HeadWaits(s, q);
  }

  lemma CloneAssigns(s: State, p: Task, cpu: nat)
    requires Inv(s) && Enabled(s, Clone(p, cpu))
    ensures var s', c := Step(s, Clone(p, cpu)), if s.active[cpu] then cpu else 0;
            && s'.waitQueues == s.waitQueues
            && s'.cpus == s.cpus[c := s.cpus[c].(runQueue := s.cpus[c].runQueue + [p])]
            && s'.tasks == s.tasks[p := Info(true, None, true, c)]
  {
  }

  /** The current task joins the wait queue at the place it was given, and nobody else changes places there. */
  lemma WaitJoins(s: State, c: nat, q: nat, i: nat)
    requires Inv(s) && Enabled(s, Wait(c, q, i))
    ensures var t, s' := s.cpus[c].current.value, Step(s, Wait(c, q, i));
            && s'.waitQueues[q][i] == t && s'.waitQueues[q][..i] + s'.waitQueues[q][i + 1..] == s.waitQueues[q]
            && (forall r :: 0 <= r < |s.waitQueues| && r != q ==> s'.waitQueues[r] == s.waitQueues[r])
            && s'.globalLock == Some(c) && !s'.tasks[t].running && s'.cpus[c].current == Some(t)
            && (forall u :: u in s.tasks && u != t ==> u in s'.tasks && s'.tasks[u] == s.tasks[u])
  {
  }

  /** The steps `acts` lead from `s` to `s'`. */
  ghost predicate IsPath(s: State, acts: seq<Action>, s': State)
    decreases |acts|
  {
    if acts == [] then s' == s
    else Enabled(s, acts[0]) && 0 < |s.cpus| && IsPath(Step(s, acts[0]), acts[1..], s')
  }

  function Turns(acts: seq<Action>, c: nat): nat {
    if acts == [] then 0 else (if Schedules(acts[0], c) then 1 else 0) + Turns(acts[1..], c)
  }

  /**
   Round robin: whatever happens on any CPU, a task with `i` tasks before it on a run queue is the current task after
   the `i + 1`st `_schedule` of that CPU, and is on the queue until then.
   */
  lemma {:induction false} RunsInTurn(s: State, acts: seq<Action>, s': State, c: nat, i: nat)
    requires Inv(s) && IsPath(s, acts, s') && c < |s.cpus| && i < |s.cpus[c].runQueue|
    requires Turns(acts, c) <= i + 1
    requires Turns(acts, c) == i + 1 ==> acts != [] && Turns(acts[..|acts| - 1], c) == i
    ensures c < |s'.cpus|
    ensures Turns(acts, c) == i + 1 ==> s'.cpus[c].current == Some(s.cpus[c].runQueue[i])
    ensures Turns(acts, c) <= i ==>
              var j := i - Turns(acts, c);
              j < |s'.cpus[c].runQueue| && s'.cpus[c].runQueue[j] == s.cpus[c].runQueue[i]
    decreases |acts|
  {
    hide Inv, Step, Enabled;
    if acts != [] {
      var a, s1, rest := acts[0], Step(s, acts[0]), acts[1..];
      StepInv(s, a);
      MovesUp(s, a, c, i);
      if rest != [] {
        assert acts[..|acts| - 1] == [a] + rest[..|rest| - 1];
        if Schedules(a, c) {
          LaterTurn(acts, c, i);
          RunsInTurn(s1, rest, s', c, i - 1);
        } else {
          RunsInTurn(s1, rest, s', c, i);
        }
      }
    }
  }

  lemma LaterTurn(acts: seq<Action>, c: nat, i: nat)
    requires |acts| > 1 && Schedules(acts[0], c)
    requires Turns(acts, c) <= i + 1
    requires Turns(acts, c) == i + 1 ==> Turns(acts[..|acts| - 1], c) == i
    ensures i > 0
  {
    var rest := acts[1..];
    assert acts[..|acts| - 1] == [acts[0]] + rest[..|rest| - 1];
  }

  /** The guards of sc_schedule and add_to_runqueue do fire in a state that the protocol never reaches. */
  lemma GuardsFire(s: State, c: nat, p: Task)
    requires c < |s.cpus| == |s.active| && p in s.tasks
    ensures s.cpus[c].current == Some(p) && s.tasks[p].currentCpu != Some(c) ==> Schedule(s, c).bug
    ensures s.tasks[p].onRunq || s.tasks[p].currentCpu.Some? ==> AddToRunQueue(s, p, c).bug
    ensures s.tasks[p].running && s.tasks[p].onRunq ==> Requeue(s, c, p).bug
    ensures forall q :: 0 <= q < |s.waitQueues| && s.waitQueues[q] != [] && s.waitQueues[q][0] == p && s.tasks[p].onRunq
              ==> WakeHead(s, q).bug
  {
  }
}
