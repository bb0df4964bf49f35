/**
 wait_queue of kernel/ipc.cc: timeouts are kept as differences from the waiter in front.
 `Due` is the meaning of the encoding; the queue operations are given as functions on the list,
 and the class below implements them with the loops of the source.
 */
module WaitQueue {
  import opened Common

  type Task = nat

  /** A waiting task and its `sleep_ticks`. */
  datatype Waiter = Waiter(task: Task, sleepTicks: int)

  type Queue = seq<Waiter>

  predicate Waiting(q: Queue, p: Task) {
    exists i :: 0 <= i < |q| && q[i].task == p
  }

  ghost predicate Unique(q: Queue) {
    forall i, j :: 0 <= i < j < |q| ==> q[i].task != q[j].task
  }

  /** The sum of `sleep_ticks` up to and including position `i`. */
  function Prefix(q: Queue, i: nat): int
    requires i < |q|
  {
    if i == 0 then q[0].sleepTicks else Prefix(q, i - 1) + q[i].sleepTicks
  }

  /** Every delta behind the head is non-negative. */
  ghost predicate Ordered(q: Queue) {
    forall i :: 1 <= i < |q| ==> q[i].sleepTicks >= 0
  }

  ghost predicate Valid(q: Queue) {
    Unique(q) && Ordered(q)
  }

  // ------------------------------------------------------------------ the operations on the list

  /** Where `_add_to_me` stops: the first position whose prefix sum exceeds `ticks`, else the end. */
  function Slot(q: Queue, ticks: int): (k: nat)
    ensures k <= |q|
    ensures forall i :: 0 <= i < k ==> Prefix(q, i) <= ticks
    ensures k < |q| ==> Prefix(q, k) > ticks
  {
    SlotFrom(q, ticks, 0)
  }

  function SlotFrom(q: Queue, ticks: int, i: nat): (k: nat)
    requires i <= |q| && forall j :: 0 <= j < i ==> Prefix(q, j) <= ticks
    ensures i <= k <= |q|
    ensures forall j :: 0 <= j < k ==> Prefix(q, j) <= ticks
    ensures k < |q| ==> Prefix(q, k) > ticks
    decreases |q| - i
  {
    if i == |q| || Prefix(q, i) > ticks then i else SlotFrom(q, ticks, i + 1)
  }

  /** The prefix sum in front of position `k`. */
  function Before(q: Queue, k: nat): int
    requires k <= |q|
  {
    if k == 0 then 0 else Prefix(q, k - 1)
  }

  /** _add_to_me */
  function Insert(q: Queue, p: Task, ticks: int): Queue {
    var k := Slot(q, ticks);
    var d := ticks - Before(q, k);
    if k == |q| then q + [Waiter(p, d)]
    else q[..k] + [Waiter(p, d), Waiter(q[k].task, q[k].sleepTicks - d)] + q[k + 1..]
  }

  /** _del_from_me at position `k`: the one behind inherits the delta. */
  function DeleteAt(q: Queue, k: nat): Queue
    requires k < |q|
  {
    if k + 1 == |q| then q[..k]
    else q[..k] + [Waiter(q[k + 1].task, q[k + 1].sleepTicks + q[k].sleepTicks)] + q[k + 2..]
  }

  /** One timer tick of ipc_check_waitqueues on one queue: at most the head is woken. */
  function Tick(q: Queue): (Queue, Option<Task>) {
    if q == [] then (q, None)
    else
      var q' := q[0 := Waiter(q[0].task, q[0].sleepTicks - 1)];
      if q'[0].sleepTicks <= 0 then (DeleteAt(q', 0), Some(q[0].task)) else (q', None)
  }

  // ------------------------------------------------------------------ prefix sums

  lemma {:induction false} PrefixEqual(q: Queue, q': Queue, i: nat)
    requires i < |q| && i < |q'| && forall j :: 0 <= j <= i ==> q[j].sleepTicks == q'[j].sleepTicks
    ensures Prefix(q, i) == Prefix(q', i)
  {
    if i > 0 {
      PrefixEqual(q, q', i - 1);
    }
  }

  /** Equal suffixes keep their prefix sums once they agree at one place. */
  lemma {:induction false} PrefixShift(q: Queue, q': Queue, a: nat, b: nat, i: nat, c: int)
    requires a <= i < |q| && b + (i - a) < |q'| && Prefix(q', b) == Prefix(q, a) + c
    requires forall j :: a < j <= i ==> q'[b + (j - a)].sleepTicks == q[j].sleepTicks
    ensures Prefix(q', b + (i - a)) == Prefix(q, i) + c
  {
    if i > a {
      PrefixShift(q, q', a, b, i - 1, c);
      assert q'[b + (i - a)].sleepTicks == q[i].sleepTicks;
    }
  }

  /** Prefix sums never decrease along the queue. */
  lemma {:induction false} PrefixMonotone(q: Queue, i: nat, j: nat)
    requires Ordered(q) && i <= j < |q|
    ensures Prefix(q, i) <= Prefix(q, j)
  {
    if i < j {
      PrefixMonotone(q, i, j - 1);
    }
  }

  // ------------------------------------------------------------------ what each operation does to each waiter

  /** Position of a waiter after an insertion at `k`. */
  function Shifted(i: nat, k: nat): nat {
    if i < k then i else i + 1
  }

  /** The new waiter is due after its own ticks; nobody else's due time moves. */
  lemma InsertDue(q: Queue, p: Task, ticks: int, i: nat)
    requires i < |q|
    ensures var k, q' := Slot(q, ticks), Insert(q, p, ticks);
            && |q'| == |q| + 1 && q'[k].task == p && Prefix(q', k) == ticks
            && q'[Shifted(i, k)].task == q[i].task && Prefix(q', Shifted(i, k)) == Prefix(q, i)
  {
    var k, q' := Slot(q, ticks), Insert(q, p, ticks);
    if i < k {
      PrefixEqual(q, q', i);
    }
    if k > 0 {
      PrefixEqual(q, q', k - 1);
    }
    assert Prefix(q', k) == ticks;
    if i >= k {
      assert Prefix(q', k + 1) == Prefix(q, k);
      PrefixShift(q, q', k, k + 1, i, 0);
    }
  }

  lemma InsertValid(q: Queue, p: Task, ticks: int)
    requires Valid(q) && !Waiting(q, p)
    ensures Valid(Insert(q, p, ticks))
  {
    var k, q' := Slot(q, ticks), Insert(q, p, ticks);
    forall i, j | 0 <= i < j < |q'|
      ensures q'[i].task != q'[j].task
    {
      assert i < k ==> q'[i].task == q[i].task;
      assert i > k ==> q'[i].task == q[i - 1].task;
      assert j > k ==> q'[j].task == q[j - 1].task;
    }
  }

  /** Deleting a waiter leaves every other due time as it was. */
  lemma DeleteDue(q: Queue, k: nat, i: nat)
    requires k < |q| && i < |q| && i != k
    ensures var q', i' := DeleteAt(q, k), if i < k then i else i - 1;
            |q'| == |q| - 1 && q'[i'].task == q[i].task && Prefix(q', i') == Prefix(q, i)
  {
    var q' := DeleteAt(q, k);
    if i < k {
      PrefixEqual(q, q', i);
    } else {
      if k > 0 {
        PrefixEqual(q, q', k - 1);
      }
      assert Prefix(q', k) == Prefix(q, k + 1);
      PrefixShift(q, q', k + 1, k, i, 0);
    }
  }

  lemma DeleteValid(q: Queue, k: nat)
    requires Valid(q) && k < |q|
    ensures Valid(DeleteAt(q, k))
  {
    var q' := DeleteAt(q, k);
    forall i, j | 0 <= i < j < |q'|
      ensures q'[i].task != q'[j].task
    {
      assert q'[i].task == q[if i < k then i else i + 1].task;
      assert q'[j].task == q[if j < k then j else j + 1].task;
    }
  }

  /** A tick brings every waiter that stays one tick closer, and wakes the head exactly when it is then due. */
  lemma TickDue(q: Queue, i: nat)
    requires i < |q|
    ensures var (q', woken) := Tick(q);
            && (woken.Some? <==> Prefix(q, 0) - 1 <= 0) && (woken.Some? ==> woken.value == q[0].task)
            && |q'| == (if woken.Some? then |q| - 1 else |q|)
            && (woken.None? ==> q'[i].task == q[i].task && Prefix(q', i) == Prefix(q, i) - 1)
            && (woken.Some? && i > 0 ==> q'[i - 1].task == q[i].task && Prefix(q', i - 1) == Prefix(q, i) - 1)
  {
    var q1 := q[0 := Waiter(q[0].task, q[0].sleepTicks - 1)];
    PrefixShift(q, q1, 0, 0, i, -1);
    if q1[0].sleepTicks <= 0 && i > 0 {
      DeleteDue(q1, 0, i);
    }
  }

  lemma TickValid(q: Queue)
    requires Valid(q)
    ensures Valid(Tick(q).0)
  {
    if q != [] {
      var q1 := q[0 := Waiter(q[0].task, q[0].sleepTicks - 1)];
      assert Unique(q1);
      DeleteValid(q1, 0);
    }
  }

  // ------------------------------------------------------------------ runs

  /** Whatever can happen to a queue: a task starts waiting, is taken out, is woken, or the clock ticks. */
  datatype Event = Add(p: Task, ticks: int) | Del(p: Task) | Wake | Clock

  function IndexOf(q: Queue, p: Task): (i: nat)
    requires Waiting(q, p)
    ensures i < |q| && q[i].task == p
  {
    if q[0].task == p then 0 else
      assert exists i :: 0 <= i < |q[1..]| && q[1..][i].task == p by {
        var i :| 0 <= i < |q| && q[i].task == p;
        assert q[1..][i - 1].task == p;
      }
      1 + IndexOf(q[1..], p)
  }

  /** The ticks left before a waiter may be woken by the timer. */
  function Due(q: Queue, p: Task): int
    requires Waiting(q, p)
  {
    Prefix(q, IndexOf(q, p))
  }

  function Step(q: Queue, e: Event): Queue {
    match e
    case Add(p, ticks) => if Waiting(q, p) then q else Insert(q, p, ticks)
    case Del(p) => if Waiting(q, p) then DeleteAt(q, IndexOf(q, p)) else q
    case Wake => if q == [] then q else DeleteAt(q, 0)
    case Clock => Tick(q).0
  }

  function Run(q: Queue, es: seq<Event>): Queue {
    if es == [] then q else Step(Run(q, es[..|es| - 1]), es[|es| - 1])
  }

  function Ticks(es: seq<Event>): nat {
    if es == [] then 0 else Ticks(es[..|es| - 1]) + if es[|es| - 1].Clock? then 1 else 0
  }

  lemma FoundAt(q: Queue, p: Task, i: nat)
    requires Unique(q) && i < |q| && q[i].task == p
    ensures Waiting(q, p) && IndexOf(q, p) == i
  {
    assert q[i].task == p;
  }

  /** One event: a waiter either leaves, or keeps its due time up to the tick; how its position may change. */
  lemma StepKeeps(q: Queue, e: Event, w: Task)
    requires Valid(q) && Waiting(q, w)
    ensures var q' := Step(q, e);
            && Valid(q')
            && (Waiting(q', w) ==>
                  && Due(q', w) == Due(q, w) - (if e.Clock? then 1 else 0)
                  && ((e.Add? && e.ticks < Due(q, w)) || IndexOf(q', w) <= IndexOf(q, w))
                  && (e.Clock? && Due(q, w) <= 1 ==> IndexOf(q', w) + 1 == IndexOf(q, w)))
            && (!Waiting(q', w) ==> e.Wake? || e == Del(w) || (e.Clock? && Due(q, w) <= 1))
  {
    hide Valid;
    var i := IndexOf(q, w);
    match e
    case Add(p, ticks) => StepAdd(q, p, ticks, w);
    case Del(p) =>
      if Waiting(q, p) {
        StepDelete(q, IndexOf(q, p), w);
      }
    case Wake => StepDelete(q, 0, w);
    case Clock => StepClock(q, w);
  }

  lemma StepAdd(q: Queue, p: Task, ticks: int, w: Task)
    requires Valid(q) && Waiting(q, w)
    ensures var q' := Step(q, Add(p, ticks));
            && Valid(q') && Waiting(q', w) && Due(q', w) == Due(q, w)
            && (ticks < Due(q, w) || IndexOf(q', w) <= IndexOf(q, w))
  {
    if !Waiting(q, p) {
      var i, k := IndexOf(q, w), Slot(q, ticks);
      InsertValid(q, p, ticks);
      InsertDue(q, p, ticks, i);
      FoundAt(Insert(q, p, ticks), w, Shifted(i, k));
      if k <= i {
        PrefixMonotone(q, k, i);
      }
    }
  }

  lemma StepDelete(q: Queue, k: nat, w: Task)
    requires Valid(q) && Waiting(q, w) && k < |q|
    ensures var q' := DeleteAt(q, k);
            && Valid(q')
            && (q[k].task != w ==> Waiting(q', w) && Due(q', w) == Due(q, w) && IndexOf(q', w) <= IndexOf(q, w))
            && (q[k].task == w ==> !Waiting(q', w))
  {
    var i, q' := IndexOf(q, w), DeleteAt(q, k);
    DeleteValid(q, k);
    if q[k].task != w {
      DeleteDue(q, k, i);
      FoundAt(q', w, if i < k then i else i - 1);
    } else {
      forall j | 0 <= j < |q'|
        ensures q'[j].task != w
      {
        var j' := if j < k then j else j + 1;
        DeleteDue(q, k, j');
      }
    }
  }

  lemma StepClock(q: Queue, w: Task)
    requires Valid(q) && Waiting(q, w)
    ensures var q' := Tick(q).0;
            && Valid(q')
            && (Waiting(q', w) ==>
                  && Due(q', w) == Due(q, w) - 1 && IndexOf(q', w) <= IndexOf(q, w)
                  && (Due(q, w) <= 1 ==> IndexOf(q', w) + 1 == IndexOf(q, w)))
            && (!Waiting(q', w) ==> Due(q, w) <= 1 && Tick(q).1 == Some(w))
  {
    var i, q' := IndexOf(q, w), Tick(q).0;
    TickValid(q);
    TickDue(q, i);
    PrefixMonotone(q, 0, i);
    if Tick(q).1.None? {
      FoundAt(q', w, i);
    } else if i > 0 {
      FoundAt(q', w, i - 1);
    } else if Waiting(q', w) {
      var j := IndexOf(q', w);
      TickDue(q, j + 1);
      assert false;
    }
  }

  /** `w` has been waiting at every point of the run. */
  ghost predicate Stays(q: Queue, es: seq<Event>, w: Task) {
    forall n :: 0 <= n <= |es| ==> Waiting(Run(q, es[..n]), w)
  }

  lemma StaysPrefix(q: Queue, es: seq<Event>, w: Task, m: nat)
    requires Stays(q, es, w) && m <= |es|
    ensures Stays(q, es[..m], w)
  {
    forall n | 0 <= n <= m
      ensures Waiting(Run(q, es[..m][..n]), w)
    {
      assert es[..m][..n] == es[..n];
    }
  }

  /** Over any run the time left of a waiter drops by exactly the ticks that passed, whatever others do. */
  lemma {:induction false} RunDue(q: Queue, es: seq<Event>, w: Task)
    requires Valid(q) && Stays(q, es, w)
    ensures Waiting(q, w) && Waiting(Run(q, es), w) && Valid(Run(q, es))
    ensures Due(Run(q, es), w) == Due(q, w) - Ticks(es)
  {
    assert es[..0] == [] && es[..|es|] == es;
    if es != [] {
      var m := |es| - 1;
      StaysPrefix(q, es, w, m);
      RunDue(q, es[..m], w);
      StepKeeps(Run(q, es[..m]), es[m], w);
    } else {
      assert Waiting(Run(q, es[..0]), w);
    }
  }

  /** What an event does to the task it is about. */
  lemma StepActs(q: Queue, e: Event)
    requires Valid(q)
    ensures e.Add? && !Waiting(q, e.p) ==> Waiting(Step(q, e), e.p) && Due(Step(q, e), e.p) == e.ticks
    ensures e.Del? ==> !Waiting(Step(q, e), e.p)
    ensures e.Wake? && q != [] ==> !Waiting(Step(q, e), q[0].task) && |Step(q, e)| == |q| - 1
  {
    if e.Add? && !Waiting(q, e.p) {
      InsertFound(q, e.p, e.ticks);
    }
    if e.Del? && Waiting(q, e.p) {
      StepDelete(q, IndexOf(q, e.p), e.p);
    }
    if e.Wake? && q != [] {
      FoundAt(q, q[0].task, 0);
      StepDelete(q, 0, q[0].task);
    }
  }

  /** A waiter that nobody wakes or takes out stays as long as its time has not come, whatever the others do. */
  lemma {:induction false} StaysUntilDue(q: Queue, es: seq<Event>, w: Task)
    requires Valid(q) && Waiting(q, w) && Ticks(es) < Due(q, w)
    requires forall i :: 0 <= i < |es| ==> !es[i].Wake? && es[i] != Del(w)
    ensures Stays(q, es, w)
  {
    if es != [] {
      var m := |es| - 1;
      StaysUntilDue(q, es[..m], w);
      RunDue(q, es[..m], w);
      StepKeeps(Run(q, es[..m]), es[m], w);
      forall n | 0 <= n <= |es| ensures Waiting(Run(q, es[..n]), w) {
        if n < |es| {
          assert es[..m][..n] == es[..n];
        } else {
          assert es[..n] == es;
        }
      }
    } else {
      assert es[..0] == [];
    }
  }

  /** The timer never wakes a waiter before its requested ticks have passed. */
  lemma NeverEarly(q: Queue, p: Task, ticks: int, es: seq<Event>)
    requires Valid(q) && !Waiting(q, p) && Stays(Insert(q, p, ticks), es, p)
    requires Tick(Run(Insert(q, p, ticks), es)).1 == Some(p)
    ensures Ticks(es) + 1 >= ticks
  {
    var q1 := Insert(q, p, ticks);
    InsertValid(q, p, ticks);
    InsertFound(q, p, ticks);
    RunDue(q1, es, p);
    var q2 := Run(q1, es);
    TickDue(q2, 0);
    FoundAt(q2, p, 0);
  }

  lemma InsertFound(q: Queue, p: Task, ticks: int)
    requires Valid(q) && !Waiting(q, p)
    ensures Waiting(Insert(q, p, ticks), p) && Due(Insert(q, p, ticks), p) == ticks
  {
    var k, q' := Slot(q, ticks), Insert(q, p, ticks);
    InsertValid(q, p, ticks);
    FoundAt(q', p, k);
    if q != [] {
      InsertDue(q, p, ticks, 0);
    }
  }

  /** A new waiter goes ahead of `w` exactly if it is due before it. */
  lemma OvertakesExactly(q: Queue, p: Task, ticks: int, w: Task)
    requires Valid(q) && Waiting(q, w) && !Waiting(q, p)
    ensures Waiting(Insert(q, p, ticks), w)
    ensures IndexOf(Insert(q, p, ticks), w) == IndexOf(q, w) + if ticks < Due(q, w) then 1 else 0
  {
    var i := IndexOf(q, w);
    InsertDue(q, p, ticks, i);
    InsertValid(q, p, ticks);
    FoundAt(Insert(q, p, ticks), w, Shifted(i, Slot(q, ticks)));
    var k := Slot(q, ticks);
    if i < k { assert Prefix(q, i) <= ticks; } else { PrefixMonotone(q, k, i); }
  }

  /**
   No task that starts waiting during the run is due before `w`. For an overdue `w`, no wait of length 0 or more is.
   */
  ghost predicate NotOvertaken(q: Queue, es: seq<Event>, w: Task) {
    es != [] ==>
      var m := |es| - 1;
      && NotOvertaken(q, es[..m], w)
      && (es[m].Add? && !Waiting(Run(q, es[..m]), es[m].p) && Waiting(Run(q, es[..m]), w) ==>
            es[m].ticks >= Due(Run(q, es[..m]), w))
  }

  /** Once overdue, nothing gets in front of a waiter and every tick moves it up, although a tick wakes only one. */
  lemma {:induction false} OverdueMovesUp(q: Queue, es: seq<Event>, w: Task)
    requires Valid(q) && NotOvertaken(q, es, w) && Stays(q, es, w) && Waiting(q, w) && Due(q, w) <= 0
    ensures Waiting(Run(q, es), w) && IndexOf(Run(q, es), w) + Ticks(es) <= IndexOf(q, w)
  {
    RunDue(q, es, w);
    if es != [] {
      var m := |es| - 1;
      StaysPrefix(q, es, w, m);
      RunDue(q, es[..m], w);
      OverdueMovesUp(q, es[..m], w);
      StepKeeps(Run(q, es[..m]), es[m], w);
    }
  }

  /** An overdue waiter that nobody overtakes leaves the queue within its position plus one further ticks. */
  lemma LeavesInTime(q: Queue, es: seq<Event>, w: Task)
    requires Valid(q) && NotOvertaken(q, es, w) && Waiting(q, w) && Due(q, w) <= 0
    requires Ticks(es) >= IndexOf(q, w) + 1
    ensures !Stays(q, es, w)
  {
    if Stays(q, es, w) {
      OverdueMovesUp(q, es, w);
    }
  }

  /** Waits of length 0 or more never overtake an overdue waiter. */
  lemma {:induction false} UnsignedWaits(q: Queue, es: seq<Event>, w: Task)
    requires Valid(q) && Stays(q, es, w) && Waiting(q, w) && Due(q, w) <= 0
    requires forall i :: 0 <= i < |es| && es[i].Add? ==> es[i].ticks >= 0
    ensures NotOvertaken(q, es, w)
  {
    if es != [] {
      var m := |es| - 1;
      StaysPrefix(q, es, w, m);
      UnsignedWaits(q, es[..m], w);
      RunDue(q, es[..m], w);
    }
  }

  // ------------------------------------------------------------------ the loops of the source

  class WaitList {
    var queue: Queue
    /** WAIT_QUEUE_WAKEUP_ONE */
    const wakeupOne: bool

    constructor (wakeupOne: bool)
      ensures queue == [] && this.wakeupOne == wakeupOne
    {
      queue := [];
      this.wakeupOne := wakeupOne;
    }

    /** wait_queue::_add_to_me */
    method AddToMe(p: Task, ticks: int)
      requires Valid(queue) && !Waiting(queue, p)
      modifies this
      ensures Valid(queue) && queue == Insert(old(queue), p, ticks)
    {
      InsertValid(queue, p, ticks);
      if queue == [] {
        queue := [Waiter(p, ticks)];
        return;
      }
      var cum, prevCum := 0, 0;
      var pos := 0;
      while pos < |queue|
        invariant 0 <= pos <= |queue| && queue == old(queue) && cum == Before(queue, pos)
        invariant forall i :: 0 <= i < pos ==> Prefix(queue, i) <= ticks
      {
        prevCum := cum;
        cum := cum + queue[pos].sleepTicks;
        if cum > ticks {
          SlotIs(queue, ticks, pos);
          var d := ticks - prevCum;
          var task := queue[pos];
          queue := queue[..pos] + [Waiter(p, d), Waiter(task.task, task.sleepTicks - d)] + queue[pos + 1..];
          return;
        }
        pos := pos + 1;
      }
      SlotIs(queue, ticks, pos);
      queue := queue + [Waiter(p, ticks - cum)];
    }

    /** wait_queue::_del_from_me */
    method DelFromMe(p: Task) returns (ok: bool)
      requires Valid(queue)
      modifies this
      ensures Valid(queue) && ok == old(Waiting(queue, p))
      ensures queue == if ok then DeleteAt(old(queue), IndexOf(old(queue), p)) else old(queue)
    {
      var pos := 0;
      while pos < |queue|
        invariant 0 <= pos <= |queue| && queue == old(queue)
        invariant forall i :: 0 <= i < pos ==> queue[i].task != p
      {
        if queue[pos].task == p {
          FoundAt(queue, p, pos);
          DeleteValid(queue, pos);
          var deleted := queue[pos];
          if pos + 1 < |queue| {
            var next := queue[pos + 1];
            queue := queue[pos + 1 := Waiter(next.task, next.sleepTicks + deleted.sleepTicks)];
          }
          queue := queue[..pos] + queue[pos + 1..];
          return true;
        }
        pos := pos + 1;
      }
      return false;
    }

    /** The locked part of ipc_check_waitqueues for this queue. */
    method CheckTimeout() returns (woken: Option<Task>)
      requires Valid(queue)
      modifies this
      ensures Valid(queue) && (queue, woken) == Tick(old(queue))
    {
      TickValid(queue);
      if queue == [] {
        return None;
      }
      var task := queue[0].task;
      queue := queue[0 := Waiter(task, queue[0].sleepTicks - 1)];
      if queue[0].sleepTicks <= 0 {
        FoundAt(queue, task, 0);
        var ok := DelFromMe(task);
        return Some(task);
      }
      return None;
    }

    /** One turn of wait_queue::wakeup under the lock; the queue may have become empty since the test before it. */
    method WakeTurn() returns (woken: Option<Task>)
      requires Valid(queue)
      modifies this
      ensures Valid(queue) && queue == Step(old(queue), Wake)
      ensures woken == if old(queue) == [] then None else Some(old(queue)[0].task)
    {
      hide Valid, DeleteAt, IndexOf;
      if queue == [] {
        return None;
      }
      var task := queue[0].task;
      HeadGoes(queue);
      var ok := DelFromMe(task);
      return Some(task);
    }

    /** wait_queue::wakeup when nobody else acts between its turns: from the head, one waiter or all of them. */
    method Wakeup() returns (woken: seq<Task>)
      requires Valid(queue)
      modifies this
      ensures Valid(queue) && woken + Tasks(queue) == Tasks(old(queue))
      ensures |woken| == if wakeupOne && old(queue) != [] then 1 else |old(queue)|
    {
      hide Valid, DeleteAt, IndexOf;
      woken := [];
      while queue != []
        invariant Valid(queue) && woken + Tasks(queue) == Tasks(old(queue)) && (wakeupOne ==> woken == [])
        decreases |queue|
      {
        HeadGoes(queue);
        var task := WakeTurn();
        woken := woken + [task.value];
        if wakeupOne {
          return;
        }
      }
    }
  }

  function Tasks(q: Queue): (ts: seq<Task>)
    ensures |ts| == |q|
  {
    seq(|q|, i requires 0 <= i < |q| => q[i].task)
  }

  lemma HeadGoes(q: Queue)
    requires Valid(q) && q != []
    ensures Waiting(q, q[0].task) && IndexOf(q, q[0].task) == 0
    ensures Tasks(q) == [q[0].task] + Tasks(DeleteAt(q, 0))
  {
    FoundAt(q, q[0].task, 0);
  }

  lemma SlotIs(q: Queue, ticks: int, k: nat)
    requires k <= |q| && forall i :: 0 <= i < k ==> Prefix(q, i) <= ticks
    requires k < |q| ==> Prefix(q, k) > ticks
    ensures Slot(q, ticks) == k
  {
  }
}
