/**
 The send path of kernel/network_sched.cc: any number of senders put packets on per-CPU queues and clear
 `sendqs_empty`; one drainer collects them, sets the flag when a scan found nothing, and scans again.
 Each access to the flag, to a queue and to the driver's list is one step. A queue is taken as the ring
 behaves: a packet appears at once and is removed at once (module Ring).
 */
module SendQueues {

  type Tid = nat

  /** A packet and the CPU whose queue its sender puts it on. */
  datatype Packet = Packet(cpu: nat, id: nat)

  const MAX_BUF_LIST_SIZE: nat := 64

  /** A sender after its packet was queued: it has to read the flag, or it read 1 and has to clear it. */
  datatype Sender = Published | WillClear

  /** Where the drainer is. `start` is the queue a scan begins with, `i` how many queues the scan has passed. */
  datatype Drainer =
    | Idle
    | Bulk                                             // bulk_remove_from_send_queue: about to test flag and list
    | BulkSawEmpty                                     // read the flag as 1, about to test the list
    | BulkStaged                                       // about to test the list
    | Remove                                           // sendq_remove: about to test the flag
    | Scan(outer: nat, i: nat, list: seq<Packet>)      // about to look at the next queue
    | Drain(outer: nat, i: nat, list: seq<Packet>)     // found that queue not empty, moving its packets
    | SetFlag                                          // the first scan found nothing, about to set the flag
    | Filled(list: seq<Packet>, cpu: nat)              // at `last:` with packets, about to publish the list
    | Check                                            // about to test the flag once more
    | Reset                                            // read it as not 0, about to clear it
    | Burst                                            // driver->burst_send

  datatype State = State(n: nat, cap: nat, flag: bool, queues: seq<seq<Packet>>, senders: map<Tid, Sender>,
                         drainer: Drainer, lastQ: nat, staged: seq<Packet>, sent: seq<Packet>,
                         published: multiset<Packet>)

  datatype Action =
    | Send(t: Tid, p: Packet)                          // add_to_queue succeeds
    | SenderStep(t: Tid)
    | StartBh                                          // net_bh_send
    | DrainerStep(k: nat, again: bool)                 // `k`: how many packets the driver accepts in a burst

  function Succ(q: nat, n: nat): nat {
    if q + 1 >= n then 0 else q + 1
  }

  /** The queue a scan that began after `lastQ` reaches after passing `i` queues. */
  function At(s: State, i: nat): nat {
    if Succ(s.lastQ, s.n) + i < s.n then Succ(s.lastQ, s.n) + i else Succ(s.lastQ, s.n) + i - s.n
  }

  /** How many queues such a scan passes before it reaches queue `c`. */
  function Offset(s: State, c: nat): int {
    if c >= Succ(s.lastQ, s.n) then c - Succ(s.lastQ, s.n) else c + s.n - Succ(s.lastQ, s.n)
  }

  function Init(n: nat, cap: nat): State {
    State(n, cap, true, seq(n, i => []), map[], Idle, 0, [], [], multiset{})
  }

  ghost predicate Enabled(s: State, a: Action) {
    match a
    case Send(t, p) => t !in s.senders && p.cpu < s.n == |s.queues| && |s.queues[p.cpu]| < s.cap
    case SenderStep(t) => t in s.senders
    case StartBh => s.drainer.Idle?
    case DrainerStep(k, _) =>
      && s.n == |s.queues| && s.lastQ < s.n
      && match s.drainer
         case Idle => false
         case Scan(outer, i, _) => i < s.n
         case Drain(_, i, _) => i < s.n
         case Burst => k <= |s.staged|
         case _ => true
  }

  /** The rest of sendq_add. */
  function SenderNext(s: State, t: Tid): State
    requires t in s.senders
  {
    match s.senders[t]
    case Published => if s.flag then s.(senders := s.senders[t := WillClear]) else s.(senders := s.senders - {t})
    case WillClear => s.(flag := false, senders := s.senders - {t})
  }

  /** A scan is over: begin the second one, setting the flag first if nothing was found, or go to `last:`. */
  function ScanDone(s: State, outer: nat, list: seq<Packet>): State {
    if outer == 1 then s.(drainer := if list == [] then SetFlag else Scan(2, 0, list))
    else if list == [] then s.(drainer := Idle)
    else s.(drainer := Filled(list, s.lastQ))
  }

  /** One queue passed. */
  function Passed(s: State, outer: nat, i: nat, list: seq<Packet>): State {
    if i + 1 < s.n then s.(drainer := Scan(outer, i + 1, list)) else ScanDone(s, outer, list)
  }

  function DrainerNext(s: State, k: nat, again: bool): State
    requires Enabled(s, DrainerStep(k, again))
  {
    match s.drainer
    case Bulk => s.(drainer := if s.flag then BulkSawEmpty else BulkStaged)
    case BulkSawEmpty => s.(drainer := if s.staged == [] then Idle else BulkStaged)
    case BulkStaged => s.(drainer := if s.staged != [] then Burst else Remove)
    case Remove => s.(drainer := if s.flag then Idle else Scan(1, 0, []))
    case Scan(outer, i, list) =>
      if s.queues[At(s, i)] == [] then Passed(s, outer, i, list) else s.(drainer := Drain(outer, i, list))
    case Drain(outer, i, list) =>
      var q := At(s, i);
      if |list| >= MAX_BUF_LIST_SIZE then s.(drainer := Filled(list, q))
      else if s.queues[q] == [] then Passed(s, outer, i, list)
      else s.(queues := s.queues[q := s.queues[q][1..]], drainer := Drain(outer, i, list + [s.queues[q][0]]))
    case SetFlag => s.(flag := true, drainer := Scan(2, 0, []))
    case Filled(list, cpu) => s.(staged := list, lastQ := cpu, drainer := Check)
    case Check => s.(drainer := if s.flag then Reset else Burst)
    case Reset => s.(flag := false, drainer := Burst)
    case Burst =>
      s.(staged := s.staged[k..], sent := s.sent + s.staged[..k], drainer := if k > 0 && again then Bulk else Idle)
  }

  function Step(s: State, a: Action): State
    requires Enabled(s, a)
  {
    match a
    case Send(t, p) =>
      s.(queues := s.queues[p.cpu := s.queues[p.cpu] + [p]], senders := s.senders[t := Published],
         published := s.published + multiset{p})
    case SenderStep(t) => SenderNext(s, t)
    case StartBh => s.(drainer := if s.flag then Idle else Bulk)
    case DrainerStep(k, again) => DrainerNext(s, k, again)
  }

  // ------------------------------------------------------------------ the invariant

  /** Some sender has queued a packet and has yet to look at the flag or to clear it. */
  ghost predicate SenderPending(s: State) {
    s.senders != map[]
  }

  /** The drainer will still come past queue `c` and then look again, or holds packets and will clear the flag. */
  ghost predicate DrainerPending(s: State, c: nat) {
    match s.drainer
    case Scan(outer, i, list) => list != [] || (outer == 2 && Offset(s, c) >= i)
    case Drain(outer, i, list) => list != [] || (outer == 2 && Offset(s, c) >= i)
    case SetFlag => true
    case Filled(_, _) => true
    case Check => true
    case Reset => true
    case _ => false
  }

  /** The flag may say "empty" over a queue that is not empty only while somebody is bound to correct it. */
  ghost predicate FlagOk(s: State)
    requires s.n == |s.queues|
  {
    s.flag ==> forall c :: 0 <= c < s.n && s.queues[c] != [] ==> SenderPending(s) || DrainerPending(s, c)
  }

  /** The driver's list is only not empty while the flag is clear or about to be cleared. */
  ghost predicate StagedOk(s: State) {
    && (s.flag && s.staged != [] ==> s.drainer.Check? || s.drainer.Reset?)
    && (s.drainer.Remove? || s.drainer.Scan? || s.drainer.Drain? || s.drainer.SetFlag? || s.drainer.Filled? ==>
          s.staged == [])
  }

  ghost predicate DrainerOk(s: State)
    requires s.n == |s.queues|
  {
    && 0 < s.n && s.lastQ < s.n
    && match s.drainer
       case Scan(outer, i, _) => (outer == 1 || outer == 2) && i < s.n
       case Drain(outer, i, list) => (outer == 1 || outer == 2) && i < s.n && (list == [] ==> s.queues[At(s, i)] != [])
       case Filled(list, cpu) => list != [] && cpu < s.n
       case _ => true
  }

  ghost predicate Inv(s: State) {
    s.n == |s.queues| && FlagOk(s) && StagedOk(s) && DrainerOk(s)
  }

  lemma InitInv(n: nat, cap: nat)
    requires n > 0
    ensures Inv(Init(n, cap))
  {
  }

  lemma SenderInv(s: State, t: Tid)
    requires Inv(s) && t in s.senders
    ensures Inv(SenderNext(s, t))
  {
    var s' := SenderNext(s, t);
    if s.flag && s.senders[t].Published? {
      assert t in s'.senders;
    }
  }

  lemma SendInv(s: State, t: Tid, p: Packet)
    requires Inv(s) && Enabled(s, Send(t, p))
    ensures Inv(Step(s, Send(t, p)))
  {
    assert t in Step(s, Send(t, p)).senders;
  }

  /** Every queue is passed exactly once by a scan. */
  lemma OffsetAt(s: State, i: nat, c: nat)
    requires s.lastQ < s.n && i < s.n && c < s.n
    ensures At(s, i) < s.n && (Offset(s, c) == i <==> c == At(s, i)) && 0 <= Offset(s, c) < s.n
    ensures At(s, i) == if s.lastQ + 1 + i < s.n then s.lastQ + 1 + i else s.lastQ + 1 + i - s.n
  {
  }

  lemma PassedInv(s: State, outer: nat, i: nat, list: seq<Packet>)
    requires Inv(s) && s.staged == []
    requires s.drainer == Scan(outer, i, list) || s.drainer == Drain(outer, i, list)
    requires s.queues[At(s, i)] == []
    ensures Inv(Passed(s, outer, i, list))
  {
    var s' := Passed(s, outer, i, list);
    forall c | 0 <= c < s.n && s.queues[c] != [] && s'.flag
      ensures SenderPending(s') || DrainerPending(s', c)
    {
      OffsetAt(s, i, c);
    }
  }

  lemma DrainerInv(s: State, k: nat, again: bool)
    requires Inv(s) && Enabled(s, DrainerStep(k, again))
    ensures Inv(DrainerNext(s, k, again))
  {
    var s' := DrainerNext(s, k, again);
    if s.drainer.Scan? || s.drainer.Drain? {
      var i := s.drainer.i;
      OffsetAt(s, i, 0);
      if s.queues[At(s, i)] == [] && (s.drainer.Scan? || |s.drainer.list| < MAX_BUF_LIST_SIZE) {
        PassedInv(s, s.drainer.outer, i, s.drainer.list);
      } else {
        forall c | 0 <= c < s.n && s'.queues[c] != [] && s'.flag
          ensures SenderPending(s') || DrainerPending(s', c)
        {
          assert s.queues[c] != [];
        }
      }
    } else if s.drainer.SetFlag? {
      forall c | 0 <= c < s.n ensures DrainerPending(s', c) { OffsetAt(s, 0, c); }
    }
  }

  // ------------------------------------------------------------------ every run

  ghost predicate IsRun(n: nat, cap: nat, acts: seq<Action>, s: State)
    decreases |acts|
  {
    if acts == [] then s == Init(n, cap)
    else
      var m := |acts| - 1;
      exists s0 :: IsRun(n, cap, acts[..m], s0) && Enabled(s0, acts[m]) && s == Step(s0, acts[m])
  }

  lemma {:induction false} RunInv(n: nat, cap: nat, acts: seq<Action>, s: State)
    requires n > 0 && IsRun(n, cap, acts, s)
    ensures Inv(s) && Conserved(s) && s.n == n
    decreases |acts|
  {
    hide Inv, Conserved;
    if acts == [] {
      InitInv(n, cap);
      InitConserved(n, cap);
    } else {
      var m := |acts| - 1;
      var s0 :| IsRun(n, cap, acts[..m], s0) && Enabled(s0, acts[m]) && s == Step(s0, acts[m]);
      RunInv(n, cap, acts[..m], s0);
      StepInv(s0, acts[m]);
      StepConserved(s0, acts[m]);
      SameSize(s0, acts[m]);
    }
  }

  lemma StepInv(s: State, a: Action)
    requires Inv(s) && Enabled(s, a)
    ensures Inv(Step(s, a))
  {
    hide Inv;
    match a
    case Send(t, p) => SendInv(s, t, p);
    case SenderStep(t) => SenderInv(s, t);
    case DrainerStep(k, again) => DrainerInv(s, k, again);
    case StartBh => StartInv(s);
  }

  lemma StartInv(s: State)
    requires Inv(s) && s.drainer.Idle?
    ensures Inv(Step(s, StartBh))
  {
  }

  lemma SameSize(s: State, a: Action)
    requires Enabled(s, a)
    ensures Step(s, a).n == s.n
  {
  }

  // ------------------------------------------------------------------ conservation

  function Queued(qs: seq<seq<Packet>>): multiset<Packet> {
    if qs == [] then multiset{} else multiset(qs[0]) + Queued(qs[1..])
  }

  lemma {:induction false} QueuedUpdate(qs: seq<seq<Packet>>, c: nat, q: seq<Packet>)
    requires c < |qs|
    ensures forall x :: Queued(qs[c := q])[x] + multiset(qs[c])[x] == Queued(qs)[x] + multiset(q)[x]
  {
    if c > 0 {
      QueuedUpdate(qs[1..], c - 1, q);
      assert qs[c := q][1..] == qs[1..][c - 1 := q] && qs[c := q][0] == qs[0];
    } else {
      assert qs[c := q][1..] == qs[1..];
    }
  }

  lemma {:induction false} NothingQueued(qs: seq<seq<Packet>>)
    requires forall c :: 0 <= c < |qs| ==> qs[c] == []
    ensures Queued(qs) == multiset{}
  {
    if qs != [] {
      NothingQueued(qs[1..]);
    }
  }

  /** What the drainer has taken from the queues and not yet given to the driver. */
  function InHand(d: Drainer): seq<Packet> {
    match d
    case Scan(_, _, list) => list
    case Drain(_, _, list) => list
    case Filled(list, _) => list
    case _ => []
  }

  /** Everything that has left the queues, in the order the driver gets it. */
  function Flow(s: State): seq<Packet> {
    s.sent + s.staged + InHand(s.drainer)
  }

  /** Every packet ever queued is in exactly one place, and no packet is anywhere twice. */
  ghost predicate Conserved(s: State) {
    forall x :: s.published[x] == Queued(s.queues)[x] + multiset(Flow(s))[x]
  }

  lemma InitConserved(n: nat, cap: nat)
    ensures Conserved(Init(n, cap))
  {
    NothingQueued(Init(n, cap).queues);
  }

  lemma SendConserved(s: State, t: Tid, p: Packet)
    requires Enabled(s, Send(t, p)) && Conserved(s)
    ensures Conserved(Step(s, Send(t, p)))
  {
    hide Queued;
    QueuedUpdate(s.queues, p.cpu, s.queues[p.cpu] + [p]);
    assert multiset(s.queues[p.cpu] + [p]) == multiset(s.queues[p.cpu]) + multiset{p};
  }

  /** The drainer is about to take a packet. */
  predicate Takes(s: State)
    requires s.n == |s.queues| && s.lastQ < s.n
  {
    s.drainer.Drain? && s.drainer.i < s.n && |s.drainer.list| < MAX_BUF_LIST_SIZE && s.queues[At(s, s.drainer.i)] != []
  }

  /** It takes from the front of one queue and appends. */
  lemma TakeFlow(s: State, k: nat, again: bool)
    requires Enabled(s, DrainerStep(k, again)) && Takes(s)
    ensures var s', q := DrainerNext(s, k, again), At(s, s.drainer.i);
            s'.queues == s.queues[q := s.queues[q][1..]] && Flow(s') == Flow(s) + [s.queues[q][0]]
  {
  }

  lemma PassedFlow(s: State, outer: nat, i: nat, list: seq<Packet>)
    requires InHand(s.drainer) == list
    ensures Flow(Passed(s, outer, i, list)) == Flow(s) && Passed(s, outer, i, list).queues == s.queues
  {
  }

  /** Otherwise nothing moves. */
  lemma QuietFlow(s: State, k: nat, again: bool)
    requires Enabled(s, DrainerStep(k, again)) && !Takes(s) && StagedOk(s)
    ensures var s' := DrainerNext(s, k, again);
            s'.queues == s.queues && Flow(s') == Flow(s)
  {
    hide At, Passed, Flow;
    var s' := DrainerNext(s, k, again);
    match s.drainer
    case Scan(outer, i, list) =>
      PassedFlow(s, outer, i, list);
      SameFlow(s, s.(drainer := Drain(outer, i, list)));
    case Drain(outer, i, list) =>
      PassedFlow(s, outer, i, list);
      SameFlow(s, s.(drainer := Filled(list, At(s, i))));
    case Burst => BurstFlow(s, s', k);
    case _ => SameFlow(s, s');
  }

  lemma SameFlow(s: State, s': State)
    requires s'.sent == s.sent
    requires || (s'.staged == s.staged && InHand(s'.drainer) == InHand(s.drainer))
             || (s.staged == [] == InHand(s'.drainer) && s'.staged == InHand(s.drainer))
    ensures Flow(s') == Flow(s)
  {
  }

  lemma BurstFlow(s: State, s': State, k: nat)
    requires k <= |s.staged| && InHand(s.drainer) == [] == InHand(s'.drainer)
    requires s'.staged == s.staged[k..] && s'.sent == s.sent + s.staged[..k]
    ensures Flow(s') == Flow(s)
  {
    assert s.staged == s.staged[..k] + s.staged[k..];
  }

  lemma TakeConserved(s: State, s': State, q: nat)
    requires Conserved(s) && q < |s.queues| && s.queues[q] != [] && s'.queues == s.queues[q := s.queues[q][1..]]
    requires Flow(s') == Flow(s) + [s.queues[q][0]] && s'.published == s.published
    ensures Conserved(s')
  {
    hide Queued, Flow;
    QueuedUpdate(s.queues, q, s.queues[q][1..]);
    assert s.queues[q] == [s.queues[q][0]] + s.queues[q][1..];
    assert multiset(Flow(s')) == multiset(Flow(s)) + multiset{s.queues[q][0]};
  }

  lemma DrainerConserved(s: State, k: nat, again: bool)
    requires Inv(s) && Enabled(s, DrainerStep(k, again)) && Conserved(s)
    ensures Conserved(DrainerNext(s, k, again))
  {
    hide Queued, FlagOk, DrainerOk, StagedOk, Flow, DrainerNext, At;
    SamePublished(s, k, again);
    if Takes(s) {
      OffsetAt(s, s.drainer.i, 0);
      TakeFlow(s, k, again);
      TakeConserved(s, DrainerNext(s, k, again), At(s, s.drainer.i));
    } else {
      QuietFlow(s, k, again);
    }
  }

  lemma SamePublished(s: State, k: nat, again: bool)
    requires Enabled(s, DrainerStep(k, again))
    ensures DrainerNext(s, k, again).published == s.published
  {
  }

  lemma StepConserved(s: State, a: Action)
    requires Inv(s) && Enabled(s, a) && Conserved(s)
    ensures Conserved(Step(s, a))
  {
    hide Queued, FlagOk, DrainerOk, StagedOk;
    match a
    case Send(t, p) => SendConserved(s, t, p);
    case DrainerStep(k, again) => DrainerConserved(s, k, again);
    case SenderStep(_) => assert Flow(Step(s, a)) == Flow(s);
    case StartBh => assert Flow(Step(s, a)) == Flow(s);
  }

  // ------------------------------------------------------------------ order

  /** The packets of CPU `c`, in order. */
  function Of(ps: seq<Packet>, c: nat): seq<Packet> {
    if ps == [] then []
    else
      var m := |ps| - 1;
      Of(ps[..m], c) + if ps[m].cpu == c then [ps[m]] else []
  }

  lemma OfMore(ps: seq<Packet>, p: Packet, c: nat)
    ensures Of(ps + [p], c) == Of(ps, c) + if p.cpu == c then [p] else []
  {
    assert (ps + [p])[..|ps|] == ps;
  }

  /** The packets that CPU `c` has queued, read off the sends of a run. */
  function Put(acts: seq<Action>, c: nat): seq<Packet> {
    if acts == [] then []
    else
      var m := |acts| - 1;
      Put(acts[..m], c) + if acts[m].Send? && acts[m].p.cpu == c then [acts[m].p] else []
  }

  ghost predicate Tagged(s: State) {
    forall c, p :: 0 <= c < |s.queues| && p in s.queues[c] ==> p.cpu == c
  }

  ghost predicate InSequence(s: State, c: nat, put: seq<Packet>) {
    c < |s.queues| && Tagged(s) && put == Of(Flow(s), c) + s.queues[c]
  }

  lemma TakeOrder(s: State, s': State, q: nat, c: nat, put: seq<Packet>)
    requires InSequence(s, c, put) && q < |s.queues| && s.queues[q] != []
    requires s'.queues == s.queues[q := s.queues[q][1..]] && Flow(s') == Flow(s) + [s.queues[q][0]]
    ensures InSequence(s', c, put)
  {
    hide Flow, Of;
    OfMore(Flow(s), s.queues[q][0], c);
    assert s.queues[q][0] in s.queues[q];
    assert s.queues[c] == if q == c then [s.queues[q][0]] + s'.queues[c] else s'.queues[c];
  }

  lemma DrainerOrder(s: State, k: nat, again: bool, c: nat, put: seq<Packet>)
    requires Inv(s) && Enabled(s, DrainerStep(k, again)) && InSequence(s, c, put)
    ensures InSequence(DrainerNext(s, k, again), c, put)
  {
    hide FlagOk, DrainerOk, StagedOk, DrainerNext, Flow, Of, At;
    if Takes(s) {
      OffsetAt(s, s.drainer.i, 0);
      TakeFlow(s, k, again);
      TakeOrder(s, DrainerNext(s, k, again), At(s, s.drainer.i), c, put);
    } else {
      QuietFlow(s, k, again);
    }
  }

  lemma StepOrder(s: State, a: Action, c: nat, put: seq<Packet>)
    requires Inv(s) && Enabled(s, a) && InSequence(s, c, put)
    ensures InSequence(Step(s, a), c, put + if a.Send? && a.p.cpu == c then [a.p] else [])
  {
    hide FlagOk, DrainerOk, StagedOk, Of;
    match a
    case DrainerStep(k, again) =>
      DrainerOrder(s, k, again, c, put);
      assert put + [] == put;
    case _ =>
      assert Flow(Step(s, a)) == Flow(s);
  }

  /**
   Every run keeps the order of each CPU: what it queued is what the driver was given of it, what the driver's list and
   the drainer hold of it, and what is still queued, one behind the other.
   */
  lemma {:induction false} SentInOrder(n: nat, cap: nat, acts: seq<Action>, s: State, c: nat)
    requires n > 0 && IsRun(n, cap, acts, s) && c < n
    ensures InSequence(s, c, Put(acts, c))
    decreases |acts|
  {
    hide Inv, Conserved, Step, Enabled, InSequence;
    if acts == [] {
      NothingPut(n, cap, c);
    } else {
      var m := |acts| - 1;
      var s0 :| IsRun(n, cap, acts[..m], s0) && Enabled(s0, acts[m]) && s == Step(s0, acts[m]);
      RunInv(n, cap, acts[..m], s0);
      SentInOrder(n, cap, acts[..m], s0, c);
      StepOrder(s0, acts[m], c, Put(acts[..m], c));
    }
  }

  lemma NothingPut(n: nat, cap: nat, c: nat)
    requires c < n
    ensures InSequence(Init(n, cap), c, [])
  {
  }

  /**
   No stranded packet: when nobody is in the middle of a send or a drain, a set flag means that nothing waits
   to be sent, and then the driver was given every queued packet exactly once, those of each CPU in order.
   */
  lemma NoStrandedPacket(n: nat, cap: nat, acts: seq<Action>, s: State)
    requires n > 0 && IsRun(n, cap, acts, s)
    requires s.senders == map[] && s.drainer.Idle? && s.flag
    ensures s.staged == [] && |s.queues| == n && forall c :: 0 <= c < n ==> s.queues[c] == []
    ensures multiset(s.sent) == s.published && forall c :: 0 <= c < n ==> Of(s.sent, c) == Put(acts, c)
  {
    RunInv(n, cap, acts, s);
    NothingQueued(s.queues);
    forall c | 0 <= c < n ensures InSequence(s, c, Put(acts, c)) { SentInOrder(n, cap, acts, s, c); }
    hide IsRun, Queued, Of, Put;
    assert Flow(s) == s.sent;
  }

  // ------------------------------------------------------------------ progress

  /** How many packets the driver has not been given. */
  function Waiting(qs: seq<seq<Packet>>): nat {
    if qs == [] then 0 else |qs[0]| + Waiting(qs[1..])
  }

  lemma {:induction false} WaitingLess(qs: seq<seq<Packet>>, q: nat)
    requires q < |qs| && qs[q] != []
    ensures Waiting(qs[q := qs[q][1..]]) == Waiting(qs) - 1
  {
    if q > 0 {
      WaitingLess(qs[1..], q - 1);
      assert qs[q := qs[q][1..]][1..] == qs[1..][q - 1 := qs[q][1..]];
    } else {
      assert qs[q := qs[q][1..]][1..] == qs[1..];
    }
  }

  function Unsent(s: State): nat {
    Waiting(s.queues) + |InHand(s.drainer)| + |s.staged|
  }

  /** How far the drainer is from the end of a round. */
  function Phase(s: State): int {
    match s.drainer
    case Idle => 0
    case Burst => 1
    case Reset => 2
    case Check => 3
    case Filled(_, _) => 4
    case Scan(outer, i, _) => if outer == 2 then s.n - i + 4 else 2 * s.n - i + 5
    case Drain(outer, i, _) => if outer == 2 then s.n - i + 4 else 2 * s.n - i + 5
    case SetFlag => s.n + 5
    case Remove => 2 * s.n + 6
    case BulkStaged => 2 * s.n + 7
    case BulkSawEmpty => 2 * s.n + 8
    case Bulk => 2 * s.n + 9
  }

  /** What holds of the drainer while no sender is about. */
  ghost predicate Undisturbed(s: State) {
    && s.senders == map[]
    && (s.drainer.BulkSawEmpty? ==> s.flag)
    && ((s.drainer.Scan? || s.drainer.Drain?) && s.drainer.outer == 2 && s.drainer.list == [] ==> s.flag)
    && (s.drainer.Idle? ==> s.flag)
    && (s.drainer.Check? || s.drainer.Reset? || s.drainer.Burst? ==> s.staged != [])
  }

  /** A sender is done after two accesses, and leaves the flag cleared if nobody else writes it. */
  lemma SenderReturns(s: State, t: Tid)
    requires t in s.senders
    ensures s.senders[t].Published? && !s.flag ==> SenderNext(s, t) == s.(senders := s.senders - {t})
    ensures s.senders[t].WillClear? ==> SenderNext(s, t) == s.(flag := false, senders := s.senders - {t})
    ensures s.senders[t].Published? && s.flag ==>
              var s1 := SenderNext(s, t);
              s1.flag && t in s1.senders && SenderNext(s1, t) == s.(flag := false, senders := s.senders - {t})
  {
    if s.senders[t].Published? && s.flag {
      assert s.senders[t := WillClear] - {t} == s.senders - {t};
    }
  }

  /** With the flag set net_bh_send has nothing to do and says so after two looks. */
  lemma SetFlagReturns(s: State)
    requires Inv(s) && s.drainer.Bulk? && s.flag
    ensures Enabled(s, DrainerStep(0, true))
    ensures var s1 := DrainerNext(s, 0, true);
            Enabled(s1, DrainerStep(0, true)) && DrainerNext(s1, 0, true) == s.(drainer := Idle)
  {
  }

  /** A burst of which the driver takes nothing, or one that uses up the budget, ends net_bh_send. */
  lemma BurstEnds(s: State, k: nat, again: bool)
    requires Enabled(s, DrainerStep(k, again)) && s.drainer.Burst?
    ensures DrainerNext(s, k, again).drainer == if k == 0 || !again then Idle else Bulk
  {
  }

  /** A scan that fills the driver's list is followed by one that starts with the queue behind the one it stopped at. */
  lemma ScanGoesOn(s: State)
    requires Inv(s) && s.drainer.Drain? && |s.drainer.list| >= MAX_BUF_LIST_SIZE && Enabled(s, DrainerStep(0, true))
    ensures var s1 := DrainerNext(s, 0, true);
            && Enabled(s1, DrainerStep(0, true))
            && var s2 := DrainerNext(s1, 0, true);
               && s2.staged == s.drainer.list && s2.n == s.n
               && At(s2, 0) == if At(s, s.drainer.i) + 1 == s.n then 0 else At(s, s.drainer.i) + 1
  {
    OffsetAt(s, s.drainer.i, 0);
    var s2 := DrainerNext(DrainerNext(s, 0, true), 0, true);
    hide Inv;
    OffsetAt(s2, 0, 0);
  }

  /** The rank of a state, for the order in which it falls. */
  ghost predicate Lower(s': State, s: State) {
    || Unsent(s') < Unsent(s)
    || (Unsent(s') == Unsent(s) && Phase(s') < Phase(s))
    || (Unsent(s') == Unsent(s) && Phase(s') == Phase(s) && Waiting(s'.queues) < Waiting(s.queues))
    || (Unsent(s') == Unsent(s) && Phase(s') == Phase(s) && s'.queues == s.queues
        && s.drainer.Scan? && s'.drainer.Drain?)
  }

  lemma PassedLower(s: State, outer: nat, i: nat, list: seq<Packet>)
    requires s.n == |s.queues| && DrainerOk(s) && Undisturbed(s)
    requires s.drainer == Scan(outer, i, list) || s.drainer == Drain(outer, i, list)
    ensures var s' := Passed(s, outer, i, list); Undisturbed(s') && Lower(s', s)
  {
    hide Waiting;
  }

  lemma TakeLower(s: State)
    requires s.n == |s.queues| && DrainerOk(s) && Undisturbed(s) && Takes(s)
    ensures var s' := DrainerNext(s, |s.staged|, true); Undisturbed(s') && Lower(s', s)
  {
    hide Waiting;
    OffsetAt(s, s.drainer.i, 0);
    WaitingLess(s.queues, At(s, s.drainer.i));
  }

  /** A step with a driver that takes everything keeps this and comes nearer to the end. */
  lemma DrainerAdvances(s: State)
    requires Inv(s) && Undisturbed(s) && !s.drainer.Idle?
    ensures Enabled(s, DrainerStep(|s.staged|, true))
    ensures var s' := DrainerNext(s, |s.staged|, true); Undisturbed(s') && Lower(s', s)
  {
    hide FlagOk, Waiting, Passed, At;
    if Takes(s) {
      TakeLower(s);
    } else {
      match s.drainer
      case Scan(outer, i, list) => PassedLower(s, outer, i, list);
      case Drain(outer, i, list) => if |list| < MAX_BUF_LIST_SIZE { PassedLower(s, outer, i, list); }
      case _ =>
    }
  }

  lemma PhaseBound(s: State)
    requires Inv(s)
    ensures Phase(s) >= 0
  {
  }

  /** The drainer runs alone until it returns. */
  ghost function DrainAlone(s: State): (s': State)
    requires Inv(s) && Undisturbed(s)
    ensures Inv(s') && Undisturbed(s') && s'.drainer.Idle?
    decreases Unsent(s), Phase(s), Waiting(s.queues), if s.drainer.Scan? then 1 else 0
  {
    if s.drainer.Idle? then s
    else
      DrainerAdvances(s); DrainerInv(s, |s.staged|, true); PhaseBound(s);
      DrainAlone(DrainerNext(s, |s.staged|, true))
  }

  /**
   With no sender about and a driver that takes what it is given, net_bh_send comes to an end, and then the flag is set
   and every queue and the driver's list are empty.
   */
  lemma DrainFinishes(s: State)
    requires Inv(s) && s.senders == map[] && s.drainer.Idle? && !s.flag
    ensures Enabled(s, StartBh) && Inv(Step(s, StartBh)) && Undisturbed(Step(s, StartBh))
    ensures var s' := DrainAlone(Step(s, StartBh));
            s'.drainer.Idle? && s'.flag && s'.staged == [] && forall c :: 0 <= c < |s'.queues| ==> s'.queues[c] == []
  {
    StartInv(s);
  }

  // ------------------------------------------------------------------ why the drainer looks again

  /** Only the second scan is left to find the packet: the flag says "empty" and nobody is in the middle of a send. */
  ghost predicate Hidden(s: State, cpu: nat) {
    s.flag && s.senders == map[] && cpu < |s.queues| && s.queues[cpu] != [] && s.drainer == Scan(2, 0, [])
  }

  /** The sender's whole part falls between the end of the first scan and the write of the flag. */
  lemma RaceHides(s: State, t: Tid, p: Packet)
    requires s.drainer.SetFlag? && !s.flag && s.senders == map[] && s.lastQ < s.n && Enabled(s, Send(t, p))
    ensures var s1 := Step(s, Send(t, p));
            && Enabled(s1, SenderStep(t))
            && var s2 := Step(s1, SenderStep(t));
               Enabled(s2, DrainerStep(0, false)) && Hidden(Step(s2, DrainerStep(0, false)), p.cpu)
  {
    var s1 := Step(s, Send(t, p));
    assert s1.senders - {t} == map[];
  }

  ghost predicate Reached(n: nat, cap: nat, s: State) {
    exists acts :: IsRun(n, cap, acts, s)
  }

  lemma ReachStep(n: nat, cap: nat, s: State, a: Action)
    requires Reached(n, cap, s) && Enabled(s, a)
    ensures Reached(n, cap, Step(s, a))
  {
    hide Enabled, Step;
    var acts :| IsRun(n, cap, acts, s);
    assert (acts + [a])[..|acts|] == acts;
    assert IsRun(n, cap, acts + [a], Step(s, a));
  }

  /** From every reached state in which the first scan has found nothing, the flag can come to hide a packet. */
  lemma RescanIsNeeded(n: nat, cap: nat, s: State, t: Tid, p: Packet)
    requires Reached(n, cap, s) && s.drainer.SetFlag? && !s.flag && s.senders == map[] && s.lastQ < s.n
    requires Enabled(s, Send(t, p))
    ensures exists s' :: Reached(n, cap, s') && Hidden(s', p.cpu)
  {
    hide Reached, Hidden;
    RaceHides(s, t, p);
    ReachStep(n, cap, s, Send(t, p));
    var s1 := Step(s, Send(t, p));
    ReachStep(n, cap, s1, SenderStep(t));
    var s2 := Step(s1, SenderStep(t));
    hide Step;
    ReachStep(n, cap, s2, DrainerStep(0, false));
  }

  const FIRST: Packet := Packet(0, 7)

  /** One CPU; the first packet has been queued. */
  function OneCpu(cap: nat, flag: bool, queue: seq<Packet>, drainer: Drainer, staged: seq<Packet>,
                  sent: seq<Packet>): State {
    State(1, cap, flag, [queue], map[], drainer, 0, staged, sent, multiset{FIRST})
  }

  lemma OnlyQueue(q: seq<Packet>, q': seq<Packet>)
    ensures [q][0 := q'] == [q']
  {
  }

  lemma AtBoot(cap: nat)
    ensures Reached(1, cap, State(1, cap, true, [[]], map[], Idle, 0, [], [], multiset{}))
  {
    assert Init(1, cap).queues == [[]];
    assert IsRun(1, cap, [], Init(1, cap));
  }

  lemma FirstPacket(cap: nat)
    requires cap > 0
    ensures Reached(1, cap, OneCpu(cap, false, [FIRST], Bulk, [], []))
  {
    hide IsRun, Reached;
    AtBoot(cap);
    var s0 := State(1, cap, true, [[]], map[], Idle, 0, [], [], multiset{});
    var s1 := State(1, cap, true, [[FIRST]], map[0 := Published], Idle, 0, [], [], multiset{FIRST});
    ReachStep(1, cap, s0, Send(0, FIRST));
    OnlyQueue([], [] + [FIRST]);
    assert [] + [FIRST] == [FIRST] && s0.published + multiset{FIRST} == multiset{FIRST};
    assert Step(s0, Send(0, FIRST)) == s1;
    ReachStep(1, cap, s1, SenderStep(0));
    var s2 := s1.(senders := map[0 := WillClear]);
    assert s1.senders[0 := WillClear] == s2.senders && Step(s1, SenderStep(0)) == s2;
    ReachStep(1, cap, s2, SenderStep(0));
    var s3 := OneCpu(cap, false, [FIRST], Idle, [], []);
    assert s2.senders - {0} == map[] && Step(s2, SenderStep(0)) == s3;
    ReachStep(1, cap, s3, StartBh);
  }

  lemma DrainerReaches(cap: nat, s: State, k: nat, s': State)
    requires Reached(1, cap, s) && Enabled(s, DrainerStep(k, true)) && DrainerNext(s, k, true) == s'
    ensures Reached(1, cap, s')
  {
    hide Reached, DrainerNext;
    ReachStep(1, cap, s, DrainerStep(k, true));
  }

  lemma PacketTaken(cap: nat)
    requires cap > 0
    ensures Reached(1, cap, OneCpu(cap, false, [], Scan(2, 0, [FIRST]), [], []))
  {
    hide Reached;
    FirstPacket(cap);
    var q: seq<Packet> := [FIRST];
    DrainerReaches(cap, OneCpu(cap, false, q, Bulk, [], []), 0, OneCpu(cap, false, q, BulkStaged, [], []));
    DrainerReaches(cap, OneCpu(cap, false, q, BulkStaged, [], []), 0, OneCpu(cap, false, q, Remove, [], []));
    DrainerReaches(cap, OneCpu(cap, false, q, Remove, [], []), 0, OneCpu(cap, false, q, Scan(1, 0, []), [], []));
    DrainerReaches(cap, OneCpu(cap, false, q, Scan(1, 0, []), [], []), 0,
                   OneCpu(cap, false, q, Drain(1, 0, []), [], []));
    OnlyQueue(q, q[1..]);
    assert q[1..] == [] && [] + [q[0]] == [FIRST];
    DrainerReaches(cap, OneCpu(cap, false, q, Drain(1, 0, []), [], []), 0,
                   OneCpu(cap, false, [], Drain(1, 0, [FIRST]), [], []));
    DrainerReaches(cap, OneCpu(cap, false, [], Drain(1, 0, [FIRST]), [], []), 0,
                   OneCpu(cap, false, [], Scan(2, 0, [FIRST]), [], []));
  }

  lemma PacketSent(cap: nat)
    requires cap > 0
    ensures Reached(1, cap, OneCpu(cap, false, [], Bulk, [], [FIRST]))
  {
    hide Reached;
    PacketTaken(cap);
    DrainerReaches(cap, OneCpu(cap, false, [], Scan(2, 0, [FIRST]), [], []), 0,
                   OneCpu(cap, false, [], Filled([FIRST], 0), [], []));
    DrainerReaches(cap, OneCpu(cap, false, [], Filled([FIRST], 0), [], []), 0,
                   OneCpu(cap, false, [], Check, [FIRST], []));
    DrainerReaches(cap, OneCpu(cap, false, [], Check, [FIRST], []), 0, OneCpu(cap, false, [], Burst, [FIRST], []));
    var staged: seq<Packet> := [FIRST];
    assert staged[1..] == [] && [] + staged[..1] == [FIRST];
    DrainerReaches(cap, OneCpu(cap, false, [], Burst, [FIRST], []), 1, OneCpu(cap, false, [], Bulk, [], [FIRST]));
  }

  /** The race is real, even on one CPU: after one packet was sent, a second one is hidden behind the flag. */
  lemma RaceHappens(cap: nat)
    requires cap > 0
    ensures exists s :: Reached(1, cap, s) && Hidden(s, 0)
  {
    hide Reached, Hidden;
    PacketSent(cap);
    DrainerReaches(cap, OneCpu(cap, false, [], Bulk, [], [FIRST]), 0, OneCpu(cap, false, [], BulkStaged, [], [FIRST]));
    DrainerReaches(cap, OneCpu(cap, false, [], BulkStaged, [], [FIRST]), 0,
                   OneCpu(cap, false, [], Remove, [], [FIRST]));
    DrainerReaches(cap, OneCpu(cap, false, [], Remove, [], [FIRST]), 0,
                   OneCpu(cap, false, [], Scan(1, 0, []), [], [FIRST]));
    DrainerReaches(cap, OneCpu(cap, false, [], Scan(1, 0, []), [], [FIRST]), 0,
                   OneCpu(cap, false, [], SetFlag, [], [FIRST]));
    RescanIsNeeded(1, cap, OneCpu(cap, false, [], SetFlag, [], [FIRST]), 0, Packet(0, 8));
  }
}
