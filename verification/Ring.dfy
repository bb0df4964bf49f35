/**
 fifo_queue of fs/socket.cc at the level of single field accesses. Producers exclude each other by a lock, one consumer
 is active at a time, and nothing orders a producer against the consumer except the contents of the slots. Memory is
 sequentially consistent. `flags` is written after a slot is published and is left out.
 */
module Ring {

  /** fifo_data_struct; `buf == 0` and `len == 0` mark an empty slot. */
  datatype Slot = Slot(buf: nat, len: nat)

  const EMPTY: Slot := Slot(0, 0)

  /** What add_to_queue takes: a buffer and a length, neither of them zero. */
  predicate Real(x: Slot) {
    x.buf != 0 && x.len != 0
  }

  function Succ(i: nat, n: nat): nat {
    if i + 1 >= n then 0 else i + 1
  }

  /** The slot `k` places after `i`, for at most one turn round the ring. */
  function Nth(i: nat, k: nat, n: nat): nat
    requires i < n && k <= n
  {
    if i + k < n then i + k else i + k - n
  }

  // ------------------------------------------------------------------ states and steps

  /** Where the holder of the producer lock is inside add_to_queue. */
  datatype Producer =
    | PIdle
    | PLocked(x: Slot)
    | PSawNoBuf(x: Slot)
    | PSawEmpty(x: Slot)
    | PWroteLen(x: Slot)
    | PWroteBuf(x: Slot)
    | PBumped(x: Slot)
    | PDone(x: Slot, ok: bool)

  /** Where the one active consumer is inside remove_from_queue, or inside Bulk_remove_from_queue when `bulk`. */
  datatype Consumer =
    | CIdle
    | CLocked(bulk: bool)
    | CSawBuf(bulk: bool)
    | CChecked(bulk: bool)
    | CGotBuf(buf: nat)
    | CGotLen(copy: Slot)
    | CClearedLen(copy: Slot)
    | CClearedBuf(copy: Slot)
    | CBumped(copy: Slot)
    | CDone(copy: Slot, ok: bool)

  /** What a call told its caller, about the entry it was given or found. */
  datatype Answer = Answer(x: Slot, ok: bool)

  /**
   The shared memory, the two program counters, and the history: what was published, what was taken out, and the
   answers that the callers of add and remove were given.
   `oldest` and `next` are where the oldest queued slot and the next free slot really are; the stored
   indices lag behind them while an operation is between its slot writes and its index update.
   */
  datatype State = State(n: nat, slots: seq<Slot>, prodIndex: nat, consIndex: nat,
                         producer: Producer, consumer: Consumer,
                         oldest: nat, next: nat, accepted: seq<Slot>, removed: seq<Slot>,
                         added: seq<Answer>, handed: seq<Answer>)

  function Init(n: nat): State {
    State(n, seq(n, i => EMPTY), 0, 0, PIdle, CIdle, 0, 0, [], [], [], [])
  }

  datatype Action = StartAdd(x: Slot) | StartRemove(bulk: bool) | ProducerStep | ConsumerStep

  ghost predicate Enabled(s: State, a: Action) {
    match a
    case StartAdd(_) => s.producer.PIdle?
    case StartRemove(_) => s.consumer.CIdle?
    case ProducerStep => !s.producer.PIdle? && (s.prodIndex < |s.slots| || s.producer.PBumped? || s.producer.PDone?)
    case ConsumerStep => !s.consumer.CIdle? && (s.consIndex < |s.slots| || s.consumer.CBumped? || s.consumer.CDone?)
  }

  /** add_to_queue, one field access at a time. */
  function ProducerNext(s: State): State
    requires !s.producer.PIdle? && (s.prodIndex < |s.slots| || s.producer.PBumped? || s.producer.PDone?)
  {
    match s.producer
    case PLocked(x) => s.(producer := if s.slots[s.prodIndex].buf == 0 then PSawNoBuf(x) else PDone(x, false))
    case PSawNoBuf(x) => s.(producer := if s.slots[s.prodIndex].len == 0 then PSawEmpty(x) else PDone(x, false))
    case PSawEmpty(x) => s.(slots := s.slots[s.prodIndex := s.slots[s.prodIndex].(len := x.len)],
                            producer := PWroteLen(x))
    case PWroteLen(x) => s.(slots := s.slots[s.prodIndex := s.slots[s.prodIndex].(buf := x.buf)],
                            producer := PWroteBuf(x), accepted := s.accepted + [x], next := Succ(s.prodIndex, s.n))
    case PWroteBuf(x) => s.(prodIndex := s.prodIndex + 1, producer := PBumped(x))
    case PBumped(x) => s.(prodIndex := if s.prodIndex >= s.n then 0 else s.prodIndex, producer := PDone(x, true))
    case PDone(x, ok) => s.(producer := PIdle, added := s.added + [Answer(x, ok)])
  }

  /** remove_from_queue and Bulk_remove_from_queue, one field access at a time; the bulk form does not look at `len`. */
  function ConsumerNext(s: State): State
    requires !s.consumer.CIdle? && (s.consIndex < |s.slots| || s.consumer.CBumped? || s.consumer.CDone?)
  {
    match s.consumer
    case CLocked(bulk) =>
      s.(consumer := if s.slots[s.consIndex].buf == 0 then CDone(EMPTY, false) else if bulk then CChecked(bulk)
        else CSawBuf(bulk))
    case CSawBuf(bulk) => s.(consumer := if s.slots[s.consIndex].len == 0 then CDone(EMPTY, false) else CChecked(bulk))
    case CChecked(_) => s.(consumer := CGotBuf(s.slots[s.consIndex].buf))
    case CGotBuf(b) => s.(consumer := CGotLen(Slot(b, s.slots[s.consIndex].len)))
    case CGotLen(x) => s.(slots := s.slots[s.consIndex := s.slots[s.consIndex].(len := 0)], consumer := CClearedLen(x))
    case CClearedLen(x) => s.(slots := s.slots[s.consIndex := s.slots[s.consIndex].(buf := 0)],
                              consumer := CClearedBuf(x), removed := s.removed + [x], oldest := Succ(s.consIndex, s.n))
    case CClearedBuf(x) => s.(consIndex := s.consIndex + 1, consumer := CBumped(x))
    case CBumped(x) => s.(consIndex := if s.consIndex >= s.n then 0 else s.consIndex, consumer := CDone(x, true))
    case CDone(x, ok) => s.(consumer := CIdle, handed := s.handed + [Answer(x, ok)])
  }

  function Step(s: State, a: Action): State
    requires Enabled(s, a)
  {
    match a
    case StartAdd(x) => s.(producer := if Real(x) then PLocked(x) else PDone(x, false))
    case StartRemove(bulk) => s.(consumer := CLocked(bulk))
    case ProducerStep => ProducerNext(s)
    case ConsumerStep => ConsumerNext(s)
  }

  // ------------------------------------------------------------------ the invariant

  function Contents(s: State): seq<Slot>
    requires |s.removed| <= |s.accepted|
  {
    s.accepted[|s.removed|..]
  }

  /** Slot `k` places after the oldest one, with the half-written states of both sides. */
  function Expected(s: State, k: nat): Slot
    requires |s.removed| <= |s.accepted|
  {
    var c := Contents(s);
    if k < |c| then (if k == 0 && s.consumer.CClearedLen? then Slot(c[0].buf, 0) else c[k])
    else if k == |c| && s.producer.PWroteLen? then Slot(0, s.producer.x.len)
    else EMPTY
  }

  ghost predicate SlotsOk(s: State) {
    && 0 < s.n == |s.slots| && s.oldest < s.n
    && |s.removed| <= |s.accepted| && |Contents(s)| <= s.n
    && s.next == Nth(s.oldest, |Contents(s)|, s.n)
    && forall k :: 0 <= k < s.n ==> s.slots[Nth(s.oldest, k, s.n)] == Expected(s, k)
  }

  /** Removal is in acceptance order: what was handed out is a prefix of what was published. */
  ghost predicate HistoryOk(s: State) {
    && s.removed <= s.accepted
    && forall i :: 0 <= i < |s.accepted| ==> Real(s.accepted[i])
  }

  ghost predicate ProducerOk(s: State)
    requires SlotsOk(s)
  {
    match s.producer
    case PIdle => s.prodIndex == s.next
    case PLocked(x) => s.prodIndex == s.next && Real(x)
    case PSawNoBuf(x) => s.prodIndex == s.next && Real(x) && |Contents(s)| < s.n
    case PSawEmpty(x) => s.prodIndex == s.next && Real(x) && |Contents(s)| < s.n
    case PWroteLen(x) => s.prodIndex == s.next && Real(x) && |Contents(s)| < s.n
    case PWroteBuf(x) => s.prodIndex < s.n && Succ(s.prodIndex, s.n) == s.next
    case PBumped(x) => 0 < s.prodIndex <= s.n && Succ(s.prodIndex - 1, s.n) == s.next
    case PDone(x, ok) => s.prodIndex == s.next
  }

  ghost predicate ConsumerOk(s: State)
    requires SlotsOk(s)
  {
    match s.consumer
    case CIdle => s.consIndex == s.oldest
    case CLocked(_) => s.consIndex == s.oldest
    case CSawBuf(_) => s.consIndex == s.oldest && Contents(s) != []
    case CChecked(_) => s.consIndex == s.oldest && Contents(s) != []
    case CGotBuf(b) => s.consIndex == s.oldest && Contents(s) != [] && b == Contents(s)[0].buf
    case CGotLen(x) => s.consIndex == s.oldest && Contents(s) != [] && x == Contents(s)[0]
    case CClearedLen(x) => s.consIndex == s.oldest && Contents(s) != [] && x == Contents(s)[0]
    case CClearedBuf(x) => s.consIndex < s.n && Succ(s.consIndex, s.n) == s.oldest
    case CBumped(x) => 0 < s.consIndex <= s.n && Succ(s.consIndex - 1, s.n) == s.oldest
    case CDone(x, ok) => s.consIndex == s.oldest
  }

  ghost predicate Inv(s: State) {
    SlotsOk(s) && HistoryOk(s) && ProducerOk(s) && ConsumerOk(s)
  }

  lemma InitInv(n: nat)
    requires n > 0
    ensures Inv(Init(n))
  {
  }

  /**
   What each side finds in its slot: the producer a queued entry exactly when full, the consumer exactly when not empty.
   */
  lemma SlotsTell(s: State)
    requires Inv(s)
    ensures s.oldest < s.n && s.next < s.n == |s.slots| && |Contents(s)| <= s.n
    ensures s.prodIndex == s.next && !s.producer.PWroteLen? ==>
              (s.slots[s.next].buf != 0 <==> |Contents(s)| == s.n)
                && (s.slots[s.next].buf == 0 ==> s.slots[s.next].len == 0)
    ensures s.slots[s.oldest].buf != 0 <==> Contents(s) != []
    ensures Contents(s) != [] && !s.consumer.CClearedLen? ==> s.slots[s.oldest] == Contents(s)[0]
  {
    assert s.slots[Nth(s.oldest, 0, s.n)] == Expected(s, 0);
    var m := |Contents(s)|;
    if m < s.n {
      assert s.slots[Nth(s.oldest, m, s.n)] == Expected(s, m);
    }
  }

  /** Two distinct places within one turn are two distinct slots. */
  lemma NthApart(i: nat, k: nat, k': nat, n: nat)
    requires i < n && k < n && k' < n && k != k'
    ensures Nth(i, k, n) != Nth(i, k', n) && Nth(i, k, n) < n
  {
  }

  /** The producer's two slot writes. */
  lemma ProducerWrites(s: State)
    requires Inv(s) && (s.producer.PSawEmpty? || s.producer.PWroteLen?)
    ensures SlotsOk(ProducerNext(s))
  {
    var s', m := ProducerNext(s), |Contents(s)|;
    if s.producer.PWroteLen? {
      assert Contents(s') == Contents(s) + [s.producer.x];
    }
    forall k | 0 <= k < s.n
      ensures s'.slots[Nth(s.oldest, k, s.n)] == Expected(s', k)
    {
      assert s.slots[Nth(s.oldest, k, s.n)] == Expected(s, k);
      if k != m {
        NthApart(s.oldest, k, m, s.n);
      }
    }
  }

  /** A step that writes no slot and touches neither half-written state leaves the slots as expected. */
  lemma QuietSlots(s: State, s': State)
    requires SlotsOk(s)
    requires s'.n == s.n && s'.slots == s.slots && s'.oldest == s.oldest && s'.next == s.next
    requires s'.accepted == s.accepted && s'.removed == s.removed
    requires (!s.producer.PWroteLen? && !s'.producer.PWroteLen?) || s'.producer == s.producer
    requires (!s.consumer.CClearedLen? && !s'.consumer.CClearedLen?) || s'.consumer == s.consumer
    ensures SlotsOk(s') && Contents(s') == Contents(s)
  {
    forall k | 0 <= k < s.n
      ensures s'.slots[Nth(s.oldest, k, s.n)] == Expected(s', k)
    {
      assert Expected(s', k) == Expected(s, k);
    }
  }

  /** The other side does not notice: more at the back for the consumer, less at the front for the producer. */
  lemma ConsumerUndisturbed(s: State, s': State)
    requires SlotsOk(s) && SlotsOk(s') && ConsumerOk(s) && Contents(s) <= Contents(s')
    requires s'.n == s.n && s'.consumer == s.consumer && s'.consIndex == s.consIndex && s'.oldest == s.oldest
    ensures ConsumerOk(s')
  {
    hide SlotsOk, Contents;
  }

  lemma ProducerUndisturbed(s: State, s': State)
    requires SlotsOk(s) && SlotsOk(s') && ProducerOk(s) && |Contents(s')| <= |Contents(s)|
    requires s'.n == s.n && s'.producer == s.producer && s'.prodIndex == s.prodIndex && s'.next == s.next
    ensures ProducerOk(s')
  {
    hide SlotsOk, Contents;
  }

  lemma ProducerHistory(s: State)
    requires HistoryOk(s) && SlotsOk(s) && ProducerOk(s) && Enabled(s, ProducerStep)
    ensures HistoryOk(ProducerNext(s)) && Contents(s) <= Contents(ProducerNext(s))
    ensures !s.producer.PWroteLen? ==> Contents(ProducerNext(s)) == Contents(s)
  {
    hide SlotsOk;
  }

  /** What the producer reads tells it the truth. */
  lemma ProducerMoves(s: State)
    requires Inv(s) && Enabled(s, ProducerStep) && SlotsOk(ProducerNext(s))
    ensures ProducerOk(ProducerNext(s))
  {
    hide SlotsOk, ConsumerOk, HistoryOk, Contents, Expected;
    SlotsTell(s);
    ProducerHistory(s);
  }

  lemma ProducerInv(s: State)
    requires Inv(s) && Enabled(s, ProducerStep)
    ensures Inv(ProducerNext(s))
  {
    hide SlotsOk, ProducerOk, ConsumerOk, HistoryOk, Contents;
    var s' := ProducerNext(s);
    if s.producer.PSawEmpty? || s.producer.PWroteLen? {
      ProducerWrites(s);
    } else {
      QuietSlots(s, s');
    }
    ProducerHistory(s);
    ProducerMoves(s);
    ConsumerUndisturbed(s, s');
  }

  /** The consumer's two slot writes. */
  lemma ConsumerWrites(s: State)
    requires Inv(s) && (s.consumer.CGotLen? || s.consumer.CClearedLen?)
    ensures SlotsOk(ConsumerNext(s))
  {
    var s' := ConsumerNext(s);
    var d := if s.consumer.CClearedLen? then 1 else 0;
    assert Contents(s') == Contents(s)[d..];
    forall k | 0 <= k < s.n
      ensures s'.slots[Nth(s'.oldest, k, s.n)] == Expected(s', k)
    {
      var k' := if k + d < s.n then k + d else 0;
      assert Nth(s'.oldest, k, s.n) == Nth(s.oldest, k', s.n);
      assert s.slots[Nth(s.oldest, k', s.n)] == Expected(s, k');
      if k' != 0 {
        NthApart(s.oldest, k', 0, s.n);
      }
    }
  }

  lemma ConsumerHistory(s: State)
    requires HistoryOk(s) && SlotsOk(s) && ConsumerOk(s) && Enabled(s, ConsumerStep)
    ensures HistoryOk(ConsumerNext(s)) && |Contents(ConsumerNext(s))| <= |Contents(s)|
    ensures !s.consumer.CClearedLen? ==> Contents(ConsumerNext(s)) == Contents(s)
  {
    hide SlotsOk;
  }

  /** What the consumer reads tells it the truth. */
  lemma ConsumerMoves(s: State)
    requires Inv(s) && Enabled(s, ConsumerStep) && SlotsOk(ConsumerNext(s))
    ensures ConsumerOk(ConsumerNext(s))
  {
    hide SlotsOk, ProducerOk, HistoryOk, Contents, Expected;
    SlotsTell(s);
    ConsumerHistory(s);
  }

  lemma ConsumerInv(s: State)
    requires Inv(s) && Enabled(s, ConsumerStep)
    ensures Inv(ConsumerNext(s))
  {
    hide SlotsOk, ProducerOk, ConsumerOk, HistoryOk, Contents;
    var s' := ConsumerNext(s);
    if s.consumer.CGotLen? || s.consumer.CClearedLen? {
      ConsumerWrites(s);
    } else {
      QuietSlots(s, s');
    }
    ConsumerHistory(s);
    ConsumerMoves(s);
    ProducerUndisturbed(s, s');
  }

  /** Taking a lock changes no slot and no index. */
  lemma StartInv(s: State, s': State)
    requires Inv(s) && s' == s.(producer := s'.producer, consumer := s'.consumer)
    requires || s.producer == s'.producer
             || (s.producer.PIdle? && s'.producer.PLocked? && Real(s'.producer.x))
             || (s.producer.PIdle? && s'.producer.PDone?)
    requires s.consumer == s'.consumer || (s.consumer.CIdle? && s'.consumer.CLocked?)
    ensures Inv(s')
  {
    hide Expected, Nth;
    QuietSlots(s, s');
  }

  lemma StepInv(s: State, a: Action)
    requires Inv(s) && Enabled(s, a)
    ensures Inv(Step(s, a)) && Step(s, a).n == s.n
  {
    hide Inv;
    match a
    case ProducerStep => ProducerInv(s);
    case ConsumerStep => ConsumerInv(s);
    case StartAdd(_) => StartInv(s, Step(s, a));
    case StartRemove(_) => StartInv(s, Step(s, a));
  }

  // ------------------------------------------------------------------ every run

  /** A run from the empty ring. */
  ghost predicate IsRun(n: nat, acts: seq<Action>, s: State)
    decreases |acts|
  {
    if acts == [] then s == Init(n)
    else
      var m := |acts| - 1;
      exists s0 :: IsRun(n, acts[..m], s0) && Enabled(s0, acts[m]) && s == Step(s0, acts[m])
  }

  lemma {:induction false} RunInv(n: nat, acts: seq<Action>, s: State)
    requires n > 0 && IsRun(n, acts, s)
    ensures Inv(s) && s.n == n
    decreases |acts|
  {
    hide Inv;
    if acts == [] {
      InitInv(n);
    } else {
      var m := |acts| - 1;
      var s0 :| IsRun(n, acts[..m], s0) && Enabled(s0, acts[m]) && s == Step(s0, acts[m]);
      RunInv(n, acts[..m], s0);
      StepInv(s0, acts[m]);
    }
  }

  /**
   An add is turned down only while all `n` slots are taken, or for a null buffer or a length of zero; a remove finds
   nothing only while nothing is queued.
   */
  lemma RefusalsAreJust(s: State, a: Action)
    requires Inv(s) && Enabled(s, a)
    ensures var s' := Step(s, a);
            && (s'.producer.PDone? && !s'.producer.ok && !s.producer.PDone? ==>
                  |s.accepted| - |s.removed| == s.n || s'.producer.x.buf == 0 || s'.producer.x.len == 0)
            && (s'.consumer.CDone? && !s'.consumer.ok && !s.consumer.CDone? ==> s.removed == s.accepted)
  {
    SlotsTell(s);
    assert s.accepted == s.removed + Contents(s);
    hide Expected, Nth;
  }

  lemma InOrder(s: State)
    requires Inv(s)
    ensures s.removed <= s.accepted && |s.accepted| - |s.removed| <= s.n
    ensures forall i :: 0 <= i < |s.accepted| ==> s.accepted[i].buf != 0 && s.accepted[i].len != 0
  {
  }

  /** The entries of the calls that were told they succeeded. */
  function Yes(answers: seq<Answer>): seq<Slot> {
    if answers == [] then []
    else
      var m := |answers| - 1;
      Yes(answers[..m]) + if answers[m].ok then [answers[m].x] else []
  }

  lemma YesMore(answers: seq<Answer>, a: Answer)
    ensures Yes(answers + [a]) == Yes(answers) + if a.ok then [a.x] else []
  {
    assert (answers + [a])[..|answers|] == answers;
  }

  /** The entry that an add has published, or a remove has cleared, before it returns. */
  function Adding(p: Producer): seq<Slot> {
    if p.PWroteBuf? || p.PBumped? || (p.PDone? && p.ok) then [p.x] else []
  }

  function Removing(c: Consumer): seq<Slot> {
    if c.CClearedBuf? || c.CBumped? || (c.CDone? && c.ok) then [c.copy] else []
  }

  /** The entries passed to add, and the number of removes, read off the calls of a run. */
  function Asked(acts: seq<Action>): seq<Slot> {
    if acts == [] then []
    else
      var m := |acts| - 1;
      Asked(acts[..m]) + if acts[m].StartAdd? then [acts[m].x] else []
  }

  function Removes(acts: seq<Action>): nat {
    if acts == [] then 0
    else
      var m := |acts| - 1;
      Removes(acts[..m]) + if acts[m].StartRemove? then 1 else 0
  }

  /** The callers were told the truth: published is what adds said yes to, taken out what removes gave away. */
  ghost predicate Told(s: State) {
    s.accepted == Yes(s.added) + Adding(s.producer) && s.removed == Yes(s.handed) + Removing(s.consumer)
  }

  lemma StepTold(s: State, a: Action)
    requires Told(s) && Enabled(s, a)
    ensures Told(Step(s, a))
  {
    hide Yes;
    if a.ProducerStep? && s.producer.PDone? {
      YesMore(s.added, Answer(s.producer.x, s.producer.ok));
    }
    if a.ConsumerStep? && s.consumer.CDone? {
      YesMore(s.handed, Answer(s.consumer.copy, s.consumer.ok));
    }
  }

  /** Every call is answered once, in order, about the entry it was called with. */
  ghost predicate Answered(acts: seq<Action>, s: State) {
    && |Asked(acts)| == |s.added| + (if s.producer.PIdle? then 0 else 1)
    && (forall i :: 0 <= i < |s.added| ==> s.added[i].x == Asked(acts)[i])
    && (!s.producer.PIdle? ==> s.producer.x == Asked(acts)[|s.added|])
    && Removes(acts) == |s.handed| + if s.consumer.CIdle? then 0 else 1
  }

  lemma StepAnswered(acts: seq<Action>, s: State, a: Action)
    requires Answered(acts, s) && Enabled(s, a)
    ensures Answered(acts + [a], Step(s, a))
  {
    assert (acts + [a])[..|acts|] == acts;
    assert Asked(acts + [a]) == Asked(acts) + if a.StartAdd? then [a.x] else [];
  }

  lemma {:induction false} RunTold(n: nat, acts: seq<Action>, s: State)
    requires IsRun(n, acts, s)
    ensures Told(s) && Answered(acts, s)
    decreases |acts|
  {
    hide Told, Answered, Step, Enabled;
    if acts == [] {
      InitTold(n);
    } else {
      var m := |acts| - 1;
      var s0 :| IsRun(n, acts[..m], s0) && Enabled(s0, acts[m]) && s == Step(s0, acts[m]);
      RunTold(n, acts[..m], s0);
      StepTold(s0, acts[m]);
      StepAnswered(acts[..m], s0, acts[m]);
      assert acts[..m] + [acts[m]] == acts;
    }
  }

  lemma InitTold(n: nat)
    ensures Told(Init(n)) && Answered([], Init(n))
  {
  }

  /**
   What the callers see, on every run: with nobody inside a call, the entries that removes returned are, in order, the
   first of those that adds were told are queued, at most `n` are outstanding, and every add was answered about its own
   entry.
   */
  lemma CallersSee(n: nat, acts: seq<Action>, s: State)
    requires n > 0 && IsRun(n, acts, s) && s.producer.PIdle? && s.consumer.CIdle?
    ensures Yes(s.handed) <= Yes(s.added) && |Yes(s.added)| - |Yes(s.handed)| <= n
    ensures |s.added| == |Asked(acts)| && forall i :: 0 <= i < |s.added| ==> s.added[i].x == Asked(acts)[i]
    ensures |s.handed| == Removes(acts)
  {
    hide Inv, IsRun, Asked, Yes;
    RunTold(n, acts, s);
    assert s.accepted == Yes(s.added) && s.removed == Yes(s.handed);
    RunInv(n, acts, s);
    InOrder(s);
  }

  /**
   Linearizability on every run, with any interleaving of the two sides: entries are handed out once each in the
   order they were accepted, all `n` slots can be used, and full and empty are never confused.
   */
  lemma Linearizable(n: nat, acts: seq<Action>, s: State, a: Action)
    requires n > 0 && IsRun(n, acts, s) && Enabled(s, a)
    ensures var s' := Step(s, a);
            && s'.removed <= s'.accepted && |s'.accepted| - |s'.removed| <= n
            && (s'.producer.PDone? && !s'.producer.ok && !s.producer.PDone? ==>
                  |s.accepted| - |s.removed| == n || s'.producer.x.buf == 0 || s'.producer.x.len == 0)
            && (forall i :: 0 <= i < |s'.accepted| ==> s'.accepted[i].buf != 0 && s'.accepted[i].len != 0)
            && (s'.consumer.CDone? && !s'.consumer.ok && !s.consumer.CDone? ==> s.removed == s.accepted)
            && (s'.accepted != s.accepted ==>
                  a.ProducerStep? && s'.producer.PWroteBuf? && s'.accepted == s.accepted + [s'.producer.x])
            && (s'.removed != s.removed ==>
                  a.ConsumerStep? && s'.consumer.CClearedBuf? && s'.removed == s.removed + [s'.consumer.copy])
            && s'.accepted == Yes(s'.added) + Adding(s'.producer)
            && s'.removed == Yes(s'.handed) + Removing(s'.consumer)
  {
    hide Inv, IsRun, Yes;
    RunTold(n, acts, s);
    StepTold(s, a);
    RunInv(n, acts, s);
    StepInv(s, a);
    RefusalsAreJust(s, a);
    InOrder(Step(s, a));
  }

  /**
   When both sides are between operations the stored indices coincide only when the ring is empty or full, and the slot
   tells which.
   */
  lemma IndicesCoincide(n: nat, acts: seq<Action>, s: State)
    requires n > 0 && IsRun(n, acts, s) && s.producer.PIdle? && s.consumer.CIdle?
    ensures s.consIndex < |s.slots|
    ensures s.prodIndex == s.consIndex <==> s.accepted == s.removed || |s.accepted| == |s.removed| + n
    ensures s.prodIndex == s.consIndex ==> (s.slots[s.consIndex].buf == 0 <==> s.accepted == s.removed)
  {
    RunInv(n, acts, s);
    SlotsTell(s);
    assert s.accepted == s.removed + Contents(s);
  }

  // ------------------------------------------------------------------ progress

  /** Accesses an add has still to make, at most; and a remove. */
  function AddLeft(p: Producer): nat {
    match p
    case PIdle => 0
    case PDone(_, _) => 1
    case PBumped(_) => 2
    case PWroteBuf(_) => 3
    case PWroteLen(_) => 4
    case PSawEmpty(_) => 5
    case PSawNoBuf(_) => 6
    case PLocked(_) => 7
  }

  function RemoveLeft(c: Consumer): nat {
    match c
    case CIdle => 0
    case CDone(_, _) => 1
    case CBumped(_) => 2
    case CClearedBuf(_) => 3
    case CClearedLen(_) => 4
    case CGotLen(_) => 5
    case CGotBuf(_) => 6
    case CChecked(_) => 7
    case CSawBuf(_) => 8
    case CLocked(_) => 9
  }

  /** A call never waits for the other side: it can always make its next access, and the other side does not add any. */
  lemma WaitFree(n: nat, acts: seq<Action>, s: State, a: Action)
    requires n > 0 && IsRun(n, acts, s)
    ensures !s.producer.PIdle? ==> Enabled(s, ProducerStep)
    ensures !s.consumer.CIdle? ==> Enabled(s, ConsumerStep)
    ensures Enabled(s, a) ==>
              var s' := Step(s, a);
              && (a.ProducerStep? ==> AddLeft(s'.producer) < AddLeft(s.producer) && s'.consumer == s.consumer)
              && (a.ConsumerStep? ==> RemoveLeft(s'.consumer) < RemoveLeft(s.consumer) && s'.producer == s.producer)
              && (a.StartAdd? ==> AddLeft(s'.producer) == (if Real(a.x) then 7 else 1) && s'.consumer == s.consumer)
              && (a.StartRemove? ==> RemoveLeft(s'.consumer) == 9 && s'.producer == s.producer)
  {
    hide Inv, IsRun, ProducerNext, ConsumerNext, AddLeft, RemoveLeft;
    RunInv(n, acts, s);
    InSlots(s);
    match a
    case ProducerStep => if Enabled(s, a) { AddAdvances(s); }
    case ConsumerStep => if Enabled(s, a) { RemoveAdvances(s); }
    case StartAdd(x) => LeftAtStart(x, false);
    case StartRemove(bulk) => LeftAtStart(EMPTY, bulk);
  }

  lemma LeftAtStart(x: Slot, bulk: bool)
    ensures AddLeft(PLocked(x)) == 7 && AddLeft(PDone(x, false)) == 1 && RemoveLeft(CLocked(bulk)) == 9
  {
  }

  lemma AddAdvances(s: State)
    requires Enabled(s, ProducerStep)
    ensures AddLeft(ProducerNext(s).producer) < AddLeft(s.producer) && ProducerNext(s).consumer == s.consumer
  {
  }

  lemma RemoveAdvances(s: State)
    requires Enabled(s, ConsumerStep)
    ensures RemoveLeft(ConsumerNext(s).consumer) < RemoveLeft(s.consumer) && ConsumerNext(s).producer == s.producer
  {
  }

  lemma InSlots(s: State)
    requires Inv(s)
    ensures s.prodIndex < |s.slots| || s.producer.PBumped?
    ensures s.consIndex < |s.slots| || s.consumer.CBumped?
  {
    SlotsTell(s);
    hide SlotsOk, Expected;
  }
}
