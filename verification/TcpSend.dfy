/**
 The retransmit window of a TCP connection: tcp_connection::tcp_write, housekeeper and the acknowledgement part of
 tcp_read (fs/tcp.cc). Each of the three runs as one step.
 */
module TcpSend {
  import opened Checksum
  import R = TcpReceive

  const MAX_TCPSND_WINDOW: nat := 80
  const MAX_PAYLOAD: nat := 16384 - 100
  const HEADERS: nat := 54

  /** A send_queue slot: the frame length (0: free), the number of its first byte, its payload and when it was sent. */
  datatype Slot = Slot(len: nat, seqNo: u32, data: seq<byte>, lastSend: nat)
  {
    predicate Live() { len != 0 }
  }

  datatype Sender = Sender(slots: seq<Slot>, sendSeqNo: u32, sendAckNo: u32, squeueSize: int, retransmitTs: nat)

  /** The test both loops use before they free a slot. */
  predicate Acked(s: Slot, ackNo: u32) {
    s.Live() && ackNo > s.seqNo
  }

  // ------------------------------------------------------------------ the operations as functions

  /** The acknowledged slots among the first `n` freed. */
  function Swept(slots: seq<Slot>, ackNo: u32, n: nat): (r: seq<Slot>)
    ensures |r| == |slots|
    ensures forall i :: 0 <= i < |r| ==> r[i] == FreeIf(slots[i], i < n && Acked(slots[i], ackNo))
  {
    seq(|slots|, i requires 0 <= i < |slots| => FreeIf(slots[i], i < n && Acked(slots[i], ackNo)))
  }

  function FreeIf(s: Slot, free: bool): Slot {
    if free then s.(len := 0) else s
  }

  function FirstFree(slots: seq<Slot>): (i: nat)
    ensures i <= |slots| && (i < |slots| ==> !slots[i].Live()) && forall j :: 0 <= j < i ==> slots[j].Live()
  {
    if slots == [] || !slots[0].Live() then 0 else 1 + FirstFree(slots[1..])
  }

  /** What of the caller's bytes fits into one frame. */
  function Capped(data: seq<byte>): (d: seq<byte>)
    ensures d <= data && |d| <= MAX_PAYLOAD && (|data| <= MAX_PAYLOAD ==> d == data)
    ensures |data| > MAX_PAYLOAD ==> |d| == MAX_PAYLOAD
  {
    if |data| > MAX_PAYLOAD then data[..MAX_PAYLOAD] else data
  }

  /** tcp_write: sweep up to the first free slot and fill that one. */
  function Written(c: Sender, data: seq<byte>, now: nat): Sender {
    var i, d := FirstFree(c.slots), Capped(data);
    var swept := Swept(c.slots, c.sendAckNo, i);
    if i == |c.slots| then c.(slots := swept)
    else c.(slots := swept[i := Slot(HEADERS + |d|, c.sendSeqNo, d, now)],
            sendSeqNo := R.Advance(c.sendSeqNo, |d|), squeueSize := c.squeueSize + 1)
  }

  /** What one turn of the housekeeper's loop leaves; `ok`: the frame went out. */
  function Kept(s: Slot, ackNo: u32, now: nat, ok: bool): Slot {
    if Acked(s, ackNo) then s.(len := 0)
    else if s.Live() && s.lastSend != now && ok then s.(lastSend := now)
    else s
  }

  function CountAcked(slots: seq<Slot>, ackNo: u32): nat {
    if slots == [] then 0
    else (if Acked(slots[|slots| - 1], ackNo) then 1 else 0) + CountAcked(slots[..|slots| - 1], ackNo)
  }

  lemma CountNone(ackNo: u32)
    ensures CountAcked([], ackNo) == 0
  {
  }

  lemma CountNext(slots: seq<Slot>, ackNo: u32, i: nat)
    requires i < |slots|
    ensures CountAcked(slots[..i + 1], ackNo) == CountAcked(slots[..i], ackNo) + if Acked(slots[i], ackNo) then 1 else 0
  {
    assert slots[..i + 1][..i] == slots[..i];
  }

  predicate Idle(c: Sender, now: nat) {
    c.squeueSize == 0 || c.retransmitTs == now
  }

  /** `ok`: the slots whose frame the driver takes. */
  function Housekept(c: Sender, now: nat, ok: set<nat>): Sender {
    if Idle(c, now) then c
    else c.(slots := seq(|c.slots|, i requires 0 <= i < |c.slots| => Kept(c.slots[i], c.sendAckNo, now, i in ok)),
            squeueSize := c.squeueSize - CountAcked(c.slots, c.sendAckNo), retransmitTs := now)
  }

  // ------------------------------------------------------------------ the connection

  class TcpConnection {
    const sendQueue: array<Slot>
    var sendSeqNo: u32
    var sendAckNo: u32
    var squeueSize: int
    var retransmitTs: nat

    ghost function Contents(): Sender
      reads this, sendQueue
    {
      Sender(sendQueue[..], sendSeqNo, sendAckNo, squeueSize, retransmitTs)
    }

    /** The send side of tcp_conn_new. */
    constructor (initial: u32)
      ensures Contents() == Fresh(initial) && fresh(sendQueue)
    {
      sendQueue := new Slot[MAX_TCPSND_WINDOW](_ => Slot(0, 0, [], 0));
      sendSeqNo := initial;
      sendAckNo := 0;
      squeueSize := 0;
      retransmitTs := 0;
    }

    method TcpWrite(data: seq<byte>, now: nat) returns (n: nat)
      modifies this, sendQueue
      ensures Contents() == Written(old(Contents()), data, now)
      ensures n <= |data| && n <= MAX_PAYLOAD
      ensures (exists i :: 0 <= i < sendQueue.Length && old(sendQueue[i]).len == 0) ==>
                && (n == |data| || n == MAX_PAYLOAD) && sendSeqNo == (old(sendSeqNo) + n) % 0x1_0000_0000
                && exists i ::
                     && 0 <= i < sendQueue.Length && old(sendQueue[i]).len == 0
                     && sendQueue[i] == Slot(HEADERS + n, old(sendSeqNo), data[..n], now)
      ensures (forall i :: 0 <= i < sendQueue.Length ==> old(sendQueue[i]).len != 0) ==>
                n == 0 && sendSeqNo == old(sendSeqNo) && squeueSize == old(squeueSize)
    {
      var d := Capped(data);
      ghost var free := FirstFree(sendQueue[..]);
      ghost var before := sendQueue[..];
      var i := 0;
      while i < sendQueue.Length
        invariant 0 <= i <= sendQueue.Length && i <= free
        invariant sendQueue[..] == Swept(before, sendAckNo, i)
        invariant sendSeqNo == old(sendSeqNo) && sendAckNo == old(sendAckNo)
        invariant squeueSize == old(squeueSize) && retransmitTs == old(retransmitTs)
      {
        assert sendQueue[i] == before[i];
        if sendQueue[i].len != 0 && sendAckNo > sendQueue[i].seqNo {
          sendQueue[i] := sendQueue[i].(len := 0);
        } else if sendQueue[i].len == 0 {
          sendQueue[i] := Slot(HEADERS + |d|, sendSeqNo, d, now);
          squeueSize := squeueSize + 1;
          sendSeqNo := R.Advance(sendSeqNo, |d|);
          assert d == data[..|d|];
          return |d|;
        }
        i := i + 1;
      }
      return 0;
    }

    /** The acknowledgement part of tcp_read. */
    method AckReceived(ackNo: u32)
      modifies `sendAckNo
      ensures Contents() == old(Contents()).(sendAckNo := ackNo)
    {
      sendAckNo := ackNo;
    }

    /** One turn of the housekeeper's loop; `again`: the frame is handed to the driver, which takes it if `ok`. */
    method Revisit(i: nat, now: nat, ok: bool) returns (again: bool)
      requires i < sendQueue.Length
      modifies sendQueue, `squeueSize
      ensures sendQueue[i] == Kept(old(sendQueue[i]), sendAckNo, now, ok)
      ensures forall j :: 0 <= j < sendQueue.Length && j != i ==> sendQueue[j] == old(sendQueue[j])
      ensures squeueSize == old(squeueSize) - if Acked(old(sendQueue[i]), sendAckNo) then 1 else 0
      ensures again <==>
              && old(sendQueue[i]).Live() && !Acked(old(sendQueue[i]), sendAckNo)
              && old(sendQueue[i]).lastSend != now
    {
      if sendQueue[i].len == 0 {
        return false;
      }
      if sendAckNo > sendQueue[i].seqNo {
        sendQueue[i] := sendQueue[i].(len := 0);
        squeueSize := squeueSize - 1;
        return false;
      }
      if now == sendQueue[i].lastSend {
        return false;
      }
      if ok {
        sendQueue[i] := sendQueue[i].(lastSend := now);
      }
      return true;
    }

    /** `resent`: the slots whose frame is handed to the driver again. */
    method Housekeeper(now: nat, ok: set<nat>) returns (resent: seq<nat>)
      modifies this, sendQueue
      ensures Contents() == Housekept(old(Contents()), now, ok)
      ensures old(squeueSize) == 0 || old(retransmitTs) == now ==> Contents() == old(Contents()) && resent == []
      ensures old(squeueSize) != 0 && old(retransmitTs) != now ==>
                forall i :: 0 <= i < sendQueue.Length ==>
                  var was := old(sendQueue[i]);
                  && sendQueue[i].seqNo == was.seqNo && sendQueue[i].data == was.data
                  && (sendAckNo > was.seqNo ==> sendQueue[i].len == 0)
                  && (sendAckNo <= was.seqNo ==> sendQueue[i].len == was.len)
                  && (sendAckNo <= was.seqNo && was.len != 0 ==>
                        && (i in resent <==> was.lastSend != now)
                        && sendQueue[i].lastSend == if i in ok then now else was.lastSend)
      ensures forall i: nat :: i in resent <==> Resends(old(Contents()), now, i)
    {
      if squeueSize == 0 || retransmitTs == now {
        return [];
      }
      KeptCases(sendQueue[..], sendAckNo, now, ok);
      hide CountAcked, Kept;
      resent := HousekeeperPass(now, ok);
    }

    /** The loop of the housekeeper. */
    method HousekeeperPass(now: nat, ok: set<nat>) returns (resent: seq<nat>)
      requires !Idle(Contents(), now)
      modifies this, sendQueue
      ensures Contents() == Housekept(old(Contents()), now, ok)
      ensures forall i: nat :: i in resent <==> Resends(old(Contents()), now, i)
      ensures forall i :: 0 <= i < sendQueue.Length ==>
                sendQueue[i] == Kept(old(sendQueue[i]), sendAckNo, now, i in ok)
    {
      resent := [];
      hide CountAcked, Kept;
      ghost var before, c := sendQueue[..], Contents();
      ghost var kept := Housekept(c, now, ok).slots;
      CountNone(sendAckNo);
      assert before[..0] == [];
      var i := 0;
      while i < sendQueue.Length
        invariant 0 <= i <= sendQueue.Length
        invariant forall j :: 0 <= j < i ==> sendQueue[j] == kept[j]
        invariant forall j :: i <= j < sendQueue.Length ==> sendQueue[j] == before[j]
        invariant forall j: nat :: j in resent <==> j < i && Resends(c, now, j)
        invariant squeueSize == old(squeueSize) - CountAcked(before[..i], sendAckNo)
        invariant sendSeqNo == old(sendSeqNo) && sendAckNo == old(sendAckNo) && retransmitTs == old(retransmitTs)
      {
        CountNext(before, sendAckNo, i);
        var again := Revisit(i, now, i in ok);
        if again {
          resent := resent + [i];
        }
        i := i + 1;
      }
      assert before[..i] == before && sendQueue[..] == kept;
      retransmitTs := now;
    }
  }

  lemma KeptCases(slots: seq<Slot>, ackNo: u32, now: nat, ok: set<nat>)
    ensures forall i :: 0 <= i < |slots| ==>
              var was, s := slots[i], Kept(slots[i], ackNo, now, i in ok);
              && s.seqNo == was.seqNo && s.data == was.data
              && (ackNo > was.seqNo ==> s.len == 0) && (ackNo <= was.seqNo ==> s.len == was.len)
              && (ackNo <= was.seqNo && was.len != 0 ==> s.lastSend == if i in ok then now else was.lastSend)
  {
  }

  /** The housekeeper sends slot `i` again. */
  predicate Resends(c: Sender, now: nat, i: nat) {
    && !Idle(c, now) && i < |c.slots| && c.slots[i].Live()
    && !Acked(c.slots[i], c.sendAckNo) && c.slots[i].lastSend != now
  }

  function Fresh(initial: u32): Sender {
    Sender(seq(MAX_TCPSND_WINDOW, _ => Slot(0, 0, [], 0)), initial, 0, 0, 0)
  }

  // ------------------------------------------------------------------ runs

  /** A segment by its true number, which does not wrap. */
  datatype Sent = Sent(seqNo: nat, data: seq<byte>)
  {
    function End(): nat { seqNo + |data| }
  }

  /** The 32-bit field a true number is sent in. */
  function Field(n: nat): u32 {
    n % R.WRAP
  }

  /**
   A connection with its history in true numbers: every segment sent, which of them each slot was last filled with, the
   next number, the last ACK and the highest one.
   */
  datatype Run = Run(c: Sender, sent: seq<Sent>, holds: seq<nat>, next: nat, ackNo: nat, highest: nat)

  /** The ACK carries the field of any number whatever. */
  datatype Event = Write(data: seq<byte>, now: nat) | Ack(ackNo: nat) | Housekeep(now: nat, ok: set<nat>)

  function Next(r: Run, e: Event): Run {
    match e
    case Write(data, now) =>
      var i, d := FirstFree(r.c.slots), Capped(data);
      if i < |r.c.slots| && i < |r.holds|
      then r.(c := Written(r.c, data, now), sent := r.sent + [Sent(r.next, d)], holds := r.holds[i := |r.sent|],
              next := r.next + |d|)
      else r.(c := Written(r.c, data, now))
    case Ack(ackNo) =>
      r.(c := r.c.(sendAckNo := Field(ackNo)), ackNo := ackNo,
         highest := if ackNo > r.highest then ackNo else r.highest)
    case Housekeep(now, ok) => r.(c := Housekept(r.c, now, ok))
  }

  function Start(initial: u32): Run {
    Run(Fresh(initial), [], seq(MAX_TCPSND_WINDOW, _ => 0), initial, 0, 0)
  }

  function Replay(initial: u32, events: seq<Event>): Run {
    if events == [] then Start(initial) else Next(Replay(initial, events[..|events| - 1]), events[|events| - 1])
  }

  // ------------------------------------------------------------------ what every run keeps

  /** The segments follow each other without gaps from `initial` to `end`. */
  ghost predicate Contiguous(sent: seq<Sent>, initial: nat, end: nat) {
    && (sent == [] ==> initial == end)
    && (sent != [] ==> sent[0].seqNo == initial && sent[|sent| - 1].End() == end)
    && forall k :: 0 <= k < |sent| - 1 ==> sent[k].End() == sent[k + 1].seqNo
  }

  /** Every live slot holds a segment under the field of its number, and no two the same. */
  ghost predicate Holding(slots: seq<Slot>, sent: seq<Sent>, holds: seq<nat>) {
    && |slots| == |holds|
    && (forall i :: 0 <= i < |slots| && slots[i].Live() ==>
          && holds[i] < |sent| && slots[i].data == sent[holds[i]].data
          && slots[i].seqNo == Field(sent[holds[i]].seqNo))
    && (forall i, j :: 0 <= i < j < |slots| && slots[i].Live() && slots[j].Live() ==> holds[i] != holds[j])
  }

  function CountLive(slots: seq<Slot>): nat {
    if slots == [] then 0 else (if slots[|slots| - 1].Live() then 1 else 0) + CountLive(slots[..|slots| - 1])
  }

  ghost predicate Inv(r: Run, initial: nat) {
    && Contiguous(r.sent, initial, r.next) && Holding(r.c.slots, r.sent, r.holds)
    && |r.c.slots| == MAX_TCPSND_WINDOW && CountLive(r.c.slots) <= r.c.squeueSize
    && r.c.sendSeqNo == Field(r.next) && r.c.sendAckNo == Field(r.ackNo) && r.ackNo <= r.highest
  }

  lemma {:induction false} SweptCount(slots: seq<Slot>, ackNo: u32, n: nat)
    requires n <= |slots|
    ensures CountLive(Swept(slots, ackNo, n)) + CountAcked(slots[..n], ackNo) == CountLive(slots)
  {
    if slots != [] {
      var m := |slots| - 1;
      var k := if n <= m then n else m;
      SweptCount(slots[..m], ackNo, k);
      assert Swept(slots, ackNo, n)[..m] == Swept(slots[..m], ackNo, k);
      assert slots[..m][..k] == slots[..k] && slots[..m + 1] == slots;
    }
  }

  lemma {:induction false} FilledCount(slots: seq<Slot>, i: nat, s: Slot)
    requires i < |slots| && !slots[i].Live()
    ensures CountLive(slots[i := s]) == CountLive(slots) + if s.Live() then 1 else 0
  {
    var m := |slots| - 1;
    if i < m {
      FilledCount(slots[..m], i, s);
      assert slots[i := s][..m] == slots[..m][i := s];
    } else {
      assert slots[i := s][..m] == slots[..m];
    }
  }

  lemma {:induction false} KeptCount(slots: seq<Slot>, kept: seq<Slot>, ackNo: u32, now: nat, ok: set<nat>)
    requires |kept| == |slots|
    requires forall i :: 0 <= i < |slots| ==> kept[i] == Kept(slots[i], ackNo, now, i in ok)
    ensures CountLive(kept) + CountAcked(slots, ackNo) == CountLive(slots)
  {
    if slots != [] {
      var m := |slots| - 1;
      KeptCount(slots[..m], kept[..m], ackNo, now, ok);
    }
  }

  lemma {:induction false} NoneLive(slots: seq<Slot>)
    ensures CountLive(slots) == 0 <==> forall i :: 0 <= i < |slots| ==> !slots[i].Live()
  {
    if slots != [] {
      var m := |slots| - 1;
      NoneLive(slots[..m]);
      assert slots == slots[..m] + [slots[m]];
    }
  }

  /** A freeing pass over the first `n` slots: exactly the acknowledged ones among them are freed. */
  ghost predicate Pass(before: seq<Slot>, after: seq<Slot>, ackNo: u32, n: nat) {
    && |after| == |before|
    && forall i :: 0 <= i < |after| ==>
         && after[i].seqNo == before[i].seqNo && after[i].data == before[i].data
         && (after[i].Live() <==> before[i].Live() && !(i < n && Acked(before[i], ackNo)))
  }

  lemma PassHolding(before: seq<Slot>, after: seq<Slot>, ackNo: u32, n: nat, sent: seq<Sent>, holds: seq<nat>)
    requires Pass(before, after, ackNo, n) && Holding(before, sent, holds)
    ensures Holding(after, sent, holds)
  {
    hide Field;
  }

  lemma FillHolding(slots: seq<Slot>, sent: seq<Sent>, holds: seq<nat>, i: nat, s: Slot, next: nat)
    requires Holding(slots, sent, holds) && i < |slots| && !slots[i].Live() && s.seqNo == Field(next)
    ensures Holding(slots[i := s], sent + [Sent(next, s.data)], holds[i := |sent|])
  {
    hide Field;
  }

  lemma FieldAdvances(n: nat, k: nat)
    ensures R.Advance(Field(n), k) == Field(n + k)
  {
  }

  lemma WriteInv(r: Run, initial: nat, data: seq<byte>, now: nat)
    requires Inv(r, initial)
    ensures Inv(Next(r, Write(data, now)), initial)
  {
    hide Holding, CountLive, Field, R.Advance;
    var i, d := FirstFree(r.c.slots), Capped(data);
    var swept := Swept(r.c.slots, r.c.sendAckNo, i);
    PassHolding(r.c.slots, swept, r.c.sendAckNo, i, r.sent, r.holds);
    SweptCount(r.c.slots, r.c.sendAckNo, i);
    HoldingSize(r.c.slots, r.sent, r.holds);
    if i < |r.c.slots| {
      var s := Slot(HEADERS + |d|, r.c.sendSeqNo, d, now);
      FillHolding(swept, r.sent, r.holds, i, s, r.next);
      FilledCount(swept, i, s);
      FieldAdvances(r.next, |d|);
    }
  }

  lemma HoldingSize(slots: seq<Slot>, sent: seq<Sent>, holds: seq<nat>)
    requires Holding(slots, sent, holds)
    ensures |slots| == |holds|
  {
  }

  lemma HousekeepInv(r: Run, initial: nat, now: nat, ok: set<nat>)
    requires Inv(r, initial)
    ensures Inv(Next(r, Housekeep(now, ok)), initial)
  {
    hide Holding, CountLive, CountAcked, Contiguous, Field, Pass, Kept;
    if !Idle(r.c, now) {
      var kept := Housekept(r.c, now, ok).slots;
      HousekeptPass(r.c, now, ok);
      PassHolding(r.c.slots, kept, r.c.sendAckNo, |r.c.slots|, r.sent, r.holds);
      KeptCount(r.c.slots, kept, r.c.sendAckNo, now, ok);
    }
  }

  lemma HousekeptPass(c: Sender, now: nat, ok: set<nat>)
    requires !Idle(c, now)
    ensures Pass(c.slots, Housekept(c, now, ok).slots, c.sendAckNo, |c.slots|)
  {
    hide CountAcked;
  }

  /** Whatever the ACKs and however the numbers wrap. */
  lemma {:induction false} RunInv(initial: u32, events: seq<Event>)
    ensures Inv(Replay(initial, events), initial)
  {
    if events == [] {
      NoneLive(Fresh(initial).slots);
    } else {
      var m := |events| - 1;
      RunInv(initial, events[..m]);
      var r := Replay(initial, events[..m]);
      match events[m]
      case Write(data, now) => WriteInv(r, initial, data, now);
      case Ack(ackNo) => { hide Holding, CountLive, Contiguous, Field; }
      case Housekeep(now, ok) => HousekeepInv(r, initial, now, ok);
    }
  }

  // ------------------------------------------------------------------ what the window holds

  ghost predicate HeldAt(slots: seq<Slot>, holds: seq<nat>, k: nat, i: nat) {
    i < |slots| && i < |holds| && slots[i].Live() && holds[i] == k
  }

  /** The segment has bytes that nobody has acknowledged. */
  predicate Needed(s: Sent, highest: nat) {
    s.data != [] && s.End() > highest
  }

  ghost predicate AllHeld(slots: seq<Slot>, sent: seq<Sent>, holds: seq<nat>, highest: nat) {
    forall k: nat :: k < |sent| && Needed(sent[k], highest) ==> exists i: nat :: HeldAt(slots, holds, k, i)
  }

  /** Every segment with bytes at or above the highest ACK is in a live slot. */
  ghost predicate Covered(r: Run) {
    AllHeld(r.c.slots, r.sent, r.holds, r.highest)
  }

  lemma {:induction false} SegmentsInOrder(sent: seq<Sent>, initial: nat, end: nat, j: nat, k: nat)
    requires Contiguous(sent, initial, end) && j < k < |sent|
    ensures sent[j].End() <= sent[k].seqNo
    decreases k
  {
    if j < k - 1 { SegmentsInOrder(sent, initial, end, j, k - 1); }
  }

  /** Every number that was used belongs to a segment. */
  lemma {:induction false} SegmentOf(sent: seq<Sent>, initial: nat, end: nat, b: nat) returns (k: nat)
    requires Contiguous(sent, initial, end) && initial <= b < end
    ensures k < |sent| && sent[k].seqNo <= b < sent[k].End()
    decreases |sent|
  {
    k := |sent| - 1;
    if b < sent[k].seqNo {
      assert k > 0;
      k := SegmentOf(sent[..k], initial, sent[k].seqNo, b);
    }
  }

  lemma {:induction false} SegmentBounds(sent: seq<Sent>, initial: nat, end: nat, k: nat)
    requires Contiguous(sent, initial, end) && k < |sent|
    ensures initial <= sent[k].seqNo && sent[k].End() <= end
  {
    if k > 0 { SegmentsInOrder(sent, initial, end, 0, k); }
    if k < |sent| - 1 { SegmentsInOrder(sent, initial, end, k, |sent| - 1); }
  }

  /** The slot is live and holds the byte with the true number `b`. */
  predicate SlotHas(r: Run, i: nat, b: nat) {
    && i < |r.c.slots| && i < |r.holds| && r.c.slots[i].Live() && r.holds[i] < |r.sent|
    && r.sent[r.holds[i]].seqNo <= b < r.sent[r.holds[i]].End()
  }

  ghost predicate ByteHeld(r: Run, b: nat) {
    exists i: nat :: SlotHas(r, i, b)
  }

  /** Coverage in bytes. */
  lemma CoveredBytes(r: Run, initial: nat)
    requires Inv(r, initial)
    ensures Covered(r) <==> forall b: nat :: r.highest <= b && initial <= b < r.next ==> ByteHeld(r, b)
  {
    hide Field, CountLive;
    if Covered(r) {
      forall b: nat | r.highest <= b && initial <= b < r.next ensures ByteHeld(r, b) {
        var k := SegmentOf(r.sent, initial, r.next, b);
        var i: nat :| HeldAt(r.c.slots, r.holds, k, i);
        assert SlotHas(r, i, b);
      }
    }
    if forall b: nat :: r.highest <= b && initial <= b < r.next ==> ByteHeld(r, b) {
      forall k: nat | k < |r.sent| && Needed(r.sent[k], r.highest)
        ensures exists i: nat :: HeldAt(r.c.slots, r.holds, k, i)
      {
        SegmentBounds(r.sent, initial, r.next, k);
        var b: nat := r.sent[k].End() - 1;
        assert ByteHeld(r, b);
        var i: nat :| SlotHas(r, i, b);
        SameSegment(r.sent, initial, r.next, k, r.holds[i], b);
        assert HeldAt(r.c.slots, r.holds, k, i);
      }
    }
  }

  lemma SameSegment(sent: seq<Sent>, initial: nat, end: nat, k: nat, l: nat, b: nat)
    requires Contiguous(sent, initial, end) && k < |sent| && l < |sent|
    requires sent[k].seqNo <= b < sent[k].End() && sent[l].seqNo <= b < sent[l].End()
    ensures k == l
  {
    if k < l { SegmentsInOrder(sent, initial, end, k, l); }
    if l < k { SegmentsInOrder(sent, initial, end, l, k); }
  }

  /** Live slots never overlap. */
  lemma OneHolder(r: Run, initial: nat, i: nat, j: nat, b: nat)
    requires Inv(r, initial) && SlotHas(r, i, b) && SlotHas(r, j, b)
    ensures i == j
  {
    hide Field;
    SameSegment(r.sent, initial, r.next, r.holds[i], r.holds[j], b);
  }

  // ------------------------------------------------------------------ exactly when coverage is lost

  /** A pass over the first `n` slots frees slot `i`, whose segment is still needed. */
  ghost predicate LostAt(r: Run, n: nat, i: nat) {
    && i < n && i < |r.c.slots| && i < |r.holds| && Acked(r.c.slots[i], r.c.sendAckNo)
    && r.holds[i] < |r.sent| && Needed(r.sent[r.holds[i]], r.highest)
  }

  /** How many slots the event's freeing pass looks at. */
  function Reach(c: Sender, e: Event): nat {
    match e
    case Write(_, _) => FirstFree(c.slots)
    case Ack(_) => 0
    case Housekeep(now, _) => if Idle(c, now) then 0 else |c.slots|
  }

  ghost predicate PassLoses(r: Run, n: nat) {
    exists i: nat :: LostAt(r, n, i)
  }

  /** Some slot in the event's reach is numbered below the ACK field although its segment is still needed. */
  ghost predicate Loses(r: Run, e: Event) {
    PassLoses(r, Reach(r.c, e))
  }

  /** One freeing pass, for any ACK and any wrap. */
  lemma PassExact(r: Run, after: seq<Slot>, n: nat)
    requires Holding(r.c.slots, r.sent, r.holds) && Covered(r) && Pass(r.c.slots, after, r.c.sendAckNo, n)
    ensures AllHeld(after, r.sent, r.holds, r.highest) <==> !PassLoses(r, n)
  {
    hide Field, Needed;
    if i: nat :| LostAt(r, n, i) {
      var k := r.holds[i];
      forall j: nat ensures !HeldAt(after, r.holds, k, j) {
        assert HeldAt(after, r.holds, k, j) ==> HeldAt(r.c.slots, r.holds, k, j);
      }
    } else {
      forall k: nat | k < |r.sent| && Needed(r.sent[k], r.highest)
        ensures exists i: nat :: HeldAt(after, r.holds, k, i)
      {
        var i: nat :| HeldAt(r.c.slots, r.holds, k, i);
        assert !LostAt(r, n, i);
        assert HeldAt(after, r.holds, k, i);
      }
    }
  }

  /** Filling a free slot with the new segment neither loses nor regains an older one. */
  lemma FillHeld(slots: seq<Slot>, sent: seq<Sent>, holds: seq<nat>, highest: nat, i: nat, s: Slot, next: nat)
    requires |slots| == |holds| && i < |slots| && !slots[i].Live() && s.Live()
    ensures AllHeld(slots[i := s], sent + [Sent(next, s.data)], holds[i := |sent|], highest) <==>
            AllHeld(slots, sent, holds, highest)
  {
    hide Needed;
    var slots', sent', holds' := slots[i := s], sent + [Sent(next, s.data)], holds[i := |sent|];
    if AllHeld(slots, sent, holds, highest) {
      forall k: nat | k < |sent'| && Needed(sent'[k], highest) ensures exists j: nat :: HeldAt(slots', holds', k, j) {
        if k < |sent| {
          assert sent'[k] == sent[k];
          var j: nat :| HeldAt(slots, holds, k, j);
          assert HeldAt(slots', holds', k, j);
        } else {
          assert HeldAt(slots', holds', k, i);
        }
      }
    }
    if AllHeld(slots', sent', holds', highest) {
      forall k: nat | k < |sent| && Needed(sent[k], highest) ensures exists j: nat :: HeldAt(slots, holds, k, j) {
        assert sent'[k] == sent[k];
        var j: nat :| HeldAt(slots', holds', k, j);
        assert HeldAt(slots, holds, k, j);
      }
    }
  }

  /** tcp_write keeps the coverage if and only if no slot before the first free one is lost by its sweep. */
  lemma WriteExact(r: Run, initial: nat, data: seq<byte>, now: nat)
    requires Inv(r, initial) && Covered(r)
    ensures Covered(Next(r, Write(data, now))) <==> !PassLoses(r, FirstFree(r.c.slots))
  {
    hide Holding, AllHeld, CountLive, Contiguous, Field, R.Advance, PassLoses;
    var i, d := FirstFree(r.c.slots), Capped(data);
    var swept := Swept(r.c.slots, r.c.sendAckNo, i);
    PassExact(r, swept, i);
    HoldingSize(r.c.slots, r.sent, r.holds);
    if i < |r.c.slots| {
      var s, r' := Slot(HEADERS + |d|, r.c.sendSeqNo, d, now), Next(r, Write(data, now));
      FillHeld(swept, r.sent, r.holds, r.highest, i, s, r.next);
      assert r'.c.slots == swept[i := s] && r'.sent == r.sent + [Sent(r.next, s.data)]
             && r'.holds == r.holds[i := |r.sent|];
    }
  }

  /** A working pass of the housekeeper keeps the coverage if and only if no slot is lost. */
  lemma HousekeepExact(r: Run, initial: nat, now: nat, ok: set<nat>)
    requires Inv(r, initial) && Covered(r) && !Idle(r.c, now)
    ensures Covered(Next(r, Housekeep(now, ok))) <==> !PassLoses(r, |r.c.slots|)
  {
    hide Holding, AllHeld, CountLive, CountAcked, Contiguous, Field, PassLoses, Housekept, Pass;
    HousekeptPass(r.c, now, ok);
    PassExact(r, Housekept(r.c, now, ok).slots, |r.c.slots|);
  }

  lemma AckCovers(r: Run, ackNo: nat)
    requires Covered(r)
    ensures Covered(Next(r, Ack(ackNo)))
  {
    hide HeldAt, Field;
  }

  lemma StepExact(r: Run, initial: nat, e: Event)
    requires Inv(r, initial) && Covered(r)
    ensures Covered(Next(r, e)) <==> !Loses(r, e)
  {
    hide Inv, Covered;
    assert forall i: nat :: !LostAt(r, 0, i);
    match e
    case Write(data, now) => WriteExact(r, initial, data, now);
    case Ack(ackNo) => AckCovers(r, ackNo);
    case Housekeep(now, ok) => if !Idle(r.c, now) { HousekeepExact(r, initial, now, ok); }
  }

  /** At every point of the run all unacknowledged bytes are held. */
  ghost predicate CoveredThroughout(initial: u32, events: seq<Event>) {
    Covered(Replay(initial, events)) && (events != [] ==> CoveredThroughout(initial, events[..|events| - 1]))
  }

  /** No freeing pass of the run loses a slot. */
  ghost predicate NeverLoses(initial: u32, events: seq<Event>) {
    events != [] ==>
      var m := |events| - 1;
      NeverLoses(initial, events[..m]) && !Loses(Replay(initial, events[..m]), events[m])
  }

  /** For every run, with any ACKs and any wrap: coverage holds throughout if and only if no pass loses a slot. */
  lemma {:induction false} CoverageExactly(initial: u32, events: seq<Event>)
    ensures CoveredThroughout(initial, events) <==> NeverLoses(initial, events)
  {
    if events == [] {
      assert Replay(initial, events).sent == [];
    } else {
      var m := |events| - 1;
      CoverageExactly(initial, events[..m]);
      if NeverLoses(initial, events[..m]) {
        CoveredNow(initial, events[..m]);
        RunInv(initial, events[..m]);
        hide Inv, Covered, Loses;
        StepExact(Replay(initial, events[..m]), initial, events[m]);
      }
    }
  }

  lemma CoveredNow(initial: u32, events: seq<Event>)
    requires CoveredThroughout(initial, events)
    ensures Covered(Replay(initial, events))
  {
  }

  /** Every byte sent and not below the highest ACK is in exactly one live slot, with the value that was written. */
  lemma RetransmitCoverage(initial: u32, events: seq<Event>, b: nat)
    requires NeverLoses(initial, events)
    requires Replay(initial, events).highest <= b && initial <= b < Replay(initial, events).next
    ensures var r := Replay(initial, events);
            && ByteHeld(r, b)
            && (forall i: nat, j: nat :: SlotHas(r, i, b) && SlotHas(r, j, b) ==> i == j)
            && (forall i: nat :: SlotHas(r, i, b) ==>
                  var first := r.sent[r.holds[i]].seqNo;
                  && initial <= first <= b && r.c.slots[i].seqNo == first % 0x1_0000_0000
                  && b - initial < |Stream(initial, events)| && b - first < |r.c.slots[i].data|
                  && r.c.slots[i].data[b - first] == Stream(initial, events)[b - initial])
  {
    CoverageExactly(initial, events);
    CoveredNow(initial, events);
    RunInv(initial, events);
    var r := Replay(initial, events);
    CoveredBytes(r, initial);
    hide Covered, Field;
    StreamSent(initial, events);
    hide Stream, Replay, Holding, Pieces, Contiguous, CountLive, SlotHas;
    forall i: nat, j: nat | SlotHas(r, i, b) && SlotHas(r, j, b) ensures i == j { OneHolder(r, initial, i, j, b); }
    forall i: nat | SlotHas(r, i, b)
      ensures i < |r.c.slots| && i < |r.holds| && r.holds[i] < |r.sent|
      ensures var first := r.sent[r.holds[i]].seqNo;
              && initial <= first <= b && r.c.slots[i].seqNo == first % 0x1_0000_0000
              && b - initial < |Stream(initial, events)| && b - first < |r.c.slots[i].data|
              && r.c.slots[i].data[b - first] == Stream(initial, events)[b - initial]
    {
      PieceHeld(r, Stream(initial, events), initial, i, b);
    }
  }

  // ------------------------------------------------------------------ the bytes of the caller

  predicate HasRoom(slots: seq<Slot>) {
    exists i :: 0 <= i < |slots| && slots[i].len == 0
  }

  /** The stream of a run, read off its writes: what fits of each one that finds a free slot. */
  function Stream(initial: u32, events: seq<Event>): seq<byte> {
    if events == [] then []
    else
      var m := |events| - 1;
      var before := Stream(initial, events[..m]);
      match events[m]
      case Write(data, _) =>
        if !HasRoom(Replay(initial, events[..m]).c.slots) then before
        else if |data| <= MAX_PAYLOAD then before + data
        else before + data[..MAX_PAYLOAD]
      case _ => before
  }

  /** The segments are consecutive pieces of the stream. */
  ghost predicate Pieces(sent: seq<Sent>, stream: seq<byte>, initial: nat, next: nat) {
    && next == initial + |stream|
    && forall k :: 0 <= k < |sent| ==>
         && initial <= sent[k].seqNo && sent[k].End() <= next
         && sent[k].data == stream[sent[k].seqNo - initial..sent[k].End() - initial]
  }

  lemma MorePieces(sent: seq<Sent>, stream: seq<byte>, initial: nat, next: nat, d: seq<byte>)
    requires Pieces(sent, stream, initial, next)
    ensures Pieces(sent + [Sent(next, d)], stream + d, initial, next + |d|)
  {
    var sent', stream' := sent + [Sent(next, d)], stream + d;
    forall k | 0 <= k < |sent'|
      ensures initial <= sent'[k].seqNo && sent'[k].End() <= next + |d|
      ensures sent'[k].data == stream'[sent'[k].seqNo - initial..sent'[k].End() - initial]
    {
      if k < |sent| {
        var lo, hi := sent[k].seqNo - initial, sent[k].End() - initial;
        assert stream'[lo..hi] == stream[lo..hi];
      }
    }
  }

  lemma RoomIsFree(slots: seq<Slot>)
    ensures HasRoom(slots) <==> FirstFree(slots) < |slots|
  {
  }

  lemma {:induction false} StreamSent(initial: u32, events: seq<Event>)
    ensures var r := Replay(initial, events); Pieces(r.sent, Stream(initial, events), initial, r.next)
  {
    hide Pieces, Written, Housekept, FirstFree, HasRoom;
    if events == [] {
      NoPieces(initial);
    } else {
      var m := |events| - 1;
      var r := Replay(initial, events[..m]);
      StreamSent(initial, events[..m]);
      RunInv(initial, events[..m]);
      hide Holding, Contiguous, CountLive;
      if events[m].Write? {
        HoldingSize(r.c.slots, r.sent, r.holds);
        RoomIsFree(r.c.slots);
        MorePieces(r.sent, Stream(initial, events[..m]), initial, r.next, Capped(events[m].data));
      }
    }
  }

  lemma NoPieces(initial: u32)
    ensures Pieces([], [], initial, initial)
  {
  }

  /** What a live slot holds for the byte numbered `b` is the byte that the caller wrote there. */
  lemma SlotHoldsStream(initial: u32, events: seq<Event>, i: nat, b: nat)
    requires SlotHas(Replay(initial, events), i, b)
    ensures var r, stream := Replay(initial, events), Stream(initial, events);
            var first := r.sent[r.holds[i]].seqNo;
            && initial <= first <= b && b - initial < |stream| && b - first < |r.c.slots[i].data|
            && r.c.slots[i].seqNo == first % 0x1_0000_0000 && r.c.slots[i].data[b - first] == stream[b - initial]
  {
    hide Replay, Stream, Holding, Pieces, Contiguous, CountLive, SlotHas;
    RunInv(initial, events);
    StreamSent(initial, events);
    PieceHeld(Replay(initial, events), Stream(initial, events), initial, i, b);
  }

  lemma PieceHeld(r: Run, stream: seq<byte>, initial: nat, i: nat, b: nat)
    requires Holding(r.c.slots, r.sent, r.holds) && Pieces(r.sent, stream, initial, r.next) && SlotHas(r, i, b)
    ensures i < |r.c.slots| && i < |r.holds| && r.holds[i] < |r.sent|
    ensures var first := r.sent[r.holds[i]].seqNo;
            && initial <= first <= b && b - initial < |stream| && b - first < |r.c.slots[i].data|
            && r.c.slots[i].seqNo == first % 0x1_0000_0000 && r.c.slots[i].data[b - first] == stream[b - initial]
  {
    var k := r.holds[i];
    var first := r.sent[k].seqNo;
    assert r.sent[k].data[b - first] == stream[first - initial..r.sent[k].End() - initial][b - first];
  }

  /** `squeue_size` counts the live slots and, besides, every slot that the sweep of tcp_write has freed. */
  function SweptAway(initial: u32, events: seq<Event>): nat {
    if events == [] then 0
    else
      var m := |events| - 1;
      var c := Replay(initial, events[..m]).c;
      SweptAway(initial, events[..m])
      + if events[m].Write? then CountAcked(c.slots[..FirstFree(c.slots)], c.sendAckNo) else 0
  }

  /** In every run, whatever the ACKs: the count never falls behind, and drifts by exactly what the sweeps free. */
  lemma {:induction false} SqueueSize(initial: u32, events: seq<Event>)
    ensures var c := Replay(initial, events).c; c.squeueSize == CountLive(c.slots) + SweptAway(initial, events)
  {
    if events == [] {
      NoneLive(Fresh(initial).slots);
    } else {
      var m := |events| - 1;
      var c := Replay(initial, events[..m]).c;
      SqueueSize(initial, events[..m]);
      hide CountLive, CountAcked, Replay, SweptAway, Kept;
      match events[m]
      case Write(data, now) => WrittenCount(c, data, now);
      case Ack(_) =>
      case Housekeep(now, ok) =>
        if !Idle(c, now) { KeptCount(c.slots, Housekept(c, now, ok).slots, c.sendAckNo, now, ok); }
    }
  }

  lemma WrittenCount(c: Sender, data: seq<byte>, now: nat)
    ensures var c', i := Written(c, data, now), FirstFree(c.slots);
            c'.squeueSize - CountLive(c'.slots) ==
            c.squeueSize - CountLive(c.slots) + CountAcked(c.slots[..i], c.sendAckNo)
  {
    hide CountLive, CountAcked;
    var i, d := FirstFree(c.slots), Capped(data);
    SweptCount(c.slots, c.sendAckNo, i);
    if i < |c.slots| {
      FilledCount(Swept(c.slots, c.sendAckNo, i), i, Slot(HEADERS + |d|, c.sendSeqNo, d, now));
    }
  }

  /**
   The early exit skips nothing: `squeue_size` is never below the number of live slots, so at zero none is live and, if
   no pass has lost a slot, every byte sent is below the highest ACK.
   */
  lemma EarlyExitIsSafe(initial: u32, events: seq<Event>)
    ensures var r := Replay(initial, events);
            && CountLive(r.c.slots) <= r.c.squeueSize
            && (r.c.squeueSize == 0 ==>
                  && (forall i :: 0 <= i < |r.c.slots| ==> !r.c.slots[i].Live())
                  && (NeverLoses(initial, events) ==> r.next == initial || r.next <= r.highest))
  {
    RunInv(initial, events);
    var r := Replay(initial, events);
    NoneLive(r.c.slots);
    CoverageExactly(initial, events);
    if NeverLoses(initial, events) {
      CoveredNow(initial, events);
      if r.c.squeueSize == 0 { AllAcknowledged(r, initial); }
    }
  }

  lemma AllAcknowledged(r: Run, initial: nat)
    requires Inv(r, initial) && Covered(r) && forall i :: 0 <= i < |r.c.slots| ==> !r.c.slots[i].Live()
    ensures r.next == initial || r.next <= r.highest
  {
    hide Covered, CountLive, Field;
    if r.sent != [] { SegmentBounds(r.sent, initial, r.next, 0); }
    CoveredBytes(r, initial);
    var b := if r.highest >= initial then r.highest else initial;
    assert !ByteHeld(r, b);
  }

  /** In a new tick the housekeeper sends every byte that is not acknowledged, unless its slot went out in this tick. */
  lemma HousekeeperResends(initial: u32, events: seq<Event>, now: nat, ok: set<nat>, b: nat)
    requires NeverLoses(initial, events) && !Loses(Replay(initial, events), Housekeep(now, ok))
    requires var r := Replay(initial, events); r.highest <= b && initial <= b < r.next && now != r.c.retransmitTs
    ensures var r := Replay(initial, events);
            exists i: nat :: SlotHas(r, i, b) && (Resends(r.c, now, i) || r.c.slots[i].lastSend == now)
  {
    RetransmitCoverage(initial, events, b);
    EarlyExitIsSafe(initial, events);
    var r := Replay(initial, events);
    var i: nat :| SlotHas(r, i, b);
    assert !LostAt(r, Reach(r.c, Housekeep(now, ok)), i);
  }

  // ------------------------------------------------------------------ ACKs between segments

  /** No segment has `ackNo` strictly inside it. */
  ghost predicate WholeSegments(sent: seq<Sent>, ackNo: nat) {
    forall k :: 0 <= k < |sent| && sent[k].seqNo < ackNo ==> sent[k].End() <= ackNo
  }

  /** Every ACK of the run names a number that was reached and lies between segments. */
  ghost predicate Sane(initial: u32, events: seq<Event>) {
    events != [] ==>
      var m := |events| - 1;
      && Sane(initial, events[..m])
      && (events[m].Ack? ==>
            var r := Replay(initial, events[..m]);
            events[m].ackNo <= r.next && WholeSegments(r.sent, events[m].ackNo))
  }

  lemma {:induction false} SaneAck(initial: u32, events: seq<Event>)
    requires Sane(initial, events)
    ensures var r := Replay(initial, events); r.ackNo <= r.next && WholeSegments(r.sent, r.ackNo)
  {
    hide Written, Housekept;
    if events != [] {
      var m := |events| - 1;
      SaneAck(initial, events[..m]);
    }
  }

  /**
   A slot is lost exactly if its number and the ACK lie on different sides of a wrap and the fields are the wrong way
   round.
   */
  lemma LostAcrossWrap(initial: u32, events: seq<Event>, n: nat, i: nat)
    requires Sane(initial, events)
    ensures var r := Replay(initial, events);
            LostAt(r, n, i) <==>
              && i < n && i < |r.c.slots| && i < |r.holds| && r.c.slots[i].Live() && r.holds[i] < |r.sent|
              && Needed(r.sent[r.holds[i]], r.highest)
              && r.ackNo / R.WRAP < r.sent[r.holds[i]].seqNo / R.WRAP
              && r.sent[r.holds[i]].seqNo % R.WRAP < r.ackNo % R.WRAP
  {
    RunInv(initial, events);
    SaneAck(initial, events);
    var r := Replay(initial, events);
    hide Replay, Contiguous, CountLive;
    if i < |r.c.slots| && i < |r.holds| && r.c.slots[i].Live() && r.holds[i] < |r.sent| {
      FieldOrder(r.ackNo, r.sent[r.holds[i]].seqNo);
    }
  }

  lemma FieldOrder(a: nat, q: nat)
    ensures a <= q && Field(a) > Field(q) <==> a / R.WRAP < q / R.WRAP && Field(q) < Field(a)
    ensures q < a && a < R.WRAP ==> Field(q) < Field(a)
  {
  }

  lemma NoLossBelowWrap(initial: u32, events: seq<Event>, n: nat, i: nat)
    requires Sane(initial, events) && Replay(initial, events).next <= R.WRAP
    ensures !LostAt(Replay(initial, events), n, i)
  {
    RunInv(initial, events);
    LostAcrossWrap(initial, events, n, i);
    var r := Replay(initial, events);
    hide Replay, CountLive, Holding, LostAt, Field;
    if i < |r.holds| && r.holds[i] < |r.sent| {
      SegmentBounds(r.sent, initial, r.next, r.holds[i]);
      hide Contiguous;
      assert Needed(r.sent[r.holds[i]], r.highest) ==> r.sent[r.holds[i]].seqNo < R.WRAP;
      assert Needed(r.sent[r.holds[i]], r.highest) ==> r.sent[r.holds[i]].seqNo / R.WRAP == 0;
    }
  }

  /** So with such ACKs and numbers that stay below the wrap nothing is ever lost. */
  lemma {:induction false} SaneNeverLoses(initial: u32, events: seq<Event>)
    requires Sane(initial, events) && Replay(initial, events).next <= R.WRAP
    ensures NeverLoses(initial, events)
  {
    if events != [] {
      var m := |events| - 1;
      var r := Replay(initial, events[..m]);
      NextGrows(r, events[m]);
      hide Next, LostAt, Reach;
      SaneNeverLoses(initial, events[..m]);
      forall i: nat ensures !LostAt(r, Reach(r.c, events[m]), i) {
        NoLossBelowWrap(initial, events[..m], Reach(r.c, events[m]), i);
      }
    }
  }

  lemma NextGrows(r: Run, e: Event)
    ensures r.next <= Next(r, e).next
  {
    hide Written, Housekept, Field;
  }

  // ------------------------------------------------------------------ ACKs inside a segment, and the wrap

  /**
   After an ACK strictly inside a segment the next working pass frees it, and nothing holds its tail any more,
   unless the number wraps inside the segment below the ACK.
   */
  lemma PartialAckLosesTail(initial: u32, events: seq<Event>, i: nat, ackNo: nat, now: nat, ok: set<nat>)
    requires var r := Replay(initial, events);
             && SlotHas(r, i, ackNo) && r.sent[r.holds[i]].seqNo < ackNo && now != r.c.retransmitTs
    ensures var r := Replay(initial, events);
            ByteHeld(Next(Next(r, Ack(ackNo)), Housekeep(now, ok)), ackNo) <==>
            Field(ackNo) <= Field(r.sent[r.holds[i]].seqNo)
  {
    EarlyExitIsSafe(initial, events);
    RunInv(initial, events);
    var r := Replay(initial, events);
    PassHolder(Next(r, Ack(ackNo)), initial, i, now, ok, ackNo);
  }

  /** A byte that slot `i` holds survives a working pass of the housekeeper exactly if the slot does. */
  lemma PassHolder(r: Run, initial: nat, i: nat, now: nat, ok: set<nat>, b: nat)
    requires Inv(r, initial) && SlotHas(r, i, b) && !Idle(r.c, now)
    ensures ByteHeld(Next(r, Housekeep(now, ok)), b) <==> !Acked(r.c.slots[i], r.c.sendAckNo)
    ensures Next(r, Housekeep(now, ok)).c.slots[i].Live() <==> !Acked(r.c.slots[i], r.c.sendAckNo)
  {
    HousekeptPass(r.c, now, ok);
    var r' := Next(r, Housekeep(now, ok));
    hide Housekept, Field, CountLive, Contiguous;
    forall j: nat ensures SlotHas(r', j, b) ==> j == i {
      if SlotHas(r', j, b) {
        assert SlotHas(r, j, b);
        OneHolder(r, initial, i, j, b);
      }
    }
    assert SlotHas(r', i, b) <==> !Acked(r.c.slots[i], r.c.sendAckNo);
  }

  /**
   In every run: the first byte of a new segment survives the next working pass if and only if the ACK field did not
   exceed `send_seq_no` when it was written.
   */
  lemma FreshSurvives(initial: u32, events: seq<Event>, data: seq<byte>, now: nat, later: nat, ok: set<nat>)
    requires var r := Replay(initial, events);
             data != [] && FirstFree(r.c.slots) < |r.c.slots| && later != r.c.retransmitTs
    ensures var r := Replay(initial, events);
            var r' := Next(Next(r, Write(data, now)), Housekeep(later, ok));
            && (ByteHeld(r', r.next) <==> r.c.sendAckNo <= r.c.sendSeqNo)
            && (r'.c.slots[FirstFree(r.c.slots)].Live() <==> r.c.sendAckNo <= r.c.sendSeqNo)
  {
    RunInv(initial, events);
    var r := Replay(initial, events);
    var r1, i := Next(r, Write(data, now)), FirstFree(r.c.slots);
    WriteInv(r, initial, data, now);
    hide Replay, Contiguous, CountLive, Field;
    HoldingSize(r.c.slots, r.sent, r.holds);
    assert SlotHas(r1, i, r.next);
    PassHolder(r1, initial, i, later, ok, r.next);
  }

  lemma OneMore(initial: u32, events: seq<Event>, e: Event)
    ensures Replay(initial, events + [e]) == Next(Replay(initial, events), e)
    ensures Sane(initial, events + [e]) <==>
            && Sane(initial, events)
            && (e.Ack? ==> var r := Replay(initial, events); e.ackNo <= r.next && WholeSegments(r.sent, e.ackNo))
  {
    assert (events + [e])[..|events|] == events;
  }

  lemma UnheldMeansLost(initial: u32, events: seq<Event>, b: nat)
    requires Replay(initial, events).highest <= b && initial <= b < Replay(initial, events).next
    requires !ByteHeld(Replay(initial, events), b)
    ensures !NeverLoses(initial, events)
  {
    hide Replay, ByteHeld, NeverLoses;
    if NeverLoses(initial, events) { RetransmitCoverage(initial, events, b); }
  }

  /** The same for every run in which the guard fails at a write: the new byte is unacknowledged and lost. */
  lemma FreshLost(initial: u32, events: seq<Event>, data: seq<byte>, now: nat, later: nat, ok: set<nat>)
    requires var r := Replay(initial, events);
             && data != [] && FirstFree(r.c.slots) < |r.c.slots| && later != r.c.retransmitTs
             && r.c.sendAckNo > r.c.sendSeqNo && r.highest <= r.next
    ensures var b, e := Replay(initial, events).next, events + [Write(data, now)] + [Housekeep(later, ok)];
            var r := Replay(initial, e);
            r.highest <= b < r.next && !ByteHeld(r, b) && !NeverLoses(initial, e)
  {
    hide Replay, Next, Holding, CountLive, Field, ByteHeld, NeverLoses, Sane;
    var r := Replay(initial, events);
    RunInv(initial, events);
    if r.sent != [] { SegmentBounds(r.sent, initial, r.next, 0); }
    FreshSurvives(initial, events, data, now, later, ok);
    OneMore(initial, events, Write(data, now));
    OneMore(initial, events + [Write(data, now)], Housekeep(later, ok));
    HoldingSize(r.c.slots, r.sent, r.holds);
    WriteNumbers(r, data, now);
    HousekeepNumbers(Next(r, Write(data, now)), later, ok);
    UnheldMeansLost(initial, events + [Write(data, now)] + [Housekeep(later, ok)], r.next);
  }

  lemma WriteNumbers(r: Run, data: seq<byte>, now: nat)
    requires FirstFree(r.c.slots) < |r.c.slots| == |r.holds|
    ensures var r' := Next(r, Write(data, now)); r'.next == r.next + |Capped(data)| && r'.highest == r.highest
  {
  }

  lemma HousekeepNumbers(r: Run, now: nat, ok: set<nat>)
    ensures var r' := Next(r, Housekeep(now, ok)); r'.next == r.next && r'.highest == r.highest
  {
    hide Housekept;
  }

  /** Everything up to number `q` is sent and acknowledged, and no slot is in use. */
  ghost predicate AtRest(r: Run, q: nat) {
    && r.next == r.ackNo == r.highest == q
    && forall i :: 0 <= i < |r.c.slots| ==> !r.c.slots[i].Live()
  }

  ghost predicate SaneRun(initial: u32, r: Run) {
    exists events :: Sane(initial, events) && Replay(initial, events) == r
  }

  lemma SaneRunInv(initial: u32, r: Run)
    requires SaneRun(initial, r)
    ensures Inv(r, initial)
  {
    var events :| Sane(initial, events) && Replay(initial, events) == r;
    hide Replay, Sane, Inv;
    RunInv(initial, events);
  }

  lemma SaneNext(initial: u32, r: Run, e: Event)
    requires SaneRun(initial, r) && (e.Ack? ==> e.ackNo <= r.next && WholeSegments(r.sent, e.ackNo))
    ensures SaneRun(initial, Next(r, e))
  {
    var events :| Sane(initial, events) && Replay(initial, events) == r;
    hide Replay, Sane, Next, WholeSegments;
    OneMore(initial, events, e);
    assert Sane(initial, events + [e]) && Replay(initial, events + [e]) == Next(r, e);
  }

  lemma AllWhole(r: Run, initial: nat)
    requires Inv(r, initial)
    ensures WholeSegments(r.sent, r.next)
  {
    hide Holding, CountLive, Field;
    forall k | 0 <= k < |r.sent| ensures r.sent[k].End() <= r.next { SegmentBounds(r.sent, initial, r.next, k); }
  }

  /** One byte from a connection at rest goes into the first slot. */
  lemma WriteAtRest(r: Run, initial: nat, b: byte, now: nat)
    requires Inv(r, initial) && AtRest(r, r.next)
    ensures var r1 := Next(r, Write([b], now));
            && r1.next == r.next + 1 && r1.ackNo == r1.highest == r.next && r1.c.sendAckNo == Field(r.next)
            && |r1.c.slots| == MAX_TCPSND_WINDOW && r1.c.retransmitTs == r.c.retransmitTs
            && r1.c.slots[0].Live() && r1.c.slots[0].seqNo == Field(r.next)
            && forall i :: 0 < i < |r1.c.slots| ==> !r1.c.slots[i].Live()
  {
    hide Field, R.Advance, CountLive, Contiguous;
    assert FirstFree(r.c.slots) == 0;
  }

  lemma HousekeepFrees(r: Run, initial: nat, now: nat)
    requires Inv(r, initial) && now != r.c.retransmitTs && 0 < |r.c.slots|
    requires r.c.slots[0].Live() && r.c.sendAckNo > r.c.slots[0].seqNo
    requires forall i :: 0 < i < |r.c.slots| ==> !r.c.slots[i].Live()
    requires r.next == r.ackNo == r.highest
    ensures AtRest(Next(r, Housekeep(now, {})), r.next)
  {
    hide Inv, Housekept, Next, Kept;
    LiveMeansBusy(r, initial);
    HousekeptPass(r.c, now, {});
    HousekeepStep(r, now, {});
  }

  lemma HousekeepStep(r: Run, now: nat, ok: set<nat>)
    ensures Next(r, Housekeep(now, ok)) == r.(c := Housekept(r.c, now, ok))
  {
    hide Housekept;
  }

  lemma LiveMeansBusy(r: Run, initial: nat)
    requires Inv(r, initial) && 0 < |r.c.slots| && r.c.slots[0].Live()
    ensures r.c.squeueSize != 0
  {
    NoneLive(r.c.slots);
    hide Field, CountLive, Contiguous, Holding;
  }

  /** A byte is written, acknowledged and freed. */
  lemma OneByteOn(initial: u32, r: Run)
    requires SaneRun(initial, r) && AtRest(r, r.next) && r.next + 1 < R.WRAP
    ensures exists r' :: SaneRun(initial, r') && AtRest(r', r.next + 1)
  {
    hide SaneRun, Next, Inv, AtRest;
    var q := r.next;
    SaneRunInv(initial, r);
    WriteAtRest(r, initial, 7, 0);
    SaneNext(initial, r, Write([7], 0));
    var r1 := Next(r, Write([7], 0));
    SaneRunInv(initial, r1);
    AllWhole(r1, initial);
    SaneNext(initial, r1, Ack(q + 1));
    AckSets(r1, q + 1);
    var r2 := Next(r1, Ack(q + 1));
    SaneRunInv(initial, r2);
    FieldBelow(q);
    FieldBelow(q + 1);
    HousekeepFrees(r2, initial, r2.c.retransmitTs + 1);
    SaneNext(initial, r2, Housekeep(r2.c.retransmitTs + 1, {}));
  }

  lemma FieldBelow(n: nat)
    requires n < R.WRAP
    ensures Field(n) == n
  {
  }

  lemma AckSets(r: Run, ackNo: nat)
    ensures Next(r, Ack(ackNo)) == r.(c := r.c.(sendAckNo := Field(ackNo)), ackNo := ackNo,
                                      highest := if ackNo > r.highest then ackNo else r.highest)
  {
  }

  lemma FirstAck(initial: u32)
    ensures exists r :: SaneRun(initial, r) && AtRest(r, initial)
  {
    var r := Start(initial);
    assert Sane(initial, []) && Replay(initial, []) == r;
    assert SaneRun(initial, r);
    hide Replay, Sane, SaneRun;
    SaneNext(initial, r, Ack(initial));
    AckSets(r, initial);
    assert AtRest(Next(r, Ack(initial)), initial);
  }

  /** From any initial number a sane run comes to rest at every later number below the wrap. */
  lemma {:induction false} RestReached(initial: u32, q: nat)
    requires initial <= q < R.WRAP
    ensures exists r :: SaneRun(initial, r) && AtRest(r, q)
    decreases q
  {
    if q == initial {
      FirstAck(initial);
    } else {
      RestReached(initial, q - 1);
      hide SaneRun;
      var r :| SaneRun(initial, r) && AtRest(r, q - 1);
      OneByteOn(initial, r);
    }
  }

  /**
   From every initial number there is a run whose ACKs are all sane and which loses a byte nobody has acknowledged: the
   one right behind the wrap is freed by the next working pass, as the ACK from before the wrap has the larger field.
   */
  lemma WrapLosesByte(initial: u32)
    ensures exists events ::
              && Sane(initial, events) && !NeverLoses(initial, events)
              && Replay(initial, events).highest <= R.WRAP < Replay(initial, events).next
              && !ByteHeld(Replay(initial, events), R.WRAP)
  {
    hide Sane, NeverLoses, Replay, ByteHeld, SaneRun, Next, Inv, FirstFree;
    RestReached(initial, R.WRAP - 1);
    var r :| SaneRun(initial, r) && AtRest(r, R.WRAP - 1);
    SaneRunInv(initial, r);
    WriteAtRest(r, initial, 8, 0);
    SaneNext(initial, r, Write([8], 0));
    var r1 := Next(r, Write([8], 0));
    var e :| Sane(initial, e) && Replay(initial, e) == r1 by { assert SaneRun(initial, r1); SaneRunHas(initial, r1); }
    LostBehindWrap(initial, e);
  }

  lemma SaneRunHas(initial: u32, r: Run)
    requires SaneRun(initial, r)
    ensures exists e :: Sane(initial, e) && Replay(initial, e) == r
  {
  }

  lemma LostBehindWrap(initial: u32, e: seq<Event>)
    requires Sane(initial, e)
    requires var r := Replay(initial, e);
             && r.next == R.WRAP && r.ackNo == r.highest == R.WRAP - 1
             && |r.c.slots| == MAX_TCPSND_WINDOW && !r.c.slots[1].Live()
    ensures var e' := e + [Write([9], 0)] + [Housekeep(Replay(initial, e).c.retransmitTs + 1, {})];
            && Sane(initial, e') && !NeverLoses(initial, e')
            && Replay(initial, e').highest <= R.WRAP < Replay(initial, e').next
            && !ByteHeld(Replay(initial, e'), R.WRAP)
  {
    hide Replay, Next, ByteHeld, Sane, NeverLoses, CountLive, Contiguous, Holding;
    RunInv(initial, e);
    var r := Replay(initial, e);
    assert FirstFree(r.c.slots) <= 1;
    assert Field(R.WRAP - 1) > Field(R.WRAP);
    hide Field, FirstFree;
    var later := r.c.retransmitTs + 1;
    OneMore(initial, e, Write([9], 0));
    OneMore(initial, e + [Write([9], 0)], Housekeep(later, {}));
    FreshLost(initial, e, [9], 0, later, {});
  }
}
