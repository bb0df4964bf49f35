/**
 The receiving half of a TCP connection: tcp_connection::tcp_read (fs/tcp.cc), the input queue it feeds through
 socket::default_pkt_process, and the stream path of socket::read (fs/socket.cc).
 */
module TcpReceive {
  import opened Checksum

  const WRAP: nat := 0x1_0000_0000

  /** A received segment; `closing` is FIN or RST. A data length of zero or less is `data == []`. */
  datatype Segment = Segment(seqNo: u32, ack: bool, ackNo: u32, closing: bool, data: seq<byte>)

  /** struct tcp_data: a queued payload and how much of it has been read. */
  datatype TcpData = TcpData(data: seq<byte>, consumed: nat)

  datatype Connection = Connection(recvSeqNo: u32, sendAckNo: u32, closed: bool, input: seq<TcpData>)

  datatype ReadResult = Again | Bytes(bytes: seq<byte>)

  /** `recv_seq_no` plus a length, in 32 bits. */
  function Advance(seqNo: u32, len: nat): u32 {
    (seqNo as int + len) % WRAP
  }

  predicate InOrder(c: Connection, s: Segment) {
    !s.closing && s.data != [] && s.seqNo == c.recvSeqNo
  }

  // ------------------------------------------------------------------ the operations as functions

  /** One segment: in-order data is accepted, and dropped if the queue is full. */
  function Received(c: Connection, s: Segment, capacity: nat): Connection {
    c.(sendAckNo := if s.ack then s.ackNo else c.sendAckNo,
       closed := c.closed || s.closing,
       recvSeqNo := if InOrder(c, s) then Advance(s.seqNo, |s.data|) else c.recvSeqNo,
       input := if InOrder(c, s) && |c.input| < capacity then c.input + [TcpData(s.data, 0)] else c.input)
  }

  /**
   An ACK number is taken whatever else the segment brings; FIN or RST closes for good and brings no data; data is taken
   exactly at the expected number, which moves on by its length even if a full queue drops it.
   */
  lemma ReceivedCases(c: Connection, s: Segment, capacity: nat)
    ensures var c' := Received(c, s, capacity);
            && (s.ack ==> c'.sendAckNo == s.ackNo) && (!s.ack ==> c'.sendAckNo == c.sendAckNo)
            && (s.closing ==> c'.closed && c'.input == c.input && c'.recvSeqNo == c.recvSeqNo)
            && (!s.closing ==> c'.closed == c.closed)
            && (!s.closing && s.seqNo == c.recvSeqNo ==>
                  && c'.recvSeqNo == (c.recvSeqNo as int + |s.data|) % 0x1_0000_0000
                  && c'.input ==
                     c.input + if s.data == [] || |c.input| >= capacity then [] else [TcpData(s.data, 0)])
            && (s.seqNo != c.recvSeqNo ==> c'.recvSeqNo == c.recvSeqNo && c'.input == c.input)
  {
  }

  ghost predicate Valid(c: Connection) {
    forall i :: 0 <= i < |c.input| ==> c.input[i].consumed < |c.input[i].data|
  }

  function Min(a: nat, b: nat): nat { if a <= b then a else b }

  /** What a read of at most `n` bytes returns. */
  function ReadOut(c: Connection, n: nat): ReadResult
    requires Valid(c)
  {
    if c.closed then Bytes([])
    else if c.input == [] then Again
    else
      var h := c.input[0];
      Bytes(h.data[h.consumed..h.consumed + Min(n, |h.data| - h.consumed)])
  }

  function AfterRead(c: Connection, n: nat): Connection
    requires Valid(c)
  {
    if c.closed || c.input == [] then c
    else
      var h := c.input[0];
      if |h.data| - h.consumed <= n then c.(input := c.input[1..])
      else c.(input := c.input[0 := h.(consumed := h.consumed + n)])
  }

  // ------------------------------------------------------------------ the socket

  class Socket {
    var recvSeqNo: u32
    var sendAckNo: u32
    var closed: bool
    var input: seq<TcpData>
    const capacity: nat

    ghost function Conn(): Connection
      reads this
    {
      Connection(recvSeqNo, sendAckNo, closed, input)
    }

    /** tcp_conn_new: the peer's SYN carried `synSeqNo`. */
    constructor (synSeqNo: u32, capacity: nat)
      ensures Valid(Conn()) && !closed && input == [] && recvSeqNo == Advance(synSeqNo, 1) && this.capacity == capacity
      ensures sendAckNo == 0
    {
      recvSeqNo := Advance(synSeqNo, 1);
      sendAckNo := 0;
      closed := false;
      input := [];
      this.capacity := capacity;
    }

    /** tcp_connection::tcp_read: the accepted length, 0 when the segment brings no data in order. */
    method TcpRead(s: Segment) returns (len: nat)
      modifies `recvSeqNo, `sendAckNo, `closed
      ensures len == if InOrder(old(Conn()), s) then |s.data| else 0
      ensures Conn() == Received(old(Conn()), s, 0)
    {
      len := |s.data|;
      if s.ack {
        sendAckNo := s.ackNo;
      }
      if s.closing {
        closed := true;
        return 0;
      }
      if len > 0 {
        if recvSeqNo == s.seqNo {
          recvSeqNo := Advance(s.seqNo, len);
        } else {
          len := 0;
        }
      }
    }

    /** The TCP path of default_pkt_process. */
    method PktProcess(s: Segment)
      requires Valid(Conn())
      modifies `recvSeqNo, `sendAckNo, `closed, `input
      ensures Valid(Conn()) && Conn() == Received(old(Conn()), s, capacity)
    {
      var len := TcpRead(s);
      if len > 0 && |input| < capacity {
        input := input + [TcpData(s.data, 0)];
      }
    }

    /** socket::read with O_NONBLOCK; a blocking read is the same once the queue is not empty. */
    method Read(n: nat) returns (r: ReadResult)
      requires Valid(Conn())
      modifies `input
      ensures Valid(Conn()) && Conn() == AfterRead(old(Conn()), n) && r == ReadOut(old(Conn()), n)
    {
      if closed {
        return Bytes([]);
      }
      if input == [] {
        return Again;
      }
      var h := input[0];
      var len := if |h.data| - h.consumed >= n then n else |h.data| - h.consumed;
      r := Bytes(h.data[h.consumed..h.consumed + len]);
      var consumed := h.consumed + len;
      if consumed == |h.data| {
        input := input[1..];
      } else {
        input := input[0 := h.(consumed := consumed)];
      }
    }
  }

  // ------------------------------------------------------------------ what is queued

  /** The accepted bytes that no read has returned yet. */
  function Pending(input: seq<TcpData>): seq<byte>
    requires forall i :: 0 <= i < |input| ==> input[i].consumed <= |input[i].data|
  {
    if input == [] then [] else input[0].data[input[0].consumed..] + Pending(input[1..])
  }

  lemma {:induction false} PendingGrows(input: seq<TcpData>, d: TcpData)
    requires forall i :: 0 <= i < |input| ==> input[i].consumed <= |input[i].data|
    requires d.consumed == 0
    ensures Pending(input + [d]) == Pending(input) + d.data
  {
    if input == [] {
      assert Pending([d]) == d.data[0..] + Pending([d][1..]);
    } else {
      PendingGrows(input[1..], d);
      assert (input + [d])[1..] == input[1..] + [d];
    }
  }

  /** A read hands over the front of the pending bytes and keeps the rest. */
  lemma ReadTakesFront(c: Connection, n: nat)
    requires Valid(c)
    ensures Valid(AfterRead(c, n))
    ensures ReadOut(c, n).Bytes? ==> Pending(c.input) == ReadOut(c, n).bytes + Pending(AfterRead(c, n).input)
    ensures ReadOut(c, n).Again? ==> AfterRead(c, n) == c && Pending(c.input) == []
    ensures !c.closed && c.input != [] && n > 0 ==> ReadOut(c, n).Bytes? && ReadOut(c, n).bytes != []
  {
    if !c.closed && c.input != [] {
      var h := c.input[0];
      var m := h.consumed + Min(n, |h.data| - h.consumed);
      assert h.data[h.consumed..] == h.data[h.consumed..m] + h.data[m..];
      if m < |h.data| {
        var input' := AfterRead(c, n).input;
        assert input'[1..] == c.input[1..] && input'[0].data[input'[0].consumed..] == h.data[m..];
      }
    }
  }

  // ------------------------------------------------------------------ runs

  datatype Event = Arrive(s: Segment) | Read(n: nat)

  /** A connection with its history: the bytes accepted so far, the bytes read, and the bytes lost to a full queue. */
  datatype Run = Run(c: Connection, accepted: nat, delivered: seq<byte>, lost: nat)

  function Start(initial: u32): Run {
    Run(Connection(initial, 0, false, []), 0, [], 0)
  }

  function Next(r: Run, e: Event, capacity: nat): Run
    requires Valid(r.c)
  {
    match e
    case Arrive(s) =>
      var n := if InOrder(r.c, s) then |s.data| else 0;
      r.(c := Received(r.c, s, capacity), accepted := r.accepted + n,
         lost := r.lost + if |r.c.input| < capacity then 0 else n)
    case Read(n) =>
      var out := ReadOut(r.c, n);
      r.(c := AfterRead(r.c, n), delivered := r.delivered + if out.Bytes? then out.bytes else [])
  }

  /** The segment carries the peer's bytes from offset `off`, numbered from the peer's initial number. */
  ghost predicate Carries(s: Segment, stream: seq<byte>, initial: u32, off: nat) {
    off + |s.data| <= |stream| && s.data == stream[off..off + |s.data|] && s.seqNo == Advance(initial, off)
  }

  /** The segment is the peer's and its numbers are less than one wrap away from where the receiver is. */
  ghost predicate Genuine(s: Segment, stream: seq<byte>, initial: u32, accepted: nat) {
    exists off: nat :: Carries(s, stream, initial, off) && accepted < off + WRAP && off < accepted + WRAP
  }

  /** A run in which every arriving segment is genuine: lost, duplicated, reordered and overlapping ones included. */
  ghost predicate IsRun(stream: seq<byte>, initial: u32, capacity: nat, events: seq<Event>, r: Run) {
    if events == [] then r == Start(initial)
    else
      var m := |events| - 1;
      exists r0 ::
        && IsRun(stream, initial, capacity, events[..m], r0)
        && Valid(r0.c) && (events[m].Arrive? ==> Genuine(events[m].s, stream, initial, r0.accepted))
        && r == Next(r0, events[m], capacity)
  }

  /** Within one wrap the number field decides the offset. */
  lemma SameOffset(initial: u32, off: nat, accepted: nat)
    requires accepted < off + WRAP && off < accepted + WRAP
    ensures Advance(initial, off) == Advance(initial, accepted) <==> off == accepted
  {
  }

  ghost predicate Inv(stream: seq<byte>, initial: u32, r: Run) {
    && Valid(r.c) && r.accepted <= |stream| && r.c.recvSeqNo == Advance(initial, r.accepted)
    && |r.delivered| + |Pending(r.c.input)| + r.lost == r.accepted
    && (r.lost == 0 ==> r.delivered + Pending(r.c.input) == stream[..r.accepted])
  }

  lemma AdvanceAdds(initial: u32, a: nat, n: nat)
    ensures Advance(Advance(initial, a), n) == Advance(initial, a + n)
  {
  }

  /** An in-order segment carries exactly the bytes after the accepted ones. */
  lemma NextBytes(stream: seq<byte>, initial: u32, r: Run, s: Segment)
    requires Inv(stream, initial, r) && Genuine(s, stream, initial, r.accepted) && InOrder(r.c, s)
    ensures r.accepted + |s.data| <= |stream| && stream[..r.accepted + |s.data|] == stream[..r.accepted] + s.data
    ensures Advance(s.seqNo, |s.data|) == Advance(initial, r.accepted + |s.data|)
  {
    hide Advance;
    var off: nat :| Carries(s, stream, initial, off) && r.accepted < off + WRAP && off < r.accepted + WRAP;
    SameOffset(initial, off, r.accepted);
    AdvanceAdds(initial, off, |s.data|);
  }

  lemma ArriveInv(stream: seq<byte>, initial: u32, capacity: nat, r: Run, s: Segment)
    requires Inv(stream, initial, r) && Genuine(s, stream, initial, r.accepted)
    ensures Inv(stream, initial, Next(r, Arrive(s), capacity))
  {
    hide Advance, Genuine;
    if InOrder(r.c, s) {
      NextBytes(stream, initial, r, s);
      PendingGrows(r.c.input, TcpData(s.data, 0));
      assert (r.delivered + Pending(r.c.input)) + s.data == r.delivered + (Pending(r.c.input) + s.data);
    }
  }

  lemma ReadInv(stream: seq<byte>, initial: u32, capacity: nat, r: Run, n: nat)
    requires Inv(stream, initial, r)
    ensures Inv(stream, initial, Next(r, Read(n), capacity))
  {
    hide Advance;
    ReadTakesFront(r.c, n);
    var out := ReadOut(r.c, n);
    if out.Bytes? {
      var rest := Pending(AfterRead(r.c, n).input);
      assert r.delivered + (out.bytes + rest) == (r.delivered + out.bytes) + rest;
    }
  }

  lemma {:induction false} RunInv(stream: seq<byte>, initial: u32, capacity: nat, events: seq<Event>, r: Run)
    requires IsRun(stream, initial, capacity, events, r)
    ensures Inv(stream, initial, r)
    decreases |events|
  {
    if events != [] {
      var m := |events| - 1;
      var r0 :| IsRun(stream, initial, capacity, events[..m], r0)
             && Valid(r0.c) && (events[m].Arrive? ==> Genuine(events[m].s, stream, initial, r0.accepted))
             && r == Next(r0, events[m], capacity);
      RunInv(stream, initial, capacity, events[..m], r0);
      match events[m]
      case Arrive(s) => ArriveInv(stream, initial, capacity, r0, s);
      case Read(n) => ReadInv(stream, initial, capacity, r0, n);
    }
  }

  /**
   Whatever is lost, duplicated or reordered on the way, `recv_seq_no` counts the accepted bytes, and the bytes read
   followed by the bytes still queued are exactly the accepted prefix of the peer's stream if and only if the input
   queue was never full when in-order data arrived.
   */
  lemma StreamDelivery(stream: seq<byte>, initial: u32, capacity: nat, events: seq<Event>, r: Run)
    requires IsRun(stream, initial, capacity, events, r)
    ensures r.accepted <= |stream| && r.c.recvSeqNo == Advance(initial, r.accepted)
    ensures Valid(r.c) && (r.delivered + Pending(r.c.input) == stream[..r.accepted] <==> r.lost == 0)
    ensures r.lost == 0 ==> r.delivered <= stream
  {
    RunInv(stream, initial, capacity, events, r);
    if r.lost == 0 {
      assert r.delivered == (r.delivered + Pending(r.c.input))[..|r.delivered|];
    }
  }

  lemma WholeWraps(initial: u32, off: nat, accepted: nat)
    ensures Advance(initial, off) == Advance(initial, accepted) <==> (off - accepted) % WRAP == 0
    ensures accepted < off + WRAP && off < accepted + WRAP ==> ((off - accepted) % WRAP == 0 <==> off == accepted)
  {
    var d, x := off - accepted, initial as int + accepted;
    assert initial as int + off == x + d;
  }

  /** Data is accepted exactly when its offset is the accepted length, or a whole number of wraps away from it. */
  lemma AcceptsExactlyNext(stream: seq<byte>, initial: u32, capacity: nat, events: seq<Event>, r: Run, s: Segment,
                           off: nat)
    requires IsRun(stream, initial, capacity, events, r)
    requires Carries(s, stream, initial, off) && !s.closing && s.data != []
    ensures InOrder(r.c, s) <==> (off - r.accepted) % WRAP == 0
    ensures r.accepted < off + WRAP && off < r.accepted + WRAP ==> (InOrder(r.c, s) <==> off == r.accepted)
  {
    hide Advance, IsRun;
    RunInv(stream, initial, capacity, events, r);
    WholeWraps(initial, off, r.accepted);
  }

  // A stream of equal bytes but for one, which comes while the queue is full: it is acknowledged and lost, and the
  // reads go on behind it.

  function Plain(accepted: nat, b: byte): Segment {
    Segment(Advance(0, accepted), false, 0, false, [b])
  }

  /** As many equal bytes as the queue has places, a different one, and one more. */
  function Marked(capacity: nat): (s: seq<byte>)
    ensures |s| == capacity + 2 && forall i :: 0 <= i < |s| ==> s[i] == if i == capacity then 1 else 0
  {
    seq(capacity + 2, i => if i == capacity then 1 else 0)
  }

  /** `n` packets of the byte 0 are queued and `d` such bytes have been read. */
  function Zeros(accepted: nat, n: nat, d: nat, lost: nat): Run {
    Run(Connection(Advance(0, accepted), 0, false, seq(n, _ => TcpData([0], 0))), accepted, seq(d, _ => 0), lost)
  }

  ghost predicate Reached(capacity: nat, r: Run) {
    exists events :: IsRun(Marked(capacity), 0, capacity, events, r)
  }

  lemma ReachNext(capacity: nat, r: Run, e: Event)
    requires Reached(capacity, r) && Valid(r.c)
    requires e.Arrive? ==> Genuine(e.s, Marked(capacity), 0, r.accepted)
    ensures Reached(capacity, Next(r, e, capacity))
  {
    hide Genuine, Next, Marked;
    var events :| IsRun(Marked(capacity), 0, capacity, events, r);
    assert (events + [e])[..|events|] == events;
    assert IsRun(Marked(capacity), 0, capacity, events + [e], Next(r, e, capacity));
  }

  lemma MarkedIsGenuine(capacity: nat, k: nat)
    requires k < capacity + 2
    ensures Genuine(Plain(k, Marked(capacity)[k]), Marked(capacity), 0, k)
  {
    hide Advance;
    assert Carries(Plain(k, Marked(capacity)[k]), Marked(capacity), 0, k);
  }

  lemma ZerosArrive(capacity: nat, k: nat, n: nat, d: nat, lost: nat)
    requires Reached(capacity, Zeros(k, n, d, lost)) && k < capacity + 2 && (k == capacity ==> n >= capacity)
    ensures Reached(capacity, if n < capacity then Zeros(k + 1, n + 1, d, lost) else Zeros(k + 1, n, d, lost + 1))
  {
    hide Genuine, Reached, Marked;
    var r, b := Zeros(k, n, d, lost), Marked(capacity)[k];
    MarkedIsGenuine(capacity, k);
    ReachNext(capacity, r, Arrive(Plain(k, b)));
    AdvanceAdds(0, k, 1);
    hide Advance;
    assert seq(n, _ => TcpData([0], 0)) + [TcpData([0], 0)] == seq(n + 1, _ => TcpData([0], 0));
  }

  lemma ZerosRead(capacity: nat, k: nat, n: nat, d: nat, lost: nat)
    requires Reached(capacity, Zeros(k, n, d, lost)) && n > 0
    ensures Reached(capacity, Zeros(k, n - 1, d + 1, lost))
  {
    hide Reached, Advance;
    var r := Zeros(k, n, d, lost);
    ReachNext(capacity, r, Read(1));
    var h := r.c.input[0];
    assert h.data[h.consumed..h.consumed + 1] == [0];
    assert r.c.input[1..] == seq(n - 1, _ => TcpData([0], 0));
    assert r.delivered + [0] == seq(d + 1, _ => 0);
  }

  lemma {:induction false} FillUp(capacity: nat, k: nat)
    requires k <= capacity
    ensures Reached(capacity, Zeros(k, k, 0, 0))
  {
    if k == 0 {
      assert IsRun(Marked(capacity), 0, capacity, [], Zeros(0, 0, 0, 0));
    } else {
      FillUp(capacity, k - 1);
      ZerosArrive(capacity, k - 1, k - 1, 0, 0);
    }
  }

  lemma {:induction false} ReadAll(capacity: nat, k: nat, n: nat, d: nat, lost: nat)
    requires Reached(capacity, Zeros(k, n, d, lost))
    ensures Reached(capacity, Zeros(k, 0, d + n, lost))
    decreases n
  {
    if n > 0 {
      ZerosRead(capacity, k, n, d, lost);
      ReadAll(capacity, k, n - 1, d + 1, lost);
    }
  }

  lemma ReachedSkipped(capacity: nat, r: Run)
    requires Reached(capacity, r) && r.lost > 0 && |r.delivered| == capacity + 1 && r.delivered[capacity] == 0
    ensures exists events, r' ::
              IsRun(Marked(capacity), 0, capacity, events, r') && r'.lost > 0 && !(r'.delivered <= Marked(capacity))
  {
    hide IsRun;
    var events :| IsRun(Marked(capacity), 0, capacity, events, r);
    assert Marked(capacity)[capacity] != 0;
  }

  /** For every queue length there is a run in which a full queue makes the reads skip a byte. */
  lemma OverrunSkipsBytes(capacity: nat)
    requires capacity > 0
    ensures exists events, r ::
              IsRun(Marked(capacity), 0, capacity, events, r) && r.lost > 0 && !(r.delivered <= Marked(capacity))
  {
    hide IsRun, Reached, Marked;
    FillUp(capacity, capacity);
    ZerosArrive(capacity, capacity, capacity, 0, 0);
    ZerosRead(capacity, capacity + 1, capacity, 0, 1);
    ZerosArrive(capacity, capacity + 1, capacity - 1, 1, 1);
    ReadAll(capacity, capacity + 2, capacity, 1, 1);
    ReachedSkipped(capacity, Zeros(capacity + 2, 0, capacity + 1, 1));
  }
}
