/** tcp_connection::generate_tcp_pkt and the checksums it writes (fs/tcp.cc). */
module Packet {
  import opened Checksum

  const MEM_NETBUF_SIZE: nat := 16384
  const ETH: nat := 10
  const IP: nat := 24
  const TCP: nat := 44
  const PAYLOAD: nat := 64
  const PROTO_TCP: nat := 6

  /** The connection fields that go into a frame; addresses and ports are kept in wire order. */
  datatype Connection = Connection(macSrc: seq<byte>, macDest: seq<byte>, ipSaddr: seq<byte>, ipDaddr: seq<byte>,
                                   srcPort: seq<byte>, destPort: seq<byte>, recvSeqNo: u32)
  {
    predicate Valid() {
      |macSrc| == 6 && |macDest| == 6 && |ipSaddr| == 4 && |ipDaddr| == 4 && |srcPort| == 2 && |destPort| == 2
    }
  }

  /** Big-endian. */
  function Bytes32(x: u32): (b: seq<byte>)
    ensures |b| == 4
    ensures b[0] as int * 0x100_0000 + b[1] as int * 0x1_0000 + b[2] as int * 0x100 + b[3] as int == x
  {
    var q1 := x as int / 0x100;
    var q2 := q1 / 0x100;
    [q2 / 0x100, q2 % 0x100, q1 % 0x100, x as int % 0x100]
  }

  predicate HasFlag(flags: byte, bit: nat)
    requires bit > 0
  {
    flags as int / bit % 2 == 1
  }

  const TCP_SYN: nat := 2
  const TCP_PSH: nat := 8
  const TCP_ACK: nat := 16

  /** The sequence number field: a SYN without data carries the number before `seqNo`. */
  function SeqField(flags: byte, seqNo: u32, dataLen: nat): u32 {
    if HasFlag(flags, TCP_SYN) && dataLen == 0 then (seqNo as int - 1) % 0x1_0000_0000 else seqNo
  }

  /** A frame with data always has PSH set. */
  function FlagField(flags: byte, dataLen: nat): byte {
    if dataLen > 0 && !HasFlag(flags, TCP_PSH) then flags as int + TCP_PSH else flags
  }

  function AckField(flags: byte, recvSeqNo: u32): u32 {
    if HasFlag(flags, TCP_ACK) then recvSeqNo else 0
  }

  /** A byte by its bits, the lowest first. */
  function FromBits(b: seq<bool>): byte
    requires |b| == 8
  {
    (if b[0] then 1 else 0) + (if b[1] then 2 else 0) + (if b[2] then 4 else 0) + (if b[3] then 8 else 0)
    + (if b[4] then 16 else 0) + (if b[5] then 32 else 0) + (if b[6] then 64 else 0) + if b[7] then 128 else 0
  }

  lemma FlagsAreBits(b: seq<bool>)
    requires |b| == 8
    ensures HasFlag(FromBits(b), TCP_SYN) == b[1] && HasFlag(FromBits(b), TCP_PSH) == b[3]
            && HasFlag(FromBits(b), TCP_ACK) == b[4]
  {
  }

  /**
   The three fields by the bits of the flags: data sets PSH and nothing else, a SYN without data carries the number
   before, and the acknowledgement is sent with ACK only.
   */
  lemma FieldRules(b: seq<bool>, seqNo: u32, recvSeqNo: u32, dataLen: nat)
    requires |b| == 8
    ensures FlagField(FromBits(b), dataLen) == FromBits(b[3 := b[3] || dataLen > 0])
    ensures b[1] && dataLen == 0 ==> (SeqField(FromBits(b), seqNo, dataLen) as int + 1) % 0x1_0000_0000 == seqNo
    ensures !b[1] || dataLen > 0 ==> SeqField(FromBits(b), seqNo, dataLen) == seqNo
    ensures AckField(FromBits(b), recvSeqNo) == if b[4] then recvSeqNo else 0
  {
    FlagsAreBits(b);
    hide HasFlag;
  }

  // ------------------------------------------------------------------ checksum fields

  /** The pseudo-header sum of section 3.1 of RFC 9293: addresses, protocol and segment length. */
  function PseudoSum(addresses: seq<byte>, segmentLen: nat): nat {
    WordSum(addresses) + PROTO_TCP + segmentLen
  }

  /** A receiver accepts `d` when the sum over it, the checksum field included, is all ones. */
  ghost predicate Verifies(base: nat, d: seq<byte>) {
    OnesSum(base + WordSum(d)) == 0xffff
  }

  lemma WordSumSplit(d: seq<byte>, i: nat)
    requires i % 2 == 0 && i + 2 <= |d|
    ensures WordSum(d) == WordSum(d[..i]) + Word(d[i], d[i + 1]) + WordSum(d[i + 2..])
  {
    hide WordSum, Word;
    WordSumStep(d, i);
    WordSumConcat(d[..i + 2], d[i + 2..]);
    assert d[..i + 2] + d[i + 2..] == d;
  }

  /** Writing the complement of a nonzero checksum into its zeroed field makes the whole verify. */
  lemma ComplementVerifies(base: nat, d: seq<byte>, e: seq<byte>, i: nat)
    requires i % 2 == 0 && i + 2 <= |d| && d[i] == 0 && d[i + 1] == 0 && base + WordSum(d) > 0
    requires |e| == |d| && forall k :: 0 <= k < |d| && k != i && k != i + 1 ==> e[k] == d[k]
    requires Word(e[i], e[i + 1]) == 0xffff - OnesSum(base + WordSum(d))
    ensures Verifies(base, e)
  {
    assert e[..i] == d[..i] && e[i + 2..] == d[i + 2..];
    WordSumSplit(d, i);
    WordSumSplit(e, i);
    hide WordSum;
    var x := base + WordSum(d);
    OnesSumRep(x);
    var k: int :| x == OnesSum(x) + k * M16;
    assert base + WordSum(e) == (k + 1) * M16;
    AllOnes(k + 1);
  }

  lemma AllOnes(k: int)
    requires k >= 1
    ensures OnesSum(k * M16) == 0xffff
  {
    assert k * M16 == 0xffff + (k - 1) * M16;
    RepIsOnesSum(0xffff, k * M16);
  }

  lemma SwapComplement(sum: u16)
    ensures var c := 0xffff - Swap(sum) as int; 0 <= c % 0x100 && c / 0x100 < 0x100
    ensures var c := 0xffff - Swap(sum) as int; Word(c % 0x100, c / 0x100) == 0xffff - sum as int
    ensures Word(0, 0) == 0
  {
    var hi, lo := sum as int / 0x100, sum as int % 0x100;
    var c := 0xffff - Swap(sum) as int;
    assert c == 0x100 * (0xff - lo) + (0xff - hi);
    assert c / 0x100 == 0xff - lo && c % 0x100 == 0xff - hi;
  }

  /** `~(sum == 0 ? 0xffff : htons(sum))` stored as a little-endian short: the wire word is the complement of `sum`. */
  method PutComplement(buf: array<byte>, at: nat, sum: u16)
    requires at + 2 <= buf.Length
    modifies buf
    ensures Word(buf[at], buf[at + 1]) == if sum == 0 then 0 else 0xffff - sum
    ensures forall k :: 0 <= k < buf.Length && k != at && k != at + 1 ==> buf[k] == old(buf[k])
  {
    SwapComplement(sum);
    hide Swap, Word;
    var returned := if sum == 0 then 0xffff else Swap(sum);
    var complement := 0xffff - returned as int;
    assert sum == 0 ==> complement == 0;
    buf[at] := complement % 0x100;
    buf[at + 1] := complement / 0x100;
  }

  // ------------------------------------------------------------------ filling the buffer

  /** The bytes of `d` are in the buffer from offset `at`. */
  ghost predicate At(buf: seq<byte>, at: nat, d: seq<byte>) {
    at + |d| <= |buf| && forall k :: at <= k < at + |d| ==> buf[k] == d[k - at]
  }

  /** ut_memcpy */
  method Copy(buf: array<byte>, at: nat, data: seq<byte>)
    requires at + |data| <= buf.Length
    modifies buf
    ensures At(buf[..], at, data)
    ensures forall k :: 0 <= k < buf.Length && !(at <= k < at + |data|) ==> buf[k] == old(buf[k])
  {
    for i := 0 to |data|
      invariant At(buf[..], at, data[..i])
      invariant forall k :: 0 <= k < buf.Length && !(at <= k < at + i) ==> buf[k] == old(buf[k])
    {
      buf[at + i] := data[i];
    }
  }

  ghost predicate EtherHeader(buf: seq<byte>, conn: Connection) {
    |buf| == MEM_NETBUF_SIZE && At(buf, ETH, conn.macDest) && At(buf, ETH + 6, conn.macSrc) && buf[ETH + 12] == 8
      && buf[ETH + 13] == 0
  }

  /** The IPv4 header of section 3.1 of RFC 791, apart from its checksum; the identification is not set. */
  ghost predicate IpHeader(buf: seq<byte>, conn: Connection, dataLen: nat) {
    && |buf| == MEM_NETBUF_SIZE
    && buf[IP] == 0x45 && buf[IP + 1] == 0x10 && Word(buf[IP + 2], buf[IP + 3]) == 40 + dataLen
    && buf[IP + 6] == 0x40 && buf[IP + 7] == 0 && buf[IP + 8] == 0x40 && buf[IP + 9] == PROTO_TCP
    && At(buf, IP + 12, conn.ipSaddr) && At(buf, IP + 16, conn.ipDaddr)
  }

  /** The TCP header of section 3.1 of RFC 9293, apart from its checksum. */
  ghost predicate TcpHeader(buf: seq<byte>, conn: Connection, flags: byte, seqNo: u32, dataLen: nat) {
    && At(buf, TCP, conn.srcPort) && At(buf, TCP + 2, conn.destPort)
    && At(buf, TCP + 4, Bytes32(SeqField(flags, seqNo, dataLen)))
    && At(buf, TCP + 8, Bytes32(AckField(flags, conn.recvSeqNo)))
    && |buf| == MEM_NETBUF_SIZE
    && buf[TCP + 12] == 0x50 && buf[TCP + 13] == FlagField(flags, dataLen)
    && buf[TCP + 14] == 0x72 && buf[TCP + 15] == 0x10 && buf[TCP + 18] == 0 && buf[TCP + 19] == 0
  }

  method FillEther(buf: array<byte>, conn: Connection)
    requires buf.Length == MEM_NETBUF_SIZE && conn.Valid()
    modifies buf
    ensures EtherHeader(buf[..], conn) && forall k :: 0 <= k < ETH ==> buf[k] == 0
    ensures forall k :: IP <= k < buf.Length ==> buf[k] == old(buf[k])
  {
    for i := 0 to ETH
      invariant forall k :: 0 <= k < i ==> buf[k] == 0
      invariant forall k :: IP <= k < buf.Length ==> buf[k] == old(buf[k])
    {
      buf[i] := 0;
    }
    Copy(buf, ETH + 6, conn.macSrc);
    Copy(buf, ETH, conn.macDest);
    buf[22], buf[23] := 8, 0;
  }

  lemma LengthBytes(n: nat)
    requires n < 0x1_0000
    ensures Word(n / 0x100 % 0x100, n % 0x100) == n
  {
  }

  method FillIp(buf: array<byte>, conn: Connection, dataLen: nat)
    requires buf.Length == MEM_NETBUF_SIZE && conn.Valid() && dataLen + PAYLOAD <= buf.Length
    modifies buf
    ensures IpHeader(buf[..], conn, dataLen) && buf[IP + 10] == 0 && buf[IP + 11] == 0
    ensures forall k :: 0 <= k < buf.Length && !(IP <= k < TCP) ==> buf[k] == old(buf[k])
  {
    hide Word;
    Copy(buf, IP + 16, conn.ipDaddr);
    Copy(buf, IP + 12, conn.ipSaddr);
    buf[IP + 6], buf[IP + 7] := 0x40, 0;
    buf[IP], buf[IP + 1], buf[IP + 8], buf[IP + 9] := 0x45, 0x10, 0x40, PROTO_TCP;
    var ipLen := 40 + dataLen;
    LengthBytes(ipLen);
    buf[IP + 2], buf[IP + 3] := ipLen / 0x100 % 0x100, ipLen % 0x100;
    buf[IP + 10], buf[IP + 11] := 0, 0;
  }

  method FillTcp(buf: array<byte>, conn: Connection, flags: byte, seqNo: u32, dataLen: nat)
    requires buf.Length == MEM_NETBUF_SIZE && conn.Valid()
    modifies buf
    ensures TcpHeader(buf[..], conn, flags, seqNo, dataLen) && buf[TCP + 16] == 0 && buf[TCP + 17] == 0
    ensures forall k :: 0 <= k < buf.Length && !(TCP <= k < PAYLOAD) ==> buf[k] == old(buf[k])
  {
    hide SeqField, AckField, FlagField, Bytes32;
    Copy(buf, TCP + 2, conn.destPort);
    Copy(buf, TCP, conn.srcPort);
    Copy(buf, TCP + 4, Bytes32(SeqField(flags, seqNo, dataLen)));
    Copy(buf, TCP + 8, Bytes32(AckField(flags, conn.recvSeqNo)));
    buf[TCP + 12], buf[TCP + 13] := 0x50, FlagField(flags, dataLen);
    buf[TCP + 14], buf[TCP + 15] := 0x72, 0x10;
    buf[TCP + 16], buf[TCP + 17], buf[TCP + 18], buf[TCP + 19] := 0, 0, 0, 0;
  }

  // ------------------------------------------------------------------ the checksums

  /** upper_layer_chksum, on the length found in the IP header; `fast` is g_conf_tcpcksum. */
  method UpperLayerChksum(buf: array<byte>, fast: bool) returns (sum: u16)
    requires buf.Length == MEM_NETBUF_SIZE && 40 <= Word(buf[IP + 2], buf[IP + 3]) <= buf.Length - IP
    ensures var n := Word(buf[IP + 2], buf[IP + 3]) - 20;
            sum == OnesSum(PseudoSum(buf[IP + 12..TCP], n) + WordSum(buf[TCP..TCP + n]))
  {
    var upperLayerLen := Word(buf[IP + 2], buf[IP + 3]) as int - 20;
    sum := upperLayerLen + PROTO_TCP;
    ghost var start := sum;
    sum := Chksum(sum, buf[IP + 12..TCP]);
    ghost var second := sum;
    if fast {
      sum := ChecksumForLarge2(sum, buf[TCP..TCP + upperLayerLen]);
    } else {
      sum := Chksum(sum, buf[TCP..TCP + upperLayerLen]);
    }
    OnesSumTwice(start + WordSum(buf[IP + 12..TCP]), WordSum(buf[TCP..TCP + upperLayerLen]));
  }

  lemma OnesSumTwice(a: nat, b: nat)
    ensures OnesSum(OnesSum(a) + b) == OnesSum(a + b)
  {
    OnesSumRep(a);
    OnesSumRep(OnesSum(a) + b);
    RepPlus(OnesSum(a), a, OnesSum(OnesSum(a) + b), b, M16);
    RepIsOnesSum(OnesSum(OnesSum(a) + b), a + b);
  }

  /** Everything a frame must hold, apart from its checksums. */
  ghost predicate Frame(buf: seq<byte>, conn: Connection, flags: byte, seqNo: u32, data: seq<byte>) {
    && EtherHeader(buf, conn) && IpHeader(buf, conn, |data|)
    && TcpHeader(buf, conn, flags, seqNo, |data|) && At(buf, PAYLOAD, data)
  }

  lemma FrameSlices(buf: seq<byte>, conn: Connection, flags: byte, seqNo: u32, data: seq<byte>)
    requires conn.Valid() && Frame(buf, conn, flags, seqNo, data)
    ensures |buf| == MEM_NETBUF_SIZE && buf[IP + 12..TCP] == conn.ipSaddr + conn.ipDaddr
    ensures Word(buf[IP + 2], buf[IP + 3]) == 40 + |data| && WordSum(buf[IP..TCP]) > 0
  {
    assert buf[IP..TCP][0] == 0x45;
  }

  /** tcp_connection::generate_tcp_pkt, for every stale content of `buf`. */
  method GenerateTcpPkt(conn: Connection, flags: byte, buf: array<byte>, data: seq<byte>, seqNo: u32, fast: bool)
    returns (sendLen: nat)
    requires buf.Length == MEM_NETBUF_SIZE && conn.Valid() && |data| + PAYLOAD <= buf.Length
    modifies buf
    ensures sendLen == 54 + |data| && Frame(buf[..], conn, flags, seqNo, data)
    ensures Verifies(0, buf[IP..TCP])
    ensures Verifies(PseudoSum(conn.ipSaddr + conn.ipDaddr, 20 + |data|), buf[TCP..PAYLOAD + |data|])
  {
    FillEther(buf, conn);
    FillIp(buf, conn, |data|);
    FillTcp(buf, conn, flags, seqNo, |data|);
    Copy(buf, PAYLOAD, data);
    FillChecksums(buf, conn, flags, seqNo, data, fast);
    sendLen := 14 + 20 + 20 + |data|;
  }

  /** Changing the four checksum bytes leaves the rest of the frame as it is. */
  lemma FrameKept(was: seq<byte>, buf: seq<byte>, conn: Connection, flags: byte, seqNo: u32, data: seq<byte>)
    requires conn.Valid() && Frame(was, conn, flags, seqNo, data) && |buf| == |was|
    requires forall k :: 0 <= k < |buf| && k != IP + 10 && k != IP + 11 && k != TCP + 16 && k != TCP + 17 ==>
             buf[k] == was[k]
    ensures Frame(buf, conn, flags, seqNo, data)
  {
    hide SeqField, AckField, FlagField, Bytes32, Word;
  }

  /** The end of generate_tcp_pkt: both checksum fields are zero and are now filled in. */
  method FillChecksums(buf: array<byte>, conn: Connection, flags: byte, seqNo: u32, data: seq<byte>, fast: bool)
    requires buf.Length == MEM_NETBUF_SIZE && conn.Valid() && |data| + PAYLOAD <= buf.Length
    requires Frame(buf[..], conn, flags, seqNo, data)
    requires buf[IP + 10] == 0 && buf[IP + 11] == 0 && buf[TCP + 16] == 0 && buf[TCP + 17] == 0
    modifies buf
    ensures Frame(buf[..], conn, flags, seqNo, data)
    ensures Verifies(0, buf[IP..TCP])
    ensures Verifies(PseudoSum(conn.ipSaddr + conn.ipDaddr, 20 + |data|), buf[TCP..PAYLOAD + |data|])
  {
    hide Frame, WordSum, OnesSum, Verifies;
    FrameSlices(buf[..], conn, flags, seqNo, data);
    ghost var ip, end := buf[IP..TCP], PAYLOAD + |data|;
    ghost var base := PseudoSum(conn.ipSaddr + conn.ipDaddr, 20 + |data|);
    var sum := UpperLayerChksum(buf, fast);
    SealSlice(buf, TCP, end, 16, base, sum);
    ghost var sealed := buf[TCP..end];
    assert buf[IP..TCP] == ip;
    sum := Chksum(0, buf[IP..TCP]);
    SealSlice(buf, IP, TCP, 10, 0, sum);
    assert buf[TCP..end] == sealed;
    FrameKept(old(buf[..]), buf[..], conn, flags, seqNo, data);
  }

  /** The complement of the sum over `lo..hi` goes into the zeroed field at `lo + i`. */
  method SealSlice(buf: array<byte>, lo: nat, ghost hi: nat, i: nat, ghost base: nat, sum: u16)
    requires i % 2 == 0 && lo + i + 2 <= hi <= buf.Length && buf[lo + i] == 0 && buf[lo + i + 1] == 0
    requires base + WordSum(buf[lo..hi]) > 0 && sum == OnesSum(base + WordSum(buf[lo..hi]))
    modifies buf
    ensures Verifies(base, buf[lo..hi])
    ensures forall k :: 0 <= k < buf.Length && k != lo + i && k != lo + i + 1 ==> buf[k] == old(buf[k])
  {
    hide WordSum, OnesSum, Verifies, Word;
    OnesSumPositive(base + WordSum(buf[lo..hi]));
    ghost var was := buf[lo..hi];
    PutComplement(buf, lo + i, sum);
    ComplementVerifies(base, was, buf[lo..hi], i);
  }

  lemma OnesSumPositive(x: nat)
    ensures OnesSum(x) > 0 <==> x > 0
  {
  }
}
