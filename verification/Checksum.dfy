/**
 The Internet checksum loops of fs/tcp.cc. Three loops of different width must return the same
 16-bit value; section 1 of RFC 1071 defines that value, section 2 says why the wide forms may be used.
 */
module Checksum {

  type byte = x: int | 0 <= x < 0x100
  type u16 = x: int | 0 <= x < 0x1_0000
  type u32 = x: int | 0 <= x < 0x1_0000_0000
  type u64 = x: int | 0 <= x < 0x1_0000_0000_0000_0000

  const M16: int := 0xffff
  const M32: int := 0xffff_ffff
  const M64: int := 0xffff_ffff_ffff_ffff

  // ------------------------------------------------------------------ reference definition

  function Word(hi: byte, lo: byte): u16 {
    0x100 * hi as int + lo as int
  }

  /** The plain sum of the big-endian 16-bit words, an odd last byte padded with zero. */
  function WordSum(data: seq<byte>): nat {
    if |data| == 0 then 0
    else if |data| == 1 then Word(data[0], 0)
    else Word(data[0], data[1]) + WordSum(data[2..])
  }

  /** The one's complement representative of a sum: 0 only for 0, else the member of 1..0xffff congruent to it. */
  function OnesSum(total: nat): u16 {
    if total == 0 then 0 else (total - 1) % M16 + 1
  }

  // ------------------------------------------------------------------ representatives

  /** `r` stands for `x` in one's complement arithmetic of modulus `m`. */
  ghost predicate Rep(r: int, x: int, m: int) {
    0 <= r <= m && (r == 0 <==> x == 0) && exists k: int :: x == r + k * m
  }

  lemma RepIsOnesSum(r: int, x: nat)
    requires Rep(r, x, M16)
    ensures r == OnesSum(x)
  {
    var k: int :| x == r + k * M16;
    if x != 0 {
      assert x - 1 == (r - 1) + k * M16;
    }
  }

  /** `r` also stands for `x` when it stands for some `y` that is congruent to `x` and zero together with it. */
  lemma RepChain(r: int, y: int, x: int, m: int, k: int)
    requires Rep(r, y, m) && x == y + k * m && (x == 0 <==> y == 0)
    ensures Rep(r, x, m)
  {
    var j: int :| y == r + j * m;
    assert x == r + (j + k) * m;
  }

  lemma RepPlus(r: int, a: int, s: int, b: int, m: int)
    requires Rep(r, a, m) && Rep(s, r + b, m) && 0 <= a && 0 <= b
    ensures Rep(s, a + b, m)
  {
    var k: int :| a == r + k * m;
    RepChain(s, r + b, a + b, m, k);
  }

  /** A wider modulus that is a multiple of `m` may be narrowed. */
  lemma RepNarrow(r: int, x: int, w: int, m: int, c: int, s: int)
    requires Rep(r, x, w) && w == c * m && Rep(s, r, m)
    ensures Rep(s, x, m)
  {
    var k: int :| x == r + k * w;
    assert k * w == (k * c) * m;
    RepChain(s, r, x, m, k * c);
  }

  /** Adding with end-around carry on `w` = `m` + 1 values, as `sum += t; if (sum < t) sum++` does. */
  lemma EndAround(a: int, b: int, m: int)
    requires 0 <= a <= m && 0 <= b <= m && 0 < m
    ensures var s := (a + b) % (m + 1);
            && (s < b <==> a + b > m)
            && (if s < b then s < m && Rep(s + 1, a + b, m) else Rep(s, a + b, m))
  {
    if a + b > m {
      assert a + b == 1 * (m + 1) + (a + b - m - 1);
      Wraps(a + b, m + 1);
      assert a + b == (a + b - m) + 1 * m;
    } else {
      Wraps(a + b, m + 1);
      assert a + b == (a + b) + 0 * m;
    }
  }

  lemma Wraps(x: int, w: int)
    requires 0 <= x < 2 * w
    ensures x % w == if x < w then x else x - w
  {
    if x >= w {
      assert x == w * 1 + (x - w);
      var q, r := x / w, x % w;
      assert (q - 1) * w == (x - w) - r;
      assert q == 1;
    }
  }

  lemma {:induction false} WordSumConcat(a: seq<byte>, b: seq<byte>)
    requires |a| % 2 == 0
    ensures WordSum(a + b) == WordSum(a) + WordSum(b)
  {
    if a == [] {
      assert a + b == b;
    } else {
      WordSumConcat(a[2..], b);
      assert (a + b)[2..] == a[2..] + b;
    }
  }

  // ------------------------------------------------------------------ the 16-bit loop

  lemma WordSumStep(data: seq<byte>, i: nat)
    requires i % 2 == 0 && i + 2 <= |data|
    ensures WordSum(data[..i + 2]) == WordSum(data[..i]) + Word(data[i], data[i + 1])
  {
    WordSumConcat(data[..i], data[i..i + 2]);
    assert data[..i] + data[i..i + 2] == data[..i + 2];
    assert data[i..i + 2][2..] == [];
  }

  lemma WordSumLast(data: seq<byte>, i: nat)
    requires i % 2 == 0 && i + 1 == |data|
    ensures WordSum(data) == WordSum(data[..i]) + Word(data[i], 0)
  {
    WordSumConcat(data[..i], data[i..]);
    assert data[..i] + data[i..] == data;
  }

  /** `sum += t; if (sum < t) sum++` */
  method AddWord(sum: u16, t: u16, ghost total: nat) returns (s: u16)
    requires Rep(sum, total, M16)
    ensures Rep(s, total + t, M16)
  {
    EndAround(sum, t, M16);
    s := (sum + t) % 0x1_0000;
    if s < t {
      s := s + 1;
    }
    RepPlus(sum, total, s, t, M16);
  }

  /** chksum, whose length is a u16_t */
  method Chksum(start: u16, data: seq<byte>) returns (sum: u16)
    requires |data| < 0x1_0000
    ensures sum == OnesSum(start + WordSum(data))
  {
    sum := start;
    var i := 0;
    assert start == start + 0 * M16;
    assert data[..0] == [];
    hide WordSum, Rep, OnesSum;
    while i < |data| - 1
      invariant 0 <= i <= |data| && i % 2 == 0
      invariant Rep(sum, start + WordSum(data[..i]), M16)
    {
      WordSumStep(data, i);
      sum := AddWord(sum, Word(data[i], data[i + 1]), start + WordSum(data[..i]));
      i := i + 2;
    }
    if i == |data| - 1 {
      WordSumLast(data, i);
      sum := AddWord(sum, Word(data[i], 0), start + WordSum(data[..i]));
    } else {
      assert data[..i] == data;
    }
    RepIsOnesSum(sum, start + WordSum(data));
  }

  // ------------------------------------------------------------------ wide words

  /** `*b` on a little-endian machine: eight bytes, the first the least significant. */
  function Word64(d: seq<byte>): u64
    requires |d| == 8
  {
    d[0] as int + 0x100 * d[1] as int + 0x1_0000 * d[2] as int + 0x100_0000 * d[3] as int
    + 0x1_0000_0000 * d[4] as int + 0x100_0000_0000 * d[5] as int
    + 0x1_0000_0000_0000 * d[6] as int + 0x100_0000_0000_0000 * d[7] as int
  }

  /** The plain sum of the whole little-endian 64-bit words. */
  function WideSum(data: seq<byte>): nat {
    if |data| < 8 then 0 else Word64(data[..8]) + WideSum(data[8..])
  }

  lemma FourWords(d: seq<byte>)
    requires |d| == 8
    ensures WordSum(d) == Word(d[0], d[1]) + Word(d[2], d[3]) + Word(d[4], d[5]) + Word(d[6], d[7])
  {
    assert d[2..][2..] == d[4..] && d[4..][2..] == d[6..] && d[6..][2..] == [];
    assert WordSum(d[6..]) == Word(d[6], d[7]) + WordSum([]);
    assert WordSum(d[4..]) == Word(d[4], d[5]) + WordSum(d[6..]);
  }

  /** Bytes 2, 4 and 6 of a 64-bit word weigh one more than a multiple of 0xffff. */
  lemma Word64VsWords(d: seq<byte>)
    requires |d| == 8
    ensures (0x100 * Word64(d) as int - WordSum(d)) % M16 == 0
  {
    FourWords(d);
    hide WordSum;
    var k := 0x100 * d[2] as int + 0x1_0001 * (0x100 * d[4] as int) + 0x1_0001_0001 * (0x100 * d[6] as int)
             + d[1] as int + 0x1_0001 * d[3] as int + 0x1_0001_0001 * d[5] as int + 0x1_0001_0001_0001 * d[7] as int;
    assert 0x100 * Word64(d) as int - WordSum(d) == M16 * k;
  }

  lemma Word64Zero(d: seq<byte>)
    requires |d| == 8
    ensures Word64(d) == 0 <==> WordSum(d) == 0
  {
    FourWords(d);
  }

  lemma ModSum(x: int, y: int)
    requires x % M16 == 0 && y % M16 == 0
    ensures (x + y) % M16 == 0
  {
  }

  lemma NoWords()
    ensures WideSum([]) == 0 == WordSum([]) && Rep(0, WideSum([]), M64)
  {
    assert 0 == 0 + 0 * M64;
  }

  lemma WideSumHead(data: seq<byte>)
    requires |data| >= 8
    ensures WideSum(data) == Word64(data[..8]) + WideSum(data[8..])
  {
  }

  /** Swapped bytes: the wide sum times 256 is the sum of the 16-bit words, modulo 0xffff. */
  lemma {:induction false} WideVsWords(data: seq<byte>)
    requires |data| % 8 == 0
    ensures (0x100 * WideSum(data) - WordSum(data)) % M16 == 0
    ensures WideSum(data) == 0 <==> WordSum(data) == 0
  {
    hide WordSum, Word64, WideSum;
    if data == [] {
      NoWords();
    } else {
      var w, rest := data[..8], data[8..];
      WideSumHead(data);
      Word64VsWords(w);
      Word64Zero(w);
      WideVsWords(rest);
      WordSumConcat(w, rest);
      assert w + rest == data;
      ModSum(0x100 * Word64(w) as int - WordSum(w), 0x100 * WideSum(rest) - WordSum(rest));
    }
  }

  lemma {:induction false} WideSumAppend(a: seq<byte>, w: seq<byte>)
    requires |a| % 8 == 0 && |w| == 8
    ensures WideSum(a + w) == WideSum(a) + Word64(w)
  {
    if a == [] {
      assert a + w == w && w[..8] == w && w[8..] == [];
    } else {
      WideSumAppend(a[8..], w);
      assert (a + w)[..8] == a[..8] && (a + w)[8..] == a[8..] + w;
    }
  }

  function Swap(x: u16): u16 {
    x as int % 0x100 * 0x100 + x as int / 0x100
  }

  lemma SwapRep(r: u16, x: int)
    requires Rep(r, x, M16)
    ensures Rep(Swap(r), 0x100 * x, M16)
  {
    var k: int :| x == r + k * M16;
    assert 0x100 * x == Swap(r) + (r as int / 0x100 + 0x100 * k) * M16;
  }

  /** Folding a 64-bit sum to 16 bits keeps what it stands for. */
  method Fold(sum: u64) returns (t3: u16)
    ensures Rep(t3, sum, M16)
  {
    var t1: u32 := sum as int % 0x1_0000_0000;
    var t2: u32 := sum as int / 0x1_0000_0000;
    ghost var lo32: int, hi32: int := t1, t2;
    EndAround(t1, t2, M32);
    t1 := (t1 + t2) % 0x1_0000_0000;
    if t1 < t2 {
      t1 := t1 + 1;
    }
    RepChain(t1, lo32 + hi32, sum, M32, hi32);
    t3 := t1 as int % 0x1_0000;
    var t4: u16 := t1 as int / 0x1_0000;
    ghost var lo16: int, hi16: int := t3, t4;
    EndAround(t3, t4, M16);
    t3 := (t3 + t4) % 0x1_0000;
    if t3 < t4 {
      t3 := t3 + 1;
    }
    RepChain(t3, lo16 + hi16, t1, M16, hi16);
    RepNarrow(t1, sum, M32, M16, 0x1_0001, t3);
  }

  /** The 64-bit sum of whole words, folded and with its bytes swapped, stands for the sum of the 16-bit words. */
  lemma SwappedHead(sum: u64, head: seq<byte>, t: u16)
    requires |head| % 8 == 0 && Rep(sum, WideSum(head), M64) && Rep(t, sum, M16)
    ensures Rep(Swap(t), WordSum(head), M16)
  {
    hide WordSum, WideSum, Swap, Rep;
    RepNarrow(sum, WideSum(head), M64, M16, 0x1_0001_0001_0001, t);
    SwapRep(t, WideSum(head));
    WideVsWords(head);
    RepChain(Swap(t), 0x100 * WideSum(head), WordSum(head), M16, (WordSum(head) - 0x100 * WideSum(head)) / M16);
  }

  lemma TailAdds(swapped: u16, head: seq<byte>, tail: seq<byte>)
    requires |head| % 2 == 0 && Rep(swapped, WordSum(head), M16)
    ensures Rep(OnesSum(swapped + WordSum(tail)), WordSum(head + tail), M16)
  {
    hide WordSum, OnesSum, Rep;
    OnesSumRep(swapped + WordSum(tail));
    RepPlus(swapped, WordSum(head), OnesSum(swapped + WordSum(tail)), WordSum(tail), M16);
    WordSumConcat(head, tail);
  }

  /** The common end of both wide forms: `head` was summed in 64 bits, `tail` is left for the 16-bit loop. */
  method Finish(sum: u64, inSum: u16, head: seq<byte>, tail: seq<byte>) returns (t4: u16)
    requires |head| % 8 == 0 && Rep(sum, WideSum(head), M64) && |tail| < 0x1_0000
    ensures t4 == OnesSum(inSum + WordSum(head + tail))
  {
    hide WordSum, WideSum, OnesSum, Swap, Rep;
    var t3 := Fold(sum);
    SwappedHead(sum, head, t3);
    t4 := Swap(t3);
    TailAdds(t4, head, tail);
    t3 := Chksum(t4, tail);
    EndAround(inSum, t3, M16);
    t4 := (t3 + inSum) % 0x1_0000;
    if t4 < t3 {
      t4 := t4 + 1;
    }
    RepPlus(t3, WordSum(head + tail), t4, inSum, M16);
    RepIsOnesSum(t4, inSum + WordSum(head + tail));
  }

  lemma OnesSumRep(x: nat)
    ensures Rep(OnesSum(x), x, M16)
  {
    if x != 0 {
      assert x == OnesSum(x) + (x - 1) / M16 * M16;
    } else {
      assert x == OnesSum(x) + 0 * M16;
    }
  }

  /** checksumForLarge1 */
  method ChecksumForLarge1(argSum: u16, buf: seq<byte>) returns (r: u16)
    ensures r == OnesSum(argSum + WordSum(buf))
  {
    hide Rep, WideSum, WordSum, OnesSum, Word64;
    var sum: u64 := 0;
    var b, size := 0, |buf|;
    NoWords();
    assert buf[..0] == [];
    while size >= 8
      invariant 0 <= b && b % 8 == 0 && b + size == |buf| && 0 <= size
      invariant Rep(sum, WideSum(buf[..b]), M64)
    {
      var s := Word64(buf[b..b + 8]);
      ghost var before := sum;
      EndAround(sum, s, M64);
      sum := (sum + s) % 0x1_0000_0000_0000_0000;
      if sum < s {
        sum := sum + 1;
      }
      RepPlus(before, WideSum(buf[..b]), sum, s, M64);
      WideSumAppend(buf[..b], buf[b..b + 8]);
      assert buf[..b] + buf[b..b + 8] == buf[..b + 8];
      b := b + 8;
      size := size - 8;
    }
    r := Finish(sum, argSum, buf[..b], buf[b..]);
    assert buf[..b] + buf[b..] == buf;
  }

  /** What the carry chain holds: the accumulator plus the carry flag stand for `x`, and cannot both be saturated. */
  ghost predicate Chain(rax: u64, cf: bool, x: int) {
    var c := if cf then 1 else 0;
    !(rax == M64 && cf) && Rep(rax + c, x, M64)
  }

  lemma ChainStart()
    ensures Chain(0, false, 0) && WideSum([]) == 0
  {
    assert 0 == 0 + 0 * M64;
  }

  lemma ChainAdds(rax: u64, cf: bool, x: nat, w: u64)
    requires Chain(rax, cf, x)
    ensures var t := rax as int + w as int + (if cf then 1 else 0);
            Chain(t % 0x1_0000_0000_0000_0000, t >= 0x1_0000_0000_0000_0000, x + w)
  {
    var t := rax as int + w as int + if cf then 1 else 0;
    var rax', cf' := t % 0x1_0000_0000_0000_0000, t >= 0x1_0000_0000_0000_0000;
    var c, c' := if cf then 1 else 0, if cf' then 1 else 0;
    var k: int :| x == rax + c + k * M64;
    assert t == rax' + c' * 0x1_0000_0000_0000_0000;
    assert x + w == rax' + c' + (k + c') * M64;
  }

  /** `adc 8*q(%rdi), %rax`: add a 64-bit word of memory and the carry flag to the accumulator. */
  method Adc(buf: seq<byte>, q: nat, rax: u64, cf: bool) returns (rax': u64, cf': bool)
    requires 8 * q + 8 <= |buf| && Chain(rax, cf, WideSum(buf[..8 * q]))
    ensures Chain(rax', cf', WideSum(buf[..8 * (q + 1)]))
  {
    hide WideSum, Word64, Chain;
    var i := 8 * q;
    var w := Word64(buf[i..i + 8]);
    var t := rax as int + w as int + if cf then 1 else 0;
    rax', cf' := t % 0x1_0000_0000_0000_0000, t >= 0x1_0000_0000_0000_0000;
    ChainAdds(rax, cf, WideSum(buf[..i]), w);
    WideSumAppend(buf[..i], buf[i..i + 8]);
    assert buf[..i] + buf[i..i + 8] == buf[..i + 8];
  }

  /** The inline assembly of checksumForLarge2: four `adc` per turn, and a last `adc $0` that cannot overflow. */
  method CarryChain(buf: seq<byte>, turns: nat) returns (sum: u64)
    requires 32 * turns <= |buf|
    ensures Rep(sum, WideSum(buf[..32 * turns]), M64)
  {
    hide WideSum, Word64, Rep;
    var ecx, q := turns, 0;
    var rax: u64, cf := 0, false;
    ChainStart();
    assert buf[..0] == [];
    while ecx != 0
      invariant 0 <= ecx <= turns && q + 4 * ecx == 4 * turns
      invariant Chain(rax, cf, WideSum(buf[..8 * q]))
    {
      rax, cf := Adc(buf, q, rax, cf);
      rax, cf := Adc(buf, q + 1, rax, cf);
      rax, cf := Adc(buf, q + 2, rax, cf);
      rax, cf := Adc(buf, q + 3, rax, cf);
      q := q + 4;
      ecx := ecx - 1;
    }
    sum := AdcZero(rax, cf, WideSum(buf[..8 * q]));
  }

  /** `adc $0, %rax`: the chain is never saturated, so no carry is lost. */
  method AdcZero(rax: u64, cf: bool, ghost x: int) returns (sum: u64)
    requires Chain(rax, cf, x)
    ensures Rep(sum, x, M64) && sum == rax + if cf then 1 else 0
  {
    sum := (rax as int + if cf then 1 else 0) % 0x1_0000_0000_0000_0000;
  }

  /** checksumForLarge2 */
  method ChecksumForLarge2(inSum: u16, buf: seq<byte>) returns (r: u16)
    ensures r == OnesSum(inSum + WordSum(buf))
  {
    hide WordSum, WideSum, OnesSum, Rep;
    var sum := CarryChain(buf, |buf| / 32);
    var rdi := |buf| - |buf| % 32;
    assert rdi == 32 * (|buf| / 32) && rdi % 8 == 0;
    r := Finish(sum, inSum, buf[..rdi], buf[rdi..]);
    assert buf[..rdi] + buf[rdi..] == buf;
  }
}
