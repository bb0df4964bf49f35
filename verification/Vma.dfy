/** The list of memory areas of an address space (mm/vm.cc): mmap, brk, munmap and the copy made by fork. */
module Vma {
  import opened Common

  const WRAP: nat := 0x1_0000_0000_0000_0000
  const PAGE_SIZE: nat := 4096
  const USERANONYMOUS_ADDR: nat := 0x7fff_0000_0000
  const KERNEL_CODE_START: nat := 0xffff_ffff_8000_0000
  const KADDRSPACE_END: nat := 0xffff_ffff_c000_0000
  const BRK_LIMIT: nat := 0x4000_0000

  /** The addresses from `start` up to, but not including, `end`. */
  datatype Area = Area(start: nat, end: nat, prot: nat, flags: nat)
  {
    predicate Has(a: nat) { start <= a < end }

    predicate Nonempty() { start < end }

    predicate Proper() { start <= end }

    /** vm_findVma's test, which admits `addr + len == end`. */
    predicate Spans(addr: nat, len: nat) { start <= addr && addr + len <= end }
  }

  predicate Apart(v: Area, w: Area) {
    v.end <= w.start || w.end <= v.start
  }

  /** Areas are in ascending order and do not meet; some may be empty. */
  predicate Sorted(l: seq<Area>) {
    && (forall i :: 0 <= i < |l| ==> l[i].Proper())
    && (forall i, j :: 0 <= i < j < |l| ==> l[i].end <= l[j].start)
  }

  ghost predicate Mapped(l: seq<Area>, a: nat) {
    exists i :: 0 <= i < |l| && l[i].Has(a)
  }

  /** An address belongs to at most one area. */
  lemma OneArea(l: seq<Area>, a: nat, i: nat, j: nat)
    requires Sorted(l) && i < |l| && j < |l| && l[i].Has(a) && l[j].Has(a)
    ensures i == j
  {
  }

  // ------------------------------------------------------------------ linking

  /** The first area that starts at or behind `end`. */
  function Behind(l: seq<Area>, end: nat): (i: nat)
    ensures i <= |l| && (forall j :: 0 <= j < i ==> l[j].start < end) && (i < |l| ==> l[i].start >= end)
  {
    if l == [] || l[0].start >= end then 0 else 1 + Behind(l[1..], end)
  }

  /** Where vma_link puts an area that fits: in front, or before the first later area that it does not reach into. */
  function Place(l: seq<Area>, v: Area): (i: nat)
    ensures i <= |l|
  {
    if l == [] || v.start < l[0].end then 0 else 1 + Behind(l[1..], v.end)
  }

  function Inserted(l: seq<Area>, i: nat, v: Area): seq<Area>
    requires i <= |l|
  {
    l[..i] + [v] + l[i..]
  }

  /** The new area meets no other, and in front of the first one it does not end exactly where that starts. */
  ghost predicate Fits(l: seq<Area>, v: Area) {
    && (forall i :: 0 <= i < |l| ==> Apart(l[i], v))
    && (l != [] && v.start < l[0].end ==> v.end != l[0].start)
  }

  lemma InsertedSorted(l: seq<Area>, i: nat, v: Area)
    requires Sorted(l) && v.Proper() && i <= |l|
    requires (i > 0 ==> l[i - 1].end <= v.start) && (i < |l| ==> v.end <= l[i].start)
    ensures Sorted(Inserted(l, i, v))
  {
    var l' := Inserted(l, i, v);
    assert forall j :: 0 <= j < |l'| ==> l'[j] == if j < i then l[j] else if j == i then v else l[j - 1];
    assert forall j :: 0 <= j < i ==> l[j].end <= v.start;
    assert forall j :: i <= j < |l| ==> v.end <= l[j].start;
  }

  lemma InsertedMaps(l: seq<Area>, i: nat, v: Area, a: nat)
    requires i <= |l|
    ensures Mapped(Inserted(l, i, v), a) <==> Mapped(l, a) || v.Has(a)
  {
    var l' := Inserted(l, i, v);
    if Mapped(l, a) {
      var j :| 0 <= j < |l| && l[j].Has(a);
      assert l'[if j < i then j else j + 1] == l[j];
    }
    if v.Has(a) { assert l'[i] == v; }
    if Mapped(l', a) {
      var j :| 0 <= j < |l'| && l'[j].Has(a);
      assert j != i ==> l'[j] == l[if j < i then j else j - 1];
    }
  }

  // ------------------------------------------------------------------ growing an end

  function Grown(l: seq<Area>, i: nat, end: nat): seq<Area>
    requires i < |l|
  {
    l[i := l[i].(end := end)]
  }

  lemma GrownSorted(l: seq<Area>, i: nat, end: nat)
    requires Sorted(l) && i < |l| && l[i].Nonempty() && l[i].end <= end
    ensures Sorted(Grown(l, i, end)) <==> (i + 1 < |l| ==> end <= l[i + 1].start)
  {
    var l' := Grown(l, i, end);
    if i + 1 < |l| { assert l'[i].end == end && l'[i + 1] == l[i + 1]; }
    if i + 1 < |l| ==> end <= l[i + 1].start {
      assert forall j :: i + 1 < j < |l| ==> l[i + 1].end <= l[j].start;
    }
  }

  lemma GrownMaps(l: seq<Area>, i: nat, end: nat, a: nat)
    requires i < |l| && l[i].Nonempty() && l[i].end <= end
    ensures Mapped(Grown(l, i, end), a) <==> Mapped(l, a) || l[i].end <= a < end
  {
    var l' := Grown(l, i, end);
    if Mapped(l, a) {
      var j :| 0 <= j < |l| && l[j].Has(a);
      assert l'[j].Has(a);
    }
    if l[i].end <= a < end { assert l'[i].Has(a); }
    if Mapped(l', a) {
      var j :| 0 <= j < |l'| && l'[j].Has(a);
      assert j != i ==> l[j].Has(a);
      assert j == i && a < l[i].end ==> l[i].Has(a);
    }
  }

  /** What vm_find_vma_ovrlap tests: two areas that meet, unless they start at the same address. */
  predicate Clash(v: Area, w: Area) {
    (v.start < w.start && v.end > w.start) || (w.start < v.start && w.end > v.start)
  }

  lemma ClashIsMeeting(v: Area, w: Area)
    requires v.Nonempty() && w.Nonempty()
    ensures Clash(v, w) <==> !Apart(v, w) && v.start != w.start
  {
  }

  // ------------------------------------------------------------------ unmapping

  /** vm_munmap removes an area that lies within the range; the end of the range is computed in 64 bits. */
  predicate Within(v: Area, addr: nat, len: nat) {
    addr <= v.start && (addr + len) % WRAP >= v.end
  }

  function Remaining(l: seq<Area>, addr: nat, len: nat): seq<Area> {
    if l == [] then []
    else (if Within(l[0], addr, len) then [] else [l[0]]) + Remaining(l[1..], addr, len)
  }

  lemma {:induction false} RemainingDrops(l: seq<Area>, i: nat, addr: nat, len: nat)
    requires i < |l| && Within(l[i], addr, len)
    ensures Remaining(l[..i] + l[i + 1..], addr, len) == Remaining(l, addr, len)
  {
    hide Within;
    var l' := l[..i] + l[i + 1..];
    if i == 0 {
      assert l' == l[1..];
    } else {
      RemainingDrops(l[1..], i - 1, addr, len);
      assert l'[0] == l[0] && l'[1..] == l[1..][..i - 1] + l[1..][i..];
    }
  }

  lemma {:induction false} RemainingAll(l: seq<Area>, addr: nat, len: nat)
    requires forall i :: 0 <= i < |l| ==> !Within(l[i], addr, len)
    ensures Remaining(l, addr, len) == l
  {
    hide Within;
    if l != [] { RemainingAll(l[1..], addr, len); }
  }

  lemma {:induction false} RemainingFacts(l: seq<Area>, addr: nat, len: nat, v: Area)
    ensures v in Remaining(l, addr, len) <==> v in l && !Within(v, addr, len)
  {
    hide Within;
    if l != [] {
      RemainingFacts(l[1..], addr, len, v);
      assert l == [l[0]] + l[1..];
    }
  }

  /** An area sticks out of the range of an unmap, at one end or the other; the range may wrap. */
  ghost predicate SticksOut(v: Area, addr: nat, len: nat) {
    v.start < addr || v.end > if addr + len < WRAP then addr + len else (addr + len) % WRAP
  }

  /** After an unmap exactly the addresses of the areas that stick out of the range are still mapped. */
  lemma UnmapMaps(l: seq<Area>, addr: nat, len: nat, a: nat)
    ensures Mapped(Remaining(l, addr, len), a) <==>
            exists i :: 0 <= i < |l| && l[i].start <= a < l[i].end && SticksOut(l[i], addr, len)
  {
    forall v: Area ensures SticksOut(v, addr, len) <==> !Within(v, addr, len) {
    }
    hide Within, SticksOut;
    var r := Remaining(l, addr, len);
    if Mapped(r, a) {
      var j :| 0 <= j < |r| && r[j].Has(a);
      RemainingFacts(l, addr, len, r[j]);
      var i :| 0 <= i < |l| && l[i] == r[j];
    }
    if i :| 0 <= i < |l| && l[i].Has(a) && !Within(l[i], addr, len) {
      RemainingFacts(l, addr, len, l[i]);
      var j :| 0 <= j < |r| && r[j] == l[i];
    }
  }

  lemma UnmapAll(l: seq<Area>, addr: nat, len: nat)
    ensures forall a: nat :: Mapped(Remaining(l, addr, len), a) <==>
              exists i :: 0 <= i < |l| && l[i].start <= a < l[i].end && SticksOut(l[i], addr, len)
  {
    hide Remaining, Mapped, SticksOut;
    forall a: nat
      ensures Mapped(Remaining(l, addr, len), a) <==>
              exists i :: 0 <= i < |l| && l[i].start <= a < l[i].end && SticksOut(l[i], addr, len)
    {
      UnmapMaps(l, addr, len, a);
    }
  }

  /** Unmapping exactly the range of an area unmaps all of it. */
  lemma UnmapExact(l: seq<Area>, k: nat, a: nat)
    requires Sorted(l) && k < |l| && l[k].end < WRAP && l[k].start <= a < l[k].end
    ensures !Mapped(Remaining(l, l[k].start, l[k].end - l[k].start), a)
  {
    hide Remaining, Mapped, Sorted;
    UnmapMaps(l, l[k].start, l[k].end - l[k].start, a);
    if i :| 0 <= i < |l| && l[i].start <= a < l[i].end && SticksOut(l[i], l[k].start, l[k].end - l[k].start) {
      OneArea(l, a, i, k);
    }
  }

  lemma DropSorted(l: seq<Area>, i: nat)
    requires Sorted(l) && i < |l|
    ensures Sorted(l[..i] + l[i + 1..])
  {
    var l' := l[..i] + l[i + 1..];
    assert forall j :: 0 <= j < |l'| ==> l'[j] == l[if j < i then j else j + 1];
  }

  // ------------------------------------------------------------------ the address space

  /** The length of a mapping: no more than the file has. */
  function MapLen(file: Option<nat>, len: nat): (r: nat)
    ensures r <= len && (file.Some? ==> r <= file.value) && (r == len || file == Some(r))
  {
    if file.Some? && file.value < len then file.value else len
  }

  /** The flags of a file mapping: MAP_FIXED, which is 0x10, is set and the other bits are kept. */
  function Fixed(flags: nat): (r: nat)
    ensures r % 0x20 >= 0x10 && r == if flags % 0x20 >= 0x10 then flags else flags + 0x10
  {
    if flags / 0x10 % 2 == 1 then flags else flags + 0x10
  }

  /** Whether an area fits depends on its ends alone. */
  lemma FitsBySpan(l: seq<Area>, v: Area, flags: nat)
    ensures Fits(l, v) <==> Fits(l, v.(flags := flags))
  {
  }

  predicate InKernel(addr: nat) {
    KERNEL_CODE_START <= addr < KADDRSPACE_END
  }

  /** The first area that spans the range, or the length of the list. */
  function FirstSpan(l: seq<Area>, addr: nat, len: nat): (k: nat)
    ensures k <= |l| && (forall j :: 0 <= j < k ==> !l[j].Spans(addr, len)) && (k < |l| ==> l[k].Spans(addr, len))
  {
    if l == [] || l[0].Spans(addr, len) then 0 else 1 + FirstSpan(l[1..], addr, len)
  }

  predicate Spanned(l: seq<Area>, addr: nat, len: nat) {
    FirstSpan(l, addr, len) < |l|
  }

  /** The area at `k` can end at `end` without meeting the next one. */
  predicate Room(l: seq<Area>, k: nat, end: nat)
    requires k < |l|
  {
    k + 1 < |l| ==> end <= l[k + 1].start
  }

  /** The area just below `anonymous_addr`, which an anonymous mapping extends; none before the first one. */
  function AnonArea(l: seq<Area>, anonymousAddr: nat): (k: nat)
    ensures k <= |l|
  {
    if anonymousAddr == 0 then |l|
    else FirstSpan(l, if anonymousAddr >= 100 then anonymousAddr - 100 else anonymousAddr + WRAP - 100, 10)
  }

  /** It is the first one that reaches over the ten bytes that begin a hundred below `anonymous_addr`. */
  lemma AnonAreaIs(l: seq<Area>, anonymousAddr: nat)
    ensures var k := AnonArea(l, anonymousAddr);
            && (anonymousAddr == 0 ==> k == |l|)
            && (anonymousAddr >= 100 ==>
                  && (forall j :: 0 <= j < k ==> !(l[j].start <= anonymousAddr - 100 < anonymousAddr - 90 <= l[j].end))
                  && (k < |l| ==> l[k].start <= anonymousAddr - 100 < anonymousAddr - 90 <= l[k].end))
  {
  }

  /** A difference in 64 bits. */
  function Minus(a: nat, b: nat): (r: nat)
    requires b < WRAP
    ensures (r + b) % WRAP == a % WRAP && (a < WRAP ==> r < WRAP)
  {
    if a >= b then a - b else a + WRAP - b
  }

  /** PAGE_ALIGN in 64 bits: the next page boundary at or above `len`, or 0 where there is none below 2^64. */
  function PageAlign(len: nat): (r: nat)
    requires len < WRAP
    ensures r % PAGE_SIZE == 0
    ensures len + PAGE_SIZE <= WRAP ==> len <= r < len + PAGE_SIZE
    ensures len + PAGE_SIZE > WRAP ==> r == 0
  {
    Aligns(len);
    (len + PAGE_SIZE - 1) % WRAP / PAGE_SIZE * PAGE_SIZE
  }

  /** `(addr + PAGE_SIZE) & PAGE_MASK` */
  function NextPage(addr: nat): (r: nat)
    ensures r % PAGE_SIZE == 0 && addr < r <= addr + PAGE_SIZE
  {
    (addr + PAGE_SIZE) / PAGE_SIZE * PAGE_SIZE
  }

  /** `after` maps what `before` maps and the `n` addresses from `start`. */
  ghost predicate Adds(before: seq<Area>, after: seq<Area>, start: nat, n: nat) {
    forall a: nat :: Mapped(after, a) <==> Mapped(before, a) || start <= a < start + n
  }

  ghost predicate Unmapped(l: seq<Area>, start: nat, n: nat) {
    forall a: nat :: start <= a < start + n ==> !Mapped(l, a)
  }

  datatype MmapResult = At(addr: nat) | Failed | Bug

  /**
   What an anonymous mapping does: growth where there is room, else a new area at `anonymous_addr`, which moves on even
   on failure.
   */
  ghost predicate AnonOutcome(l: seq<Area>, anon: nat, len: nat, prot: nat, flags: nat, r: MmapResult, l': seq<Area>,
                              anon': nat) {
    var k := AnonArea(l, anon);
    var base := if anon == 0 then USERANONYMOUS_ADDR else anon;
    if k < |l| && Room(l, k, l[k].end + len)
    then r == At(l[k].end) && l' == Grown(l, k, l[k].end + len) && anon' == anon
    else
      var v := Area(base, base + len, prot, flags);
      && anon' == base + len
      && if Fits(l, v) then r == At(base) && l' == Inserted(l, Place(l, v), v) else r == Failed && l' == l
  }

  class AddressSpace {
    var list: seq<Area>
    var brkAddr: nat
    var brkLen: nat
    var anonymousAddr: nat
    const kernel: bool  // this is g_kernel_mm

    constructor (kernel: bool)
      ensures list == [] && brkAddr == brkLen == anonymousAddr == 0 && this.kernel == kernel && Sorted(list) && HeapOk()
    {
      this.kernel := kernel;
      list := [];
      brkAddr := 0;
      brkLen := 0;
      anonymousAddr := 0;
    }

    /** The heap is not set up, or is at least a page long. */
    predicate HeapOk()
      reads this
    {
      brkLen < WRAP && (brkLen < PAGE_SIZE ==> brkAddr == 0 == brkLen)
    }

    /** The address is left to the kernel. */
    predicate Floating(file: Option<nat>, addr: nat, anonymous: bool, hp: bool) {
      file.None? && anonymous && addr == 0 && (!kernel || hp)
    }

    /** vma_link: succeeds exactly if the area fits, and puts it where the order wants it. */
    method Link(v: Area) returns (ret: int)
      requires Sorted(list) && v.Proper()
      modifies `list
      ensures Sorted(list) && (ret == 1 || ret == 2 || ret == -2) && (ret > 0 <==> Fits(old(list), v))
      ensures list == if ret > 0 then Inserted(old(list), Place(old(list), v), v) else old(list)
      ensures ret == 2 <==> Fits(old(list), v) && 0 < Place(old(list), v) < |old(list)|
    {
      hide Fits, Sorted, Place;
      if list == [] {
        LinksFirst(v);
        list := [v];
        return 1;
      }
      var i := 0;
      while i < |list|
        invariant i < |list| && list == old(list)
        invariant forall j :: 0 <= j < i ==> list[j].end <= v.start
        invariant forall j :: 0 < j <= i ==> v.end > list[j].start
      {
        if v.start >= list[i].end {
          if i + 1 < |list| {
            if v.end <= list[i + 1].start {
              LinksAt(list, i + 1, v);
              list := list[..i + 1] + [v] + list[i + 1..];
              return 2;
            }
          } else {
            LinksAt(list, i + 1, v);
            list := list[..i + 1] + [v] + list[i + 1..];
            return 1;
          }
        } else if v.end < list[i].start {  // at the head only: past it the area is known to end later
          LinksAt(list, 0, v);
          assert [v] + list == list[..0] + [v] + list[0..];
          list := [v] + list;
          return 1;
        } else {
          DoesNotFit(list, i, v);
          return -2;
        }
        i := i + 1;
      }
    }

    /** vm_findVma: the first area that spans the range. */
    method FindVma(addr: nat, len: nat) returns (r: Option<nat>)
      ensures r == if FirstSpan(list, addr, len) < |list| then Some(FirstSpan(list, addr, len)) else None
      ensures r.Some? ==> r.value < |list| && list[r.value].start <= addr && addr + len <= list[r.value].end
      ensures forall j :: 0 <= j < (if r.Some? then r.value else |list|) ==>
                !(list[j].start <= addr && addr + len <= list[j].end)
    {
      var i := 0;
      while i < |list|
        invariant 0 <= i <= |list| && i <= FirstSpan(list, addr, len)
      {
        if list[i].Spans(addr, len) {
          return Some(i);
        }
        i := i + 1;
      }
      return None;
    }

    /**
     vm_find_vma_ovrlap for the area at `k`, whose end has just grown: exact, given that the list was in order before.
     */
    method FindOverlap(k: nat, ghost before: seq<Area>) returns (r: Option<nat>)
      requires Sorted(before) && k < |before| == |list| && list == Grown(before, k, list[k].end)
      requires before[k].Nonempty() && before[k].end <= list[k].end
      ensures r.None? <==> Sorted(list)
      ensures r.Some? ==> r.value < |list| && r.value != k && !Apart(list[r.value], list[k])
    {
      var i := 0;
      while i < |list|
        invariant 0 <= i <= |list| && forall j :: 0 <= j < i && j != k ==> !Clash(list[j], list[k])
      {
        if i != k && Clash(list[i], list[k]) {
          ClashBreaksOrder(before, k, list[k].end, i);
          return Some(i);
        }
        i := i + 1;
      }
      assert forall j :: 0 <= j < |before| && j != k ==> before[j] == list[j];
      NoClashKeepsOrder(before, k, list[k].end);
      return None;
    }

    /** Grows the end of an area unless that would make it meet the next one. */
    method GrowEnd(k: nat, end: nat) returns (ok: bool)
      requires Sorted(list) && k < |list| && list[k].Nonempty() && list[k].end <= end
      modifies `list
      ensures Sorted(list) && (ok <==> Room(old(list), k, end)) && (ok <==> Sorted(Grown(old(list), k, end)))
      ensures list == if ok then Grown(old(list), k, end) else old(list)
    {
      ghost var before := list;
      var oldEnd := list[k].end;
      list := list[k := list[k].(end := end)];
      var other := FindOverlap(k, before);
      GrownSorted(before, k, end);
      ok := other.None?;
      if !ok {
        list := list[k := list[k].(end := oldEnd)];
        assert list == before;
      }
    }

    /** The end of vm_mmap: the new area is linked or given up. */
    method LinkNew(v: Area) returns (r: MmapResult)
      requires Sorted(list) && v.Proper()
      modifies `list
      ensures Sorted(list) && r == if Fits(old(list), v) then At(v.start) else Failed
      ensures list == if r.At? then Inserted(old(list), Place(old(list), v), v) else old(list)
      ensures r.At? ==> Adds(old(list), list, v.start, v.end - v.start) && Unmapped(old(list), v.start, v.end - v.start)
    {
      hide Adds, Unmapped, Fits, Inserted, Sorted, Place;
      var ret := Link(v);
      if ret < 0 {
        return Failed;
      }
      LinkIsNew(old(list), Place(old(list), v), v);
      return At(v.start);
    }

    /** The area below `anonymous_addr` grows by `len` if there is one and it has room; its old end is returned. */
    method GrowAnonymous(len: nat) returns (r: Option<nat>)
      requires Sorted(list) && anonymousAddr != 0
      modifies `list
      ensures Sorted(list)
      ensures var l, k := old(list), AnonArea(old(list), anonymousAddr);
              if k < |l| && Room(l, k, l[k].end + len)
              then r == Some(l[k].end) && list == Grown(l, k, l[k].end + len)
                   && Adds(l, list, l[k].end, len) && Unmapped(l, l[k].end, len)
              else r == None && list == l
    {
      hide Adds, Unmapped, Grown, Sorted, FirstSpan;
      var k := FindVma(if anonymousAddr >= 100 then anonymousAddr - 100 else anonymousAddr + WRAP - 100, 10);
      if k.None? {
        return None;
      }
      var end := list[k.value].end;
      var ok := GrowEnd(k.value, end + len);
      if !ok {
        return None;
      }
      GrowthIsNew(old(list), k.value, len);
      return Some(end);
    }

    /** The anonymous branch of vm_mmap: the area below `anonymous_addr` grows, or a new one is made there. */
    method MmapAnonymous(len: nat, prot: nat, flags: nat) returns (r: MmapResult)
      requires Sorted(list)
      modifies `list, `anonymousAddr
      ensures Sorted(list) && (!r.At? ==> list == old(list))
      ensures r.At? ==> Adds(old(list), list, r.addr, len) && Unmapped(old(list), r.addr, len)
      ensures AnonOutcome(old(list), old(anonymousAddr), len, prot, flags, r, list, anonymousAddr)
    {
      hide Adds, Unmapped, Fits, Grown, Sorted, AnonArea, Inserted, Place;
      AnonAreaIs(list, anonymousAddr);
      if anonymousAddr == 0 {
        anonymousAddr := USERANONYMOUS_ADDR;
      } else {
        var end := GrowAnonymous(len);
        if end.Some? {
          return At(end.value);
        }
      }
      var v := Area(anonymousAddr, anonymousAddr + len, prot, flags);
      anonymousAddr := anonymousAddr + len;
      r := LinkNew(v);
    }

    /**
     vm_mmap. `file` is the size of the mapped file, `hp` says that the task is an HP thread, `slabOk` that an area
     could be allocated. Unless the range was mapped already, exactly the returned range is newly mapped.
     */
    method Mmap(file: Option<nat>, addr: nat, len: nat, prot: nat, flags: nat, anonymous: bool, hp: bool, slabOk: bool)
      returns (r: MmapResult)
      requires Sorted(list)
      modifies `list, `anonymousAddr
      ensures Sorted(list) && (!r.At? ==> list == old(list))
      ensures r.At? ==> Adds(old(list), list, r.addr, MapLen(file, len))
      ensures r.At? && !Spanned(old(list), addr, len) ==> Unmapped(old(list), r.addr, MapLen(file, len))
      ensures !(file.None? && anonymous && addr == 0 && (!kernel || hp)) ==>
                && (r.At? <==>
                    || Spanned(old(list), addr, len)
                    || (slabOk && (kernel || addr < KERNEL_CODE_START || addr >= KADDRSPACE_END)
                        && Fits(old(list), Area(addr, addr + MapLen(file, len), prot, flags))))
                && (r.At? ==> r.addr == addr) && anonymousAddr == old(anonymousAddr)
                && (r.At? && !Spanned(old(list), addr, len) ==>
                      var v := Area(addr, addr + MapLen(file, len), prot, if file.Some? then Fixed(flags) else flags);
                      list == Inserted(old(list), Place(old(list), v), v))
      ensures Spanned(old(list), addr, len) ==>
                var k := FirstSpan(old(list), addr, len);
                list == old(list)[k := old(list)[k].(prot := prot, flags := flags)]
      ensures file.None? && anonymous && addr == 0 && (!kernel || hp) && !Spanned(old(list), addr, len) && slabOk ==>
                AnonOutcome(old(list), old(anonymousAddr), len, prot, flags, r, list, anonymousAddr)
    {
      hide Adds, Unmapped, Fits, Grown, Sorted, FirstSpan, Inserted, Place, Fixed;
      FitsBySpan(list, Area(addr, addr + MapLen(file, len), prot, flags), Fixed(flags));
      var found := FindVma(addr, len);
      if found.Some? {
        var i := found.value;
        list := list[i := list[i].(prot := prot, flags := flags)];
        RelabelMaps(old(list), i, prot, flags, addr, len, MapLen(file, len));
        return At(addr);
      }
      if !kernel && InKernel(addr) {
        return Bug;
      }
      if !slabOk {
        return Failed;
      }
      if Floating(file, addr, anonymous, hp) {
        r := MmapAnonymous(len, prot, flags);
        return;
      }
      var v := Area(addr, addr + len, prot, flags);
      if file.Some? {
        v := v.(flags := Fixed(flags));
        if len > file.value {
          v := v.(end := addr + file.value);
        }
      }
      r := LinkNew(v);
    }

    /** vm_setupBrk: the heap fields are set even if the mapping fails. */
    method SetupBrk(addr: nat, len: nat, prot: nat, flags: nat, slabOk: bool) returns (r: MmapResult)
      requires Sorted(list) && HeapOk() && len < WRAP
      modifies `list, `anonymousAddr, `brkAddr, `brkLen
      ensures Sorted(list) && HeapOk()
      ensures var n := PageAlign(len);
              if n == 0 then r == At(addr) && list == old(list) && brkAddr == old(brkAddr) && brkLen == old(brkLen)
              else brkAddr == NextPage(addr) && brkLen == n
                   && (r.At? ==> r.addr == brkAddr && Adds(old(list), list, brkAddr, n))
                   && (r.At? && !Spanned(old(list), brkAddr, n) ==>
                         var v := Area(brkAddr, brkAddr + n, prot, flags);
                         list == Inserted(old(list), Place(old(list), v), v))
                   && (!r.At? ==> list == old(list))
    {
      hide Adds, Unmapped, Fits, Sorted, FirstSpan, Mapped, Inserted, Place;
      var n := PageAlign(len);
      if n == 0 {
        return At(addr);
      }
      brkAddr := NextPage(addr);
      brkLen := n;
      r := Mmap(None, brkAddr, n, prot, flags, true, false, slabOk);
    }

    /** SYS_vm_brk; None stands for the BUG() when the heap area is gone, `WRAP - 1` for the -1 of a collision. */
    method Brk(addr: nat) returns (r: Option<nat>)
      requires Sorted(list) && HeapOk() && addr < WRAP
      modifies `list, `brkLen
      ensures Sorted(list) && HeapOk()
      ensures addr == 0 ==> r == Some(brkAddr + old(brkLen))
      ensures addr != 0 && brkAddr > Minus(addr, old(brkLen)) ==> r == Some(0)
      ensures addr != 0 && brkAddr <= Minus(addr, old(brkLen)) ==>
                var k := FirstSpan(old(list), brkAddr, Minus(old(brkLen), 1));
                r == if k == |old(list)| then None
                     else if addr > BRK_LIMIT then Some(0)
                     else if addr <= old(list)[k].end || Room(old(list), k, addr) then Some(addr)
                     else Some(WRAP - 1)
      ensures var k := FirstSpan(old(list), brkAddr, Minus(old(brkLen), 1));
              if && 0 != addr && brkAddr <= Minus(addr, old(brkLen)) && k < |old(list)|
                 && old(list)[k].end < addr <= BRK_LIMIT && Room(old(list), k, addr)
              then && list == Grown(old(list), k, addr) && brkLen == addr - brkAddr && list[k].Spans(brkAddr, brkLen)
                   && Adds(old(list), list, old(list)[k].end, addr - old(list)[k].end)
                   && Unmapped(old(list), old(list)[k].end, addr - old(list)[k].end)
              else list == old(list) && brkLen == old(brkLen)
    {
      hide Adds, Unmapped, Sorted, FirstSpan;
      if addr == 0 {
        return Some(brkAddr + brkLen);
      }
      if brkAddr > Minus(addr, brkLen) {
        return Some(0);
      }
      var k := FindVma(brkAddr, Minus(brkLen, 1));
      if k.None? {
        return None;
      }
      if addr > BRK_LIMIT {
        return Some(0);
      }
      if addr > list[k.value].end {
        var ok := GrowEnd(k.value, addr);
        if !ok {
          return Some(WRAP - 1);
        }
        GrowthIsNew(old(list), k.value, addr - old(list)[k.value].end);
        brkLen := addr - brkAddr;
      }
      return Some(addr);
    }

    /** vma_unlink of the area at `i`. */
    method Unlink(i: nat)
      requires Sorted(list) && i < |list|
      modifies `list
      ensures Sorted(list) && list == old(list)[..i] + old(list)[i + 1..]
    {
      DropSorted(list, i);
      list := list[..i] + list[i + 1..];
    }

    /** vm_munmap: after each removal the scan starts again. */
    method Munmap(addr: nat, len: nat) returns (ret: int)
      requires Sorted(list) && len < WRAP
      modifies `list
      ensures Sorted(list)
      ensures list == if ret == -1 then old(list) else Remaining(old(list), addr, len)
      ensures ret == -1 <==> len != WRAP - 1 && (len == 0 || len + PAGE_SIZE > WRAP)
      ensures ret != -1 ==> ret == if list == old(list) || list == [] then 0 else 2
      ensures ret != -1 ==> forall a: nat :: Mapped(list, a) <==>
                exists i :: 0 <= i < |old(list)| && old(list)[i].start <= a < old(list)[i].end
                  && SticksOut(old(list)[i], addr, len)
    {
      hide Within, Mapped, SticksOut, Remaining, Sorted, PageAlign;
      AlignedAway(len);
      if len != WRAP - 1 && PageAlign(len) == 0 {
        return -1;
      }
      ret := 0;
      var i := 0;
      while i < |list|
        invariant 0 <= i <= |list| <= |old(list)| && Sorted(list)
        invariant forall j :: 0 <= j < i ==> !Within(list[j], addr, len)
        invariant Remaining(list, addr, len) == Remaining(old(list), addr, len)
        invariant ret == (if |list| == |old(list)| then 0 else 2) && (|list| == |old(list)| ==> list == old(list))
        decreases |list|, |list| - i
      {
        if Within(list[i], addr, len) {
          RemainingDrops(list, i, addr, len);
          Unlink(i);
          ret := 2;
          i := 0;
        } else {
          i := i + 1;
        }
      }
      RemainingAll(list, addr, len);
      if list == [] {
        ret := 0;
      }
      UnmapAll(old(list), addr, len);
    }

    /**
     vm_dup_vmaps into a new address space: never hits the BUG() after vma_link, and the copy has the same intervals in
     the same order. It is the same list unless empty areas coincide, which may change places.
     */
    method DupVmaps(dest: AddressSpace)
      requires Sorted(list) && dest != this && dest.list == []
      modifies dest`list
      ensures SameIntervals(dest.list, list)
      ensures (forall i :: 0 <= i < |list| ==> list[i].Nonempty()) ==> dest.list == list
    {
      hide Fits, Sorted, Place;
      var i := 0;
      SortedNone();
      while i < |list|
        invariant 0 <= i <= |list| && SameIntervals(dest.list, list[..i]) && Sorted(dest.list)
        invariant (forall j :: 0 <= j < |list| ==> list[j].Nonempty()) ==> dest.list == list[..i]
      {
        DupFits(list, i, dest.list);
        var ret := dest.Link(list[i]);
        i := i + 1;
      }
      assert list[..i] == list;
    }
  }

  lemma Aligns(len: nat)
    requires len < WRAP
    ensures var r := (len + PAGE_SIZE - 1) % WRAP / PAGE_SIZE * PAGE_SIZE;
            && r % PAGE_SIZE == 0
            && (len + PAGE_SIZE <= WRAP ==> len <= r < len + PAGE_SIZE) && (len + PAGE_SIZE > WRAP ==> r == 0)
  {
    if len + PAGE_SIZE > WRAP {
      assert (len + PAGE_SIZE - 1) % WRAP == len + PAGE_SIZE - 1 - WRAP;
    }
  }

  predicate SameIntervals(l: seq<Area>, m: seq<Area>) {
    |l| == |m| && forall i :: 0 <= i < |l| ==> l[i].start == m[i].start && l[i].end == m[i].end
  }

  lemma SortedNone()
    ensures Sorted([])
  {
  }

  lemma LinksFirst(v: Area)
    requires v.Proper()
    ensures Fits([], v) && Place([], v) == 0 && Sorted([v]) && Inserted([], 0, v) == [v]
  {
  }

  lemma DoesNotFit(l: seq<Area>, i: nat, v: Area)
    requires Sorted(l) && i < |l| && v.start < l[i].end && l[i].start <= v.end && (i > 0 ==> v.end > l[i].start)
    ensures !Fits(l, v)
  {
    assert Apart(l[i], v) ==> v.end == l[i].start;
  }

  lemma LinksAt(l: seq<Area>, i: nat, v: Area)
    requires Sorted(l) && v.Proper() && l != [] && i <= |l|
    requires i == 0 ==> v.start < l[0].end && v.end < l[0].start
    requires forall j :: 0 <= j < i ==> l[j].end <= v.start && (j > 0 ==> l[j].start < v.end)
    requires i < |l| ==> v.end <= l[i].start
    ensures i == Place(l, v) && Fits(l, v) && Sorted(Inserted(l, i, v))
  {
    InsertedSorted(l, i, v);
    assert forall j :: i <= j < |l| ==> v.end <= l[j].start;
    assert forall j :: 0 <= j < |l| - 1 ==> l[1..][j] == l[j + 1];
  }

  lemma CopySorted(l: seq<Area>, i: nat, m: seq<Area>)
    requires Sorted(l) && i < |l| && SameIntervals(m, l[..i])
    ensures l[i].Proper() && Sorted(m) && (forall j :: 0 <= j < |m| ==> m[j].end <= l[i].start) && Fits(m, l[i])
  {
    assert forall j :: 0 <= j < i ==> m[j].start == l[j].start && m[j].end == l[j].end;
  }

  /**
   The next area of an ordered list fits into the copy `m` of what comes before, behind everything but its own double.
   */
  lemma DupFits(l: seq<Area>, i: nat, m: seq<Area>)
    requires Sorted(l) && i < |l| && SameIntervals(m, l[..i])
    ensures l[i].Proper() && Sorted(m) && Fits(m, l[i])
    ensures SameIntervals(Inserted(m, Place(m, l[i]), l[i]), l[..i + 1])
    ensures m == l[..i] && l[i].Nonempty() ==> Inserted(m, Place(m, l[i]), l[i]) == l[..i + 1]
  {
    CopySorted(l, i, m);
    hide Sorted, Fits, Place;
    var v, p := l[i], Place(m, l[i]);
    if m == [] { PlaceNone(v); } else { DoubleBehind(m, v, p); }
    InsertDouble(m, p, v);
    assert l[..i + 1] == l[..i] + [v];
    hide Inserted;
  }

  lemma InsertDouble(m: seq<Area>, p: nat, v: Area)
    requires p <= |m| && forall j :: p <= j < |m| ==> m[j].start == v.start && m[j].end == v.end
    ensures SameIntervals(Inserted(m, p, v), m + [v]) && (p == |m| ==> Inserted(m, p, v) == m + [v])
  {
    var r := Inserted(m, p, v);
    assert forall j :: 0 <= j < |r| ==> r[j] == if j < p then m[j] else if j == p then v else m[j - 1];
  }

  lemma PlaceNone(v: Area)
    ensures Place([], v) == 0
  {
  }

  lemma DoubleBehind(m: seq<Area>, v: Area, p: nat)
    requires Sorted(m) && v.Proper() && m != [] && p == Place(m, v) && forall j :: 0 <= j < |m| ==> m[j].end <= v.start
    ensures forall j :: p <= j < |m| ==> m[j].start == m[j].end == v.start == v.end
    ensures v.Nonempty() ==> p == |m|
  {
    var k := Behind(m[1..], v.end);
    if p < |m| {
      assert m[1..][k] == m[p];
      assert forall j :: p < j < |m| ==> m[p].end <= m[j].start;
    }
  }

  lemma ClashBreaksOrder(before: seq<Area>, k: nat, end: nat, i: nat)
    requires Sorted(before) && k < |before| && before[k].Nonempty() && before[k].end <= end && i < |before| && i != k
    requires Clash(before[i], before[k].(end := end))
    ensures !Sorted(Grown(before, k, end)) && !Apart(before[i], before[k].(end := end))
  {
    assert forall j :: 0 <= j < k ==> before[j].Proper() && before[j].end <= before[k].start;
    assert k < i;
    var g := Grown(before, k, end);
    assert g[k].end > g[i].start;
  }

  lemma NoClashKeepsOrder(before: seq<Area>, k: nat, end: nat)
    requires Sorted(before) && k < |before| && before[k].Nonempty() && before[k].end <= end
    requires forall i :: 0 <= i < |before| && i != k ==> !Clash(before[i], before[k].(end := end))
    ensures Sorted(Grown(before, k, end))
  {
    if k + 1 < |before| {
      assert !Clash(before[k + 1], before[k].(end := end));
    }
    GrownSorted(before, k, end);
  }

  lemma AlignedAway(len: nat)
    requires len < WRAP
    ensures PageAlign(len) == 0 <==> len == 0 || len + PAGE_SIZE > WRAP
  {
  }

  lemma RelabelMaps(l: seq<Area>, i: nat, prot: nat, flags: nat, addr: nat, len: nat, n: nat)
    requires Sorted(l) && i < |l| && l[i].Spans(addr, len) && n <= len
    ensures var l' := l[i := l[i].(prot := prot, flags := flags)]; Sorted(l') && Adds(l, l', addr, n)
  {
    var l' := l[i := l[i].(prot := prot, flags := flags)];
    forall a: nat ensures Mapped(l', a) <==> Mapped(l, a) || addr <= a < addr + n {
      assert forall j :: 0 <= j < |l| ==> l'[j].Has(a) == l[j].Has(a);
      assert addr <= a < addr + n ==> l[i].Has(a);
    }
  }

  lemma GrowthIsNew(l: seq<Area>, k: nat, n: nat)
    requires Sorted(l) && k < |l| && l[k].Nonempty() && Room(l, k, l[k].end + n)
    ensures Adds(l, Grown(l, k, l[k].end + n), l[k].end, n) && Unmapped(l, l[k].end, n)
  {
    var end := l[k].end + n;
    forall a: nat ensures Mapped(Grown(l, k, end), a) <==> Mapped(l, a) || l[k].end <= a < end {
      GrownMaps(l, k, end, a);
    }
    assert forall i :: 0 <= i < k ==> l[i].end <= l[k].start < l[k].end;
    assert forall i :: k < i < |l| ==> end <= l[i].start;
  }

  lemma LinkIsNew(l: seq<Area>, i: nat, v: Area)
    requires i <= |l| && Fits(l, v) && v.Proper()
    ensures Adds(l, Inserted(l, i, v), v.start, v.end - v.start) && Unmapped(l, v.start, v.end - v.start)
  {
    forall a: nat ensures Mapped(Inserted(l, i, v), a) <==> Mapped(l, a) || v.Has(a) { InsertedMaps(l, i, v, a); }
  }
}
