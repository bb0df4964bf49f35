/**
 The buddy page allocator of mm/memory.c over the page array `g_mem_map`.
 Page numbers stand for addresses: `MAP_NR` and `ADDRESS` only shift and add a base.
 */
module Buddy {
  import opened Common
  import opened Dyadic
  import opened FreeArea

  /** No aligned run of `1 << order` free pages exists. */
  ghost predicate NoRun(free: set<nat>, order: nat) {
    forall h: nat :: Aligned(h, order) ==> !(Block(h, order) <= free)
  }

  /** The index of the pair one order up is the index shifted right once. */
  lemma IndexShifts(h: nat, o: nat)
    requires Aligned(h, o)
    ensures PairIndex(MaskDown(h, o + 1), o + 1) == PairIndex(h, o) / 2
  {
    var k := PairIndex(h, o);
    var s := Pow2(o + 1);
    PairOf(h, o);
    ScaledQuotient(k, s);
  }

  lemma ScaledQuotient(k: nat, s: nat)
    requires s > 0
    ensures Quotient(k * s, 2 * s) == k / 2
  {
    assert k == 2 * (k / 2) + k % 2;
    assert k * s == (k / 2) * (2 * s) + (k % 2) * s;
    DivUnique(k * s, 2 * s, k / 2, (k % 2) * s);
  }

  lemma AlignedMask(h: nat, o: nat)
    requires Aligned(h, o)
    ensures MaskDown(h, o) == h
  {
  }

  lemma TakeCount(a: Areas, o: nat, h: nat)
    requires o < NR_MEM_LISTS
    ensures CountedPages(Take(a, o, h), NR_MEM_LISTS) == CountedPages(a, NR_MEM_LISTS) - Pow2(o)
  {
    CountChange(a, Take(a, o, h), o, -1, NR_MEM_LISTS);
  }

  lemma PutCount(a: Areas, o: nat, h: nat)
    requires o < NR_MEM_LISTS
    ensures CountedPages(Put(a, o, h), NR_MEM_LISTS) == CountedPages(a, NR_MEM_LISTS) + Pow2(o)
  {
    CountChange(a, Put(a, o, h), o, 1, NR_MEM_LISTS);
  }

  /** The largest nonempty order decides: with every list from `order` up empty there is no run. */
  lemma EmptyListsNoRun(a: Areas, free: set<nat>, order: nat)
    requires Canonical(a, free) && order < NR_MEM_LISTS
    requires forall o :: order <= o < NR_MEM_LISTS ==> a[o].list == []
    ensures NoRun(free, order)
  {
    hide Canonical, Aligned, Block;
    forall h: nat | Aligned(h, order) && Block(h, order) <= free
      ensures false
    {
      var o', h' := RunInBlock(a, free, order, h);
    }
  }

  /** `owner` says which live block each allocated page belongs to; every other managed page is free. */
  ghost predicate Owned(managed: set<nat>, free: set<nat>, live: map<nat, nat>, owner: map<nat, nat>) {
    && (forall p :: p in owner ==> owner[p] in live && p in Block(owner[p], live[owner[p]]))
    && (forall h, p :: h in live && p in Block(h, live[h]) ==> p in owner && owner[p] == h)
    && (forall h :: h in live ==> live[h] < NR_MEM_LISTS && Aligned(h, live[h]))
    && owner.Keys !! free && owner.Keys + free == managed
  }

  ghost function OwnerAdd(owner: map<nat, nat>, h: nat, order: nat): map<nat, nat> {
    map p | p in owner.Keys + Block(h, order) :: if p in Block(h, order) then h else owner[p]
  }

  lemma OwnerAddKeys(owner: map<nat, nat>, h: nat, order: nat)
    ensures OwnerAdd(owner, h, order).Keys == owner.Keys + Block(h, order)
  {
  }

  ghost predicate ApartFromLive(live: map<nat, nat>, h: nat, order: nat) {
    h !in live && forall h' :: h' in live ==> Block(h', live[h']) !! Block(h, order)
  }

  lemma FreeApartFromLive(managed: set<nat>, free: set<nat>, live: map<nat, nat>, owner: map<nat, nat>, h: nat,
                          order: nat)
    requires Owned(managed, free, live, owner) && Block(h, order) <= free
    ensures ApartFromLive(live, h, order)
    ensures Block(h, order) <= managed && owner.Keys !! Block(h, order) && owner.Keys <= managed
  {
    hide Aligned, Block;
    HeadIn(h, order);
    if h in live {
      HeadIn(h, live[h]);
      assert false;
    }
  }

  lemma OwnedAfterGet(managed: set<nat>, free: set<nat>, live: map<nat, nat>, owner: map<nat, nat>, h: nat, order: nat)
    requires Owned(managed, free, live, owner)
    requires order < NR_MEM_LISTS && Aligned(h, order) && Block(h, order) <= free
    ensures Owned(managed, free - Block(h, order), live[h := order], OwnerAdd(owner, h, order))
  {
    hide Aligned, Block;
    FreeApartFromLive(managed, free, live, owner, h, order);
    var live2, owner2 := live[h := order], OwnerAdd(owner, h, order);
    forall p | p in owner2
      ensures owner2[p] in live2 && p in Block(owner2[p], live2[owner2[p]])
    {
    }
    forall h', p | h' in live2 && p in Block(h', live2[h'])
      ensures p in owner2 && owner2[p] == h'
    {
      if h' != h {
        assert p in owner && owner[p] == h';
      }
    }
  }

  lemma OwnedAfterPut(managed: set<nat>, free: set<nat>, live: map<nat, nat>, owner: map<nat, nat>, h: nat)
    requires Owned(managed, free, live, owner) && h in live
    ensures Owned(managed, free + Block(h, live[h]), live - {h}, owner - Block(h, live[h]))
    ensures Block(h, live[h]) !! free && Block(h, live[h]) <= owner.Keys && Block(h, live[h]) <= managed
  {
    hide Aligned, Block;
  }

  lemma OwnedEmpty()
    ensures Owned({}, {}, map[], map[])
  {
  }

  lemma OwnedSingle(free: set<nat>, page: nat)
    requires page !in free
    ensures Owned(free + {page}, free, map[page := 0], map[page := page]) && Block(page, 0) == {page}
  {
    assert Block(page, 0) == {page};
  }

  lemma NothingOwned(managed: set<nat>, free: set<nat>, live: map<nat, nat>, owner: map<nat, nat>)
    requires Owned(managed, free, live, owner) && live == map[]
    ensures owner == map[] && free == managed
  {
    assert owner.Keys == {};
  }

  lemma LiveOrder(managed: set<nat>, free: set<nat>, live: map<nat, nat>, owner: map<nat, nat>, h: nat)
    requires Owned(managed, free, live, owner) && h in live
    ensures live[h] < NR_MEM_LISTS && Aligned(h, live[h])
  {
  }

  datatype Request = Allocate(order: nat) | Release(k: nat)
  datatype Held = Held(mapNr: nat, order: nat)

  /** A client's handles name each live block once, with its own order. */
  ghost predicate Holds(held: seq<Held>, live: map<nat, nat>) {
    && (forall i :: 0 <= i < |held| ==> held[i].mapNr in live && live[held[i].mapNr] == held[i].order)
    && (forall i, j :: 0 <= i < j < |held| ==> held[i].mapNr != held[j].mapNr)
    && (forall h :: h in live ==> exists i :: 0 <= i < |held| && held[i].mapNr == h)
  }

  lemma HoldsAfterGet(held: seq<Held>, live: map<nat, nat>, b: Held)
    requires Holds(held, live) && b.mapNr !in live
    ensures Holds(held + [b], live[b.mapNr := b.order])
  {
    var held2, live2 := held + [b], live[b.mapNr := b.order];
    forall h | h in live2
      ensures exists i :: 0 <= i < |held2| && held2[i].mapNr == h
    {
      if h == b.mapNr {
        assert held2[|held|].mapNr == h;
      } else {
        var i :| 0 <= i < |held| && held[i].mapNr == h;
        assert held2[i].mapNr == h;
      }
    }
  }

  lemma HoldsAfterPut(held: seq<Held>, live: map<nat, nat>, k: nat)
    requires Holds(held, live) && k < |held|
    ensures held[k].mapNr in live && live[held[k].mapNr] == held[k].order
    ensures Holds(held[..k] + held[k + 1..], live - {held[k].mapNr})
  {
    var held2, live2 := held[..k] + held[k + 1..], live - {held[k].mapNr};
    assert forall i :: 0 <= i < |held2| ==> held2[i] == held[if i < k then i else i + 1];
    forall h | h in live2
      ensures exists i :: 0 <= i < |held2| && held2[i].mapNr == h
    {
      var i :| 0 <= i < |held| && held[i].mapNr == h;
      assert held2[if i < k then i else i - 1].mapNr == h;
    }
  }

  lemma NoneHeld(live: map<nat, nat>)
    ensures Holds([], live) <==> live == map[]
  {
    if Holds([], live) {
      assert live.Keys == {};
    }
  }

  class PageAllocator {
    const maxMapNr: nat
    /** PG_reserved never changes after boot. */
    const reserved: set<nat>
    var area: Areas
    var nrFreePages: int
    /** `count` and PG_referenced of each page of `g_mem_map`. */
    const count: array<int>
    const referenced: array<bool>

    /** The pages handed to the allocator, the free ones, and the live blocks with their orders. */
    ghost var managed: set<nat>
    ghost var free: set<nat>
    ghost var live: map<nat, nat>
    /** The live block each allocated page belongs to. */
    ghost var owner: map<nat, nat>

    ghost predicate ListsValid()
      reads this`area, this`free, this`nrFreePages
    {
      && Canonical(area, free)
      && nrFreePages == CountedPages(area, NR_MEM_LISTS) == |free|
    }

    ghost predicate PagesValid()
      reads this, count, referenced
    {
      && count.Length == maxMapNr && referenced.Length == maxMapNr
      && (forall p :: p in managed ==> p < maxMapNr && p !in reserved)
      && (forall p :: p in managed ==> (referenced[p] <==> p in owner))
      && (forall h :: h in live ==> h < maxMapNr && count[h] == 1)
    }

    ghost predicate Valid()
      reads this, count, referenced
    {
      ListsValid() && Owned(managed, free, live, owner) && PagesValid()
    }

    /** _free_pages_ok */
    method FreePagesOk(mapNr: nat, order: nat)
      requires ListsValid() && order < NR_MEM_LISTS && Aligned(mapNr, order) && Block(mapNr, order) !! free
      modifies this`area, this`nrFreePages, this`free
      ensures ListsValid()
      ensures free == old(free) + Block(mapNr, order)
    {
      hide Canonical, Aligned, Block, PairIndex, MaskDown, Buddy, CountedPages, Pow2;
      ghost var target := free + Block(mapNr, order);
      var o := order;
      var index := PairIndex(mapNr, o);
      var h := MaskDown(mapNr, o);
      AlignedMask(mapNr, o);
      nrFreePages := nrFreePages + Pow2(order);
      BlockSize(mapNr, order);
      ghost var base := area;
      while o < MAX_ORDER
        invariant order <= o <= MAX_ORDER && Aligned(h, o) && index == PairIndex(h, o)
        invariant Canonical(area, free) && Block(h, o) !! free && free + Block(h, o) == target
        invariant nrFreePages == |target| == CountedPages(area, NR_MEM_LISTS) + Pow2(o)
        invariant base == area
      {
        BitTellsBuddy(area, free, o, h);
        var wasSet := Bit(area, o, index);
        area := ChangeBit(area, o, index);
        if !wasSet {
          break;
        }
        var buddy: nat := Buddy(h, o);
        BuddyJoins(h, o);
        TakeCanonical(base, free, o, buddy);
        TakeCount(base, o, buddy);
        CanonicalAt(base, free, o, buddy);
        IndexShifts(h, o);
        Doubles(o);
        area := RemoveMemQueue(area, o, buddy);
        free := free - Block(buddy, o);
        h := MaskDown(h, o + 1);
        o := o + 1;
        index := index / 2;
        base := area;
      }
      PutCanonical(base, free, o, h);
      PutCount(base, o, h);
      area := AddMemQueue(area, o, h);
      free := target;
    }

    /** EXPAND: the lower halves of a taken block go back to the free lists. */
    method Expand(index: nat, low: nat, newOrder: nat) returns (mapNr: nat)
      requires low <= newOrder < NR_MEM_LISTS && Aligned(index, newOrder)
      requires Canonical(area, free) && Block(index, newOrder) !! free
      modifies this`area, this`free
      ensures Canonical(area, free) && Aligned(mapNr, low)
      ensures Block(mapNr, low) !! free && free + Block(mapNr, low) == old(free) + Block(index, newOrder)
      ensures CountedPages(area, NR_MEM_LISTS) + Pow2(low) == old(CountedPages(area, NR_MEM_LISTS)) + Pow2(newOrder)
    {
      hide Canonical, Aligned, Block, PairIndex, MaskDown, Buddy, CountedPages, Pow2;
      mapNr := index;
      ghost var target := free + Block(index, newOrder);
      var high := newOrder;
      var size := Pow2(high);
      while high > low
        invariant low <= high <= newOrder && size == Pow2(high) && Aligned(mapNr, high)
        invariant Canonical(area, free) && Block(mapNr, high) !! free && free + Block(mapNr, high) == target
        invariant CountedPages(area, NR_MEM_LISTS) + Pow2(high) ==
                  old(CountedPages(area, NR_MEM_LISTS)) + Pow2(newOrder)
      {
        high := high - 1;
        Doubles(high);
        size := size / 2;
        HalvesOf(mapNr, high + 1);
        LowerHalf(mapNr, high);
        BuddyNotFree(area, free, high, mapNr);
        PutCanonical(area, free, high, mapNr);
        PutCount(area, high, mapNr);
        PutInOrder(area, high, mapNr);
        area := AddMemQueue(area, high, mapNr);
        area := ChangeBit(area, high, PairIndex(mapNr, high));
        free := free + Block(mapNr, high);
        mapNr := mapNr + size;
      }
    }

    /** The list scan, MARK_USED and EXPAND of mm_getFreePages: the block leaves the free lists. */
    method TakeBlock(order: nat) returns (r: Option<nat>)
      requires ListsValid() && order < NR_MEM_LISTS
      modifies this`area, this`nrFreePages, this`free
      ensures ListsValid()
      ensures r.None? ==> NoRun(old(free), order) && free == old(free)
      ensures r.Some? ==> Aligned(r.value, order) && Block(r.value, order) <= old(free)
      ensures r.Some? ==> free == old(free) - Block(r.value, order)
    {
      hide Canonical, Aligned, Block, PairIndex, MaskDown, Buddy, CountedPages, Pow2;
      var newOrder := order;
      while newOrder < NR_MEM_LISTS && area[newOrder].list == []
        invariant order <= newOrder <= NR_MEM_LISTS
        invariant forall o :: order <= o < newOrder ==> area[o].list == []
      {
        newOrder := newOrder + 1;
      }
      if newOrder == NR_MEM_LISTS {
        EmptyListsNoRun(area, free, order);
        return None;
      }
      var mapNr := area[newOrder].list[0];
      CanonicalAt(area, free, newOrder, mapNr);
      TakeCanonical(area, free, newOrder, mapNr);
      TakeCount(area, newOrder, mapNr);
      ghost var target := free;
      area := RemoveMemQueue(ChangeBit(area, newOrder, PairIndex(mapNr, newOrder)), newOrder, mapNr);
      nrFreePages := nrFreePages - Pow2(order);
      free := free - Block(mapNr, newOrder);
      mapNr := Expand(mapNr, order, newOrder);
      BlockSize(mapNr, order);
      return Some(mapNr);
    }

    /** The last loop of mm_getFreePages, with its assertion. */
    method SetReferenced(mapNr: nat, n: nat)
      requires mapNr + n <= referenced.Length
      requires forall p :: mapNr <= p < mapNr + n ==> !referenced[p]
      modifies referenced
      ensures forall p :: 0 <= p < referenced.Length ==>
                referenced[p] == (if mapNr <= p < mapNr + n then true else old(referenced[p]))
    {
      var i, page := n, mapNr;
      while i > 0
        invariant 0 <= i <= n && page == mapNr + (n - i)
        invariant forall p :: 0 <= p < referenced.Length ==>
                    referenced[p] == (if mapNr <= p < page then true else old(referenced[p]))
      {
        i := i - 1;
        assert !referenced[page];
        referenced[page] := true;
        page := page + 1;
      }
    }

    /** The last loop of mm_putFreePages, with its assertion. */
    method ClearReferenced(mapNr: nat, n: nat)
      requires mapNr + n <= referenced.Length
      requires forall p :: mapNr <= p < mapNr + n ==> referenced[p]
      modifies referenced
      ensures forall p :: 0 <= p < referenced.Length ==>
                referenced[p] == (if mapNr <= p < mapNr + n then false else old(referenced[p]))
    {
      var i, page := n, mapNr;
      while i > 0
        invariant 0 <= i <= n && page == mapNr + (n - i)
        invariant forall p :: 0 <= p < referenced.Length ==>
                    referenced[p] == (if mapNr <= p < page then false else old(referenced[p]))
      {
        i := i - 1;
        assert referenced[page];
        referenced[page] := false;
        page := page + 1;
      }
    }

    /** The pages of a block inside the page array. */
    lemma BlockBounds(h: nat, order: nat)
      requires PagesValid() && Block(h, order) <= managed
      ensures h + Pow2(order) <= maxMapNr && h in Block(h, order)
      ensures forall p: nat :: p in Block(h, order) <==> h <= p < h + Pow2(order)
    {
      assert h + Pow2(order) - 1 in Block(h, order);
    }

    /** mm_getFreePages */
    method GetFreePages(order: nat) returns (r: Option<nat>)
      requires Valid()
      modifies this`area, this`nrFreePages, this`free, this`live, this`owner, count, referenced
      ensures Valid() && managed == old(managed)
      ensures r.None? <==> order >= NR_MEM_LISTS || NoRun(old(free), order)
      ensures r.None? ==> free == old(free) && live == old(live)
      ensures r.Some? ==> Aligned(r.value, order) && Block(r.value, order) <= old(free)
      ensures r.Some? ==> ApartFromLive(old(live), r.value, order)
      ensures r.Some? ==> free == old(free) - Block(r.value, order) && live == old(live)[r.value := order]
    {
      hide Canonical, Aligned, Block, CountedPages, Pow2, Owned;
      if order >= NR_MEM_LISTS {
        return None;
      }
      r := TakeBlock(order);
      if r.None? {
        return;
      }
      FreeApartFromLive(managed, old(free), live, owner, r.value, order);
      HandOut(r.value, order, old(free));
      assert !NoRun(old(free), order);
    }

    /** The end of EXPAND and the last loop of mm_getFreePages: the page fields of a block that left the free lists. */
    method HandOut(mapNr: nat, order: nat, ghost wasFree: set<nat>)
      requires ListsValid() && Owned(managed, wasFree, live, owner) && PagesValid()
      requires order < NR_MEM_LISTS && Aligned(mapNr, order) && Block(mapNr, order) <= wasFree
      requires free == wasFree - Block(mapNr, order)
      modifies this`live, this`owner, count, referenced
      ensures Valid() && live == old(live)[mapNr := order]
    {
      hide Canonical, Aligned, Block, CountedPages, Pow2, Owned, OwnerAdd, ApartFromLive, ListsValid;
      OwnedAfterGet(managed, wasFree, live, owner, mapNr, order);
      OwnerAddKeys(owner, mapNr, order);
      FreeApartFromLive(managed, wasFree, live, owner, mapNr, order);
      BlockBounds(mapNr, order);
      count[mapNr] := 1;
      SetReferenced(mapNr, Pow2(order));
      forall p | p in managed
        ensures referenced[p] <==> p in owner.Keys + Block(mapNr, order)
      {
      }
      live := live[mapNr := order];
      owner := OwnerAdd(owner, mapNr, order);
    }

    /** mm_putFreePages; the caller frees a block it holds, by its own head and order. */
    method PutFreePages(mapNr: nat, order: nat)
      requires Valid() && mapNr in live && live[mapNr] == order
      modifies this`area, this`nrFreePages, this`free, this`live, this`owner, count, referenced
      ensures Valid() && managed == old(managed)
      ensures free == old(free) + Block(mapNr, order) && live == old(live) - {mapNr}
    {
      hide Canonical, Aligned, Block, CountedPages, Pow2, Owned;
      OwnedAfterPut(managed, free, live, owner, mapNr);
      LiveOrder(managed, free, live, owner, mapNr);
      BlockBounds(mapNr, order);
      assert mapNr !in reserved;
      count[mapNr] := count[mapNr] - 1;
      assert count[mapNr] == 0;
      FreePagesOk(mapNr, order);
      ClearReferenced(mapNr, Pow2(order));
      live := live - {mapNr};
      owner := owner - Block(mapNr, order);
    }

    /** Every list holds exactly the maximal aligned blocks of the free pages. */
    ghost predicate ListsCanonical()
      reads this
    {
      forall o: nat, h: nat :: FreeAt(area, o, h) <==> Maximal(free, o, h)
    }

    lemma ValidCanonical()
      requires Valid()
      ensures Canonical(area, free) && ListsCanonical()
    {
      hide Canonical;
      ListsAreMaximalBlocks(area, free);
    }

    lemma NothingLive()
      requires Valid() && live == map[]
      ensures free == managed
    {
      NothingOwned(managed, free, live, owner);
    }

    /** One turn of init_mem's loop: the page is made to look allocated and is then freed. */
    method AdoptPage(page: nat)
      requires Valid() && live == map[] && free == managed && page !in managed && page < maxMapNr && page !in reserved
      modifies this, count, referenced
      ensures Valid() && live == map[] && free == managed == old(managed) + {page}
    {
      hide Canonical, CountedPages, Owned, Block, Pow2;
      NothingOwned(managed, free, live, owner);
      OwnedSingle(managed, page);
      count[page] := 1;
      referenced[page] := true;
      managed := managed + {page};
      live := map[page := 0];
      owner := map[page := page];
      PutFreePages(page, 0);
      assert live == map[];
    }

    /** init_free_area: empty queues, clear bitmaps, no page given away yet. */
    constructor (maxMapNr: nat, reserved: set<nat>)
      ensures Valid() && fresh(count) && fresh(referenced)
      ensures this.maxMapNr == maxMapNr && this.reserved == reserved
      ensures managed == {} && live == map[]
    {
      hide Canonical, Owned, CountedPages;
      this.maxMapNr := maxMapNr;
      this.reserved := reserved;
      area := seq(NR_MEM_LISTS, i => Area([], {}, 0));
      nrFreePages := 0;
      count := new int[maxMapNr];
      referenced := new bool[maxMapNr];
      managed, free, live, owner := {}, {}, map[], map[];
      new;
      EmptyCanonical(area);
      OwnedEmpty();
    }

    /** init_mem: the pages `lo..hi` that are not reserved are given away one by one. */
    method InitMem(lo: nat, hi: nat)
      requires Valid() && managed == {} && live == map[] && lo <= hi <= maxMapNr
      modifies this, count, referenced
      ensures Valid() && live == map[] && ListsCanonical()
      ensures free == managed == Span(lo, hi - lo) - reserved
    {
      hide Valid, ListsCanonical;
      NothingLive();
      var page := lo;
      while page < hi
        invariant lo <= page <= hi && Valid() && live == map[] && free == managed == Span(lo, page - lo) - reserved
      {
        if page !in reserved {
          AdoptPage(page);
        }
        page := page + 1;
      }
      ValidCanonical();
    }

    /** A client that follows any script of requests and gives blocks back by the head and order it was given. */
    method Run(script: seq<Request>) returns (held: seq<Held>)
      requires Valid() && live == map[]
      modifies this`area, this`nrFreePages, this`free, this`live, this`owner, count, referenced
      ensures Valid() && managed == old(managed)
      ensures Holds(held, live) && ListsCanonical()
    {
      hide Valid, ListsCanonical, Holds, NoRun, Block, Aligned;
      NoneHeld(live);
      held := [];
      for i := 0 to |script|
        invariant Valid() && managed == old(managed) && Holds(held, live)
      {
        match script[i]
        case Allocate(order) =>
          ghost var before := live;
          var r := GetFreePages(order);
          if r.Some? {
            HoldsAfterGet(held, before, Held(r.value, order));
            held := held + [Held(r.value, order)];
          }
        case Release(k) =>
          if k < |held| {
            HoldsAfterPut(held, live, k);
            PutFreePages(held[k].mapNr, held[k].order);
            held := held[..k] + held[k + 1..];
          }
      }
      ValidCanonical();
    }

    /** Freeing everything, in any order, brings back the free lists of any time when nothing was allocated. */
    method ReleaseAll(held: seq<Held>, ghost before: Areas)
      requires Valid() && Holds(held, live) && Canonical(before, managed)
      modifies this`area, this`nrFreePages, this`free, this`live, this`owner, count, referenced
      ensures Valid() && managed == old(managed)
      ensures live == map[] && free == managed && ListsCanonical()
      ensures forall o: nat, h: nat :: FreeAt(area, o, h) <==> FreeAt(before, o, h)
    {
      hide Valid, Canonical, Holds, FreeAt, Block;
      var rest := held;
      while rest != []
        invariant Valid() && managed == old(managed) && Holds(rest, live)
      {
        HoldsAfterPut(rest, live, 0);
        PutFreePages(rest[0].mapNr, rest[0].order);
        assert rest[..0] + rest[1..] == rest[1..];
        rest := rest[1..];
      }
      NoneHeld(live);
      NothingLive();
      ValidCanonical();
      SameLists(area, before, free);
    }

    /** A whole session: whatever the client asks for and gives back, the end finds the free lists of the start. */
    method Session(script: seq<Request>)
      requires Valid() && live == map[]
      modifies this`area, this`nrFreePages, this`free, this`live, this`owner, count, referenced
      ensures Valid() && live == map[] && free == old(free)
      ensures forall o: nat, h: nat :: FreeAt(area, o, h) <==> old(FreeAt(area, o, h))
    {
      hide Valid, Canonical, Holds, FreeAt, ListsCanonical;
      NothingLive();
      ValidCanonical();
      ghost var before := area;
      var held := Run(script);
      ReleaseAll(held, before);
    }
  }

  lemma EmptyCanonical(a: Areas)
    requires forall o :: 0 <= o < NR_MEM_LISTS ==> a[o] == Area([], {}, 0)
    ensures Canonical(a, {}) && CountedPages(a, NR_MEM_LISTS) == 0
  {
    EmptyCount(a, NR_MEM_LISTS);
  }

  lemma {:induction false} EmptyCount(a: Areas, n: nat)
    requires n <= NR_MEM_LISTS && forall o :: 0 <= o < NR_MEM_LISTS ==> a[o].statCount == 0
    ensures CountedPages(a, n) == 0
  {
    if n > 0 {
      EmptyCount(a, n - 1);
    }
  }

  /** The lower half of an aligned block has the upper half as its buddy, and the halves are apart. */
  lemma LowerHalf(h: nat, o: nat)
    requires Aligned(h, o + 1)
    ensures Buddy(h, o) == h + Pow2(o) && Block(h, o) !! Block(h + Pow2(o), o)
  {
    hide Block, Buddy;
    var k := Quotient(h, Pow2(o + 1));
    HalvesOf(h, o + 1);
    PairOf(h, o);
    PairUnique(o, k, PairIndex(h, o));
    BuddyJoins(h, o);
  }

  lemma BuddyNotFree(a: Areas, free: set<nat>, o: nat, h: nat)
    requires Canonical(a, free) && Block(h + Pow2(o), o) !! free
    ensures !FreeAt(a, o, h + Pow2(o))
  {
    hide Queues, Placed, Covered, Disjoint, Merged, Parity, Block;
    NotFreeAt(a, free, o, h + Pow2(o));
  }

  /** Adding to the queue and flipping the bit may come in either order. */
  lemma PutInOrder(a: Areas, o: nat, h: nat)
    requires o < MAX_ORDER
    ensures ChangeBit(AddMemQueue(a, o, h), o, PairIndex(h, o)) == Put(a, o, h)
  {
  }

  lemma Doubles(o: nat)
    ensures Pow2(o + 1) == 2 * Pow2(o)
  {
  }

  lemma BlockSize(h: nat, o: nat)
    ensures |Block(h, o)| == Pow2(o)
  {
  }

  lemma CanonicalAt(a: Areas, free: set<nat>, o: nat, h: nat)
    requires Canonical(a, free) && FreeAt(a, o, h)
    ensures Aligned(h, o) && Block(h, o) <= free
  {
    PlacedAt(a, free, o, h);
  }
}
