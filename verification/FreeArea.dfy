/**
 The free lists and pair bitmaps of the buddy allocator as values: `free_mem_area` of mm/memory.c.
 Taking a block and adding a block are the two moves that both allocation and freeing are made of.
 */
module FreeArea {
  import opened Common
  import opened Dyadic

  /** NR_MEM_LISTS and the largest order. */
  const NR_MEM_LISTS: nat := 11
  const MAX_ORDER: nat := 10

  /** One `free_mem_area_struct`: the queue of block heads, the set bits of its bitmap, its counter. */
  datatype Area = Area(list: seq<nat>, bits: set<nat>, statCount: int)

  type Areas = a: seq<Area> | |a| == NR_MEM_LISTS witness seq(NR_MEM_LISTS, i => Area([], {}, 0))

  /** add_mem_queue */
  function AddMemQueue(a: Areas, o: nat, h: nat): Areas
    requires o < NR_MEM_LISTS
  {
    a[o := Area([h] + a[o].list, a[o].bits, a[o].statCount + 1)]
  }

  /** remove_mem_queue */
  function RemoveMemQueue(a: Areas, o: nat, h: nat): Areas
    requires o < NR_MEM_LISTS
  {
    a[o := Area(Without(a[o].list, h), a[o].bits, a[o].statCount - 1)]
  }

  function Bit(a: Areas, o: nat, k: nat): bool
    requires o < NR_MEM_LISTS
  {
    k in a[o].bits
  }

  /** change_bit */
  function ChangeBit(a: Areas, o: nat, k: nat): Areas
    requires o < NR_MEM_LISTS
  {
    a[o := Area(a[o].list, if Bit(a, o, k) then a[o].bits - {k} else a[o].bits + {k}, a[o].statCount)]
  }

  /** The block of order `o` at page `h` is on its free list. */
  predicate FreeAt(a: Areas, o: nat, h: nat) {
    o < NR_MEM_LISTS && h in a[o].list
  }

  /** Queues hold no head twice and their counters are their lengths. */
  ghost predicate Queues(a: Areas) {
    forall o :: 0 <= o < NR_MEM_LISTS ==> Distinct(a[o].list) && a[o].statCount == |a[o].list|
  }

  /** Free blocks are aligned and lie inside the free pages. */
  ghost predicate Placed(a: Areas, free: set<nat>) {
    forall o: nat, h: nat :: FreeAt(a, o, h) ==> Aligned(h, o) && Block(h, o) <= free
  }

  /** Every free page lies in a free block. */
  ghost predicate Covered(a: Areas, free: set<nat>) {
    forall p :: p in free ==> exists o: nat, h: nat :: FreeAt(a, o, h) && p in Block(h, o)
  }

  /** Different free blocks share no page. */
  ghost predicate Disjoint(a: Areas) {
    forall o: nat, h: nat, o': nat, h': nat :: FreeAt(a, o, h) && FreeAt(a, o', h') && (o != o' || h != h') ==>
      Block(h, o) !! Block(h', o')
  }

  /** No pair below the largest order has both halves free: they would have been merged. */
  ghost predicate Merged(a: Areas) {
    forall o: nat, k: nat :: o < MAX_ORDER && FreeAt(a, o, Left(o, k)) ==> !FreeAt(a, o, Right(o, k))
  }

  /** Below the largest order the bit of a pair is the exclusive or of its halves being free. */
  ghost predicate Parity(a: Areas) {
    forall o: nat, k: nat :: o < MAX_ORDER ==>
      (Bit(a, o, k) <==> (FreeAt(a, o, Left(o, k)) != FreeAt(a, o, Right(o, k))))
  }

  ghost predicate Canonical(a: Areas, free: set<nat>) {
    Queues(a) && Placed(a, free) && Covered(a, free) && Disjoint(a) && Merged(a) && Parity(a)
  }

  // ------------------------------------------------------------------ the two moves

  /** A free block leaves its queue and its pair bit flips. */
  function Take(a: Areas, o: nat, h: nat): Areas
    requires o < NR_MEM_LISTS
  {
    RemoveMemQueue(ChangeBit(a, o, PairIndex(h, o)), o, h)
  }

  /** A block joins its queue; below the largest order its pair bit flips. */
  function Put(a: Areas, o: nat, h: nat): Areas
    requires o < NR_MEM_LISTS
  {
    AddMemQueue(if o < MAX_ORDER then ChangeBit(a, o, PairIndex(h, o)) else a, o, h)
  }

  /** `b` frees what `a` frees, except that the block of order `o` at `h` changed sides. */
  ghost predicate Flipped(a: Areas, b: Areas, o: nat, h: nat) {
    forall o': nat, h': nat :: FreeAt(b, o', h') <==> (FreeAt(a, o', h') != (o' == o && h' == h))
  }

  lemma PlacedAt(a: Areas, free: set<nat>, o: nat, h: nat)
    requires Placed(a, free) && FreeAt(a, o, h)
    ensures Aligned(h, o) && Block(h, o) <= free
  {
  }

  lemma HeadIn(h: nat, o: nat)
    ensures h in Block(h, o)
  {
  }

  lemma NotFreeAt(a: Areas, free: set<nat>, o: nat, h: nat)
    requires Placed(a, free) && Block(h, o) !! free
    ensures !FreeAt(a, o, h)
  {
    assert h in Block(h, o);
  }

  lemma TakeFreeAt(a: Areas, o: nat, h: nat)
    requires Queues(a) && FreeAt(a, o, h)
    ensures Queues(Take(a, o, h)) && Flipped(a, Take(a, o, h), o, h)
  {
    WithoutFacts(a[o].list, h);
  }

  lemma PutFreeAt(a: Areas, o: nat, h: nat)
    requires Queues(a) && o < NR_MEM_LISTS && !FreeAt(a, o, h)
    ensures Queues(Put(a, o, h)) && Flipped(a, Put(a, o, h), o, h)
  {
  }

  ghost predicate BitFlipped(a: Areas, b: Areas, o: nat, k: nat) {
    forall o': nat, k': nat :: o' < MAX_ORDER ==> (Bit(b, o', k') <==> (Bit(a, o', k') != (o' == o && k' == k)))
  }

  lemma FlipParity(a: Areas, b: Areas, o: nat, h: nat)
    requires o < MAX_ORDER && Aligned(h, o) && Parity(a)
    requires BitFlipped(a, b, o, PairIndex(h, o)) && Flipped(a, b, o, h)
    ensures Parity(b)
  {
    PairOf(h, o);
    forall o': nat, k: nat | o' < MAX_ORDER
      ensures Bit(b, o', k) <==> (FreeAt(b, o', Left(o', k)) != FreeAt(b, o', Right(o', k)))
    {
      if o' == o {
        PairUnique(o, k, PairIndex(h, o));
        PairUnique(o, PairIndex(h, o), k);
      }
    }
  }

  lemma TopParity(a: Areas, b: Areas, h: nat)
    requires Parity(a) && Flipped(a, b, MAX_ORDER, h)
    requires forall o :: 0 <= o < MAX_ORDER ==> b[o].bits == a[o].bits
    ensures Parity(b)
  {
    forall o: nat, k: nat | o < MAX_ORDER
      ensures Bit(b, o, k) <==> (FreeAt(b, o, Left(o, k)) != FreeAt(b, o, Right(o, k)))
    {
    }
  }

  lemma TakePlaced(a: Areas, b: Areas, free: set<nat>, o: nat, h: nat)
    requires Placed(a, free) && Disjoint(a) && FreeAt(a, o, h) && Flipped(a, b, o, h)
    ensures Placed(b, free - Block(h, o))
  {
    forall o': nat, h': nat | FreeAt(b, o', h')
      ensures Aligned(h', o') && Block(h', o') <= free - Block(h, o)
    {
      assert FreeAt(a, o', h');
    }
  }

  lemma TakeCovered(a: Areas, b: Areas, free: set<nat>, o: nat, h: nat)
    requires Covered(a, free) && FreeAt(a, o, h) && Flipped(a, b, o, h)
    ensures Covered(b, free - Block(h, o))
  {
    forall p | p in free - Block(h, o)
      ensures exists o': nat, h': nat :: FreeAt(b, o', h') && p in Block(h', o')
    {
      var o': nat, h': nat :| FreeAt(a, o', h') && p in Block(h', o');
      assert FreeAt(b, o', h');
    }
  }

  lemma TakeDisjoint(a: Areas, b: Areas, o: nat, h: nat)
    requires Disjoint(a) && Merged(a) && FreeAt(a, o, h) && Flipped(a, b, o, h)
    ensures Disjoint(b) && Merged(b)
  {
    forall o1: nat, h1: nat, o2: nat, h2: nat | FreeAt(b, o1, h1) && FreeAt(b, o2, h2) && (o1 != o2 || h1 != h2)
      ensures Block(h1, o1) !! Block(h2, o2)
    {
      assert FreeAt(a, o1, h1) && FreeAt(a, o2, h2);
    }
  }

  lemma TakeCanonical(a: Areas, free: set<nat>, o: nat, h: nat)
    requires Canonical(a, free) && FreeAt(a, o, h)
    ensures Canonical(Take(a, o, h), free - Block(h, o))
  {
    hide Placed, Covered, Disjoint, Merged, Parity, Queues, Block, Flipped, Aligned;
    var b := Take(a, o, h);
    PlacedAt(a, free, o, h);
    TakeFreeAt(a, o, h);
    TakePlaced(a, b, free, o, h);
    TakeCovered(a, b, free, o, h);
    TakeDisjoint(a, b, o, h);
    if o < MAX_ORDER {
      FlipParity(a, b, o, h);
    } else {
      TopParity(a, b, h);
    }
  }

  lemma PutPlaced(a: Areas, b: Areas, free: set<nat>, o: nat, h: nat)
    requires Placed(a, free) && Flipped(a, b, o, h) && Aligned(h, o) && !FreeAt(a, o, h)
    ensures Placed(b, free + Block(h, o))
  {
    forall o': nat, h': nat | FreeAt(b, o', h')
      ensures Aligned(h', o') && Block(h', o') <= free + Block(h, o)
    {
    }
  }

  lemma PutCovered(a: Areas, b: Areas, free: set<nat>, o: nat, h: nat)
    requires Covered(a, free) && Flipped(a, b, o, h) && o < NR_MEM_LISTS && !FreeAt(a, o, h)
    ensures Covered(b, free + Block(h, o))
  {
    assert FreeAt(b, o, h);
    forall p | p in free + Block(h, o)
      ensures exists o': nat, h': nat :: FreeAt(b, o', h') && p in Block(h', o')
    {
      if p in free {
        var o': nat, h': nat :| FreeAt(a, o', h') && p in Block(h', o');
        assert FreeAt(b, o', h');
      }
    }
  }

  lemma PutDisjoint(a: Areas, b: Areas, free: set<nat>, o: nat, h: nat)
    requires Placed(a, free) && Disjoint(a) && Flipped(a, b, o, h) && Block(h, o) !! free
    ensures Disjoint(b)
  {
    forall o1: nat, h1: nat, o2: nat, h2: nat | FreeAt(b, o1, h1) && FreeAt(b, o2, h2) && (o1 != o2 || h1 != h2)
      ensures Block(h1, o1) !! Block(h2, o2)
    {
      if o1 == o && h1 == h {
        assert FreeAt(a, o2, h2);
      } else {
        assert FreeAt(a, o1, h1);
      }
    }
  }

  lemma PutMerged(a: Areas, b: Areas, o: nat, h: nat)
    requires Merged(a) && Flipped(a, b, o, h) && Aligned(h, o)
    requires o < MAX_ORDER ==> Buddy(h, o) >= 0 && !FreeAt(a, o, Buddy(h, o))
    ensures Merged(b)
  {
    PairOf(h, o);
    forall o': nat, k: nat | o' < MAX_ORDER && FreeAt(b, o', Left(o', k))
      ensures !FreeAt(b, o', Right(o', k))
    {
      if o' == o {
        PairUnique(o, k, PairIndex(h, o));
        PairUnique(o, PairIndex(h, o), k);
      }
    }
  }

  lemma PutCanonical(a: Areas, free: set<nat>, o: nat, h: nat)
    requires Canonical(a, free) && o < NR_MEM_LISTS && Aligned(h, o) && Block(h, o) !! free
    requires o < MAX_ORDER ==> Buddy(h, o) >= 0 && !FreeAt(a, o, Buddy(h, o))
    ensures Canonical(Put(a, o, h), free + Block(h, o))
  {
    hide Placed, Covered, Disjoint, Merged, Parity, Queues, Block, Flipped, Aligned;
    var b := Put(a, o, h);
    NotFreeAt(a, free, o, h);
    PutFreeAt(a, o, h);
    PutPlaced(a, b, free, o, h);
    PutCovered(a, b, free, o, h);
    PutDisjoint(a, b, free, o, h);
    PutMerged(a, b, o, h);
    if o < MAX_ORDER {
      FlipParity(a, b, o, h);
    } else {
      TopParity(a, b, h);
    }
  }

  // ------------------------------------------------------------------ what one bit is enough for

  /** While a block is allocated, the bit of its pair tells whether its buddy is free. */
  lemma BitTellsBuddy(a: Areas, free: set<nat>, o: nat, h: nat)
    requires Canonical(a, free) && o < MAX_ORDER && Aligned(h, o) && Block(h, o) !! free
    ensures Buddy(h, o) >= 0
    ensures Bit(a, o, PairIndex(h, o)) <==> FreeAt(a, o, Buddy(h, o))
  {
    PairOf(h, o);
    assert h in Block(h, o);
    assert !FreeAt(a, o, h);
  }

  // ------------------------------------------------------------------ canonical form

  lemma HalvesOf(h: nat, o: nat)
    requires o > 0 && Aligned(h, o)
    ensures var k := Quotient(h, Pow2(o)); h == Left(o - 1, k) && h + Pow2(o - 1) == Right(o - 1, k)
    ensures Aligned(h, o - 1) && Aligned(h + Pow2(o - 1), o - 1)
    ensures Block(h, o) == Block(h, o - 1) + Block(h + Pow2(o - 1), o - 1)
  {
    PairAligned(o - 1, Quotient(h, Pow2(o)));
    AlignedQuotient(h, o);
  }

  lemma CoveredAt(a: Areas, free: set<nat>, p: nat)
    returns (o: nat, h: nat)
    requires Covered(a, free) && p in free
    ensures FreeAt(a, o, h) && p in Block(h, o)
  {
    o, h :| FreeAt(a, o, h) && p in Block(h, o);
  }

  lemma HalvesNotBothFree(a: Areas, o: nat, h: nat)
    requires Merged(a) && 0 < o <= MAX_ORDER && Aligned(h, o)
    ensures !(FreeAt(a, o - 1, h) && FreeAt(a, o - 1, h + Pow2(o - 1)))
  {
    hide Aligned, Block, Quotient, Left, Right;
    HalvesOf(h, o);
  }

  lemma DisjointAt(a: Areas, o: nat, h: nat, o': nat, h': nat, p: nat)
    requires Disjoint(a) && FreeAt(a, o, h) && FreeAt(a, o', h') && p in Block(h, o) && p in Block(h', o')
    ensures o == o' && h == h'
  {
  }

  /** A block that meets an aligned run of the same order is that run; one of a larger order contains it. */
  lemma Meets(h: nat, o: nat, h': nat, o': nat, p: nat)
    requires Aligned(h, o) && Aligned(h', o') && o <= o' && p in Block(h, o) && p in Block(h', o')
    ensures Block(h, o) <= Block(h', o') && (o == o' ==> h == h')
  {
    Nest(h, o, h', o', p);
    if o == o' {
      SameBlock(h, h', o, p);
    }
  }

  /** An aligned run of free pages lies inside one free block of at least its order. */
  lemma {:induction false} RunInBlock(a: Areas, free: set<nat>, o: nat, h: nat)
    returns (o': nat, h': nat)
    requires Canonical(a, free) && o < NR_MEM_LISTS && Aligned(h, o) && Block(h, o) <= free
    ensures FreeAt(a, o', h') && o <= o' && Block(h, o) <= Block(h', o')
  {
    hide Placed, Covered, Disjoint, Merged, Parity, Queues, Aligned, Block;
    HeadIn(h, o);
    if o == 0 {
      o', h' := CoveredAt(a, free, h);
      PlacedAt(a, free, o', h');
      Meets(h, o, h', o', h);
    } else {
      var m := h + Pow2(o - 1);
      HeadIn(h, o - 1);
      HeadIn(m, o - 1);
      HalvesOf(h, o);
      HalvesNotBothFree(a, o, h);
      o', h' := RunInBlock(a, free, o - 1, h);
      PlacedAt(a, free, o', h');
      if o' < o {
        Meets(h, o - 1, h', o', h);
        o', h' := RunInBlock(a, free, o - 1, m);
        PlacedAt(a, free, o', h');
        Meets(m, o - 1, h', o', m);
      }
      Meets(h, o, h', o', if h in Block(h', o') then h else m);
    }
  }

  /** The maximal aligned blocks of a set of free pages: a reference definition that knows no history. */
  ghost predicate Maximal(free: set<nat>, o: nat, h: nat) {
    && o < NR_MEM_LISTS && Aligned(h, o) && Block(h, o) <= free
    && (o < MAX_ORDER ==> !(Block(MaskDown(h, o + 1), o + 1) <= free))
  }

  lemma FreeIsMaximal(a: Areas, free: set<nat>, o: nat, h: nat)
    requires Canonical(a, free) && FreeAt(a, o, h)
    ensures Maximal(free, o, h)
  {
    hide Placed, Covered, Disjoint, Merged, Parity, Queues, Aligned, Block;
    PlacedAt(a, free, o, h);
    HeadIn(h, o);
    if o < MAX_ORDER && Block(MaskDown(h, o + 1), o + 1) <= free {
      InParent(h, o);
      var o', h' := RunInBlock(a, free, o + 1, MaskDown(h, o + 1));
      DisjointAt(a, o, h, o', h', h);
      assert false;
    }
  }

  lemma MaximalIsFree(a: Areas, free: set<nat>, o: nat, h: nat)
    requires Canonical(a, free) && Maximal(free, o, h)
    ensures FreeAt(a, o, h)
  {
    hide Placed, Covered, Disjoint, Merged, Parity, Queues, Aligned, Block;
    var o', h' := RunInBlock(a, free, o, h);
    PlacedAt(a, free, o', h');
    HeadIn(h, o);
    Meets(h, o, h', o', h);
    if o' != o {
      InParent(h, o);
      Nest(MaskDown(h, o + 1), o + 1, h', o', h);
      assert false;
    }
  }

  /** The free lists are a function of the set of free pages alone. */
  lemma ListsAreMaximalBlocks(a: Areas, free: set<nat>)
    requires Canonical(a, free)
    ensures forall o: nat, h: nat :: FreeAt(a, o, h) <==> Maximal(free, o, h)
  {
    hide Canonical, Maximal;
    forall o: nat, h: nat
      ensures FreeAt(a, o, h) <==> Maximal(free, o, h)
    {
      if FreeAt(a, o, h) {
        FreeIsMaximal(a, free, o, h);
      } else if Maximal(free, o, h) {
        MaximalIsFree(a, free, o, h);
      }
    }
  }

  /** The free lists are a function of the free set. */
  lemma SameLists(a: Areas, b: Areas, free: set<nat>)
    requires Canonical(a, free) && Canonical(b, free)
    ensures forall o: nat, h: nat :: FreeAt(a, o, h) <==> FreeAt(b, o, h)
  {
    hide Canonical, Maximal, FreeAt;
    ListsAreMaximalBlocks(a, free);
    ListsAreMaximalBlocks(b, free);
  }

  // ------------------------------------------------------------------ counters

  /** The sum of `stat_count << order` over the first `n` orders. */
  function CountedPages(a: Areas, n: nat): int
    requires n <= NR_MEM_LISTS
  {
    if n == 0 then 0 else CountedPages(a, n - 1) + a[n - 1].statCount * Pow2(n - 1)
  }

  lemma {:induction false} CountChange(a: Areas, b: Areas, o: nat, d: int, n: nat)
    requires o < NR_MEM_LISTS && n <= NR_MEM_LISTS
    requires forall i :: 0 <= i < NR_MEM_LISTS ==> b[i].statCount == a[i].statCount + (if i == o then d else 0)
    ensures CountedPages(b, n) == CountedPages(a, n) + (if o < n then d * Pow2(o) else 0)
  {
    if n > 0 {
      CountChange(a, b, o, d, n - 1);
      if o == n - 1 {
        assert (a[o].statCount + d) * Pow2(o) == a[o].statCount * Pow2(o) + d * Pow2(o);
      }
    }
  }
}
