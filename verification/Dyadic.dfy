/** Aligned power-of-two blocks of page numbers: the arithmetic under the buddy allocator. */
module Dyadic {

  function Pow2(k: nat): (s: nat)
    ensures s >= 1
  {
    if k == 0 then 1 else 2 * Pow2(k - 1)
  }

  predicate Aligned(h: nat, o: nat) {
    h % Pow2(o) == 0
  }

  /** The `n` consecutive pages from page `h`. */
  function Span(h: nat, n: nat): (s: set<nat>)
    ensures forall p: nat :: p in s <==> h <= p < h + n
    ensures |s| == n
  {
    if n == 0 then {} else Span(h, n - 1) + {h + n - 1}
  }

  /** The pages of the block of order `o` that starts at page `h`. */
  function Block(h: nat, o: nat): set<nat> {
    Span(h, Pow2(o))
  }

  /** The two halves of pair number `k` at order `o`: one bit of the bitmap stands for both. */
  function Left(o: nat, k: nat): nat {
    k * Pow2(o + 1)
  }

  function Right(o: nat, k: nat): nat {
    k * Pow2(o + 1) + Pow2(o)
  }

  function Quotient(h: nat, s: nat): nat
    requires s > 0
  {
    h / s
  }

  /** `map_nr >> (1 + order)` */
  function PairIndex(h: nat, o: nat): nat {
    Quotient(h, Pow2(o + 1))
  }

  /** `map_nr ^ (1 << order)` */
  function Buddy(h: nat, o: nat): (b: int) {
    if Quotient(h, Pow2(o)) % 2 == 0 then h + Pow2(o) else h - Pow2(o)
  }

  /** `map_nr & (~0UL << k)` */
  function MaskDown(h: nat, k: nat): nat {
    Quotient(h, Pow2(k)) * Pow2(k)
  }

  lemma MultipleMod(q: nat, s: nat)
    requires s > 0
    ensures (q * s) % s == 0 && (q * s) / s == q
  {
    DivUnique(q * s, s, q, 0);
  }

  lemma DivUnique(x: nat, s: nat, q: nat, r: nat)
    requires s > 0 && r < s && x == q * s + r
    ensures x / s == q && x % s == r
  {
    var q', r' := x / s, x % s;
    assert (q' - q) * s == r - r';
    SmallMultiple(q' - q, s);
  }

  lemma SmallMultiple(d: int, s: int)
    requires 0 - s < d * s < s
    ensures d == 0
  {
    if d > 0 {
      MulAtLeast(d, s);
    } else if d < 0 {
      MulAtLeast(-d, s);
    }
  }

  lemma MulAtLeast(d: int, s: int)
    requires d >= 1 && s >= 0
    ensures d * s >= s
  {
  }

  lemma AlignedQuotient(h: nat, o: nat)
    requires Aligned(h, o)
    ensures h == h / Pow2(o) * Pow2(o)
  {
  }

  lemma EvenOrOdd(h: nat, s: nat)
    requires s > 0 && h % s == 0
    ensures (h / s) % 2 == 0 ==> h == h / (2 * s) * (2 * s)
    ensures (h / s) % 2 != 0 ==> h == h / (2 * s) * (2 * s) + s
  {
    var q := h / s;
    var k := q / 2;
    assert h == q * s;
    if q % 2 == 0 {
      assert h == 2 * k * s == k * (2 * s);
      DivUnique(h, 2 * s, k, 0);
    } else {
      assert h == (2 * k + 1) * s == k * (2 * s) + s;
      DivUnique(h, 2 * s, k, s);
    }
  }

  /** A block is one of the two halves of its pair, and `Buddy` and `MaskDown` are the other half and the parent. */
  lemma PairOf(h: nat, o: nat)
    requires Aligned(h, o)
    ensures var k := PairIndex(h, o);
            && MaskDown(h, o + 1) == Left(o, k)
            && ((h == Left(o, k) && Buddy(h, o) == Right(o, k)) || (h == Right(o, k) && Buddy(h, o) == Left(o, k)))
  {
    EvenOrOdd(h, Pow2(o));
  }

  lemma PairAligned(o: nat, k: nat)
    ensures Aligned(Left(o, k), o + 1) && Aligned(Left(o, k), o) && Aligned(Right(o, k), o)
  {
    var s := Pow2(o);
    MultipleMod(k, 2 * s);
    assert Left(o, k) == (2 * k) * s;
    MultipleMod(2 * k, s);
    assert Right(o, k) == (2 * k + 1) * s;
    MultipleMod(2 * k + 1, s);
  }

  lemma PairUnique(o: nat, k: nat, k': nat)
    ensures Left(o, k) == Left(o, k') ==> k == k'
    ensures Right(o, k) == Right(o, k') ==> k == k'
    ensures Left(o, k) != Right(o, k')
  {
    var s := Pow2(o + 1);
    MultipleMod(k, s);
    MultipleMod(k', s);
    DivUnique(Right(o, k'), s, k', Pow2(o));
    DivUnique(Right(o, k), s, k, Pow2(o));
  }

  lemma SameMultiple(h: nat, h': nat, s: nat, p: nat)
    requires s > 0 && h % s == 0 && h' % s == 0
    requires h <= p < h + s && h' <= p < h' + s
    ensures h == h'
  {
    assert (h / s - h' / s) * s == h - h';
    SmallMultiple(h / s - h' / s, s);
  }

  lemma SameBlock(h: nat, h': nat, o: nat, p: nat)
    requires Aligned(h, o) && Aligned(h', o)
    requires p in Block(h, o) && p in Block(h', o)
    ensures h == h'
  {
    SameMultiple(h, h', Pow2(o), p);
  }

  lemma InParent(h: nat, o: nat)
    requires Aligned(h, o)
    ensures var parent := MaskDown(h, o + 1);
            Aligned(parent, o + 1) && Block(h, o) <= Block(parent, o + 1)
  {
    PairOf(h, o);
    PairAligned(o, PairIndex(h, o));
  }

  /** Aligned blocks never straddle each other. */
  lemma {:induction false} Nest(h: nat, o: nat, h': nat, o': nat, p: nat)
    requires Aligned(h, o) && Aligned(h', o') && o <= o'
    requires p in Block(h, o) && p in Block(h', o')
    ensures Block(h, o) <= Block(h', o')
    decreases o' - o
  {
    if o == o' {
      SameBlock(h, h', o, p);
    } else {
      InParent(h, o);
      Nest(MaskDown(h, o + 1), o + 1, h', o', p);
    }
  }

  /** A block and its buddy make up the parent block and share one pair index. */
  lemma BuddyJoins(h: nat, o: nat)
    requires Aligned(h, o)
    ensures Buddy(h, o) >= 0 && Aligned(Buddy(h, o), o)
    ensures PairIndex(Buddy(h, o), o) == PairIndex(h, o)
    ensures Aligned(MaskDown(h, o + 1), o + 1)
    ensures Block(MaskDown(h, o + 1), o + 1) == Block(h, o) + Block(Buddy(h, o), o)
    ensures Block(h, o) !! Block(Buddy(h, o), o)
  {
    hide Aligned, Block, Buddy, MaskDown, PairIndex, Left, Right;
    var k := PairIndex(h, o);
    PairOf(h, o);
    PairAligned(o, k);
    PairJoins(o, k);
  }

  lemma PairJoins(o: nat, k: nat)
    ensures Block(Left(o, k), o + 1) == Block(Left(o, k), o) + Block(Right(o, k), o)
    ensures Block(Left(o, k), o) !! Block(Right(o, k), o)
    ensures PairIndex(Left(o, k), o) == k && PairIndex(Right(o, k), o) == k
  {
    DivUnique(Left(o, k), Pow2(o + 1), k, 0);
    DivUnique(Right(o, k), Pow2(o + 1), k, Pow2(o));
  }
}
