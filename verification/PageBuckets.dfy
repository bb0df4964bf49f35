/**
 The per-CPU cache of network buffers in mm/jslab.c: stacks of buffers ("buckets") that CPUs exchange through two global
 lists, and the reference count that jpage_dup raises. Each call is one step.
 */
module PageBuckets {
  import opened Common

  const MAX_CPUS: nat := 10
  const MAX_BUCKETS: nat := MAX_CPUS + 54
  const MAX_STACK_SIZE: nat := 1000
  const MAX_PAGES_PER_CPU_CACHE: nat := 5000
  const WRAP: nat := 0x1_0000_0000_0000_0000

  /** A buffer, named by its first page. */
  type Buffer = nat

  /** The stack of a bucket up to `top`. */
  type Stack = seq<Buffer>

  /** Which bucket each CPU has, and the buckets on the two global lists. */
  datatype Pools = Pools(bucket: seq<nat>, empty: seq<nat>, full: seq<nat>)

  // ------------------------------------------------------------------ who owns a bucket

  function Occurs(q: seq<nat>, x: nat): nat {
    multiset(q)[x]
  }

  function Owners(o: Pools, b: nat): nat {
    Occurs(o.bucket, b) + Occurs(o.empty, b) + Occurs(o.full, b)
  }

  /** Each bucket is owned by exactly one CPU or one list, once; buckets on the lists are empty or full. */
  ghost predicate Owned(o: Pools, raw: seq<Stack>) {
    && (forall b: nat :: Owners(o, b) == if b < |raw| then 1 else 0)
    && (forall b :: b in o.empty ==> b < |raw| && raw[b] == [])
    && (forall b :: b in o.full ==> b < |raw| && |raw[b]| == MAX_STACK_SIZE)
  }

  /** get_bucket: an empty bucket is exchanged for a full one, any other for an empty one. */
  function GotBucket(o: Pools, raw: seq<Stack>, c: nat): Pools
    requires c < |o.bucket| && o.bucket[c] < |raw|
  {
    if raw[o.bucket[c]] == [] then
      if o.full == [] then o else Pools(o.bucket[c := o.full[0]], [o.bucket[c]] + o.empty, o.full[1..])
    else
      if o.empty == [] then o else Pools(o.bucket[c := o.empty[0]], o.empty[1..], [o.bucket[c]] + o.full)
  }

  lemma OccursHead(q: seq<nat>, x: nat)
    requires q != []
    ensures Occurs(q, x) == Occurs(q[1..], x) + if x == q[0] then 1 else 0
  {
    assert q == [q[0]] + q[1..];
  }

  lemma OccursLast(q: seq<nat>, x: nat)
    requires q != []
    ensures Occurs(q, x) == Occurs(q[..|q| - 1], x) + if x == q[|q| - 1] then 1 else 0
  {
    assert q == q[..|q| - 1] + [q[|q| - 1]];
  }

  lemma OccursUpdate(q: seq<nat>, i: nat, y: nat, x: nat)
    requires i < |q|
    ensures Occurs(q[i := y], x) + (if x == q[i] then 1 else 0) == Occurs(q, x) + if x == y then 1 else 0
  {
    assert multiset(q[i := y]) == multiset(q) - multiset{q[i]} + multiset{y};
    assert q[i] in q;
  }

  lemma OccursIn(q: seq<nat>, x: nat)
    ensures x in q <==> Occurs(q, x) > 0
  {
  }

  /** A bucket that a CPU has is a real one and on neither list. */
  lemma CpuBucket(o: Pools, raw: seq<Stack>, c: nat)
    requires Owned(o, raw) && c < |o.bucket|
    ensures o.bucket[c] < |raw| && o.bucket[c] !in o.empty && o.bucket[c] !in o.full
  {
    var b := o.bucket[c];
    OccursIn(o.bucket, b);
    OccursIn(o.empty, b);
    OccursIn(o.full, b);
    assert Owners(o, b) == if b < |raw| then 1 else 0;
  }

  lemma SwapOwners(o: Pools, raw: seq<Stack>, c: nat, b: nat)
    requires c < |o.bucket| && o.bucket[c] < |raw|
    ensures Owners(GotBucket(o, raw, c), b) == Owners(o, b)
  {
    hide Occurs;
    var o' := GotBucket(o, raw, c);
    if raw[o.bucket[c]] == [] {
      if o.full != [] {
        OccursHead(o.full, b);
        OccursHead(o'.empty, b);
        OccursUpdate(o.bucket, c, o.full[0], b);
      }
    } else if o.empty != [] {
      OccursHead(o.empty, b);
      OccursHead(o'.full, b);
      OccursUpdate(o.bucket, c, o.empty[0], b);
    }
  }

  lemma GetBucketOwned(o: Pools, raw: seq<Stack>, c: nat)
    requires Owned(o, raw) && c < |o.bucket| && o.bucket[c] < |raw|
    requires raw[o.bucket[c]] == [] || |raw[o.bucket[c]]| == MAX_STACK_SIZE
    ensures Owned(GotBucket(o, raw, c), raw) && |GotBucket(o, raw, c).bucket| == |o.bucket|
  {
    hide Owners;
    var o' := GotBucket(o, raw, c);
    forall b: nat ensures Owners(o', b) == if b < |raw| then 1 else 0 {
      SwapOwners(o, raw, c, b);
      assert Owners(o, b) == if b < |raw| then 1 else 0;
    }
    assert forall b :: b in o'.empty ==> b in o.empty || (b == o.bucket[c] && raw[b] == []);
    assert forall b :: b in o'.full ==> b in o.full || (b == o.bucket[c] && raw[b] != []);
  }

  lemma GotOther(o: Pools, raw: seq<Stack>, c: nat)
    requires Owned(o, raw) && c < |o.bucket| && o.bucket[c] < |raw|
    ensures var o', had := GotBucket(o, raw, c), raw[o.bucket[c]];
            && |o'.bucket| == |o.bucket| && o'.bucket[c] < |raw|
            && (had == [] && o.full != [] ==> |raw[o'.bucket[c]]| == MAX_STACK_SIZE)
            && (had != [] && o.empty != [] ==> raw[o'.bucket[c]] == [])
  {
    hide Owners;
    assert o.full != [] ==> o.full[0] in o.full;
    assert o.empty != [] ==> o.empty[0] in o.empty;
  }

  /** The CPU's own bucket may change. */
  lemma OwnedAfter(o: Pools, raw: seq<Stack>, c: nat, s: Stack)
    requires Owned(o, raw) && c < |o.bucket| && o.bucket[c] < |raw|
    ensures Owned(o, raw[o.bucket[c] := s])
  {
    CpuBucket(o, raw, c);
    hide Owners;
  }

  // ------------------------------------------------------------------ what the buckets hold

  /** How often a buffer is cached. */
  function Copies(raw: seq<Stack>, p: Buffer): nat {
    if raw == [] then 0 else Copies(raw[..|raw| - 1], p) + Occurs(raw[|raw| - 1], p)
  }

  function Total(raw: seq<Stack>): nat {
    if raw == [] then 0 else Total(raw[..|raw| - 1]) + |raw[|raw| - 1]|
  }

  function Sum(count: seq<nat>): nat {
    if count == [] then 0 else Sum(count[..|count| - 1]) + count[|count| - 1]
  }

  lemma {:induction false} CopiesChange(raw: seq<Stack>, b: nat, s: Stack, p: Buffer)
    requires b < |raw|
    ensures Copies(raw[b := s], p) + Occurs(raw[b], p) == Copies(raw, p) + Occurs(s, p)
  {
    hide Occurs;
    var m := |raw| - 1;
    if b < m {
      CopiesChange(raw[..m], b, s, p);
      assert raw[b := s][..m] == raw[..m][b := s];
    } else {
      assert raw[b := s][..m] == raw[..m];
    }
  }

  lemma {:induction false} TotalChanges(raw: seq<Stack>, b: nat, s: Stack)
    requires b < |raw|
    ensures Total(raw[b := s]) + |raw[b]| == Total(raw) + |s|
  {
    var m := |raw| - 1;
    if b < m {
      TotalChanges(raw[..m], b, s);
      assert raw[b := s][..m] == raw[..m][b := s];
    } else {
      assert raw[b := s][..m] == raw[..m];
    }
  }

  lemma {:induction false} SumChanges(count: seq<nat>, c: nat, n: nat)
    requires c < |count|
    ensures Sum(count[c := n]) + count[c] == Sum(count) + n
  {
    var m := |count| - 1;
    if c < m {
      SumChanges(count[..m], c, n);
      assert count[c := n][..m] == count[..m][c := n];
    } else {
      assert count[c := n][..m] == count[..m];
    }
  }

  /** The per-CPU counters, which wrap, add up to the number of cached buffers. */
  ghost predicate SumOk(count: seq<nat>, raw: seq<Stack>) {
    (forall c :: 0 <= c < |count| ==> count[c] < WRAP) && Sum(count) % WRAP == Total(raw) % WRAP
  }

  lemma DownByOne(sum: nat, n: nat, n': nat, sum': nat, total: nat)
    requires n < WRAP && n' == (if n == 0 then WRAP - 1 else n - 1) && sum' + n == sum + n'
    requires sum % WRAP == total % WRAP && total > 0
    ensures sum' % WRAP == (total - 1) % WRAP
  {
  }

  lemma UpByOne(sum: nat, n: nat, n': nat, sum': nat, total: nat)
    requires n < WRAP && n' == (if n == WRAP - 1 then 0 else n + 1) && sum' + n == sum + n'
    requires sum % WRAP == total % WRAP
    ensures sum' % WRAP == (total + 1) % WRAP
  {
  }

  /** An unsigned long that goes down by one, and up by one. */
  function Less(n: nat): nat { if n == 0 then WRAP - 1 else n - 1 }

  function More(n: nat): nat { if n == WRAP - 1 then 0 else n + 1 }

  lemma SumPop(count: seq<nat>, raw: seq<Stack>, c: nat, b: nat)
    requires SumOk(count, raw) && c < |count| && b < |raw| && raw[b] != []
    ensures SumOk(count[c := Less(count[c])], raw[b := raw[b][..|raw[b]| - 1]])
  {
    hide Sum, Total;
    SumChanges(count, c, Less(count[c]));
    TotalChanges(raw, b, raw[b][..|raw[b]| - 1]);
    DownByOne(Sum(count), count[c], Less(count[c]), Sum(count[c := Less(count[c])]), Total(raw));
  }

  lemma SumPush(count: seq<nat>, raw: seq<Stack>, c: nat, b: nat, p: Buffer)
    requires SumOk(count, raw) && c < |count| && b < |raw|
    ensures SumOk(count[c := More(count[c])], raw[b := raw[b] + [p]])
  {
    hide Sum, Total;
    SumChanges(count, c, More(count[c]));
    TotalChanges(raw, b, raw[b] + [p]);
    UpByOne(Sum(count), count[c], More(count[c]), Sum(count[c := More(count[c])]), Total(raw));
  }

  // ------------------------------------------------------------------ references

  /**
   `netBuf` and `pageCount` are the flag and the count of the blocks taken from the buddy allocator, `refs` what clients
   hold: a block is either cached, once and with no reference left, or its count is the number of references to it.
   */
  ghost predicate Counted(raw: seq<Stack>, netBuf: set<Buffer>, pageCount: map<Buffer, nat>, refs: map<Buffer, nat>) {
    && (forall p: Buffer :: Copies(raw, p) > 0 ==>
          Copies(raw, p) == 1 && p in netBuf && p in pageCount && pageCount[p] == 1 && p !in refs)
    && (forall p :: p in refs ==>
          refs[p] > 0 && p in pageCount && pageCount[p] == refs[p] && (p !in netBuf ==> refs[p] == 1))
    && (forall p :: p in netBuf ==> p in pageCount)
    && (forall p :: p in pageCount ==> Copies(raw, p) > 0 || p in refs)
  }

  function Released(refs: map<Buffer, nat>, p: Buffer): map<Buffer, nat>
    requires p in refs && refs[p] > 0
  {
    if refs[p] == 1 then refs - {p} else refs[p := refs[p] - 1]
  }

  /** The top of a bucket is handed to a client. */
  lemma PopCounted(raw: seq<Stack>, b: nat, netBuf: set<Buffer>, pageCount: map<Buffer, nat>, refs: map<Buffer, nat>)
    requires Counted(raw, netBuf, pageCount, refs) && b < |raw| && raw[b] != []
    ensures var p := raw[b][|raw[b]| - 1]; var raw' := raw[b := raw[b][..|raw[b]| - 1]];
            p in netBuf && Copies(raw, p) == 1 && Copies(raw', p) == 0 && p !in refs
              && Counted(raw', netBuf, pageCount, refs[p := 1])
  {
    hide Copies, Occurs;
    var p, raw' := raw[b][|raw[b]| - 1], raw[b := raw[b][..|raw[b]| - 1]];
    forall q: Buffer ensures Copies(raw', q) + (if q == p then 1 else 0) == Copies(raw, q) {
      CopiesChange(raw, b, raw[b][..|raw[b]| - 1], q);
      OccursLast(raw[b], q);
    }
  }

  /** The last reference goes and the buffer is cached. */
  lemma PushCounted(raw: seq<Stack>, b: nat, netBuf: set<Buffer>, pageCount: map<Buffer, nat>, refs: map<Buffer, nat>,
                    p: Buffer)
    requires Counted(raw, netBuf, pageCount, refs) && b < |raw| && p in refs && refs[p] == 1 && p in netBuf
    ensures Copies(raw, p) == 0 && Copies(raw[b := raw[b] + [p]], p) == 1
    ensures Counted(raw[b := raw[b] + [p]], netBuf, pageCount, refs - {p})
  {
    hide Copies, Occurs;
    var raw' := raw[b := raw[b] + [p]];
    forall q: Buffer ensures Copies(raw', q) == Copies(raw, q) + if q == p then 1 else 0 {
      CopiesChange(raw, b, raw[b] + [p], q);
      assert (raw[b] + [p])[..|raw[b]|] == raw[b];
      OccursLast(raw[b] + [p], q);
    }
  }

  /** A block that comes from the buddy allocator. */
  lemma FreshCounted(raw: seq<Stack>, netBuf: set<Buffer>, pageCount: map<Buffer, nat>, refs: map<Buffer, nat>,
                     p: Buffer, net: bool)
    requires Counted(raw, netBuf, pageCount, refs) && p !in pageCount
    ensures p !in refs && p !in netBuf
    ensures Counted(raw, if net then netBuf + {p} else netBuf, pageCount[p := 1], refs[p := 1])
  {
    hide Copies;
  }

  /** A reference is freed: either others are left and the count goes down, or the block may go back. */
  lemma RefFreed(raw: seq<Stack>, netBuf: set<Buffer>, pageCount: map<Buffer, nat>, refs: map<Buffer, nat>, p: Buffer)
    requires Counted(raw, netBuf, pageCount, refs) && p in refs
    ensures refs[p] > 0 && p in pageCount && pageCount[p] == refs[p] && (p !in netBuf ==> refs[p] == 1)
            && Copies(raw, p) == 0
    ensures refs[p] > 1 ==> Counted(raw, netBuf, pageCount[p := pageCount[p] - 1], refs[p := refs[p] - 1])
    ensures refs[p] == 1 ==> Counted(raw, netBuf - {p}, pageCount - {p}, refs - {p})
  {
    hide Copies;
    if refs[p] == 1 {
      LastRefFreed(raw, netBuf, pageCount, refs, p);
    }
  }

  lemma LastRefFreed(raw: seq<Stack>, netBuf: set<Buffer>, pageCount: map<Buffer, nat>, refs: map<Buffer, nat>,
                     p: Buffer)
    requires Counted(raw, netBuf, pageCount, refs) && p in refs
    ensures Counted(raw, netBuf - {p}, pageCount - {p}, refs - {p})
  {
    hide Copies;
  }

  /** The caller has a reference for every entry of the list. */
  ghost predicate Holds(refs: map<Buffer, nat>, ps: seq<Buffer>) {
    forall p :: p in ps ==> p in refs && Occurs(ps, p) <= refs[p]
  }

  function ReleasedAll(refs: map<Buffer, nat>, ps: seq<Buffer>): map<Buffer, nat>
    requires Holds(refs, ps)
    decreases |ps|
  {
    if ps == [] then refs else HoldsNext(refs, ps); ReleasedAll(Released(refs, ps[0]), ps[1..])
  }

  lemma HoldsNext(refs: map<Buffer, nat>, ps: seq<Buffer>)
    requires Holds(refs, ps) && ps != []
    ensures ps[0] in refs && refs[ps[0]] > 0 && Holds(Released(refs, ps[0]), ps[1..])
  {
    OccursIn(ps, ps[0]);
    forall p | p in ps[1..] ensures p in Released(refs, ps[0]) && Occurs(ps[1..], p) <= Released(refs, ps[0])[p] {
      OccursHead(ps, p);
      OccursIn(ps[1..], p);
    }
  }

  /** After a run of frees a buffer is still referenced exactly if fewer of them named it than it had references. */
  lemma {:induction false} ReleasedTally(refs: map<Buffer, nat>, ps: seq<Buffer>, p: Buffer)
    requires Holds(refs, ps) && p in refs && refs[p] > 0
    ensures p in ReleasedAll(refs, ps) <==> Occurs(ps, p) < refs[p]
    ensures p in ReleasedAll(refs, ps) ==> ReleasedAll(refs, ps)[p] == refs[p] - Occurs(ps, p)
    decreases |ps|
  {
    if ps != [] {
      HoldsNext(refs, ps);
      OccursHead(ps, p);
      var refs1 := Released(refs, ps[0]);
      if p in refs1 {
        ReleasedTally(refs1, ps[1..], p);
      } else {
        StaysReleased(refs1, ps[1..], p);
        OccursIn(ps[1..], p);
      }
    }
  }

  lemma {:induction false} StaysReleased(refs: map<Buffer, nat>, ps: seq<Buffer>, p: Buffer)
    requires Holds(refs, ps) && p !in refs
    ensures p !in ReleasedAll(refs, ps) && p !in ps
    decreases |ps|
  {
    if ps != [] {
      HoldsNext(refs, ps);
      StaysReleased(Released(refs, ps[0]), ps[1..], p);
    }
  }

  // ------------------------------------------------------------------ the cache

  class PageBuckets {
    var raw: seq<Stack>
    var pools: Pools
    var count: seq<nat>
    var netBuf: set<Buffer>
    var pageCount: map<Buffer, nat>
    const percpu: bool
    ghost var refs: map<Buffer, nat>

    ghost predicate Valid()
      reads this
    {
      && Owned(pools, raw) && |pools.bucket| == |count| == MAX_CPUS && |raw| == MAX_BUCKETS
      && (forall b :: 0 <= b < |raw| ==> |raw[b]| <= MAX_STACK_SIZE)
      && SumOk(count, raw) && Counted(raw, netBuf, pageCount, refs)
    }

    /** init_percpu_page_cache. */
    constructor (percpu: bool)
      ensures Valid() && refs == map[] && this.percpu == percpu
    {
      this.percpu := percpu;
      raw := seq(MAX_BUCKETS, _ => []);
      pools := Pools([], [], []);
      count := seq(MAX_CPUS, _ => 0);
      netBuf := {};
      pageCount := map[];
      refs := map[];
      new;
      hide Owned, SumOk, Counted, Occurs, Owners;
      var i := 0;
      OccursNone();
      while i < MAX_BUCKETS
        invariant i <= MAX_BUCKETS && pools.bucket == [] && pools.full == [] && |pools.empty| == i
        invariant forall b: nat :: Occurs(pools.empty, b) == if b < i then 1 else 0
        invariant raw == seq(MAX_BUCKETS, _ => []) && count == seq(MAX_CPUS, _ => 0) && netBuf == {}
                  && pageCount == map[] && refs == map[]
      {
        NewBucket(pools.empty, i);
        pools := pools.(empty := [i] + pools.empty);
        i := i + 1;
      }
      OwnersOfEmpty(pools);
      i := 0;
      while i < MAX_CPUS
        invariant i <= MAX_CPUS && |pools.bucket| == i && pools.full == [] && |pools.empty| == MAX_BUCKETS - i
        invariant forall b: nat :: Owners(pools, b) == if b < MAX_BUCKETS then 1 else 0
        invariant raw == seq(MAX_BUCKETS, _ => []) && count == seq(MAX_CPUS, _ => 0) && netBuf == {}
                  && pageCount == map[] && refs == map[]
      {
        BucketForCpu(pools);
        pools := Pools(pools.bucket + [pools.empty[0]], pools.empty[1..], pools.full);
        i := i + 1;
      }
      Nothing(raw, count, pools);
    }

    /** The block goes back to the buddy allocator, whose guards want no NetBuf flag and a count of one. */
    method PutFree(p: Buffer)
      requires p in pageCount && p !in netBuf && pageCount[p] == 1
      modifies `pageCount
      ensures pageCount == old(pageCount) - {p}
    {
      pageCount := pageCount - {p};
    }

    method JpageDup(p: Buffer) returns (ok: bool)
      requires Valid() && p in refs
      modifies `pageCount, `refs
      ensures Valid() && ok == (p in netBuf)
      ensures refs == if ok then old(refs)[p := old(refs)[p] + 1] else old(refs)
      ensures pageCount == if ok then old(pageCount)[p := old(refs)[p] + 1] else old(pageCount)
    {
      hide Owned, SumOk, Copies;
      if p in netBuf {
        pageCount := pageCount[p := pageCount[p] + 1];
        refs := refs[p := refs[p] + 1];
        return true;
      }
      return false;
    }

    /** Pops the CPU's bucket. */
    method Pop(c: nat) returns (p: Buffer)
      requires Valid() && c < MAX_CPUS && pools.bucket[c] < |raw| && raw[pools.bucket[c]] != []
      modifies `raw, `count, `refs
      ensures Valid() && p !in old(refs) && p in netBuf && refs == old(refs)[p := 1]
      ensures Copies(old(raw), p) == 1 && Copies(raw, p) == 0
    {
      hide Owned, SumOk, Copies, Counted;
      var b := pools.bucket[c];
      var s := raw[b];
      p := s[|s| - 1];
      OwnedAfter(pools, raw, c, s[..|s| - 1]);
      SumPop(count, raw, c, b);
      PopCounted(raw, b, netBuf, pageCount, refs);
      raw := raw[b := s[..|s| - 1]];
      count := count[c := Less(count[c])];
      refs := refs[p := 1];
    }

    /** Pushes a buffer whose last reference is being freed on the CPU's bucket. */
    method Push(c: nat, p: Buffer)
      requires Valid() && c < MAX_CPUS && pools.bucket[c] < |raw| && |raw[pools.bucket[c]]| < MAX_STACK_SIZE
      requires p in netBuf && p in refs && refs[p] == 1
      modifies `raw, `count, `refs
      ensures Valid() && refs == old(refs) - {p} && Copies(old(raw), p) == 0 && Copies(raw, p) == 1
    {
      hide Owned, SumOk, Copies, Counted;
      var b := pools.bucket[c];
      OwnedAfter(pools, raw, c, raw[b] + [p]);
      SumPush(count, raw, c, b, p);
      PushCounted(raw, b, netBuf, pageCount, refs, p);
      raw := raw[b := raw[b] + [p]];
      count := count[c := More(count[c])];
      refs := refs - {p};
    }

    method GetBucket(c: nat)
      requires Valid() && c < MAX_CPUS && pools.bucket[c] < |raw|
      requires raw[pools.bucket[c]] == [] || |raw[pools.bucket[c]]| == MAX_STACK_SIZE
      modifies `pools
      ensures Valid() && pools == GotBucket(old(pools), raw, c) && pools.bucket[c] < |raw|
      ensures var was, had := old(pools), raw[old(pools).bucket[c]];
              && (had == [] && was.full != [] ==> |raw[pools.bucket[c]]| == MAX_STACK_SIZE)
              && (had != [] && was.empty != [] ==> raw[pools.bucket[c]] == [])
              && (had == [] && was.full == [] ==> pools == was) && (had != [] && was.empty == [] ==> pools == was)
    {
      GetBucketOwned(pools, raw, c);
      GotOther(pools, raw, c);
      hide Owned, SumOk, Counted;
      pools := GotBucket(pools, raw, c);
      CpuBucket(pools, raw, c);
    }

    /** jalloc_page; `block` is what the buddy allocator would return, a block that is not in use. */
    method JallocPage(c: nat, clear: bool, wantNetBuf: bool, block: Option<Buffer>) returns (r: Option<Buffer>)
      requires Valid() && c < MAX_CPUS && (block.Some? ==> block.value !in pageCount)
      modifies `raw, `pools, `count, `netBuf, `pageCount, `refs
      ensures Valid()
      ensures r.None? ==> block.None? && refs == old(refs)
      ensures r.Some? ==>
                r.value !in old(refs) && refs == old(refs)[r.value := 1] && (wantNetBuf <==> r.value in netBuf)
      ensures r.Some? ==> r == block || (Copies(old(raw), r.value) == 1 && Copies(raw, r.value) == 0)
      ensures old(pools).bucket[c] < |old(raw)|
      ensures if !clear && percpu && wantNetBuf && (old(raw)[old(pools).bucket[c]] != [] || old(pools).full != [])
              then r.Some? && Copies(old(raw), r.value) == 1 && Copies(raw, r.value) == 0 && pageCount == old(pageCount)
              else r == block && raw == old(raw)
    {
      hide Owned, SumOk, Copies, Counted;
      CpuBucket(pools, raw, c);
      if !clear && percpu && wantNetBuf {
        if raw[pools.bucket[c]] == [] {
          GetBucket(c);
        }
        if raw[pools.bucket[c]] != [] {
          var p := Pop(c);
          return Some(p);
        }
      }
      r := block;
      if block.Some? {
        FreshCounted(raw, netBuf, pageCount, refs, block.value, wantNetBuf);
        pageCount := pageCount[block.value := 1];
        refs := refs[block.value := 1];
        if wantNetBuf {
          netBuf := netBuf + {block.value};
        }
      }
    }

    /**
     One turn of Bulk_free_pages. The buffer re-enters the cache or the buddy allocator exactly when the reference
     freed is the last one; until then only the count goes down.
     */
    method FreePage(c: nat, p: Buffer) returns (returned: bool)
      requires Valid() && c < MAX_CPUS && p in refs
      modifies `raw, `pools, `count, `netBuf, `pageCount, `refs
      ensures Valid() && old(refs)[p] > 0 && refs == Released(old(refs), p)
      ensures old(refs)[p] > 1 ==> !returned && raw == old(raw) && netBuf == old(netBuf) && p in pageCount
      ensures returned <==> p !in pageCount
      ensures old(refs)[p] == 1 ==> returned || (Copies(old(raw), p) == 0 && Copies(raw, p) == 1)
      ensures old(pools).bucket[c] < |old(raw)|
      ensures returned <==>
              && old(refs)[p] == 1
              && !(percpu && p in old(netBuf) && old(count)[c] < MAX_PAGES_PER_CPU_CACHE
                   && (|old(raw)[old(pools).bucket[c]]| < MAX_STACK_SIZE || old(pools).empty != []))
    {
      hide Owned, SumOk, Copies, Counted;
      CpuBucket(pools, raw, c);
      RefFreed(raw, netBuf, pageCount, refs, p);
      returned := false;
      if p in netBuf && pageCount[p] > 1 {
        pageCount := pageCount[p := pageCount[p] - 1];
        refs := refs[p := refs[p] - 1];
        return;
      }
      if percpu && p in netBuf {
        if |raw[pools.bucket[c]]| >= MAX_STACK_SIZE {
          GetBucket(c);
        }
        if |raw[pools.bucket[c]]| < MAX_STACK_SIZE && count[c] < MAX_PAGES_PER_CPU_CACHE {
          Push(c, p);
          return;
        }
      }
      netBuf := netBuf - {p};
      PutFree(p);
      refs := refs - {p};
      return true;
    }

    /** Bulk_free_pages: the caller frees no reference it does not hold. */
    method BulkFree(c: nat, ps: seq<Buffer>)
      requires Valid() && c < MAX_CPUS && Holds(refs, ps)
      modifies `raw, `pools, `count, `netBuf, `pageCount, `refs
      ensures Valid() && refs == ReleasedAll(old(refs), ps)
    {
      hide Owned, SumOk, Copies, Counted;
      var i := 0;
      while i < |ps|
        invariant i <= |ps| && Valid() && Holds(refs, ps[i..])
        invariant ReleasedAll(refs, ps[i..]) == ReleasedAll(old(refs), ps)
      {
        assert ps[i..][1..] == ps[i + 1..];
        HoldsNext(refs, ps[i..]);
        var _ := FreePage(c, ps[i]);
        i := i + 1;
      }
    }
  }

  lemma OccursNone()
    ensures forall b: nat :: Occurs([], b) == 0
  {
  }

  lemma NewBucket(empty: seq<nat>, i: nat)
    requires forall b: nat :: Occurs(empty, b) == if b < i then 1 else 0
    ensures forall b: nat :: Occurs([i] + empty, b) == if b < i + 1 then 1 else 0
  {
    hide Occurs;
    forall b: nat ensures Occurs([i] + empty, b) == if b < i + 1 then 1 else 0 {
      assert ([i] + empty)[1..] == empty;
      OccursHead([i] + empty, b);
    }
  }

  lemma OwnersOfEmpty(o: Pools)
    requires o.bucket == [] == o.full
    ensures forall b: nat :: Owners(o, b) == Occurs(o.empty, b)
  {
  }

  lemma BucketForCpu(o: Pools)
    requires o.empty != []
    ensures forall b: nat :: Owners(Pools(o.bucket + [o.empty[0]], o.empty[1..], o.full), b) == Owners(o, b)
  {
    hide Occurs;
    var bucket := o.bucket + [o.empty[0]];
    forall b: nat ensures Owners(Pools(bucket, o.empty[1..], o.full), b) == Owners(o, b) {
      assert bucket[..|o.bucket|] == o.bucket;
      OccursHead(o.empty, b);
      OccursLast(bucket, b);
    }
  }

  lemma Nothing(raw: seq<Stack>, count: seq<nat>, o: Pools)
    requires raw == seq(MAX_BUCKETS, _ => []) && count == seq(MAX_CPUS, _ => 0) && o.full == []
    requires forall b: nat :: Owners(o, b) == if b < MAX_BUCKETS then 1 else 0
    ensures Owned(o, raw) && SumOk(count, raw) && Counted(raw, {}, map[], map[])
  {
    forall b: nat | b in o.empty ensures b < |raw| && raw[b] == [] {
      OccursIn(o.empty, b);
      assert Owners(o, b) == if b < |raw| then 1 else 0;
    }
    assert forall b :: b in o.empty ==> b < |raw| && raw[b] == [];
    NoTotal(raw);
    NoSum(count);
    forall p: Buffer ensures Copies(raw, p) == 0 { NoCopies(raw, p); }
  }

  lemma {:induction false} NoTotal(raw: seq<Stack>)
    requires forall b :: 0 <= b < |raw| ==> raw[b] == []
    ensures Total(raw) == 0
  {
    if raw != [] { NoTotal(raw[..|raw| - 1]); }
  }

  lemma {:induction false} NoSum(count: seq<nat>)
    requires forall c :: 0 <= c < |count| ==> count[c] == 0
    ensures Sum(count) == 0
  {
    if count != [] { NoSum(count[..|count| - 1]); }
  }

  lemma {:induction false} NoCopies(raw: seq<Stack>, p: Buffer)
    requires forall b :: 0 <= b < |raw| ==> raw[b] == []
    ensures Copies(raw, p) == 0
  {
    if raw != [] { NoCopies(raw[..|raw| - 1], p); }
  }
}
