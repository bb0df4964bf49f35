/** The per-inode page index of mm/pagecache.cc: a table of hash lists kept in descending order of offset. */
module PageIndex {
  import opened Common

  const PAGE_SIZE: nat := 4096
  const PAGELIST_HASH_SIZE: nat := 512

  /** A page in a hash list, with the offset it was inserted under. */
  datatype Entry = Entry(offset: nat, page: nat)

  /** inode->page_list and inode->nrpages. */
  datatype Index = Index(buckets: seq<seq<Entry>>, nrPages: int)

  function Bucket(offset: nat): (k: nat)
    ensures k < PAGELIST_HASH_SIZE
  {
    offset / PAGE_SIZE % PAGELIST_HASH_SIZE
  }

  function Empty(): Index {
    Index(seq(PAGELIST_HASH_SIZE, _ => []), 0)
  }

  predicate Descending(b: seq<Entry>) {
    forall i, j :: 0 <= i < j < |b| ==> b[i].offset > b[j].offset
  }

  ghost predicate Valid(x: Index) {
    && |x.buckets| == PAGELIST_HASH_SIZE
    && (forall k :: 0 <= k < |x.buckets| ==> Descending(x.buckets[k]))
    && (forall k, e :: 0 <= k < |x.buckets| && e in x.buckets[k] ==> Bucket(e.offset) == k)
  }

  /** The index stands for the map `m` from offsets to pages. */
  ghost predicate Represents(x: Index, m: map<nat, nat>) {
    && Valid(x) && x.nrPages == |m|
    && (forall o :: o in m ==> Entry(o, m[o]) in x.buckets[Bucket(o)])
    && (forall k, e :: 0 <= k < |x.buckets| && e in x.buckets[k] ==> e.offset in m && m[e.offset] == e.page)
  }

  lemma EmptyRepresents()
    ensures Represents(Empty(), map[])
  {
  }

  /** The table is a function of the map alone: order and count leave no room. */
  lemma Canonical(x: Index, y: Index, m: map<nat, nat>)
    requires Represents(x, m) && Represents(y, m)
    ensures x == y
  {
    hide Bucket;
    forall k | 0 <= k < PAGELIST_HASH_SIZE ensures x.buckets[k] == y.buckets[k] {
      forall e ensures e in x.buckets[k] <==> e in y.buckets[k] {
        assert e in x.buckets[k] || e in y.buckets[k] ==> e == Entry(e.offset, m[e.offset]) && Bucket(e.offset) == k;
      }
      SameBucket(x.buckets[k], y.buckets[k]);
    }
  }

  lemma Tail(a: seq<Entry>)
    requires Descending(a) && a != []
    ensures Descending(a[1..]) && forall e :: e in a[1..] <==> e in a && e != a[0]
  {
    assert a == [a[0]] + a[1..];
  }

  /** Two descending lists with the same entries are equal. */
  lemma {:induction false} SameBucket(a: seq<Entry>, b: seq<Entry>)
    requires Descending(a) && Descending(b) && forall e :: e in a <==> e in b
    ensures a == b
  {
    if a == [] {
      assert forall i :: 0 <= i < |b| ==> b[i] in a;
    } else {
      assert a[0] in b && b != [] && b[0] in a;
      assert a[0] == b[0];
      Tail(a);
      Tail(b);
      SameBucket(a[1..], b[1..]);
    }
  }

  // ------------------------------------------------------------------ lookup

  lemma BucketHolds(x: Index, m: map<nat, nat>, o: nat)
    requires Represents(x, m)
    ensures |x.buckets| == PAGELIST_HASH_SIZE && Descending(x.buckets[Bucket(o)])
    ensures o in m ==> Entry(o, m[o]) in x.buckets[Bucket(o)]
    ensures forall e :: e in x.buckets[Bucket(o)] ==> e.offset in m && m[e.offset] == e.page
  {
    hide Bucket;
  }

  /** pc_getInodePage without the pin: stops at the first smaller offset. */
  method Lookup(x: Index, ghost m: map<nat, nat>, offset: nat) returns (r: Option<nat>)
    requires Represents(x, m)
    ensures r == if PageStart(offset) in m then Some(m[PageStart(offset)]) else None
  {
    var start := PageStart(offset);
    hide Bucket, PageStart, Represents;
    SameBucketAsStart(offset);
    BucketHolds(x, m, start);
    var b := x.buckets[Bucket(offset)];
    var i := 0;
    while i < |b|
      invariant 0 <= i <= |b|
      invariant forall j :: 0 <= j < i ==> b[j].offset > start
    {
      if b[i].offset == start {
        assert b[i] in b;
        return Some(b[i].page);
      } else if start > b[i].offset {
        return None;
      }
      i := i + 1;
    }
    return None;
  }

  function PageStart(offset: nat): (r: nat)
    ensures r % PAGE_SIZE == 0 && r <= offset < r + PAGE_SIZE
  {
    offset / PAGE_SIZE * PAGE_SIZE
  }

  lemma SameBucketAsStart(offset: nat)
    ensures Bucket(PageStart(offset)) == Bucket(offset)
  {
  }

  // ------------------------------------------------------------------ insertion

  /** The place before the first entry with a smaller or equal offset. */
  function Place(b: seq<Entry>, offset: nat): (i: nat)
    ensures i <= |b| && (forall j :: 0 <= j < i ==> b[j].offset > offset) && (i < |b| ==> b[i].offset <= offset)
  {
    if b == [] || b[0].offset <= offset then 0 else 1 + Place(b[1..], offset)
  }

  function Inserted(x: Index, offset: nat, page: nat): Index
    requires |x.buckets| == PAGELIST_HASH_SIZE
  {
    var b, k := x.buckets[Bucket(offset)], Bucket(offset);
    var i := Place(b, offset);
    Index(x.buckets[k := b[..i] + [Entry(offset, page)] + b[i..]], x.nrPages + 1)
  }

  lemma InsertedOrder(b: seq<Entry>, i: nat, e: Entry)
    requires Descending(b) && i <= |b|
    requires (forall j :: 0 <= j < i ==> b[j].offset > e.offset)
             && (forall j :: i <= j < |b| ==> b[j].offset < e.offset)
    ensures Descending(b[..i] + [e] + b[i..])
  {
    var b' := b[..i] + [e] + b[i..];
    assert forall j :: 0 <= j < |b'| ==> b'[j] == if j < i then b[j] else if j == i then e else b[j - 1];
  }

  lemma InsertedEntries(b: seq<Entry>, i: nat, e: Entry)
    requires i <= |b|
    ensures forall f :: f in b[..i] + [e] + b[i..] <==> f in b || f == e
  {
    assert b == b[..i] + b[i..];
  }

  /** One list replaced, and the map changed in step with it. */
  lemma Replaced(x: Index, m: map<nat, nat>, k: nat, b: seq<Entry>, m': map<nat, nat>)
    requires Represents(x, m) && k < PAGELIST_HASH_SIZE && Descending(b)
    requires forall e :: e in b ==> Bucket(e.offset) == k && e.offset in m' && m'[e.offset] == e.page
    requires forall o :: o in m' && Bucket(o) == k ==> Entry(o, m'[o]) in b
    requires forall o :: Bucket(o) != k ==> (o in m' <==> o in m) && (o in m' ==> m'[o] == m[o])
    ensures Represents(Index(x.buckets[k := b], |m'|), m')
  {
    hide Bucket, Descending;
  }

  lemma BucketInserted(b: seq<Entry>, e: Entry)
    requires Descending(b) && forall f :: f in b ==> f.offset != e.offset
    ensures var i := Place(b, e.offset);
            Descending(b[..i] + [e] + b[i..]) && forall f :: f in b[..i] + [e] + b[i..] <==> f in b || f == e
  {
    hide Place;
    var i := Place(b, e.offset);
    if i < |b| { assert b[i] in b; }
    InsertedOrder(b, i, e);
    InsertedEntries(b, i, e);
  }

  /** What one list has to do with the map. */
  lemma OneBucket(x: Index, m: map<nat, nat>, k: nat)
    requires Represents(x, m) && k < PAGELIST_HASH_SIZE
    ensures |x.buckets| == PAGELIST_HASH_SIZE && x.nrPages == |m| && Descending(x.buckets[k])
    ensures forall f :: f in x.buckets[k] ==> Bucket(f.offset) == k && f.offset in m && m[f.offset] == f.page
    ensures forall o :: o in m && Bucket(o) == k ==> Entry(o, m[o]) in x.buckets[k]
  {
    hide Bucket, Descending;
  }

  lemma InsertRepresents(x: Index, m: map<nat, nat>, offset: nat, page: nat)
    requires Represents(x, m) && offset !in m
    ensures |x.buckets| == PAGELIST_HASH_SIZE && Represents(Inserted(x, offset, page), m[offset := page])
  {
    hide Bucket, Place, Descending, Represents;
    var k, e := Bucket(offset), Entry(offset, page);
    OneBucket(x, m, k);
    BucketInserted(x.buckets[k], e);
    assert |m[offset := page]| == |m| + 1 by { assert m[offset := page].Keys == m.Keys + {offset}; }
    Replaced(x, m, k, Inserted(x, offset, page).buckets[k], m[offset := page]);
  }

  lemma PastPlace(b: seq<Entry>, offset: nat)
    requires Descending(b) && (Place(b, offset) < |b| ==> b[Place(b, offset)].offset != offset)
    ensures forall f :: f in b ==> f.offset != offset
  {
    hide Place;
    var i := Place(b, offset);
    assert forall j :: i < j < |b| ==> b[i].offset > b[j].offset;
  }

  lemma NotThere(x: Index, m: map<nat, nat>, offset: nat)
    requires Represents(x, m)
    requires var b := x.buckets[Bucket(offset)];
             Place(b, offset) < |b| ==> b[Place(b, offset)].offset != offset
    ensures offset !in m
  {
    hide Bucket, Place, Represents, Descending;
    OneBucket(x, m, Bucket(offset));
    PastPlace(x.buckets[Bucket(offset)], offset);
  }

  /** The list part of pc_insertPage. */
  method Insert(x: Index, ghost m: map<nat, nat>, offset: nat, page: nat, size: nat) returns (ok: bool, x': Index)
    requires Represents(x, m)
    ensures ok <==> offset <= size && offset !in m
    ensures Represents(x', if ok then m[offset := page] else m) && (!ok ==> x' == x)
  {
    hide Bucket, Descending;
    if offset > size {
      return false, x;
    }
    var k := Bucket(offset);
    var b := x.buckets[k];
    var i := 0;
    while i < |b| && offset <= b[i].offset
      invariant 0 <= i <= |b|
      invariant forall j :: 0 <= j < i ==> b[j].offset > offset
    {
      if offset == b[i].offset {
        assert b[i] in b;
        return false, x;
      }
      i := i + 1;
    }
    assert i == Place(b, offset);
    NotThere(x, m, offset);
    InsertRepresents(x, m, offset, page);
    return true, Index(x.buckets[k := b[..i] + [Entry(offset, page)] + b[i..]], x.nrPages + 1);
  }

  // ------------------------------------------------------------------ deletion

  /** list_del of the page and the decrement of nrpages. */
  function Delete(x: Index, e: Entry): Index
    requires |x.buckets| == PAGELIST_HASH_SIZE && e in x.buckets[Bucket(e.offset)]
  {
    var b := x.buckets[Bucket(e.offset)];
    var i := Find(b, e);
    Index(x.buckets[Bucket(e.offset) := b[..i] + b[i + 1..]], x.nrPages - 1)
  }

  lemma DeletedOrder(b: seq<Entry>, i: nat)
    requires Descending(b) && i < |b|
    ensures Descending(b[..i] + b[i + 1..])
  {
    var b' := b[..i] + b[i + 1..];
    assert forall j :: 0 <= j < |b'| ==> b'[j] == b[if j < i then j else j + 1];
  }

  lemma DeletedEntries(b: seq<Entry>, i: nat)
    requires Descending(b) && i < |b|
    ensures forall f :: f in b[..i] + b[i + 1..] <==> f in b && f != b[i]
  {
    assert b == b[..i] + [b[i]] + b[i + 1..];
    assert b[i] !in b[..i] && b[i] !in b[i + 1..];
  }

  lemma DeleteRepresents(x: Index, m: map<nat, nat>, offset: nat)
    requires Represents(x, m) && offset in m
    ensures Represents(Delete(x, Entry(offset, m[offset])), m - {offset})
  {
    hide Bucket, Find, Descending, Represents;
    var e, k := Entry(offset, m[offset]), Bucket(offset);
    OneBucket(x, m, k);
    DeletedOrder(x.buckets[k], Find(x.buckets[k], e));
    DeletedEntries(x.buckets[k], Find(x.buckets[k], e));
    assert |m - {offset}| == |m| - 1 by { assert (m - {offset}).Keys + {offset} == m.Keys; }
    Replaced(x, m, k, Delete(x, e).buckets[k], m - {offset});
  }

  // ------------------------------------------------------------------ every run

  datatype Op = Add(offset: nat, page: nat, size: nat) | Drop(offset: nat)

  /** What a run does to a plain map: a page is added only under a new offset within the file. */
  function OnMap(m: map<nat, nat>, ops: seq<Op>): map<nat, nat>
    decreases |ops|
  {
    if ops == [] then m
    else match ops[0]
         case Add(o, p, size) => OnMap(if o > size || o in m then m else m[o := p], ops[1..])
         case Drop(o) => OnMap(m - {o}, ops[1..])
  }

  /** The lists have a page under the offset: the scan stops at it. */
  predicate Contains(x: Index, offset: nat)
    requires |x.buckets| == PAGELIST_HASH_SIZE
  {
    var b := x.buckets[Bucket(offset)];
    Place(b, offset) < |b| && b[Place(b, offset)].offset == offset
  }

  /**
   What a run does to the lists, which alone decide: an insert gives way to an entry that is there, a delete unlinks it.
   */
  function OnIndex(x: Index, ops: seq<Op>): Index
    requires |x.buckets| == PAGELIST_HASH_SIZE
    decreases |ops|
  {
    if ops == [] then x
    else match ops[0]
         case Add(o, p, size) => OnIndex(if o > size || Contains(x, o) then x else Inserted(x, o, p), ops[1..])
         case Drop(o) =>
           var b := x.buckets[Bucket(o)];
           OnIndex(if Contains(x, o) then Delete(x, b[Place(b, o)]) else x, ops[1..])
  }

  lemma ContainsExactly(x: Index, m: map<nat, nat>, offset: nat)
    requires Represents(x, m)
    ensures |x.buckets| == PAGELIST_HASH_SIZE && (Contains(x, offset) <==> offset in m)
    ensures Contains(x, offset) ==> var b := x.buckets[Bucket(offset)]; b[Place(b, offset)] == Entry(offset, m[offset])
    ensures offset in m ==> Entry(offset, m[offset]) in x.buckets[Bucket(offset)]
  {
    OneBucket(x, m, Bucket(offset));
    hide Bucket, Place, Represents, Descending;
    if Contains(x, offset) {
      var b := x.buckets[Bucket(offset)];
      assert b[Place(b, offset)] in b;
    } else {
      NotThere(x, m, offset);
    }
  }

  /** Every run of inserts and deletes on the lists agrees with the run on a plain map. */
  lemma {:induction false} RunRepresents(x: Index, m: map<nat, nat>, ops: seq<Op>)
    requires Represents(x, m)
    ensures |x.buckets| == PAGELIST_HASH_SIZE && Represents(OnIndex(x, ops), OnMap(m, ops))
    decreases |ops|
  {
    hide Represents, Contains, Inserted, Delete, Bucket, Place;
    if ops == [] {
      OneBucket(x, m, 0);
    } else {
      match ops[0]
      case Add(o, p, size) =>
        ContainsExactly(x, m, o);
        if o > size || o in m {
          RunRepresents(x, m, ops[1..]);
        } else {
          InsertRepresents(x, m, o, p);
          RunRepresents(Inserted(x, o, p), m[o := p], ops[1..]);
        }
      case Drop(o) =>
        ContainsExactly(x, m, o);
        if o in m {
          DeleteRepresents(x, m, o);
          RunRepresents(Delete(x, Entry(o, m[o])), m - {o}, ops[1..]);
        } else {
          assert m - {o} == m;
          RunRepresents(x, m, ops[1..]);
        }
    }
  }
}
