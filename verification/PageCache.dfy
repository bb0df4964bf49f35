/** The page cache of mm/pagecache.cc: pages moving between a caller, the LRU lists and the inode indices. */
module PageCache {
  import opened Common
  import opened PageIndex
  import L = PageLists

  /** A page frame; `inode` is fs_inode, `count` the number of pins. Its list_type is kept with the lists. */
  datatype Page = Page(count: int, dirty: bool, inode: Option<nat>, offset: nat, reserved: bool)

  datatype Inode = Inode(size: nat, executing: bool, shortLived: bool, index: Index)

  const MAX_PAGES_SYNC: nat := 100

  // ------------------------------------------------------------------ the invariant

  predicate CachedKind(kind: nat) {
    kind == L.ACTIVE || kind == L.INACTIVE || kind == L.DIRTY
  }

  /**
   A page is reserved, held by a caller of pc_getFreePage, free, or cached; cached pages are dirty on the dirty list
   alone.
   */
  ghost predicate Role(g: Page, kind: nat, isHeld: bool) {
    if g.reserved then kind == 0 && !isHeld && g.inode.None?
    else
      && (isHeld <==> kind == 0) && (isHeld ==> !g.dirty)
      && (g.inode.Some? <==> CachedKind(kind))
      && (g.inode.Some? ==> (g.dirty <==> kind == L.DIRTY))
  }

  ghost predicate Roles(pages: seq<Page>, kind: seq<nat>, held: set<nat>) {
    && |pages| == |kind|
    && (forall p :: 0 <= p < |pages| ==> Role(pages[p], kind[p], p in held))
    && (forall p :: p in held ==> p < |pages|)
  }

  /** The pages filed under inode `f` are those that say so. */
  ghost predicate FileOk(pages: seq<Page>, f: nat, file: map<nat, nat>) {
    forall o :: o in file ==> file[o] < |pages| && pages[file[o]].inode == Some(f) && pages[file[o]].offset == o
  }

  ghost predicate PageFiled(pages: seq<Page>, files: seq<map<nat, nat>>, p: nat)
    requires p < |pages|
  {
    pages[p].inode.Some? ==>
      pages[p].inode.value < |files| && pages[p].offset in files[pages[p].inode.value]
        && files[pages[p].inode.value][pages[p].offset] == p
  }

  ghost predicate IndexOk(pages: seq<Page>, inodes: seq<Inode>, files: seq<map<nat, nat>>) {
    && |files| == |inodes|
    && (forall f :: 0 <= f < |files| ==> Represents(inodes[f].index, files[f]))
    && (forall f :: 0 <= f < |files| ==> FileOk(pages, f, files[f]))
    && (forall p :: 0 <= p < |pages| ==> PageFiled(pages, files, p))
  }

  // ------------------------------------------------------------------ what single changes keep

  function Filed(files: seq<map<nat, nat>>, f: nat, offset: nat, p: nat): seq<map<nat, nat>>
    requires f < |files|
  {
    var file: map<nat, nat> := files[f][offset := p];
    files[f := file]
  }

  /** A cached page goes to another of the three cached lists. */
  lemma CachedMoves(pages: seq<Page>, lists: L.Lists, held: set<nat>, p: nat, t: nat)
    requires L.Valid(lists) && Roles(pages, lists.kind, held) && p < |pages| && pages[p].inode.Some? && CachedKind(t)
    ensures lists.kind[p] < L.KINDS && L.Valid(L.Move(lists, p, t))
    ensures Roles(pages[p := pages[p].(dirty := t == L.DIRTY)], L.Move(lists, p, t).kind, held)
  {
    L.MoveValid(lists, p, t);
    assert Role(pages[p], lists.kind[p], p in held);
    hide L.Valid, L.Move;
  }

  /** Pins and dirty flags do not matter to the indices. */
  lemma SameFiles(pages: seq<Page>, inodes: seq<Inode>, files: seq<map<nat, nat>>, pages': seq<Page>)
    requires IndexOk(pages, inodes, files) && |pages'| == |pages|
    requires forall p :: 0 <= p < |pages| ==> pages'[p].inode == pages[p].inode && pages'[p].offset == pages[p].offset
    ensures IndexOk(pages', inodes, files)
  {
    hide Represents;
    forall f | 0 <= f < |files| ensures FileOk(pages', f, files[f]) { assert FileOk(pages, f, files[f]); }
    forall p | 0 <= p < |pages'| ensures PageFiled(pages', files, p) { assert PageFiled(pages, files, p); }
  }

  /** A page that no index mentions may change as long as it stays out of them. */
  lemma UnfiledChanges(pages: seq<Page>, inodes: seq<Inode>, files: seq<map<nat, nat>>, p: nat, g: Page)
    requires IndexOk(pages, inodes, files) && p < |pages| && pages[p].inode.None? && g.inode.None?
    ensures IndexOk(pages[p := g], inodes, files)
  {
    hide Represents;
    var pages' := pages[p := g];
    forall f | 0 <= f < |files| ensures FileOk(pages', f, files[f]) { assert FileOk(pages, f, files[f]); }
    forall r | 0 <= r < |pages'| ensures PageFiled(pages', files, r) { assert PageFiled(pages, files, r); }
  }

  lemma PageEnters(pages: seq<Page>, inodes: seq<Inode>, files: seq<map<nat, nat>>, p: nat, f: nat, offset: nat,
                   x: Index)
    requires IndexOk(pages, inodes, files) && p < |pages| && pages[p].inode.None? && f < |files| && offset !in files[f]
    requires Represents(x, files[f][offset := p])
    ensures IndexOk(pages[p := pages[p].(inode := Some(f), offset := offset)], inodes[f := inodes[f].(index := x)],
                    Filed(files, f, offset, p))
  {
    hide Represents;
    var pages' := pages[p := pages[p].(inode := Some(f), offset := offset)];
    var files' := Filed(files, f, offset, p);
    forall h | 0 <= h < |files'| ensures FileOk(pages', h, files'[h]) { assert FileOk(pages, h, files[h]); }
    forall r | 0 <= r < |pages'| ensures PageFiled(pages', files', r) { assert PageFiled(pages, files, r); }
  }

  lemma PageLeaves(pages: seq<Page>, inodes: seq<Inode>, files: seq<map<nat, nat>>, p: nat, x: Index)
    requires IndexOk(pages, inodes, files) && p < |pages| && pages[p].inode.Some? && pages[p].inode.value < |files|
    requires Represents(x, files[pages[p].inode.value] - {pages[p].offset})
    ensures var f := pages[p].inode.value;
            IndexOk(pages[p := pages[p].(inode := None)], inodes[f := inodes[f].(index := x)],
              files[f := files[f] - {pages[p].offset}])
  {
    hide Represents;
    var f := pages[p].inode.value;
    var pages', files' := pages[p := pages[p].(inode := None)], files[f := files[f] - {pages[p].offset}];
    assert PageFiled(pages, files, p);
    forall h | 0 <= h < |files'| ensures FileOk(pages', h, files'[h]) { assert FileOk(pages, h, files[h]); }
    forall r | 0 <= r < |pages'| ensures PageFiled(pages', files', r) { assert PageFiled(pages, files, r); }
  }

  /** The page's own list and holder change, nothing else. */
  lemma RoleChanges(pages: seq<Page>, kind: seq<nat>, held: set<nat>, p: nat, g: Page, t: nat, held': set<nat>)
    requires Roles(pages, kind, held) && p < |pages| && Role(g, t, p in held')
    requires forall r :: r != p ==> (r in held' <==> r in held)
    ensures Roles(pages[p := g], kind[p := t], held')
  {
  }

  /** What a cached page can count on. */
  lemma CachedFacts(pages: seq<Page>, lists: L.Lists, inodes: seq<Inode>, files: seq<map<nat, nat>>, held: set<nat>,
                    p: nat)
    requires L.Valid(lists) && Roles(pages, lists.kind, held) && IndexOk(pages, inodes, files)
    requires p < |pages| && pages[p].inode.Some?
    ensures L.Shape(lists) && |pages| == |lists.kind| && |files| == |inodes| && lists.kind[p] < L.KINDS
            && CachedKind(lists.kind[p])
    ensures p !in held && !pages[p].reserved && (pages[p].dirty <==> lists.kind[p] == L.DIRTY)
    ensures pages[p].inode.value < |inodes|
            && Represents(inodes[pages[p].inode.value].index, files[pages[p].inode.value])
    ensures pages[p].offset in files[pages[p].inode.value] && files[pages[p].inode.value][pages[p].offset] == p
  {
    hide Represents;
    assert PageFiled(pages, files, p) && Role(pages[p], lists.kind[p], p in held);
  }

  /** The head of a list of cached pages is a cached page. */
  lemma HeadCached(pages: seq<Page>, lists: L.Lists, inodes: seq<Inode>, files: seq<map<nat, nat>>, held: set<nat>,
                   t: nat)
    requires L.Valid(lists) && Roles(pages, lists.kind, held) && IndexOk(pages, inodes, files)
    requires CachedKind(t) && lists.queues[t] != []
    ensures |pages| == |lists.kind| && |files| == |inodes|
    ensures var p := lists.queues[t][0];
            && p < |pages| && lists.kind[p] == t && pages[p].inode.Some? && pages[p].inode.value < |inodes|
            && (pages[p].dirty <==> t == L.DIRTY) && p !in held
  {
    L.HeadKind(lists, t);
    var p := lists.queues[t][0];
    assert Role(pages[p], lists.kind[p], p in held);
    hide L.Valid, Roles, IndexOk;
    CachedFacts(pages, lists, inodes, files, held, p);
  }

  lemma SizeOf(pages: seq<Page>, kind: seq<nat>, held: set<nat>)
    requires Roles(pages, kind, held)
    ensures |pages| == |kind|
  {
  }

  lemma HeldFacts(pages: seq<Page>, lists: L.Lists, held: set<nat>, p: nat)
    requires L.Valid(lists) && Roles(pages, lists.kind, held) && p in held
    ensures L.Shape(lists) && p < |pages| == |lists.kind| && lists.kind[p] == 0
    ensures pages[p].inode.None? && !pages[p].reserved && !pages[p].dirty
  {
    assert p < |pages| && Role(pages[p], lists.kind[p], true);
  }

  /** The index without a page it holds. */
  lemma Unfiles(x: Index, file: map<nat, nat>, offset: nat)
    requires Represents(x, file) && offset in file
    ensures |x.buckets| == PAGELIST_HASH_SIZE && Entry(offset, file[offset]) in x.buckets[Bucket(offset)]
    ensures Represents(Delete(x, Entry(offset, file[offset])), file - {offset})
  {
    DeleteRepresents(x, file, offset);
  }

  /** Every page that is not reserved is on exactly one list, once, or held by one caller and on none. */
  lemma ExactlyOnePlace(pages: seq<Page>, lists: L.Lists, held: set<nat>, p: nat)
    requires L.Valid(lists) && Roles(pages, lists.kind, held) && p < |pages| && !pages[p].reserved
    ensures forall t :: 0 <= t < L.KINDS ==> (p in lists.queues[t] <==> t == lists.kind[p] != 0)
    ensures p in held <==> forall t :: 0 <= t < L.KINDS ==> p !in lists.queues[t]
    ensures forall t :: 0 <= t < L.KINDS ==> Distinct(lists.queues[t]) && lists.counts[t] == |lists.queues[t]|
    ensures pages[p].inode.Some? ==> (pages[p].dirty <==> p in lists.queues[L.DIRTY])
  {
    assert L.PageOk(lists, p) && Role(pages[p], lists.kind[p], p in held);
    forall t | 0 <= t < L.KINDS
      ensures p in lists.queues[t] <==> t == lists.kind[p] != 0
      ensures Distinct(lists.queues[t]) && lists.counts[t] == |lists.queues[t]|
    {
      assert L.QueueOk(lists, t);
    }
  }

  // ------------------------------------------------------------------ pages by the flags of their inode

  /** `InUse`: pinned, or of an executing file, so that pc_deletePage would refuse the page. */
  datatype Flag = ShortLived | Executing | InUse

  predicate Has(pages: seq<Page>, inodes: seq<Inode>, p: nat, flag: Flag) {
    && p < |pages|
    && (|| (flag.InUse? && pages[p].count != 0)
        || (&& pages[p].inode.Some? && pages[p].inode.value < |inodes|
            && var n := inodes[pages[p].inode.value];
               if flag.ShortLived? then n.shortLived else n.executing))
  }

  /** The pages of `ps` that have the flag, or have it not, in order. */
  function Those(ps: seq<nat>, pages: seq<Page>, inodes: seq<Inode>, flag: Flag, value: bool): (r: seq<nat>)
    ensures |r| <= |ps|
  {
    if ps == [] then []
    else
      var m := |ps| - 1;
      Those(ps[..m], pages, inodes, flag, value) + if Has(pages, inodes, ps[m], flag) == value then [ps[m]] else []
  }

  lemma ThoseGrow(ps: seq<nat>, p: nat, pages: seq<Page>, inodes: seq<Inode>, flag: Flag, value: bool)
    ensures Those(ps + [p], pages, inodes, flag, value) ==
            Those(ps, pages, inodes, flag, value) + if Has(pages, inodes, p, flag) == value then [p] else []
  {
    assert (ps + [p])[..|ps|] == ps;
  }

  lemma {:induction false} NoneOfThose(ps: seq<nat>, pages: seq<Page>, inodes: seq<Inode>, flag: Flag, value: bool)
    ensures Those(ps, pages, inodes, flag, value) == [] <==> forall i :: 0 <= i < |ps| ==>
            Has(pages, inodes, ps[i], flag) != value
    ensures |Those(ps, pages, inodes, flag, value)| + |Those(ps, pages, inodes, flag, !value)| == |ps|
  {
    if ps != [] {
      var m := |ps| - 1;
      NoneOfThose(ps[..m], pages, inodes, flag, value);
      assert ps == ps[..m] + [ps[m]];
    }
  }

  // ------------------------------------------------------------------ the cache

  class PageCache {
    var pages: seq<Page>
    var lists: L.Lists
    var inodes: seq<Inode>
    const total: nat
    ghost var held: set<nat>
    ghost var files: seq<map<nat, nat>>

    ghost predicate Valid()
      reads this
    {
      L.Valid(lists) && Roles(pages, lists.kind, held) && IndexOk(pages, inodes, files)
    }

    predicate Executing(p: nat)
      requires p < |pages| && pages[p].inode.Some? && pages[p].inode.value < |inodes|
      reads this
    {
      inodes[pages[p].inode.value].executing
    }

    /** pc_init: the pages behind the reserved ones go to the free list. */
    constructor (totalPages: nat, reserved: nat)
      requires reserved <= totalPages
      ensures Valid() && held == {} && inodes == [] && total == totalPages - reserved == |lists.queues[L.FREE]|
      ensures |pages| == totalPages && forall p :: 0 <= p < totalPages ==> pages[p].reserved == (p < reserved)
      ensures forall t :: 0 <= t < L.KINDS && t != L.FREE ==> lists.queues[t] == []
    {
      pages := seq(totalPages, p => Page(0, false, None, 0, p < reserved));
      lists := L.Lists([[], [], [], [], []], [0, 0, 0, 0, 0], seq(totalPages, _ => 0));
      inodes := [];
      files := [];
      held := {};
      total := totalPages - reserved;
      new;
      var i := reserved;
      while i < totalPages
        invariant reserved <= i <= totalPages && |lists.kind| == totalPages && L.Valid(lists)
        invariant forall p :: 0 <= p < totalPages ==> lists.kind[p] == if reserved <= p < i then L.FREE else 0
        invariant |lists.queues[L.FREE]| == i - reserved
        invariant forall t :: 0 <= t < L.KINDS && t != L.FREE ==> lists.queues[t] == []
        invariant held == {} && inodes == [] && files == []
        invariant |pages| == totalPages && forall p :: 0 <= p < totalPages ==>
                  pages[p] == Page(0, false, None, 0, p < reserved)
      {
        L.AddValid(lists, i, L.FREE);
        lists := L.Add(lists, i, L.FREE);
        i := i + 1;
      }
    }

    /** A new inode with no pages. */
    method NewInode(size: nat) returns (f: nat)
      requires Valid()
      modifies `inodes, `files
      ensures Valid() && f == |old(inodes)| && inodes == old(inodes) + [Inode(size, false, false, Empty())]
              && files == old(files) + [map[]]
    {
      EmptyRepresents();
      f := |inodes|;
      hide Represents;
      forall h | 0 <= h < |files| ensures FileOk(pages, h, files[h]) { assert FileOk(pages, h, files[h]); }
      forall p | 0 <= p < |pages| ensures PageFiled(pages, files + [map[]], p) { assert PageFiled(pages, files, p); }
      inodes := inodes + [Inode(size, false, false, Empty())];
      files := files + [map[]];
    }

    /** The size and the flags of an inode are set by the file system at any time. */
    method SetInode(f: nat, size: nat, executing: bool, shortLived: bool)
      requires Valid() && f < |inodes|
      modifies `inodes
      ensures Valid() && inodes == old(inodes)[f := Inode(size, executing, shortLived, old(inodes)[f].index)]
    {
      hide Represents;
      inodes := inodes[f := Inode(size, executing, shortLived, inodes[f].index)];
    }

    /** pc_getInodePage: the page of the file that holds `offset`, pinned. */
    method GetInodePage(f: nat, offset: nat) returns (r: Option<nat>)
      requires Valid() && f < |inodes|
      modifies `pages
      ensures Valid() && f < |files|
      ensures r == if PageStart(offset) in files[f] then Some(files[f][PageStart(offset)]) else None
      ensures r.None? ==> pages == old(pages)
      ensures r.Some? ==>
                && r.value < |old(pages)|
                && pages == old(pages)[r.value := old(pages)[r.value].(count := old(pages)[r.value].count + 1)]
    {
      hide L.Valid, Represents;
      r := Lookup(inodes[f].index, files[f], offset);
      if r.Some? {
        assert FileOk(pages, f, files[f]);
        Pin(r.value, 1);
      }
    }

    method PutPage(p: nat)
      requires Valid() && p < |pages| && pages[p].inode.Some?
      modifies `pages
      ensures Valid() && pages == old(pages)[p := old(pages)[p].(count := old(pages)[p].count - 1)]
    {
      Pin(p, -1);
    }

    method Pin(p: nat, delta: int)
      requires Valid() && p < |pages| && pages[p].inode.Some?
      modifies `pages
      ensures Valid() && pages == old(pages)[p := old(pages)[p].(count := old(pages)[p].count + delta)]
    {
      hide L.Valid, Represents;
      var g := pages[p].(count := pages[p].count + delta);
      SameFiles(pages, inodes, files, pages[p := g]);
      assert Role(pages[p], lists.kind[p], p in held);
      RoleChanges(pages, lists.kind, held, p, g, lists.kind[p], held);
      assert lists.kind[p := lists.kind[p]] == lists.kind;
      pages := pages[p := g];
    }

    /** pc_pageDirted; it takes any page, and only a cached one belongs on the dirty list. */
    method PageDirted(p: nat)
      requires Valid() && p < |pages|
      modifies `pages, `lists
      ensures pages == old(pages)[p := old(pages)[p].(dirty := true)]
      ensures p < |old(lists).kind| && old(lists).kind[p] < L.KINDS && lists == L.Move(old(lists), p, L.DIRTY)
      ensures L.Valid(lists) && (Valid() <==> old(pages)[p].inode.Some?)
    {
      L.MoveValid(lists, p, L.DIRTY);
      hide L.Valid, L.Move, IndexOk, Represents;
      if pages[p].inode.Some? {
        CachedMoves(pages, lists, held, p, L.DIRTY);
      }
      SameFiles(pages, inodes, files, pages[p := pages[p].(dirty := true)]);
      lists := L.Move(lists, p, L.DIRTY);
      pages := pages[p := pages[p].(dirty := true)];
    }

    method PageCleaned(p: nat)
      requires Valid() && p < |pages| && pages[p].inode.Some?
      modifies `pages, `lists
      ensures Valid() && pages == old(pages)[p := old(pages)[p].(dirty := false)]
      ensures pages[p].inode.value < |inodes| && old(lists).kind[p] < L.KINDS
      ensures lists == L.Move(old(lists), p, if inodes[pages[p].inode.value].shortLived then L.ACTIVE else L.INACTIVE)
    {
      hide L.Valid, L.Move, Roles, IndexOk, Represents;
      CachedFacts(pages, lists, inodes, files, held, p);
      var t := if inodes[pages[p].inode.value].shortLived then L.ACTIVE else L.INACTIVE;
      CachedMoves(pages, lists, held, p, t);
      SameFiles(pages, inodes, files, pages[p := pages[p].(dirty := false)]);
      lists := L.Move(lists, p, t);
      pages := pages[p := pages[p].(dirty := false)];
    }

    method PutFreePage(p: nat)
      requires Valid() && p in held
      modifies `lists, `held
      ensures Valid() && held == old(held) - {p} && p < |old(lists).kind| && lists == L.Add(old(lists), p, L.FREE)
    {
      assert Role(pages[p], lists.kind[p], true);
      L.AddValid(lists, p, L.FREE);
      RoleChanges(pages, lists.kind, held, p, pages[p], L.FREE, held - {p});
      assert pages[p := pages[p]] == pages;
      lists := L.Add(lists, p, L.FREE);
      held := held - {p};
    }

    /** _pagelist_remove of the free list and page_init. */
    method TakeFree() returns (r: Option<nat>)
      requires Valid()
      modifies `pages, `lists, `held
      ensures Valid()
      ensures old(lists).queues[L.FREE] == [] ==>
              r.None? && pages == old(pages) && lists == old(lists) && held == old(held)
      ensures old(lists).queues[L.FREE] != [] ==>
                && r == Some(old(lists).queues[L.FREE][0]) && r.value < |old(pages)| && r.value !in old(held)
                && held == old(held) + {r.value}
                && lists.queues == old(lists).queues[L.FREE := old(lists).queues[L.FREE][1..]]
                && pages == old(pages)[r.value := Page(0, false, None, 0, false)]
                && lists.kind == old(lists).kind[r.value := 0]
    {
      if lists.queues[L.FREE] == [] {
        return None;
      }
      var p := lists.queues[L.FREE][0];
      L.HeadKind(lists, L.FREE);
      L.HeadGoes(lists.queues[L.FREE]);
      L.UnlinkValid(lists, p);
      assert Role(pages[p], lists.kind[p], p in held);
      var g := Page(0, false, None, 0, false);
      UnfiledChanges(pages, inodes, files, p, g);
      RoleChanges(pages, lists.kind, held, p, g, 0, held + {p});
      lists := L.Unlink(lists, p);
      pages := pages[p := g];
      held := held + {p};
      return Some(p);
    }

    method DeletePage(p: nat) returns (ok: bool)
      requires Valid() && p < |pages| && pages[p].inode.Some?
      modifies `pages, `lists, `inodes, `files
      ensures Valid() && old(pages)[p].inode.value < |old(inodes)|
      ensures ok <==> old(pages)[p].count == 0 && !old(Executing(p))
      ensures !ok ==> pages == old(pages) && lists == old(lists) && inodes == old(inodes) && files == old(files)
      ensures ok ==>
                var f, o := old(pages)[p].inode.value, old(pages)[p].offset;
                && f < |old(files)| && |inodes| == |old(inodes)| && old(lists).kind[p] < L.KINDS
                && pages == old(pages)[p := old(pages)[p].(inode := None)] && lists == L.Move(old(lists), p, L.FREE)
                && files == old(files)[f := old(files)[f] - {o}]
                && forall h :: 0 <= h < |inodes| ==> inodes[h] == old(inodes)[h].(index := inodes[h].index)
    {
      hide L.Valid, L.Move, Roles, IndexOk, Represents, Bucket, Delete;
      CachedFacts(pages, lists, inodes, files, held, p);
      var f, o := pages[p].inode.value, pages[p].offset;
      if pages[p].count != 0 || inodes[f].executing {
        return false;
      }
      L.MoveValid(lists, p, L.FREE);
      Unfiles(inodes[f].index, files[f], o);
      var x := Delete(inodes[f].index, Entry(o, p));
      PageLeaves(pages, inodes, files, p, x);
      RoleChanges(pages, lists.kind, held, p, pages[p].(inode := None), L.FREE, held);
      lists := L.Move(lists, p, L.FREE);
      inodes := inodes[f := inodes[f].(index := x)];
      files := files[f := files[f] - {o}];
      pages := pages[p := pages[p].(inode := None)];
      return true;
    }

    method InsertPage(f: nat, p: nat, offset: nat) returns (ok: bool)
      requires Valid() && p in held && f < |inodes|
      modifies `pages, `lists, `inodes, `files, `held
      ensures Valid() && f < |old(files)| && p < |old(pages)| && p < |old(lists).kind|
      ensures ok <==> offset <= old(inodes)[f].size && offset !in old(files)[f]
      ensures !ok ==>
                && pages == old(pages) && lists == old(lists) && inodes == old(inodes) && files == old(files)
                && held == old(held)
      ensures ok ==>
                && pages == old(pages)[p := old(pages)[p].(inode := Some(f), offset := offset)]
                && files == Filed(old(files), f, offset, p) && held == old(held) - {p}
                && lists == L.Add(old(lists), p, if old(inodes)[f].executing then L.ACTIVE else L.INACTIVE)
                && |inodes| == |old(inodes)|
                && forall h :: 0 <= h < |inodes| ==> inodes[h] == old(inodes)[h].(index := inodes[h].index)
    {
      hide L.Valid, L.Add, Roles, Represents;
      HeldFacts(pages, lists, held, p);
      var x;
      ok, x := Insert(inodes[f].index, files[f], offset, p, inodes[f].size);
      if !ok {
        return;
      }
      var t := if inodes[f].executing then L.ACTIVE else L.INACTIVE;
      L.AddValid(lists, p, t);
      PageEnters(pages, inodes, files, p, f, offset, x);
      RoleChanges(pages, lists.kind, held, p, pages[p].(inode := Some(f), offset := offset), t, held - {p});
      lists := L.Add(lists, p, t);
      inodes := inodes[f := inodes[f].(index := x)];
      files := Filed(files, f, offset, p);
      pages := pages[p := pages[p].(inode := Some(f), offset := offset)];
      held := held - {p};
    }

    /**
     fs_data_sync; 0 asks for all dirty pages. `outcomes` says of each write in turn whether it comes back whole; one
     that does not leaves the page at the head, where it is tried again. The writes behind the last outcome succeed.
     */
    method DataSync(max: nat, outcomes: seq<bool>) returns (n: nat, left: seq<bool>)
      requires Valid()
      modifies `pages, `lists
      ensures Valid() && OnlyDirtyFlags(old(pages), pages)
      ensures n == if max > 0 && |old(lists).queues[L.DIRTY]| > max then max + 1 else |old(lists).queues[L.DIRTY]|
      ensures Synced(old(lists), old(pages), inodes, n, lists)
    {
      hide L.Valid, L.Move, Roles, IndexOk, Represents, Those;
      n, left := 0, outcomes;
      L.ShapeOf(lists);
      ghost var dirty := lists.queues[L.DIRTY];
      assert dirty[..0] == [] && dirty[0..] == dirty;
      while lists.queues[L.DIRTY] != [] && (max == 0 || n <= max)
        invariant Valid() && OnlyDirtyFlags(old(pages), pages)
        invariant L.Shape(lists) && n <= |dirty| && (max > 0 ==> n <= max + 1)
        invariant Synced(old(lists), old(pages), inodes, n, lists)
        decreases |dirty| - n, |left|
      {
        var p := lists.queues[L.DIRTY][0];
        HeadCached(pages, lists, inodes, files, held, L.DIRTY);
        var whole := left == [] || left[0];
        left := if left == [] then [] else left[1..];
        if whole {
          SyncStep(old(lists), old(pages), lists, inodes, n,
                   if Has(old(pages), inodes, p, ShortLived) then L.ACTIVE else L.INACTIVE);
          PageCleaned(p);
          L.ShapeOf(lists);
          n := n + 1;
        }
      }
    }

    /** The second part of pc_housekeep: the oldest tenth of the active pages, unless executing, become inactive. */
    method Demote() returns (ghost k: nat)
      requires Valid()
      modifies `lists
      ensures Valid() && Demoted(old(lists), pages, inodes, k, lists)
      ensures k == DemoteTurns(old(lists).queues[L.ACTIVE], pages, inodes, 0)
      ensures 10 * k >= |lists.queues[L.ACTIVE]| && (k > 0 ==> 10 * (k - 1) < |old(lists).queues[L.ACTIVE]|)
    {
      hide L.Valid, L.Move, Roles, IndexOk, Represents, Those, DemoteTurns;
      L.ShapeOf(lists);
      var i := 0;
      DemoteNone(lists, pages, inodes);
      while 10 * i < lists.counts[L.ACTIVE]
        invariant Valid() && L.Counted(lists) && Demoted(old(lists), pages, inodes, i, lists)
        invariant i > 0 ==> 10 * (i - 1) < |old(lists).queues[L.ACTIVE]|
        invariant DemoteTurns(old(lists).queues[L.ACTIVE], pages, inodes, i) ==
                  DemoteTurns(old(lists).queues[L.ACTIVE], pages, inodes, 0)
        decreases |old(lists).queues[L.ACTIVE]| - i
      {
        DemoteSize(old(lists), pages, inodes, i, lists);
        DemoteTurn(old(lists), pages, inodes, i, lists);
        var p := lists.queues[L.ACTIVE][0];
        HeadCached(pages, lists, inodes, files, held, L.ACTIVE);
        var t := if inodes[pages[p].inode.value].executing then L.ACTIVE else L.INACTIVE;
        DemoteStep(old(lists), pages, lists, inodes, i, t);
        CachedMoves(pages, lists, held, p, t);
        assert pages[p := pages[p].(dirty := false)] == pages;
        lists := L.Move(lists, p, t);
        L.ShapeOf(lists);
        i := i + 1;
      }
      DemoteTurn(old(lists), pages, inodes, i, lists);
      k := i;
    }

    /** One turn of the reclaim loop: the oldest inactive page is rotated to the tail and, if it may go, freed. */
    method ReclaimHead() returns (ok: bool)
      requires Valid() && lists.queues[L.INACTIVE] != []
      modifies `pages, `lists, `inodes, `files
      ensures Valid() && SameFlags(old(inodes), inodes) && |pages| == |old(pages)|
      ensures Reclaimed(old(pages), old(lists).kind, old(inodes), pages, lists.kind)
      ensures ok <==> !Has(old(pages), old(inodes), old(lists).queues[L.INACTIVE][0], InUse)
      ensures !ok ==> pages == old(pages) && inodes == old(inodes)
      ensures lists.queues[L.INACTIVE] ==
              old(lists).queues[L.INACTIVE][1..] + if ok then [] else [old(lists).queues[L.INACTIVE][0]]
      ensures lists.queues[L.FREE] == old(lists).queues[L.FREE] + if ok then [old(lists).queues[L.INACTIVE][0]] else []
      ensures lists.queues[L.ACTIVE] == old(lists).queues[L.ACTIVE]
      ensures lists.queues[L.DIRTY] == old(lists).queues[L.DIRTY]
    {
      hide L.Valid, L.Move, Roles, IndexOk, Represents;
      L.ShapeOf(lists);
      var p := lists.queues[L.INACTIVE][0];
      HeadCached(pages, lists, inodes, files, held, L.INACTIVE);
      L.HeadMoves(lists, L.INACTIVE, L.INACTIVE);
      CachedMoves(pages, lists, held, p, L.INACTIVE);
      assert pages[p := pages[p].(dirty := false)] == pages;
      L.MoveValid(lists, p, L.INACTIVE);
      assert lists.kind[p := L.INACTIVE] == lists.kind;
      lists := L.Move(lists, p, L.INACTIVE);
      L.TailMoves(lists, L.INACTIVE, L.FREE);
      L.MoveValid(lists, p, L.FREE);
      ok := DeletePage(p);
    }

    /** The third part of pc_housekeep; it frees the idle pages among those it comes past. */
    method Reclaim() returns (count: nat)
      requires Valid() && (10 * |lists.queues[L.FREE]| >= total || lists.queues[L.INACTIVE] != [])
      modifies `pages, `lists, `inodes, `files
      ensures Valid() && SameFlags(old(inodes), inodes) && |pages| == |old(pages)|
      ensures Reclaimed(old(pages), old(lists).kind, old(inodes), pages, lists.kind)
      ensures var ps := old(lists).queues[L.INACTIVE];
              && count == ReclaimTurns(ps, old(pages), old(inodes), |old(lists).queues[L.FREE]|, total, 0)
              && lists.queues[L.FREE] == old(lists).queues[L.FREE] + Idle(ps, old(pages), old(inodes), count)
              && lists.queues[L.INACTIVE] == Left(ps, old(pages), old(inodes), count)
      ensures lists.queues[L.ACTIVE] == old(lists).queues[L.ACTIVE]
      ensures lists.queues[L.DIRTY] == old(lists).queues[L.DIRTY]
    {
      hide L.Valid, Roles, IndexOk, Represents, Has, Those, Reclaimed, ReclaimTurns;
      NothingReclaimed(pages, lists.kind, inodes, held);
      L.ShapeOf(lists);
      SizeOf(pages, lists.kind, held);
      ghost var lists0, pages0, inodes0 := lists, pages, inodes;
      ghost var ps, free := lists.queues[L.INACTIVE], |lists.queues[L.FREE]|;
      count := 0;
      NoTurnYet(ps, pages, inodes);
      while 10 * lists.counts[L.FREE] < total
        invariant Valid() && L.Counted(lists) && SameFlags(inodes0, inodes) && |pages| == |pages0|
        invariant Reclaimed(pages0, lists0.kind, inodes0, pages, lists.kind)
        invariant count <= |lists.queues[L.INACTIVE]| && count <= |ps|
        invariant lists.queues[L.FREE] == lists0.queues[L.FREE] + Idle(ps, pages0, inodes0, count)
        invariant lists.queues[L.INACTIVE] == ps[count..] + Those(ps[..count], pages0, inodes0, InUse, true)
        invariant lists.queues[L.ACTIVE] == lists0.queues[L.ACTIVE] && lists.queues[L.DIRTY] == lists0.queues[L.DIRTY]
        invariant ReclaimTurns(ps, pages0, inodes0, free, total, count) ==
                  ReclaimTurns(ps, pages0, inodes0, free, total, 0)
        invariant 10 * |lists.queues[L.FREE]| >= total || lists.queues[L.INACTIVE] != []
        decreases |lists.queues[L.INACTIVE]| - count
      {
        ghost var pages1, kind1, inodes1, inactive1 := pages, lists.kind, inodes, lists.queues[L.INACTIVE];
        TurnTaken(ps, pages0, inodes0, free, total, count, inactive1);
        HeadAsBefore(lists0, pages0, inodes0, lists, pages, inodes, inactive1[0]);
        var ok := ReclaimHead();
        ReclaimMore(pages0, lists0.kind, inodes0, pages1, kind1, inodes1, pages, lists.kind);
        L.ShapeOf(lists);
        count := count + 1;
        if count > lists.counts[L.INACTIVE] {
          TurnsOver(ps, pages0, inodes0, free, total, count);
          return;
        }
      }
      TurnsOver(ps, pages0, inodes0, free, total, count);
    }

    /** The first part of pc_housekeep. */
    method SyncDirty(outcomes: seq<bool>)
      requires Valid()
      modifies `pages, `lists
      ensures Valid() && OnlyDirtyFlags(old(pages), pages)
      ensures Synced(old(lists), old(pages), inodes,
                     if SyncNeeded(old(lists), total) then SyncCount(old(lists)) else 0, lists)
    {
      hide L.Valid, Roles, IndexOk, Represents, Those;
      L.ShapeOf(lists);
      ghost var lists0, pages0 := lists, pages;
      ghost var n: nat := 0;
      SyncNone(lists, pages, inodes);
      var ret, left := MAX_PAGES_SYNC, outcomes;
      while ret == MAX_PAGES_SYNC && (10 * lists.counts[L.FREE] < total || 5 * lists.counts[L.DIRTY] > total)
        invariant Valid() && L.Counted(lists) && OnlyDirtyFlags(pages0, pages)
        invariant n <= |lists0.queues[L.DIRTY]| && Synced(lists0, pages0, inodes, n, lists)
        invariant (ret == MAX_PAGES_SYNC && n == 0 && lists == lists0 && pages == pages0)
               || (SyncNeeded(lists0, total) && n == SyncCount(lists0)
                 && (ret == MAX_PAGES_SYNC ==> lists.queues[L.DIRTY] == []))
        decreases if ret == MAX_PAGES_SYNC then 1 else 0, |lists.queues[L.DIRTY]|
      {
        ghost var lists1, pages1 := lists, pages;
        ret, left := DataSync(MAX_PAGES_SYNC, left);
        L.ShapeOf(lists);
        if n == 0 && lists1 == lists0 && pages1 == pages0 {
          n := ret;
        } else {
          SyncedAgain(lists0, pages0, lists1, pages1, inodes, n, lists);
        }
      }
    }

    /** pc_housekeep; `crashed`: the reclaim loop would take a page from an empty inactive list. */
    method Housekeep(outcomes: seq<bool>) returns (crashed: bool)
      requires Valid()
      modifies `pages, `lists, `inodes, `files
      ensures Valid() && SameFlags(old(inodes), inodes)
      ensures crashed <==> Starved(old(lists), old(pages), old(inodes), total)
      ensures crashed ==> lists.queues[L.FREE] == old(lists).queues[L.FREE] && total > 0
      ensures FreesOnlyIdle(old(pages), old(lists).kind, old(inodes), pages, lists.kind)
      ensures old(lists).queues[L.FREE] <= lists.queues[L.FREE]
      ensures var ps, free := Candidates(old(lists), old(pages), old(inodes), total), old(lists).queues[L.FREE];
              lists.queues[L.FREE] ==
              free + Idle(ps, old(pages), old(inodes),
                          ReclaimTurns(ps, old(pages), old(inodes), |free|, total, 0))
      ensures var ps, free := Candidates(old(lists), old(pages), old(inodes), total), old(lists).queues[L.FREE];
              lists.queues[L.INACTIVE] ==
              Left(ps, old(pages), old(inodes), ReclaimTurns(ps, old(pages), old(inodes), |free|, total, 0))
      ensures lists.queues[L.ACTIVE] == ActiveLeft(old(lists), old(pages), old(inodes), total)
      ensures lists.queues[L.DIRTY] ==
              old(lists).queues[L.DIRTY][if SyncNeeded(old(lists), total) then SyncCount(old(lists)) else 0..]
      ensures lists.queues[L.FREE] == old(lists).queues[L.FREE] <==>
              || 10 * |old(lists).queues[L.FREE]| >= total
              || AllBusy(Candidates(old(lists), old(pages), old(inodes), total), old(pages), old(inodes))
    {
      hide L.Valid, Roles, IndexOk, Represents, Has, Those, AllBusy, Idle, Left, ReclaimTurns, Candidates, ActiveLeft;
      hide Starved;
      L.ShapeOf(lists);
      ghost var lists0, pages0, inodes0 := lists, pages, inodes;
      SyncDirty(outcomes);
      ghost var lists1 := lists;
      L.ShapeOf(lists);
      ghost var k := 0;
      DemoteNone(lists, pages, inodes);
      if 10 * lists.counts[L.INACTIVE] < 4 * total {
        k := Demote();
      }
      L.ShapeOf(lists);
      ghost var pages2, kind2 := pages, lists.kind;
      KindsKept(pages0, lists0, pages, lists, held);
      StarvedExactly(lists0, pages0, inodes0, total, lists1, pages, k, lists);
      CandidatesAre(lists0, pages0, inodes0, total, lists1, pages, k, lists);
      ghost var ps, free := lists.queues[L.INACTIVE], lists.queues[L.FREE];
      SameTurns(ps, pages0, pages, inodes, |free|, total, 0);
      NothingFreed(ps, pages0, inodes, |free|, total);
      crashed := 10 * lists.counts[L.FREE] < total && lists.queues[L.INACTIVE] == [];
      if !crashed {
        var _ := Reclaim();
        L.ShapeOf(lists);
      } else {
        ReclaimNone(pages, lists.kind, inodes);
        NobodyBusy(pages, inodes);
        NobodyBusy(pages0, inodes);
        NoneLeft(pages0, inodes, |free|, total);
      }
      FreedIdle(pages0, lists0.kind, inodes0, pages2, kind2, pages, lists.kind);
    }

    /** pc_getFreePage; None stands for the BUG() or the crash in pc_housekeep. */
    method GetFreePage(outcomes: seq<bool>) returns (r: Option<nat>)
      requires Valid()
      modifies `pages, `lists, `inodes, `files, `held
      ensures Valid() && SameFlags(old(inodes), inodes)
      ensures r.None? ==> old(lists).queues[L.FREE] == [] && held == old(held)
      ensures r.None? <==>
              && old(lists).queues[L.FREE] == []
              && (total == 0
                  || AllBusy(Candidates(old(lists), old(pages), old(inodes), total), old(pages), old(inodes)))
      ensures old(lists).queues[L.FREE] != [] ==>
                && r == Some(old(lists).queues[L.FREE][0]) && r.value < |old(pages)| && inodes == old(inodes)
                && lists.queues == old(lists).queues[L.FREE := old(lists).queues[L.FREE][1..]]
                && pages == old(pages)[r.value := Page(0, false, None, 0, false)]
      ensures old(lists).queues[L.FREE] == [] && r.Some? ==>
                var ps := Candidates(old(lists), old(pages), old(inodes), total);
                [r.value] + lists.queues[L.FREE] ==
                Idle(ps, old(pages), old(inodes), ReclaimTurns(ps, old(pages), old(inodes), 0, total, 0))
      ensures r.Some? ==> r.value < |pages| && r.value !in old(held) && held == old(held) + {r.value}
      ensures r.Some? ==> pages[r.value] == Page(0, false, None, 0, false)
    {
      hide AllBusy, Candidates, Starved, L.Valid, Roles, IndexOk, Idle, Left, ReclaimTurns, ActiveLeft;
      NobodyBusy(pages, inodes);
      r := TakeFree();
      if r.None? {
        var crashed := Housekeep(outcomes);
        L.ShapeOf(lists);
        ghost var free := lists.queues[L.FREE];
        assert forall q: seq<nat> :: [] + q == q;
        if !crashed {
          r := TakeFree();
          assert free != [] ==> [free[0]] + free[1..] == free;
        }
      }
    }
  }

  ghost predicate OnlyDirtyFlags(before: seq<Page>, after: seq<Page>) {
    |after| == |before| && forall p :: 0 <= p < |after| ==> after[p] == before[p].(dirty := after[p].dirty)
  }

  /** The first `n` dirty pages have gone to the tails of the active and the inactive list. */
  ghost predicate Synced(before: L.Lists, pages: seq<Page>, inodes: seq<Inode>, n: nat, after: L.Lists) {
    && |before.queues| == |after.queues| == L.KINDS && n <= |before.queues[L.DIRTY]|
    && var gone := before.queues[L.DIRTY][..n];
       && after.queues[L.FREE] == before.queues[L.FREE]
       && after.queues[L.DIRTY] == before.queues[L.DIRTY][n..]
       && after.queues[L.ACTIVE] == before.queues[L.ACTIVE] + Those(gone, pages, inodes, ShortLived, true)
       && after.queues[L.INACTIVE] == before.queues[L.INACTIVE] + Those(gone, pages, inodes, ShortLived, false)
  }

  /** One more page written. */
  lemma SyncStep(before: L.Lists, pages: seq<Page>, lists: L.Lists, inodes: seq<Inode>, n: nat, t: nat)
    requires L.Valid(lists) && Synced(before, pages, inodes, n, lists) && lists.queues[L.DIRTY] != []
    requires t == if Has(pages, inodes, lists.queues[L.DIRTY][0], ShortLived) then L.ACTIVE else L.INACTIVE
    ensures var p := lists.queues[L.DIRTY][0];
            p < |lists.kind| && lists.kind[p] < L.KINDS && Synced(before, pages, inodes, n + 1, L.Move(lists, p, t))
  {
    var p := lists.queues[L.DIRTY][0];
    var dirty := before.queues[L.DIRTY];
    hide L.Move, L.Valid, Has, Those;
    L.HeadMoves(lists, L.DIRTY, t);
    assert p == dirty[n] && dirty[..n + 1] == dirty[..n] + [p];
    ThoseGrow(dirty[..n], p, pages, inodes, ShortLived, true);
    ThoseGrow(dirty[..n], p, pages, inodes, ShortLived, false);
    assert dirty[n..][1..] == dirty[n + 1..];
  }

  /** The first `k` active pages have been looked at: executing ones are at the tail again, the others inactive. */
  ghost predicate Demoted(before: L.Lists, pages: seq<Page>, inodes: seq<Inode>, k: nat, after: L.Lists) {
    && |before.queues| == |after.queues| == L.KINDS && k <= |before.queues[L.ACTIVE]|
    && var seen := before.queues[L.ACTIVE][..k];
       && after.queues[L.FREE] == before.queues[L.FREE] && after.queues[L.DIRTY] == before.queues[L.DIRTY]
       && after.queues[L.ACTIVE] == before.queues[L.ACTIVE][k..] + Those(seen, pages, inodes, Executing, true)
       && after.queues[L.INACTIVE] == before.queues[L.INACTIVE] + Those(seen, pages, inodes, Executing, false)
  }

  lemma DemoteNone(lists: L.Lists, pages: seq<Page>, inodes: seq<Inode>)
    requires L.Shape(lists)
    ensures Demoted(lists, pages, inodes, 0, lists)
  {
  }

  /** How many active pages the loop looks at: it stops when ten times as many are no fewer than are still active. */
  function DemoteTurns(active: seq<nat>, pages: seq<Page>, inodes: seq<Inode>, k: nat): (r: nat)
    requires k <= |active|
    ensures k <= r <= |active|
    decreases |active| - k
  {
    if k == |active| || 10 * k >= |active| - |Those(active[..k], pages, inodes, Executing, false)| then k
    else DemoteTurns(active, pages, inodes, k + 1)
  }

  lemma DemoteTurn(before: L.Lists, pages: seq<Page>, inodes: seq<Inode>, k: nat, after: L.Lists)
    requires Demoted(before, pages, inodes, k, after)
    ensures var active := before.queues[L.ACTIVE];
            if 10 * k < |after.queues[L.ACTIVE]|
            then k < |active| && DemoteTurns(active, pages, inodes, k) == DemoteTurns(active, pages, inodes, k + 1)
            else DemoteTurns(active, pages, inodes, k) == k
  {
    NoneOfThose(before.queues[L.ACTIVE][..k], pages, inodes, Executing, true);
    hide Those;
  }

  lemma DemoteSize(before: L.Lists, pages: seq<Page>, inodes: seq<Inode>, k: nat, after: L.Lists)
    requires Demoted(before, pages, inodes, k, after)
    ensures |after.queues[L.ACTIVE]| <= |before.queues[L.ACTIVE]|
  {
  }

  lemma DemoteStep(before: L.Lists, pages: seq<Page>, lists: L.Lists, inodes: seq<Inode>, k: nat, t: nat)
    requires L.Valid(lists) && Demoted(before, pages, inodes, k, lists) && k < |before.queues[L.ACTIVE]|
    requires t == if Has(pages, inodes, lists.queues[L.ACTIVE][0], Executing) then L.ACTIVE else L.INACTIVE
    ensures var p := lists.queues[L.ACTIVE][0];
            p < |lists.kind| && lists.kind[p] < L.KINDS && Demoted(before, pages, inodes, k + 1, L.Move(lists, p, t))
  {
    var p, active := lists.queues[L.ACTIVE][0], before.queues[L.ACTIVE];
    hide L.Move, L.Valid, Has, Those;
    L.HeadMoves(lists, L.ACTIVE, t);
    var tail := Those(active[..k], pages, inodes, Executing, true);
    Front(active, k, tail);
    ThoseGrow(active[..k], p, pages, inodes, Executing, true);
    ThoseGrow(active[..k], p, pages, inodes, Executing, false);
    if t == L.ACTIVE {
      assert (active[k + 1..] + tail) + [p] == active[k + 1..] + (tail + [p]);
    }
  }

  lemma Front(a: seq<nat>, k: nat, tail: seq<nat>)
    requires k < |a|
    ensures (a[k..] + tail)[0] == a[k] && (a[k..] + tail)[1..] == a[k + 1..] + tail && a[..k + 1] == a[..k] + [a[k]]
  {
  }

  ghost predicate SameFlags(before: seq<Inode>, after: seq<Inode>) {
    |after| == |before| && forall h :: 0 <= h < |after| ==> after[h] == before[h].(index := after[h].index)
  }

  /**
   Nothing happened but that some clean, unpinned pages of files that are not executing went from inactive to free.
   */
  ghost predicate Reclaimed(pages0: seq<Page>, kind0: seq<nat>, inodes: seq<Inode>, pages: seq<Page>, kind: seq<nat>) {
    && |pages0| == |kind0| == |pages| == |kind|
    && forall p :: 0 <= p < |pages| ==>
         if kind[p] == kind0[p] then pages[p] == pages0[p]
         else
           && kind[p] == L.FREE && kind0[p] == L.INACTIVE && pages[p] == pages0[p].(inode := None)
           && !pages0[p].dirty && pages0[p].count == 0 && !Has(pages0, inodes, p, Executing)
  }

  ghost predicate AllBusy(ps: seq<nat>, pages: seq<Page>, inodes: seq<Inode>) {
    forall p :: p in ps ==> Has(pages, inodes, p, InUse)
  }

  /** The pages freed by the first `k` turns of the reclaim loop over `ps`; a turn beyond the list frees nothing. */
  function Idle(ps: seq<nat>, pages: seq<Page>, inodes: seq<Inode>, k: nat): (r: seq<nat>)
    ensures |r| <= |ps|
  {
    Those(ps[..if k <= |ps| then k else |ps|], pages, inodes, InUse, false)
  }

  /** What is then on the inactive list: what was not seen, and behind it what is in use, in the order it was seen. */
  function Left(ps: seq<nat>, pages: seq<Page>, inodes: seq<Inode>, k: nat): seq<nat> {
    if k <= |ps| then ps[k..] + Those(ps[..k], pages, inodes, InUse, true)
    else if ps == [] then []
    else ps[1..] + [ps[0]]
  }

  /** How many turns the reclaim loop takes: until enough is free, or the turns outnumber the pages still inactive. */
  function ReclaimTurns(ps: seq<nat>, pages: seq<Page>, inodes: seq<Inode>, free: nat, total: nat, k: nat): (r: nat)
    requires k <= |ps| + 1
    ensures k <= r <= |ps| + 1
    decreases |ps| + 1 - k
  {
    var idle := |Idle(ps, pages, inodes, k)|;
    if 10 * (free + idle) >= total || k > |ps| - idle then k
    else ReclaimTurns(ps, pages, inodes, free, total, k + 1)
  }

  lemma NoTurnYet(ps: seq<nat>, pages: seq<Page>, inodes: seq<Inode>)
    ensures Idle(ps, pages, inodes, 0) == [] && ps == ps[0..] + Those(ps[..0], pages, inodes, InUse, true)
  {
  }

  lemma TurnsOver(ps: seq<nat>, pages: seq<Page>, inodes: seq<Inode>, free: nat, total: nat, k: nat)
    requires k <= |ps| + 1
    requires var idle := |Idle(ps, pages, inodes, k)|; 10 * (free + idle) >= total || k > |ps| - idle
    ensures ReclaimTurns(ps, pages, inodes, free, total, k) == k
  {
  }

  /** One more turn over a page not seen yet. */
  lemma NewPageTurn(ps: seq<nat>, pages: seq<Page>, inodes: seq<Inode>, k: nat, q: seq<nat>)
    requires k < |ps| && q == ps[k..] + Those(ps[..k], pages, inodes, InUse, true)
    ensures var busy := Has(pages, inodes, ps[k], InUse);
            && q[0] == ps[k]
            && Idle(ps, pages, inodes, k + 1) == Idle(ps, pages, inodes, k) + (if busy then [] else [ps[k]])
            && q[1..] + (if busy then [ps[k]] else []) ==
               ps[k + 1..] + Those(ps[..k + 1], pages, inodes, InUse, true)
  {
    hide Has, Those;
    ThoseGrow(ps[..k], ps[k], pages, inodes, InUse, true);
    ThoseGrow(ps[..k], ps[k], pages, inodes, InUse, false);
    assert ps[..k + 1] == ps[..k] + [ps[k]];
    assert q[1..] == ps[k + 1..] + Those(ps[..k], pages, inodes, InUse, true);
  }

  /** One more turn after a whole round: all pages are in use. */
  lemma RoundTurn(ps: seq<nat>, pages: seq<Page>, inodes: seq<Inode>, q: seq<nat>)
    requires q == Those(ps, pages, inodes, InUse, true) && |ps| <= |q| && q != []
    ensures q == ps && Idle(ps, pages, inodes, |ps|) == Idle(ps, pages, inodes, |ps| + 1) == []
    ensures Has(pages, inodes, q[0], InUse)
  {
    hide Has, Those;
    assert ps[..|ps|] == ps;
    NoneOfThose(ps, pages, inodes, InUse, true);
    NoneOfThose(ps, pages, inodes, InUse, false);
    AllOfThose(ps, pages, inodes, InUse);
  }

  /** Seen or not, a page is idle or still inactive. */
  lemma InactiveLeft(ps: seq<nat>, pages: seq<Page>, inodes: seq<Inode>, k: nat)
    requires k <= |ps|
    ensures |ps[k..] + Those(ps[..k], pages, inodes, InUse, true)| == |ps| - |Idle(ps, pages, inodes, k)|
  {
    NoneOfThose(ps[..k], pages, inodes, InUse, true);
  }

  lemma TurnTaken(ps: seq<nat>, pages: seq<Page>, inodes: seq<Inode>, free: nat, total: nat, k: nat, q: seq<nat>)
    requires k <= |ps| && k <= |q| && q != [] && q == ps[k..] + Those(ps[..k], pages, inodes, InUse, true)
    requires 10 * (free + |Idle(ps, pages, inodes, k)|) < total
    ensures ReclaimTurns(ps, pages, inodes, free, total, k + 1) == ReclaimTurns(ps, pages, inodes, free, total, k)
    ensures var busy := Has(pages, inodes, q[0], InUse);
            && Idle(ps, pages, inodes, k + 1) == Idle(ps, pages, inodes, k) + (if busy then [] else [q[0]])
            && (k < |ps| ==>
                  q[1..] + (if busy then [q[0]] else []) ==
                  ps[k + 1..] + Those(ps[..k + 1], pages, inodes, InUse, true))
            && (k == |ps| ==> busy && q == ps) && q[0] in ps
            && |q| - (if busy then 0 else 1) == |ps| - |Idle(ps, pages, inodes, k + 1)|
  {
    hide Has, Those, Idle;
    InactiveLeft(ps, pages, inodes, k);
    if k < |ps| {
      NewPageTurn(ps, pages, inodes, k, q);
    } else {
      assert ps[..k] == ps && ps[k..] == [];
      RoundTurn(ps, pages, inodes, q);
    }
  }

  /** A page that is still inactive is as busy as it was when the loop began. */
  lemma HeadAsBefore(lists0: L.Lists, pages0: seq<Page>, inodes0: seq<Inode>, lists: L.Lists, pages: seq<Page>,
                     inodes: seq<Inode>, p: nat)
    requires L.Valid(lists0) && L.Valid(lists) && p in lists0.queues[L.INACTIVE] && p in lists.queues[L.INACTIVE]
    requires Reclaimed(pages0, lists0.kind, inodes0, pages, lists.kind) && SameFlags(inodes0, inodes)
    ensures Has(pages, inodes, p, InUse) <==> Has(pages0, inodes0, p, InUse)
  {
    assert L.QueueOk(lists0, L.INACTIVE) && L.QueueOk(lists, L.INACTIVE);
  }

  /** Nothing is freed exactly if enough is free already or every page is in use. */
  lemma NothingFreed(ps: seq<nat>, pages: seq<Page>, inodes: seq<Inode>, free: nat, total: nat)
    ensures Idle(ps, pages, inodes, ReclaimTurns(ps, pages, inodes, free, total, 0)) == [] <==>
            10 * free >= total || AllBusy(ps, pages, inodes)
  {
    hide Has, Those;
    NoTurnYet(ps, pages, inodes);
    var k := ReclaimTurns(ps, pages, inodes, free, total, 0);
    TurnsEnd(ps, pages, inodes, free, total, 0);
    var seen := ps[..if k <= |ps| then k else |ps|];
    NoneOfThose(seen, pages, inodes, InUse, false);
    assert forall p :: p in seen ==> p in ps;
    if 10 * free < total && Idle(ps, pages, inodes, k) == [] {
      assert seen == ps;
      forall p | p in ps ensures Has(pages, inodes, p, InUse) { var i :| 0 <= i < |ps| && ps[i] == p; }
    }
  }

  lemma {:induction false} TurnsEnd(ps: seq<nat>, pages: seq<Page>, inodes: seq<Inode>, free: nat, total: nat, k: nat)
    requires k <= |ps| + 1
    ensures var r := ReclaimTurns(ps, pages, inodes, free, total, k);
            10 * (free + |Idle(ps, pages, inodes, r)|) >= total || r > |ps| - |Idle(ps, pages, inodes, r)|
    decreases |ps| + 1 - k
  {
    hide Idle;
    if k <= |ps| { TurnsEnd(ps, pages, inodes, free, total, k + 1); }
  }

  lemma NothingReclaimed(pages: seq<Page>, kind: seq<nat>, inodes: seq<Inode>, held: set<nat>)
    requires Roles(pages, kind, held)
    ensures Reclaimed(pages, kind, inodes, pages, kind) && SameFlags(inodes, inodes)
  {
  }

  lemma ReclaimMore(pages0: seq<Page>, kind0: seq<nat>, inodes0: seq<Inode>, pages1: seq<Page>, kind1: seq<nat>,
                    inodes1: seq<Inode>,
                    pages: seq<Page>, kind: seq<nat>)
    requires Reclaimed(pages0, kind0, inodes0, pages1, kind1) && Reclaimed(pages1, kind1, inodes1, pages, kind)
    requires SameFlags(inodes0, inodes1)
    ensures Reclaimed(pages0, kind0, inodes0, pages, kind)
  {
  }

  function SyncCount(lists: L.Lists): nat
    requires |lists.queues| == L.KINDS
  {
    if |lists.queues[L.DIRTY]| > MAX_PAGES_SYNC then MAX_PAGES_SYNC + 1 else |lists.queues[L.DIRTY]|
  }

  predicate SyncNeeded(lists: L.Lists, total: nat)
    requires |lists.queues| == L.KINDS
  {
    10 * |lists.queues[L.FREE]| < total || 5 * |lists.queues[L.DIRTY]| > total
  }

  lemma SyncNone(lists: L.Lists, pages: seq<Page>, inodes: seq<Inode>)
    requires L.Shape(lists)
    ensures Synced(lists, pages, inodes, 0, lists)
  {
  }

  /** A second pass over an empty dirty list changes nothing. */
  lemma SyncedAgain(lists0: L.Lists, pages0: seq<Page>, lists1: L.Lists, pages1: seq<Page>, inodes: seq<Inode>, n: nat,
                    lists: L.Lists)
    requires Synced(lists0, pages0, inodes, n, lists1) && Synced(lists1, pages1, inodes, 0, lists)
    ensures Synced(lists0, pages0, inodes, n, lists)
  {
    assert Those([], pages1, inodes, ShortLived, true) == [] == Those([], pages1, inodes, ShortLived, false);
  }

  /**
   Free pages are short, no page is inactive, the dirty pages that get written are all short-lived, and the oldest tenth
   of the active pages, with those at their tail, all belong to executing files.
   */
  predicate Starved(lists: L.Lists, pages: seq<Page>, inodes: seq<Inode>, total: nat)
    requires |lists.queues| == L.KINDS
  {
    && 10 * |lists.queues[L.FREE]| < total && lists.queues[L.INACTIVE] == []
    && var gone := lists.queues[L.DIRTY][..SyncCount(lists)];
       var active := lists.queues[L.ACTIVE] + gone;
       && (forall i :: 0 <= i < |gone| ==> Has(pages, inodes, gone[i], ShortLived))
       && (forall j :: 0 <= j < |active| && 10 * j < |active| ==> Has(pages, inodes, active[j], Executing))
  }

  lemma HasSame(pages0: seq<Page>, pages: seq<Page>, inodes: seq<Inode>, p: nat, flag: Flag)
    requires OnlyDirtyFlags(pages0, pages)
    ensures Has(pages0, inodes, p, flag) <==> Has(pages, inodes, p, flag)
  {
  }

  /** Taking all of them is taking the list. */
  lemma {:induction false} AllOfThose(ps: seq<nat>, pages: seq<Page>, inodes: seq<Inode>, flag: Flag)
    requires forall i :: 0 <= i < |ps| ==> Has(pages, inodes, ps[i], flag)
    ensures Those(ps, pages, inodes, flag, true) == ps
  {
    if ps != [] {
      var m := |ps| - 1;
      AllOfThose(ps[..m], pages, inodes, flag);
      assert ps == ps[..m] + [ps[m]];
    }
  }

  /** The demotion leaves nothing inactive exactly if nothing was and the oldest tenth is executing. */
  lemma DemoteExactly(lists: L.Lists, pages: seq<Page>, inodes: seq<Inode>, k: nat, after: L.Lists)
    requires Demoted(lists, pages, inodes, k, after)
    requires 10 * k >= |after.queues[L.ACTIVE]| && (k > 0 ==> 10 * (k - 1) < |lists.queues[L.ACTIVE]|)
    ensures after.queues[L.INACTIVE] == [] <==>
            && lists.queues[L.INACTIVE] == []
            && forall j :: 0 <= j < |lists.queues[L.ACTIVE]| && 10 * j < |lists.queues[L.ACTIVE]| ==>
                 Has(pages, inodes, lists.queues[L.ACTIVE][j], Executing)
  {
    hide Has, Those;
    var active := lists.queues[L.ACTIVE];
    NoneOfThose(active[..k], pages, inodes, Executing, false);
    assert forall j :: 0 <= j < k ==> active[..k][j] == active[j];
  }

  /** The reclaim loop meets an empty inactive list exactly in a starved state. */
  lemma StarvedExactly(lists0: L.Lists, pages0: seq<Page>, inodes: seq<Inode>, total: nat, lists1: L.Lists,
                       pages: seq<Page>,
                       k: nat, lists: L.Lists)
    requires |lists0.queues| == L.KINDS && OnlyDirtyFlags(pages0, pages)
    requires Synced(lists0, pages0, inodes, if SyncNeeded(lists0, total) then SyncCount(lists0) else 0, lists1)
    requires Demoted(lists1, pages, inodes, k, lists)
    requires if 10 * |lists1.queues[L.INACTIVE]| < 4 * total
             then 10 * k >= |lists.queues[L.ACTIVE]| && (k > 0 ==> 10 * (k - 1) < |lists1.queues[L.ACTIVE]|)
             else lists == lists1
    ensures 10 * |lists.queues[L.FREE]| < total && lists.queues[L.INACTIVE] == [] <==>
            Starved(lists0, pages0, inodes, total)
  {
    hide Has, Those;
    if 10 * |lists0.queues[L.FREE]| < total {
      var gone := lists0.queues[L.DIRTY][..SyncCount(lists0)];
      NoneOfThose(gone, pages0, inodes, ShortLived, false);
      if lists1.queues[L.INACTIVE] == [] {
        AllOfThose(gone, pages0, inodes, ShortLived);
        DemoteExactly(lists1, pages, inodes, k, lists);
        forall p: nat ensures Has(pages0, inodes, p, Executing) <==> Has(pages, inodes, p, Executing) {
          HasSame(pages0, pages, inodes, p, Executing);
        }
      }
    }
  }

  /** Without a change of inode a page that is free stays free and no other becomes so. */
  lemma KindsKept(pages0: seq<Page>, lists0: L.Lists, pages: seq<Page>, lists: L.Lists, held: set<nat>)
    requires L.Valid(lists0) && L.Valid(lists) && OnlyDirtyFlags(pages0, pages)
    requires Roles(pages0, lists0.kind, held) && Roles(pages, lists.kind, held)
    ensures |lists0.kind| == |pages0| == |pages| == |lists.kind|
    ensures forall p :: 0 <= p < |pages| ==> (lists0.kind[p] == L.FREE <==> lists.kind[p] == L.FREE)
    ensures forall p :: 0 <= p < |pages| && lists.kind[p] == L.INACTIVE ==> pages0[p].inode.Some?
  {
    forall p | 0 <= p < |pages|
      ensures lists0.kind[p] == L.FREE <==> lists.kind[p] == L.FREE
      ensures lists.kind[p] == L.INACTIVE ==> pages0[p].inode.Some?
    {
      assert L.PageOk(lists0, p) && L.PageOk(lists, p);
      assert Role(pages0[p], lists0.kind[p], p in held) && Role(pages[p], lists.kind[p], p in held);
    }
  }

  lemma ReclaimNone(pages: seq<Page>, kind: seq<nat>, inodes: seq<Inode>)
    requires |pages| == |kind|
    ensures Reclaimed(pages, kind, inodes, pages, kind)
  {
  }

  /** Pages keep their file, offset and pins, but for those freed: clean by now, unpinned, and of no executing file. */
  ghost predicate FreesOnlyIdle(pages0: seq<Page>, kind0: seq<nat>, inodes: seq<Inode>, pages: seq<Page>,
                                kind: seq<nat>) {
    && |pages0| == |kind0| == |pages| == |kind|
    && forall p :: 0 <= p < |pages| ==>
         if pages[p].inode == pages0[p].inode
         then pages[p] == pages0[p].(dirty := pages[p].dirty) && (kind[p] == L.FREE <==> kind0[p] == L.FREE)
         else
           && pages[p] == pages0[p].(inode := None, dirty := false) && kind[p] == L.FREE != kind0[p]
           && pages0[p].count == 0 && !Has(pages0, inodes, p, Executing)
  }

  lemma FreedIdle(pages0: seq<Page>, kind0: seq<nat>, inodes: seq<Inode>, pages1: seq<Page>, kind1: seq<nat>,
                  pages: seq<Page>, kind: seq<nat>)
    requires OnlyDirtyFlags(pages0, pages1) && Reclaimed(pages1, kind1, inodes, pages, kind)
    requires |kind0| == |pages0| && forall p :: 0 <= p < |pages1| ==> (kind0[p] == L.FREE <==> kind1[p] == L.FREE)
    requires forall p :: 0 <= p < |pages1| && kind1[p] == L.INACTIVE ==> pages0[p].inode.Some?
    ensures FreesOnlyIdle(pages0, kind0, inodes, pages, kind)
  {
    hide Has;
    forall p: nat ensures Has(pages0, inodes, p, Executing) <==> Has(pages1, inodes, p, Executing) {
      HasSame(pages0, pages1, inodes, p, Executing);
    }
  }

  /** Callers that take pages and give none back come to a starved state, from every size of the cache. */
  method TakeAll(totalPages: nat, reserved: nat) returns (c: PageCache)
    requires reserved < totalPages
    ensures c.Valid() && |c.pages| == totalPages && c.total == totalPages - reserved
    ensures c.lists.queues[L.FREE] == [] && Starved(c.lists, c.pages, c.inodes, c.total)
  {
    hide L.Valid, Roles, IndexOk;
    c := new PageCache(totalPages, reserved);
    L.ShapeOf(c.lists);
    while c.lists.queues[L.FREE] != []
      invariant c.Valid() && L.Shape(c.lists) && |c.pages| == totalPages && fresh(c)
      invariant forall t :: 0 <= t < L.KINDS && t != L.FREE ==> c.lists.queues[t] == []
      decreases |c.lists.queues[L.FREE]|
    {
      var _ := c.TakeFree();
      L.ShapeOf(c.lists);
    }
    AllHeldStarves(c.lists, c.pages, c.inodes, c.total);
  }

  /** With every page held by callers the next request starves. */
  lemma AllHeldStarves(lists: L.Lists, pages: seq<Page>, inodes: seq<Inode>, total: nat)
    requires L.Shape(lists) && total > 0 && forall t :: 0 <= t < L.KINDS ==> lists.queues[t] == []
    ensures Starved(lists, pages, inodes, total)
  {
  }

  /** The inactive list at the start of the reclaim loop, computed from the state before the call. */
  function Candidates(lists: L.Lists, pages: seq<Page>, inodes: seq<Inode>, total: nat): seq<nat>
    requires |lists.queues| == L.KINDS
  {
    var gone := lists.queues[L.DIRTY][..if SyncNeeded(lists, total) then SyncCount(lists) else 0];
    var inactive := lists.queues[L.INACTIVE] + Those(gone, pages, inodes, ShortLived, false);
    var active := lists.queues[L.ACTIVE] + Those(gone, pages, inodes, ShortLived, true);
    if 10 * |inactive| < 4 * total
    then inactive + Those(active[..DemoteTurns(active, pages, inodes, 0)], pages, inodes, Executing, false)
    else inactive
  }

  /** And the active list: what the demotion does not come to, and behind it the pages it keeps. */
  function ActiveLeft(lists: L.Lists, pages: seq<Page>, inodes: seq<Inode>, total: nat): seq<nat>
    requires |lists.queues| == L.KINDS
  {
    var gone := lists.queues[L.DIRTY][..if SyncNeeded(lists, total) then SyncCount(lists) else 0];
    var inactive := lists.queues[L.INACTIVE] + Those(gone, pages, inodes, ShortLived, false);
    var active := lists.queues[L.ACTIVE] + Those(gone, pages, inodes, ShortLived, true);
    if 10 * |inactive| < 4 * total
    then
      var k := DemoteTurns(active, pages, inodes, 0);
      active[k..] + Those(active[..k], pages, inodes, Executing, true)
    else active
  }

  lemma NoneLeft(pages: seq<Page>, inodes: seq<Inode>, free: nat, total: nat)
    ensures Left([], pages, inodes, ReclaimTurns([], pages, inodes, free, total, 0)) == []
  {
  }

  lemma {:induction false} ThoseSame(ps: seq<nat>, pages0: seq<Page>, pages: seq<Page>, inodes: seq<Inode>, flag: Flag,
                                     value: bool)
    requires OnlyDirtyFlags(pages0, pages)
    ensures Those(ps, pages0, inodes, flag, value) == Those(ps, pages, inodes, flag, value)
  {
    hide Has;
    if ps != [] {
      ThoseSame(ps[..|ps| - 1], pages0, pages, inodes, flag, value);
      HasSame(pages0, pages, inodes, ps[|ps| - 1], flag);
    }
  }

  lemma {:induction false} TurnsSame(active: seq<nat>, pages0: seq<Page>, pages: seq<Page>, inodes: seq<Inode>, k: nat)
    requires OnlyDirtyFlags(pages0, pages) && k <= |active|
    ensures DemoteTurns(active, pages0, inodes, k) == DemoteTurns(active, pages, inodes, k)
    decreases |active| - k
  {
    hide Those;
    ThoseSame(active[..k], pages0, pages, inodes, Executing, false);
    if k < |active| { TurnsSame(active, pages0, pages, inodes, k + 1); }
  }

  lemma CandidatesAre(lists0: L.Lists, pages0: seq<Page>, inodes: seq<Inode>, total: nat, lists1: L.Lists,
                      pages: seq<Page>,
                      k: nat, lists: L.Lists)
    requires |lists0.queues| == L.KINDS && OnlyDirtyFlags(pages0, pages)
    requires Synced(lists0, pages0, inodes, if SyncNeeded(lists0, total) then SyncCount(lists0) else 0, lists1)
    requires Demoted(lists1, pages, inodes, k, lists)
    requires if 10 * |lists1.queues[L.INACTIVE]| < 4 * total
             then k == DemoteTurns(lists1.queues[L.ACTIVE], pages, inodes, 0)
             else lists == lists1
    ensures lists.queues[L.INACTIVE] == Candidates(lists0, pages0, inodes, total)
    ensures lists.queues[L.ACTIVE] == ActiveLeft(lists0, pages0, inodes, total)
  {
    hide Those, DemoteTurns, OnlyDirtyFlags;
    var active := lists1.queues[L.ACTIVE];
    TurnsSame(active, pages0, pages, inodes, 0);
    ThoseSame(active[..k], pages0, pages, inodes, Executing, false);
    ThoseSame(active[..k], pages0, pages, inodes, Executing, true);
  }

  lemma {:induction false} SameTurns(ps: seq<nat>, pages0: seq<Page>, pages: seq<Page>, inodes: seq<Inode>, free: nat,
                                     total: nat, k: nat)
    requires OnlyDirtyFlags(pages0, pages) && k <= |ps| + 1
    ensures ReclaimTurns(ps, pages0, inodes, free, total, k) == ReclaimTurns(ps, pages, inodes, free, total, k)
    ensures forall i: nat :: Idle(ps, pages0, inodes, i) == Idle(ps, pages, inodes, i)
    ensures forall i: nat :: Left(ps, pages0, inodes, i) == Left(ps, pages, inodes, i)
    decreases |ps| + 1 - k
  {
    hide Those;
    forall i: nat ensures Idle(ps, pages0, inodes, i) == Idle(ps, pages, inodes, i) {
      ThoseSame(ps[..if i <= |ps| then i else |ps|], pages0, pages, inodes, InUse, false);
    }
    forall i: nat ensures Left(ps, pages0, inodes, i) == Left(ps, pages, inodes, i) {
      if i <= |ps| { ThoseSame(ps[..i], pages0, pages, inodes, InUse, true); }
    }
    if k <= |ps| { SameTurns(ps, pages0, pages, inodes, free, total, k + 1); }
  }

  lemma NobodyBusy(pages: seq<Page>, inodes: seq<Inode>)
    ensures AllBusy([], pages, inodes)
  {
  }
}
