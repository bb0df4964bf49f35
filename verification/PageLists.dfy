/** The four LRU lists of mm/pagecache.cc with their counters, and the list_type each page carries. */
module PageLists {
  import opened Common

  const FREE: nat := 1
  const ACTIVE: nat := 2
  const INACTIVE: nat := 3
  const DIRTY: nat := 4
  const KINDS: nat := 5

  /** `queues[t]` and `counts[t]` are the list of type `t`; `kind[p]` is the list_type of page `p`, 0 for none. */
  datatype Lists = Lists(queues: seq<seq<nat>>, counts: seq<int>, kind: seq<nat>)

  ghost predicate Shape(l: Lists) {
    |l.queues| == |l.counts| == KINDS && l.queues[0] == []
  }

  ghost predicate Counted(l: Lists) {
    Shape(l) && forall t :: 0 <= t < KINDS ==> l.counts[t] == |l.queues[t]|
  }

  lemma ShapeOf(l: Lists)
    requires Valid(l)
    ensures Counted(l)
  {
    forall t | 0 <= t < KINDS ensures l.counts[t] == |l.queues[t]| { assert QueueOk(l, t); }
  }

  ghost predicate QueueOk(l: Lists, t: nat)
    requires Shape(l) && t < KINDS
  {
    && Distinct(l.queues[t]) && l.counts[t] == |l.queues[t]|
    && forall p :: p in l.queues[t] ==> p < |l.kind| && l.kind[p] == t
  }

  ghost predicate PageOk(l: Lists, p: nat)
    requires Shape(l) && p < |l.kind|
  {
    l.kind[p] < KINDS && (l.kind[p] > 0 ==> p in l.queues[l.kind[p]])
  }

  /** The counters are the lengths, no page is listed twice, and a page is on exactly the list its type names. */
  ghost predicate Valid(l: Lists) {
    && Shape(l)
    && (forall t :: 0 <= t < KINDS ==> QueueOk(l, t))
    && (forall p :: 0 <= p < |l.kind| ==> PageOk(l, p))
  }

  /** _pagelist_add at the tail. */
  function Add(l: Lists, p: nat, t: nat): Lists
    requires Shape(l) && p < |l.kind| && 0 < t < KINDS
  {
    Lists(l.queues[t := l.queues[t] + [p]], l.counts[t := l.counts[t] + 1], l.kind[p := t])
  }

  /** The first half of _pagelist_move, which is all of it when no list is given. */
  function Unlink(l: Lists, p: nat): Lists
    requires Shape(l) && p < |l.kind| && l.kind[p] < KINDS
  {
    var t := l.kind[p];
    if t == 0 then l else Lists(l.queues[t := Without(l.queues[t], p)], l.counts[t := l.counts[t] - 1], l.kind[p := 0])
  }

  function Move(l: Lists, p: nat, t: nat): Lists
    requires Shape(l) && p < |l.kind| && l.kind[p] < KINDS && 0 < t < KINDS
  {
    Add(Unlink(l, p), p, t)
  }

  /** The head of a list is the first thing found, so unlinking it leaves the rest. */
  lemma HeadGoes(q: seq<nat>)
    requires q != []
    ensures Without(q, q[0]) == q[1..]
  {
    assert q[0] in q;
  }

  lemma AddValid(l: Lists, p: nat, t: nat)
    requires Valid(l) && p < |l.kind| && l.kind[p] == 0 && 0 < t < KINDS
    ensures Valid(Add(l, p, t)) && Add(l, p, t).kind == l.kind[p := t]
  {
    var l' := Add(l, p, t);
    assert QueueOk(l, t);
    Appended(l.queues[t], p);
    forall u | 0 <= u < KINDS ensures QueueOk(l', u) { assert QueueOk(l, u); }
    forall r | 0 <= r < |l'.kind| ensures PageOk(l', r) { assert PageOk(l, r); }
  }

  lemma UnlinkValid(l: Lists, p: nat)
    requires Valid(l) && p < |l.kind|
    ensures l.kind[p] < KINDS && Valid(Unlink(l, p)) && Unlink(l, p).kind == l.kind[p := 0]
  {
    assert PageOk(l, p);
    var t, l' := l.kind[p], Unlink(l, p);
    if t > 0 {
      assert QueueOk(l, t);
      WithoutFacts(l.queues[t], p);
      hide Without;
      forall u | 0 <= u < KINDS ensures QueueOk(l', u) { assert QueueOk(l, u); }
      forall r | 0 <= r < |l'.kind| ensures PageOk(l', r) { assert PageOk(l, r); }
    }
  }

  lemma MoveValid(l: Lists, p: nat, t: nat)
    requires Valid(l) && p < |l.kind| && 0 < t < KINDS
    ensures l.kind[p] < KINDS && Valid(Move(l, p, t)) && Move(l, p, t).kind == l.kind[p := t]
  {
    UnlinkValid(l, p);
    AddValid(Unlink(l, p), p, t);
  }

  /** A non-empty list starts with a page of its type. */
  lemma HeadKind(l: Lists, t: nat)
    requires Valid(l) && t < KINDS && l.queues[t] != []
    ensures l.queues[t][0] < |l.kind| && l.kind[l.queues[t][0]] == t > 0
  {
    assert QueueOk(l, t) && l.queues[t][0] in l.queues[t];
  }

  /** Moving the head of `t` to the tail of `u`. */
  lemma HeadMoves(l: Lists, t: nat, u: nat)
    requires Valid(l) && 0 < t < KINDS && 0 < u < KINDS && l.queues[t] != []
    ensures l.queues[t][0] < |l.kind| && l.kind[l.queues[t][0]] == t
    ensures Move(l, l.queues[t][0], u).queues ==
            if t == u then l.queues[t := l.queues[t][1..] + [l.queues[t][0]]]
            else l.queues[t := l.queues[t][1..]][u := l.queues[u] + [l.queues[t][0]]]
  {
    HeadKind(l, t);
    HeadGoes(l.queues[t]);
  }

  /** Moving the last page of `t` to the tail of another list. */
  lemma TailMoves(l: Lists, t: nat, u: nat)
    requires Valid(l) && 0 < t < KINDS && 0 < u < KINDS && t != u && l.queues[t] != []
    ensures var p := l.queues[t][|l.queues[t]| - 1];
            && p < |l.kind| && l.kind[p] == t
            && Move(l, p, u).queues == l.queues[t := l.queues[t][..|l.queues[t]| - 1]][u := l.queues[u] + [p]]
  {
    var q, m := l.queues[t], |l.queues[t]| - 1;
    assert QueueOk(l, t) && q[m] in q;
    assert Find(q, q[m]) == m;
    assert Without(q, q[m]) == q[..m];
  }
}
