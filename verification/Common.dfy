/** What several modules share: options, and lists that name nothing twice. */
module Common {

  datatype Option<+T> = None | Some(value: T)

  /** No element is listed twice. */
  ghost predicate Distinct(s: seq<nat>) {
    forall i, j :: 0 <= i < j < |s| ==> s[i] != s[j]
  }

  /** Where `x` comes first. */
  function Find<T(==)>(s: seq<T>, x: T): (i: nat)
    requires x in s
    ensures i < |s| && s[i] == x
  {
    if s[0] == x then 0 else 1 + Find(s[1..], x)
  }

  /** list_del: `x` is unlinked. */
  function Without(s: seq<nat>, x: nat): seq<nat> {
    if x in s then s[..Find(s, x)] + s[Find(s, x) + 1..] else s
  }

  lemma WithoutFacts(s: seq<nat>, x: nat)
    requires Distinct(s) && x in s
    ensures Distinct(Without(s, x)) && |Without(s, x)| == |s| - 1
    ensures forall y :: y in Without(s, x) <==> y in s && y != x
  {
    var i := Find(s, x);
    assert s == s[..i] + [x] + s[i + 1..];
    assert x !in s[..i] && x !in s[i + 1..];
    var w := s[..i] + s[i + 1..];
    assert forall j :: 0 <= j < |w| ==> w[j] == s[if j < i then j else j + 1];
  }

  lemma Dropped(s: seq<nat>)
    requires Distinct(s) && s != []
    ensures Distinct(s[1..]) && forall y :: y in s[1..] <==> y in s && y != s[0]
  {
    assert s == [s[0]] + s[1..];
  }

  lemma Appended(s: seq<nat>, x: nat)
    requires Distinct(s) && x !in s
    ensures Distinct(s + [x]) && forall y :: y in s + [x] <==> y in s || y == x
  {
  }
}
