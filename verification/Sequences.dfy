/** Inserting an element into a sequence. */
module Sequences {

  function Insert<T>(s: seq<T>, p: nat, x: T): seq<T>
    requires p <= |s|
  {
    s[..p] + [x] + s[p..]
  }

  lemma InsertMembers<T>(s: seq<T>, p: nat, x: T)
    requires p <= |s|
    ensures forall y :: y in Insert(s, p, x) <==> y in s || y == x
  {
    assert s == s[..p] + s[p..];
    forall y ensures y in Insert(s, p, x) <==> y in s || y == x {
      assert y in s <==> y in s[..p] || y in s[p..];
    }
  }

  lemma InsertBag<T>(s: seq<T>, p: nat, x: T)
    requires p <= |s|
    ensures multiset(Insert(s, p, x)) == multiset(s) + multiset{x}
  {
    assert s == s[..p] + s[p..];
  }
}
