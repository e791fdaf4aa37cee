/** Sequence helpers shared by the model: JavaScript's `filter(x => x !== v)`
    and the order-keeping de-duplication done by `Array.from(new Set(xs))`. */
module Seqs {

  /** No element occurs twice. */
  predicate NoDups<T(==,!new)>(s: seq<T>) {
    forall i, j :: 0 <= i < j < |s| ==> s[i] != s[j]
  }

  /** `s.filter(x => x !== v)`: every occurrence of `v` removed, the rest kept in order. */
  function RemoveAll<T(==,!new)>(s: seq<T>, v: T): (r: seq<T>)
    ensures v !in r
    ensures forall x :: x != v ==> (x in r <==> x in s)
    ensures forall x :: x != v ==> multiset(r)[x] == multiset(s)[x]
    ensures |r| <= |s|
  {
    if s == [] then []
    else
      assert s == [s[0]] + s[1..];
      if s[0] == v then RemoveAll(s[1..], v) else [s[0]] + RemoveAll(s[1..], v)
  }

  /** Filtering distributes over concatenation, so the kept elements keep their relative order. */
  lemma {:induction false} RemoveAllAppend<T(!new)>(a: seq<T>, b: seq<T>, v: T)
    ensures RemoveAll(a + b, v) == RemoveAll(a, v) + RemoveAll(b, v)
  {
    if a != [] {
      assert (a + b)[0] == a[0] && (a + b)[1..] == a[1..] + b;
      RemoveAllAppend(a[1..], b, v);
    } else {
      assert a + b == b;
    }
  }

  /** Filtering out a value that does not occur changes nothing. */
  lemma {:induction false} RemoveAllAbsent<T(!new)>(s: seq<T>, v: T)
    requires v !in s
    ensures RemoveAll(s, v) == s
  {
    if s != [] {
      RemoveAllAbsent(s[1..], v);
    }
  }

  /** Removing `v` from `[v] + s + [v]`, where `s` lacks `v`, leaves `s`. */
  lemma RemoveAllSurround<T(!new)>(v: T, s: seq<T>)
    requires v !in s
    ensures RemoveAll([v] + s + [v], v) == s
  {
    RemoveAllAppend([v] + s, [v], v);
    RemoveAllAppend([v], s, v);
    RemoveAllAbsent(s, v);
    assert RemoveAll([v], v) == [];
    assert s + [] == s;
  }

  /** Filtering keeps a duplicate-free list duplicate-free. */
  lemma {:induction false} RemoveAllNoDups<T(!new)>(s: seq<T>, v: T)
    ensures NoDups(s) ==> NoDups(RemoveAll(s, v))
  {
    if s != [] && NoDups(s) {
      RemoveAllNoDups(s[1..], v);
      if s[0] != v {
        assert s[0] !in s[1..];
      }
    }
  }

  /** `Array.from(new Set(s))`: the first occurrence of each element, in order of first occurrence. */
  function Dedup<T(==,!new)>(s: seq<T>): (r: seq<T>)
    ensures NoDups(r)
    ensures forall x :: x in r <==> x in s
    ensures |r| <= |s|
  {
    if s == [] then []
    else
      var tail := RemoveAll(Dedup(s[1..]), s[0]);
      RemoveAllNoDups(Dedup(s[1..]), s[0]);
      [s[0]] + tail
  }

  /** First-occurrence order: appending an element already seen leaves the
      de-duplication as it was, appending a new one adds it at the end. */
  lemma {:induction false} DedupSnoc<T(!new)>(s: seq<T>, x: T)
    ensures Dedup(s + [x]) == if x in s then Dedup(s) else Dedup(s) + [x]
  {
    if s == [] {
      assert [] + [x] == [x];
    } else {
      assert (s + [x])[0] == s[0] && (s + [x])[1..] == s[1..] + [x];
      DedupSnoc(s[1..], x);
      if x !in s[1..] {
        RemoveAllAppend(Dedup(s[1..]), [x], s[0]);
      }
    }
  }

  /** A list without duplicates is its own de-duplication. */
  lemma {:induction false} DedupNoDups<T(!new)>(s: seq<T>)
    requires NoDups(s)
    ensures Dedup(s) == s
  {
    if s != [] {
      DedupNoDups(s[1..]);
      assert s[0] !in s[1..];
      RemoveAllAbsent(s[1..], s[0]);
    }
  }
}
