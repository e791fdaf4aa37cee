/** The list transformations the catalogue screen applies to its state (App.tsx):
    inserting a plant and re-sorting newest first, deleting by id, and the
    `Pet-Friendly` update of the draft's tags after an image analysis. */
module Catalog {
  import opened Seqs
  import opened Types

  // ---------------------------------------------------------------------------
  // Ordering: `.sort((a, b) => b.createdAt - a.createdAt)`
  // ---------------------------------------------------------------------------

  /** Non-increasing by `createdAt`: the newest plant comes first. */
  predicate NewestFirst(s: seq<Plant>) {
    forall i, j :: 0 <= i < j < |s| ==> s[i].createdAt >= s[j].createdAt
  }

  /** Places `p` in front of the first plant that is not strictly newer than it. */
  function Insert(p: Plant, s: seq<Plant>): seq<Plant> {
    if s == [] || s[0].createdAt <= p.createdAt then [p] + s
    else [s[0]] + Insert(p, s[1..])
  }

  /** Insertion adds exactly `p` and keeps an ordered catalogue ordered. */
  lemma {:induction false} InsertSpec(p: Plant, s: seq<Plant>)
    ensures |Insert(p, s)| == |s| + 1
    ensures multiset(Insert(p, s)) == multiset(s) + multiset{p}
    ensures NewestFirst(s) ==> NewestFirst(Insert(p, s))
  {
    if s != [] && s[0].createdAt > p.createdAt {
      assert s == [s[0]] + s[1..];
      InsertSpec(p, s[1..]);
      if NewestFirst(s) {
        InsertBelowHead(p, s);
      }
    }
  }

  /** A plant at least as new as everything in an ordered catalogue can lead it. */
  lemma ConsNewestFirst(a: Plant, s: seq<Plant>)
    requires NewestFirst(s)
    requires forall i :: 0 <= i < |s| ==> s[i].createdAt <= a.createdAt
    ensures NewestFirst([a] + s)
  {
    var t := [a] + s;
    forall i, j | 0 <= i < j < |t| ensures t[i].createdAt >= t[j].createdAt {
      if i > 0 {
        assert t[i] == s[i - 1] && t[j] == s[j - 1];
      } else {
        assert t[j] == s[j - 1];
      }
    }
  }

  /** Whatever is in `rest` is at most as new as the head of an ordered `s`, given
      that `rest` only holds plants from `s[1..]` and possibly `p`. */
  lemma BelowHead(s: seq<Plant>, rest: seq<Plant>, p: Plant)
    requires s != [] && NewestFirst(s) && p.createdAt <= s[0].createdAt
    requires forall q :: q in rest ==> q == p || q in s[1..]
    ensures forall i :: 0 <= i < |rest| ==> rest[i].createdAt <= s[0].createdAt
  {
    forall i | 0 <= i < |rest| ensures rest[i].createdAt <= s[0].createdAt {
      var q := rest[i];
      assert q in rest;
      if q != p {
        var j :| 0 <= j < |s[1..]| && s[1..][j] == q;
        assert s[j + 1] == q;
      }
    }
  }

  /** When `p` goes behind the head of an ordered catalogue, the result stays ordered. */
  lemma InsertBelowHead(p: Plant, s: seq<Plant>)
    requires s != [] && s[0].createdAt > p.createdAt && NewestFirst(s)
    requires multiset(Insert(p, s[1..])) == multiset(s[1..]) + multiset{p}
    requires NewestFirst(Insert(p, s[1..]))
    ensures NewestFirst(Insert(p, s))
  {
    var rest := Insert(p, s[1..]);
    assert Insert(p, s) == [s[0]] + rest;
    forall q | q in rest ensures q == p || q in s[1..] {
      assert q in multiset(rest);
    }
    BelowHead(s, rest, p);
    ConsNewestFirst(s[0], rest);
  }

  /** JavaScript's stable sort with the comparator `b.createdAt - a.createdAt`:
      newest first, plants with equal times kept in their incoming order. */
  function SortNewestFirst(s: seq<Plant>): seq<Plant> {
    if s == [] then [] else Insert(s[0], SortNewestFirst(s[1..]))
  }

  /** The sort returns an ordered permutation of its input. */
  lemma {:induction false} SortSpec(s: seq<Plant>)
    ensures |SortNewestFirst(s)| == |s|
    ensures multiset(SortNewestFirst(s)) == multiset(s)
    ensures NewestFirst(SortNewestFirst(s))
  {
    if s != [] {
      assert s == [s[0]] + s[1..];
      SortSpec(s[1..]);
      InsertSpec(s[0], SortNewestFirst(s[1..]));
    }
  }

  /** `[newPlant, ...prev].sort(...)`: the catalogue after adding `p`. */
  function AddToCatalog(s: seq<Plant>, p: Plant): seq<Plant> {
    SortNewestFirst([p] + s)
  }

  /** Adding keeps every plant, adds `p` once and leaves the catalogue newest first. */
  lemma AddToCatalogSpec(s: seq<Plant>, p: Plant)
    ensures |AddToCatalog(s, p)| == |s| + 1
    ensures multiset(AddToCatalog(s, p)) == multiset(s) + multiset{p}
    ensures forall q :: q in AddToCatalog(s, p) <==> q == p || q in s
    ensures NewestFirst(AddToCatalog(s, p))
  {
    SortSpec([p] + s);
    assert multiset([p] + s) == multiset(s) + multiset{p};
    var r := AddToCatalog(s, p);
    assert forall q :: q in r <==> q in multiset(r);
  }

  /** How many leading plants of `s` are strictly newer than `p`. */
  function InsertionPoint(p: Plant, s: seq<Plant>): (k: nat)
    ensures k <= |s|
  {
    if s == [] || s[0].createdAt <= p.createdAt then 0 else 1 + InsertionPoint(p, s[1..])
  }

  /** The plants ahead of the insertion point are strictly newer than `p`; the one at
      it is not. */
  lemma {:induction false} InsertionPointSplits(p: Plant, s: seq<Plant>)
    ensures forall i :: 0 <= i < InsertionPoint(p, s) ==> s[i].createdAt > p.createdAt
    ensures InsertionPoint(p, s) < |s| ==> s[InsertionPoint(p, s)].createdAt <= p.createdAt
  {
    if s != [] && s[0].createdAt > p.createdAt {
      InsertionPointSplits(p, s[1..]);
    }
  }

  /** `p` lands exactly at its insertion point: the plants ahead of it are the strictly
      newer ones at the head of `s`, the rest follow in their order. */
  lemma {:induction false} InsertAt(p: Plant, s: seq<Plant>)
    ensures Insert(p, s) == s[..InsertionPoint(p, s)] + [p] + s[InsertionPoint(p, s)..]
  {
    if s != [] && s[0].createdAt > p.createdAt {
      InsertAt(p, s[1..]);
      var k := InsertionPoint(p, s[1..]);
      assert InsertionPoint(p, s) == k + 1;
      assert Insert(p, s) == [s[0]] + Insert(p, s[1..]);
      assert s[..k + 1] == [s[0]] + s[1..][..k];
      assert s[k + 1..] == s[1..][k..];
    } else {
      assert s[..0] == [] && s[0..] == s;
    }
  }

  /** A catalogue already in order is left as it is by the sort. */
  lemma {:induction false} SortKeepsSorted(s: seq<Plant>)
    requires NewestFirst(s)
    ensures SortNewestFirst(s) == s
  {
    if s != [] {
      SortKeepsSorted(s[1..]);
      assert s == [s[0]] + s[1..];
    }
  }

  /** On an ordered catalogue, adding inserts the new plant in place: ahead of every
      plant at most as new (ties included) and behind the strictly newer ones. */
  lemma AddToSortedIsInsert(s: seq<Plant>, p: Plant)
    requires NewestFirst(s)
    ensures AddToCatalog(s, p) == Insert(p, s)
  {
    SortKeepsSorted(s);
    assert ([p] + s)[1..] == s;
  }

  /** With a clock that does not go backwards, the added plant leads the catalogue
      and the rest is unchanged. */
  lemma NewestPlantLeads(s: seq<Plant>, p: Plant)
    requires NewestFirst(s)
    requires forall q :: q in s ==> q.createdAt <= p.createdAt
    ensures AddToCatalog(s, p) == [p] + s
  {
    AddToSortedIsInsert(s, p);
  }

  // ---------------------------------------------------------------------------
  // Identity
  // ---------------------------------------------------------------------------

  /** The ids in use. */
  function IdSet(s: seq<Plant>): set<string> {
    set q | q in s :: q.id
  }

  /** No two records share an id. */
  predicate UniqueIds(s: seq<Plant>) {
    forall i, j :: 0 <= i < j < |s| ==> s[i].id != s[j].id
  }

  lemma UniqueIdsCons(a: Plant, s: seq<Plant>)
    ensures UniqueIds([a] + s) <==> a.id !in IdSet(s) && UniqueIds(s)
  {
    var t := [a] + s;
    if a.id !in IdSet(s) && UniqueIds(s) {
      forall i, j | 0 <= i < j < |t| ensures t[i].id != t[j].id {
        if i == 0 {
          assert t[j] in s;
        } else {
          assert t[i] == s[i - 1] && t[j] == s[j - 1];
        }
      }
    }
    if UniqueIds(t) {
      forall q | q in s ensures q.id != a.id {
        var j :| 0 <= j < |s| && s[j] == q;
        assert t[0] == a && t[j + 1] == q;
      }
      forall i, j | 0 <= i < j < |s| ensures s[i].id != s[j].id {
        assert t[i + 1] == s[i] && t[j + 1] == s[j];
      }
    }
  }

  lemma {:induction false} InsertKeepsIdsUnique(p: Plant, s: seq<Plant>)
    requires UniqueIds(s) && p.id !in IdSet(s)
    ensures UniqueIds(Insert(p, s))
  {
    if s == [] || s[0].createdAt <= p.createdAt {
      UniqueIdsCons(p, s);
    } else {
      assert s == [s[0]] + s[1..];
      UniqueIdsCons(s[0], s[1..]);
      InsertKeepsIdsUnique(p, s[1..]);
      InsertSpec(p, s[1..]);
      var rest := Insert(p, s[1..]);
      assert forall q :: q in rest <==> q in s[1..] || q == p by {
        assert forall q :: q in rest <==> q in multiset(rest);
      }
      assert s[0].id !in IdSet(rest);
      UniqueIdsCons(s[0], rest);
    }
  }

  lemma {:induction false} SortKeepsIdsUnique(s: seq<Plant>)
    requires UniqueIds(s)
    ensures UniqueIds(SortNewestFirst(s))
  {
    if s != [] {
      assert s == [s[0]] + s[1..];
      UniqueIdsCons(s[0], s[1..]);
      SortKeepsIdsUnique(s[1..]);
      SortSpec(s[1..]);
      var sorted := SortNewestFirst(s[1..]);
      assert forall q :: q in sorted <==> q in s[1..] by {
        assert forall q :: q in sorted <==> q in multiset(sorted);
      }
      InsertKeepsIdsUnique(s[0], sorted);
    }
  }

  /** Adding a plant whose id is fresh keeps ids unique and adds exactly that id. */
  lemma AddKeepsIdsUnique(s: seq<Plant>, p: Plant)
    requires UniqueIds(s) && p.id !in IdSet(s)
    ensures UniqueIds(AddToCatalog(s, p))
    ensures IdSet(AddToCatalog(s, p)) == IdSet(s) + {p.id}
  {
    UniqueIdsCons(p, s);
    SortKeepsIdsUnique([p] + s);
    AddToCatalogSpec(s, p);
  }

  // ---------------------------------------------------------------------------
  // Deletion: `prev.filter(p => p.id !== plantId)`
  // ---------------------------------------------------------------------------

  /** The catalogue without the plants whose id is `id`, the rest in order. */
  function WithoutId(s: seq<Plant>, id: string): (r: seq<Plant>)
    ensures forall q :: q in r <==> q in s && q.id != id
    ensures forall q: Plant :: q.id != id ==> multiset(r)[q] == multiset(s)[q]
    ensures id !in IdSet(r)
    ensures |r| <= |s|
  {
    if s == [] then []
    else
      assert s == [s[0]] + s[1..];
      if s[0].id == id then WithoutId(s[1..], id) else [s[0]] + WithoutId(s[1..], id)
  }

  /** Deletion distributes over concatenation: the plants kept stay in their order. */
  lemma {:induction false} WithoutIdAppend(a: seq<Plant>, b: seq<Plant>, id: string)
    ensures WithoutId(a + b, id) == WithoutId(a, id) + WithoutId(b, id)
  {
    if a == [] {
      assert a + b == b;
    } else {
      assert (a + b)[0] == a[0] && (a + b)[1..] == a[1..] + b;
      WithoutIdAppend(a[1..], b, id);
    }
  }

  /** Deleting an id that is not in the catalogue changes nothing. */
  lemma {:induction false} WithoutIdAbsent(s: seq<Plant>, id: string)
    requires id !in IdSet(s)
    ensures WithoutId(s, id) == s
  {
    if s != [] {
      assert s[0] in s;
      assert IdSet(s[1..]) <= IdSet(s) by {
        assert forall q :: q in s[1..] ==> q in s;
      }
      WithoutIdAbsent(s[1..], id);
    }
  }

  /** Deleting twice is deleting once. */
  lemma WithoutIdIdempotent(s: seq<Plant>, id: string)
    ensures WithoutId(WithoutId(s, id), id) == WithoutId(s, id)
  {
    WithoutIdAbsent(WithoutId(s, id), id);
  }

  /** Deletion keeps the catalogue ordered newest first. */
  lemma {:induction false} WithoutIdKeepsOrder(s: seq<Plant>, id: string)
    requires NewestFirst(s)
    ensures NewestFirst(WithoutId(s, id))
  {
    if s != [] {
      assert NewestFirst(s[1..]);
      WithoutIdKeepsOrder(s[1..], id);
      if s[0].id != id {
        var rest := WithoutId(s[1..], id);
        BelowHead(s, rest, s[0]);
        ConsNewestFirst(s[0], rest);
      }
    }
  }

  /** Deletion keeps ids unique, and removes exactly one record when the id is present. */
  lemma {:induction false} WithoutIdKeepsIdsUnique(s: seq<Plant>, id: string)
    requires UniqueIds(s)
    ensures UniqueIds(WithoutId(s, id))
    ensures |WithoutId(s, id)| == if id in IdSet(s) then |s| - 1 else |s|
  {
    if s == [] {
    } else {
      assert s == [s[0]] + s[1..];
      UniqueIdsCons(s[0], s[1..]);
      WithoutIdKeepsIdsUnique(s[1..], id);
      var rest := WithoutId(s[1..], id);
      assert IdSet(s) == {s[0].id} + IdSet(s[1..]);
      if s[0].id == id {
        WithoutIdAbsent(s[1..], id);
      } else {
        assert IdSet(rest) <= IdSet(s[1..]);
        UniqueIdsCons(s[0], rest);
      }
    }
  }

  // ---------------------------------------------------------------------------
  // The catalogue invariant
  // ---------------------------------------------------------------------------

  /** What the catalogue keeps between events: newest first, ids distinct. */
  predicate WellFormed(s: seq<Plant>) {
    NewestFirst(s) && UniqueIds(s)
  }

  /** Adding a plant with a fresh id keeps the catalogue well formed. */
  lemma AddKeepsWellFormed(s: seq<Plant>, p: Plant)
    requires WellFormed(s) && p.id !in IdSet(s)
    ensures WellFormed(AddToCatalog(s, p))
  {
    AddKeepsIdsUnique(s, p);
    AddToCatalogSpec(s, p);
  }

  /** Deleting keeps the catalogue well formed. */
  lemma DeleteKeepsWellFormed(s: seq<Plant>, id: string)
    requires WellFormed(s)
    ensures WellFormed(WithoutId(s, id))
  {
    WithoutIdKeepsOrder(s, id);
    WithoutIdKeepsIdsUnique(s, id);
  }

  // ---------------------------------------------------------------------------
  // The `Pet-Friendly` tag after an image analysis
  // ---------------------------------------------------------------------------

  /** `new Set(current)`, then `add` or `delete` of `Pet-Friendly` by `isToxic`,
      then `Array.from`. */
  function PetFriendlyTags(current: seq<Classification>, isToxic: bool): (r: seq<Classification>)
    ensures PetFriendly in r <==> !isToxic
    ensures forall c :: c != PetFriendly ==> (c in r <==> c in current)
    ensures NoDups(r)
    ensures RemoveAll(r, PetFriendly) == RemoveAll(Dedup(current), PetFriendly)
  {
    var tags := Dedup(current);
    RemoveAllNoDups(tags, PetFriendly);
    if !isToxic then
      if PetFriendly in tags then tags
      else
        RemoveAllAppend(tags, [PetFriendly], PetFriendly);
        assert RemoveAll([PetFriendly], PetFriendly) == [];
        tags + [PetFriendly]
    else
      RemoveAllAbsent(RemoveAll(tags, PetFriendly), PetFriendly);
      RemoveAll(tags, PetFriendly)
  }

  /** On a selection without repeats, the other tags also keep their order. */
  lemma PetFriendlyKeepsOthersInOrder(current: seq<Classification>, isToxic: bool)
    requires NoDups(current)
    ensures RemoveAll(PetFriendlyTags(current, isToxic), PetFriendly) == RemoveAll(current, PetFriendly)
  {
    DedupNoDups(current);
  }
}
