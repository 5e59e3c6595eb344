/**
 * The member-group achievements merge: fetched achievements are appended to
 * the stored list unless an achievement with the same id is already there.
 */
module Achievements {
  import opened Types

  datatype Achievement = Achievement(id: Id, name: string)

  function Ids(s: seq<Achievement>): set<Id>
  {
    set a | a in s :: a.id
  }

  ghost predicate DistinctIds(s: seq<Achievement>)
  {
    forall i, j :: 0 <= i < j < |s| ==> s[i].id != s[j].id
  }

  lemma IdsAppend(s: seq<Achievement>, a: Achievement)
    ensures Ids(s + [a]) == Ids(s) + {a.id}
  {
    assert forall b :: b in s + [a] <==> b in s || b == a;
  }

  lemma IdsCons(s: seq<Achievement>)
    requires s != []
    ensures Ids(s) == {s[0].id} + Ids(s[1..])
  {
    assert s == [s[0]] + s[1..];
    assert forall b :: b in s <==> b == s[0] || b in s[1..];
  }

  /** One fetched achievement: pushed only when no stored one has its id. */
  function AddIfNew(list: seq<Achievement>, a: Achievement): (r: seq<Achievement>)
    ensures a.id in Ids(list) ==> r == list
    ensures a.id !in Ids(list) ==> r == list + [a] && Ids(r) == Ids(list) + {a.id}
  {
    if a.id in Ids(list) then list else IdsAppend(list, a); list + [a]
  }

  /**
   * The merge loop. The list grows as it goes, so a second fetched entry
   * with an id already pushed is skipped too.
   */
  function Merge(list: seq<Achievement>, fetched: seq<Achievement>): (r: seq<Achievement>)
    ensures |list| <= |r| <= |list| + |fetched|
    decreases |fetched|
  {
    if fetched == [] then list else Merge(AddIfNew(list, fetched[0]), fetched[1..])
  }

  /**
   * The reference: the fetched achievements whose id is neither `known` nor
   * carried by an earlier fetched entry, in fetch order.
   */
  function Fresh(known: set<Id>, fetched: seq<Achievement>): (r: seq<Achievement>)
    ensures forall x :: x in r ==> x in fetched && x.id !in known
    ensures Ids(r) == Ids(fetched) - known
    ensures DistinctIds(r)
    decreases |fetched|
  {
    if fetched == [] then []
    else
      var a := fetched[0];
      IdsCons(fetched);
      assert forall x :: x in fetched[1..] ==> x in fetched;
      if a.id in known then Fresh(known, fetched[1..])
      else
        var rest := Fresh(known + {a.id}, fetched[1..]);
        IdsCons([a] + rest);
        assert ([a] + rest)[1..] == rest;
        [a] + rest
  }

  /** The merge appends exactly the fresh achievements to the stored list. */
  lemma {:induction false} MergeAppendsFresh(list: seq<Achievement>, fetched: seq<Achievement>)
    ensures Merge(list, fetched) == list + Fresh(Ids(list), fetched)
    decreases |fetched|
  {
    if fetched != [] {
      var a, tail := fetched[0], fetched[1..];
      var step := AddIfNew(list, a);
      MergeAppendsFresh(step, tail);
      if a.id !in Ids(list) {
        var rest := Fresh(Ids(list) + {a.id}, tail);
        assert list + [a] + rest == list + ([a] + rest);
      }
    }
  }

  lemma IdsConcat(a: seq<Achievement>, b: seq<Achievement>)
    ensures Ids(a + b) == Ids(a) + Ids(b)
  {
    assert forall x :: x in a + b <==> x in a || x in b;
  }

  lemma NoIdsEmpty(s: seq<Achievement>)
    ensures Ids(s) == {} ==> s == []
  {
    if s != [] {
      assert s[0] in s;
      assert s[0].id in Ids(s);
    }
  }

  /** Two id-distinct sequences with disjoint ids concatenate to an id-distinct one. */
  lemma DistinctConcat(a: seq<Achievement>, b: seq<Achievement>)
    requires DistinctIds(a) && DistinctIds(b)
    requires forall x :: x in b ==> x.id !in Ids(a)
    ensures DistinctIds(a + b)
  {
    var r := a + b;
    forall i, j | 0 <= i < j < |r|
      ensures r[i].id != r[j].id
    {
      if i < |a| && j >= |a| {
        assert r[i] == a[i] && a[i] in a;
        assert r[j] == b[j - |a|] && b[j - |a|] in b;
      } else if j < |a| {
        assert r[i] == a[i] && r[j] == a[j];
      } else {
        assert r[i] == b[i - |a|] && r[j] == b[j - |a|];
      }
    }
  }

  /**
   * What the merge promises: the stored list is kept as a prefix, the ids
   * afterwards are those stored or fetched, and the appended entries are
   * fetched ones with new and distinct ids.
   */
  lemma MergeProperties(list: seq<Achievement>, fetched: seq<Achievement>)
    ensures var r := Merge(list, fetched);
            && r[..|list|] == list
            && Ids(r) == Ids(list) + Ids(fetched)
            && (forall x :: x in r[|list|..] ==> x in fetched && x.id !in Ids(list))
            && DistinctIds(r[|list|..])
            && (DistinctIds(list) ==> DistinctIds(r))
  {
    MergeAppendsFresh(list, fetched);
    var f := Fresh(Ids(list), fetched);
    assert (list + f)[|list|..] == f;
    assert (list + f)[..|list|] == list;
    IdsConcat(list, f);
    if DistinctIds(list) {
      DistinctConcat(list, f);
    }
  }

  /** totalCount after the merge is the length of the merged list. */
  function TotalCount(list: seq<Achievement>, fetched: seq<Achievement>): (r: nat)
    ensures r == |list| + |Fresh(Ids(list), fetched)|
  {
    MergeAppendsFresh(list, fetched);
    |Merge(list, fetched)|
  }

  /** Merging the same batch again adds nothing. */
  lemma MergeIdempotent(list: seq<Achievement>, fetched: seq<Achievement>)
    ensures Merge(Merge(list, fetched), fetched) == Merge(list, fetched)
  {
    var once := Merge(list, fetched);
    MergeProperties(list, fetched);
    MergeAppendsFresh(once, fetched);
    NoIdsEmpty(Fresh(Ids(once), fetched));
  }
}
