/**
 * The specification of relation deduplication: which relations of a list
 * are duplicates of which, the list that survives, and the path list a
 * surviving relation accumulates from its duplicates.
 */
module Duplicates {
  import opened Relation

  /** Some relation of `rels` has the same relids as `rel`. */
  predicate MatchesAny(rels: seq<RelOptInfo>, rel: RelOptInfo)
  {
    exists other :: other in rels && Same(other.relids, rel.relids)
  }

  /** `rels[k]` is the first relation of `rels` with its relids. */
  predicate IsFirst(rels: seq<RelOptInfo>, k: nat)
    requires k < |rels|
  {
    !MatchesAny(rels[..k], rels[k])
  }

  /** No two relations of `rels` have the same relids. */
  predicate PairwiseDistinct(rels: seq<RelOptInfo>)
  {
    forall i, j :: 0 <= i < j < |rels| ==> !Same(rels[i].relids, rels[j].relids)
  }

  /** The relations of `rels` with the same relids as `relids`, in order. */
  function SameAs(relids: seq<int>, rels: seq<RelOptInfo>): (r: seq<RelOptInfo>)
    ensures |r| <= |rels|
  {
    if rels == [] then []
    else (if Same(relids, rels[0].relids) then [rels[0]] else []) + SameAs(relids, rels[1..])
  }

  /** The duplicates are exactly the relations of `rels` with those relids. */
  lemma {:induction false} SameAsMembers(relids: seq<int>, rels: seq<RelOptInfo>)
    ensures forall x :: x in SameAs(relids, rels) ==> x in rels
    ensures forall x :: x in rels ==> (x in SameAs(relids, rels) <==> Same(relids, x.relids))
  {
    if rels != [] {
      SameAsMembers(relids, rels[1..]);
    }
  }

  /** The relations of `rels` whose relids differ from `relids`, in order. */
  function NotSameAs(relids: seq<int>, rels: seq<RelOptInfo>): (r: seq<RelOptInfo>)
    ensures |r| <= |rels|
  {
    if rels == [] then []
    else (if Same(relids, rels[0].relids) then [] else [rels[0]]) + NotSameAs(relids, rels[1..])
  }

  /** The survivors are exactly the relations of `rels` with other relids. */
  lemma {:induction false} NotSameAsMembers(relids: seq<int>, rels: seq<RelOptInfo>)
    ensures forall x :: x in NotSameAs(relids, rels) ==> x in rels
    ensures forall x :: x in rels ==> (x in NotSameAs(relids, rels) <==> !Same(relids, x.relids))
  {
    if rels != [] {
      NotSameAsMembers(relids, rels[1..]);
    }
  }

  /** The relations of `rels` that match no relation of `pruned`, in order. */
  function Unmatched(pruned: seq<RelOptInfo>, rels: seq<RelOptInfo>): (r: seq<RelOptInfo>)
    ensures |r| <= |rels|
  {
    if rels == [] then []
    else (if MatchesAny(pruned, rels[0]) then [] else [rels[0]]) + Unmatched(pruned, rels[1..])
  }

  /** The unmatched relations are the relations of `rels` that match no
      relation of `pruned`. */
  lemma {:induction false} UnmatchedMembers(pruned: seq<RelOptInfo>, rels: seq<RelOptInfo>)
    ensures forall x :: x in Unmatched(pruned, rels) ==> x in rels
    ensures forall x :: x in rels ==> (x in Unmatched(pruned, rels) <==> !MatchesAny(pruned, x))
  {
    if rels != [] {
      UnmatchedMembers(pruned, rels[1..]);
    }
  }

  /** The list deduplication leaves: the first relation survives, every later
      relation with its relids is dropped, and the rest is deduplicated. */
  function Dedup(rels: seq<RelOptInfo>): (r: seq<RelOptInfo>)
    ensures forall x :: x in r ==> x in rels
    decreases |rels|
  {
    if rels == [] then []
    else
      NotSameAsMembers(rels[0].relids, rels[1..]);
      [rels[0]] + Dedup(NotSameAs(rels[0].relids, rels[1..]))
  }

  lemma {:induction false} SameAsAppend(relids: seq<int>, a: seq<RelOptInfo>, b: seq<RelOptInfo>)
    ensures SameAs(relids, a + b) == SameAs(relids, a) + SameAs(relids, b)
  {
    if a != [] {
      assert (a + b)[1..] == a[1..] + b;
      SameAsAppend(relids, a[1..], b);
    } else {
      assert a + b == b;
    }
  }

  lemma {:induction false} NotSameAsAppend(relids: seq<int>, a: seq<RelOptInfo>, b: seq<RelOptInfo>)
    ensures NotSameAs(relids, a + b) == NotSameAs(relids, a) + NotSameAs(relids, b)
  {
    if a != [] {
      assert (a + b)[1..] == a[1..] + b;
      NotSameAsAppend(relids, a[1..], b);
    } else {
      assert a + b == b;
    }
  }

  lemma {:induction false} UnmatchedAppend(pruned: seq<RelOptInfo>, a: seq<RelOptInfo>, b: seq<RelOptInfo>)
    ensures Unmatched(pruned, a + b) == Unmatched(pruned, a) + Unmatched(pruned, b)
  {
    if a != [] {
      assert (a + b)[1..] == a[1..] + b;
      UnmatchedAppend(pruned, a[1..], b);
    } else {
      assert a + b == b;
    }
  }

  /** Against an empty list, every relation is unmatched. */
  lemma {:induction false} UnmatchedNone(rels: seq<RelOptInfo>)
    ensures Unmatched([], rels) == rels
  {
    if rels != [] {
      UnmatchedNone(rels[1..]);
    }
  }

  /** A list none of whose relations has relids `relids` loses nothing. */
  lemma {:induction false} NotSameAsNone(relids: seq<int>, rels: seq<RelOptInfo>)
    requires forall x :: x in rels ==> !Same(relids, x.relids)
    ensures NotSameAs(relids, rels) == rels
  {
    if rels != [] {
      NotSameAsNone(relids, rels[1..]);
    }
  }

  lemma SameAsCons(relids: seq<int>, x: RelOptInfo, rels: seq<RelOptInfo>)
    ensures SameAs(relids, [x] + rels) == (if Same(relids, x.relids) then [x] else []) + SameAs(relids, rels)
  {
    assert ([x] + rels)[1..] == rels;
  }

  lemma NotSameAsCons(relids: seq<int>, x: RelOptInfo, rels: seq<RelOptInfo>)
    ensures NotSameAs(relids, [x] + rels) == (if Same(relids, x.relids) then [] else [x]) + NotSameAs(relids, rels)
  {
    assert ([x] + rels)[1..] == rels;
  }

  /** Removing the duplicates of one relation does not change the duplicates
      of a relation with other relids. */
  lemma {:induction false} SameAsAfterNotSameAs(relids: seq<int>, other: seq<int>, rels: seq<RelOptInfo>)
    requires !Same(relids, other)
    ensures SameAs(relids, NotSameAs(other, rels)) == SameAs(relids, rels)
  {
    if rels != [] {
      var x, ys := rels[0], rels[1..];
      SameAsAfterNotSameAs(relids, other, ys);
      var zs := NotSameAs(other, ys);
      if Same(other, x.relids) {
        assert NotSameAs(other, rels) == zs;
        assert !Same(relids, x.relids);
        assert SameAs(relids, rels) == SameAs(relids, ys);
      } else {
        assert NotSameAs(other, rels) == [x] + zs;
        SameAsCons(relids, x, zs);
      }
    }
  }

  /** Dropping the matches of `pruned` does not change the duplicates of a
      relation that matches nothing in `pruned`. */
  lemma {:induction false} SameAsAfterUnmatched(rel: RelOptInfo, pruned: seq<RelOptInfo>, rels: seq<RelOptInfo>)
    requires !MatchesAny(pruned, rel)
    ensures SameAs(rel.relids, Unmatched(pruned, rels)) == SameAs(rel.relids, rels)
  {
    if rels != [] {
      var x, ys := rels[0], rels[1..];
      SameAsAfterUnmatched(rel, pruned, ys);
      var zs := Unmatched(pruned, ys);
      if MatchesAny(pruned, x) {
        assert Unmatched(pruned, rels) == zs;
        var o :| o in pruned && Same(o.relids, x.relids);
        assert !Same(o.relids, rel.relids);
        assert SameAs(rel.relids, rels) == SameAs(rel.relids, ys);
      } else {
        assert Unmatched(pruned, rels) == [x] + zs;
        SameAsCons(rel.relids, x, zs);
      }
    }
  }

  /** Pruning the matches of one more relation is matching against a longer list. */
  lemma {:induction false} UnmatchedExtend(pruned: seq<RelOptInfo>, rel: RelOptInfo, rels: seq<RelOptInfo>)
    ensures NotSameAs(rel.relids, Unmatched(pruned, rels)) == Unmatched(pruned + [rel], rels)
  {
    if rels != [] {
      var x, ys := rels[0], rels[1..];
      UnmatchedExtend(pruned, rel, ys);
      var zs := Unmatched(pruned, ys);
      assert MatchesAny(pruned + [rel], x) <==> MatchesAny(pruned, x) || Same(rel.relids, x.relids) by {
        if Same(rel.relids, x.relids) {
          assert rel in pruned + [rel];
        }
        if MatchesAny(pruned, x) {
          var o :| o in pruned && Same(o.relids, x.relids);
          assert o in pruned + [rel];
        }
        if MatchesAny(pruned + [rel], x) {
          var o :| o in pruned + [rel] && Same(o.relids, x.relids);
          assert o in pruned || o == rel;
        }
      }
      if MatchesAny(pruned, x) {
        assert Unmatched(pruned, rels) == zs;
      } else {
        assert Unmatched(pruned, rels) == [x] + zs;
        NotSameAsCons(rel.relids, x, zs);
      }
    }
  }

  lemma MatchesAnyCons(x: RelOptInfo, rels: seq<RelOptInfo>, rel: RelOptInfo)
    ensures MatchesAny([x] + rels, rel) <==> Same(x.relids, rel.relids) || MatchesAny(rels, rel)
  {
    if MatchesAny([x] + rels, rel) {
      var o :| o in [x] + rels && Same(o.relids, rel.relids);
      assert o == x || o in rels;
    }
    if Same(x.relids, rel.relids) {
      assert x in [x] + rels;
    }
    if MatchesAny(rels, rel) {
      var o :| o in rels && Same(o.relids, rel.relids);
      assert o in [x] + rels;
    }
  }

  /** Removing the duplicates of `x` keeps every match of a relation with
      other relids. */
  lemma MatchesAnyAfterNotSameAs(x: RelOptInfo, rels: seq<RelOptInfo>, rel: RelOptInfo)
    requires !Same(x.relids, rel.relids)
    ensures MatchesAny(NotSameAs(x.relids, rels), rel) <==> MatchesAny(rels, rel)
  {
    var zs := NotSameAs(x.relids, rels);
    NotSameAsMembers(x.relids, rels);
    if MatchesAny(rels, rel) {
      var o :| o in rels && Same(o.relids, rel.relids);
      assert o in zs;
    }
    if MatchesAny(zs, rel) {
      var o :| o in zs && Same(o.relids, rel.relids);
      assert o in rels;
    }
  }

  lemma DedupCons(x: RelOptInfo, rels: seq<RelOptInfo>)
    ensures Dedup([x] + rels) == [x] + Dedup(NotSameAs(x.relids, rels))
  {
    assert ([x] + rels)[0] == x && ([x] + rels)[1..] == rels;
  }

  lemma NotSameAsSnoc(relids: seq<int>, rels: seq<RelOptInfo>, rel: RelOptInfo)
    ensures NotSameAs(relids, rels + [rel]) == NotSameAs(relids, rels) + (if Same(relids, rel.relids) then [] else [rel])
  {
    NotSameAsAppend(relids, rels, [rel]);
    NotSameAsCons(relids, rel, []);
    assert [rel] + [] == [rel];
  }

  /** The step of DedupSnoc for a list that starts with a relation whose
      relids are those of the appended one: the appended one is dropped. */
  lemma DedupSnocSame(a: RelOptInfo, rels: seq<RelOptInfo>, rel: RelOptInfo)
    requires Same(a.relids, rel.relids)
    ensures Dedup([a] + rels + [rel]) == Dedup([a] + rels) && MatchesAny([a] + rels, rel)
  {
    var zs := NotSameAs(a.relids, rels);
    NotSameAsSnoc(a.relids, rels, rel);
    assert zs + [] == zs;
    assert [a] + rels + [rel] == [a] + (rels + [rel]);
    DedupCons(a, rels + [rel]);
    DedupCons(a, rels);
    MatchesAnyCons(a, rels, rel);
  }

  lemma DedupConsSnoc(a: RelOptInfo, rels: seq<RelOptInfo>, rel: RelOptInfo)
    ensures Dedup([a] + rels + [rel]) == [a] + Dedup(NotSameAs(a.relids, rels + [rel]))
  {
    assert [a] + rels + [rel] == [a] + (rels + [rel]);
    DedupCons(a, rels + [rel]);
  }

  lemma DedupSnocCombine(rels: seq<RelOptInfo>, rel: RelOptInfo, a: RelOptInfo, zs: seq<RelOptInfo>)
    requires Dedup(zs + [rel]) == Dedup(zs) + (if MatchesAny(zs, rel) then [] else [rel])
    requires Dedup(rels + [rel]) == [a] + Dedup(zs + [rel])
    requires Dedup(rels) == [a] + Dedup(zs)
    requires MatchesAny(rels, rel) <==> MatchesAny(zs, rel)
    ensures Dedup(rels + [rel]) == Dedup(rels) + (if MatchesAny(rels, rel) then [] else [rel])
  {
  }

  /** The step of DedupSnoc for a list that starts with a relation whose
      relids differ from those of the appended one, given the claim for the
      rest of the list once that relation's duplicates are gone. */
  lemma DedupSnocOther(a: RelOptInfo, rels: seq<RelOptInfo>, rel: RelOptInfo)
    requires !Same(a.relids, rel.relids)
    requires var zs := NotSameAs(a.relids, rels);
             Dedup(zs + [rel]) == Dedup(zs) + (if MatchesAny(zs, rel) then [] else [rel])
    ensures Dedup([a] + rels + [rel]) == Dedup([a] + rels) + (if MatchesAny([a] + rels, rel) then [] else [rel])
  {
    var zs := NotSameAs(a.relids, rels);
    NotSameAsSnoc(a.relids, rels, rel);
    DedupConsSnoc(a, rels, rel);
    DedupCons(a, rels);
    MatchesAnyCons(a, rels, rel);
    MatchesAnyAfterNotSameAs(a, rels, rel);
    DedupSnocCombine([a] + rels, rel, a, zs);
  }

  /** Deduplication scans left to right: a relation is kept exactly when no
      earlier relation of the list has its relids. */
  lemma {:induction false} DedupSnoc(rels: seq<RelOptInfo>, rel: RelOptInfo)
    ensures Dedup(rels + [rel]) == Dedup(rels) + (if MatchesAny(rels, rel) then [] else [rel])
    decreases |rels|
  {
    if rels == [] {
      assert rels + [rel] == [rel] + [];
      DedupCons(rel, []);
    } else {
      var a, ys := rels[0], rels[1..];
      assert rels == [a] + ys;
      if Same(a.relids, rel.relids) {
        DedupSnocSame(a, ys, rel);
      } else {
        DedupSnoc(NotSameAs(a.relids, ys), rel);
        DedupSnocOther(a, ys, rel);
      }
    }
  }

  /** No two surviving relations have the same relids. */
  lemma {:induction false} DedupDistinct(rels: seq<RelOptInfo>)
    ensures PairwiseDistinct(Dedup(rels))
    decreases |rels|
  {
    if rels != [] {
      var zs := NotSameAs(rels[0].relids, rels[1..]);
      NotSameAsMembers(rels[0].relids, rels[1..]);
      DedupDistinct(zs);
      var d := Dedup(rels);
      assert d == [rels[0]] + Dedup(zs);
      forall i, j | 0 <= i < j < |d| ensures !Same(d[i].relids, d[j].relids) {
        if i == 0 {
          assert d[j] in Dedup(zs);
        } else {
          assert d[i] == Dedup(zs)[i - 1] && d[j] == Dedup(zs)[j - 1];
        }
      }
    }
  }

  /** The survivors are exactly the first occurrences of their relids. */
  lemma {:induction false} DedupMembers(rels: seq<RelOptInfo>)
    ensures forall k :: 0 <= k < |rels| && IsFirst(rels, k) ==> rels[k] in Dedup(rels)
    ensures forall x :: x in Dedup(rels) ==> exists k :: 0 <= k < |rels| && IsFirst(rels, k) && rels[k] == x
    decreases |rels|
  {
    if rels != [] {
      var n := |rels| - 1;
      var init, last := rels[..n], rels[n];
      assert rels == init + [last];
      DedupMembers(init);
      DedupSnoc(init, last);
      forall k | 0 <= k < n ensures IsFirst(rels, k) == IsFirst(init, k) {
        assert rels[..k] == init[..k];
      }
      assert IsFirst(rels, n) == !MatchesAny(init, last) by { assert rels[..n] == init; }
      forall x | x in Dedup(rels) ensures exists k :: 0 <= k < |rels| && IsFirst(rels, k) && rels[k] == x {
        if x in Dedup(init) {
          var k :| 0 <= k < |init| && IsFirst(init, k) && init[k] == x;
          assert IsFirst(rels, k) && rels[k] == x;
        } else {
          assert IsFirst(rels, n) && rels[n] == x;
        }
      }
    }
  }

  /** A list without duplicates is left as it is. */
  lemma {:induction false} DedupOfDistinct(rels: seq<RelOptInfo>)
    requires PairwiseDistinct(rels)
    ensures Dedup(rels) == rels
    decreases |rels|
  {
    if rels != [] {
      var ys := rels[1..];
      forall x | x in ys ensures !Same(rels[0].relids, x.relids) {
        var j :| 0 <= j < |ys| && ys[j] == x;
        assert rels[j + 1] == x;
      }
      NotSameAsNone(rels[0].relids, ys);
      assert PairwiseDistinct(ys) by {
        forall i, j | 0 <= i < j < |ys| ensures !Same(ys[i].relids, ys[j].relids) {
          assert ys[i] == rels[i + 1] && ys[j] == rels[j + 1];
        }
      }
      DedupOfDistinct(ys);
    }
  }

  /** Deduplicating twice gives the list deduplicating once gives. */
  lemma DedupIdempotent(rels: seq<RelOptInfo>)
    ensures Dedup(Dedup(rels)) == Dedup(rels)
  {
    DedupDistinct(rels);
    DedupOfDistinct(Dedup(rels));
  }

  lemma DistinctPrefix(rels: seq<RelOptInfo>, n: nat)
    requires PairwiseDistinct(rels) && n <= |rels|
    ensures PairwiseDistinct(rels[..n])
  {
    var ys := rels[..n];
    forall i, j | 0 <= i < j < |ys| ensures !Same(ys[i].relids, ys[j].relids) {
      assert ys[i] == rels[i] && ys[j] == rels[j];
    }
  }

  /** A relation no earlier relation of a list without duplicates matches
      matches something in `rels1 + ys` only through `rels1`. */
  lemma MatchesAnyLast(rels1: seq<RelOptInfo>, ys: seq<RelOptInfo>, y: RelOptInfo)
    requires PairwiseDistinct(ys + [y])
    ensures MatchesAny(rels1 + ys, y) <==> MatchesAny(rels1, y)
  {
    forall o | o in ys ensures !Same(o.relids, y.relids) {
      var j :| 0 <= j < |ys| && ys[j] == o;
      assert (ys + [y])[j] == o && (ys + [y])[|ys|] == y;
    }
    if MatchesAny(rels1 + ys, y) {
      var o :| o in rels1 + ys && Same(o.relids, y.relids);
      assert o in rels1;
    }
    if MatchesAny(rels1, y) {
      var o :| o in rels1 && Same(o.relids, y.relids);
      assert o in rels1 + ys;
    }
  }

  lemma UnmatchedSnoc(pruned: seq<RelOptInfo>, rels: seq<RelOptInfo>, rel: RelOptInfo)
    ensures Unmatched(pruned, rels + [rel]) == Unmatched(pruned, rels) + (if MatchesAny(pruned, rel) then [] else [rel])
  {
    UnmatchedAppend(pruned, rels, [rel]);
    assert ([rel])[1..] == [];
  }

  lemma MergeStep(rels1: seq<RelOptInfo>, ys: seq<RelOptInfo>, y: RelOptInfo)
    requires Dedup(rels1 + ys) == rels1 + Unmatched(rels1, ys)
    requires MatchesAny(rels1 + ys, y) <==> MatchesAny(rels1, y)
    ensures Dedup(rels1 + (ys + [y])) == rels1 + Unmatched(rels1, ys + [y])
  {
    assert rels1 + (ys + [y]) == (rels1 + ys) + [y];
    DedupSnoc(rels1 + ys, y);
    UnmatchedSnoc(rels1, ys, y);
    var tail := if MatchesAny(rels1, y) then [] else [y];
    assert rels1 + Unmatched(rels1, ys) + tail == rels1 + (Unmatched(rels1, ys) + tail);
  }

  /** Two lists without duplicates merge into what deduplicating their
      concatenation gives: the first list, then the unmatched rest of the second. */
  lemma {:induction false} MergeIsDedup(rels1: seq<RelOptInfo>, rels2: seq<RelOptInfo>)
    requires PairwiseDistinct(rels1) && PairwiseDistinct(rels2)
    ensures Dedup(rels1 + rels2) == rels1 + Unmatched(rels1, rels2)
    ensures PairwiseDistinct(rels1 + Unmatched(rels1, rels2))
    decreases |rels2|
  {
    if rels2 == [] {
      assert rels1 + rels2 == rels1;
      DedupOfDistinct(rels1);
      assert rels1 + Unmatched(rels1, rels2) == rels1;
    } else {
      var n := |rels2| - 1;
      var ys, y := rels2[..n], rels2[n];
      assert rels2 == ys + [y];
      DistinctPrefix(rels2, n);
      MergeIsDedup(rels1, ys);
      MatchesAnyLast(rels1, ys, y);
      MergeStep(rels1, ys, y);
    }
    DedupDistinct(rels1 + rels2);
  }

  lemma MatchesAnySnoc(rels: seq<RelOptInfo>, x: RelOptInfo, rel: RelOptInfo)
    ensures MatchesAny(rels + [x], rel) <==> MatchesAny(rels, rel) || Same(x.relids, rel.relids)
  {
    if MatchesAny(rels + [x], rel) {
      var o :| o in rels + [x] && Same(o.relids, rel.relids);
      assert o in rels || o == x;
    }
    if Same(x.relids, rel.relids) {
      assert x in rels + [x];
    }
    if MatchesAny(rels, rel) {
      var o :| o in rels && Same(o.relids, rel.relids);
      assert o in rels + [x];
    }
  }

  /** A relation matched by nothing in `rels` has no duplicates there. */
  lemma {:induction false} SameAsNone(rel: RelOptInfo, rels: seq<RelOptInfo>)
    requires !MatchesAny(rels, rel)
    ensures SameAs(rel.relids, rels) == []
  {
    if rels != [] {
      assert rels[0] in rels;
      assert forall o :: o in rels[1..] ==> o in rels;
      SameAsNone(rel, rels[1..]);
    }
  }

  /** The relations that `rel`, when it is the first relation of `rels` with
      its relids, absorbs: the later relations with the same relids. */
  function Absorbed(rel: RelOptInfo, rels: seq<RelOptInfo>): seq<RelOptInfo>
  {
    var d := SameAs(rel.relids, rels);
    if d == [] then [] else d[1..]
  }

  /** For the first relation with its relids, the absorbed relations are its
      duplicates that follow it. */
  lemma AbsorbedOfFirst(rels: seq<RelOptInfo>, k: nat)
    requires k < |rels| && IsFirst(rels, k)
    ensures Absorbed(rels[k], rels) == SameAs(rels[k].relids, rels[k + 1..])
  {
    var s := rels[k];
    assert rels == rels[..k] + ([s] + rels[k + 1..]);
    SameAsAppend(s.relids, rels[..k], [s] + rels[k + 1..]);
    SameAsNone(s, rels[..k]);
    SameAsCons(s.relids, s, rels[k + 1..]);
    assert SameAs(s.relids, rels) == [s] + SameAs(s.relids, rels[k + 1..]);
  }

  /** One step of folding duplicates into `rel`: a relation with the same
      relids contributes its path list (`rel` itself its current one). */
  function FoldStep(add: AddPathlist, rel: RelOptInfo, acc: seq<Path>, other: RelOptInfo,
                    lists: map<RelOptInfo, seq<Path>>): seq<Path>
  {
    if Same(rel.relids, other.relids) then
      add(rel, acc, if other == rel then acc else Lookup(lists, other))
    else acc
  }

  /** The path list `rel` ends with when, starting from `acc`, every relation
      of `others` with its relids is merged into it with add_pathlist, in
      order; `lists` holds the path lists of the other relations. */
  function FoldDuplicates(add: AddPathlist, rel: RelOptInfo, acc: seq<Path>, others: seq<RelOptInfo>,
                          lists: map<RelOptInfo, seq<Path>>): seq<Path>
    decreases |others|
  {
    if others == [] then acc
    else FoldDuplicates(add, rel, FoldStep(add, rel, acc, others[0], lists), others[1..], lists)
  }

  lemma {:induction false} FoldSnoc(add: AddPathlist, rel: RelOptInfo, acc: seq<Path>, others: seq<RelOptInfo>,
                                    other: RelOptInfo, lists: map<RelOptInfo, seq<Path>>)
    ensures FoldDuplicates(add, rel, acc, others + [other], lists)
         == FoldStep(add, rel, FoldDuplicates(add, rel, acc, others, lists), other, lists)
    decreases |others|
  {
    if others == [] {
      assert ([] + [other])[1..] == [];
    } else {
      assert (others + [other])[1..] == others[1..] + [other];
      FoldSnoc(add, rel, FoldStep(add, rel, acc, others[0], lists), others[1..], other, lists);
    }
  }

  lemma FoldCons(add: AddPathlist, rel: RelOptInfo, acc: seq<Path>, other: RelOptInfo, others: seq<RelOptInfo>,
                  lists: map<RelOptInfo, seq<Path>>)
    ensures FoldDuplicates(add, rel, acc, [other] + others, lists)
         == FoldDuplicates(add, rel, FoldStep(add, rel, acc, other, lists), others, lists)
  {
    assert ([other] + others)[0] == other && ([other] + others)[1..] == others;
  }

  /** Relations with other relids contribute nothing to the fold. */
  lemma {:induction false} FoldOnlySame(add: AddPathlist, rel: RelOptInfo, acc: seq<Path>, others: seq<RelOptInfo>,
                                        lists: map<RelOptInfo, seq<Path>>)
    ensures FoldDuplicates(add, rel, acc, others, lists)
         == FoldDuplicates(add, rel, acc, SameAs(rel.relids, others), lists)
    decreases |others|
  {
    if others != [] {
      var x, ys := others[0], others[1..];
      assert others == [x] + ys;
      var acc' := FoldStep(add, rel, acc, x, lists);
      FoldOnlySame(add, rel, acc', ys, lists);
      FoldCons(add, rel, acc, x, ys, lists);
      SameAsCons(rel.relids, x, ys);
      if Same(rel.relids, x.relids) {
        FoldCons(add, rel, acc, x, SameAs(rel.relids, ys), lists);
      } else {
        assert acc' == acc;
        assert SameAs(rel.relids, others) == [] + SameAs(rel.relids, ys);
        assert [] + SameAs(rel.relids, ys) == SameAs(rel.relids, ys);
      }
    }
  }

  /** The fold reads a snapshot only at the duplicates other than `rel`. */
  lemma {:induction false} FoldAgree(add: AddPathlist, rel: RelOptInfo, acc: seq<Path>, others: seq<RelOptInfo>,
                                     lists1: map<RelOptInfo, seq<Path>>, lists2: map<RelOptInfo, seq<Path>>)
    requires forall x :: x in others && x != rel && Same(rel.relids, x.relids) ==> Lookup(lists1, x) == Lookup(lists2, x)
    ensures FoldDuplicates(add, rel, acc, others, lists1) == FoldDuplicates(add, rel, acc, others, lists2)
    decreases |others|
  {
    if others != [] {
      assert FoldStep(add, rel, acc, others[0], lists1) == FoldStep(add, rel, acc, others[0], lists2);
      FoldAgree(add, rel, FoldStep(add, rel, acc, others[0], lists1), others[1..], lists1, lists2);
    }
  }

  /** Two lists with the same duplicates of `rel` fold alike, even on two
      snapshots, as long as the snapshots agree at those duplicates. */
  lemma FoldTransfer(add: AddPathlist, rel: RelOptInfo, acc: seq<Path>,
                     others1: seq<RelOptInfo>, lists1: map<RelOptInfo, seq<Path>>,
                     others2: seq<RelOptInfo>, lists2: map<RelOptInfo, seq<Path>>)
    requires SameAs(rel.relids, others1) == SameAs(rel.relids, others2)
    requires forall x :: x in others1 && x != rel && Same(rel.relids, x.relids) ==> Lookup(lists1, x) == Lookup(lists2, x)
    ensures FoldDuplicates(add, rel, acc, others1, lists1) == FoldDuplicates(add, rel, acc, others2, lists2)
  {
    var dups := SameAs(rel.relids, others1);
    SameAsMembers(rel.relids, others1);
    FoldOnlySame(add, rel, acc, others1, lists1);
    FoldOnlySame(add, rel, acc, others2, lists2);
    FoldAgree(add, rel, acc, dups, lists1, lists2);
  }

  /** Without duplicates the path list is left as it is. */
  lemma FoldNoDuplicates(add: AddPathlist, rel: RelOptInfo, acc: seq<Path>, others: seq<RelOptInfo>,
                         lists: map<RelOptInfo, seq<Path>>)
    requires !MatchesAny(others, rel)
    ensures FoldDuplicates(add, rel, acc, others, lists) == acc
  {
    FoldOnlySame(add, rel, acc, others, lists);
    SameAsNone(rel, others);
  }
}
