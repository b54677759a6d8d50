/**
 * The pruning routines of the optimizer's bottom-up join search: removing
 * duplicate join relations (merging their paths into the survivor), pruning
 * each relation's unordered path, merging two pruned lists, and dropping
 * relations whose join edges are all used up.
 */
module Prune {
  import opened Relation
  import opened Seqs
  import opened Duplicates

  /** prune_joinrel: the relations of `otherRels` whose relids differ from
      those of `rel`, in their order; the path list of each relation with the
      same relids is merged into `rel`'s, in turn. */
  method PruneJoinrel(rel: RelOptInfo, otherRels: seq<RelOptInfo>, add: AddPathlist)
    returns (result: seq<RelOptInfo>)
    modifies rel`pathlist
    ensures result == NotSameAs(rel.relids, otherRels)
    ensures rel.pathlist == FoldDuplicates(add, rel, old(rel.pathlist), otherRels, old(PathlistMap(otherRels)))
  {
    ghost var lists := PathlistMap(otherRels);
    result := [];
    var k := 0;
    while k < |otherRels|
      invariant 0 <= k <= |otherRels|
      invariant result == NotSameAs(rel.relids, otherRels[..k])
      invariant rel.pathlist == FoldDuplicates(add, rel, old(rel.pathlist), otherRels[..k], lists)
    {
      var other := otherRels[k];
      assert otherRels[..k + 1] == otherRels[..k] + [other];
      FoldSnoc(add, rel, old(rel.pathlist), otherRels[..k], other, lists);
      NotSameAsSnoc(rel.relids, otherRels[..k], other);
      if Same(rel.relids, other.relids) {
        rel.pathlist := add(rel, rel.pathlist, other.pathlist);
      } else {
        result := result + [other];
      }
      k := k + 1;
    }
    assert otherRels[..k] == otherRels;
  }

  /** What prune_joinrels knows once the relations `done` have been processed
      and `todo` is the rest of the list: the rest only holds relations of
      `rels`, the processed ones are the first survivors, and the rest still
      holds every duplicate of a relids set that no processed relation has. */
  ghost predicate JoinrelsProgress(rels: seq<RelOptInfo>, done: seq<RelOptInfo>, todo: seq<RelOptInfo>)
  {
    && (forall x :: x in todo ==> x in rels)
    && Dedup(rels) == done + Dedup(todo)
    && (forall r :: r in rels && !MatchesAny(done, r) ==> SameAs(r.relids, todo) == SameAs(r.relids, rels))
  }

  lemma JoinrelsStart(rels: seq<RelOptInfo>)
    ensures JoinrelsProgress(rels, [], rels)
  {
  }

  /** In a list without duplicates, nothing before an element matches it. */
  lemma DistinctBefore(a: seq<RelOptInfo>, y: RelOptInfo, b: seq<RelOptInfo>)
    requires PairwiseDistinct(a + [y] + b)
    ensures forall o :: o in a ==> !Same(o.relids, y.relids)
  {
    var d := a + [y] + b;
    forall o | o in a ensures !Same(o.relids, y.relids) {
      var i :| 0 <= i < |a| && a[i] == o;
      assert d[i] == o && d[|a|] == y;
    }
  }

  lemma StepSubset(rels: seq<RelOptInfo>, todo: seq<RelOptInfo>)
    requires todo != [] && forall x :: x in todo ==> x in rels
    ensures forall x :: x in NotSameAs(todo[0].relids, todo[1..]) ==> x in rels
  {
    NotSameAsMembers(todo[0].relids, todo[1..]);
    assert forall x :: x in todo[1..] ==> x in todo;
  }

  lemma StepDedup(rels: seq<RelOptInfo>, done: seq<RelOptInfo>, todo: seq<RelOptInfo>)
    requires todo != [] && Dedup(rels) == done + Dedup(todo)
    ensures Dedup(rels) == (done + [todo[0]]) + Dedup(NotSameAs(todo[0].relids, todo[1..]))
    ensures forall o :: o in done ==> !Same(o.relids, todo[0].relids)
  {
    var rel, rest := todo[0], todo[1..];
    var tail := NotSameAs(rel.relids, rest);
    var d := Dedup(tail);
    assert todo == [rel] + rest;
    DedupCons(rel, rest);
    assert Dedup(todo) == [rel] + d;
    assert done + ([rel] + d) == done + [rel] + d;
    DedupDistinct(rels);
    DistinctBefore(done, rel, d);
  }

  lemma StepDuplicates(rels: seq<RelOptInfo>, done: seq<RelOptInfo>, todo: seq<RelOptInfo>)
    requires todo != []
    requires forall r :: r in rels && !MatchesAny(done, r) ==> SameAs(r.relids, todo) == SameAs(r.relids, rels)
    requires forall o :: o in done ==> !Same(o.relids, todo[0].relids)
    requires todo[0] in rels
    ensures forall r :: r in rels && !MatchesAny(done + [todo[0]], r) ==>
              SameAs(r.relids, NotSameAs(todo[0].relids, todo[1..])) == SameAs(r.relids, rels)
    ensures Absorbed(todo[0], rels) == SameAs(todo[0].relids, todo[1..])
  {
    var rel, rest := todo[0], todo[1..];
    assert todo == [rel] + rest;
    forall r | r in rels && !MatchesAny(done + [rel], r)
      ensures SameAs(r.relids, NotSameAs(rel.relids, rest)) == SameAs(r.relids, rels)
    {
      MatchesAnySnoc(done, rel, r);
      SameAsAfterNotSameAs(r.relids, rel.relids, rest);
      SameAsCons(r.relids, rel, rest);
    }
    assert !MatchesAny(done, rel);
    SameAsCons(rel.relids, rel, rest);
  }

  /** Processing the next relation keeps JoinrelsProgress; no processed
      relation matches it, and the relations it absorbs are its duplicates in
      the rest of the list. */
  lemma JoinrelsStep(rels: seq<RelOptInfo>, done: seq<RelOptInfo>, todo: seq<RelOptInfo>)
    requires todo != [] && JoinrelsProgress(rels, done, todo)
    ensures JoinrelsProgress(rels, done + [todo[0]], NotSameAs(todo[0].relids, todo[1..]))
    ensures forall o :: o in done ==> !Same(o.relids, todo[0].relids)
    ensures todo[0] !in done
    ensures Absorbed(todo[0], rels) == SameAs(todo[0].relids, todo[1..])
  {
    assert todo[0] in todo;
    StepSubset(rels, todo);
    StepDedup(rels, done, todo);
    StepDuplicates(rels, done, todo);
  }

  /** The path list the next relation builds from the rest of the list is the
      one it is specified to build from the relations it absorbs, provided
      the two snapshots agree at its duplicates. */
  lemma JoinrelsFold(add: AddPathlist, rels: seq<RelOptInfo>, rel: RelOptInfo, acc: seq<Path>,
                     rest: seq<RelOptInfo>, current: map<RelOptInfo, seq<Path>>, lists: map<RelOptInfo, seq<Path>>)
    requires Absorbed(rel, rels) == SameAs(rel.relids, rest)
    requires forall x :: x in rest && x != rel && Same(rel.relids, x.relids) ==> Lookup(current, x) == Lookup(lists, x)
    ensures FoldDuplicates(add, rel, acc, rest, current) == FoldDuplicates(add, rel, acc, Absorbed(rel, rels), lists)
  {
    FoldOnlySame(add, rel, acc, rest, current);
    SameAsMembers(rel.relids, rest);
    FoldAgree(add, rel, acc, Absorbed(rel, rels), current, lists);
  }

  /** The first relation with its relids absorbs what follows it. */
  lemma FirstAbsorbs(add: AddPathlist, rels: seq<RelOptInfo>, k: nat, acc: seq<Path>, lists: map<RelOptInfo, seq<Path>>)
    requires k < |rels| && IsFirst(rels, k)
    ensures FoldDuplicates(add, rels[k], acc, Absorbed(rels[k], rels), lists)
         == FoldDuplicates(add, rels[k], acc, rels[k + 1..], lists)
  {
    AbsorbedOfFirst(rels, k);
    FoldOnlySame(add, rels[k], acc, rels[k + 1..], lists);
  }

  /** In the path lists `now`, each processed relation holds the path list it
      is specified to build from the snapshot `lists` and the relations it
      absorbs. */
  ghost predicate PathsMerged(add: AddPathlist, rels: seq<RelOptInfo>, done: seq<RelOptInfo>,
                              lists: map<RelOptInfo, seq<Path>>, now: map<RelOptInfo, seq<Path>>)
  {
    forall x :: x in done ==> Lookup(now, x) == FoldDuplicates(add, x, Lookup(lists, x), Absorbed(x, rels), lists)
  }

  /** In the path lists `now`, every relation of `rels` not processed yet
      still has its snapshot path list. */
  ghost predicate PathsKept(rels: seq<RelOptInfo>, done: seq<RelOptInfo>,
                            lists: map<RelOptInfo, seq<Path>>, now: map<RelOptInfo, seq<Path>>)
  {
    forall x :: x in rels && x !in done ==> Lookup(now, x) == Lookup(lists, x)
  }

  /** After a visit: the visited relation holds its new path list, no other
      path list changed, and both predicates hold one relation further. */
  lemma VisitDone(add: AddPathlist, rels: seq<RelOptInfo>, done: seq<RelOptInfo>, rel: RelOptInfo,
                  lists: map<RelOptInfo, seq<Path>>, now: map<RelOptInfo, seq<Path>>, after: map<RelOptInfo, seq<Path>>)
    requires rel !in done && forall x :: x in done ==> x in rels
    requires PathsMerged(add, rels, done, lists, now) && PathsKept(rels, done, lists, now)
    requires Lookup(after, rel) == FoldDuplicates(add, rel, Lookup(lists, rel), Absorbed(rel, rels), lists)
    requires forall x :: x in rels && x != rel ==> Lookup(after, x) == Lookup(now, x)
    ensures PathsMerged(add, rels, done + [rel], lists, after)
    ensures PathsKept(rels, done + [rel], lists, after)
  {
  }

  /** One visit of the scan of prune_joinrels: `rel` absorbs its duplicates
      among the relations `rest` after it, which are replaced by what
      prune_joinrel returns. */
  method VisitJoinrel(rels: seq<RelOptInfo>, done: seq<RelOptInfo>, rel: RelOptInfo, rest: seq<RelOptInfo>,
                      add: AddPathlist, ghost lists: map<RelOptInfo, seq<Path>>)
    returns (tail: seq<RelOptInfo>)
    requires rel in rels && rel !in done && forall x :: x in rest ==> x in rels
    requires forall x :: x in done ==> x in rels
    requires forall x :: x in rest && Same(rel.relids, x.relids) ==> x !in done
    requires Absorbed(rel, rels) == SameAs(rel.relids, rest)
    requires PathsMerged(add, rels, done, lists, PathlistMap(rels))
    requires PathsKept(rels, done, lists, PathlistMap(rels))
    modifies rel`pathlist
    ensures tail == NotSameAs(rel.relids, rest)
    ensures PathsMerged(add, rels, done + [rel], lists, PathlistMap(rels))
    ensures PathsKept(rels, done + [rel], lists, PathlistMap(rels))
  {
    ghost var now := PathlistMap(rels);
    ghost var current := PathlistMap(rest);
    ghost var acc := rel.pathlist;
    assert acc == Lookup(lists, rel);
    forall x | x in rest && x != rel && Same(rel.relids, x.relids)
      ensures Lookup(current, x) == Lookup(lists, x)
    {
      assert Lookup(current, x) == Lookup(now, x);
    }
    tail := PruneJoinrel(rel, rest, add);
    JoinrelsFold(add, rels, rel, acc, rest, current, lists);
    ghost var after := PathlistMap(rels);
    VisitDone(add, rels, done, rel, lists, now, after);
  }

  /** prune_joinrels: the list keeps the first relation of each relids set,
      in order; each survivor absorbs the path lists of the later relations
      with its relids; no other path list changes. */
  method PruneJoinrels(rels: seq<RelOptInfo>, add: AddPathlist) returns (pruned: seq<RelOptInfo>)
    modifies rels`pathlist
    ensures pruned == Dedup(rels)
    ensures forall k :: 0 <= k < |rels| && IsFirst(rels, k) ==>
              rels[k].pathlist == FoldDuplicates(add, rels[k], old(rels[k].pathlist), rels[k + 1..], old(PathlistMap(rels)))
    ensures forall x :: x in rels && x !in pruned ==> x.pathlist == old(x.pathlist)
  {
    ghost var lists := PathlistMap(rels);
    // The list is `done + todo`: the cells already visited by the scan, and
    // the rest, which each visit replaces by what prune_joinrel returns.
    var done, todo := [], rels;
    JoinrelsStart(rels);
    while todo != []
      invariant JoinrelsProgress(rels, done, todo)
      invariant forall x :: x in done ==> x in rels
      invariant PathsMerged(add, rels, done, lists, PathlistMap(rels))
      invariant PathsKept(rels, done, lists, PathlistMap(rels))
      decreases |todo|
    {
      var rel, rest := todo[0], todo[1..];
      JoinrelsStep(rels, done, todo);
      assert rel in todo && forall x :: x in rest ==> x in todo;
      var tail := VisitJoinrel(rels, done, rel, rest, add, lists);
      done, todo := done + [rel], tail;
    }
    assert done + Dedup([]) == done;
    pruned := done;
    ghost var now := PathlistMap(rels);
    DedupMembers(rels);
    forall k | 0 <= k < |rels| && IsFirst(rels, k)
      ensures rels[k].pathlist == FoldDuplicates(add, rels[k], old(rels[k].pathlist), rels[k + 1..], lists)
    {
      assert rels[k] in rels && rels[k] in done;
      FirstAbsorbs(add, rels, k, old(rels[k].pathlist), lists);
    }
  }

  /** A relation matches itself. */
  lemma MatchesSelf(rels: seq<RelOptInfo>, x: RelOptInfo)
    requires x in rels
    ensures MatchesAny(rels, x)
  {
  }

  /** In a list without duplicates, the relation at `m` is the first with its
      relids, and no earlier cell holds the same object. */
  lemma DistinctFirst(rels: seq<RelOptInfo>, m: nat)
    requires PairwiseDistinct(rels) && m < |rels|
    ensures IsFirst(rels, m) && rels[m] !in rels[..m]
  {
    assert rels == rels[..m] + [rels[m]] + rels[m + 1..];
    DistinctBefore(rels[..m], rels[m], rels[m + 1..]);
    if rels[m] in rels[..m] {
      MatchesSelf(rels[..m], rels[m]);
    }
  }

  /** On a list without duplicates prune_joinrels changes nothing: every
      relation is the first with its relids and absorbs no path list. */
  lemma PrunedJoinrelsStable(add: AddPathlist, rels: seq<RelOptInfo>, k: nat, acc: seq<Path>,
                             lists: map<RelOptInfo, seq<Path>>)
    requires PairwiseDistinct(rels) && k < |rels|
    ensures IsFirst(rels, k)
    ensures FoldDuplicates(add, rels[k], acc, rels[k + 1..], lists) == acc
  {
    DistinctFirst(rels, k);
    forall o | o in rels[k + 1..] ensures !Same(o.relids, rels[k].relids) {
      var j :| 0 <= j < |rels| - k - 1 && rels[k + 1..][j] == o;
      assert rels[k + 1 + j] == o;
    }
    FoldNoDuplicates(add, rels[k], acc, rels[k + 1..], lists);
  }

  /** In the path lists `now`, the first `m` relations of `rels1` hold the
      path lists they are specified to build from all of `rels2`. */
  ghost predicate MergedPrefix(add: AddPathlist, rels1: seq<RelOptInfo>, rels2: seq<RelOptInfo>, m: nat,
                               lists: map<RelOptInfo, seq<Path>>, now: map<RelOptInfo, seq<Path>>)
    requires m <= |rels1|
  {
    forall j :: 0 <= j < m ==> Lookup(now, rels1[j]) == FoldDuplicates(add, rels1[j], Lookup(lists, rels1[j]), rels2, lists)
  }

  /** In the path lists `now`, every relation of either list outside the
      first `m` relations of `rels1` still has its snapshot path list. */
  ghost predicate KeptOutsidePrefix(rels1: seq<RelOptInfo>, rels2: seq<RelOptInfo>, m: nat,
                                    lists: map<RelOptInfo, seq<Path>>, now: map<RelOptInfo, seq<Path>>)
    requires m <= |rels1|
  {
    forall x :: x in rels1 + rels2 && x !in rels1[..m] ==> Lookup(now, x) == Lookup(lists, x)
  }

  /** After the visit of `rels1[m]`, both predicates hold one relation further. */
  lemma MergeVisitDone(add: AddPathlist, rels1: seq<RelOptInfo>, rels2: seq<RelOptInfo>, m: nat,
                       lists: map<RelOptInfo, seq<Path>>, now: map<RelOptInfo, seq<Path>>,
                       after: map<RelOptInfo, seq<Path>>)
    requires m < |rels1| && rels1[m] !in rels1[..m]
    requires MergedPrefix(add, rels1, rels2, m, lists, now) && KeptOutsidePrefix(rels1, rels2, m, lists, now)
    requires Lookup(after, rels1[m]) == FoldDuplicates(add, rels1[m], Lookup(lists, rels1[m]), rels2, lists)
    requires forall x :: x in rels1 + rels2 && x != rels1[m] ==> Lookup(after, x) == Lookup(now, x)
    ensures MergedPrefix(add, rels1, rels2, m + 1, lists, after)
    ensures KeptOutsidePrefix(rels1, rels2, m + 1, lists, after)
  {
    assert rels1[..m + 1] == rels1[..m] + [rels1[m]];
    forall j | 0 <= j < m ensures rels1[j] != rels1[m] && rels1[j] in rels1 + rels2 {
      assert rels1[j] in rels1[..m];
    }
  }

  /** Before the visit of `rels1[m]`: the relations still unmatched have
      their snapshot path lists. */
  lemma MergeReady(rels1: seq<RelOptInfo>, rels2: seq<RelOptInfo>, m: nat, rest: seq<RelOptInfo>,
                   lists: map<RelOptInfo, seq<Path>>, now: map<RelOptInfo, seq<Path>>)
    requires m <= |rels1| && rest == Unmatched(rels1[..m], rels2)
    requires KeptOutsidePrefix(rels1, rels2, m, lists, now)
    ensures forall x :: x in rest ==> x in rels1 + rels2 && Lookup(now, x) == Lookup(lists, x)
  {
    UnmatchedMembers(rels1[..m], rels2);
    forall x | x in rest ensures x in rels1 + rels2 && x !in rels1[..m] {
      if x in rels1[..m] {
        MatchesSelf(rels1[..m], x);
      }
    }
  }

  /** What the visit of `rels1[m]` leaves behind: the relations unmatched by
      one more relation of `rels1`, and the path list `rel` builds from them,
      which is the one it builds from all of `rels2`. */
  lemma MergeFold(add: AddPathlist, rels1: seq<RelOptInfo>, rels2: seq<RelOptInfo>, m: nat, acc: seq<Path>,
                  rest: seq<RelOptInfo>, current: map<RelOptInfo, seq<Path>>, lists: map<RelOptInfo, seq<Path>>)
    requires m < |rels1| && IsFirst(rels1, m)
    requires rest == Unmatched(rels1[..m], rels2)
    requires forall x :: x in rest ==> Lookup(current, x) == Lookup(lists, x)
    ensures NotSameAs(rels1[m].relids, rest) == Unmatched(rels1[..m + 1], rels2)
    ensures FoldDuplicates(add, rels1[m], acc, rest, current) == FoldDuplicates(add, rels1[m], acc, rels2, lists)
  {
    var rel := rels1[m];
    UnmatchedExtend(rels1[..m], rel, rels2);
    assert rels1[..m + 1] == rels1[..m] + [rel];
    SameAsAfterUnmatched(rel, rels1[..m], rels2);
    FoldTransfer(add, rel, acc, rest, current, rels2, lists);
  }

  /** One visit of the scan of merge_joinrels: `rels1[m]` absorbs its
      duplicates among the relations of `rels2` left unmatched so far. */
  method VisitMerge(rels1: seq<RelOptInfo>, rels2: seq<RelOptInfo>, m: nat, rel: RelOptInfo, rest: seq<RelOptInfo>,
                    add: AddPathlist, ghost lists: map<RelOptInfo, seq<Path>>)
    returns (tail: seq<RelOptInfo>)
    requires m < |rels1| && rel == rels1[m] && PairwiseDistinct(rels1)
    requires rest == Unmatched(rels1[..m], rels2)
    requires MergedPrefix(add, rels1, rels2, m, lists, PathlistMap(rels1 + rels2))
    requires KeptOutsidePrefix(rels1, rels2, m, lists, PathlistMap(rels1 + rels2))
    modifies rel`pathlist
    ensures tail == Unmatched(rels1[..m + 1], rels2)
    ensures MergedPrefix(add, rels1, rels2, m + 1, lists, PathlistMap(rels1 + rels2))
    ensures KeptOutsidePrefix(rels1, rels2, m + 1, lists, PathlistMap(rels1 + rels2))
  {
    ghost var now := PathlistMap(rels1 + rels2);
    ghost var current := PathlistMap(rest);
    ghost var acc := rel.pathlist;
    DistinctFirst(rels1, m);
    assert rel in rels1 + rels2;
    assert acc == Lookup(lists, rel);
    MergeReady(rels1, rels2, m, rest, lists, now);
    assert forall x :: x in rest ==> Lookup(current, x) == Lookup(lists, x);
    tail := PruneJoinrel(rel, rest, add);
    MergeFold(add, rels1, rels2, m, acc, rest, current, lists);
    ghost var after := PathlistMap(rels1 + rels2);
    assert rel in rels1 + rels2;
    MergeVisitDone(add, rels1, rels2, m, lists, now, after);
  }

  /** merge_joinrels: the relations of `rels1`, followed by those of `rels2`
      that have no duplicate in `rels1`; each relation of `rels1` absorbs
      the path lists of its duplicates in `rels2`. */
  method MergeJoinrels(rels1: seq<RelOptInfo>, rels2: seq<RelOptInfo>, add: AddPathlist)
    returns (merged: seq<RelOptInfo>)
    requires PairwiseDistinct(rels1)
    modifies rels1`pathlist
    ensures merged == rels1 + Unmatched(rels1, rels2)
    ensures forall m :: 0 <= m < |rels1| ==>
              rels1[m].pathlist == FoldDuplicates(add, rels1[m], old(rels1[m].pathlist), rels2, old(PathlistMap(rels2)))
  {
    ghost var lists := PathlistMap(rels1 + rels2);
    var rest := rels2;
    var m := 0;
    assert rels1[..0] == [];
    UnmatchedNone(rels2);
    while m < |rels1|
      invariant 0 <= m <= |rels1|
      invariant rest == Unmatched(rels1[..m], rels2)
      invariant MergedPrefix(add, rels1, rels2, m, lists, PathlistMap(rels1 + rels2))
      invariant KeptOutsidePrefix(rels1, rels2, m, lists, PathlistMap(rels1 + rels2))
    {
      rest := VisitMerge(rels1, rels2, m, rels1[m], rest, add, lists);
      m := m + 1;
    }
    assert rels1[..m] == rels1;
    merged := rels1 + rest;
    ghost var now := PathlistMap(rels1 + rels2);
    forall j | 0 <= j < |rels1|
      ensures rels1[j].pathlist == FoldDuplicates(add, rels1[j], old(rels1[j].pathlist), rels2, old(PathlistMap(rels2)))
    {
      assert rels1[j] in rels1 + rels2;
      FoldAgree(add, rels1[j], old(rels1[j].pathlist), rels2, lists, old(PathlistMap(rels2)));
    }
  }

  /** The position where the scan of a non-empty path list in
      prune_rel_paths stops: the first path whose ordering has no sort
      operator, or the last path when every path has one. */
  function CandidateIndex(paths: seq<Path>): (k: nat)
    requires paths != []
    ensures k < |paths|
    ensures forall j :: 0 <= j < k ==> paths[j].hasSortOp
    ensures !paths[k].hasSortOp || k == |paths| - 1
  {
    if !paths[0].hasSortOp || |paths| == 1 then 0 else 1 + CandidateIndex(paths[1..])
  }

  /** The scan stops at one position only: any position before which every
      path has a sort operator, and which holds a path without one or is the
      last, is CandidateIndex. */
  lemma CandidateUnique(paths: seq<Path>, y: nat)
    requires y < |paths|
    requires forall j :: 0 <= j < y ==> paths[j].hasSortOp
    requires !paths[y].hasSortOp || y == |paths| - 1
    ensures y == CandidateIndex(paths)
  {
  }

  /** When every path of a pruneable relation is ordered, the scan falls
      through to the last path, and prune_rel_path drops that (ordered) path
      unless it is the cheapest one. */
  lemma OrderedFallbackPruned(paths: seq<Path>, carried: Path?, cheapest: Path,
                              pathlist: seq<Path>, unorderedField: Path?)
    requires paths != [] && forall j :: 0 <= j < |paths| ==> paths[j].hasSortOp
    requires paths[|paths| - 1] != cheapest
    requires RelPathPruned(paths, true, ScannedPath(paths, carried), cheapest, pathlist, unorderedField)
    ensures unorderedField == null
    ensures multiset(pathlist) == multiset(paths) - multiset{paths[|paths| - 1]}
  {
    var last := paths[|paths| - 1];
    assert ScannedPath(paths, carried) == last;
    RemoveFirstMultiset<Path>(paths, last);
  }

  /** The path the scan of `pathlist` leaves in the loop variable, which held
      `path` before: the scan of an empty list does not assign it. */
  function ScannedPath(pathlist: seq<Path>, path: Path?): Path?
  {
    if pathlist == [] then path else pathlist[CandidateIndex(pathlist)]
  }

  /** The scan of the path list in prune_rel_paths: it stops at the first
      path without a sort operator, and the loop variable keeps the last
      path it visited. */
  method ScanPathlist(pathlist: seq<Path>, path0: Path?) returns (path: Path?)
    ensures path == ScannedPath(pathlist, path0)
    ensures pathlist != [] ==> path in pathlist
  {
    path := path0;
    var y := 0;
    while y < |pathlist|
      invariant 0 <= y <= |pathlist|
      invariant y == 0 ==> path == path0
      invariant y > 0 ==> path == pathlist[y - 1]
      invariant forall j :: 0 <= j < y ==> pathlist[j].hasSortOp
    {
      path := pathlist[y];
      if !path.hasSortOp {
        break;
      }
      y := y + 1;
    }
    if pathlist != [] {
      CandidateUnique(pathlist, if y < |pathlist| then y else |pathlist| - 1);
    }
  }

  /** What prune_rel_path leaves in a relation whose path list was
      `pathlist0`, given the unordered path passed in and the cheapest path:
      an unordered path other than the cheapest is dropped from the list and
      from the relation when the relation is pruneable, and kept otherwise. */
  predicate RelPathPruned(pathlist0: seq<Path>, pruneable: bool, unordered: Path?, cheapest: Path,
                          pathlist: seq<Path>, unorderedField: Path?)
  {
    if unordered != cheapest && pruneable then
      && unorderedField == null
      && pathlist == (if unordered == null then pathlist0 else RemoveFirst<Path>(pathlist0, unordered))
    else
      && unorderedField == unordered
      && pathlist == pathlist0
  }

  /** Pruning removes at most the one given unordered path: every other path
      keeps its number of occurrences, the cheapest path among them, and an
      unordered path listed once is gone from a pruneable relation. */
  lemma PrunedPaths(pathlist0: seq<Path>, pruneable: bool, unordered: Path?, cheapest: Path,
                    pathlist: seq<Path>, unorderedField: Path?)
    requires RelPathPruned(pathlist0, pruneable, unordered, cheapest, pathlist, unorderedField)
    ensures forall p :: p != unordered ==> multiset(pathlist)[p] == multiset(pathlist0)[p]
    ensures unordered != null && unordered != cheapest && pruneable ==>
              multiset(pathlist)[unordered] == multiset(pathlist0)[unordered] - (if unordered in pathlist0 then 1 else 0)
    ensures cheapest in pathlist <==> cheapest in pathlist0
    ensures !pruneable ==> pathlist == pathlist0 && unorderedField == unordered
  {
    if unordered != null && unordered != cheapest && pruneable {
      RemoveFirstMultiset<Path>(pathlist0, unordered);
      assert cheapest in multiset(pathlist) <==> cheapest in multiset(pathlist0);
    }
  }

  /** prune_rel_path: the cheapest path chosen over the relation's path list
      (set_cheapest also records it in the relation), and the unordered path
      pruned or kept as RelPathPruned says. */
  method PruneRelPath(rel: RelOptInfo, unorderedpath: Path?, setCheapest: SetCheapest) returns (cheapest: Path)
    modifies rel`pathlist, rel`unorderedpath, rel`cheapestpath
    ensures cheapest == setCheapest(rel, old(rel.pathlist)) && rel.cheapestpath == cheapest
    ensures RelPathPruned(old(rel.pathlist), rel.pruneable, unorderedpath, cheapest, rel.pathlist, rel.unorderedpath)
  {
    cheapest := setCheapest(rel, rel.pathlist);
    rel.cheapestpath := cheapest;
    if unorderedpath != cheapest && rel.pruneable {
      rel.unorderedpath := null;
      if unorderedpath != null {
        rel.pathlist := RemoveFirst<Path>(rel.pathlist, unorderedpath);
      }
    } else {
      rel.unorderedpath := unorderedpath;
    }
  }

  /** How prune_rel_paths ends: it returns, or elog(ERROR) aborts it at the
      relation `at` of the list, whose cheapest path is not a join path. */
  datatype Outcome = Done | ElogError(message: string, at: nat)

  /** The number of relations of a list of `n` that prune_rel_paths
      completes before it ends with `outcome`. */
  function Completed(outcome: Outcome, n: nat): nat
  {
    if outcome.Done? then n else outcome.at
  }

  /** The fields of a relation that prune_rel_paths reads or writes. */
  datatype RelFields = RelFields(pathlist: seq<Path>, unorderedpath: Path?, cheapestpath: Path?, size: int, pruneable: bool)

  function FieldsOf(rel: RelOptInfo): RelFields
    reads rel
  {
    RelFields(rel.pathlist, rel.unorderedpath, rel.cheapestpath, rel.size, rel.pruneable)
  }

  /** The fields of `rels` that prune_rel_paths reads or writes, in order. */
  function FieldsOfAll(rels: seq<RelOptInfo>): (fields: seq<RelFields>)
    reads rels
    ensures |fields| == |rels|
    ensures forall i {:trigger fields[i]} :: 0 <= i < |rels| ==> fields[i] == FieldsOf(rels[i])
  {
    if rels == [] then [] else [FieldsOf(rels[0])] + FieldsOfAll(rels[1..])
  }

  /** The loop variable `path` of prune_rel_paths once the path lists of the
      relations `before[..i]` have been scanned, starting from NULL. */
  function CarriedPath(before: seq<RelFields>, i: nat): Path?
    requires i <= |before|
  {
    if i == 0 then null else ScannedPath(before[i - 1].pathlist, CarriedPath(before, i - 1))
  }

  /** The fields `f` prune_rel_paths leaves in `rel`, whose fields were `f0`,
      the scan having left `unordered` in the loop variable: its cheapest
      path is recorded, its unordered path pruned or kept, and its size is
      the estimate of the cheapest path when that is a join path (`joined`)
      and 0 otherwise. */
  predicate RelSettled(rel: RelOptInfo, f0: RelFields, unordered: Path?, setCheapest: SetCheapest,
                       joinrelSize: JoinrelSize, f: RelFields, joined: bool)
  {
    var cheapest := setCheapest(rel, f0.pathlist);
    && joined == cheapest.isJoinPath
    && f.pruneable == f0.pruneable
    && f.cheapestpath == cheapest
    && RelPathPruned(f0.pathlist, f0.pruneable, unordered, cheapest, f.pathlist, f.unorderedpath)
    && f.size == (if joined then joinrelSize(cheapest) else 0)
  }

  /** The fields `after` prune_rel_paths leaves in `rels`, whose fields were
      `before`, when it ends with `outcome`: the relations before the one it
      stops at are settled with a join path, the one it stops at (if any)
      without one, and the rest are untouched. */
  predicate RelPathsResult(rels: seq<RelOptInfo>, before: seq<RelFields>, after: seq<RelFields>, outcome: Outcome,
                           setCheapest: SetCheapest, joinrelSize: JoinrelSize)
    requires |before| == |rels| && |after| == |rels|
  {
    var n := Completed(outcome, |rels|);
    && (outcome.ElogError? ==> outcome.at < |rels| && outcome.message == "non JoinPath called")
    && (forall i :: 0 <= i < |rels| && i <= n ==>
          RelSettled(rels[i], before[i], CarriedPath(before, i + 1), setCheapest, joinrelSize, after[i], i < n))
    && (forall i :: n < i < |rels| ==> after[i] == before[i])
  }

  /** Every relation prune_rel_paths settles keeps its cheapest path in its
      path list, provided set_cheapest picked it from that list, and a
      relation that is not pruneable keeps its whole path list. */
  lemma SettledKeepsCheapest(rels: seq<RelOptInfo>, before: seq<RelFields>, after: seq<RelFields>, outcome: Outcome,
                             setCheapest: SetCheapest, joinrelSize: JoinrelSize, i: nat)
    requires |before| == |rels| && |after| == |rels| && i < |rels|
    requires RelPathsResult(rels, before, after, outcome, setCheapest, joinrelSize)
    requires i <= Completed(outcome, |rels|)
    requires setCheapest(rels[i], before[i].pathlist) in before[i].pathlist
    ensures after[i].cheapestpath == setCheapest(rels[i], before[i].pathlist)
    ensures setCheapest(rels[i], before[i].pathlist) in after[i].pathlist
    ensures !before[i].pruneable ==> after[i].pathlist == before[i].pathlist
  {
    var f0, f := before[i], after[i];
    var cheapest := setCheapest(rels[i], f0.pathlist);
    assert RelSettled(rels[i], f0, CarriedPath(before, i + 1), setCheapest, joinrelSize, f, i < Completed(outcome, |rels|));
    PrunedPaths(f0.pathlist, f0.pruneable, CarriedPath(before, i + 1), cheapest, f.pathlist, f.unorderedpath);
  }

  /** The fields `now` once prune_rel_paths has settled the first `k`
      relations, all with a join path, and left the rest untouched. */
  predicate RelPathsPrefix(rels: seq<RelOptInfo>, before: seq<RelFields>, now: seq<RelFields>, k: nat,
                           setCheapest: SetCheapest, joinrelSize: JoinrelSize)
    requires |before| == |rels| && |now| == |rels| && k <= |rels|
  {
    && (forall i :: 0 <= i < k ==>
          RelSettled(rels[i], before[i], CarriedPath(before, i + 1), setCheapest, joinrelSize, now[i], true))
    && (forall i :: k <= i < |rels| ==> now[i] == before[i])
  }

  /** Settling one more relation extends the prefix when its cheapest path is
      a join path, and is the result of the aborted scan otherwise. */
  lemma RelPathsStep(rels: seq<RelOptInfo>, before: seq<RelFields>, now: seq<RelFields>, after: seq<RelFields>, k: nat,
                     setCheapest: SetCheapest, joinrelSize: JoinrelSize, joined: bool)
    requires |before| == |rels| && |now| == |rels| && |after| == |rels| && k < |rels|
    requires RelPathsPrefix(rels, before, now, k, setCheapest, joinrelSize)
    requires RelSettled(rels[k], before[k], CarriedPath(before, k + 1), setCheapest, joinrelSize, after[k], joined)
    requires forall i :: 0 <= i < |rels| && i != k ==> after[i] == now[i]
    ensures joined ==> RelPathsPrefix(rels, before, after, k + 1, setCheapest, joinrelSize)
    ensures !joined ==> RelPathsResult(rels, before, after, ElogError("non JoinPath called", k), setCheapest, joinrelSize)
  {
  }

  /** Settling every relation, all with a join path, is the result of the
      completed scan. */
  lemma RelPathsAll(rels: seq<RelOptInfo>, before: seq<RelFields>, now: seq<RelFields>,
                    setCheapest: SetCheapest, joinrelSize: JoinrelSize)
    requires |before| == |rels| && |now| == |rels|
    requires RelPathsPrefix(rels, before, now, |rels|, setCheapest, joinrelSize)
    ensures RelPathsResult(rels, before, now, Done, setCheapest, joinrelSize)
  {
  }

  /** One visit of the scan of prune_rel_paths: the size is reset, the path
      list scanned from the loop variable `path`, the unordered path pruned,
      and the size estimated when the cheapest path is a join path, which
      `joined` reports. */
  method VisitRelPaths(rel: RelOptInfo, path: Path?, setCheapest: SetCheapest, joinrelSize: JoinrelSize)
    returns (next: Path?, joined: bool)
    modifies rel`pathlist, rel`unorderedpath, rel`cheapestpath, rel`size
    ensures next == ScannedPath(old(rel.pathlist), path)
    ensures RelSettled(rel, old(FieldsOf(rel)), next, setCheapest, joinrelSize, FieldsOf(rel), joined)
  {
    rel.size := 0;
    next := ScanPathlist(rel.pathlist, path);
    var cheapest := PruneRelPath(rel, next, setCheapest);
    joined := cheapest.isJoinPath;
    if joined {
      rel.size := joinrelSize(cheapest);
    }
  }

  /** The visit of the relation at position `k` of prune_rel_paths, which
      changes only that relation: the settled prefix grows by one when its
      cheapest path is a join path, and the scan's result is reached otherwise. */
  method SettleAt(rels: seq<RelOptInfo>, k: nat, rel: RelOptInfo, path: Path?, ghost before: seq<RelFields>,
                  setCheapest: SetCheapest, joinrelSize: JoinrelSize)
    returns (next: Path?, joined: bool)
    requires Distinct(rels) && k < |rels| && rel == rels[k] && |before| == |rels|
    requires path == CarriedPath(before, k)
    requires RelPathsPrefix(rels, before, FieldsOfAll(rels), k, setCheapest, joinrelSize)
    modifies rel`pathlist, rel`unorderedpath, rel`cheapestpath, rel`size
    ensures next == CarriedPath(before, k + 1)
    ensures joined ==> RelPathsPrefix(rels, before, FieldsOfAll(rels), k + 1, setCheapest, joinrelSize)
    ensures !joined ==> RelPathsResult(rels, before, FieldsOfAll(rels), ElogError("non JoinPath called", k),
                                       setCheapest, joinrelSize)
  {
    ghost var now := FieldsOfAll(rels);
    assert FieldsOf(rel) == now[k] == before[k];
    next, joined := VisitRelPaths(rel, path, setCheapest, joinrelSize);
    ghost var after := FieldsOfAll(rels);
    forall i | 0 <= i < |rels| && i != k ensures after[i] == now[i] {
      DistinctAt(rels, i, k);
    }
    RelPathsStep(rels, before, now, after, k, setCheapest, joinrelSize, joined);
  }

  /** prune_rel_paths: each relation in turn gets its cheapest path, its
      unordered path pruned or kept, and the estimated size of its cheapest
      path, until one whose cheapest path is not a join path aborts the scan
      with its size reset to 0; the relations after it are untouched. */
  method PruneRelPaths(rels: seq<RelOptInfo>, setCheapest: SetCheapest, joinrelSize: JoinrelSize)
    returns (outcome: Outcome)
    requires Distinct(rels)
    modifies rels`pathlist, rels`unorderedpath, rels`cheapestpath, rels`size
    ensures RelPathsResult(rels, old(FieldsOfAll(rels)), FieldsOfAll(rels), outcome, setCheapest, joinrelSize)
  {
    ghost var before := FieldsOfAll(rels);
    var path: Path? := null;
    var k := 0;
    while k < |rels|
      invariant 0 <= k <= |rels|
      invariant path == CarriedPath(before, k)
      invariant RelPathsPrefix(rels, before, FieldsOfAll(rels), k, setCheapest, joinrelSize)
    {
      var joined;
      path, joined := SettleAt(rels, k, rels[k], path, before, setCheapest, joinrelSize);
      if !joined {
        outcome := ElogError("non JoinPath called", k);
        return;
      }
      k := k + 1;
    }
    RelPathsAll(rels, before, FieldsOfAll(rels), setCheapest, joinrelSize);
    outcome := Done;
  }

  /** A relation is exhausted when it has join edges and every one of them is
      inactive. */
  predicate Exhausted(rel: RelOptInfo)
    reads rel
  {
    rel.joininfo != [] && forall j :: 0 <= j < |rel.joininfo| ==> rel.joininfo[j].inactive
  }

  /** The relations of `rels` that are not exhausted, in order. */
  function Unexhausted(rels: seq<RelOptInfo>): seq<RelOptInfo>
    reads rels
  {
    if rels == [] then [] else (if Exhausted(rels[0]) then [] else [rels[0]]) + Unexhausted(rels[1..])
  }

  /** Keeping the unexhausted relations keeps exactly the relations without
      join edges and those with an active one. */
  lemma {:induction false} UnexhaustedMembers(rels: seq<RelOptInfo>)
    ensures forall x :: x in Unexhausted(rels) <==> x in rels && !Exhausted(x)
  {
    if rels != [] {
      UnexhaustedMembers(rels[1..]);
      assert forall x :: x in rels <==> x == rels[0] || x in rels[1..];
    }
  }

  lemma {:induction false} UnexhaustedSnoc(rels: seq<RelOptInfo>, rel: RelOptInfo)
    ensures Unexhausted(rels + [rel]) == Unexhausted(rels) + (if Exhausted(rel) then [] else [rel])
  {
    if rels == [] {
      assert rels + [rel] == [rel];
    } else {
      assert (rels + [rel])[1..] == rels[1..] + [rel];
      UnexhaustedSnoc(rels[1..], rel);
    }
  }

  /** prune_oldrels: the unexhausted relations of `oldRels`, in reverse order,
      since each one kept is put at the front of the result. */
  method PruneOldrels(oldRels: seq<RelOptInfo>) returns (tempList: seq<RelOptInfo>)
    ensures tempList == Reverse(Unexhausted(oldRels))
    ensures forall x :: x in tempList <==> x in oldRels && !Exhausted(x)
  {
    tempList := [];
    var i := 0;
    while i < |oldRels|
      invariant 0 <= i <= |oldRels|
      invariant tempList == Reverse(Unexhausted(oldRels[..i]))
    {
      var rel := oldRels[i];
      var joininfoList := rel.joininfo;
      assert oldRels[..i + 1] == oldRels[..i] + [rel];
      UnexhaustedSnoc(oldRels[..i], rel);
      ReverseSnoc(Unexhausted(oldRels[..i]), rel);
      if joininfoList == [] {
        tempList := [rel] + tempList;
      } else {
        var x := 0;
        while x < |joininfoList|
          invariant 0 <= x <= |joininfoList|
          invariant forall j :: 0 <= j < x ==> joininfoList[j].inactive
          invariant tempList == Reverse(Unexhausted(oldRels[..i]))
        {
          if !joininfoList[x].inactive {
            tempList := [rel] + tempList;
            break;
          }
          x := x + 1;
        }
      }
      i := i + 1;
    }
    assert oldRels[..i] == oldRels;
    UnexhaustedMembers(oldRels);
    forall x ensures x in tempList <==> x in Unexhausted(oldRels) {
      ReverseMembers(Unexhausted(oldRels), x);
    }
  }
}
