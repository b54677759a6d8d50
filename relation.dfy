/**
 * The planner nodes that the pruning routines of the optimizer work on:
 * candidate relations (RelOptInfo), their access and join strategies (Path)
 * and their join edges (JoinInfo), together with the primitives of the path
 * and cost modules that the pruning routines call but do not define.
 */
module Relation {

  /** A candidate strategy for producing a relation's tuples. Paths are
      compared by identity; only two of their properties matter here. */
  class Path {
    /** The path's ordering carries a sort operator (p_ordering.ord.sortop is set). */
    const hasSortOp: bool
    /** The path is a join path (IsA_JoinPath holds of it). */
    const isJoinPath: bool

    constructor (hasSortOp: bool, isJoinPath: bool)
      ensures this.hasSortOp == hasSortOp && this.isJoinPath == isJoinPath
    {
      this.hasSortOp := hasSortOp;
      this.isJoinPath := isJoinPath;
    }
  }

  /** A join edge to relations not yet joined with its owner; `inactive` is set
      once every join order of the current level has used it. */
  datatype JoinInfo = JoinInfo(otherrels: seq<int>, inactive: bool)

  /** A candidate base or join relation. `relids` is fixed when the node is
      built; the other fields are updated in place by the planner. */
  class RelOptInfo {
    const relids: seq<int>
    var pathlist: seq<Path>
    var unorderedpath: Path?
    var cheapestpath: Path?
    var pruneable: bool
    var size: int
    var joininfo: seq<JoinInfo>

    constructor (relids: seq<int>, pathlist: seq<Path>, pruneable: bool, joininfo: seq<JoinInfo>)
      ensures this.relids == relids && this.pathlist == pathlist
      ensures this.pruneable == pruneable && this.joininfo == joininfo
      ensures unorderedpath == null && cheapestpath == null && size == 0
    {
      this.relids := relids;
      this.pathlist := pathlist;
      this.pruneable := pruneable;
      this.joininfo := joininfo;
      unorderedpath := null;
      cheapestpath := null;
      size := 0;
    }
  }

  /** The elements of `s` are strictly increasing. */
  predicate Increasing(s: seq<int>)
  {
    forall i, j :: 0 <= i < j < |s| ==> s[i] < s[j]
  }

  /** `s` with `id` inserted at its place (once). */
  function Insert(id: int, s: seq<int>): seq<int>
  {
    if s == [] then [id]
    else if id < s[0] then [id] + s
    else if id == s[0] then s
    else [s[0]] + Insert(id, s[1..])
  }

  /** Inserting into an increasing list keeps it increasing and adds `id`. */
  lemma {:induction false} InsertCanonical(id: int, s: seq<int>)
    requires Increasing(s)
    ensures Increasing(Insert(id, s))
    ensures forall x :: x in Insert(id, s) <==> x == id || x in s
  {
    if s != [] && id > s[0] {
      InsertCanonical(id, s[1..]);
      var r := Insert(id, s);
      assert r == [s[0]] + Insert(id, s[1..]);
      forall i, j | 0 <= i < j < |r| ensures r[i] < r[j] {
        if i == 0 {
          assert r[j] in Insert(id, s[1..]);
          assert r[j] == id || r[j] in s[1..];
        }
      }
    }
  }

  /** The canonical form of a relid list: the base relations it names, in
      increasing order and without repetition. */
  function Key(relids: seq<int>): seq<int>
  {
    if relids == [] then [] else Insert(relids[0], Key(relids[1..]))
  }

  /** The canonical form is increasing and names exactly the relids. */
  lemma {:induction false} KeyCanonical(relids: seq<int>)
    ensures Increasing(Key(relids))
    ensures forall x :: x in Key(relids) <==> x in relids
  {
    if relids != [] {
      KeyCanonical(relids[1..]);
      InsertCanonical(relids[0], Key(relids[1..]));
      assert forall x :: x in relids <==> x == relids[0] || x in relids[1..];
    }
  }

  /** The head of an increasing list is its least element. */
  lemma IncreasingHead(s: seq<int>, x: int)
    requires Increasing(s) && x in s
    ensures s[0] <= x
  {
    var i :| 0 <= i < |s| && s[i] == x;
    assert i == 0 || s[0] < s[i];
  }

  /** The tail of an increasing list holds its elements other than the head. */
  lemma IncreasingTail(s: seq<int>, x: int)
    requires Increasing(s) && s != []
    ensures x in s[1..] <==> x in s && x != s[0]
  {
    if x in s[1..] {
      var i :| 0 <= i < |s| - 1 && s[1..][i] == x;
      assert s[0] < s[i + 1];
    }
    if x in s && x != s[0] {
      var k :| 0 <= k < |s| && s[k] == x;
      assert s[1..][k - 1] == x;
    }
  }

  /** Two increasing lists with the same elements are the same list. */
  lemma {:induction false} IncreasingUnique(a: seq<int>, b: seq<int>)
    requires Increasing(a) && Increasing(b)
    requires forall x :: x in a <==> x in b
    ensures a == b
    decreases |a|
  {
    assert b != [] ==> b[0] in b;
    if a != [] {
      assert a[0] in a && b != [] && b[0] in b;
      IncreasingHead(a, b[0]);
      IncreasingHead(b, a[0]);
      forall x ensures x in a[1..] <==> x in b[1..] {
        IncreasingTail(a, x);
        IncreasingTail(b, x);
      }
      IncreasingUnique(a[1..], b[1..]);
      assert a == [a[0]] + a[1..] && b == [b[0]] + b[1..];
    }
  }

  /** The model's reading of same(): two relid lists name the same base
      relations, in any order. */
  predicate Same(a: seq<int>, b: seq<int>)
  {
    Key(a) == Key(b)
  }

  /** Comparing canonical forms is comparing the relid lists as sets. */
  lemma SameIsSetEquality(a: seq<int>, b: seq<int>)
    ensures Same(a, b) <==> (forall x :: x in a <==> x in b)
  {
    KeyCanonical(a);
    KeyCanonical(b);
    if forall x :: x in a <==> x in b {
      IncreasingUnique(Key(a), Key(b));
    }
  }

  /** add_pathlist(rel, unique_paths, new_paths): the path module's merge of
      two path lists of one relation; its dominance policy is not modelled. */
  type AddPathlist = (RelOptInfo, seq<Path>, seq<Path>) -> seq<Path>

  /** set_cheapest(rel, pathlist): the cost module's choice of a cheapest path.
      The only property the pruning routines rely on, required where it is
      used, is that the path it picks from a non-empty list is in that list. */
  type SetCheapest = (RelOptInfo, seq<Path>) -> Path

  /** compute_joinrel_size(joinpath): the cardinality estimate of a join path. */
  type JoinrelSize = Path -> int

  /** A snapshot of the path lists of `rels`, keyed by relation. */
  function PathlistMap(rels: seq<RelOptInfo>): (m: map<RelOptInfo, seq<Path>>)
    reads rels
    ensures forall r :: r in rels ==> r in m && m[r] == r.pathlist
  {
    map r | r in rels :: r.pathlist
  }

  /** The path list a snapshot records for `rel` (empty when it has none). */
  function Lookup(m: map<RelOptInfo, seq<Path>>, rel: RelOptInfo): seq<Path>
  {
    if rel in m then m[rel] else []
  }
}
