/**
 * The two list primitives of the list package that the pruning routines
 * rely on beyond appending: removing one element (lremove) and the reversal
 * that repeated prepending (lcons) produces.
 */
module Seqs {

  /** The position of the first occurrence of `x` in `s`. */
  function IndexOf<T(==)>(s: seq<T>, x: T): (i: nat)
    requires x in s
    ensures i < |s| && s[i] == x && x !in s[..i]
  {
    if s[0] == x then 0 else 1 + IndexOf(s[1..], x)
  }

  /** No element of `s` occurs twice. */
  predicate Distinct<T(==)>(s: seq<T>)
  {
    s == [] || (s[0] !in s[1..] && Distinct(s[1..]))
  }

  /** In a list without repetitions, different positions hold different
      elements. */
  lemma {:induction false} DistinctAt<T>(s: seq<T>, i: nat, j: nat)
    requires Distinct(s) && i < |s| && j < |s| && i != j
    ensures s[i] != s[j]
  {
    if i == 0 {
      assert s[j] == s[1..][j - 1];
    } else if j == 0 {
      assert s[i] == s[1..][i - 1];
    } else {
      DistinctAt(s[1..], i - 1, j - 1);
    }
  }

  /** lremove(x, s): `s` without the first element identical to `x`. */
  function RemoveFirst<T(==)>(s: seq<T>, x: T): seq<T>
  {
    if s == [] then []
    else if s[0] == x then s[1..]
    else [s[0]] + RemoveFirst(s[1..], x)
  }

  /** A list without `x` is returned as it is. */
  lemma {:induction false} RemoveFirstAbsent<T>(s: seq<T>, x: T)
    requires x !in s
    ensures RemoveFirst(s, x) == s
  {
    if s != [] {
      assert x !in s[1..] by { assert forall y :: y in s[1..] ==> y in s; }
      RemoveFirstAbsent(s[1..], x);
      assert s == [s[0]] + s[1..];
    }
  }

  /** Only the first occurrence of `x` goes; the other elements keep their order. */
  lemma {:induction false} RemoveFirstAt<T>(s: seq<T>, x: T)
    requires x in s
    ensures RemoveFirst(s, x) == s[..IndexOf(s, x)] + s[IndexOf(s, x) + 1..]
  {
    if s[0] != x {
      var t := s[1..];
      assert x in t by { var k :| 0 <= k < |s| && s[k] == x; assert t[k - 1] == x; }
      RemoveFirstAt(t, x);
      var i := IndexOf(t, x);
      assert IndexOf(s, x) == i + 1;
      assert RemoveFirst(s, x) == [s[0]] + RemoveFirst(t, x);
      assert s[..i + 1] == [s[0]] + t[..i];
      assert s[i + 2..] == t[i + 1..];
    }
  }

  /** lremove drops only the first occurrence of `x`, keeping the other
      elements in order, and returns a list without `x` as it is. */
  lemma RemoveFirstShape<T>(s: seq<T>, x: T)
    ensures x !in s ==> RemoveFirst(s, x) == s
    ensures x in s ==> RemoveFirst(s, x) == s[..IndexOf(s, x)] + s[IndexOf(s, x) + 1..]
  {
    if x in s {
      RemoveFirstAt(s, x);
    } else {
      RemoveFirstAbsent(s, x);
    }
  }

  /** Removing `x` takes exactly one copy of it out of the list, if there is one. */
  lemma RemoveFirstMultiset<T>(s: seq<T>, x: T)
    ensures multiset(RemoveFirst(s, x)) == multiset(s) - multiset{x}
  {
    if x in s {
      var i := IndexOf(s, x);
      RemoveFirstAt(s, x);
      assert s == s[..i] + [x] + s[i + 1..];
      assert multiset(s) == multiset(s[..i]) + multiset{x} + multiset(s[i + 1..]);
    } else {
      RemoveFirstAbsent(s, x);
      assert multiset(s)[x] == 0;
    }
  }

  /** Removing `x` keeps every other element, `y` included. */
  lemma RemoveFirstKeepsOthers<T>(s: seq<T>, x: T, y: T)
    requires y != x
    ensures y in RemoveFirst(s, x) <==> y in s
  {
    var r := RemoveFirst(s, x);
    RemoveFirstMultiset(s, x);
    assert y in multiset(r) <==> y in multiset(s);
  }

  /** The list that prepending the elements of `s` one by one builds. */
  function Reverse<T>(s: seq<T>): (r: seq<T>)
    ensures |r| == |s|
    ensures forall k :: 0 <= k < |s| ==> r[k] == s[|s| - 1 - k]
  {
    if s == [] then [] else Reverse(s[1..]) + [s[0]]
  }

  /** Prepending one more element to a reversal is reversing the longer list. */
  lemma ReverseSnoc<T>(s: seq<T>, x: T)
    ensures Reverse(s + [x]) == [x] + Reverse(s)
  {
    var a, b := Reverse(s + [x]), [x] + Reverse(s);
    assert |a| == |b|;
    forall k | 0 <= k < |a| ensures a[k] == b[k] {
      if k > 0 {
        assert (s + [x])[|s| - k] == s[|s| - k];
      }
    }
  }

  /** Reversal keeps membership. */
  lemma ReverseMembers<T>(s: seq<T>, x: T)
    ensures x in Reverse(s) <==> x in s
  {
    var r := Reverse(s);
    if x in s {
      var k :| 0 <= k < |s| && s[k] == x;
      assert r[|s| - 1 - k] == x;
    }
    if x in r {
      var k :| 0 <= k < |r| && r[k] == x;
      assert s[|s| - 1 - k] == x;
    }
  }
}
