/** Counting facts shared by the graph arguments of this project. */
module Counting {
  ghost predicate Distinct<T>(p: seq<T>) {
    forall i, j :: 0 <= i < j < |p| ==> p[i] != p[j]
  }

  ghost function Elements<T>(p: seq<T>): set<T> { set x | x in p }

  ghost function Below(n: nat): (s: set<nat>)
    ensures |s| == n && forall i: nat :: i in s <==> i < n
  {
    if n == 0 then {} else Below(n - 1) + {n - 1}
  }

  lemma {:induction false} SubsetSize<T>(s: set<T>, t: set<T>)
    requires s <= t
    ensures |s| <= |t| && (|s| == |t| ==> s == t)
  {
    assert t == s + (t - s);
  }

  lemma {:induction false} DistinctSize<T>(p: seq<T>)
    requires Distinct(p)
    ensures |Elements(p)| == |p|
    decreases |p|
  {
    if p == [] {
      assert Elements(p) == {};
    } else {
      var q, x := p[..|p| - 1], p[|p| - 1];
      DistinctSize(q);
      assert p == q + [x];
      assert Elements(p) == Elements(q) + {x};
      assert x !in q;
    }
  }

  /** A sequence without repetition is no longer than the set it draws from. */
  lemma Pigeonhole<T>(p: seq<T>, s: set<T>)
    requires Distinct(p) && forall i :: 0 <= i < |p| ==> p[i] in s
    ensures |p| <= |s|
  {
    DistinctSize(p);
    SubsetSize(Elements(p), s);
  }

  // ---- walks in a graph -------------------------------------------------

  /** Consecutive elements of `p` are joined by `edge`. */
  ghost predicate Walk<T>(edge: (T, T) -> bool, p: seq<T>) {
    p != [] && forall i, j :: 0 <= i && j == i + 1 < |p| ==> edge(p[i], p[j])
  }

  /** Some walk from `x` visits an element twice. */
  ghost predicate ReachesCycle<T(!new)>(edge: (T, T) -> bool, x: T) {
    exists p: seq<T> :: Walk(edge, p) && p[0] == x && !Distinct(p)
  }

  /** A rank that every edge decreases, on a set closed under edges. */
  ghost predicate Descends<T(!new)>(edge: (T, T) -> bool, rank: map<T, int>) {
    forall x, y :: x in rank && edge(x, y) ==> y in rank && rank[y] < rank[x]
  }

  lemma {:induction false} WalkDescends<T(!new)>(edge: (T, T) -> bool, rank: map<T, int>, p: seq<T>, i: nat, j: nat)
    requires Descends(edge, rank) && Walk(edge, p) && p[0] in rank && i <= j < |p|
    ensures p[i] in rank && p[j] in rank && rank[p[j]] <= rank[p[i]] - (j - i)
    decreases j
  {
    if j > 0 {
      WalkDescends(edge, rank, p, if i < j then i else j - 1, j - 1);
      assert edge(p[j - 1], p[j]);
    }
  }

  /** Ranked elements reach no cycle. */
  lemma RankedIsAcyclic<T(!new)>(edge: (T, T) -> bool, rank: map<T, int>, x: T)
    requires Descends(edge, rank) && x in rank
    ensures !ReachesCycle(edge, x)
  {
    forall p: seq<T> | Walk(edge, p) && p[0] == x
      ensures Distinct(p)
    {
      forall i, j | 0 <= i < j < |p|
        ensures p[i] != p[j]
      {
        WalkDescends(edge, rank, p, i, j);
      }
    }
  }

  ghost predicate HasNext<T>(edge: (T, T) -> bool, stuck: set<T>, x: T) {
    exists y :: y in stuck && edge(x, y)
  }

  lemma Next<T>(edge: (T, T) -> bool, stuck: set<T>, x: T) returns (y: T)
    requires HasNext(edge, stuck, x)
    ensures y in stuck && edge(x, y)
  {
    y :| y in stuck && edge(x, y);
  }

  /** Inside a set whose every element has an edge into the set, walks go on for
      ever. */
  lemma {:induction false} LongWalk<T>(edge: (T, T) -> bool, stuck: set<T>, x: T, n: nat) returns (p: seq<T>)
    requires (forall y :: y in stuck ==> HasNext(edge, stuck, y)) && x in stuck && 0 < n
    ensures |p| == n && p[0] == x && Walk(edge, p) && forall i :: 0 <= i < n ==> p[i] in stuck
    decreases n
  {
    hide HasNext;
    if n == 1 {
      p := [x];
    } else {
      var y := Next(edge, stuck, x);
      var q := LongWalk(edge, stuck, y, n - 1);
      p := [x] + q;
      forall i, j | 0 <= i && j == i + 1 < n
        ensures edge(p[i], p[j])
      {
        if i > 0 { assert edge(q[i - 1], q[j - 1]); }
      }
    }
  }

  /** ... and so come back to where they were. */
  lemma StuckReachesCycle<T(!new)>(edge: (T, T) -> bool, stuck: set<T>, x: T)
    requires (forall y :: y in stuck ==> HasNext(edge, stuck, y)) && x in stuck
    ensures ReachesCycle(edge, x)
  {
    hide HasNext;
    var p := LongWalk(edge, stuck, x, |stuck| + 1);
    if Distinct(p) {
      Pigeonhole(p, stuck);
      assert false;
    }
  }
}
