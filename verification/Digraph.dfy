/** Paths, reachability and cycles over a finite directed graph given as its edge set.
    Every graph algorithm of the model is specified in these terms. */
module Digraph {

  ghost predicate IsPath<N>(edges: set<(N, N)>, p: seq<N>) {
    && |p| > 0
    && forall i :: 0 <= i < |p| - 1 ==> (p[i], p[i + 1]) in edges
  }

  /** `p` is a walk from `a` to `b`; its length in edges is `|p| - 1`. */
  ghost predicate Links<N>(edges: set<(N, N)>, a: N, b: N, p: seq<N>) {
    IsPath(edges, p) && p[0] == a && p[|p| - 1] == b
  }

  ghost predicate Reaches<N(!new)>(edges: set<(N, N)>, a: N, b: N) {
    exists p: seq<N> :: Links(edges, a, b, p)
  }

  ghost predicate ReachedFrom<N(!new)>(edges: set<(N, N)>, roots: set<N>, b: N) {
    exists a :: a in roots && Reaches(edges, a, b)
  }

  ghost predicate HasCycle<N(!new)>(edges: set<(N, N)>) {
    exists p: seq<N> :: IsPath(edges, p) && |p| >= 2 && p[0] == p[|p| - 1]
  }

  ghost predicate ClosedUnder<N>(edges: set<(N, N)>, s: set<N>) {
    forall e :: e in edges && e.0 in s ==> e.1 in s
  }

  ghost predicate HasPredIn<N>(edges: set<(N, N)>, s: set<N>, y: N) {
    exists u :: u in s && (u, y) in edges
  }

  /** Every node of `s` has a predecessor in `s`. */
  ghost predicate Stuck<N>(edges: set<(N, N)>, s: set<N>) {
    forall y {:trigger HasPredIn(edges, s, y)} :: y in s ==> HasPredIn(edges, s, y)
  }

  function Elems<T(==)>(s: seq<T>): set<T> {
    set x | x in s
  }

  predicate Distinct<T(==)>(s: seq<T>) {
    forall i, j :: 0 <= i < j < |s| ==> s[i] != s[j]
  }

  lemma ReachesSelf<N(!new)>(edges: set<(N, N)>, a: N)
    ensures Reaches(edges, a, a)
  {
    assert Links(edges, a, a, [a]);
  }

  lemma ExtendPath<N>(edges: set<(N, N)>, a: N, b: N, c: N, p: seq<N>)
    requires Links(edges, a, b, p) && (b, c) in edges
    ensures Links(edges, a, c, p + [c])
  {
  }

  lemma ExtendReach<N(!new)>(edges: set<(N, N)>, a: N, b: N, c: N)
    requires Reaches(edges, a, b) && (b, c) in edges
    ensures Reaches(edges, a, c)
  {
    var p :| Links(edges, a, b, p);
    ExtendPath(edges, a, b, c, p);
  }

  lemma ExtendReached<N(!new)>(edges: set<(N, N)>, roots: set<N>, b: N, c: N)
    requires ReachedFrom(edges, roots, b) && (b, c) in edges
    ensures ReachedFrom(edges, roots, c)
  {
    var a :| a in roots && Reaches(edges, a, b);
    ExtendReach(edges, a, b, c);
  }

  /** A walk starting inside a closed set never leaves it. */
  lemma {:induction false} PathStaysInside<N>(edges: set<(N, N)>, s: set<N>, p: seq<N>)
    requires IsPath(edges, p) && p[0] in s && ClosedUnder(edges, s)
    ensures p[|p| - 1] in s
    decreases |p|
  {
    if |p| > 1 {
      var q := p[..|p| - 1];
      PathStaysInside(edges, s, q);
      assert (p[|p| - 2], p[|p| - 1]) in edges;
    }
  }

  /** `s` is exactly the set of nodes reached from `roots`. */
  ghost predicate IsReachSet<N(!new)>(edges: set<(N, N)>, roots: set<N>, s: set<N>) {
    forall x {:trigger ReachedFrom(edges, roots, x)} :: x in s <==> ReachedFrom(edges, roots, x)
  }

  lemma ReachSetExists<N(!new)>(edges: set<(N, N)>, roots: set<N>) returns (s: set<N>)
    ensures IsReachSet(edges, roots, s)
    ensures roots <= s && ClosedUnder(edges, s)
    ensures forall x :: x in s ==> x in roots || exists e :: e in edges && e.1 == x
  {
    s := set x | x in roots + (set e | e in edges :: e.1) && ReachedFrom(edges, roots, x);
    forall x | x in roots ensures x in s {
      ReachesSelf(edges, x);
    }
    forall e | e in edges && e.0 in s ensures e.1 in s {
      ExtendReached(edges, roots, e.0, e.1);
    }
    forall x | ReachedFrom(edges, roots, x) ensures x in s {
      var a :| a in roots && Reaches(edges, a, x);
      var p :| Links(edges, a, x, p);
      PathStaysInside(edges, s, p);
    }
  }

  /** The reached set is the least closed set that holds the roots. */
  lemma ReachSetIsLeast<N(!new)>(edges: set<(N, N)>, roots: set<N>, s: set<N>, closed: set<N>)
    requires IsReachSet(edges, roots, s)
    requires roots <= closed && ClosedUnder(edges, closed)
    ensures s <= closed
  {
    forall x | x in s ensures x in closed {
      assert ReachedFrom(edges, roots, x);
      var a :| a in roots && Reaches(edges, a, x);
      var p :| Links(edges, a, x, p);
      PathStaysInside(edges, closed, p);
    }
  }

  lemma PushElem<T>(s: seq<T>, x: T)
    ensures Elems(s + [x]) == Elems(s) + {x}
    ensures Distinct(s) && x !in s ==> Distinct(s + [x])
  {
  }

  lemma PopElem<T>(s: seq<T>)
    requires s != []
    ensures Elems(s) == Elems(s[1..]) + {s[0]}
    ensures Distinct(s) ==> Distinct(s[1..]) && s[0] !in s[1..]
  {
  }

  lemma JoinDistinct<T>(a: seq<T>, b: seq<T>)
    requires Distinct(a) && Distinct(b)
    requires forall x :: x in a ==> x !in b
    ensures Distinct(a + b)
  {
    forall i, j | 0 <= i < j < |a + b| ensures (a + b)[i] != (a + b)[j] {
      if i < |a| {
        assert a[i] in a;
      }
    }
  }

  lemma {:induction false} DistinctFits<T>(s: seq<T>, inside: set<T>)
    requires Distinct(s) && forall x :: x in s ==> x in inside
    ensures |s| <= |inside|
  {
    if s != [] {
      DistinctFits(s[1..], inside - {s[0]});
    }
  }

  /** The number of elements of a sequence without repetition. */
  lemma {:induction false} DistinctCount<T>(s: seq<T>)
    requires Distinct(s)
    ensures |Elems(s)| == |s|
  {
    if s != [] {
      DistinctCount(s[1..]);
      assert Elems(s) == {s[0]} + Elems(s[1..]);
    }
  }

  lemma {:induction false} BackwardWalk<N>(edges: set<(N, N)>, s: set<N>, x: N, n: nat) returns (p: seq<N>)
    requires x in s
    requires Stuck(edges, s)
    ensures |p| == n + 1 && IsPath(edges, p) && p[n] == x
    ensures forall y :: y in p ==> y in s
  {
    if n == 0 {
      p := [x];
    } else {
      assert HasPredIn(edges, s, x);
      var u :| u in s && (u, x) in edges;
      var q := BackwardWalk(edges, s, u, n - 1);
      p := q + [x];
    }
  }

  /** A non-empty finite set in which every node has a predecessor holds a cycle. */
  lemma StuckSetHasCycle<N(!new)>(edges: set<(N, N)>, s: set<N>)
    requires s != {}
    requires Stuck(edges, s)
    ensures HasCycle(edges)
  {
    var x :| x in s;
    var p := BackwardWalk(edges, s, x, |s|);
    if Distinct(p) {
      DistinctFits(p, s);
    }
    var i, j :| 0 <= i < j < |p| && p[i] == p[j];
    var c := p[i..j + 1];
    assert IsPath(edges, c) && |c| >= 2 && c[0] == c[|c| - 1];
  }

  lemma {:induction false} RankGrows<N>(edges: set<(N, N)>, rank: map<N, int>, p: seq<N>)
    requires IsPath(edges, p) && |p| >= 2
    requires forall e :: e in edges ==> e.0 in rank && e.1 in rank && rank[e.0] < rank[e.1]
    ensures p[0] in rank && p[|p| - 1] in rank && rank[p[0]] < rank[p[|p| - 1]]
    decreases |p|
  {
    assert (p[|p| - 2], p[|p| - 1]) in edges;
    if |p| > 2 {
      RankGrows(edges, rank, p[..|p| - 1]);
    }
  }

  lemma RankedIsAcyclic<N(!new)>(edges: set<(N, N)>, rank: map<N, int>)
    requires forall e :: e in edges ==> e.0 in rank && e.1 in rank && rank[e.0] < rank[e.1]
    ensures !HasCycle(edges)
  {
    forall p: seq<N> | IsPath(edges, p) && |p| >= 2 ensures p[0] != p[|p| - 1] {
      RankGrows(edges, rank, p);
    }
  }

  /** A set of nodes that grows inside a fixed one leaves less to find. */
  lemma Shrinks<T>(all: set<T>, a: set<T>, b: set<T>)
    requires a <= b <= all
    ensures a == b || all - b < all - a
  {
    if !(b <= a) {
      var v :| v in b && v !in a;
      assert v in all - a && v !in all - b;
    }
  }

  method SetToSeq<T(==)>(s: set<T>) returns (q: seq<T>)
    ensures Distinct(q) && Elems(q) == s
  {
    q := [];
    var rest := s;
    while rest != {}
      invariant Distinct(q) && Elems(q) + rest == s && Elems(q) !! rest
    {
      var x :| x in rest;
      q := q + [x];
      rest := rest - {x};
    }
  }
}
