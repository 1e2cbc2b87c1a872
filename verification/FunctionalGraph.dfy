/** Graphs in which every node has at most one successor: placeholder visibility and the
    process-area parent relation are both of this kind. */
module FunctionalGraph {

  type Id = string

  type Graph = map<Id, Id>

  predicate Edge(g: Graph, a: Id, b: Id) {
    a in g && g[a] == b
  }

  ghost predicate Walk(g: Graph, p: seq<Id>) {
    forall i {:trigger p[i]} :: 0 < i < |p| ==> Edge(g, p[i - 1], p[i])
  }

  lemma WalkPart(g: Graph, p: seq<Id>, i: nat, j: nat)
    requires Walk(g, p) && i <= j <= |p|
    ensures Walk(g, p[i..j])
  {
    var q := p[i..j];
    forall k {:trigger q[k]} | 0 < k < |q| ensures Edge(g, q[k - 1], q[k]) {
      assert Edge(g, p[i + k - 1], p[i + k]);
    }
  }

  lemma WalkMore(g: Graph, p: seq<Id>, x: Id)
    requires Walk(g, p) && (p == [] || Edge(g, p[|p| - 1], x))
    ensures Walk(g, p + [x])
  {
    var q := p + [x];
    forall i {:trigger q[i]} | 0 < i < |q| ensures Edge(g, q[i - 1], q[i]) {
      if i < |p| { assert q[i] == p[i] && q[i - 1] == p[i - 1]; }
    }
  }

  ghost predicate ClosedWalk(g: Graph, p: seq<Id>) {
    |p| >= 2 && Walk(g, p) && p[0] == p[|p| - 1]
  }

  ghost predicate Cyclic(g: Graph) {
    exists p :: ClosedWalk(g, p)
  }

  /** Following successors from `x` stops within `n` steps. */
  ghost predicate Grounded(g: Graph, x: Id, n: nat)
    decreases n
  {
    x !in g || (n > 0 && Grounded(g, g[x], n - 1))
  }

  lemma {:induction false} GroundedAlong(g: Graph, p: seq<Id>, n: nat)
    requires |p| > 0 && Walk(g, p) && Grounded(g, p[0], n)
    ensures |p| - 1 <= n && Grounded(g, p[|p| - 1], n - (|p| - 1))
  {
    if |p| > 1 {
      assert Edge(g, p[0], p[1]);
      assert p[1..] == p[1..|p|];
      WalkPart(g, p, 1, |p|);
      GroundedAlong(g, p[1..], n - 1);
    }
  }

  lemma {:induction false} GroundedMore(g: Graph, x: Id, n: nat, m: nat)
    requires Grounded(g, x, n) && n <= m
    ensures Grounded(g, x, m)
    decreases n
  {
    if x in g {
      GroundedMore(g, g[x], n - 1, m - 1);
    }
  }

  /** No closed walk starts at a grounded node. */
  lemma {:induction false} GroundedOffCycle(g: Graph, p: seq<Id>, n: nat)
    requires ClosedWalk(g, p)
    ensures !Grounded(g, p[0], n)
    decreases n
  {
    if Grounded(g, p[0], n) {
      GroundedAlong(g, p, n);
      GroundedOffCycle(g, p, n - (|p| - 1));
      assert false;
    }
  }

  lemma EmptyAcyclic(g: Graph)
    requires g == map[]
    ensures !Cyclic(g)
  {
    forall p: seq<Id> | |p| >= 2 ensures !ClosedWalk(g, p) {
      assert !Edge(g, p[0], p[1]);
    }
  }

  /** A walk that comes back to a node it has visited contains a closed walk. */
  lemma RevisitIsCyclic(g: Graph, p: seq<Id>, i: nat)
    requires i < |p| - 1 && Walk(g, p) && p[i] == p[|p| - 1]
    ensures Cyclic(g) && ClosedWalk(g, p[i..])
  {
    WalkPart(g, p, i, |p|);
    assert p[i..] == p[i..|p|];
    assert ClosedWalk(g, p[i..]);
  }

  // ---------------------------------------------------- changing one edge

  ghost predicate OnCycle(g: Graph, x: Id) {
    exists p :: ClosedWalk(g, p) && p[0] == x
  }

  ghost predicate Path(g: Graph, p: seq<Id>, x: Id, y: Id) {
    |p| > 0 && Walk(g, p) && p[0] == x && p[|p| - 1] == y
  }

  ghost predicate Reaches(g: Graph, x: Id, y: Id) {
    exists p :: Path(g, p, x, y)
  }

  ghost predicate ProperlyReaches(g: Graph, x: Id, y: Id) {
    exists p :: Path(g, p, x, y) && |p| >= 2
  }

  lemma {:induction false} FirstIndex(p: seq<Id>, x: Id, from: nat) returns (i: nat)
    requires from < |p| && x in p[from..]
    ensures from <= i < |p| && p[i] == x && forall k :: from <= k < i ==> p[k] != x
    decreases |p| - from
  {
    if p[from] == x {
      i := from;
    } else {
      i := FirstIndex(p, x, from + 1);
    }
  }

  /** Outside the redirected node two graphs have the same walks. */
  lemma SameWalks(g: Graph, h: Graph, p: seq<Id>, x: Id)
    requires forall z, w :: z != x ==> (Edge(g, z, w) <==> Edge(h, z, w))
    requires forall k :: 0 <= k < |p| - 1 ==> p[k] != x
    requires Walk(g, p)
    ensures Walk(h, p)
  {
    forall i {:trigger p[i]} | 0 < i < |p| ensures Edge(h, p[i - 1], p[i]) {
      assert Edge(g, p[i - 1], p[i]);
    }
  }

  lemma SameClosedWalk(g: Graph, h: Graph, p: seq<Id>, x: Id)
    requires forall z, w :: z != x ==> (Edge(g, z, w) <==> Edge(h, z, w))
    requires ClosedWalk(g, p) && x !in p
    ensures ClosedWalk(h, p) && Cyclic(h)
  {
    SameWalks(g, h, p, x);
    assert ClosedWalk(h, p);
  }

  lemma EntersBy(g: Graph, p: seq<Id>, x: Id, y: Id) returns (z: Id)
    requires Path(g, p, x, y) && x != y
    ensures Edge(g, z, y)
  {
    z := p[|p| - 2];
    assert Edge(g, p[|p| - 2], p[|p| - 1]);
  }

  lemma WalkFrom(g: Graph, x: Id, p: seq<Id>)
    requires Walk(g, p) && |p| > 0 && Edge(g, x, p[0])
    ensures Walk(g, [x] + p)
  {
    var q := [x] + p;
    forall i {:trigger q[i]} | 0 < i < |q| ensures Edge(g, q[i - 1], q[i]) {
      if i > 1 { assert Edge(g, p[i - 2], p[i - 1]); }
    }
  }

  lemma CycleIsReached(g: Graph, x: Id, y: Id)
    requires OnCycle(g[x := y], x)
    ensures Reaches(g, y, x)
  {
    var h := g[x := y];
    var p :| ClosedWalk(h, p) && p[0] == x;
    assert p[1..][|p| - 2] == x;
    var i := FirstIndex(p, x, 1);
    assert Edge(h, p[0], p[1]);
    WalkPart(h, p, 1, i + 1);
    var q := p[1..i + 1];
    SameWalks(h, g, q, x);
    assert Path(g, q, y, x);
  }

  lemma ReachedIsCycle(g: Graph, x: Id, y: Id)
    requires Reaches(g, y, x)
    ensures OnCycle(g[x := y], x)
  {
    var h := g[x := y];
    var p :| Path(g, p, y, x);
    var i := FirstIndex(p, x, 0);
    WalkPart(g, p, 0, i + 1);
    var q := p[0..i + 1];
    SameWalks(g, h, q, x);
    assert Edge(h, x, q[0]);
    WalkFrom(h, x, q);
    assert ClosedWalk(h, [x] + q);
  }

  /** Redirecting `x` to `y` puts `x` on a cycle exactly when `y` reached `x` before. */
  lemma RedirectCycleIff(g: Graph, x: Id, y: Id)
    ensures OnCycle(g[x := y], x) <==> Reaches(g, y, x)
  {
    if OnCycle(g[x := y], x) { CycleIsReached(g, x, y); }
    if Reaches(g, y, x) { ReachedIsCycle(g, x, y); }
  }

  lemma ReachesIff(g: Graph, x: Id, y: Id)
    ensures Reaches(g, x, y) <==> x == y || ProperlyReaches(g, x, y)
  {
    if x == y { assert Path(g, [x], x, y); }
    if p :| Path(g, p, x, y) {
      assert |p| == 1 ==> x == y;
    }
  }

  lemma Rotate(g: Graph, p: seq<Id>, i: nat)
    requires ClosedWalk(g, p) && i < |p|
    ensures OnCycle(g, p[i])
  {
    var q := p[i..] + p[1..i + 1];
    forall k {:trigger q[k]} | 0 < k < |q| ensures Edge(g, q[k - 1], q[k]) {
      var m := |p| - i;
      if k < m {
        assert Edge(g, p[i + k - 1], p[i + k]);
      } else if k == m {
        assert Edge(g, p[0], p[1]);
      } else {
        assert Edge(g, p[k - m], p[k - m + 1]);
      }
    }
    assert ClosedWalk(g, q) && q[0] == p[i];
  }

  /** In an acyclic graph redirecting one edge makes a cycle exactly when the new target
      already reached the node. */
  lemma RedirectAcyclic(g: Graph, x: Id, y: Id)
    requires !Cyclic(g)
    ensures Cyclic(g[x := y]) <==> Reaches(g, y, x)
  {
    var h := g[x := y];
    RedirectCycleIff(g, x, y);
    if p :| ClosedWalk(h, p) {
      if i: nat :| i < |p| && p[i] == x {
        Rotate(h, p, i);
      } else {
        SameClosedWalk(h, g, p, x);
        assert false;
      }
    }
    if Reaches(g, y, x) {
      var p :| ClosedWalk(h, p) && p[0] == x;
    }
  }

  lemma SubgraphAcyclic(g: Graph, h: Graph)
    requires !Cyclic(g) && forall z, w :: Edge(h, z, w) ==> Edge(g, z, w)
    ensures !Cyclic(h)
  {
    forall p ensures !ClosedWalk(h, p) {
      if ClosedWalk(h, p) {
        forall i {:trigger p[i]} | 0 < i < |p| ensures Edge(g, p[i - 1], p[i]) {
          assert Edge(h, p[i - 1], p[i]);
        }
        assert ClosedWalk(g, p);
        assert false;
      }
    }
  }

  /** A node nobody points at and that does not point at itself is on no cycle. */
  lemma NewLeafAcyclic(g: Graph, x: Id, y: Id)
    requires !Cyclic(g) && x !in g && x != y && forall z :: z in g ==> g[z] != x
    ensures !Cyclic(g[x := y])
  {
    RedirectAcyclic(g, x, y);
    if p :| Path(g, p, y, x) {
      var z := EntersBy(g, p, y, x);
      assert false;
    }
  }
}
