/**
 * Directed graphs over node ids, as the render graph, the two routers and the
 * bundler's dependency sort all use them: an edge list (in insertion order),
 * walks along it, acyclicity, and Kahn's algorithm, which every one of them
 * runs to obtain a processing order.
 */
module Digraph {
  import opened Lists

  type Id = string

  /** A directed edge `src -> dst` (an `AudioConnection`, a graph edge, a dependency). */
  datatype Edge = Edge(src: Id, dst: Id)

  /** Consecutive nodes of `p` are joined by an edge of `E`. */
  ghost predicate IsWalk(E: seq<Edge>, p: seq<Id>) {
    forall i :: 0 <= i < |p| - 1 ==> Edge(p[i], p[i + 1]) in E
  }

  /** `b` can be reached from `a` along at least one edge. */
  ghost predicate Reaches(E: seq<Edge>, a: Id, b: Id) {
    exists p :: |p| >= 2 && p[0] == a && p[|p| - 1] == b && IsWalk(E, p)
  }

  ghost predicate ReachesOrSame(E: seq<Edge>, a: Id, b: Id) {
    a == b || Reaches(E, a, b)
  }

  /** No node reaches itself. */
  ghost predicate Acyclic(E: seq<Edge>) {
    forall x :: !Reaches(E, x, x)
  }

  lemma EmptyAcyclic()
    ensures Acyclic([])
  {
    forall p: seq<Id> | |p| >= 2 ensures !IsWalk([], p) {
      assert Edge(p[0], p[1]) !in [];
    }
  }

  /** Every edge's endpoints are among `nodes`. */
  ghost predicate EndpointsIn(E: seq<Edge>, nodes: seq<Id>) {
    forall e :: e in E ==> e.src in nodes && e.dst in nodes
  }

  /**
   * `s` lists nodes so that whenever the target of an edge is listed, the
   * edge's source is listed strictly earlier.
   */
  ghost predicate RespectsEdges(s: seq<Id>, E: seq<Edge>) {
    forall j, e :: 0 <= j < |s| && e in E && s[j] == e.dst ==> e.src in s[..j]
  }

  // ----- walks -----

  lemma ReachesEdge(E: seq<Edge>, a: Id, b: Id)
    requires Edge(a, b) in E
    ensures Reaches(E, a, b)
  {
    var p := [a, b];
    assert IsWalk(E, p);
  }

  lemma ReachesTrans(E: seq<Edge>, a: Id, b: Id, c: Id)
    requires Reaches(E, a, b) && Reaches(E, b, c)
    ensures Reaches(E, a, c)
  {
    var p :| |p| >= 2 && p[0] == a && p[|p| - 1] == b && IsWalk(E, p);
    var q :| |q| >= 2 && q[0] == b && q[|q| - 1] == c && IsWalk(E, q);
    var w := p + q[1..];
    forall i | 0 <= i < |w| - 1 ensures Edge(w[i], w[i + 1]) in E {
      if i < |p| - 1 {
        assert w[i] == p[i] && w[i + 1] == p[i + 1];
      } else {
        assert w[i] == q[i - |p| + 1] && w[i + 1] == q[i - |p| + 2];
      }
    }
    assert w[|w| - 1] == c;
  }

  /** A walk in a smaller edge list is a walk in a larger one. */
  lemma ReachesMono(E: seq<Edge>, F: seq<Edge>, a: Id, b: Id)
    requires forall e :: e in E ==> e in F
    requires Reaches(E, a, b)
    ensures Reaches(F, a, b)
  {
    var p :| |p| >= 2 && p[0] == a && p[|p| - 1] == b && IsWalk(E, p);
    assert IsWalk(F, p);
  }

  /** Dropping edges from an acyclic graph keeps it acyclic. */
  lemma SubgraphAcyclic(E: seq<Edge>, F: seq<Edge>)
    requires Acyclic(E)
    requires forall e :: e in F ==> e in E
    ensures Acyclic(F)
  {
    forall x ensures !Reaches(F, x, x) {
      if Reaches(F, x, x) {
        ReachesMono(F, E, x, x);
      }
    }
  }

  /**
   * A walk that may use the extra edge `s -> d` either avoids it, or passes
   * from its start to `s` and from `d` to its end.
   */
  lemma {:induction false} WalkSplit(E: seq<Edge>, s: Id, d: Id, p: seq<Id>)
    requires |p| >= 2 && IsWalk(E + [Edge(s, d)], p)
    ensures Reaches(E, p[0], p[|p| - 1])
         || (ReachesOrSame(E, p[0], s) && ReachesOrSame(E, d, p[|p| - 1]))
    decreases |p|
  {
    var n := |p|;
    var c, b := p[n - 2], p[n - 1];
    assert Edge(c, b) in E + [Edge(s, d)];
    if n == 2 {
      if Edge(c, b) in E {
        ReachesEdge(E, c, b);
      }
    } else {
      var q := p[..n - 1];
      assert IsWalk(E + [Edge(s, d)], q) by {
        forall i | 0 <= i < |q| - 1 ensures Edge(q[i], q[i + 1]) in E + [Edge(s, d)] {
          assert q[i] == p[i] && q[i + 1] == p[i + 1];
        }
      }
      WalkSplit(E, s, d, q);
      assert q[0] == p[0] && q[|q| - 1] == c;
      if Edge(c, b) in E {
        ReachesEdge(E, c, b);
        if Reaches(E, p[0], c) {
          ReachesTrans(E, p[0], c, b);
        } else if d != c {
          ReachesTrans(E, d, c, b);
        }
      } else {
        assert c == s && b == d;
        if Reaches(E, p[0], c) {
        }
      }
    }
  }

  lemma ReachesSplit(E: seq<Edge>, s: Id, d: Id, a: Id, b: Id)
    requires Reaches(E + [Edge(s, d)], a, b)
    ensures Reaches(E, a, b) || (ReachesOrSame(E, a, s) && ReachesOrSame(E, d, b))
  {
    var p :| |p| >= 2 && p[0] == a && p[|p| - 1] == b && IsWalk(E + [Edge(s, d)], p);
    WalkSplit(E, s, d, p);
  }

  /**
   * Adding `s -> d` to an acyclic graph closes a cycle exactly when `d`
   * already reaches `s` (or the edge is a self-loop).
   */
  lemma AddEdgeAcyclic(E: seq<Edge>, s: Id, d: Id)
    requires Acyclic(E)
    ensures Acyclic(E + [Edge(s, d)]) <==> !ReachesOrSame(E, d, s)
  {
    var F := E + [Edge(s, d)];
    if ReachesOrSame(E, d, s) {
      ReachesEdge(F, s, d);
      if d != s {
        ReachesMono(E, F, d, s);
        ReachesTrans(F, s, d, s);
      }
      assert Reaches(F, s, s);
    } else {
      forall x ensures !Reaches(F, x, x) {
        if Reaches(F, x, x) {
          ReachesSplit(E, s, d, x, x);
          assert ReachesOrSame(E, x, s) && ReachesOrSame(E, d, x);
          if d != x && x != s {
            ReachesTrans(E, d, x, s);
          }
        }
      }
    }
  }

  // ----- cycles from a set in which every node has a predecessor -----

  /** Some edge into `w` starts inside `R`. */
  ghost predicate HasPredIn(E: seq<Edge>, R: set<Id>, w: Id) {
    exists x :: x in R && Edge(x, w) in E
  }

  lemma {:induction false} Pigeonhole(p: seq<Id>, R: set<Id>)
    requires forall k :: 0 <= k < |p| ==> p[k] in R
    requires |p| > |R|
    ensures exists i, j :: 0 <= i < j < |p| && p[i] == p[j]
    decreases R
  {
    if p[0] in p[1..] {
      var j :| 1 <= j < |p| && p[j] == p[0];
    } else {
      Pigeonhole(p[1..], R - {p[0]});
      var i, j :| 0 <= i < j < |p[1..]| && p[1..][i] == p[1..][j];
      assert p[i + 1] == p[j + 1];
    }
  }

  /** Following predecessors back from `v` for `n` steps stays inside `R`. */
  lemma {:induction false} BackwardWalk(E: seq<Edge>, R: set<Id>, v: Id, n: nat) returns (p: seq<Id>)
    requires v in R
    requires forall w :: w in R ==> HasPredIn(E, R, w)
    ensures |p| == n + 1 && IsWalk(E, p)
    ensures forall k :: 0 <= k < |p| ==> p[k] in R
    decreases n
  {
    if n == 0 {
      p := [v];
    } else {
      var q := BackwardWalk(E, R, v, n - 1);
      assert HasPredIn(E, R, q[0]);
      var x :| x in R && Edge(x, q[0]) in E;
      p := [x] + q;
      forall i | 0 <= i < |p| - 1 ensures Edge(p[i], p[i + 1]) in E {
        if i > 0 {
          assert p[i] == q[i - 1] && p[i + 1] == q[i];
        }
      }
    }
  }

  /** A walk that visits some node twice contains a cycle through it. */
  lemma RepeatIsCycle(E: seq<Edge>, p: seq<Id>, i: nat, j: nat)
    requires IsWalk(E, p) && i < j < |p| && p[i] == p[j]
    ensures Reaches(E, p[i], p[i])
  {
    var c := p[i..j + 1];
    forall k | 0 <= k < |c| - 1 ensures Edge(c[k], c[k + 1]) in E {
      assert c[k] == p[i + k] && c[k + 1] == p[i + k + 1];
    }
    assert c[0] == p[i] && c[|c| - 1] == p[j];
  }

  /**
   * If every node of a non-empty set `R` has an incoming edge from `R`, the
   * graph has a cycle: walking backwards must revisit a node.
   */
  lemma CycleFromPredecessors(E: seq<Edge>, R: set<Id>, v: Id)
    requires v in R
    requires forall w :: w in R ==> HasPredIn(E, R, w)
    ensures !Acyclic(E)
  {
    var p := BackwardWalk(E, R, v, |R|);
    Pigeonhole(p, R);
    var i, j :| 0 <= i < j < |p| && p[i] == p[j];
    RepeatIsCycle(E, p, i, j);
  }

  // ----- topological orders -----

  lemma {:induction false} RespectsEdgesEarlier(s: seq<Id>, E: seq<Edge>, a: Id, b: Id)
    requires Distinct(s) && RespectsEdges(s, E)
    requires Edge(a, b) in E && b in s
    ensures a in s && IndexOf(s, a) < IndexOf(s, b)
  {
    var j := IndexOf(s, b);
    assert a in s[..j];
    var k :| 0 <= k < j && s[k] == a;
    assert IndexOf(s, a) == k;
  }

  lemma {:induction false} WalkIncreases(s: seq<Id>, E: seq<Edge>, p: seq<Id>, k: nat)
    requires Distinct(s) && RespectsEdges(s, E)
    requires IsWalk(E, p) && 1 <= k < |p| && p[k] in s
    ensures p[0] in s && IndexOf(s, p[0]) < IndexOf(s, p[k])
  {
    assert Edge(p[k - 1], p[k]) in E;
    RespectsEdgesEarlier(s, E, p[k - 1], p[k]);
    if k > 1 {
      WalkIncreases(s, E, p, k - 1);
    }
  }

  /** A list of nodes in which every edge target appears after its source rules out cycles. */
  lemma TopologicalOrderAcyclic(s: seq<Id>, E: seq<Edge>)
    requires Distinct(s) && RespectsEdges(s, E)
    requires forall e :: e in E ==> e.dst in s
    ensures Acyclic(E)
  {
    forall x ensures !Reaches(E, x, x) {
      if Reaches(E, x, x) {
        var p :| |p| >= 2 && p[0] == x && p[|p| - 1] == x && IsWalk(E, p);
        assert Edge(p[|p| - 2], p[|p| - 1]) in E;
        CycleNodesUnlisted(s, E, x);
      }
    }
  }

  /** A node on a cycle cannot appear in a list that puts every edge source before its target. */
  lemma CycleNodesUnlisted(s: seq<Id>, E: seq<Edge>, x: Id)
    requires Distinct(s) && RespectsEdges(s, E)
    requires Reaches(E, x, x)
    ensures x !in s
  {
    if x in s {
      var p :| |p| >= 2 && p[0] == x && p[|p| - 1] == x && IsWalk(E, p);
      WalkIncreases(s, E, p, |p| - 1);
    }
  }

  lemma AppendDistinct(s: seq<Id>, w: Id)
    requires Distinct(s) && w !in s
    ensures Distinct(s + [w])
  {
  }

  lemma DistinctConcat(a: seq<Id>, b: seq<Id>)
    requires Distinct(a + b)
    ensures forall x :: x in a ==> x !in b
  {
    forall x | x in a ensures x !in b {
      var i :| 0 <= i < |a| && a[i] == x;
      forall j | 0 <= j < |b| ensures b[j] != x {
        assert (a + b)[i] == a[i] && (a + b)[|a| + j] == b[j];
      }
    }
  }

  lemma RespectsAppend(s: seq<Id>, E: seq<Edge>, w: Id)
    requires RespectsEdges(s, E)
    requires forall e :: e in E && e.dst == w ==> e.src in s
    ensures RespectsEdges(s + [w], E)
  {
    var t := s + [w];
    forall j, e | 0 <= j < |t| && e in E && t[j] == e.dst ensures e.src in t[..j] {
      if j < |s| {
        assert t[..j] == s[..j];
      } else {
        assert t[..j] == s;
      }
    }
  }

  // ----- Kahn's algorithm -----

  /** Number of edges into `v` whose source is not in `done`. */
  function InCount(E: seq<Edge>, v: Id, done: seq<Id>): nat {
    if E == [] then 0
    else (if E[0].dst == v && E[0].src !in done then 1 else 0) + InCount(E[1..], v, done)
  }

  lemma {:induction false} InCountAppend(A: seq<Edge>, B: seq<Edge>, v: Id, done: seq<Id>)
    ensures InCount(A + B, v, done) == InCount(A, v, done) + InCount(B, v, done)
  {
    if A != [] {
      assert (A + B)[0] == A[0] && (A + B)[1..] == A[1..] + B;
      InCountAppend(A[1..], B, v, done);
    } else {
      assert A + B == B;
    }
  }

  lemma {:induction false} InCountZero(E: seq<Edge>, v: Id, done: seq<Id>)
    ensures InCount(E, v, done) == 0 <==> forall e :: e in E && e.dst == v ==> e.src in done
  {
    if E != [] {
      InCountZero(E[1..], v, done);
      assert forall e :: e in E <==> e == E[0] || e in E[1..];
    }
  }

  lemma InCountSingle(e: Edge, v: Id, done: seq<Id>)
    ensures InCount([e], v, done) == if e.dst == v && e.src !in done then 1 else 0
  {
    assert [e][1..] == [];
  }

  /**
   * Moving the edge at position `k` from the "counted against `prev`" part to
   * the "counted against `prev + [u]`" part lowers a count by one exactly for
   * an edge `u -> v`.
   */
  /** Edges before `k` counted against `order`, the rest against `prev`. */
  function Pending(E: seq<Edge>, k: nat, v: Id, order: seq<Id>, prev: seq<Id>): nat
    requires k <= |E|
  {
    InCount(E[..k], v, order) + InCount(E[k..], v, prev)
  }

  /** `RelaxCount` for every node at once. */
  lemma RelaxCounts(E: seq<Edge>, k: nat, prev: seq<Id>, u: Id)
    requires k < |E| && u !in prev
    ensures forall v ::
      Pending(E, k + 1, v, prev + [u], prev) == Pending(E, k, v, prev + [u], prev) - (if E[k].src == u && E[k].dst == v then 1 else 0)
  {
    forall v ensures Pending(E, k + 1, v, prev + [u], prev)
      == Pending(E, k, v, prev + [u], prev) - (if E[k].src == u && E[k].dst == v then 1 else 0)
    {
      RelaxCount(E, k, prev, u, v);
    }
  }

  lemma RelaxCount(E: seq<Edge>, k: nat, prev: seq<Id>, u: Id, v: Id)
    requires k < |E| && u !in prev
    ensures Pending(E, k + 1, v, prev + [u], prev)
         == Pending(E, k, v, prev + [u], prev) - (if E[k].src == u && E[k].dst == v then 1 else 0)
  {
    var e := E[k];
    assert E[..k + 1] == E[..k] + [e];
    assert E[k..] == [e] + E[k + 1..];
    InCountAppend(E[..k], [e], v, prev + [u]);
    InCountAppend([e], E[k + 1..], v, prev);
    InCountSingle(e, v, prev + [u]);
    InCountSingle(e, v, prev);
  }

  /** A zero count, split at `k`, means every edge into `w` starts at an already dequeued node. */
  lemma ZeroSplitCount(E: seq<Edge>, k: nat, prev: seq<Id>, order: seq<Id>, w: Id)
    requires k <= |E|
    requires forall x :: x in prev ==> x in order
    requires Pending(E, k, w, order, prev) == 0
    ensures forall f :: f in E && f.dst == w ==> f.src in order
  {
    InCountZero(E[..k], w, order);
    InCountZero(E[k..], w, prev);
    forall f | f in E && f.dst == w ensures f.src in order {
      var m :| 0 <= m < |E| && E[m] == f;
      if m < k {
        assert f in E[..k];
      } else {
        assert f in E[k..];
      }
    }
  }

  /** Kahn's bookkeeping while nodes are being dequeued, as one predicate. */
  ghost predicate KahnState(nodes: seq<Id>, E: seq<Edge>, order: seq<Id>, queue: seq<Id>, indeg: map<Id, int>) {
    && Distinct(order + queue)
    && (forall x :: x in order + queue ==> x in nodes)
    && (forall v :: v in indeg <==> v in nodes)
    && (forall v :: v in nodes ==> indeg[v] == InCount(E, v, order))
    && (forall v :: v in nodes ==> (v in order + queue <==> indeg[v] == 0))
    && RespectsEdges(order + queue, E)
  }

  /** `in_degree = {id: 0 ...}` followed by one increment per edge into a node. */
  method InDegrees(nodes: seq<Id>, E: seq<Edge>) returns (indeg: map<Id, int>)
    ensures forall v :: v in indeg <==> v in nodes
    ensures forall v :: v in indeg ==> indeg[v] == InCount(E, v, [])
  {
    indeg := map v | v in nodes :: 0;
    var k := 0;
    while k < |E|
      invariant 0 <= k <= |E|
      invariant forall v :: v in indeg <==> v in nodes
      invariant forall v :: v in indeg ==> indeg[v] == InCount(E[..k], v, [])
    {
      assert E[..k + 1] == E[..k] + [E[k]];
      forall v | v in indeg ensures InCount(E[..k + 1], v, []) == InCount(E[..k], v, []) + if E[k].dst == v then 1 else 0 {
        InCountAppend(E[..k], [E[k]], v, []);
        InCountSingle(E[k], v, []);
      }
      if E[k].dst in indeg {
        indeg := indeg[E[k].dst := indeg[E[k].dst] + 1];
      }
      k := k + 1;
    }
    assert E[..|E|] == E;
  }

  /** The initial queue: the nodes of in-degree zero, in node order. */
  method ZeroDegreeQueue(nodes: seq<Id>, E: seq<Edge>, indeg: map<Id, int>) returns (queue: seq<Id>)
    requires Distinct(nodes)
    requires forall v :: v in indeg <==> v in nodes
    requires forall v :: v in indeg ==> indeg[v] == InCount(E, v, [])
    ensures KahnState(nodes, E, [], queue, indeg)
  {
    queue := [];
    var i := 0;
    while i < |nodes|
      invariant 0 <= i <= |nodes|
      invariant Distinct(queue)
      invariant forall v :: v in queue <==> v in nodes[..i] && indeg[v] == 0
    {
      assert nodes[..i + 1] == nodes[..i] + [nodes[i]];
      if indeg[nodes[i]] == 0 {
        queue := queue + [nodes[i]];
      }
      i := i + 1;
    }
    assert nodes[..|nodes|] == nodes;
    assert [] + queue == queue;
    forall j | 0 <= j < |queue| ensures forall e :: e in E ==> e.dst != queue[j] {
      InCountZero(E, queue[j], []);
    }
    assert RespectsEdges(queue, E);
  }

  /**
   * The pass over the edge list after `u` is dequeued: every edge out of `u`
   * lowers its target's in-degree, and a target reaching zero is enqueued.
   */
  method Relax(nodes: seq<Id>, E: seq<Edge>, prev: seq<Id>, u: Id, queue0: seq<Id>, indeg0: map<Id, int>)
    returns (queue: seq<Id>, indeg: map<Id, int>)
    requires u !in prev
    requires Distinct(prev + [u] + queue0)
    requires forall x :: x in prev + [u] + queue0 ==> x in nodes
    requires forall v :: v in indeg0 <==> v in nodes
    requires forall v :: v in nodes ==> indeg0[v] == InCount(E, v, prev)
    requires forall v :: v in nodes ==> (v in prev + [u] + queue0 <==> indeg0[v] == 0)
    requires RespectsEdges(prev + [u] + queue0, E)
    ensures KahnState(nodes, E, prev + [u], queue, indeg)
    ensures |queue| >= |queue0|
  {
    var order := prev + [u];
    queue, indeg := queue0, indeg0;
    var k := 0;
    assert E[..0] == [] && E[0..] == E;
    while k < |E|
      invariant 0 <= k <= |E|
      invariant |queue| >= |queue0|
      invariant RelaxState(nodes, E, k, prev, u, queue, indeg)
    {
      queue, indeg := RelaxEdge(nodes, E, k, prev, u, queue, indeg);
      k := k + 1;
    }
    assert E[..|E|] == E && E[|E|..] == [];
  }

  /**
   * `KahnState` part-way through the pass of `Relax`: the edges before `k`
   * are counted against the dequeued nodes including `u`, the rest against
   * those before it.
   */
  ghost predicate RelaxState(nodes: seq<Id>, E: seq<Edge>, k: nat, prev: seq<Id>, u: Id, queue: seq<Id>, indeg: map<Id, int>)
    requires k <= |E|
  {
    var seen := prev + [u] + queue;
    && Distinct(seen)
    && (forall x :: x in seen ==> x in nodes)
    && (forall v :: v in indeg <==> v in nodes)
    && (forall v :: v in nodes ==> indeg[v] == Pending(E, k, v, prev + [u], prev))
    && (forall v :: v in nodes ==> (v in seen <==> indeg[v] == 0))
    && RespectsEdges(seen, E)
  }

  /** One turn of the loop of `Relax`: edge `k` lowers its target's in-degree if it leaves `u`. */
  method RelaxEdge(nodes: seq<Id>, E: seq<Edge>, k: nat, prev: seq<Id>, u: Id, queue0: seq<Id>, indeg0: map<Id, int>)
    returns (queue: seq<Id>, indeg: map<Id, int>)
    requires k < |E| && u !in prev
    requires RelaxState(nodes, E, k, prev, u, queue0, indeg0)
    ensures RelaxState(nodes, E, k + 1, prev, u, queue, indeg)
    ensures |queue| >= |queue0|
  {
    var order := prev + [u];
    ghost var seen := order + queue0;
    queue, indeg := queue0, indeg0;
    var e := E[k];
    RelaxCounts(E, k, prev, u);
    if e.src == u && e.dst in indeg {
      var w := e.dst;
      indeg := indeg[w := indeg[w] - 1];
      if indeg[w] == 0 {
        ZeroSplitCount(E, k + 1, prev, order, w);
        RespectsAppend(seen, E, w);
        AppendDistinct(seen, w);
        queue := queue + [w];
        assert order + queue == seen + [w];
      }
    }
  }

  /** When the queue runs dry, the dequeued nodes are all nodes exactly when there is no cycle. */
  lemma KahnExit(nodes: seq<Id>, E: seq<Edge>, order: seq<Id>, indeg: map<Id, int>)
    requires Distinct(nodes)
    requires EndpointsIn(E, nodes)
    requires KahnState(nodes, E, order, [], indeg)
    ensures |order| == |nodes| <==> Acyclic(E)
    ensures |order| == |nodes| ==> forall v :: v in nodes ==> v in order
    ensures forall w :: w in nodes && w !in order ==> HasPredIn(E, Elems(nodes) - Elems(order), w)
  {
    assert order + [] == order;
    StuckHavePredecessors(nodes, E, order, indeg);
    if |order| == |nodes| {
      DistinctSubsetCovers(order, nodes);
      TopologicalOrderAcyclic(order, E);
    } else {
      if forall v :: v in nodes ==> v in order {
        DistinctSubsetLength(nodes, order);
        DistinctSubsetLength(order, nodes);
        assert false;
      }
      var v :| v in nodes && v !in order;
      CycleFromPredecessors(E, Elems(nodes) - Elems(order), v);
    }
  }

  /** A node left out when the queue runs dry still has an edge from another node left out. */
  lemma StuckHavePredecessors(nodes: seq<Id>, E: seq<Edge>, order: seq<Id>, indeg: map<Id, int>)
    requires EndpointsIn(E, nodes)
    requires KahnState(nodes, E, order, [], indeg)
    ensures forall w :: w in nodes && w !in order ==> HasPredIn(E, Elems(nodes) - Elems(order), w)
  {
    assert order + [] == order;
    forall w | w in nodes && w !in order ensures HasPredIn(E, Elems(nodes) - Elems(order), w) {
      InCountZero(E, w, order);
      var f :| f in E && f.dst == w && f.src !in order;
      assert f == Edge(f.src, w);
      assert f.src in Elems(nodes) - Elems(order);
    }
  }

  /**
   * Kahn's algorithm as the render graph runs it: in-degrees over `nodes`, a
   * FIFO queue seeded with the zero-degree nodes in node order, and for each
   * dequeued node a pass over the edge list in order, enqueuing a target when
   * its in-degree drops to zero. The result lists distinct nodes, every edge
   * source before its target, and it lists every node exactly when the graph
   * has no cycle.
   */
  method Kahn(nodes: seq<Id>, E: seq<Edge>) returns (order: seq<Id>)
    requires Distinct(nodes)
    requires EndpointsIn(E, nodes)
    ensures Distinct(order)
    ensures forall v :: v in order ==> v in nodes
    ensures RespectsEdges(order, E)
    ensures |order| == |nodes| <==> Acyclic(E)
    ensures |order| == |nodes| ==> forall v :: v in nodes ==> v in order
    ensures forall w :: w in nodes && w !in order ==> HasPredIn(E, Elems(nodes) - Elems(order), w)
  {
    var indeg := InDegrees(nodes, E);
    var queue := ZeroDegreeQueue(nodes, E, indeg);
    order := [];
    DistinctSubsetLength(order + queue, nodes);
    while queue != []
      invariant KahnState(nodes, E, order, queue, indeg)
      invariant |order + queue| <= |nodes|
      decreases |nodes| - |order|
    {
      var u := queue[0];
      assert (order + [u]) + queue[1..] == order + queue;
      DistinctConcat(order, queue);
      queue, indeg := Relax(nodes, E, order, u, queue[1..], indeg);
      order := order + [u];
      DistinctSubsetLength(order + queue, nodes);
    }
    assert order + queue == order;
    KahnExit(nodes, E, order, indeg);
  }

  // ----- reachability -----

  lemma ReachesStep(E: seq<Edge>, a: Id, u: Id, w: Id)
    requires ReachesOrSame(E, a, u) && Edge(u, w) in E
    ensures Reaches(E, a, w)
  {
    ReachesEdge(E, u, w);
    if a != u {
      ReachesTrans(E, a, u, w);
    }
  }

  /** Every edge leaving `x` ends inside `S`. */
  ghost predicate ClosedAt(E: seq<Edge>, S: set<Id>, x: Id) {
    forall e :: e in E && e.src == x ==> e.dst in S
  }

  lemma {:induction false} ClosedWalk(E: seq<Edge>, S: set<Id>, p: seq<Id>, k: nat)
    requires IsWalk(E, p) && k < |p| && p[0] in S
    requires forall x :: x in S ==> ClosedAt(E, S, x)
    ensures p[k] in S
  {
    if k > 0 {
      ClosedWalk(E, S, p, k - 1);
      assert Edge(p[k - 1], p[k]) in E;
    }
  }

  /** A set closed under edges that holds `a` holds everything `a` reaches. */
  lemma ClosedHoldsReach(E: seq<Edge>, S: set<Id>, a: Id, b: Id)
    requires a in S && Reaches(E, a, b)
    requires forall x :: x in S ==> ClosedAt(E, S, x)
    ensures b in S
  {
    var p :| |p| >= 2 && p[0] == a && p[|p| - 1] == b && IsWalk(E, p);
    ClosedWalk(E, S, p, |p| - 1);
  }

  ghost function Targets(E: seq<Edge>): set<Id> {
    set e | e in E :: e.dst
  }

  /** One step of the search: every edge out of `u` adds its target if it is new. */
  method Expand(E: seq<Edge>, start: Id, u: Id, seen0: set<Id>, work0: seq<Id>) returns (seen: set<Id>, work: seq<Id>)
    requires u in seen0
    requires forall x :: x in work0 ==> x in seen0
    requires forall x :: x in seen0 ==> ReachesOrSame(E, start, x)
    requires forall x :: x in seen0 && x !in work0 && x != u ==> ClosedAt(E, seen0, x)
    ensures seen0 <= seen <= seen0 + Targets(E)
    ensures seen == seen0 ==> work == work0
    ensures forall x :: x in work ==> x in seen
    ensures forall x :: x in work0 ==> x in work
    ensures forall x :: x in seen ==> ReachesOrSame(E, start, x)
    ensures forall x :: x in seen && x !in work ==> ClosedAt(E, seen, x)
  {
    seen, work := seen0, work0;
    var k := 0;
    while k < |E|
      invariant 0 <= k <= |E|
      invariant seen0 <= seen <= seen0 + Targets(E)
      invariant seen == seen0 ==> work == work0
      invariant forall x :: x in work ==> x in seen
      invariant forall x :: x in work0 ==> x in work
      invariant forall x :: x in seen ==> ReachesOrSame(E, start, x)
      invariant forall x :: x in seen && x !in work && x != u ==> ClosedAt(E, seen, x)
      invariant forall i :: 0 <= i < k && E[i].src == u ==> E[i].dst in seen
    {
      var e := E[k];
      if e.src == u && e.dst !in seen {
        ReachesStep(E, start, u, e.dst);
        assert e.dst in Targets(E);
        seen := seen + {e.dst};
        work := work + [e.dst];
      }
      k := k + 1;
    }
    forall f | f in E && f.src == u ensures f.dst in seen {
      var i :| 0 <= i < |E| && E[i] == f;
    }
  }

  /**
   * The nodes reachable from `start` (including `start`), found by a worklist
   * search over the edge list.
   */
  method ReachableFrom(E: seq<Edge>, start: Id) returns (seen: set<Id>)
    ensures forall x :: x in seen <==> ReachesOrSame(E, start, x)
  {
    ghost var U := Targets(E) + {start};
    seen := {start};
    var work := [start];
    while work != []
      invariant seen <= U && start in seen
      invariant forall x :: x in work ==> x in seen
      invariant forall x :: x in seen ==> ReachesOrSame(E, start, x)
      invariant forall x :: x in seen && x !in work ==> ClosedAt(E, seen, x)
      decreases |U - seen|, |work|
    {
      var u := work[0];
      ghost var seen0 := seen;
      seen, work := Expand(E, start, u, seen, work[1..]);
      if seen != seen0 {
        SubsetCardStrict(U - seen, U - seen0);
      }
    }
    forall x | ReachesOrSame(E, start, x) ensures x in seen {
      if x != start {
        ClosedHoldsReach(E, seen, start, x);
      }
    }
  }
}
