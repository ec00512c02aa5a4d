/**
 * The bundler's dependency sort: a class-dependency graph (a dict from each
 * class to the classes it depends on, in insertion order) is put in an order
 * where every class comes after the classes it depends on. Dependencies that
 * are not themselves keys of the graph are ignored, and a cycle is an error
 * that names the classes left unsorted.
 */
module ClassBundler {
  import opened Lists
  import opened Dicts
  import opened Wrappers
  import opened Digraph

  /** A dependency graph: each key's list of dependencies. */
  type Graph = Dict<Id, seq<Id>>

  /**
   * The edges `v -> u` for the dependencies `v` of `u` that are among `known`,
   * in list order (an entry of `reverse_graph[v]` and one unit of `in_degree[u]`).
   */
  function EdgesOf(u: Id, deps: seq<Id>, known: set<Id>): seq<Edge> {
    if deps == [] then []
    else EdgesOf(u, deps[..|deps| - 1], known)
         + (if deps[|deps| - 1] in known then [Edge(deps[|deps| - 1], u)] else [])
  }

  /** The edges of the keys `ks`, key by key. */
  function EdgesAll(ks: seq<Id>, items: map<Id, seq<Id>>, known: set<Id>): seq<Edge>
    requires forall k :: k in ks ==> k in items
  {
    if ks == [] then []
    else EdgesAll(ks[..|ks| - 1], items, known) + EdgesOf(ks[|ks| - 1], items[ks[|ks| - 1]], known)
  }

  /** Every dependency edge the sort counts, in the order the counting loop meets them. */
  function DependencyEdges(g: Graph): seq<Edge>
    requires g.Valid()
  {
    EdgesAll(g.keys, g.items, g.items.Keys)
  }

  lemma {:induction false} EdgesOfIn(u: Id, deps: seq<Id>, known: set<Id>, e: Edge)
    ensures e in EdgesOf(u, deps, known) <==> e.dst == u && e.src in deps && e.src in known
  {
    if deps != [] {
      var front := deps[..|deps| - 1];
      EdgesOfIn(u, front, known, e);
      assert deps == front + [deps[|deps| - 1]];
    }
  }

  /** An edge is counted exactly when its target is a key depending on its source, which is a key too. */
  lemma {:induction false} EdgesAllIn(ks: seq<Id>, items: map<Id, seq<Id>>, known: set<Id>, e: Edge)
    requires forall k :: k in ks ==> k in items
    ensures e in EdgesAll(ks, items, known) <==> e.dst in ks && e.src in items[e.dst] && e.src in known
  {
    if ks != [] {
      var front := ks[..|ks| - 1];
      var last := ks[|ks| - 1];
      EdgesAllIn(front, items, known, e);
      EdgesOfIn(last, items[last], known, e);
      assert ks == front + [last];
    }
  }

  /** `v in in_degree`: the class is a key of the graph. */
  function KnownTo(known: set<Id>): Id -> bool {
    v => v in known
  }

  /**
   * A dependency that is not a key adds no edge: the counted edges are those
   * of the dependency lists with every unknown class filtered out.
   */
  lemma {:induction false} UnknownIgnored(u: Id, deps: seq<Id>, known: set<Id>)
    ensures EdgesOf(u, deps, known) == EdgesOf(u, Filter(deps, KnownTo(known)), known)
  {
    if deps != [] {
      var front := deps[..|deps| - 1];
      var last := deps[|deps| - 1];
      assert deps == front + [last];
      FilterSnoc(front, last, KnownTo(known));
      UnknownIgnored(u, front, known);
      var kept := Filter(front, KnownTo(known));
      assert Filter(deps, KnownTo(known)) == kept + (if last in known then [last] else []);
      if last in known {
        var r := kept + [last];
        assert r[..|r| - 1] == kept && r[|r| - 1] == last;
        assert EdgesOf(u, r, known) == EdgesOf(u, kept, known) + [Edge(last, u)];
      } else {
        assert Filter(deps, KnownTo(known)) == kept;
      }
    }
  }

  /** Every counted edge joins two keys of the graph. */
  lemma EdgesBetweenKeys(g: Graph)
    requires g.Valid()
    ensures EndpointsIn(DependencyEdges(g), g.keys)
  {
    forall e | e in DependencyEdges(g) ensures e.src in g.keys && e.dst in g.keys {
      EdgesAllIn(g.keys, g.items, g.items.Keys, e);
    }
  }

  /** Each listed class comes after every in-graph dependency of it. */
  ghost predicate DependenciesFirst(order: seq<Id>, g: Graph)
    requires g.Valid()
  {
    forall u, v :: u in order && u in g.items && v in g.items[u] && v in g.items ==>
      v in order && IndexOf(order, v) < IndexOf(order, u)
  }

  lemma RespectsDependencies(order: seq<Id>, g: Graph)
    requires g.Valid() && Distinct(order)
    requires RespectsEdges(order, DependencyEdges(g))
    ensures DependenciesFirst(order, g)
  {
    forall u, v | u in order && u in g.items && v in g.items[u] && v in g.items
      ensures v in order && IndexOf(order, v) < IndexOf(order, u)
    {
      EdgesAllIn(g.keys, g.items, g.items.Keys, Edge(v, u));
      RespectsEdgesEarlier(order, DependencyEdges(g), v, u);
    }
  }

  /**
   * The counting loop: it walks each key's dependencies, counting those that
   * are keys, and meets the edges in the order `DependencyEdges` lists them.
   */
  method CountDependencies(g: Graph) returns (E: seq<Edge>)
    requires g.Valid()
    ensures E == DependencyEdges(g)
  {
    E := [];
    for i := 0 to |g.keys|
      invariant E == EdgesAll(g.keys[..i], g.items, g.items.Keys)
    {
      var u := g.keys[i];
      var deps := g.items[u];
      assert g.keys[..i + 1][..i] == g.keys[..i];
      ghost var before := E;
      for j := 0 to |deps|
        invariant E == before + EdgesOf(u, deps[..j], g.items.Keys)
      {
        assert deps[..j + 1][..j] == deps[..j];
        if deps[j] in g.items {
          E := E + [Edge(deps[j], u)];
        }
      }
      assert deps[..|deps|] == deps;
    }
    assert g.keys[..|g.keys|] == g.keys;
  }

  /** A shorter duplicate-free list inside `keys` misses one of them. */
  lemma MissingSome(order: seq<Id>, keys: seq<Id>)
    requires Distinct(order) && Distinct(keys) && |order| != |keys|
    requires forall v :: v in order ==> v in keys
    ensures Elems(keys) - Elems(order) != {}
  {
    DistinctSubsetLength(order, keys);
    ElemsCard(order);
    ElemsCard(keys);
    assert |Elems(order)| < |Elems(keys)|;
    assert Elems(order) <= Elems(keys);
    assert Elems(keys) == Elems(order) + (Elems(keys) - Elems(order));
  }

  /**
   * `topological_sort`: Kahn's algorithm over the counted edges. When the
   * order lists every key it is returned; otherwise the keys it misses are
   * reported as the cycle.
   */
  method TopologicalSort(g: Graph) returns (r: Result<seq<Id>, set<Id>>)
    requires g.Valid()
    ensures r.Success? <==> Acyclic(DependencyEdges(g))
    ensures r.Success? ==> Distinct(r.value) && |r.value| == |g.keys|
    ensures r.Success? ==> forall k :: k in r.value <==> k in g.items
    ensures r.Success? ==> DependenciesFirst(r.value, g)
    ensures r.Failure? ==> r.error != {} && r.error <= g.items.Keys
    ensures r.Failure? ==> forall k :: k in g.items && Reaches(DependencyEdges(g), k, k) ==> k in r.error
    ensures r.Failure? ==> forall k :: k in r.error ==> HasPredIn(DependencyEdges(g), r.error, k)
  {
    var E := CountDependencies(g);
    EdgesBetweenKeys(g);
    var order := Kahn(g.keys, E);
    if |order| != |g.keys| {
      MissingSome(order, g.keys);
      forall k | k in g.items && Reaches(E, k, k) ensures k in Elems(g.keys) - Elems(order) {
        CycleNodesUnlisted(order, E, k);
      }
      return Failure(Elems(g.keys) - Elems(order));
    }
    RespectsDependencies(order, g);
    return Success(order);
  }
}
