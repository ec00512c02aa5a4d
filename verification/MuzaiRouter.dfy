/**
 * The subsystem router: a directed node graph, the port-to-port connections
 * behind its edges, each node's reported latency, and the latency
 * compensation derived from them.
 */
module MuzaiRouter {
  import opened Lists
  import opened Digraph
  import opened Wrappers

  datatype Direction = Input | Output

  /** A port, with the id of the node that owns it. The port type is kept as its label. */
  datatype Port = Port(owner: Id, portId: string, portType: string, direction: Direction, channels: int)

  datatype Connection = Connection(source: Port, dest: Port)

  /** The reasons `_validate_connection` gives, in the order it checks them. */
  datatype Invalid = TypeMismatch | SourceNotOutput | DestNotInput | SelfConnection | TooFewChannels | AlreadyConnected

  /** Some connection already joins these two ports (same owners, same port ids). */
  predicate SamePorts(c: Connection, src: Port, dst: Port) {
    c.source.owner == src.owner && c.source.portId == src.portId
    && c.dest.owner == dst.owner && c.dest.portId == dst.portId
  }

  function FindSamePorts(cs: seq<Connection>, src: Port, dst: Port): (found: bool)
    ensures found <==> exists c :: c in cs && SamePorts(c, src, dst)
  {
    if cs == [] then false
    else SamePorts(cs[0], src, dst) || FindSamePorts(cs[1..], src, dst)
  }

  /** `_validate_connection`: the first check that fails, or `None` when the connection is valid. */
  function ValidateConnection(cs: seq<Connection>, src: Port, dst: Port): (r: Option<Invalid>)
    ensures r.None? <==> WellFormed(Connection(src, dst)) && !exists c :: c in cs && SamePorts(c, src, dst)
    ensures r == Some(TypeMismatch) <==> src.portType != dst.portType
    ensures r == Some(AlreadyConnected) ==> exists c :: c in cs && SamePorts(c, src, dst)
  {
    if src.portType != dst.portType then Some(TypeMismatch)
    else if src.direction != Output then Some(SourceNotOutput)
    else if dst.direction != Input then Some(DestNotInput)
    else if src.owner == dst.owner then Some(SelfConnection)
    else if dst.channels < src.channels then Some(TooFewChannels)
    else if FindSamePorts(cs, src, dst) then Some(AlreadyConnected)
    else None
  }

  /**
   * What `_validate_connection` demands of a single connection: matching port
   * types, output to input, two different nodes, and enough channels at the
   * destination.
   */
  predicate WellFormed(c: Connection) {
    && c.source.portType == c.dest.portType
    && c.source.direction == Output && c.dest.direction == Input
    && c.source.owner != c.dest.owner
    && c.dest.channels >= c.source.channels
  }

  /** No two different connections join the same pair of ports. */
  ghost predicate UniquePorts(cs: seq<Connection>) {
    forall x, y :: x in cs && y in cs && SamePorts(x, y.source, y.dest) ==> x == y
  }

  /** The connections `remove_node` keeps: those not touching `id`. */
  function Detach(cs: seq<Connection>, id: Id): (r: seq<Connection>)
    ensures forall c :: c in r <==> c in cs && c.source.owner != id && c.dest.owner != id
    ensures Distinct(cs) ==> Distinct(r)
  {
    var keep := (c: Connection) => c.source.owner != id && c.dest.owner != id;
    FilterDistinct(cs, keep);
    Filter(cs, keep)
  }

  /** `get_inputs_for_node`: the connections into `id`, in list order. */
  function InputsOf(cs: seq<Connection>, id: Id): (r: seq<Connection>)
    ensures forall c :: c in r <==> c in cs && c.dest.owner == id
    ensures Distinct(cs) ==> Distinct(r)
  {
    var into := (c: Connection) => c.dest.owner == id;
    FilterDistinct(cs, into);
    Filter(cs, into)
  }

  /** `get_outputs_for_node`: the connections out of `id`, in list order. */
  function OutputsOf(cs: seq<Connection>, id: Id): (r: seq<Connection>)
    ensures forall c :: c in r <==> c in cs && c.source.owner == id
    ensures Distinct(cs) ==> Distinct(r)
  {
    var outOf := (c: Connection) => c.source.owner == id;
    FilterDistinct(cs, outOf);
    Filter(cs, outOf)
  }

  /**
   * Without self-connections, the connections of a list split into those
   * `remove_node` keeps, those into the node and those out of it, and the
   * last two never share a connection.
   */
  lemma DetachPartition(cs: seq<Connection>, id: Id)
    requires forall c :: c in cs ==> WellFormed(c)
    ensures forall c :: c in cs <==> c in Detach(cs, id) || c in InputsOf(cs, id) || c in OutputsOf(cs, id)
    ensures forall c :: c in InputsOf(cs, id) ==> c !in OutputsOf(cs, id) && c !in Detach(cs, id)
    ensures forall c :: c in OutputsOf(cs, id) ==> c !in Detach(cs, id)
  {
  }

  /** The node pair a connection joins. */
  function EdgeOf(c: Connection): Edge {
    Edge(c.source.owner, c.dest.owner)
  }

  ghost function Pairs(cs: seq<Connection>): set<Edge> {
    set c | c in cs :: EdgeOf(c)
  }

  /** `DiGraph.add_edge`: an edge already present is not added twice. */
  function AddEdge(g: seq<Edge>, e: Edge): (r: seq<Edge>)
    ensures Elems(r) == Elems(g) + {e}
    ensures Distinct(g) ==> Distinct(r)
  {
    if e in g then g else g + [e]
  }

  /** What `_would_create_cycle` does to the graph: add the edge, then remove it. */
  function ProbeAsWritten(g: seq<Edge>, e: Edge): seq<Edge> {
    RemoveFirst(AddEdge(g, e), e)
  }

  /** The probe drops an edge the graph already had. */
  lemma ProbeDropsExistingEdge(g: seq<Edge>, e: Edge)
    requires Distinct(g) && e in g
    ensures e !in ProbeAsWritten(g, e)
    ensures ProbeAsWritten(g, e) != g
  {
    RemoveFirstDistinct(g, e);
  }

  /** With one connection `a -> b` in place, probing `a -> b` again leaves the graph empty. */
  lemma ProbeCounterexample()
    ensures ProbeAsWritten([Edge("a", "b")], Edge("a", "b")) == []
  {
  }

  /** An acyclic graph has no self-loop. */
  lemma NoSelfLoop(E: seq<Edge>, e: Edge)
    requires Acyclic(E) && e in E
    ensures e.src != e.dst
  {
    ReachesEdge(E, e.src, e.dst);
  }

  /** An edge of an acyclic graph cannot be closed into a cycle by re-adding it. */
  lemma PresentEdgeNoCycle(E: seq<Edge>, s: Id, d: Id)
    requires Acyclic(E) && Edge(s, d) in E
    ensures !ReachesOrSame(E, d, s)
  {
    AddEdgeAcyclic(E, s, d);
    SubgraphAcyclic(E, E + [Edge(s, d)]);
  }

  // ----- latency -----

  /** `dict.get(k, 0)`. */
  function Get(m: map<Id, int>, k: Id): int {
    if k in m then m[k] else 0
  }

  /** The largest `cum` value over the sources of edges into `v`; `None` when `v` has no predecessor. */
  function MaxInput(E: seq<Edge>, v: Id, cum: map<Id, int>): Option<int> {
    if E == [] then None
    else
      var rest := MaxInput(E[..|E| - 1], v, cum);
      var e := E[|E| - 1];
      if e.dst != v then rest
      else
        var x := Get(cum, e.src);
        Some(if rest.Some? && rest.value > x then rest.value else x)
  }

  /** `MaxInput` is `None` exactly without predecessors, and otherwise the maximum over them. */
  lemma {:induction false} MaxInputIsMax(E: seq<Edge>, v: Id, cum: map<Id, int>)
    ensures var r := MaxInput(E, v, cum);
      && (r.Some? <==> exists e :: e in E && e.dst == v)
      && (r.Some? ==> forall e :: e in E && e.dst == v ==> Get(cum, e.src) <= r.value)
      && (r.Some? ==> exists e :: e in E && e.dst == v && Get(cum, e.src) == r.value)
  {
    if E != [] {
      var e := E[|E| - 1];
      assert E == E[..|E| - 1] + [e];
      MaxInputIsMax(E[..|E| - 1], v, cum);
    }
  }

  function OrZero(m: Option<int>): int {
    if m.Some? then m.value else 0
  }

  /** Each node's latency is its own plus the largest latency among its predecessors. */
  ghost predicate Cumulative(E: seq<Edge>, nodes: seq<Id>, own: map<Id, int>, cum: map<Id, int>) {
    && cum.Keys == Elems(nodes)
    && forall v :: v in cum ==> cum[v] == Get(own, v) + OrZero(MaxInput(E, v, cum))
  }

  /** Changing the value of a node that is no predecessor of `v` does not change `v`'s input maximum. */
  lemma {:induction false} MaxInputFrame(E: seq<Edge>, v: Id, cum: map<Id, int>, x: Id, val: int)
    requires forall e :: e in E && e.dst == v ==> e.src != x
    ensures MaxInput(E, v, cum[x := val]) == MaxInput(E, v, cum)
  {
    if E != [] {
      assert E == E[..|E| - 1] + [E[|E| - 1]];
      MaxInputFrame(E[..|E| - 1], v, cum, x, val);
    }
  }

  /** The loop over the predecessors of `v`. */
  method MaxInputOf(E: seq<Edge>, v: Id, cum: map<Id, int>) returns (m: Option<int>)
    ensures m == MaxInput(E, v, cum)
  {
    m := None;
    var k := 0;
    while k < |E|
      invariant 0 <= k <= |E|
      invariant m == MaxInput(E[..k], v, cum)
    {
      assert E[..k + 1][..k] == E[..k];
      if E[k].dst == v {
        var x := Get(cum, E[k].src);
        if !(m.Some? && m.value > x) {
          m := Some(x);
        }
      }
      k := k + 1;
    }
    assert E[..|E|] == E;
  }

  /**
   * The first loop of `_calculate_latency_compensation`: visit the nodes in
   * topological order and record own latency plus the largest predecessor
   * latency.
   */
  method CumulativeLatencies(nodes: seq<Id>, E: seq<Edge>, own: map<Id, int>) returns (cum: map<Id, int>)
    requires Distinct(nodes) && EndpointsIn(E, nodes) && Acyclic(E)
    ensures Cumulative(E, nodes, own, cum)
  {
    var order := Kahn(nodes, E);
    cum := map[];
    var i := 0;
    while i < |order|
      invariant 0 <= i <= |order|
      invariant Cumulative(E, order[..i], own, cum)
    {
      var m := MaxInputOf(E, order[i], cum);
      var val := Get(own, order[i]) + OrZero(m);
      CumulativeStep(order, E, own, cum, i, val);
      cum := cum[order[i] := val];
      i := i + 1;
    }
    assert order[..|order|] == order;
    CumulativeOver(E, order, nodes, own, cum);
  }

  /** `Cumulative` depends only on the set of nodes listed. */
  lemma CumulativeOver(E: seq<Edge>, a: seq<Id>, b: seq<Id>, own: map<Id, int>, cum: map<Id, int>)
    requires Cumulative(E, a, own, cum)
    requires forall v :: v in a <==> v in b
    ensures Cumulative(E, b, own, cum)
  {
    assert Elems(a) == Elems(b);
  }

  /** Recording the next node of a topological order keeps every recorded node's equation. */
  lemma CumulativeStep(order: seq<Id>, E: seq<Edge>, own: map<Id, int>, cum: map<Id, int>, i: nat, val: int)
    requires Distinct(order) && RespectsEdges(order, E) && Acyclic(E) && i < |order|
    requires Cumulative(E, order[..i], own, cum)
    requires val == Get(own, order[i]) + OrZero(MaxInput(E, order[i], cum))
    ensures Cumulative(E, order[..i + 1], own, cum[order[i] := val])
  {
    var v := order[i];
    forall e | e in E && e.dst == v ensures e.src != v {
      NoSelfLoop(E, e);
    }
    MaxInputFrame(E, v, cum, v, val);
    forall w | w in cum ensures MaxInput(E, w, cum[v := val]) == MaxInput(E, w, cum) {
      EarlierNotPred(order, E, i, w);
      MaxInputFrame(E, w, cum, v, val);
    }
    assert order[..i + 1] == order[..i] + [v];
  }

  /** In a topological order, a later node is no predecessor of an earlier one. */
  lemma EarlierNotPred(order: seq<Id>, E: seq<Edge>, i: nat, w: Id)
    requires Distinct(order) && RespectsEdges(order, E) && i < |order|
    requires w in order[..i]
    ensures forall e :: e in E && e.dst == w ==> e.src != order[i]
  {
    var j :| 0 <= j < i && order[j] == w;
    forall e | e in E && e.dst == w ensures e.src != order[i] {
      assert e.src in order[..j];
    }
  }

  /** The largest value of `m` over `keys`. */
  method MaxValue(keys: seq<Id>, m: map<Id, int>) returns (top: int)
    requires keys != [] && forall k :: k in keys ==> k in m
    ensures forall k :: k in keys ==> m[k] <= top
    ensures exists k :: k in keys && m[k] == top
  {
    top := m[keys[0]];
    var i := 1;
    while i < |keys|
      invariant 1 <= i <= |keys|
      invariant forall k :: k in keys[..i] ==> m[k] <= top
      invariant exists k :: k in keys[..i] && m[k] == top
    {
      assert keys[..i + 1] == keys[..i] + [keys[i]];
      if m[keys[i]] > top {
        top := m[keys[i]];
      }
      i := i + 1;
    }
    assert keys[..|keys|] == keys;
  }

  /**
   * The second part: every node is delayed by the largest cumulative latency
   * minus its own, so all paths line up. With no node there is nothing to do.
   */
  method Compensate(keys: seq<Id>, cum: map<Id, int>) returns (comp: map<Id, int>)
    requires cum.Keys == Elems(keys)
    ensures comp.Keys == cum.Keys
    ensures forall v :: v in comp ==> comp[v] >= 0
    ensures keys != [] ==> exists v :: v in comp && comp[v] == 0
    ensures forall v, w :: v in comp && w in comp ==> comp[v] + cum[v] == comp[w] + cum[w]
  {
    if keys == [] {
      return map[];
    }
    var top := MaxValue(keys, cum);
    comp := map[];
    var i := 0;
    while i < |keys|
      invariant 0 <= i <= |keys|
      invariant comp.Keys == Elems(keys[..i])
      invariant forall v :: v in comp ==> comp[v] == top - cum[v]
    {
      assert keys[..i + 1] == keys[..i] + [keys[i]];
      comp := comp[keys[i] := top - cum[keys[i]]];
      i := i + 1;
    }
    assert keys[..|keys|] == keys;
  }

  class Router {
    /** The graph's nodes, in the order they were added. */
    var nodes: seq<Id>
    /** The graph's edges, each once. */
    var graph: seq<Edge>
    var connections: seq<Connection>
    /** The `latency` entry of each node's metadata. */
    var latency: map<Id, int>
    var latencyCache: map<Id, int>
    var needsRecalculation: bool

    ghost predicate Valid()
      reads this
    {
      && Distinct(nodes)
      && Distinct(graph)
      && EndpointsIn(graph, nodes)
      && Acyclic(graph)
      && Elems(graph) == Pairs(connections)
      && Distinct(connections)
      && UniquePorts(connections)
      && (forall c :: c in connections ==> WellFormed(c))
      && latency.Keys == Elems(nodes)
    }

    function InputsFor(id: Id): (r: seq<Connection>)
      reads this
      ensures forall c :: c in r <==> c in connections && c.dest.owner == id
    {
      InputsOf(connections, id)
    }

    function OutputsFor(id: Id): (r: seq<Connection>)
      reads this
      ensures forall c :: c in r <==> c in connections && c.source.owner == id
    {
      OutputsOf(connections, id)
    }

    constructor ()
      ensures Valid() && nodes == [] && graph == [] && connections == []
      ensures latencyCache == map[] && needsRecalculation
    {
      nodes := [];
      graph := [];
      connections := [];
      latency := map[];
      latencyCache := map[];
      needsRecalculation := true;
      EmptyAcyclic();
    }

    /** `add_node`: a new node gets latency 0; a known id changes nothing. */
    method AddNode(id: Id)
      requires Valid()
      modifies this
      ensures Valid()
      ensures id in old(nodes) ==> unchanged(this)
      ensures id !in old(nodes) ==>
        && nodes == old(nodes) + [id] && latency == old(latency)[id := 0] && needsRecalculation
        && graph == old(graph) && connections == old(connections) && latencyCache == old(latencyCache)
    {
      if id in nodes {
        return;
      }
      AppendDistinct(nodes, id);
      nodes := nodes + [id];
      latency := latency[id := 0];
      needsRecalculation := true;
    }

    /** `remove_node`: drops the node, its edges, the connections touching it and its metadata. */
    method RemoveNode(id: Id)
      requires Valid()
      modifies this
      ensures Valid()
      ensures id !in old(nodes) ==> unchanged(this)
      ensures id in old(nodes) ==>
        && nodes == RemoveFirst(old(nodes), id)
        && (forall v :: v in nodes <==> v in old(nodes) && v != id)
        && connections == Detach(old(connections), id)
        && (forall e :: e in graph <==> e in old(graph) && e.src != id && e.dst != id)
        && latency == old(latency) - {id}
        && needsRecalculation
      ensures latencyCache == old(latencyCache)
    {
      if id !in nodes {
        return;
      }
      ghost var G0 := graph;
      ghost var C0 := connections;
      ghost var N0 := nodes;
      connections := Detach(connections, id);
      nodes := RemoveFirst(nodes, id);
      graph := DropNode(graph, id);
      RemovalKeepsShape(N0, G0, C0, id, nodes, graph, connections);
      latency := latency - {id};
      needsRecalculation := true;
    }

    /**
     * `_would_create_cycle` as written: adds the edge to the graph, asks
     * whether the graph is still acyclic, and removes the edge again, which
     * also removes an edge that was there before.
     */
    method WouldCreateCycleAsWritten(src: Id, dst: Id) returns (r: bool)
      requires Valid() && src in nodes && dst in nodes
      modifies this`graph
      ensures r <==> !Acyclic(AddEdge(old(graph), Edge(src, dst)))
      ensures graph == ProbeAsWritten(old(graph), Edge(src, dst))
    {
      graph := AddEdge(graph, Edge(src, dst));
      var order := Kahn(nodes, graph);
      r := |order| != |nodes|;
      graph := RemoveFirst(graph, Edge(src, dst));
    }

    /**
     * `_would_create_cycle` as intended: whether the graph with the edge added
     * has a cycle, leaving the graph alone. Equivalently, whether `dst`
     * already reaches `src`.
     */
    method WouldCreateCycle(src: Id, dst: Id) returns (r: bool)
      requires Valid() && src in nodes && dst in nodes
      ensures r <==> !Acyclic(AddEdge(graph, Edge(src, dst)))
      ensures r <==> ReachesOrSame(graph, dst, src)
    {
      var e := Edge(src, dst);
      var order := Kahn(nodes, AddEdge(graph, e));
      r := |order| != |nodes|;
      if e in graph {
        PresentEdgeNoCycle(graph, src, dst);
      } else {
        AddEdgeAcyclic(graph, src, dst);
      }
    }

    /**
     * `connect`: succeeds exactly when the connection is valid, both owners
     * are nodes, and the edge closes no cycle; it then records the edge and
     * the connection and asks for a latency recalculation.
     */
    method Connect(src: Port, dst: Port) returns (ok: bool)
      requires Valid()
      modifies this
      ensures Valid()
      ensures ok <==>
        && old(ValidateConnection(connections, src, dst)).None?
        && src.owner in old(nodes) && dst.owner in old(nodes)
        && !old(ReachesOrSame(graph, dst.owner, src.owner))
      ensures ok ==>
        && graph == AddEdge(old(graph), Edge(src.owner, dst.owner))
        && connections == old(connections) + [Connection(src, dst)]
        && needsRecalculation
      ensures !ok ==> unchanged(this)
      ensures nodes == old(nodes) && latency == old(latency) && latencyCache == old(latencyCache)
    {
      var check := ValidateConnection(connections, src, dst);
      if check.Some? {
        return false;
      }
      if src.owner !in nodes || dst.owner !in nodes {
        return false;
      }
      var cycle := WouldCreateCycle(src.owner, dst.owner);
      if cycle {
        return false;
      }
      var e := Edge(src.owner, dst.owner);
      AddEdgeAcyclic(graph, src.owner, dst.owner);
      SubgraphAcyclic(graph + [e], AddEdge(graph, e));
      graph := AddEdge(graph, e);
      PairsSnoc(connections, Connection(src, dst));
      NewPortsKeepUnique(connections, Connection(src, dst));
      connections := connections + [Connection(src, dst)];
      needsRecalculation := true;
      ok := true;
    }

    /**
     * `disconnect`: removes every connection from `src` to `dst` and the
     * graph edge; reports whether there was an edge to remove.
     */
    method Disconnect(src: Id, dst: Id) returns (removed: bool)
      requires Valid()
      modifies this
      ensures Valid()
      ensures removed <==> Edge(src, dst) in old(graph)
      ensures removed <==> exists c :: c in old(connections) && EdgeOf(c) == Edge(src, dst)
      ensures forall c :: c in connections <==> c in old(connections) && EdgeOf(c) != Edge(src, dst)
      ensures forall e :: e in graph <==> e in old(graph) && e != Edge(src, dst)
      ensures needsRecalculation == (removed || old(needsRecalculation))
      ensures nodes == old(nodes) && latency == old(latency) && latencyCache == old(latencyCache)
    {
      var e := Edge(src, dst);
      PairsMember(connections, e);
      ghost var C0 := connections;
      connections := Filter(connections, (c: Connection) => EdgeOf(c) != e);
      FilterDistinct(C0, (c: Connection) => EdgeOf(c) != e);
      removed := false;
      if e in graph {
        ghost var G0 := graph;
        RemoveFirstDistinct(graph, e);
        graph := RemoveFirst(graph, e);
        SubgraphAcyclic(G0, graph);
        removed := true;
      }
      forall x ensures x in Elems(graph) <==> x in Pairs(connections) {
        PairsMember(C0, x);
        PairsMember(connections, x);
      }
      if removed {
        needsRecalculation := true;
      }
    }

    /** `report_node_latency`: only known nodes record a latency. */
    method ReportNodeLatency(id: Id, samples: int)
      requires Valid()
      modifies this
      ensures Valid()
      ensures id in old(latency) ==> latency == old(latency)[id := samples] && needsRecalculation
      ensures id !in old(latency) ==> unchanged(this)
      ensures nodes == old(nodes) && graph == old(graph) && connections == old(connections)
      ensures latencyCache == old(latencyCache)
    {
      if id in latency {
        latency := latency[id := samples];
        needsRecalculation := true;
      }
    }

    /**
     * `_calculate_latency_compensation`: the cache ends up holding, for every
     * node, the largest cumulative latency minus the node's cumulative
     * latency.
     */
    method CalculateLatencyCompensation()
      requires Valid()
      modifies this`latencyCache
      ensures exists cum :: (&& Cumulative(graph, nodes, latency, cum)
                             && latencyCache.Keys == cum.Keys
                             && forall v, w :: v in cum && w in cum ==> latencyCache[v] + cum[v] == latencyCache[w] + cum[w])
      ensures forall v :: v in latencyCache ==> latencyCache[v] >= 0
      ensures nodes != [] ==> exists v :: v in latencyCache && latencyCache[v] == 0
      ensures latencyCache.Keys == Elems(nodes)
    {
      var cum := CumulativeLatencies(nodes, graph, latency);
      latencyCache := Compensate(nodes, cum);
    }

    /**
     * `get_processing_order`: a topological order of all nodes, refreshing
     * the latency compensation first when it is stale.
     */
    method ProcessingOrder() returns (order: seq<Id>)
      requires Valid()
      modifies this`latencyCache, this`needsRecalculation
      ensures Distinct(order) && |order| == |nodes|
      ensures forall v :: v in order <==> v in nodes
      ensures RespectsEdges(order, graph)
      ensures nodes == [] ==> unchanged(this)
      ensures nodes != [] ==> !needsRecalculation
      ensures !old(needsRecalculation) ==> latencyCache == old(latencyCache)
      ensures nodes != [] && old(needsRecalculation) ==>
        latencyCache.Keys == Elems(nodes) && forall v :: v in latencyCache ==> latencyCache[v] >= 0
      ensures nodes != [] && old(needsRecalculation) ==>
        exists cum :: (&& Cumulative(graph, nodes, latency, cum)
                       && latencyCache.Keys == cum.Keys
                       && forall v, w :: v in cum && w in cum ==> latencyCache[v] + cum[v] == latencyCache[w] + cum[w])
      ensures nodes != [] && old(needsRecalculation) ==>
        exists v :: v in latencyCache && latencyCache[v] == 0
    {
      if nodes == [] {
        // An empty graph is answered before the recalculation flag is looked at.
        return [];
      }
      order := Kahn(nodes, graph);
      if needsRecalculation {
        CalculateLatencyCompensation();
        needsRecalculation := false;
      }
    }
  }

  /** Appending a connection whose ports no listed connection joins keeps the list duplicate-free and port-unique. */
  lemma NewPortsKeepUnique(cs: seq<Connection>, c: Connection)
    requires Distinct(cs) && UniquePorts(cs)
    requires !exists x :: x in cs && SamePorts(x, c.source, c.dest)
    ensures Distinct(cs + [c]) && UniquePorts(cs + [c])
  {
    assert c !in cs;
  }

  /** The edges of `g` that do not touch `id`, in order. */
  function DropNode(g: seq<Edge>, id: Id): (r: seq<Edge>)
    ensures forall e :: e in r <==> e in g && e.src != id && e.dst != id
    ensures Distinct(g) ==> Distinct(r)
  {
    var keep := (e: Edge) => e.src != id && e.dst != id;
    FilterDistinct(g, keep);
    Filter(g, keep)
  }

  /** Removing a node with its edges and connections keeps the router's shape invariant. */
  lemma RemovalKeepsShape(N0: seq<Id>, G0: seq<Edge>, C0: seq<Connection>, id: Id,
                          N1: seq<Id>, G1: seq<Edge>, C1: seq<Connection>)
    requires Distinct(N0) && Distinct(G0) && EndpointsIn(G0, N0) && Acyclic(G0)
    requires Elems(G0) == Pairs(C0) && Distinct(C0) && UniquePorts(C0)
    requires forall c :: c in C0 ==> WellFormed(c)
    requires N1 == RemoveFirst(N0, id) && G1 == DropNode(G0, id) && C1 == Detach(C0, id)
    ensures Distinct(N1) && Distinct(G1) && EndpointsIn(G1, N1) && Acyclic(G1)
    ensures Elems(G1) == Pairs(C1) && Distinct(C1) && UniquePorts(C1)
    ensures forall c :: c in C1 ==> WellFormed(c)
    ensures forall v :: v in N1 <==> v in N0 && v != id
  {
    RemoveFirstDistinct(N0, id);
    SubgraphAcyclic(G0, G1);
    forall e ensures e in Elems(G1) <==> e in Pairs(C1) {
      PairsMember(C0, e);
      PairsMember(C1, e);
    }
  }

  lemma PairsMember(cs: seq<Connection>, e: Edge)
    ensures e in Pairs(cs) <==> exists c :: c in cs && EdgeOf(c) == e
  {
  }

  lemma PairsSnoc(cs: seq<Connection>, c: Connection)
    ensures Pairs(cs + [c]) == Pairs(cs) + {EdgeOf(c)}
  {
  }
}
