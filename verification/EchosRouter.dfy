/**
 * The project-level router: nodes keyed by id, the list of port-to-port
 * connections, and the directed node graph that mirrors them (one edge per
 * pair of nodes joined by at least one connection).
 */
module EchosRouter {
  import opened Lists
  import opened Digraph
  import opened Dicts
  import opened Wrappers

  datatype Direction = Input | Output

  /** A port of a node. The port type is kept as its label. */
  datatype Port = Port(direction: Direction, portType: string, channels: nat)

  /** A node as the router sees it: whether it is a plugin, and its ports by id. */
  datatype NodeInfo = NodeInfo(isPlugin: bool, ports: map<string, Port>)

  /** A track's ports: a stereo audio input `main_in` and output `main_out`. */
  function TrackPorts(): (ports: map<string, Port>)
    ensures "main_in" in ports && ports["main_in"].direction == Input
    ensures "main_out" in ports && ports["main_out"].direction == Output
    ensures ports["main_in"].portType == ports["main_out"].portType
  {
    map["main_in" := Port(Input, "AUDIO", 2), "main_out" := Port(Output, "AUDIO", 2)]
  }

  datatype Connection = Connection(srcNode: Id, dstNode: Id, srcPort: string, dstPort: string)

  /** Why `connect` refused, in the order its checks run. */
  datatype Refusal = NodeNotFound | PortNotFound | DirectionMismatch | TypeMismatch | Duplicate | WouldCycle

  datatype AddOutcome = Added | AlreadyPresent | PluginRefused

  /** The node pairs joined by some connection. */
  ghost function Pairs(cs: seq<Connection>): set<Edge> {
    set c | c in cs :: Edge(c.srcNode, c.dstNode)
  }

  ghost predicate Touches(c: Connection, id: Id) {
    c.srcNode == id || c.dstNode == id
  }

  class Router {
    var nodes: Dict<Id, NodeInfo>
    var connections: seq<Connection>
    /** The edges of the node graph, each once. */
    var graph: seq<Edge>

    /**
     * Connections are distinct and join known nodes, the node graph holds
     * exactly the connected pairs, and it has no cycle.
     */
    ghost predicate Valid()
      reads this
    {
      && nodes.Valid()
      && Distinct(connections)
      && (forall c :: c in connections ==> c.srcNode in nodes.items && c.dstNode in nodes.items)
      && Distinct(graph)
      && Elems(graph) == Pairs(connections)
      && Acyclic(graph)
    }

    constructor ()
      ensures Valid() && nodes.keys == [] && connections == [] && graph == []
    {
      nodes := Empty();
      connections := [];
      graph := [];
      EmptyAcyclic();
    }

    /** `add_node`: a plugin is refused, a known id changes nothing, a new id is added. */
    method AddNode(id: Id, info: NodeInfo) returns (outcome: AddOutcome)
      requires Valid()
      modifies this
      ensures Valid()
      ensures outcome == (if info.isPlugin then PluginRefused else if id in old(nodes.items) then AlreadyPresent else Added)
      ensures outcome == Added ==> nodes == old(nodes).Put(id, info)
      ensures outcome != Added ==> nodes == old(nodes)
      ensures connections == old(connections) && graph == old(graph)
    {
      if info.isPlugin {
        return PluginRefused;
      }
      if id in nodes.items {
        return AlreadyPresent;
      }
      nodes := nodes.Put(id, info);
      outcome := Added;
    }

    /** The first check of `connect` that fails, if any. */
    ghost function Refuses(src: Id, dst: Id, srcPort: string, dstPort: string): (r: Option<Refusal>)
      reads this
    {
      if src !in nodes.items || dst !in nodes.items then Some(NodeNotFound)
      else if srcPort !in nodes.items[src].ports || dstPort !in nodes.items[dst].ports then Some(PortNotFound)
      else
        var sp := nodes.items[src].ports[srcPort];
        var dp := nodes.items[dst].ports[dstPort];
        if sp.direction != Output || dp.direction != Input then Some(DirectionMismatch)
        else if sp.portType != dp.portType then Some(TypeMismatch)
        else if Connection(src, dst, srcPort, dstPort) in connections then Some(Duplicate)
        else if ReachesOrSame(graph, dst, src) then Some(WouldCycle)
        else None
    }

    /**
     * `connect`: succeeds exactly when no check refuses; it then appends the
     * connection and the graph edge (unless the pair is already joined).
     */
    method Connect(src: Id, dst: Id, srcPort: string, dstPort: string) returns (ok: bool)
      requires Valid()
      modifies this
      ensures Valid()
      ensures ok <==> old(Refuses(src, dst, srcPort, dstPort)).None?
      ensures ok ==> connections == old(connections) + [Connection(src, dst, srcPort, dstPort)]
      ensures ok ==> Edge(src, dst) in graph && Elems(graph) == old(Elems(graph)) + {Edge(src, dst)}
      ensures !ok ==> unchanged(this)
      ensures nodes == old(nodes)
    {
      if src !in nodes.items || dst !in nodes.items {
        return false;
      }
      var ports1 := nodes.items[src].ports;
      var ports2 := nodes.items[dst].ports;
      if srcPort !in ports1 || dstPort !in ports2 {
        return false;
      }
      if ports1[srcPort].direction != Output || ports2[dstPort].direction != Input {
        return false;
      }
      if ports1[srcPort].portType != ports2[dstPort].portType {
        return false;
      }
      var c := Connection(src, dst, srcPort, dstPort);
      if c in connections {
        return false;
      }
      var reach := ReachableFrom(graph, dst);
      if src in reach {
        return false;
      }
      var e := Edge(src, dst);
      AddEdgeAcyclic(graph, src, dst);
      if e !in graph {
        AppendDistinctEdge(graph, e);
        graph := graph + [e];
      }
      PairsSnoc(connections, c, graph);
      connections := connections + [c];
      AppendDistinctConn(old(connections), c);
      ok := true;
    }

    /**
     * `disconnect`: fails when the connection is absent; otherwise removes it,
     * and removes the graph edge when no other connection joins the same pair.
     */
    method Disconnect(src: Id, dst: Id, srcPort: string, dstPort: string) returns (ok: bool)
      requires Valid()
      modifies this
      ensures Valid()
      ensures ok <==> Connection(src, dst, srcPort, dstPort) in old(connections)
      ensures !ok ==> unchanged(this)
      ensures ok ==> connections == RemoveFirst(old(connections), Connection(src, dst, srcPort, dstPort))
      ensures forall c :: c in connections <==> c in old(connections) && c != Connection(src, dst, srcPort, dstPort)
      ensures Edge(src, dst) in graph <==>
        exists c :: c in connections && c.srcNode == src && c.dstNode == dst
      ensures forall e :: e != Edge(src, dst) ==> (e in graph <==> e in old(graph))
      ensures nodes == old(nodes)
    {
      var c := Connection(src, dst, srcPort, dstPort);
      PairsMember(connections, Edge(src, dst));
      if c !in connections {
        return false;
      }
      RemoveFirstDistinct(connections, c);
      connections := RemoveFirst(connections, c);
      var e := Edge(src, dst);
      var stillJoined := exists k :: 0 <= k < |connections| && connections[k].srcNode == src && connections[k].dstNode == dst;
      if !stillJoined && e in graph {
        ghost var G0 := graph;
        RemoveFirstDistinct(graph, e);
        graph := RemoveFirst(graph, e);
        SubgraphAcyclic(G0, graph);
      }
      PairsAfterRemoval(old(connections), connections, c);
      PairsMember(connections, e);
      ok := true;
    }

    /**
     * `remove_node`: removes every connection that touches the node, then
     * the node. Unknown ids change nothing.
     */
    method RemoveNode(id: Id)
      requires Valid()
      modifies this
      ensures Valid()
      ensures id !in old(nodes.items) ==> unchanged(this)
      ensures id in old(nodes.items) ==> nodes == old(nodes).Pop(id)
      ensures forall c :: c in connections <==> c in old(connections) && !Touches(c, id)
      ensures forall e :: e in graph ==> e.src != id && e.dst != id
    {
      if id !in nodes.items {
        NoEdgeTouches(connections, id);
        return;
      }
      var doomed := Filter(connections, (c: Connection) => c.srcNode == id || c.dstNode == id);
      DisconnectAll(doomed);
      NoEdgeTouches(connections, id);
      nodes := nodes.Pop(id);
    }

    /** Disconnects each listed connection in turn; the loop of `remove_node`. */
    method DisconnectAll(doomed: seq<Connection>)
      requires Valid()
      modifies this
      ensures Valid() && nodes == old(nodes)
      ensures forall c :: c in connections <==> c in old(connections) && c !in doomed
    {
      var i := 0;
      while i < |doomed|
        invariant 0 <= i <= |doomed|
        invariant Valid() && nodes == old(nodes)
        invariant forall c :: c in connections <==> c in old(connections) && c !in doomed[..i]
      {
        var c := doomed[i];
        assert doomed[..i + 1] == doomed[..i] + [c];
        var _ := Disconnect(c.srcNode, c.dstNode, c.srcPort, c.dstPort);
        i := i + 1;
      }
      assert doomed[..|doomed|] == doomed;
    }
  }

  /** When no connection touches a node, neither does any edge they induce. */
  lemma NoEdgeTouches(cs: seq<Connection>, id: Id)
    requires forall c :: c in cs ==> !Touches(c, id)
    ensures forall e :: e in Pairs(cs) ==> e.src != id && e.dst != id
  {
    forall e | e in Pairs(cs) ensures e.src != id && e.dst != id {
      PairsMember(cs, e);
    }
  }

  lemma PairsMember(cs: seq<Connection>, e: Edge)
    ensures e in Pairs(cs) <==> exists c :: c in cs && c.srcNode == e.src && c.dstNode == e.dst
  {
    if exists c :: c in cs && c.srcNode == e.src && c.dstNode == e.dst {
      var c :| c in cs && c.srcNode == e.src && c.dstNode == e.dst;
      assert Edge(c.srcNode, c.dstNode) == e;
    }
  }

  lemma PairsSnoc(cs: seq<Connection>, c: Connection, g: seq<Edge>)
    ensures Pairs(cs + [c]) == Pairs(cs) + {Edge(c.srcNode, c.dstNode)}
    ensures Elems(g + [Edge(c.srcNode, c.dstNode)]) == Elems(g) + {Edge(c.srcNode, c.dstNode)}
  {
  }

  lemma AppendDistinctConn(s: seq<Connection>, c: Connection)
    requires Distinct(s) && c !in s
    ensures Distinct(s + [c])
  {
  }

  lemma AppendDistinctEdge(s: seq<Edge>, e: Edge)
    requires Distinct(s) && e !in s
    ensures Distinct(s + [e])
  {
  }

  lemma PairsAfterRemoval(before: seq<Connection>, after: seq<Connection>, c: Connection)
    requires forall x :: x in after <==> x in before && x != c
    ensures Pairs(after) == Pairs(before) - {Edge(c.srcNode, c.dstNode)}
                            + (if exists x :: x in after && x.srcNode == c.srcNode && x.dstNode == c.dstNode
                               then {Edge(c.srcNode, c.dstNode)} else {})
  {
  }
}
