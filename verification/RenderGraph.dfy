/**
 * The pedalboard render graph: audio nodes keyed by id (in insertion order),
 * the connections between them, the processing order derived from them by
 * Kahn's algorithm, and the reverse map from plugin-instance ids to the node
 * that hosts them. Each node is represented by its kind and the ids of the
 * plugin instances in its `plugin_instance_map`; the effect chain itself is
 * modelled in `EffectNodes`.
 */
module RenderGraph {
  import opened Lists
  import opened Digraph
  import opened Dicts
  import opened Wrappers

  /** The node class `add_node` instantiates for a `node_type` string. */
  datatype NodeKind = InstrumentTrack | AudioTrack | BusTrack | Effect

  function KindOf(nodeType: string): NodeKind {
    if nodeType == "InstrumentTrack" then InstrumentTrack
    else if nodeType == "AudioTrack" then AudioTrack
    else if nodeType == "BusTrack" then BusTrack
    else Effect
  }

  /** A node object: its class and the keys of its `plugin_instance_map`, in insertion order. */
  datatype NodeRec = NodeRec(kind: NodeKind, plugins: seq<string>)

  /** One message of `validate_graph`'s issue list. */
  datatype Issue =
    | MissingSource(conn: Edge)
    | MissingDest(conn: Edge)
    | NotInReverseMap(plugin: string, node: Id)
    | ReverseMismatch(plugin: string)
    | ReverseNodeMissing(node: Id)
    | ReverseNotInNode(plugin: string, node: Id)
    | GraphHasCycles

  /** The connections that neither start nor end at `id`. */
  function Detached(E: seq<Edge>, id: Id): (r: seq<Edge>)
    ensures forall e :: e in r <==> e in E && e.src != id && e.dst != id
  {
    Filter(E, (e: Edge) => e.src != id && e.dst != id)
  }

  /** Total number of plugin instances over the nodes `ids`. */
  function PluginTotal(ids: seq<Id>, items: map<Id, NodeRec>): nat
    requires forall v :: v in ids ==> v in items
  {
    if ids == [] then 0 else |items[ids[0]].plugins| + PluginTotal(ids[1..], items)
  }

  /** Every plugin id hosted by one of the nodes `ids`. */
  ghost function HostedPlugins(ids: seq<Id>, items: map<Id, NodeRec>): set<string>
    requires forall v :: v in ids ==> v in items
  {
    if ids == [] then {} else Elems(items[ids[0]].plugins) + HostedPlugins(ids[1..], items)
  }

  /** The nodes that appear in some group. */
  ghost function Union(groups: seq<seq<Id>>): set<Id> {
    if groups == [] then {} else Union(groups[..|groups| - 1]) + Elems(groups[|groups| - 1])
  }

  /** A processing order: every node exactly once, sources before targets. */
  ghost predicate IsProcessingOrder(order: seq<Id>, ids: seq<Id>, E: seq<Edge>) {
    && Distinct(order)
    && |order| == |ids|
    && (forall v :: v in ids <==> v in order)
    && RespectsEdges(order, E)
  }

  /** Every hosted plugin is in the reverse map under its host. */
  ghost predicate HostsInReverse(items: map<Id, NodeRec>, rev: map<string, Id>) {
    forall v, p :: v in items && p in items[v].plugins ==> p in rev && rev[p] == v
  }

  /** The reverse map names only hosted plugins, each under its host. */
  ghost predicate ReverseInHosts(items: map<Id, NodeRec>, rev: map<string, Id>) {
    forall p :: p in rev ==> rev[p] in items && p in items[rev[p]].plugins
  }

  /** The plugins of node `v` are all recorded under `v`. */
  ghost predicate HostRecorded(v: Id, items: map<Id, NodeRec>, rev: map<string, Id>)
    requires v in items
  {
    forall p :: p in items[v].plugins ==> p in rev && rev[p] == v
  }

  /** The reverse-map entry for `p` names an existing host that holds `p`. */
  ghost predicate ReverseRecorded(p: string, items: map<Id, NodeRec>, rev: map<string, Id>)
    requires p in rev
  {
    rev[p] in items && p in items[rev[p]].plugins
  }

  /** Checking the nodes one by one in key order checks every host. */
  lemma HostsByKeys(nodes: Dict<Id, NodeRec>, rev: map<string, Id>)
    requires nodes.Valid()
    ensures HostsInReverse(nodes.items, rev) <==>
      forall k :: 0 <= k < |nodes.keys| ==> HostRecorded(nodes.keys[k], nodes.items, rev)
  {
    if forall k :: 0 <= k < |nodes.keys| ==> HostRecorded(nodes.keys[k], nodes.items, rev) {
      forall v, p | v in nodes.items && p in nodes.items[v].plugins ensures p in rev && rev[p] == v {
        var k :| 0 <= k < |nodes.keys| && nodes.keys[k] == v;
        assert HostRecorded(nodes.keys[k], nodes.items, rev);
      }
    }
  }

  /** Checking the reverse map's keys one by one checks every entry. */
  lemma ReverseByKeys(items: map<Id, NodeRec>, rev: Dict<string, Id>)
    requires rev.Valid()
    ensures ReverseInHosts(items, rev.items) <==>
      forall k :: 0 <= k < |rev.keys| ==> ReverseRecorded(rev.keys[k], items, rev.items)
  {
    if forall k :: 0 <= k < |rev.keys| ==> ReverseRecorded(rev.keys[k], items, rev.items) {
      forall p | p in rev.items ensures rev.items[p] in items && p in items[rev.items[p]].plugins {
        var k :| 0 <= k < |rev.keys| && rev.keys[k] == p;
        assert ReverseRecorded(rev.keys[k], items, rev.items);
      }
    }
  }

  /** Adding a new plugin instance to a host and to the reverse map keeps the two consistent. */
  lemma AddPluginConsistent(items0: map<Id, NodeRec>, rev0: map<string, Id>, nodeId: Id, inst: string)
    requires nodeId in items0 && inst !in rev0
    requires HostsInReverse(items0, rev0) && ReverseInHosts(items0, rev0)
    ensures inst !in items0[nodeId].plugins
    ensures var rec := items0[nodeId];
      var items := items0[nodeId := rec.(plugins := rec.plugins + [inst])];
      HostsInReverse(items, rev0[inst := nodeId]) && ReverseInHosts(items, rev0[inst := nodeId])
  {
    var rec := items0[nodeId];
    var items := items0[nodeId := rec.(plugins := rec.plugins + [inst])];
    var rev := rev0[inst := nodeId];
    forall v, p | v in items && p in items[v].plugins ensures p in rev && rev[p] == v {
      if v == nodeId && p != inst {
        assert p in rec.plugins;
      }
    }
    forall p | p in rev ensures rev[p] in items && p in items[rev[p]].plugins {
      if p != inst && rev0[p] == nodeId {
        assert p in rec.plugins;
      }
    }
  }

  /** Taking a plugin out of its host and out of the reverse map keeps the two consistent. */
  lemma RemovePluginConsistent(items0: map<Id, NodeRec>, rev0: map<string, Id>,
                               items: map<Id, NodeRec>, rev: map<string, Id>, nodeId: Id, inst: string)
    requires nodeId in items0 && inst in items0[nodeId].plugins
    requires HostsInReverse(items0, rev0) && ReverseInHosts(items0, rev0)
    requires items == items0[nodeId := items0[nodeId].(plugins := RemoveFirst(items0[nodeId].plugins, inst))]
    requires forall p :: p in items[nodeId].plugins <==> p in items0[nodeId].plugins && p != inst
    requires rev == rev0 - {inst}
    ensures HostsInReverse(items, rev) && ReverseInHosts(items, rev)
  {
    forall v, p | v in items && p in items[v].plugins ensures p in rev && rev[p] == v {
      assert rev0[inst] == nodeId;
      if v != nodeId {
        assert p in items0[v].plugins;
      }
    }
    forall p | p in rev ensures rev[p] in items && p in items[rev[p]].plugins {
      if rev0[p] == nodeId {
        assert p in items0[nodeId].plugins && p != inst;
      }
    }
  }

  class Graph {
    var nodes: Dict<Id, NodeRec>
    var connections: seq<Edge>
    var processingOrder: seq<Id>
    var pluginToNode: Dict<string, Id>

    /**
     * The graph's invariant: connections are distinct, join existing nodes and
     * form no cycle, and the processing order is a topological order of all
     * nodes.
     */
    ghost predicate Valid()
      reads this
    {
      && nodes.Valid()
      && pluginToNode.Valid()
      && (forall v :: v in nodes.items ==> Distinct(nodes.items[v].plugins))
      && Distinct(connections)
      && EndpointsIn(connections, nodes.keys)
      && Acyclic(connections)
      && IsProcessingOrder(processingOrder, nodes.keys, connections)
    }

    /** Every hosted plugin is in the reverse map under its host, and the reverse map names only hosted plugins. */
    ghost predicate ReverseConsistent()
      reads this
    {
      HostsInReverse(nodes.items, pluginToNode.items) && ReverseInHosts(nodes.items, pluginToNode.items)
    }

    constructor ()
      ensures Valid() && ReverseConsistent()
      ensures nodes.keys == [] && connections == [] && processingOrder == [] && pluginToNode.keys == []
    {
      nodes := Empty();
      connections := [];
      processingOrder := [];
      pluginToNode := Empty();
      EmptyAcyclic();
    }

    /**
     * `_update_processing_order`: Kahn's order when it covers every node,
     * otherwise the node insertion order.
     */
    method UpdateProcessingOrder()
      requires nodes.Valid() && EndpointsIn(connections, nodes.keys)
      modifies this`processingOrder
      ensures Distinct(processingOrder) && |processingOrder| == |nodes.keys|
      ensures forall v :: v in nodes.keys <==> v in processingOrder
      ensures Acyclic(connections) ==> RespectsEdges(processingOrder, connections)
      ensures !Acyclic(connections) ==> processingOrder == nodes.keys
    {
      var order := Kahn(nodes.keys, connections);
      if |order| != |nodes.keys| {
        processingOrder := nodes.keys;
      } else {
        processingOrder := order;
      }
    }

    /** `add_node`: a new id is appended with an empty plugin map; an existing id changes nothing. */
    method AddNode(id: Id, nodeType: string)
      requires Valid()
      modifies this
      ensures Valid()
      ensures id in old(nodes.items) ==> unchanged(this)
      ensures id !in old(nodes.items) ==> nodes == old(nodes).Put(id, NodeRec(KindOf(nodeType), []))
      ensures connections == old(connections) && pluginToNode == old(pluginToNode)
      ensures old(ReverseConsistent()) ==> ReverseConsistent()
    {
      if id in nodes.items {
        return;
      }
      nodes := nodes.Put(id, NodeRec(KindOf(nodeType), []));
      UpdateProcessingOrder();
    }

    /**
     * `remove_node`: drops the node, exactly the connections that touch it,
     * and the reverse-map entries of the plugins it hosted.
     */
    method RemoveNode(id: Id)
      requires Valid()
      modifies this
      ensures Valid()
      ensures id !in old(nodes.items) ==> unchanged(this)
      ensures id in old(nodes.items) ==>
        && nodes == old(nodes).Pop(id)
        && connections == Detached(old(connections), id)
        && pluginToNode.items == old(pluginToNode.items) - Elems(old(nodes.items[id].plugins))
      ensures forall e :: e in connections ==> e.src != id && e.dst != id
    {
      if id !in nodes.items {
        return;
      }
      ghost var E0 := connections;
      connections := Detached(connections, id);
      FilterDistinct(E0, (e: Edge) => e.src != id && e.dst != id);
      SubgraphAcyclic(E0, connections);

      ForgetPlugins(nodes.items[id].plugins);
      ghost var keys0 := nodes.keys;
      nodes := nodes.Pop(id);
      assert EndpointsIn(connections, nodes.keys) by {
        forall e | e in connections ensures e.src in nodes.keys && e.dst in nodes.keys {
          assert e in E0;
        }
      }
      UpdateProcessingOrder();
    }

    /** The loop of `remove_node` that pops the reverse-map entry of each plugin the node hosted. */
    method ForgetPlugins(hosted: seq<string>)
      requires pluginToNode.Valid()
      modifies this`pluginToNode
      ensures pluginToNode.Valid()
      ensures pluginToNode.items == old(pluginToNode.items) - Elems(hosted)
    {
      ghost var rev0 := pluginToNode.items;
      var i := 0;
      while i < |hosted|
        invariant 0 <= i <= |hosted|
        invariant pluginToNode.Valid()
        invariant pluginToNode.items == rev0 - Elems(hosted[..i])
      {
        assert hosted[..i + 1] == hosted[..i] + [hosted[i]];
        pluginToNode := pluginToNode.Pop(hosted[i]);
        i := i + 1;
      }
      assert hosted[..|hosted|] == hosted;
    }

    /** Whether `src -> dst` may be added: both nodes exist, it is new, and it closes no cycle. */
    ghost predicate Accepts(src: Id, dst: Id)
      reads this
    {
      src in nodes.items && dst in nodes.items && Edge(src, dst) !in connections
      && !ReachesOrSame(connections, dst, src)
    }

    /**
     * `_would_create_cycle`: whether `src` can be reached from `dst` (or is
     * `dst`). With the connections acyclic, this is exactly whether adding
     * `src -> dst` would create a cycle.
     */
    method WouldCreateCycle(src: Id, dst: Id) returns (r: bool)
      requires Valid()
      ensures r <==> ReachesOrSame(connections, dst, src)
      ensures r <==> !Acyclic(connections + [Edge(src, dst)])
    {
      var reach := ReachableFrom(connections, dst);
      r := src in reach;
      AddEdgeAcyclic(connections, src, dst);
    }

    /** `add_connection`: appends the edge when `Accepts` holds and changes nothing otherwise. */
    method AddConnection(src: Id, dst: Id)
      requires Valid()
      modifies this
      ensures Valid()
      ensures old(Accepts(src, dst)) ==> connections == old(connections) + [Edge(src, dst)]
      ensures !old(Accepts(src, dst)) ==> unchanged(this)
      ensures nodes == old(nodes) && pluginToNode == old(pluginToNode)
    {
      if src !in nodes.items || dst !in nodes.items {
        return;
      }
      if Edge(src, dst) in connections {
        return;
      }
      var cycle := WouldCreateCycle(src, dst);
      if cycle {
        return;
      }
      AddEdgeAcyclic(connections, src, dst);
      connections := connections + [Edge(src, dst)];
      UpdateProcessingOrder();
    }

    /** `remove_connection`: removes the edge if present, otherwise changes nothing. */
    method RemoveConnection(src: Id, dst: Id)
      requires Valid()
      modifies this
      ensures Valid()
      ensures Edge(src, dst) in old(connections) ==>
        connections == RemoveFirst(old(connections), Edge(src, dst)) && Edge(src, dst) !in connections
      ensures Edge(src, dst) !in old(connections) ==> unchanged(this)
      ensures nodes == old(nodes) && pluginToNode == old(pluginToNode)
    {
      var e := Edge(src, dst);
      if e in connections {
        ghost var E0 := connections;
        RemoveFirstDistinct(connections, e);
        connections := RemoveFirst(connections, e);
        SubgraphAcyclic(E0, connections);
        UpdateProcessingOrder();
      }
    }

    /** `get_plugin_count`: the plugin instances summed over all nodes. */
    method GetPluginCount() returns (total: nat)
      requires Valid()
      ensures total == PluginTotal(nodes.keys, nodes.items)
      ensures ReverseConsistent() ==> total == |pluginToNode.items|
    {
      total := 0;
      var i := |nodes.keys|;
      assert nodes.keys[..i] == nodes.keys;
      while i > 0
        invariant 0 <= i <= |nodes.keys|
        invariant total + PluginTotal(nodes.keys[..i], nodes.items) == PluginTotal(nodes.keys, nodes.items)
      {
        PluginTotalSplit(nodes.keys[..i], nodes.items);
        assert nodes.keys[..i][..i - 1] == nodes.keys[..i - 1];
        total := total + |nodes.items[nodes.keys[i - 1]].plugins|;
        i := i - 1;
      }
      if ReverseConsistent() {
        ReverseMapCount(nodes.keys, nodes.items, pluginToNode.items);
      }
    }

    /** `clear`: empties nodes, connections, processing order and the reverse map. */
    method Clear()
      requires Valid()
      modifies this
      ensures Valid() && ReverseConsistent()
      ensures nodes.keys == [] && nodes.items == map[] && connections == []
      ensures processingOrder == [] && pluginToNode.items == map[]
    {
      nodes := Empty();
      connections := [];
      processingOrder := [];
      pluginToNode := Empty();
      EmptyAcyclic();
    }

    /**
     * `add_plugin_to_node`: `created` is what the plugin-instance manager
     * returned. The host gains the instance id unless it already has it, and
     * the reverse map records the host in every case.
     */
    method AddPluginToNode(nodeId: Id, created: Option<string>)
      requires Valid()
      modifies this
      ensures Valid()
      ensures nodeId !in old(nodes.items) || created.None? ==> unchanged(this)
      ensures nodeId in old(nodes.items) && created.Some? ==>
        var rec := old(nodes.items[nodeId]);
        && nodes == old(nodes).Put(nodeId, if created.value in rec.plugins then rec
                                           else rec.(plugins := rec.plugins + [created.value]))
        && pluginToNode == old(pluginToNode).Put(created.value, nodeId)
        && pluginToNode.items[created.value] == nodeId
      ensures connections == old(connections)
      ensures old(ReverseConsistent()) && created.Some? && created.value !in old(pluginToNode.items) ==>
        ReverseConsistent()
    {
      if nodeId !in nodes.items || created.None? {
        return;
      }
      var inst := created.value;
      var rec := nodes.items[nodeId];
      ghost var consistent := ReverseConsistent() && inst !in pluginToNode.items;
      if consistent {
        AddPluginConsistent(nodes.items, pluginToNode.items, nodeId, inst);
      }
      if inst !in rec.plugins {
        DistinctAppend(rec.plugins, [inst]);
        rec := rec.(plugins := rec.plugins + [inst]);
      }
      nodes := nodes.Put(nodeId, rec);
      pluginToNode := pluginToNode.Put(inst, nodeId);
    }

    /**
     * `remove_plugin_from_node`: when the host has the instance, removes it
     * from the host and its reverse-map entry; otherwise changes nothing.
     */
    method RemovePluginFromNode(nodeId: Id, inst: string)
      requires Valid()
      modifies this
      ensures Valid()
      ensures nodeId !in old(nodes.items) || inst !in old(nodes.items[nodeId].plugins) ==> unchanged(this)
      ensures nodeId in old(nodes.items) && inst in old(nodes.items[nodeId].plugins) ==>
        var rec := old(nodes.items[nodeId]);
        && nodes == old(nodes).Put(nodeId, rec.(plugins := RemoveFirst(rec.plugins, inst)))
        && pluginToNode == old(pluginToNode).Pop(inst)
        && inst !in pluginToNode.items && inst !in nodes.items[nodeId].plugins
      ensures connections == old(connections)
      ensures old(ReverseConsistent()) ==> ReverseConsistent()
    {
      if nodeId !in nodes.items || inst !in nodes.items[nodeId].plugins {
        return;
      }
      var rec := nodes.items[nodeId];
      RemoveFirstDistinct(rec.plugins, inst);
      ghost var wasConsistent := ReverseConsistent();
      ghost var items0 := nodes.items;
      ghost var rev0 := pluginToNode.items;
      nodes := nodes.Put(nodeId, rec.(plugins := RemoveFirst(rec.plugins, inst)));
      pluginToNode := pluginToNode.Pop(inst);
      if wasConsistent {
        RemovePluginConsistent(items0, rev0, nodes.items, pluginToNode.items, nodeId, inst);
      }
    }

    /**
     * `validate_graph`: no issue is reported exactly when every connection
     * joins existing nodes, the host maps and the reverse map agree both
     * ways, and the processing order has one entry per node.
     */
    method ValidateGraph() returns (ok: bool, issues: seq<Issue>)
      requires nodes.Valid() && pluginToNode.Valid()
      ensures ok <==> issues == []
      ensures ok <==> EndpointsIn(connections, nodes.keys) && ReverseConsistent()
                      && |processingOrder| == |nodes.keys|
    {
      var connIssues := ConnectionIssues();
      var hostIssues := HostIssues();
      var revIssues := ReverseIssues();
      issues := connIssues + hostIssues + revIssues;
      if |processingOrder| != |nodes.keys| {
        issues := issues + [GraphHasCycles];
      }
      ok := |issues| == 0;
    }

    /** The first check of `validate_graph`: a message for each missing end of each connection. */
    method ConnectionIssues() returns (issues: seq<Issue>)
      requires nodes.Valid()
      ensures issues == [] <==> EndpointsIn(connections, nodes.keys)
    {
      issues := [];
      var i := 0;
      while i < |connections|
        invariant 0 <= i <= |connections|
        invariant issues == [] <==> forall e :: e in connections[..i] ==> e.src in nodes.items && e.dst in nodes.items
      {
        var c := connections[i];
        assert connections[..i + 1] == connections[..i] + [c];
        if c.src !in nodes.items {
          issues := issues + [MissingSource(c)];
        }
        if c.dst !in nodes.items {
          issues := issues + [MissingDest(c)];
        }
        i := i + 1;
      }
      assert connections[..|connections|] == connections;
    }

    /** The second check of `validate_graph`: each hosted plugin must be recorded under its host. */
    method HostIssues() returns (issues: seq<Issue>)
      requires nodes.Valid()
      ensures issues == [] <==> HostsInReverse(nodes.items, pluginToNode.items)
    {
      issues := [];
      var n := 0;
      while n < |nodes.keys|
        invariant 0 <= n <= |nodes.keys|
        invariant issues == [] <==> forall k :: 0 <= k < n ==> HostRecorded(nodes.keys[k], nodes.items, pluginToNode.items)
      {
        var found := PluginIssues(nodes.keys[n]);
        issues := issues + found;
        n := n + 1;
      }
      HostsByKeys(nodes, pluginToNode.items);
    }

    /** The messages for the plugins of node `v` that the reverse map misses or files under another node. */
    method PluginIssues(v: Id) returns (issues: seq<Issue>)
      requires v in nodes.items
      ensures issues == [] <==> HostRecorded(v, nodes.items, pluginToNode.items)
    {
      var hosted := nodes.items[v].plugins;
      issues := [];
      var j := 0;
      while j < |hosted|
        invariant 0 <= j <= |hosted|
        invariant issues == [] <==> forall p :: p in hosted[..j] ==> p in pluginToNode.items && pluginToNode.items[p] == v
      {
        var p := hosted[j];
        assert hosted[..j + 1] == hosted[..j] + [p];
        if p !in pluginToNode.items {
          issues := issues + [NotInReverseMap(p, v)];
        } else if pluginToNode.items[p] != v {
          issues := issues + [ReverseMismatch(p)];
        }
        j := j + 1;
      }
      assert hosted[..|hosted|] == hosted;
    }

    /** The third check of `validate_graph`: each reverse-map entry must name an existing host holding the plugin. */
    method ReverseIssues() returns (issues: seq<Issue>)
      requires pluginToNode.Valid()
      ensures issues == [] <==> ReverseInHosts(nodes.items, pluginToNode.items)
    {
      issues := [];
      var r := 0;
      while r < |pluginToNode.keys|
        invariant 0 <= r <= |pluginToNode.keys|
        invariant issues == [] <==> forall k :: 0 <= k < r ==> ReverseRecorded(pluginToNode.keys[k], nodes.items, pluginToNode.items)
      {
        var p := pluginToNode.keys[r];
        var host := pluginToNode.items[p];
        if host !in nodes.items {
          issues := issues + [ReverseNodeMissing(host)];
        } else if p !in nodes.items[host].plugins {
          issues := issues + [ReverseNotInNode(p, host)];
        }
        r := r + 1;
      }
      ReverseByKeys(nodes.items, pluginToNode);
    }

    /**
     * `create_parallel_processing_groups`: rounds of nodes whose sources were
     * all placed in earlier rounds. Groups are non-empty and disjoint, no
     * connection joins two nodes of one group, and together they hold every
     * node.
     */
    method ParallelGroups() returns (groups: seq<seq<Id>>)
      requires Valid()
      ensures Layered(groups, connections)
      ensures forall i, e :: 0 <= i < |groups| && e in connections && e.dst in groups[i] ==> e.src !in groups[i]
      ensures Union(groups) == Elems(nodes.keys)
    {
      groups := [];
      var processed: set<Id> := {};
      ElemsCard(nodes.keys);
      while |processed| < |nodes.keys|
        invariant processed == Union(groups) && processed <= Elems(nodes.keys)
        invariant Layered(groups, connections)
        decreases |nodes.keys| - |processed|
      {
        var group := ReadyNodes(processed);
        if group == [] {
          StuckMeansCycle(connections, nodes.keys, processed);
          assert false;
          break;
        }
        LayeredSnoc(groups, group, connections);
        groups := groups + [group];
        ghost var before := processed;
        processed := processed + Elems(group);
        assert group[0] in processed && group[0] !in before;
        SubsetCardStrict(before, processed);
        assert Elems(group) <= Elems(nodes.keys);
        SubsetCard(processed, Elems(nodes.keys));
      }
      CardDiff(processed, Elems(nodes.keys));
      assert Elems(nodes.keys) - processed == {};
      forall i, e | 0 <= i < |groups| && e in connections && e.dst in groups[i] ensures e.src !in groups[i] {
        UnionPrefix(groups, i, e.src);
      }
    }

    /** One round: the unplaced nodes, in node order, whose sources are all placed. */
    method ReadyNodes(processed: set<Id>) returns (group: seq<Id>)
      requires Valid()
      ensures Distinct(group)
      ensures forall v :: v in group <==> v in nodes.keys && v !in processed && SourcesIn(connections, v, processed)
    {
      group := [];
      var k := 0;
      while k < |nodes.keys|
        invariant 0 <= k <= |nodes.keys|
        invariant Distinct(group)
        invariant forall v :: v in group <==> v in nodes.keys[..k] && v !in processed && SourcesIn(connections, v, processed)
      {
        var v := nodes.keys[k];
        assert nodes.keys[..k + 1] == nodes.keys[..k] + [v];
        if v !in processed && forall e :: e in connections && e.dst == v ==> e.src in processed {
          group := group + [v];
        }
        k := k + 1;
      }
      assert nodes.keys[..|nodes.keys|] == nodes.keys;
    }

  }

  /**
   * Groups are non-empty and duplicate-free, no node is in two groups, and
   * every connection into a grouped node starts in an earlier group.
   */
  ghost predicate Layered(groups: seq<seq<Id>>, E: seq<Edge>) {
    && (forall i :: 0 <= i < |groups| ==> groups[i] != [] && Distinct(groups[i]))
    && (forall i, j, v :: 0 <= i < j < |groups| && v in groups[i] ==> v !in groups[j])
    && (forall i, v, e :: 0 <= i < |groups| && v in groups[i] && e in E && e.dst == v ==>
          e.src in Union(groups[..i]))
  }

  /** Appending a round of unplaced nodes whose sources are all placed keeps the groups layered. */
  lemma LayeredSnoc(groups: seq<seq<Id>>, group: seq<Id>, E: seq<Edge>)
    requires Layered(groups, E)
    requires group != [] && Distinct(group)
    requires forall v :: v in group ==> v !in Union(groups) && SourcesIn(E, v, Union(groups))
    ensures Layered(groups + [group], E)
    ensures Union(groups + [group]) == Union(groups) + Elems(group)
  {
    UnionSnoc(groups, group);
    var gs := groups + [group];
    forall i, j, v | 0 <= i < j < |gs| && v in gs[i] ensures v !in gs[j] {
      if j == |groups| {
        assert gs[..i + 1][i] == gs[i];
        assert gs[..i + 1] == groups[..i + 1];
        UnionMember(groups, v);
      }
    }
    forall i, v, e | 0 <= i < |gs| && v in gs[i] && e in E && e.dst == v
      ensures e.src in Union(gs[..i])
    {
      if i < |groups| {
        assert gs[..i] == groups[..i];
      } else {
        assert gs[..i] == groups;
      }
    }
  }

  lemma {:induction false} CardDiff<T>(a: set<T>, b: set<T>)
    requires a <= b
    ensures |b - a| == |b| - |a|
    decreases a
  {
    if a != {} {
      var x :| x in a;
      CardDiff(a - {x}, b - {x});
      assert b - a == (b - {x}) - (a - {x});
    }
  }

  /** Every connection into `v` starts at a node of `processed`. */
  ghost predicate SourcesIn(E: seq<Edge>, v: Id, processed: set<Id>) {
    forall e :: e in E && e.dst == v ==> e.src in processed
  }

  /**
   * If some nodes are unplaced and none of them has all its sources placed,
   * the connections contain a cycle.
   */
  lemma StuckMeansCycle(E: seq<Edge>, keys: seq<Id>, processed: set<Id>)
    requires Distinct(keys) && EndpointsIn(E, keys)
    requires processed <= Elems(keys) && |processed| < |keys|
    requires forall v {:trigger SourcesIn(E, v, processed)} ::
      v in keys && v !in processed ==> !SourcesIn(E, v, processed)
    ensures !Acyclic(E)
  {
    ElemsCard(keys);
    CardDiff(processed, Elems(keys));
    var R := Elems(keys) - processed;
    assert |R| > 0;
    var v :| v in R;
    forall w | w in R ensures HasPredIn(E, R, w) {
      UnplacedSource(E, keys, processed, w);
    }
    CycleFromPredecessors(E, R, v);
  }

  lemma UnplacedSource(E: seq<Edge>, keys: seq<Id>, processed: set<Id>, w: Id)
    requires EndpointsIn(E, keys)
    requires w in keys && !SourcesIn(E, w, processed)
    ensures HasPredIn(E, Elems(keys) - processed, w)
  {
    var e :| e in E && e.dst == w && e.src !in processed;
    assert e.src in keys;
    assert e.src in Elems(keys) - processed && Edge(e.src, w) == e;
  }

  /** With consistent maps, the per-node plugin counts add up to the size of the reverse map. */
  lemma ReverseMapCount(keys: seq<Id>, items: map<Id, NodeRec>, rev: map<string, Id>)
    requires Distinct(keys) && forall v :: v in items <==> v in keys
    requires forall v :: v in items ==> Distinct(items[v].plugins)
    requires HostsInReverse(items, rev) && ReverseInHosts(items, rev)
    ensures PluginTotal(keys, items) == |rev|
  {
    HostedCount(keys, items, rev);
    HostedAreReverseKeys(keys, items, rev);
  }

  /** With consistent maps, the plugins hosted by all nodes are exactly the keys of the reverse map. */
  lemma HostedAreReverseKeys(keys: seq<Id>, items: map<Id, NodeRec>, rev: map<string, Id>)
    requires forall v :: v in items <==> v in keys
    requires HostsInReverse(items, rev) && ReverseInHosts(items, rev)
    ensures HostedPlugins(keys, items) == rev.Keys
  {
    forall p | p in rev ensures p in HostedPlugins(keys, items) {
      HostedMember(keys, items, p);
      assert rev[p] in keys && p in items[rev[p]].plugins;
    }
    forall p | p in HostedPlugins(keys, items) ensures p in rev {
      HostedMember(keys, items, p);
      var v :| v in keys && p in items[v].plugins;
    }
  }

  lemma {:induction false} PluginTotalSplit(ids: seq<Id>, items: map<Id, NodeRec>)
    requires ids != [] && forall v :: v in ids ==> v in items
    ensures PluginTotal(ids, items) == PluginTotal(ids[..|ids| - 1], items) + |items[ids[|ids| - 1]].plugins|
  {
    if |ids| > 1 {
      PluginTotalSplit(ids[1..], items);
      assert ids[1..][..|ids[1..]| - 1] == ids[..|ids| - 1][1..];
    }
  }

  lemma {:induction false} HostedMember(ids: seq<Id>, items: map<Id, NodeRec>, p: string)
    requires forall v :: v in ids ==> v in items
    ensures p in HostedPlugins(ids, items) <==> exists v :: v in ids && p in items[v].plugins
  {
    if ids != [] {
      HostedMember(ids[1..], items, p);
      if p in items[ids[0]].plugins {
        assert ids[0] in ids;
      }
      if exists v :: v in ids && p in items[v].plugins {
        var v :| v in ids && p in items[v].plugins;
        if v != ids[0] {
          assert v in ids[1..];
        }
      }
    }
  }

  /**
   * When each hosted plugin is recorded under its host, hosts share no
   * plugin, so the plugin counts add up to the number of hosted plugins.
   */
  lemma {:induction false} HostedCount(ids: seq<Id>, items: map<Id, NodeRec>, rev: map<string, Id>)
    requires Distinct(ids) && forall v :: v in ids ==> v in items
    requires forall v :: v in items ==> Distinct(items[v].plugins)
    requires HostsInReverse(items, rev)
    ensures PluginTotal(ids, items) == |HostedPlugins(ids, items)|
  {
    if ids != [] {
      DistinctTail(ids);
      HostedCount(ids[1..], items, rev);
      var here := Elems(items[ids[0]].plugins);
      var rest := HostedPlugins(ids[1..], items);
      forall p | p in here ensures p !in rest {
        HostedMember(ids[1..], items, p);
        assert p in items[ids[0]].plugins;
        assert rev[p] == ids[0];
        forall v | v in ids[1..] ensures p !in items[v].plugins {
          assert v in ids && v != ids[0];
        }
      }
      assert here * rest == {};
      ElemsCard(items[ids[0]].plugins);
      assert |here + rest| == |here| + |rest| by {
        DisjointUnionCard(here, rest);
      }
    }
  }

  lemma {:induction false} DisjointUnionCard(a: set<string>, b: set<string>)
    requires a * b == {}
    ensures |a + b| == |a| + |b|
    decreases a
  {
    if a != {} {
      var x :| x in a;
      DisjointUnionCard(a - {x}, b);
      assert a + b == (a - {x} + b) + {x};
    }
  }

  lemma UnionSnoc(groups: seq<seq<Id>>, g: seq<Id>)
    ensures Union(groups + [g]) == Union(groups) + Elems(g)
  {
    assert (groups + [g])[..|groups|] == groups;
  }

  lemma {:induction false} UnionMember(groups: seq<seq<Id>>, v: Id)
    ensures v in Union(groups) <==> exists a :: 0 <= a < |groups| && v in groups[a]
  {
    if groups != [] {
      var n := |groups| - 1;
      UnionMember(groups[..n], v);
      if exists a :: 0 <= a < |groups| && v in groups[a] {
        var a :| 0 <= a < |groups| && v in groups[a];
        if a < n {
          assert groups[..n][a] == groups[a];
        }
      }
    }
  }

  /** A node placed in an earlier group is not in group `i`. */
  lemma UnionPrefix(groups: seq<seq<Id>>, i: nat, v: Id)
    requires i < |groups|
    requires forall a, b, w :: 0 <= a < b < |groups| && w in groups[a] ==> w !in groups[b]
    requires v in Union(groups[..i])
    ensures v !in groups[i]
  {
    UnionMember(groups[..i], v);
    var a :| 0 <= a < i && v in groups[..i][a];
    assert v in groups[a];
  }
}
