/**
 * The undoable node, plugin, clip and tempo commands of MuzaiCore. Each
 * command object remembers whether it has run and what it needs to undo
 * itself: a second `execute`, or an `undo` of a command that has not run, is
 * refused with `false`. Rename, add-notes and set-tempo commands merge with a
 * later command of their kind that has not run yet; the other commands never
 * merge.
 *
 * The commands act on a project: a registry of nodes kept in step with the
 * subsystem router's graph, and a timeline.
 */
module NodeCommands {
  import opened Wrappers
  import opened Lists
  import opened Dicts
  import opened Digraph
  import opened MuzaiRouter
  import MuzaiTimeline

  datatype Note = Note(pitch: int, velocity: int, startBeat: real, durationBeats: real)

  /**
   * A node of the project, reduced to what the commands touch: its `name`
   * attribute (absent on a node without one), the insert chain of its mixer
   * channel by plugin instance id (absent without a mixer channel) and the
   * note set of each of its clips by clip id (absent on a node without clips).
   */
  datatype Node = Node(nodeId: Id, name: Option<string>, inserts: Option<seq<Id>>, clips: Option<map<string, set<Note>>>)

  /** `getattr(node, "name", "Unknown")`. */
  function NameOf(n: Node): string {
    if n.name.Some? then n.name.value else "Unknown"
  }

  predicate HasClip(n: Node, clipId: string) {
    n.clips.Some? && clipId in n.clips.value
  }

  /**
   * The clip search of the add-notes command: it visits the nodes in order
   * and takes every match, so the last node holding the clip id wins.
   */
  function LastHolder(keys: seq<Id>, items: map<Id, Node>, clipId: string): (r: Option<nat>)
    requires forall k :: k in keys ==> k in items
    ensures r.Some? ==> r.value < |keys| && HasClip(items[keys[r.value]], clipId)
    ensures r.Some? ==> forall j :: r.value < j < |keys| ==> !HasClip(items[keys[j]], clipId)
    ensures r.None? ==> forall j :: 0 <= j < |keys| ==> !HasClip(items[keys[j]], clipId)
  {
    if keys == [] then None
    else if HasClip(items[keys[|keys| - 1]], clipId) then Some(|keys| - 1)
    else LastHolder(keys[..|keys| - 1], items, clipId)
  }

  class Project {
    const router: Router
    const timeline: MuzaiTimeline.Timeline
    /** The node registry, in the order nodes were added. */
    var nodes: Dict<Id, Node>

    /** Everything but the agreement of the registry with the router's nodes. */
    ghost predicate Registry()
      reads this, router, timeline
    {
      && router.Valid() && timeline.Valid() && nodes.Valid()
      && forall id :: id in nodes.items ==> nodes.items[id].nodeId == id
    }

    ghost predicate Valid()
      reads this, router, timeline
    {
      Registry() && Elems(router.nodes) == nodes.items.Keys
    }

    /** A new project: no node, and a timeline at 120 BPM in 4/4. */
    constructor ()
      ensures Valid() && fresh(router) && fresh(timeline)
      ensures nodes.keys == [] && router.nodes == [] && router.connections == []
      ensures timeline.Tempo() == 120.0
    {
      router := new Router();
      timeline := new MuzaiTimeline.Timeline(120.0, 4, 4);
      nodes := Empty();
    }

    /** `get_node_by_id`. */
    function GetNode(id: Id): (r: Option<Node>)
      reads this
      ensures r.Some? <==> id in nodes.items
      ensures r.Some? ==> r.value == nodes.items[id]
    {
      if id in nodes.items then Some(nodes.items[id]) else None
    }

    /** The insert chain of a node that has a mixer channel. */
    function Inserts(id: Id): Option<seq<Id>>
      reads this
    {
      if id in nodes.items && nodes.items[id].inserts.Some? then nodes.items[id].inserts else None
    }

    /** The notes of clip `clipId` of node `owner`, when both exist. */
    function ClipNotes(owner: Id, clipId: string): Option<set<Note>>
      reads this
    {
      if owner in nodes.items && HasClip(nodes.items[owner], clipId)
      then Some(nodes.items[owner].clips.value[clipId])
      else None
    }

    /** `add_node`: registers the node and adds it to the graph; a known id changes nothing. */
    method AddNode(n: Node)
      requires Valid()
      modifies this, router
      ensures Valid()
      ensures n.nodeId in old(nodes.items) ==> unchanged(this, router)
      ensures n.nodeId !in old(nodes.items) ==>
        && nodes == old(nodes).Put(n.nodeId, n)
        && router.nodes == old(router.nodes) + [n.nodeId]
      ensures router.connections == old(router.connections) && router.graph == old(router.graph)
    {
      if n.nodeId in nodes.items {
        return;
      }
      router.AddNode(n.nodeId);
      nodes := nodes.Put(n.nodeId, n);
    }

    /**
     * `remove_node`: drops the node from the graph, with its connections, and
     * from the registry. The graph may already have lost it.
     */
    method RemoveNode(id: Id)
      requires Registry()
      requires forall k :: k != id ==> (k in router.nodes <==> k in nodes.items)
      modifies this, router
      ensures Valid()
      ensures nodes == old(nodes).Pop(id)
      ensures id in old(router.nodes) ==>
        && router.nodes == RemoveFirst(old(router.nodes), id)
        && router.connections == Detach(old(router.connections), id)
      ensures id !in old(router.nodes) ==> unchanged(router)
    {
      router.RemoveNode(id);
      nodes := nodes.Pop(id);
    }

    /** Gives clip `clipId` of node `owner`, which both exist, the notes `ns`; no other node changes. */
    method SetClipNotes(owner: Id, clipId: string, ns: set<Note>)
      requires Valid() && ClipNotes(owner, clipId).Some?
      modifies this
      ensures Valid()
      ensures ClipNotes(owner, clipId) == Some(ns)
      ensures nodes.keys == old(nodes.keys)
      ensures forall id :: id != owner ==> GetNode(id) == old(GetNode(id))
    {
      var n := nodes.items[owner];
      Replace(n.(clips := Some(n.clips.value[clipId := ns])));
    }

    /** Stores a changed node record in place of the node with the same id. */
    method Replace(n: Node)
      requires Valid() && n.nodeId in nodes.items
      modifies this
      ensures Valid()
      ensures nodes == old(nodes).Put(n.nodeId, n)
      ensures nodes.keys == old(nodes.keys)
    {
      nodes := nodes.Put(n.nodeId, n);
    }
  }

  // ---------------------------------------------------------------------------
  // Creating and deleting nodes

  class CreateNode {
    const project: Project
    const node: Node
    var executed: bool

    constructor (project: Project, node: Node)
      ensures this.project == project && this.node == node && !executed
    {
      this.project := project;
      this.node := node;
      executed := false;
    }

    /** `execute`: adds the node to the project; refused once executed. */
    method Execute() returns (ok: bool)
      requires project.Valid()
      modifies this, project, project.router
      ensures project.Valid()
      ensures ok <==> !old(executed)
      ensures executed
      ensures !ok ==> unchanged(project, project.router)
      ensures ok && node.nodeId !in old(project.nodes.items) ==>
        && project.nodes == old(project.nodes).Put(node.nodeId, node)
        && project.router.nodes == old(project.router.nodes) + [node.nodeId]
        && project.router.connections == old(project.router.connections)
      ensures ok && node.nodeId in old(project.nodes.items) ==> unchanged(project, project.router)
    {
      if executed {
        return false;
      }
      project.AddNode(node);
      project.router.AddNode(node.nodeId);
      executed := true;
      ok := true;
    }

    /** `undo`: removes the node with this id again, with its connections; refused unless executed. */
    method Undo() returns (ok: bool)
      requires project.Valid()
      modifies this, project, project.router
      ensures project.Valid()
      ensures ok <==> old(executed)
      ensures !executed
      ensures !ok ==> unchanged(project, project.router)
      ensures ok ==> project.nodes == old(project.nodes).Pop(node.nodeId)
      ensures ok && node.nodeId in old(project.router.nodes) ==>
        && project.router.nodes == RemoveFirst(old(project.router.nodes), node.nodeId)
        && project.router.connections == Detach(old(project.router.connections), node.nodeId)
    {
      if !executed {
        return false;
      }
      project.router.RemoveNode(node.nodeId);
      project.RemoveNode(node.nodeId);
      executed := false;
      ok := true;
    }
  }

  /**
   * Creating a node under a new id and undoing it at once leaves the
   * registry, the graph's nodes and the connections as they were.
   */
  method CreateThenUndo(p: Project, n: Node) returns (created: bool, undone: bool)
    requires p.Valid() && n.nodeId !in p.nodes.items
    modifies p, p.router
    ensures p.Valid() && created && undone
    ensures p.nodes == old(p.nodes)
    ensures p.router.nodes == old(p.router.nodes)
    ensures p.router.connections == old(p.router.connections)
  {
    forall c | c in p.router.connections ensures c.source.owner != n.nodeId && c.dest.owner != n.nodeId {
      assert EdgeOf(c) in Pairs(p.router.connections);
    }
    var cmd := new CreateNode(p, n);
    ghost var d := p.nodes;
    ghost var ns := p.router.nodes;
    ghost var cs := p.router.connections;
    created := cmd.Execute();
    undone := cmd.Undo();
    PutThenPop(d, n.nodeId, n);
    RemoveLast(ns, n.nodeId);
    DetachUntouched(cs, n.nodeId);
  }

  /** Adding a key that was absent and popping it again gives the dict back, key order included. */
  lemma PutThenPop<V>(d: Dict<Id, V>, k: Id, v: V)
    requires d.Valid() && k !in d.items
    ensures d.Put(k, v).Pop(k) == d
  {
    RemoveLast(d.keys, k);
    assert d.Put(k, v).Pop(k).items == d.items;
  }

  lemma {:induction false} RemoveLast(s: seq<Id>, x: Id)
    requires x !in s
    ensures RemoveFirst(s + [x], x) == s
  {
    if s != [] {
      assert (s + [x])[1..] == s[1..] + [x];
      RemoveLast(s[1..], x);
    }
  }

  /** Detaching a node no connection touches keeps the list as it is. */
  lemma {:induction false} DetachUntouched(cs: seq<Connection>, id: Id)
    requires forall c :: c in cs ==> c.source.owner != id && c.dest.owner != id
    ensures Detach(cs, id) == cs
  {
    if cs != [] {
      DetachUntouched(cs[1..], id);
      assert cs == [cs[0]] + cs[1..];
    }
  }

  /**
   * What re-connecting the saved connections one by one needs in order to
   * succeed every time: they and the current connections come from one
   * earlier, valid connection list `origin` whose node pairs lie in the
   * acyclic graph `G0`, and none of them is connected yet.
   */
  ghost predicate Restorable(cs: seq<Connection>, saved: seq<Connection>, origin: seq<Connection>, G0: seq<Edge>) {
    && Distinct(saved)
    && (forall c :: c in saved ==> c in origin && c !in cs)
    && (forall c :: c in cs ==> c in origin)
    && UniquePorts(origin)
    && (forall c :: c in origin ==> WellFormed(c))
    && Acyclic(G0)
    && Pairs(origin) <= Elems(G0)
  }

  /** Every node a saved connection joins is in the graph, or is the node about to come back. */
  ghost predicate OwnersPresent(nodes: seq<Id>, saved: seq<Connection>, id: Id) {
    forall c :: c in saved ==>
      (c.source.owner in nodes || c.source.owner == id) && (c.dest.owner in nodes || c.dest.owner == id)
  }

  /** With `k` saved connections restored, the router accepts the next one. */
  lemma RestoreStep(C1: seq<Connection>, saved: seq<Connection>, origin: seq<Connection>, G0: seq<Edge>, k: nat, graph: seq<Edge>)
    requires Restorable(C1, saved, origin, G0)
    requires k < |saved|
    requires Elems(graph) == Pairs(C1 + saved[..k])
    ensures ValidateConnection(C1 + saved[..k], saved[k].source, saved[k].dest).None?
    ensures !ReachesOrSame(graph, saved[k].dest.owner, saved[k].source.owner)
  {
    var c := saved[k];
    var cs := C1 + saved[..k];
    forall x | x in cs ensures !SamePorts(x, c.source, c.dest) {
      if x in saved[..k] {
        var j :| 0 <= j < k && saved[j] == x;
        assert saved[j] != saved[k];
      }
      assert x != c && x in origin;
    }
    var s := c.source.owner;
    var d := c.dest.owner;
    assert EdgeOf(c) in Pairs(origin);
    PresentEdgeNoCycle(G0, s, d);
    forall e | e in graph ensures e in G0 {
      assert e in Pairs(cs);
      var x :| x in cs && EdgeOf(x) == e;
      assert EdgeOf(x) in Pairs(origin);
    }
    if Reaches(graph, d, s) {
      ReachesMono(graph, G0, d, s);
    }
  }

  /** The step of `RestoreStep` the loop of `Reconnect` takes, stated in the terms of `Connect`. */
  lemma RestoreStepIf(b: bool, C1: seq<Connection>, saved: seq<Connection>, origin: seq<Connection>, G0: seq<Edge>,
                      k: nat, graph: seq<Edge>, nodes: seq<Id>, id: Id, cs: seq<Connection>)
    requires k < |saved|
    requires b ==> Restorable(C1, saved, origin, G0) && OwnersPresent(nodes, saved, id) && id in nodes
    requires b ==> cs == C1 + saved[..k] && Elems(graph) == Pairs(cs)
    ensures b ==>
      && ValidateConnection(cs, saved[k].source, saved[k].dest).None?
      && saved[k].source.owner in nodes && saved[k].dest.owner in nodes
      && !ReachesOrSame(graph, saved[k].dest.owner, saved[k].source.owner)
  {
    if b {
      RestoreStep(C1, saved, origin, G0, k, graph);
    }
  }

  /**
   * What deleting node `id` from a valid router with connections `C0`, graph
   * `G0` and nodes `N0` leaves behind: its inputs and outputs, saved, are
   * exactly the connections taken away, and they can all be restored.
   */
  lemma DeletionRestorable(C0: seq<Connection>, G0: seq<Edge>, N0: seq<Id>, id: Id,
                            saved: seq<Connection>, C1: seq<Connection>, N1: seq<Id>)
    requires Distinct(C0) && UniquePorts(C0) && forall c :: c in C0 ==> WellFormed(c)
    requires Acyclic(G0) && Elems(G0) == Pairs(C0) && EndpointsIn(G0, N0) && Distinct(N0)
    requires saved == InputsOf(C0, id) + OutputsOf(C0, id)
    requires C1 == Detach(C0, id) && N1 == RemoveFirst(N0, id)
    ensures forall c :: c in C0 <==> c in C1 || c in saved
    ensures Restorable(C1, saved, C0, G0)
    ensures OwnersPresent(N1, saved, id)
  {
    DetachPartition(C0, id);
    DistinctAppend(InputsOf(C0, id), OutputsOf(C0, id));
    RemoveFirstDistinct(N0, id);
    forall c | c in saved
      ensures (c.source.owner in RemoveFirst(N0, id) || c.source.owner == id)
      ensures (c.dest.owner in RemoveFirst(N0, id) || c.dest.owner == id)
    {
      assert EdgeOf(c) in Pairs(C0);
      assert EdgeOf(c) in G0;
    }
  }

  class DeleteNode {
    const project: Project
    const nodeId: Id
    /** The deleted node, kept for undo. */
    var node: Option<Node>
    /** The node's input connections, then its output connections, as they were when it was deleted. */
    var saved: seq<Connection>
    var executed: bool
    /** The router's connections and graph just before the deletion. */
    ghost var origin: seq<Connection>
    ghost var originGraph: seq<Edge>

    ghost predicate Valid()
      reads this
    {
      node.Some? ==> node.value.nodeId == nodeId
    }

    constructor (project: Project, nodeId: Id)
      ensures Valid() && this.project == project && this.nodeId == nodeId
      ensures node == None && saved == [] && !executed
    {
      this.project := project;
      this.nodeId := nodeId;
      node := None;
      saved := [];
      executed := false;
    }

    /**
     * `execute`: fails on an unknown node; otherwise saves the node and its
     * inputs and outputs, then removes it with its connections. What is left
     * is exactly what `undo` needs to put every saved connection back.
     */
    method Execute() returns (ok: bool)
      requires project.Valid() && Valid()
      modifies this, project, project.router
      ensures project.Valid() && Valid()
      ensures ok <==> !old(executed) && nodeId in old(project.nodes.items)
      ensures old(executed) ==> unchanged(this, project, project.router)
      ensures !old(executed) && !ok ==> node == None && !executed && unchanged(project, project.router)
      ensures ok ==>
        && executed
        && node == Some(old(project.nodes.items[nodeId]))
        && saved == old(project.router.InputsFor(nodeId) + project.router.OutputsFor(nodeId))
        && project.nodes == old(project.nodes).Pop(nodeId)
        && project.router.nodes == RemoveFirst(old(project.router.nodes), nodeId)
        && project.router.connections == Detach(old(project.router.connections), nodeId)
      ensures ok ==> forall c :: c in old(project.router.connections) <==> c in project.router.connections || c in saved
      ensures ok ==>
        && Restorable(project.router.connections, saved, origin, originGraph)
        && OwnersPresent(project.router.nodes, saved, nodeId)
    {
      if executed {
        return false;
      }
      node := project.GetNode(nodeId);
      if node.None? {
        return false;
      }
      SaveAndRemove();
      executed := true;
      ok := true;
    }

    /** The part of `execute` after the lookup: saves the connections, then removes the node. */
    method SaveAndRemove()
      requires project.Valid() && nodeId in project.nodes.items
      modifies this`saved, this`origin, this`originGraph, project, project.router
      ensures project.Valid()
      ensures saved == old(project.router.InputsFor(nodeId) + project.router.OutputsFor(nodeId))
      ensures project.nodes == old(project.nodes).Pop(nodeId)
      ensures project.router.nodes == RemoveFirst(old(project.router.nodes), nodeId)
      ensures project.router.connections == Detach(old(project.router.connections), nodeId)
      ensures forall c :: c in old(project.router.connections) <==> c in project.router.connections || c in saved
      ensures Restorable(project.router.connections, saved, origin, originGraph)
      ensures OwnersPresent(project.router.nodes, saved, nodeId)
    {
      ghost var C0 := project.router.connections;
      ghost var G0 := project.router.graph;
      ghost var N0 := project.router.nodes;
      saved := project.router.InputsFor(nodeId) + project.router.OutputsFor(nodeId);
      origin := C0;
      originGraph := G0;
      ghost var C1 := Detach(C0, nodeId);
      ghost var N1 := RemoveFirst(N0, nodeId);
      DeletionRestorable(C0, G0, N0, nodeId, saved, C1, N1);
      project.router.RemoveNode(nodeId);
      assert project.router.connections == C1 && project.router.nodes == N1;
      project.RemoveNode(nodeId);
    }

    /**
     * `undo`: puts the node back and re-connects every saved connection,
     * ignoring refusals. When nothing has been connected in the meantime
     * that conflicts with them, every one of them is accepted.
     */
    method Undo() returns (ok: bool)
      requires project.Valid() && Valid()
      modifies this, project, project.router
      ensures project.Valid() && Valid()
      ensures ok <==> old(executed) && old(node).Some?
      ensures !ok ==> unchanged(this, project, project.router)
      ensures ok ==> !executed && node == old(node) && saved == old(saved)
      ensures ok ==> nodeId in project.nodes.items
      ensures ok && nodeId !in old(project.nodes.items) ==> project.nodes == old(project.nodes).Put(nodeId, node.value)
      ensures ok && nodeId in old(project.nodes.items) ==> project.nodes == old(project.nodes)
      ensures ok ==> forall c :: c in old(project.router.connections) ==> c in project.router.connections
      ensures ok ==> forall c :: c in project.router.connections ==> c in old(project.router.connections) || c in saved
      ensures ok && old(Restorable(project.router.connections, saved, origin, originGraph))
                 && old(OwnersPresent(project.router.nodes, saved, nodeId)) ==>
        project.router.connections == old(project.router.connections) + saved
    {
      if !executed || node.None? {
        return false;
      }
      ghost var N0 := project.router.nodes;
      project.AddNode(node.value);
      project.router.AddNode(nodeId);
      assert forall v :: v in N0 ==> v in project.router.nodes;
      Reconnect(project.router, saved, nodeId, origin, originGraph);
      executed := false;
      ok := true;
    }
  }

  /**
   * The loop of `undo` that re-connects the saved connections one by one and
   * ignores refusals. When they are restorable, every one is accepted.
   */
  method Reconnect(router: Router, saved: seq<Connection>, ghost id: Id, ghost origin: seq<Connection>, ghost G0: seq<Edge>)
    requires router.Valid() && id in router.nodes
    modifies router
    ensures router.Valid() && router.nodes == old(router.nodes)
    ensures forall c :: c in old(router.connections) ==> c in router.connections
    ensures forall c :: c in router.connections ==> c in old(router.connections) || c in saved
    ensures old(Restorable(router.connections, saved, origin, G0) && OwnersPresent(router.nodes, saved, id)) ==>
      router.connections == old(router.connections) + saved
  {
    ghost var restorable := Restorable(router.connections, saved, origin, G0) && OwnersPresent(router.nodes, saved, id);
    ghost var C1 := router.connections;
    var k := 0;
    while k < |saved|
      invariant 0 <= k <= |saved|
      invariant router.Valid() && router.nodes == old(router.nodes)
      invariant forall c :: c in C1 ==> c in router.connections
      invariant forall c :: c in router.connections ==> c in C1 || c in saved
      invariant restorable ==> router.connections == C1 + saved[..k]
    {
      ReconnectOne(router, saved, k, restorable, id, origin, G0, C1);
      k := k + 1;
    }
    assert saved[..k] == saved;
  }

  /** One turn of the loop of `Reconnect`: connects `saved[k]`, or leaves the router as it was. */
  method ReconnectOne(router: Router, saved: seq<Connection>, k: nat, ghost restorable: bool, ghost id: Id,
                      ghost origin: seq<Connection>, ghost G0: seq<Edge>, ghost C1: seq<Connection>)
    requires router.Valid() && id in router.nodes && k < |saved|
    requires restorable ==>
      && Restorable(C1, saved, origin, G0) && OwnersPresent(router.nodes, saved, id)
      && router.connections == C1 + saved[..k]
    modifies router
    ensures router.Valid() && router.nodes == old(router.nodes)
    ensures router.connections == old(router.connections) || router.connections == old(router.connections) + [saved[k]]
    ensures restorable ==> router.connections == C1 + saved[..k + 1]
  {
    ghost var cs := router.connections;
    RestoreStepIf(restorable, C1, saved, origin, G0, k, router.graph, router.nodes, id, cs);
    var ok := router.Connect(saved[k].source, saved[k].dest);
    if restorable {
      assert ok;
      assert saved[..k + 1] == saved[..k] + [saved[k]];
    }
  }

  /**
   * Deleting a node and undoing at once brings back the same node record, the
   * same set of nodes and the same set of connections. The node is appended
   * at the end of the registry and of the graph, and the connections that
   * touched it move to the end of the list.
   */
  method DeleteThenUndo(p: Project, id: Id) returns (deleted: bool, undone: bool)
    requires p.Valid() && id in p.nodes.items
    modifies p, p.router
    ensures p.Valid() && deleted && undone
    ensures p.nodes.items == old(p.nodes.items)
    ensures Elems(p.router.nodes) == old(Elems(p.router.nodes))
    ensures forall c :: c in p.router.connections <==> c in old(p.router.connections)
  {
    ghost var C0 := p.router.connections;
    ghost var items := p.nodes.items;
    var cmd := new DeleteNode(p, id);
    deleted := cmd.Execute();
    ghost var C1 := p.router.connections;
    ghost var S := cmd.saved;
    assert forall c :: c in C0 <==> c in C1 || c in S;
    assert p.nodes.items == items - {id};
    undone := cmd.Undo();
    assert p.router.connections == C1 + S;
    assert cmd.node == Some(items[id]);
    assert p.nodes.items == (items - {id})[id := items[id]];
    PopThenPut(items, id);
    assert forall c :: c in p.router.connections <==> c in C1 + S;
  }

  lemma PopThenPut<V>(m: map<Id, V>, k: Id)
    requires k in m
    ensures (m - {k})[k := m[k]] == m
  {
  }

  // ---------------------------------------------------------------------------
  // Renaming

  class RenameNode {
    const project: Project
    const nodeId: Id
    var newName: string
    /** The name before the rename, recorded by `execute`. */
    var oldName: Option<string>
    var executed: bool

    ghost predicate Valid()
      reads this
    {
      executed ==> oldName.Some?
    }

    constructor (project: Project, nodeId: Id, newName: string)
      ensures Valid() && this.project == project && this.nodeId == nodeId
      ensures this.newName == newName && oldName == None && !executed
    {
      this.project := project;
      this.nodeId := nodeId;
      this.newName := newName;
      oldName := None;
      executed := false;
    }

    /** `execute`: records the current name and sets the new one; fails on an unknown node. */
    method Execute() returns (ok: bool)
      requires project.Valid() && Valid()
      modifies this, project
      ensures project.Valid() && Valid()
      ensures ok <==> !old(executed) && nodeId in old(project.nodes.items)
      ensures !ok ==> unchanged(this, project)
      ensures ok ==>
        && executed
        && oldName == Some(NameOf(old(project.nodes.items[nodeId])))
        && project.nodes == old(project.nodes).Put(nodeId, old(project.nodes.items[nodeId]).(name := Some(newName)))
    {
      if executed {
        return false;
      }
      var n := project.GetNode(nodeId);
      if n.None? {
        return false;
      }
      oldName := Some(NameOf(n.value));
      project.Replace(n.value.(name := Some(newName)));
      executed := true;
      ok := true;
    }

    /** `undo`: sets the recorded name again; fails unless executed, or on an unknown node. */
    method Undo() returns (ok: bool)
      requires project.Valid() && Valid()
      modifies this, project
      ensures project.Valid() && Valid()
      ensures ok <==> old(executed) && nodeId in old(project.nodes.items)
      ensures !ok ==> unchanged(this, project)
      ensures ok ==>
        && !executed
        && project.nodes == old(project.nodes).Put(nodeId, old(project.nodes.items[nodeId]).(name := Some(old(oldName).value)))
    {
      if !executed {
        return false;
      }
      var n := project.GetNode(nodeId);
      if n.None? {
        return false;
      }
      project.Replace(n.value.(name := Some(oldName.value)));
      executed := false;
      ok := true;
    }

    /** `can_merge_with`: a rename of the same node that has not run, merged into one that has. */
    predicate CanMergeWith(other: RenameNode)
      reads this, other
      ensures CanMergeWith(other) ==> other != this
    {
      nodeId == other.nodeId && executed && !other.executed
    }

    /** `merge_with`: keeps the first old name and takes the latest new name; refused otherwise. */
    method MergeWith(other: RenameNode) returns (r: Result<(), string>)
      modifies this`newName
      ensures r.Success? <==> old(CanMergeWith(other))
      ensures r.Success? ==> newName == other.newName
      ensures r.Failure? ==> newName == old(newName) && r.error == "Cannot merge commands"
      ensures oldName == old(oldName) && executed == old(executed)
    {
      if !CanMergeWith(other) {
        return Failure("Cannot merge commands");
      }
      newName := other.newName;
      r := Success(());
    }
  }

  /**
   * Renaming a node and undoing gives the node back when it had a name; a
   * node without one comes back named "Unknown".
   */
  lemma RenameRoundTrip(n: Node, newName: string)
    ensures var back := n.(name := Some(newName)).(name := Some(NameOf(n)));
      && (n.name.Some? ==> back == n)
      && (n.name.None? ==> back == n.(name := Some("Unknown")))
  {
  }

  // ---------------------------------------------------------------------------
  // Removing an insert plugin

  class RemoveInsert {
    const project: Project
    const targetId: Id
    const pluginId: Id
    /** The removed plugin and its position, kept for undo; set together. */
    var plugin: Option<Id>
    var index: Option<nat>
    var executed: bool

    ghost predicate Valid()
      reads this
    {
      plugin.Some? <==> index.Some?
    }

    constructor (project: Project, targetId: Id, pluginId: Id)
      ensures Valid() && this.project == project && this.targetId == targetId && this.pluginId == pluginId
      ensures plugin == None && index == None && !executed
    {
      this.project := project;
      this.targetId := targetId;
      this.pluginId := pluginId;
      plugin := None;
      index := None;
      executed := false;
    }

    /**
     * `execute`: finds the first insert with the plugin's id, records it and
     * its index, and removes it. A plugin recorded by an earlier run is not
     * forgotten when the search finds nothing.
     */
    method Execute() returns (ok: bool)
      requires project.Valid() && Valid()
      modifies this, project
      ensures project.Valid() && Valid()
      ensures old(executed) || old(project.Inserts(targetId)).None? ==> !ok && unchanged(this, project)
      ensures !old(executed) && old(project.Inserts(targetId)).Some? ==>
        var ins := old(project.Inserts(targetId)).value;
        && (pluginId in ins ==>
              && ok && executed
              && plugin == Some(pluginId) && index == Some(IndexOf(ins, pluginId))
              && project.Inserts(targetId) == Some(RemoveFirst(ins, pluginId)))
        && (pluginId !in ins && old(plugin).None? ==> !ok && unchanged(this, project))
        && (pluginId !in ins && old(plugin).Some? ==>
              && ok && executed && plugin == old(plugin) && index == old(index)
              && project.nodes == old(project.nodes))
      ensures ok ==> project.nodes.keys == old(project.nodes.keys)
      ensures ok ==> forall id :: id != targetId ==> project.GetNode(id) == old(project.GetNode(id))
    {
      if executed {
        return false;
      }
      var n := project.GetNode(targetId);
      if n.None? || n.value.inserts.None? {
        return false;
      }
      var ins := n.value.inserts.value;
      var i := 0;
      while i < |ins|
        invariant 0 <= i <= |ins|
        invariant forall j :: 0 <= j < i ==> ins[j] != pluginId
      {
        if ins[i] == pluginId {
          assert i == IndexOf(ins, pluginId);
          plugin := Some(ins[i]);
          index := Some(i);
          break;
        }
        i := i + 1;
      }
      if plugin.None? {
        return false;
      }
      project.Replace(n.value.(inserts := Some(RemoveFirst(ins, pluginId))));
      executed := true;
      ok := true;
    }

    /** `undo`: inserts the recorded plugin at its recorded index; refused unless executed. */
    method Undo() returns (ok: bool)
      requires project.Valid() && Valid()
      modifies this, project
      ensures project.Valid() && Valid()
      ensures ok <==> old(executed) && old(plugin).Some? && old(project.Inserts(targetId)).Some?
      ensures !ok ==> unchanged(this, project)
      ensures ok ==>
        && !executed && plugin == old(plugin) && index == old(index)
        && project.Inserts(targetId) == Some(Insert(old(project.Inserts(targetId)).value, index.value, plugin.value))
      ensures ok ==> forall id :: id != targetId ==> project.GetNode(id) == old(project.GetNode(id))
    {
      if !executed || plugin.None? {
        return false;
      }
      var n := project.GetNode(targetId);
      if n.None? || n.value.inserts.None? {
        return false;
      }
      project.Replace(n.value.(inserts := Some(Insert(n.value.inserts.value, index.value, plugin.value))));
      executed := false;
      ok := true;
    }
  }

  // ---------------------------------------------------------------------------
  // Adding notes to a clip

  /**
   * What `undo` does to the clip as written: it discards every listed note,
   * including notes the clip already held before `execute`.
   */
  function DiscardListed(current: set<Note>, listed: seq<Note>): (r: set<Note>)
    ensures forall n :: n in r <==> n in current && n !in listed
  {
    current - Elems(listed)
  }

  /** A note the clip held before is listed again: undo as written loses it. */
  lemma AddNotesUndoAsWrittenLosesNote()
    ensures var n := Note(60, 100, 0.0, 1.0);
      var before := {n};
      n in before && n !in DiscardListed(before + Elems([n]), [n])
  {
    var n := Note(60, 100, 0.0, 1.0);
    assert n in Elems([n]);
  }

  /** Discarding the notes `execute` actually added puts any note set back as it was. */
  lemma AddNotesRoundTrip(before: set<Note>, listed: seq<Note>)
    ensures (before + Elems(listed)) - (Elems(listed) - before) == before
  {
  }

  /** The loop of `execute` that adds the notes one by one to the clip's notes. */
  method AddEach(current: set<Note>, notes: seq<Note>) returns (ns: set<Note>)
    ensures ns == current + Elems(notes)
  {
    ns := current;
    var k := 0;
    while k < |notes|
      invariant 0 <= k <= |notes|
      invariant ns == current + Elems(notes[..k])
    {
      assert notes[..k + 1] == notes[..k] + [notes[k]];
      ns := ns + {notes[k]};
      k := k + 1;
    }
    assert notes[..k] == notes;
  }

  /**
   * The part of the add-notes `execute` after the search: when node `owner`
   * still holds the clip, adds the notes to it and returns the ones that were
   * new; otherwise changes nothing.
   */
  method AddToClip(project: Project, owner: Id, clipId: string, notes: seq<Note>) returns (added: set<Note>)
    requires project.Valid()
    modifies project
    ensures project.Valid()
    ensures var before := old(project.ClipNotes(owner, clipId));
      && (before.Some? ==> project.ClipNotes(owner, clipId) == Some(before.value + Elems(notes))
                           && added == Elems(notes) - before.value)
      && (before.None? ==> project.nodes == old(project.nodes) && added == {})
    ensures project.nodes.keys == old(project.nodes.keys)
    ensures forall id :: id != owner ==> project.GetNode(id) == old(project.GetNode(id))
  {
    var before := project.ClipNotes(owner, clipId);
    if before.Some? {
      var ns := AddEach(before.value, notes);
      project.SetClipNotes(owner, clipId, ns);
      added := Elems(notes) - before.value;
    } else {
      added := {};
    }
  }

  class AddNotes {
    const project: Project
    const clipId: string
    var notes: seq<Note>
    /** The node holding the clip, found by `execute`. */
    var clip: Option<Id>
    /** The notes `execute` put into the clip that it did not already hold. */
    var added: set<Note>
    var executed: bool

    constructor (project: Project, clipId: string, notes: seq<Note>)
      ensures this.project == project && this.clipId == clipId && this.notes == notes
      ensures clip == None && added == {} && !executed
    {
      this.project := project;
      this.clipId := clipId;
      this.notes := notes;
      clip := None;
      added := {};
      executed := false;
    }

    /** The search over all nodes: the last node in registry order holding the clip, or what an earlier run found. */
    method FindClip() returns (found: Option<Id>)
      requires project.Valid()
      ensures var h := LastHolder(project.nodes.keys, project.nodes.items, clipId);
        && (h.Some? ==> found == Some(project.nodes.keys[h.value]))
        && (h.None? ==> found == clip)
    {
      var keys := project.nodes.keys;
      var pick: Option<nat> := None;
      var i := 0;
      while i < |keys|
        invariant 0 <= i <= |keys|
        invariant pick == LastHolder(keys[..i], project.nodes.items, clipId)
      {
        assert keys[..i + 1][..i] == keys[..i];
        if HasClip(project.nodes.items[keys[i]], clipId) {
          pick := Some(i);
        }
        i := i + 1;
      }
      assert keys[..i] == keys;
      found := if pick.Some? then Some(keys[pick.value]) else clip;
    }

    /**
     * `execute`: adds the notes to the clip found. Fails when no clip was ever
     * found; a clip whose node has left the project takes the notes out of
     * sight of the project.
     */
    method Execute() returns (ok: bool)
      requires project.Valid()
      modifies this, project
      ensures project.Valid()
      ensures old(executed) ==> !ok && unchanged(this, project)
      ensures !old(executed) ==>
        var h := old(LastHolder(project.nodes.keys, project.nodes.items, clipId));
        && (h.Some? ==> clip == Some(old(project.nodes.keys)[h.value]))
        && (h.None? ==> clip == old(clip))
        && (ok <==> clip.Some?)
      ensures !ok ==> project.nodes == old(project.nodes) && executed == old(executed)
      ensures ok ==> executed && notes == old(notes)
      ensures ok ==>
        var o := clip.value;
        var before := old(project.ClipNotes(o, clipId));
        && (before.Some? ==> project.ClipNotes(o, clipId) == Some(before.value + Elems(notes))
                             && added == Elems(notes) - before.value)
        && (before.None? ==> project.nodes == old(project.nodes) && added == {})
      ensures ok ==> project.nodes.keys == old(project.nodes.keys)
      ensures ok ==> forall id :: id != clip.value ==> project.GetNode(id) == old(project.GetNode(id))
    {
      if executed {
        return false;
      }
      clip := FindClip();
      if clip.None? {
        return false;
      }
      added := AddToClip(project, clip.value, clipId, notes);
      executed := true;
      ok := true;
    }

    /** `undo`: takes out of the clip the notes `execute` added; refused unless executed. */
    method Undo() returns (ok: bool)
      requires project.Valid()
      modifies this, project
      ensures project.Valid()
      ensures ok <==> old(executed) && old(clip).Some?
      ensures !ok ==> unchanged(this, project)
      ensures ok ==> !executed && clip == old(clip) && added == old(added)
      ensures ok ==>
        var o := clip.value;
        var before := old(project.ClipNotes(o, clipId));
        && (before.Some? ==> project.ClipNotes(o, clipId) == Some(before.value - added))
        && (before.None? ==> project.nodes == old(project.nodes))
      ensures ok ==> forall id :: id != clip.value ==> project.GetNode(id) == old(project.GetNode(id))
    {
      if !executed || clip.None? {
        return false;
      }
      var o := clip.value;
      var before := project.ClipNotes(o, clipId);
      if before.Some? {
        project.SetClipNotes(o, clipId, before.value - added);
      }
      executed := false;
      ok := true;
    }

    /** `can_merge_with`: more notes for the same clip, from a command that has not run. */
    predicate CanMergeWith(other: AddNotes)
      reads this, other
      ensures CanMergeWith(other) ==> other != this
    {
      clipId == other.clipId && executed && !other.executed
    }

    /** `merge_with`: appends the other command's notes; refused otherwise. */
    method MergeWith(other: AddNotes) returns (r: Result<(), string>)
      modifies this`notes
      ensures r.Success? <==> old(CanMergeWith(other))
      ensures r.Success? ==> notes == old(notes) + other.notes
      ensures r.Failure? ==> notes == old(notes) && r.error == "Cannot merge commands"
    {
      if !CanMergeWith(other) {
        return Failure("Cannot merge commands");
      }
      notes := notes + other.notes;
      r := Success(());
    }
  }

  // ---------------------------------------------------------------------------
  // Setting the tempo

  class SetTempo {
    const project: Project
    var newTempo: real
    /** The tempo before the change, recorded by `execute`. */
    var oldTempo: Option<real>
    var executed: bool

    ghost predicate Valid()
      reads this
    {
      executed ==> oldTempo.Some?
    }

    constructor (project: Project, newTempo: real)
      ensures Valid() && this.project == project && this.newTempo == newTempo
      ensures oldTempo == None && !executed
    {
      this.project := project;
      this.newTempo := newTempo;
      oldTempo := None;
      executed := false;
    }

    /** `execute`: records the project tempo and sets the new one at beat 0. */
    method Execute() returns (ok: bool)
      requires project.Valid() && Valid()
      modifies this, project.timeline
      ensures project.Valid() && Valid()
      ensures ok <==> !old(executed)
      ensures !ok ==> unchanged(this, project.timeline)
      ensures ok ==>
        && executed
        && oldTempo == Some(old(project.timeline.Tempo()))
        && project.timeline.tempoEvents == old(project.timeline.tempoEvents)[0 := MuzaiTimeline.Event(0.0, newTempo)]
        && project.timeline.Tempo() == newTempo
    {
      if executed {
        return false;
      }
      oldTempo := Some(project.timeline.Tempo());
      project.timeline.SetTempo(newTempo);
      project.timeline.SetTempo(newTempo);
      executed := true;
      ok := true;
    }

    /** `undo`: sets the recorded tempo again at beat 0; refused unless executed. */
    method Undo() returns (ok: bool)
      requires project.Valid() && Valid()
      modifies this, project.timeline
      ensures project.Valid() && Valid()
      ensures ok <==> old(executed)
      ensures !ok ==> unchanged(this, project.timeline)
      ensures ok ==>
        && !executed && oldTempo == old(oldTempo)
        && project.timeline.tempoEvents == old(project.timeline.tempoEvents)[0 := MuzaiTimeline.Event(0.0, oldTempo.value)]
        && project.timeline.Tempo() == oldTempo.value
    {
      if !executed {
        return false;
      }
      project.timeline.SetTempo(oldTempo.value);
      project.timeline.SetTempo(oldTempo.value);
      executed := false;
      ok := true;
    }

    /** `can_merge_with`: any tempo change that has not run, merged into one that has. */
    predicate CanMergeWith(other: SetTempo)
      reads this, other
      ensures CanMergeWith(other) ==> other != this
    {
      executed && !other.executed
    }

    /** `merge_with`: keeps the first old tempo and takes the latest new tempo; refused otherwise. */
    method MergeWith(other: SetTempo) returns (r: Result<(), string>)
      modifies this`newTempo
      ensures r.Success? <==> old(CanMergeWith(other))
      ensures r.Success? ==> newTempo == other.newTempo
      ensures r.Failure? ==> newTempo == old(newTempo) && r.error == "Cannot merge commands"
      ensures oldTempo == old(oldTempo) && executed == old(executed)
    {
      if !CanMergeWith(other) {
        return Failure("Cannot merge commands");
      }
      newTempo := other.newTempo;
      r := Success(());
    }
  }

  /** Setting a tempo and undoing it at once gives back the exact tempo map. */
  lemma TempoRoundTrip(es: seq<MuzaiTimeline.TempoEvent>, bpm: real)
    requires |es| > 0 && es[0].beat == 0.0
    ensures es[0 := MuzaiTimeline.Event(0.0, bpm)][0 := MuzaiTimeline.Event(0.0, es[0].value)] == es
  {
  }
}
