# A verified model of a headless DAW engine's domain core

This project models, in Dafny, the domain core shared by the two engines of
the repository (the `echos` package and the `MuzaiCore` package). It covers:

- **Render graph and routers.** The pedalboard render graph keeps nodes,
  connections, a Kahn processing order and a per-node plugin map. The
  MuzaiCore additions are graph validation, the plugin reverse map and
  parallel processing groups. The echos and MuzaiCore routers keep port
  connections and reject invalid or cycle-forming ones. The MuzaiCore router
  also computes integer latency compensation over the processing order.
- **Command history.** The echos command state machine, the undo/redo
  manager with macros, merging and a history limit, and the echos editing
  commands. The MuzaiCore node, insert, note and tempo commands act on a
  project that holds a router.
- **Timelines and automation.** The echos and MuzaiCore tempo and
  time-signature maps, their lookups, and their beat/second conversions over
  `real`. A parameter's clamping, batched change publication and automation
  lane with linear and step interpolation.
- **Event dispatch.** The MuzaiCore event bus, the real-time message queue,
  and the echos sync controller, which turns domain events into engine
  messages.
- **Small helpers.** Effect-node plugin chains, a track's clip map, the
  bundler's dependency sort and the agent tool-parameter schema and
  validator.

Stateful objects are classes whose methods state their whole new state.
Pure computations are functions with lemmas about them. Loops are methods
with invariants, proved against a specification function. Kahn's algorithm
and reachability live in `Digraph`, which the render graph, the MuzaiCore
router and the bundler share. Python lists and dicts become `seq` and an
insertion-ordered `Dict` (`Dicts`); `list.insert`, `list.remove` and
filtering are in `Lists`. Floating-point numbers are modelled as `real`.

Where the code does not do what its names and comments evidently intend,
the model has two members. One follows the code as written; the other is
the corrected behaviour, which the rest of the model uses. Both are listed
under "Findings".

Where the repository's design description and its code differ, the model
follows the code:

- The design rejects a nested `beginMacro`. The echos command manager
  nests macros: an inner macro joins its parent when it ends
  (command_manager.py:174-211), and `CommandManager.Manager.EndMacro`
  models that.
- The design reports misuse as typed errors (an empty history, a missing
  node, a cycle). The code mostly prints and returns `False` or `None`, and
  the model returns those values.
- The design has one conversion between beats and seconds. The code has two
  timelines, echos and MuzaiCore, and both are modelled. Their conversions
  are proved to agree (`EchosTimeline.SecondsAgree`).

## Model

| member | source | states |
|---|---|---|
| RenderGraph.Detached | src/echos/backends/pedalboard/render_graph.py:76-79 | the connections kept by node removal are exactly those with neither end at the node |
| RenderGraph.Graph.constructor | src/echos/backends/pedalboard/render_graph.py:26-37 | a new graph has no nodes, connections, processing order or plugin map, and is consistent |
| RenderGraph.Graph.UpdateProcessingOrder | src/echos/backends/pedalboard/render_graph.py:515-542 | the order lists every node once; it is a topological order when the connections are acyclic, and the node insertion order otherwise |
| RenderGraph.Graph.AddNode | src/echos/backends/pedalboard/render_graph.py:52-71 | a known id changes nothing; a new id is added with an empty plugin list; connections and the plugin map are untouched |
| RenderGraph.Graph.RemoveNode | src/echos/backends/pedalboard/render_graph.py:73-89 | an unknown id changes nothing; otherwise the node goes, exactly the connections touching it go, and its plugins leave the plugin map |
| RenderGraph.Graph.ForgetPlugins | src/echos/backends/pedalboard/render_graph.py:82-85 | the plugin map loses exactly the listed plugin ids |
| RenderGraph.Graph.WouldCreateCycle | src/echos/backends/pedalboard/render_graph.py:482-507 | true iff the destination reaches the source (or is it), which is iff adding the edge makes the graph cyclic |
| RenderGraph.Graph.AddConnection | src/echos/backends/pedalboard/render_graph.py:91-114 | when both ends exist, the edge is new and closes no cycle, exactly that edge is appended; otherwise nothing changes; the graph stays acyclic |
| RenderGraph.Graph.RemoveConnection | src/echos/backends/pedalboard/render_graph.py:116-128 | a present edge is removed and is then absent; an absent one changes nothing |
| RenderGraph.Graph.GetPluginCount | src/echos/backends/pedalboard/render_graph.py:264-268 | the sum of the per-node plugin counts, which equals the size of the plugin map when the two maps agree |
| RenderGraph.Graph.Clear | src/echos/backends/pedalboard/render_graph.py:270-281 | nodes, connections, processing order and plugin map are all empty |
| RenderGraph.Graph.AddPluginToNode | src/echos/backends/pedalboard/render_graph.py:140-168 | an unknown node or a failed instance creation changes nothing; otherwise the node holds the plugin and the plugin map sends it to the node, for every node kind; a fresh plugin id keeps the maps in agreement. For an instrument-track node this is the corrected `add_plugin` of the findings below: as written, that node never records the id |
| RenderGraph.Graph.RemovePluginFromNode | src/echos/backends/pedalboard/render_graph.py:170-187 | an unknown node or plugin changes nothing; otherwise the plugin leaves the node and the plugin map, and the maps stay in agreement |
| RenderGraph.AddPluginConsistent | src/MuzaiCore/backends/pedalboard/render_graph.py:177-181 | recording a fresh plugin in both its node and the reverse map keeps the two maps in agreement both ways |
| RenderGraph.RemovePluginConsistent | src/MuzaiCore/backends/pedalboard/render_graph.py:200-202 | removing a plugin from its node and from the reverse map keeps the two maps in agreement both ways |
| RenderGraph.Graph.ValidateGraph | src/MuzaiCore/backends/pedalboard/render_graph.py:415-451 | valid iff there are no issues, iff every connection end exists, both maps agree both ways and the order covers every node |
| RenderGraph.Graph.ConnectionIssues | src/MuzaiCore/backends/pedalboard/render_graph.py:418-425 | no issue iff every connection end is a node |
| RenderGraph.Graph.HostIssues | src/MuzaiCore/backends/pedalboard/render_graph.py:427-436 | no issue iff every plugin of every node is in the reverse map and sent back to that node |
| RenderGraph.Graph.PluginIssues | src/MuzaiCore/backends/pedalboard/render_graph.py:428-436 | no issue for one node iff each of its plugins is recorded for it in the reverse map |
| RenderGraph.Graph.ReverseIssues | src/MuzaiCore/backends/pedalboard/render_graph.py:438-445 | no issue iff every reverse-map entry names an existing node that holds the plugin |
| RenderGraph.HostsByKeys | src/MuzaiCore/backends/pedalboard/render_graph.py:427-436 | the node-side agreement holds iff it holds node by node in insertion order (the loop the scan runs) |
| RenderGraph.ReverseByKeys | src/MuzaiCore/backends/pedalboard/render_graph.py:438-445 | the reverse-side agreement holds iff it holds entry by entry in insertion order |
| RenderGraph.Graph.ParallelGroups | src/MuzaiCore/backends/pedalboard/render_graph.py:588-625 | groups are pairwise disjoint, every source of a grouped node lies in an earlier group, no group holds both ends of a connection, and on the acyclic graph the groups cover every node |
| RenderGraph.Graph.ReadyNodes | src/MuzaiCore/backends/pedalboard/render_graph.py:603-617 | one round's group is exactly the unprocessed nodes whose sources are all processed, in node order, each once |
| RenderGraph.LayeredSnoc | src/MuzaiCore/backends/pedalboard/render_graph.py:618-620 | appending a non-empty round of ready nodes keeps the groups layered and adds exactly those nodes |
| RenderGraph.StuckMeansCycle | src/MuzaiCore/backends/pedalboard/render_graph.py:621-623 | a round that finds no ready node while nodes remain proves the graph has a cycle, so the early stop cannot happen on an acyclic graph |
| RenderGraph.ReverseMapCount | src/echos/backends/pedalboard/render_graph.py:264-268 | when the maps agree, the per-node plugin total equals the size of the reverse map |
| RenderGraph.HostedAreReverseKeys | src/MuzaiCore/backends/pedalboard/render_graph.py:427-445 | when the maps agree, the hosted plugins are exactly the reverse map's keys |
| Digraph.InDegrees | src/echos/backends/pedalboard/render_graph.py:516-519 | every node gets its count of incoming edges, and only nodes get one |
| Digraph.ZeroDegreeQueue | src/echos/backends/pedalboard/render_graph.py:521-523 | the initial queue is exactly the nodes with no incoming edge, in node order |
| Digraph.Relax | src/echos/backends/pedalboard/render_graph.py:530-534 | after taking a node, each target's count drops by its edges from that node and a target joins the queue when its count reaches zero |
| Digraph.RelaxEdge | src/echos/backends/pedalboard/render_graph.py:531-534 | one edge of the relaxation loop keeps the counting invariant |
| Digraph.Kahn | src/echos/backends/pedalboard/render_graph.py:515-535 | the order is duplicate-free, respects every edge, and covers all nodes iff the graph is acyclic; every node it leaves out has an edge from another node left out |
| Digraph.KahnExit | src/echos/backends/pedalboard/render_graph.py:536-542 | when the queue runs dry, the order is full iff the graph is acyclic, and each node left out has a predecessor left out |
| Digraph.CycleFromPredecessors | src/echos/backends/pedalboard/render_graph.py:536-539 | a non-empty node set in which each node has a predecessor inside the set proves a cycle (why a short order means a cycle) |
| Digraph.TopologicalOrderAcyclic | src/echos/backends/pedalboard/render_graph.py:540-542 | a duplicate-free order respecting every edge proves the graph acyclic |
| Digraph.CycleNodesUnlisted | src/class_bundler.py:165-178 | a node on a cycle never enters an order that puts every edge source before its target, so it is among the classes reported |
| Digraph.AddEdgeAcyclic | src/echos/backends/pedalboard/render_graph.py:104-109 | on an acyclic graph, adding an edge keeps it acyclic iff its destination does not reach its source |
| Digraph.ReachableFrom | src/echos/backends/pedalboard/render_graph.py:493-507 | the search marks exactly the nodes reachable from the start |
| Digraph.Expand | src/echos/backends/pedalboard/render_graph.py:497-502 | visiting one node's neighbours keeps every marked node reachable and closes the visited node |
| EchosRouter.TrackPorts | src/echos/core/track.py:22-33 | a track has an input `main_in` and an output `main_out` of the same port type |
| EchosRouter.Router.constructor | src/echos/core/router.py:12-16 | a new router has no nodes, connections or graph edges |
| EchosRouter.Router.AddNode | src/echos/core/router.py:22-32 | a plugin is refused, a known id changes nothing, and a new id is added; connections and graph are untouched |
| EchosRouter.Router.Connect | src/echos/core/router.py:73-125 | succeeds iff no check refuses (node, port, direction, type, duplicate, cycle, in that order); then exactly the connection is appended and the node pair joins the graph; otherwise nothing changes; the graph stays acyclic and mirrors the connections |
| EchosRouter.Router.Disconnect | src/echos/core/router.py:127-152 | fails and changes nothing iff the connection is absent; otherwise it is removed, and the graph edge survives iff another connection joins the same pair |
| EchosRouter.Router.RemoveNode | src/echos/core/router.py:43-59 | an unknown id changes nothing; otherwise the node goes, and exactly the connections and graph edges touching it go |
| EchosRouter.Router.DisconnectAll | src/echos/core/router.py:54-55 | disconnecting a list removes exactly its connections and keeps the router consistent |
| EchosRouter.NoEdgeTouches | src/echos/core/router.py:48-58 | once no connection touches a node, no graph edge does |
| EchosRouter.PairsAfterRemoval | src/echos/core/router.py:139-145 | after removing one connection, the joined pairs lose its pair unless another connection still joins it |
| MuzaiRouter.ValidateConnection | src/MuzaiCore/subsystems/router.py:191-220 | accepted iff types match, the source is an output and the destination an input, the owners differ, the destination has at least as many channels, and no connection joins the same two ports; a type mismatch is reported first |
| MuzaiRouter.FindSamePorts | src/MuzaiCore/subsystems/router.py:213-218 | the duplicate scan finds a connection iff one joins the same node and port ids |
| MuzaiRouter.Detach | src/MuzaiCore/subsystems/router.py:50-54 | the kept connections are exactly those not owned at either end by the node |
| MuzaiRouter.InputsOf | src/MuzaiCore/subsystems/router.py:149-154 | exactly the connections whose destination port the node owns |
| MuzaiRouter.OutputsOf | src/MuzaiCore/subsystems/router.py:156-161 | exactly the connections whose source port the node owns |
| MuzaiRouter.DetachPartition | src/MuzaiCore/subsystems/router.py:50-54 | every connection is either kept, an input of the node or an output of it, and no well-formed connection is two of these |
| MuzaiRouter.Router.InputsFor | src/MuzaiCore/subsystems/router.py:149-154 | the router's input connections of a node |
| MuzaiRouter.Router.OutputsFor | src/MuzaiCore/subsystems/router.py:156-161 | the router's output connections of a node |
| MuzaiRouter.Router.constructor | src/MuzaiCore/subsystems/router.py:15-24 | a new router is empty, with an empty latency cache marked for recalculation |
| MuzaiRouter.Router.AddNode | src/MuzaiCore/subsystems/router.py:26-41 | a known node changes nothing; a new one is added with latency 0 and recalculation is requested |
| MuzaiRouter.Router.RemoveNode | src/MuzaiCore/subsystems/router.py:43-61 | an unknown node changes nothing; otherwise the node, its connections and its graph edges go, its metadata goes and recalculation is requested; the latency cache is left as it was |
| MuzaiRouter.RemovalKeepsShape | src/MuzaiCore/subsystems/router.py:50-56 | removing a node with its edges and connections keeps the router's invariant (acyclic, graph mirrors connections, ports unique) |
| MuzaiRouter.Router.WouldCreateCycle | src/MuzaiCore/subsystems/router.py:222-230 | true iff adding the edge makes the graph cyclic, iff the destination reaches the source; the graph is left as it was |
| MuzaiRouter.Router.WouldCreateCycleAsWritten | src/MuzaiCore/subsystems/router.py:222-230 | the same verdict, but the graph afterwards is the probe's add-then-remove result, which drops an edge that was already there |
| MuzaiRouter.ProbeDropsExistingEdge | src/MuzaiCore/subsystems/router.py:226-229 | probing an edge already in the graph removes it |
| MuzaiRouter.ProbeCounterexample | src/MuzaiCore/subsystems/router.py:226-229 | probing `a -> b` on the graph holding `a -> b` leaves an empty graph |
| MuzaiRouter.PresentEdgeNoCycle | src/MuzaiCore/subsystems/router.py:81-86 | on an acyclic graph an edge already present never reports a cycle, so a parallel connection is accepted |
| MuzaiRouter.Router.Connect | src/MuzaiCore/subsystems/router.py:63-94 | succeeds iff validation passes, both owners are nodes and the edge closes no cycle; then exactly the connection is appended, the edge is in the graph and recalculation is requested; otherwise nothing changes; the latency cache is never touched |
| MuzaiRouter.Router.Disconnect | src/MuzaiCore/subsystems/router.py:96-120 | every connection between the two nodes goes; the result is true iff the graph had that edge, which then goes; recalculation is requested only then |
| MuzaiRouter.Router.ReportNodeLatency | src/MuzaiCore/subsystems/router.py:182-189 | a known node's latency is replaced and recalculation is requested, with the latency cache left as it was; an unknown node changes nothing |
| MuzaiRouter.MaxInputIsMax | src/MuzaiCore/subsystems/router.py:245-250 | the maximum input latency exists iff the node has a predecessor, bounds every predecessor's cumulative latency and is attained by one |
| MuzaiRouter.MaxInputOf | src/MuzaiCore/subsystems/router.py:245-250 | the loop computes that maximum |
| MuzaiRouter.CumulativeLatencies | src/MuzaiCore/subsystems/router.py:237-253 | walking a topological order gives each node its own latency plus the largest cumulative latency among its predecessors (0 without any) |
| MuzaiRouter.CumulativeStep | src/MuzaiCore/subsystems/router.py:240-253 | one step of that walk extends the property to the next node in the order |
| MuzaiRouter.MaxValue | src/MuzaiCore/subsystems/router.py:256-257 | the largest cached value: it bounds every entry and is attained |
| MuzaiRouter.Compensate | src/MuzaiCore/subsystems/router.py:256-264 | each compensation is the maximum minus the node's cumulative latency: all are at least 0, some node gets 0, and compensation plus cumulative latency is the same for every node |
| MuzaiRouter.Router.CalculateLatencyCompensation | src/MuzaiCore/subsystems/router.py:232-264 | the cache holds, for every node, a non-negative compensation aligning all paths to the slowest, with 0 for some node |
| MuzaiRouter.Router.ProcessingOrder | src/MuzaiCore/subsystems/router.py:122-147 | a topological order listing every node once; an empty graph changes nothing; without a pending recalculation the cache stays; with one the flag clears and the cache becomes the compensation: one non-negative entry per node, entry plus cumulative latency the same for every node, and some node at 0 |
| MuzaiRouter.NewPortsKeepUnique | src/MuzaiCore/subsystems/router.py:212-218 | appending a connection that passed the duplicate scan keeps connections duplicate-free and port pairs unique |
| History.Execute | src/echos/core/history/command_base.py:44-65 | an already executed command is returned unchanged with success; otherwise success iff the new state is EXECUTED, and a failure leaves FAILED with an error recorded |
| History.Undo | src/echos/core/history/command_base.py:67-88 | a command not in EXECUTED fails and changes nothing; a success moves EXECUTED to UNDONE; a failed undo stays EXECUTED with an error recorded |
| History.DoExecute | src/echos/core/history/commands/editing_commands.py:15-17 | each kind's `_do_execute` keeps the document well formed and keeps the command's kind |
| History.DoUndo | src/echos/core/history/command_manager.py:42-50 | each kind's `_do_undo` keeps the document well formed, and a macro's undo always reports success |
| History.MacroExecute | src/echos/core/history/command_manager.py:24-40 | a macro run succeeds with every subcommand EXECUTED, or fails with the subcommands before the failing one rolled back |
| History.UndoAllReversed | src/echos/core/history/command_manager.py:42-50 | the macro undo tries every executed subcommand, the last first, and leaves the others as they were |
| History.SecondFails | src/echos/core/history/command_manager.py:28-36 | when the second of two subcommands fails, the first is undone on the document the failure left, and the macro fails |
| History.SecondFailsBatch | src/echos/core/history/command_manager.py:28-36 | the same rollback, stated for the run over the subcommand list |
| History.MacroFailureRollsBack | src/echos/core/history/command_manager.py:28-36 | a parameter change followed by an adding of no notes: the macro fails, the change is undone and the parameter is back |
| History.MacroUndoRunsBackwards | src/echos/core/history/command_manager.py:42-50 | undoing a two-step macro undoes both steps, the later first, and restores the parameter |
| History.SetParameterRoundTrip | src/echos/core/history/commands/editing_commands.py:9-21 | setting a parameter stores the new value, and undo restores the value captured when the command was made |
| History.SetThenUndoParams | src/echos/core/history/commands/editing_commands.py:13-21 | the undo restores the captured value on any document holding the set value |
| History.Merge | src/echos/core/history/commands/editing_commands.py:23-29 | the merged change keeps the first old value and takes the later target value and description |
| History.CanMergeSameParameter | src/echos/core/history/commands/editing_commands.py:23-25 | two changes merge iff they set the same parameter: the relation is symmetric and every parameter change merges with itself |
| History.MergedChangeActsAsOne | src/echos/core/history/commands/editing_commands.py:23-29 | with the second change run before it is merged, as the corrected manager does, one undo restores the original document and one redo reaches the final value |
| History.CompletedMergeKeepsOldValue | src/echos/core/history/command_manager.py:103-111 | a merge that completes without running the second change leaves the parameter at the first target while the merged entry names the second; the second target is reached only by undo and redo |
| History.MergeAsWritten | src/echos/core/history/commands/editing_commands.py:27-29 | as written the target value is overwritten and then the description assignment raises, so the merge fails with a half-updated command |
| History.MergeAsWrittenRedoSkipsValue | src/echos/core/history/command_manager.py:103-116 | as written, after the failed merge and separate execution, two undos and a redo set the second target, not the first |
| History.CreateMidiClipRoundTrip | src/echos/core/history/commands/editing_commands.py:52-61 | creating a clip with a fresh id adds it to the track, and undo removes that id and restores the document |
| History.CreateMidiClipExecutes | src/echos/core/history/commands/editing_commands.py:52-56 | execution stores the clip under its id, replacing a clip with that id |
| History.CreateMidiClipUndoes | src/echos/core/history/commands/editing_commands.py:58-61 | undo after a fresh-id creation succeeds and gives back the document before it |
| History.GrowsIffNew | src/echos/core/history/commands/editing_commands.py:74-78 | the note set grows iff some note to add was not there |
| History.AddNotesSucceedsIffNew | src/echos/core/history/commands/editing_commands.py:74-78 | adding notes succeeds iff one of them is new to the clip |
| History.EmptyAddFails | src/echos/core/history/commands/editing_commands.py:74-78 | adding no notes fails and leaves the command FAILED |
| History.AddNotesRoundTrip | src/echos/core/history/commands/editing_commands.py:74-85 | a successful addition followed by its undo restores the clip's notes exactly |
| History.UndoAddNotesAsWritten | src/echos/core/history/commands/editing_commands.py:80-85 | as written, undo removes every listed note from the clip |
| History.AddNotesUndoAsWrittenLosesNote | src/echos/core/history/commands/editing_commands.py:80-85 | as written, a listed note that was already in the clip is lost by the undo |
| CommandManager.NewMacro | src/echos/core/history/command_manager.py:9-12 | a new macro is recording, in state CREATED, with no subcommands |
| CommandManager.AddToMacro | src/echos/core/history/command_manager.py:14-18 | adding to a recording macro appends the command and changes nothing else |
| CommandManager.Pushed | src/echos/core/history/command_manager.py:118-128 | pushing appends the command and drops the oldest entry when the stack grows past the limit |
| CommandManager.Manager.constructor | src/echos/core/history/command_manager.py:64-80 | a new manager has empty stacks, no macro and zero counters |
| CommandManager.Manager.ExecuteCommand | src/echos/core/history/command_manager.py:82-128 | inside a macro the command runs and joins the macro; a mergeable change runs and is then merged into the top entry (corrected; see Findings: the source's completed merge returns without running it); otherwise a success is pushed within the history limit and clears redo, and a failure changes no stack |
| CommandManager.Manager.ExecuteCommandAsWritten | src/echos/core/history/command_manager.py:102-128 | as written the failed merge leaves the top entry's target overwritten and the command is also pushed on its own |
| CommandManager.Manager.Undo | src/echos/core/history/command_manager.py:130-150 | an empty stack or an open macro changes nothing; otherwise the top is undone and moves to redo on success, or goes back on failure |
| CommandManager.Manager.Redo | src/echos/core/history/command_manager.py:152-172 | the mirror of undo: the top of redo is executed and moves to undo on success, or goes back on failure |
| CommandManager.Manager.BeginMacro | src/echos/core/history/command_manager.py:174-184 | a new macro opens and an open one is saved as its parent |
| CommandManager.Manager.EndMacro | src/echos/core/history/command_manager.py:186-211 | a nested macro joins its parent; a top-level one is pushed as executed within the history limit and clears redo; with no macro nothing changes |
| CommandManager.Manager.EndMacroAsWritten | src/echos/core/history/command_manager.py:186-211 | as written the pushed macro is still CREATED and the push ignores the history limit |
| CommandManager.UnfinishedMacroUndoKeepsChanges | src/echos/core/history/command_base.py:67-73 | a macro left in CREATED cannot be undone, so its subcommands' changes stay |
| CommandManager.Manager.CancelMacro | src/echos/core/history/command_manager.py:213-229 | the open macro's subcommands are undone, the last first, and its parent (if any) becomes current |
| CommandManager.Manager.CancelMacroAsWritten | src/echos/core/history/command_manager.py:213-229 | as written the macro's undo is refused (it is not EXECUTED), so the document keeps every change |
| CommandManager.Manager.CanUndo | src/echos/core/history/command_manager.py:254-257 | true iff the undo stack is non-empty and no macro is open |
| CommandManager.Manager.CanRedo | src/echos/core/history/command_manager.py:259-262 | true iff the redo stack is non-empty and no macro is open |
| CommandManager.Manager.Clear | src/echos/core/history/command_manager.py:264-271 | both stacks, the current macro and the macro stack are emptied |
| NodeCommands.Project.constructor | src/MuzaiCore/core/project.py:164-178 | a new project has no nodes, an empty graph and a timeline at 120 BPM |
| NodeCommands.Project.GetNode | src/MuzaiCore/core/project.py:172-174 | a node is found iff its id is registered, and it is the registered node |
| NodeCommands.Project.AddNode | src/MuzaiCore/core/project.py:164-166 | a known id changes nothing; a new node is registered and added to the graph without touching connections |
| NodeCommands.Project.RemoveNode | src/MuzaiCore/core/project.py:168-170 | the node leaves the registry, and the router drops it with exactly its connections |
| NodeCommands.CreateNode.constructor | src/MuzaiCore/core/history/commands/all_commands.py:16-20 | a new command has not run |
| NodeCommands.CreateNode.Execute | src/MuzaiCore/core/history/commands/all_commands.py:22-33 | refused iff it already ran; otherwise a new node is registered and joins the graph (a known one changes nothing) |
| NodeCommands.CreateNode.Undo | src/MuzaiCore/core/history/commands/all_commands.py:35-46 | refused iff it has not run; otherwise the node leaves the registry and the graph with its connections |
| NodeCommands.CreateThenUndo | src/MuzaiCore/core/history/commands/all_commands.py:22-46 | creating a new node and undoing it gives back the registry, the graph's nodes and its connections |
| NodeCommands.DeleteNode.constructor | src/MuzaiCore/core/history/commands/all_commands.py:64-69 | a new command has not run and saved nothing |
| NodeCommands.DeleteNode.Execute | src/MuzaiCore/core/history/commands/all_commands.py:71-94 | succeeds iff it has not run and the node exists; it saves the node and its input then output connections and removes them; every old connection is kept or saved |
| NodeCommands.DeleteNode.Undo | src/MuzaiCore/core/history/commands/all_commands.py:96-113 | succeeds iff it ran and saved a node; the node is back and the saved connections are reconnected, giving exactly the connections before the deletion |
| NodeCommands.Reconnect | src/MuzaiCore/core/history/commands/all_commands.py:105-106 | reconnecting the saved list adds only saved connections, and all of them when they came from a valid router |
| NodeCommands.ReconnectOne | src/MuzaiCore/core/history/commands/all_commands.py:106 | each `connect` adds at most its connection, and adds it when the restore is valid |
| NodeCommands.DeletionRestorable | src/MuzaiCore/core/history/commands/all_commands.py:81-88 | the saved connections and the kept ones together are the old connections, and reconnecting them in order passes every check of `connect` |
| NodeCommands.RestoreStep | src/MuzaiCore/subsystems/router.py:63-94 | each saved connection, re-added after the previous ones, passes validation and closes no cycle |
| NodeCommands.DeleteThenUndo | src/MuzaiCore/core/history/commands/all_commands.py:71-113 | deleting an existing node and undoing it gives back the registry, the graph's nodes and the same set of connections |
| NodeCommands.RenameNode.constructor | src/MuzaiCore/core/history/commands/all_commands.py:131-136 | a new rename has not run and saved no name |
| NodeCommands.RenameNode.Execute | src/MuzaiCore/core/history/commands/all_commands.py:138-153 | succeeds iff it has not run and the node exists; it saves the old name (`Unknown` when absent) and sets the new one |
| NodeCommands.RenameNode.Undo | src/MuzaiCore/core/history/commands/all_commands.py:155-169 | succeeds iff it ran and the node exists; the saved name is put back |
| NodeCommands.RenameNode.MergeWith | src/MuzaiCore/core/history/commands/all_commands.py:171-181 | succeeds iff the other rename targets the same node, this one ran and the other has not; it then takes the other's new name and keeps the saved old name |
| NodeCommands.RenameNode.CanMergeWith | src/MuzaiCore/core/history/commands/all_commands.py:171-175 | a rename never merges with itself, since only one that has run accepts one that has not |
| NodeCommands.RenameRoundTrip | src/MuzaiCore/core/history/commands/all_commands.py:146-163 | rename then undo restores a named node exactly; an unnamed node comes back named `Unknown` |
| NodeCommands.RemoveInsert.constructor | src/MuzaiCore/core/history/commands/all_commands.py:262-269 | a new command has not run and saved no plugin or index |
| NodeCommands.RemoveInsert.Execute | src/MuzaiCore/core/history/commands/all_commands.py:271-295 | refused after a run or without a mixer channel; a listed plugin is saved with its index and removed; an unlisted one is refused unless a plugin was saved earlier |
| NodeCommands.RemoveInsert.Undo | src/MuzaiCore/core/history/commands/all_commands.py:297-313 | succeeds iff it ran with a saved plugin and the node has a mixer channel; the plugin is re-inserted at its saved index |
| NodeCommands.LastHolder | src/MuzaiCore/core/history/commands/all_commands.py:517-522 | the clip search settles on the last node holding the clip id, or none when no node holds it |
| NodeCommands.AddNotes.FindClip | src/MuzaiCore/core/history/commands/all_commands.py:516-522 | the search loop finds that node, and keeps an earlier find when none holds the clip |
| NodeCommands.AddEach | src/MuzaiCore/core/history/commands/all_commands.py:528-529 | adding the notes one by one gives the old set plus every listed note |
| NodeCommands.AddToClip | src/MuzaiCore/core/history/commands/all_commands.py:528-529 | the clip's notes gain the listed notes, and the notes actually added are recorded |
| NodeCommands.AddNotes.constructor | src/MuzaiCore/core/history/commands/all_commands.py:505-510 | a new command has not run and has found no clip |
| NodeCommands.AddNotes.Execute | src/MuzaiCore/core/history/commands/all_commands.py:512-536 | refused after a run; succeeds iff a clip is found; the clip then holds its notes plus the listed ones, and the newly added notes are recorded |
| NodeCommands.AddNotes.Undo | src/MuzaiCore/core/history/commands/all_commands.py:538-551 | succeeds iff it ran with a clip; the notes it added are removed and notes already there stay (corrected; see Findings) |
| NodeCommands.AddNotesRoundTrip | src/MuzaiCore/core/history/commands/all_commands.py:528-544 | removing the recorded additions gives back the notes before the command |
| NodeCommands.DiscardListed | src/MuzaiCore/core/history/commands/all_commands.py:543-544 | as written, undo keeps exactly the notes not listed |
| NodeCommands.AddNotesUndoAsWrittenLosesNote | src/MuzaiCore/core/history/commands/all_commands.py:543-544 | as written, a listed note that was already in the clip disappears on undo |
| NodeCommands.AddNotes.MergeWith | src/MuzaiCore/core/history/commands/all_commands.py:553-563 | succeeds iff the other targets the same clip, this one ran and the other has not; the other's notes are appended |
| NodeCommands.AddNotes.CanMergeWith | src/MuzaiCore/core/history/commands/all_commands.py:553-557 | an add-notes command never merges with itself, since only one that has run accepts one that has not |
| NodeCommands.SetTempo.constructor | src/MuzaiCore/core/history/commands/all_commands.py:578-582 | a new command has not run and saved no tempo |
| NodeCommands.SetTempo.Execute | src/MuzaiCore/core/history/commands/all_commands.py:584-596 | refused iff it already ran; otherwise it saves the current tempo and the beat-0 tempo becomes the new one (corrected; see Findings) |
| NodeCommands.SetTempo.Undo | src/MuzaiCore/core/history/commands/all_commands.py:598-609 | refused iff it has not run; otherwise the beat-0 tempo is the saved one |
| NodeCommands.SetTempo.MergeWith | src/MuzaiCore/core/history/commands/all_commands.py:611-620 | succeeds iff this one ran and the other has not; it takes the other's tempo and keeps the saved one |
| NodeCommands.SetTempo.CanMergeWith | src/MuzaiCore/core/history/commands/all_commands.py:611-614 | a tempo change never merges with itself, since only one that has run accepts one that has not |
| NodeCommands.TempoRoundTrip | src/MuzaiCore/core/history/commands/all_commands.py:588-603 | setting the beat-0 tempo and restoring the saved one gives back the tempo events |
| EchosTimeline.MapError | src/echos/core/timeline.py:199-214 | a map raises no error iff it is non-empty, starts at beat 0 and never goes back in beat |
| EchosTimeline.ValidateState | src/echos/core/timeline.py:199-214 | a state passes iff both maps are well formed, and a bad tempo map is reported before the time-signature map |
| EchosTimeline.NeighboursOrderedIff | src/echos/core/timeline.py:203-205 | the neighbour check the code runs holds iff every pair of events is in beat order |
| EchosTimeline.AddOrUpdateWellFormed | src/echos/core/timeline.py:47-53 | replacing or inserting an event at a non-negative beat keeps a well-formed map well formed and keeps every event at another beat |
| EchosTimeline.InsertOrdered | src/echos/core/timeline.py:48-53 | inserting at the search position keeps the map in beat order |
| EchosTimeline.WithoutBeat | src/echos/core/timeline.py:85 | the filtered map holds exactly the events at other beats |
| EchosTimeline.WithoutBeatWellFormed | src/echos/core/timeline.py:79-88 | removing a positive beat keeps the map well formed and keeps its beat-0 event |
| EchosTimeline.EventAt | src/echos/core/timeline.py:168-183 | the event in force at a beat is the last one at or before it on an ordered map, and the first event before the map starts (corrected; see Findings) |
| EchosTimeline.SignatureAt | src/echos/core/timeline.py:173-183 | with no event the signature is 4/4 from beat 0; otherwise the event in force |
| EchosTimeline.TempoAtAsWritten | src/echos/core/timeline.py:168-171 | as written the lookup reads index -1, the last event, when nothing is at or before the beat |
| EchosTimeline.TempoAtAsWrittenFromStart | src/echos/core/timeline.py:168-171 | from the first event's beat on, the lookup as written agrees with the event in force |
| EchosTimeline.TempoAtAsWrittenBeforeStart | src/echos/core/timeline.py:168-171 | with 120 BPM at beat 0 and 90 BPM at beat 8, the lookup as written at beat -1 gives the beat-8 event where the first is meant |
| EchosTimeline.WalkTempoSegments | src/echos/core/timeline.py:117-130 | the segment loop gives the seconds of walking the relevant events, each segment at its start tempo |
| EchosTimeline.RelevantOrdered | src/echos/core/timeline.py:111-115 | the relevant events of a well-formed map are ordered, start at beat 0 and end at the target |
| EchosTimeline.WalkIsElapsed | src/echos/core/timeline.py:117-130 | on a sorted list the walk equals the elapsed time of the MuzaiCore conversion |
| EchosTimeline.SecondsAgree | src/echos/core/timeline.py:103-130 | on a sorted map starting at beat 0, the echos and MuzaiCore conversions give the same seconds for every target |
| EchosTimeline.FourBeatsTwoSeconds | src/echos/core/timeline.py:103-130 | at a constant 120 BPM, 4 beats are 2 seconds |
| EchosTimeline.SecondsRoundTrip | src/echos/core/timeline.py:103-166 | with positive tempos, converting a beat to seconds and back gives the beat |
| EchosTimeline.Timeline.constructor | src/echos/core/timeline.py:10-18 | an empty list is replaced by the default 120 BPM or 4/4 from beat 0 |
| EchosTimeline.Timeline.SetState | src/echos/core/timeline.py:33-39 | an invalid state is refused with its validation error and changes nothing; a valid one replaces both maps and the old state is returned |
| EchosTimeline.Timeline.SetTempo | src/echos/core/timeline.py:41-55 | a negative beat or non-positive bpm changes nothing; otherwise the event at that beat is replaced or inserted in beat order and the result goes through validation, which an accepted timeline always passes |
| EchosTimeline.Timeline.SetTimeSignature | src/echos/core/timeline.py:57-77 | the same policy, also ignoring a non-positive numerator or denominator |
| EchosTimeline.Timeline.RemoveTempo | src/echos/core/timeline.py:79-88 | a beat at or below 0, or one with no event, changes nothing; otherwise the events at that beat go, and the beat-0 tempo always survives |
| EchosTimeline.Timeline.RemoveTimeSignature | src/echos/core/timeline.py:90-101 | the same for the time-signature map |
| EchosTimeline.Timeline.TempoAtBeat | src/echos/core/timeline.py:168-171 | on an accepted timeline, the tempo at a beat is the last event at or before it |
| EchosTimeline.Timeline.TimeSignatureAtBeat | src/echos/core/timeline.py:173-183 | on an accepted timeline, the time signature at a beat is the last event at or before it |
| EchosTimeline.Timeline.BeatsToSeconds | src/echos/core/timeline.py:103-130 | a negative target gives 0; on an accepted timeline the result is the segment-by-segment seconds to the target |
| EchosTimeline.Timeline.SecondsToBeats | src/echos/core/timeline.py:132-166 | a negative target gives 0; with positive tempos the result is the beat reached after that many seconds |
| MuzaiTimeline.SortedOrdered | src/MuzaiCore/core/timeline.py:65-77 | a map with strictly increasing beats is in beat order |
| MuzaiTimeline.FirstAtOrAfter | src/MuzaiCore/core/timeline.py:71 | the search position keyed on the beat: every event before it is earlier, the event at it is not |
| MuzaiTimeline.AddOrUpdate | src/MuzaiCore/core/timeline.py:65-77 | the new event is in the result, the length grows by at most one, and nothing else is added (corrected; see Findings) |
| MuzaiTimeline.AddOrUpdateSorted | src/MuzaiCore/core/timeline.py:65-77 | on a sorted map the result is sorted, holds exactly the new event and the events at other beats, and keeps the first beat when the new event is not earlier |
| MuzaiTimeline.ReplaceSorted | src/MuzaiCore/core/timeline.py:72-74 | replacing the event at the same beat keeps the map sorted and drops only the replaced event |
| MuzaiTimeline.InsertSorted | src/MuzaiCore/core/timeline.py:75-77 | inserting at the search position of a new beat keeps the map sorted and loses no event |
| MuzaiTimeline.CountAtOrBefore | src/MuzaiCore/core/timeline.py:120-121 | the right search position keyed on the beat: the leading events at or before the beat, and no further |
| MuzaiTimeline.ActiveIndex | src/MuzaiCore/core/timeline.py:116-125 | on a sorted map starting at or before the beat, the index is the last event at or before it |
| MuzaiTimeline.ActiveTempoInForce | src/MuzaiCore/core/timeline.py:116-125 | on a sorted map, from the first event's beat on, the bpm of the last event at or before the beat; before it, the first event's bpm |
| MuzaiTimeline.SetThenActive | src/MuzaiCore/core/timeline.py:79-90 | after setting a tempo at a beat, that tempo is the one active at the beat |
| MuzaiTimeline.FirstIsActiveAtStart | src/MuzaiCore/core/timeline.py:46-49 | the beat-0 event is the tempo active at beat 0 |
| MuzaiTimeline.AtOrBefore | src/MuzaiCore/core/timeline.py:147-149 | the kept events are at most the whole map and start with the first event when it is at or before the target |
| MuzaiTimeline.ElapsedSomeIff | src/MuzaiCore/core/timeline.py:157-168 | the segment walk is defined iff no segment starts at bpm 0, where the division would raise |
| MuzaiTimeline.WalkSegments | src/MuzaiCore/core/timeline.py:142-180 | the segment loop returns the elapsed seconds over the relevant events, or the division error |
| MuzaiTimeline.ElapsedIsCumulative | src/MuzaiCore/core/timeline.py:157-168 | with positive tempos, the walk up to event k is the running total of the segments before it |
| MuzaiTimeline.CumulativeIncreasing | src/MuzaiCore/core/timeline.py:157-168 | with positive tempos, the seconds at which the events start strictly increase |
| MuzaiTimeline.WalkLandsOnTarget | src/MuzaiCore/core/timeline.py:199-228 | walking seconds forward from any earlier event reaches exactly the beat those seconds came from |
| MuzaiTimeline.BeatsSecondsRoundTrip | src/MuzaiCore/core/timeline.py:135-230 | with positive tempos, converting a non-negative beat to seconds and back gives the beat |
| MuzaiTimeline.FourBeatsAt120 | src/MuzaiCore/core/timeline.py:135-180 | at 120 BPM, 4 beats are 2 seconds |
| MuzaiTimeline.ConstantTempoSeconds | src/MuzaiCore/core/timeline.py:135-180 | with one tempo event, the seconds are beats times 60 over the bpm |
| MuzaiTimeline.Timeline.constructor | src/MuzaiCore/core/timeline.py:32-44 | both maps start with a single event at beat 0 holding the given tempo and time signature |
| MuzaiTimeline.Timeline.Tempo | src/MuzaiCore/core/timeline.py:46-49 | the beat-0 tempo is the tempo active at beat 0 |
| MuzaiTimeline.Timeline.TimeSignature | src/MuzaiCore/core/timeline.py:55-59 | the result is the time signature of the beat-0 event |
| MuzaiTimeline.Timeline.SetTempoAtBeat | src/MuzaiCore/core/timeline.py:79-90 | a negative beat changes nothing; otherwise the event is added or replaced, the map stays sorted from beat 0, and the tempo is active at that beat (corrected; see Findings) |
| MuzaiTimeline.Timeline.SetTempo | src/MuzaiCore/core/timeline.py:51-53 | the beat-0 event is replaced in place and becomes the tempo (corrected; see Findings) |
| MuzaiTimeline.Timeline.SetTimeSignatureAtBeat | src/MuzaiCore/core/timeline.py:92-106 | a negative beat changes nothing; otherwise the event is added or replaced and the map stays sorted from beat 0 |
| MuzaiTimeline.Timeline.SetTimeSignature | src/MuzaiCore/core/timeline.py:61-63 | the beat-0 event of the signature map is replaced in place, nothing else changes, and the new signature is the one at beat 0 |
| MuzaiTimeline.Timeline.ActiveTempoAt | src/MuzaiCore/core/timeline.py:116-125 | for a non-negative beat, the result is the bpm of the last event at or before it |
| MuzaiTimeline.Timeline.BeatsToSeconds | src/MuzaiCore/core/timeline.py:135-180 | a negative target gives 0; otherwise the seconds of the segment walk, or the zero-bpm division error |
| MuzaiTimeline.Timeline.SecondsToBeats | src/MuzaiCore/core/timeline.py:182-230 | a negative target gives 0; with positive tempos, the beat reached after that many seconds |
| MuzaiTimeline.WalkSeconds | src/MuzaiCore/core/timeline.py:189-230 | the loop over the tempo segments, with an endless last segment, gives the beat reached after the seconds |
| MuzaiTimeline.TimelineRoundTrip | src/MuzaiCore/core/timeline.py:135-230 | on a timeline with positive tempos, beats to seconds and back gives the beat |
| MuzaiTimeline.TempoMap.constructor | src/MuzaiCore/core/timeline.py:12-13 | the map starts at the given tempo |
| MuzaiTimeline.TempoMap.SetConstantTempo | src/MuzaiCore/core/timeline.py:15-18 | a non-positive bpm is refused with "BPM must be positive." and changes nothing; otherwise it becomes the tempo |
| MuzaiTimeline.TempoMap.BeatsToSeconds | src/MuzaiCore/core/timeline.py:20-21 | defined exactly when the tempo is non-zero |
| MuzaiTimeline.TempoMap.SecondsToBeats | src/MuzaiCore/core/timeline.py:23-24 | with a non-zero tempo, converting the result back to seconds gives the input |
| MuzaiTimeline.TempoMapRoundTrip | src/MuzaiCore/core/timeline.py:20-24 | with a non-zero tempo the two conversions undo each other both ways |
| MuzaiTimeline.BisectLeftAsWritten | src/MuzaiCore/core/timeline.py:71 | as written the search compares whole events, beat then bpm, assuming `TempoEvent` orders as a `(beat, bpm)` tuple |
| MuzaiTimeline.AddOrUpdateAsWritten | src/MuzaiCore/core/timeline.py:65-77 | as written the new event is added and nothing else, but the result may hold two events at one beat |
| MuzaiTimeline.AddOrUpdateAsWrittenDuplicatesBeat | src/MuzaiCore/core/timeline.py:65-77 | setting 140 BPM at beat 0 over 120 BPM as written leaves two events at beat 0, so the map is no longer strictly sorted, with 120 still first |
| MuzaiTimeline.BisectRightAsWritten | src/MuzaiCore/core/timeline.py:120-121 | as written the right search compares whole events, with bpm 0 as the probe, under the same tuple-ordering assumption |
| MuzaiTimeline.ActiveTempoAsWritten | src/MuzaiCore/core/timeline.py:116-125 | as written the result is the bpm of some event of the map |
| MuzaiTimeline.ActiveTempoAsWrittenMissesEventAtBeat | src/MuzaiCore/core/timeline.py:116-125 | as written, with 120 at beat 0 and 90 at beat 4, beat 4 reads 120 and beat 0 reads 90; the corrected lookup gives 90 and 120 |
| Parameter.Clamp | src/MuzaiCore/core/parameter.py:241-247 | the result is the value or a set bound; with consistent bounds it lies within them, and a value already within them is kept |
| Parameter.ClampIdempotent | src/MuzaiCore/core/parameter.py:241-247 | clamping twice is clamping once |
| Parameter.InsertByBeat | src/MuzaiCore/core/parameter.py:204-205 | appending then sorting adds exactly the new point to the lane |
| Parameter.InsertByBeatSorted | src/MuzaiCore/core/parameter.py:204-205 | a lane sorted by beat stays sorted |
| Parameter.InsertByBeatStable | src/MuzaiCore/core/parameter.py:204-205 | the stable sort puts the new point after every point at or before its beat and keeps the others in place on each side |
| Parameter.FirstSegment | src/MuzaiCore/core/parameter.py:263-267 | a found segment is a consecutive pair whose beats enclose the beat |
| Parameter.SegmentFound | src/MuzaiCore/core/parameter.py:259-267 | on a sorted lane, a beat strictly before the last point always finds a segment |
| Parameter.InterpolateInside | src/MuzaiCore/core/parameter.py:249-283 | strictly between the first and last point the value is that of an enclosing segment, so the base-value fall-through is never reached |
| Parameter.LinearBetween | src/MuzaiCore/core/parameter.py:268-272 | a linear segment's value lies between its two points' values |
| Parameter.StepHolds | src/MuzaiCore/core/parameter.py:280-281 | a segment of any other curve holds its left point's value |
| Parameter.LinearReachesEnd | src/MuzaiCore/core/parameter.py:268-272 | a linear segment reaches its right point's value at its end |
| Parameter.InterpolateAutomation | src/MuzaiCore/core/parameter.py:249-283 | the loop returns the first and last values outside the lane, the enclosing segment's value inside, and the base value for an empty lane |
| Parameter.BatchUpdater.constructor | src/MuzaiCore/core/parameter.py:23-30 | the updater starts with nothing pending |
| Parameter.BatchUpdater.QueueChange | src/MuzaiCore/core/parameter.py:56-59 | the change is stored under its node and parameter, replacing an earlier pending value while keeping the key's first position |
| Parameter.BatchUpdater.FlushNow | src/MuzaiCore/core/parameter.py:61-75 | pending changes are cleared and one ParameterChanged per key is published in insertion order with its latest value |
| Parameter.QueueKeepsLatest | src/MuzaiCore/core/parameter.py:56-59 | queueing two values for one key leaves only the second |
| Parameter.Parameter.constructor | src/MuzaiCore/core/parameter.py:92-110 | the value starts at the default, the lane is empty and enabled, and immediate mode is off |
| Parameter.Parameter.SetValue | src/MuzaiCore/core/parameter.py:150-185 | the clamped value is stored; an unchanged value publishes nothing; a mounted change is published at once in immediate mode or else queued on the updater, and an unmounted one is neither |
| Parameter.Parameter.ResetToDefault | src/MuzaiCore/core/parameter.py:237-239 | the value becomes the clamped default, published immediately iff mounted and changed |
| Parameter.Parameter.GetValueAt | src/MuzaiCore/core/parameter.py:187-192 | a disabled or empty lane gives the base value, otherwise the interpolated value at the beat |
| Parameter.Parameter.AddAutomationPoint | src/MuzaiCore/core/parameter.py:194-205 | the point, with its value clamped, is inserted after the points at or before its beat, and the lane stays sorted |
| Parameter.Parameter.RemoveAutomationPointAt | src/MuzaiCore/core/parameter.py:207-215 | true iff some point lies within the tolerance; then exactly the first such point is removed, otherwise the lane is unchanged |
| Parameter.Parameter.ClearAutomation | src/MuzaiCore/core/parameter.py:217-219 | the lane becomes empty |
| Parameter.Parameter.EnableAutomation | src/MuzaiCore/core/parameter.py:221-223 | the lane's enabled flag is set as given |
| Parameter.Parameter.SetImmediateMode | src/MuzaiCore/core/parameter.py:225-231 | immediate mode is switched on or off as given |
| EventBus.SubscribeOrder | src/MuzaiCore/core/event_bus.py:26-34 | a new handler is delivered last among its type's handlers, before the catch-all ones; subscribing to the catch-all type appends it to every other type's delivery |
| EventBus.UnsubscribeUnknown | src/MuzaiCore/core/event_bus.py:39-48 | unsubscribing a handler that is not registered changes no delivery |
| EventBus.UnsubscribeOne | src/MuzaiCore/core/event_bus.py:39-48 | unsubscribing removes one occurrence of the handler from its type and leaves every other type alone |
| EventBus.SubscribeUnsubscribe | src/MuzaiCore/core/event_bus.py:26-48 | subscribing a new handler and then unsubscribing it restores every delivery |
| EventBus.RegisteredAfterSubscribeAll | src/MuzaiCore/core/event_bus.py:26-34 | a run of subscriptions appends, per type, its handlers in order |
| EventBus.RegisteredAfterUnsubscribeAll | src/MuzaiCore/core/event_bus.py:39-48 | a run of unsubscriptions removes, per type, one occurrence of each of its handlers in order |
| EventBus.SubscribeUnsubscribeAll | src/MuzaiCore/core/event_bus.py:26-48 | subscribing new handlers and then unsubscribing the same pairs restores each type's handlers |
| EventBus.Deliver | src/MuzaiCore/core/event_bus.py:61-67 | every handler is called in order, and a failing one is logged without stopping the rest |
| EventBus.Bus.constructor | src/MuzaiCore/core/event_bus.py:21-23 | the bus starts with no subscriptions |
| EventBus.Bus.Subscribe | src/MuzaiCore/core/event_bus.py:26-34 | the handler is appended to its type's list |
| EventBus.Bus.Unsubscribe | src/MuzaiCore/core/event_bus.py:39-48 | the first occurrence of the handler is removed from its type's list; an unknown type or handler changes nothing |
| EventBus.Bus.Publish | src/MuzaiCore/core/event_bus.py:50-77 | the event's own handlers are called, then the catch-all handlers unless the event is of the catch-all type; failures are collected in the same order |
| EventBus.Bus.Clear | src/MuzaiCore/core/event_bus.py:79-81 | no subscription is left, so no event reaches any handler |
| MessageQueue.Queue.constructor | src/MuzaiCore/backends/common/message_queue.py:19-20 | the queue starts empty |
| MessageQueue.Queue.Push | src/MuzaiCore/backends/common/message_queue.py:22-32 | the message joins the back of the queue |
| MessageQueue.Queue.Drain | src/MuzaiCore/backends/common/message_queue.py:34-46 | every pending message is handled in push order and the queue is left empty |
| MessageQueue.PushPushDrain | src/MuzaiCore/backends/common/message_queue.py:22-46 | two pushed messages are drained first in, first out |
| SyncController.Translate | src/echos/backends/pedalboard/sync_controller.py:100-177 | each posting handler yields one message naming the event's ids in order; exactly the project, note, tempo and time-signature events post nothing; only plugin-enabled and parameter events go real-time; the bypass flag negates the enabled flag; a clip removal posts the remaining clips |
| SyncController.HandleAsWritten | src/echos/backends/pedalboard/sync_controller.py:132-167 | as written the insert-removed, insert-moved, plugin-enabled and clip-removed handlers raise on a missing attribute or argument; every other handler posts the translated message, if any |
| SyncController.InsertRemovedAsWritten | src/echos/backends/pedalboard/sync_controller.py:132-135 | an insert removal raises on its missing plugin_id where RemovePlugin of its owner and plugin is meant |
| SyncController.HandlersForIn | src/echos/backends/pedalboard/sync_controller.py:33-61 | a handler is listed for a type iff that pair is subscribed |
| SyncController.HandlersForNone | src/echos/backends/pedalboard/sync_controller.py:65-95 | a type no pair names gets no handler |
| SyncController.HandlersForOne | src/echos/backends/pedalboard/sync_controller.py:33-61 | a type named by exactly one pair gets exactly that handler |
| SyncController.KeptAfterUnsubscribing | src/echos/backends/pedalboard/sync_controller.py:33-95 | a handler subscribed once and never reached by the unsubscriptions stays registered after them |
| SyncController.TimelineStateSkipped | src/echos/backends/pedalboard/sync_controller.py:54-89 | the timeline-state handler is mounted once and never unsubscribed before the unmount raises |
| SyncController.ClipAddedSkipped | src/echos/backends/pedalboard/sync_controller.py:57-89 | the clip-added handler is mounted once and never unsubscribed before the unmount raises |
| SyncController.NoteRemovedSkipped | src/echos/backends/pedalboard/sync_controller.py:61-89 | the notes-removed handler is mounted once and never unsubscribed before the unmount raises |
| SyncController.UnmountAsWrittenLeavesHandlers | src/echos/backends/pedalboard/sync_controller.py:65-95 | after mounting and the unmount as written, the timeline-state, clip-added and notes-removed handlers are still subscribed |
| SyncController.TimelineStateKept | src/echos/backends/pedalboard/sync_controller.py:54-89 | after the unmount as written, the timeline-state handler is still subscribed |
| SyncController.ClipAddedKept | src/echos/backends/pedalboard/sync_controller.py:57-89 | after the unmount as written, the clip-added handler is still subscribed |
| SyncController.NoteRemovedKept | src/echos/backends/pedalboard/sync_controller.py:61-89 | after the unmount as written, the notes-removed handler is still subscribed |
| SyncController.MountHandlersOwn | src/echos/backends/pedalboard/sync_controller.py:33-61 | every mounted handler is one of the controller's own |
| SyncController.RestoredAfterUnsubscribing | src/MuzaiCore/core/event_bus.py:26-48 | unsubscribing the same pairs that were subscribed restores a type's handlers when none was there before |
| SyncController.UnmountRestores | src/echos/backends/pedalboard/sync_controller.py:33-97 | with the corrected unmount, a bus holding only other handlers gets every type's handlers back after mount and unmount |
| SyncController.Controller.constructor | src/echos/backends/pedalboard/sync_controller.py:17-19 | the controller keeps its engine's queues and starts unmounted |
| SyncController.Controller.PostCommand | src/echos/backends/pedalboard/sync_controller.py:24-31 | with an engine, a real-time message joins the real-time queue and any other the non-real-time one; without one it is dropped |
| SyncController.Controller.OnEvent | src/echos/backends/pedalboard/sync_controller.py:100-177 | the event's translated message, if any, is posted to the queue its kind belongs to |
| SyncController.Controller.Mount | src/echos/backends/pedalboard/sync_controller.py:33-61 | the bus is remembered and the sixteen handlers are subscribed in order |
| SyncController.Controller.UnmountAsWritten | src/echos/backends/pedalboard/sync_controller.py:65-89 | without a bus nothing happens; otherwise the first eleven handlers are unsubscribed, then the missing tempo handler raises and the bus stays remembered |
| SyncController.Controller.Unmount | src/echos/backends/pedalboard/sync_controller.py:65-97 | exactly the mounted pairs are unsubscribed and the bus is forgotten |
| SyncController.SubscribeAllSnoc | src/MuzaiCore/core/event_bus.py:26-34 | subscribing one more pair after a run is one more subscription |
| SyncController.UnsubscribeAllSnoc | src/MuzaiCore/core/event_bus.py:39-48 | unsubscribing one more pair after a run is one more unsubscription |
| SyncController.SubscribeEach | src/echos/backends/pedalboard/sync_controller.py:36-61 | the bus ends with every pair subscribed in order |
| SyncController.UnsubscribeEach | src/echos/backends/pedalboard/sync_controller.py:71-95 | the bus ends with every pair unsubscribed in order |
| EffectNodes.ClipPan | src/echos/backends/pedalboard/nodes.py:130-131 | the pan lies in [-1, 1]: a value inside is kept, a value outside goes to the nearer end |
| EffectNodes.EffectIndex | src/echos/backends/pedalboard/nodes.py:265-268 | the effect position is the index less one when an instrument is set, and 0 when that falls below 0 |
| EffectNodes.AddThenRemoveChain | src/echos/backends/pedalboard/nodes.py:67-102 | adding a new plugin at any index and then removing it gives the chain back |
| EffectNodes.MoveKeepsPlugins | src/echos/backends/pedalboard/nodes.py:104-115 | moving a plugin keeps the same plugins and puts it at the position the insert resolves |
| EffectNodes.RecordFresh | src/echos/backends/pedalboard/nodes.py:81 | recording a fresh id for an unreferenced plugin keeps ids and plugins one to one and references one more plugin |
| EffectNodes.ForgetOne | src/echos/backends/pedalboard/nodes.py:92 | popping an id keeps the map one to one and references one plugin fewer |
| EffectNodes.RemovalAgrees | src/echos/backends/pedalboard/nodes.py:279-303 | after a removal the map references exactly the remaining chain and instrument slot |
| EffectNodes.MultisetElems | src/echos/backends/pedalboard/nodes.py:104-115 | a chain with the same plugins as another, counted with repetition, has the same set of plugins |
| EffectNodes.EffectNode.constructor | src/echos/backends/pedalboard/nodes.py:27-36 | the node starts with an empty chain and map, no instrument, volume 1, pan 0 and unmuted |
| EffectNodes.EffectNode.AddPlugin | src/echos/backends/pedalboard/nodes.py:67-84 | a known id changes nothing; a new one is inserted at the index, appended past the end, and recorded; the chain and map stay consistent |
| EffectNodes.EffectNode.AddInstrumentTrackPluginAsWritten | src/echos/backends/pedalboard/nodes.py:245-277 | as written a known id changes nothing; an instrument fills the slot; an effect goes to the shifted index; the map never changes |
| EffectNodes.EffectNode.AddInstrumentTrackPlugin | src/echos/backends/pedalboard/nodes.py:245-277 | as intended the same placement, and the new id is recorded so it can later be removed, keeping the node consistent |
| EffectNodes.EffectNode.RemovePlugin | src/echos/backends/pedalboard/nodes.py:86-102 | an unknown id changes nothing; otherwise the id is popped and its plugin leaves the instrument slot or the chain, and consistency is kept |
| EffectNodes.EffectNode.MovePlugin | src/echos/backends/pedalboard/nodes.py:104-118 | an unknown id changes nothing; a known plugin missing from the chain raises; otherwise it is removed and reinserted at the index, and the chain keeps the same plugins |
| EffectNodes.EffectNode.SetMixParameter | src/echos/backends/pedalboard/nodes.py:127-133 | volume is the gain for the decibel value above -96 dB and 0 otherwise, pan is clipped to [-1, 1], muted is the value's truth, and the other fields keep their values |
| EffectNodes.InstrumentTrackEffectStays | src/echos/backends/pedalboard/nodes.py:245-303 | an effect added to an instrument track as written cannot be removed, and moving it does nothing, because its id is not in the map |
| Track.Values | src/echos/core/track.py:49 | the dict's values, one per key, in insertion order |
| Track.ValuesOf | src/echos/core/track.py:49 | the values of the listed keys, position by position |
| Track.SortByStart | src/echos/core/track.py:49 | the same clips, counted with repetition, ordered by start beat |
| Track.InsertBeforeEqual | src/echos/core/track.py:49 | one step of the stable sort adds exactly the one clip |
| Track.InsertSorted | src/echos/core/track.py:49 | that step keeps a list ordered by start beat |
| Track.ValuesByClipId | src/echos/core/track.py:18-49 | with every clip stored under its own id, a clip is among the values iff it is the clip stored under its id |
| Track.Track.constructor | src/echos/core/track.py:14-18 | a track starts with its name and no clips |
| Track.Track.Clips | src/echos/core/track.py:47-49 | every stored clip exactly once, and nothing else, ordered by start beat |
| Track.Track.SetName | src/echos/core/track.py:63-68 | the same name changes nothing and returns nothing; another name is stored and the old one returned |
| Track.Track.AddClip | src/echos/core/track.py:70-72 | the clip is stored under its id, replacing any clip with that id, and no other id appears or disappears |
| Track.Track.RemoveClip | src/echos/core/track.py:79-88 | true iff the id was present; afterwards it is absent and the rest keep their order |
| Track.AddThenRemove | src/echos/core/track.py:70-88 | adding a clip under a new id and removing it restores the clips, order included |
| Track.PutThenRemove | src/echos/core/track.py:72-81 | storing under a new key and popping it gives the map back |
| ClassBundler.EdgesOfIn | src/class_bundler.py:157-160 | a class's counted edges are exactly those from its dependencies that are keys |
| ClassBundler.EdgesAllIn | src/class_bundler.py:156-160 | an edge is counted iff its target is a key depending on its source and its source is a key |
| ClassBundler.UnknownIgnored | src/class_bundler.py:157-158 | a dependency that is not a key adds nothing: the edges are those of the list with unknown classes filtered out |
| ClassBundler.EdgesBetweenKeys | src/class_bundler.py:152-160 | every counted edge joins two keys of the graph |
| ClassBundler.RespectsDependencies | src/class_bundler.py:162-172 | an order respecting every counted edge lists each in-graph dependency before the class depending on it |
| ClassBundler.CountDependencies | src/class_bundler.py:152-160 | the counting loop meets exactly the counted edges, key by key and dependency by dependency |
| ClassBundler.MissingSome | src/class_bundler.py:174-176 | a duplicate-free list of keys shorter than the key list misses some key, so a reported cycle is never empty |
| ClassBundler.TopologicalSort | src/class_bundler.py:150-179 | success iff the counted dependencies have no cycle; then every key exactly once, each after its in-graph dependencies; otherwise the non-empty set of keys the order misses, which holds every class on a dependency cycle, and in which every class depends on another class of the set |
| Tools.NumberOf | src/MuzaiCore/agent/tools.py:134-135 | a value passes as a number iff it is a boolean, an integer or a float, since Python counts a bool as an int |
| Tools.AddIfRanked | src/MuzaiCore/agent/tools.py:39-51 | each optional key is added after every key before it, so the schema keeps its key order |
| Tools.AddIfLookup | src/MuzaiCore/agent/tools.py:41-51 | an optional key is present, with its value, exactly when its condition holds |
| Tools.ToJsonSchema | src/MuzaiCore/agent/tools.py:37-53 | the schema holds the type and the description plus exactly one entry for each optional field that is set |
| Tools.AbsentBelow | src/MuzaiCore/agent/tools.py:39-51 | a key ranked after every key of the schema built so far is not yet in it |
| Tools.RankedDistinct | src/MuzaiCore/agent/tools.py:39-51 | a schema built in key order has no duplicate keys |
| Tools.SchemaOpens | src/MuzaiCore/agent/tools.py:39 | the schema starts with its type and its description |
| Tools.SchemaDistinct | src/MuzaiCore/agent/tools.py:37-53 | no key occurs twice in a parameter's schema |
| Tools.SchemaEnum | src/MuzaiCore/agent/tools.py:41-42 | the choices are present iff the parameter has a non-empty list of them |
| Tools.SchemaMinimum | src/MuzaiCore/agent/tools.py:44-45 | the minimum is present iff one is set, with that value |
| Tools.SchemaMaximum | src/MuzaiCore/agent/tools.py:47-48 | the maximum is present iff one is set, with that value |
| Tools.SchemaPattern | src/MuzaiCore/agent/tools.py:50-51 | the pattern is present iff a non-empty one is set |
| Tools.Properties | src/MuzaiCore/agent/tools.py:74-78 | the properties form a well-formed insertion-ordered dict |
| Tools.RequiredNamesIn | src/MuzaiCore/agent/tools.py:79-80 | a name is listed as required iff some required parameter has it |
| Tools.RequiredNamesCount | src/MuzaiCore/agent/tools.py:79-80 | one name is listed per required parameter |
| Tools.PropertiesHold | src/MuzaiCore/agent/tools.py:77-78 | the last parameter with a name gives that name's schema |
| Tools.PropertiesOnlyParameters | src/MuzaiCore/agent/tools.py:77-78 | every property belongs to some parameter |
| Tools.ToOpenAIFunction | src/MuzaiCore/agent/tools.py:67-90 | the function keeps the tool's name and description, with the parameters' schemas as properties and the required names in order |
| Tools.Check | src/MuzaiCore/agent/tools.py:126-157 | a parameter passes iff the arguments satisfy it, and a failure names the parameter |
| Tools.MissingFails | src/MuzaiCore/agent/tools.py:127-128 | a missing required parameter is reported as missing |
| Tools.WrongTypeFails | src/MuzaiCore/agent/tools.py:134-145 | a value of the wrong type for a number, string, boolean or array parameter is reported as such |
| Tools.OutOfRangeFails | src/MuzaiCore/agent/tools.py:148-157 | a number below the minimum, or else above the maximum, is reported with the bound; a value in range but outside the choices is reported with the choices |
| Tools.BooleanIsNumber | src/MuzaiCore/agent/tools.py:134-150 | true passes a number parameter with minimum 1, as Python compares it as 1 |
| Tools.ValidateFirst | src/MuzaiCore/agent/tools.py:125-159 | validation passes iff every parameter passes, and otherwise reports the first failing parameter's error |
| Tools.FirstMissingReported | src/MuzaiCore/agent/tools.py:125-128 | a missing required parameter after passing ones is the error reported |
| Tools.ExtraIgnored | src/MuzaiCore/agent/tools.py:125-159 | an argument that names no parameter does not change validation |
| Tools.ValidateParameters | src/MuzaiCore/agent/tools.py:117-159 | the loop returns the validation error and is valid iff there is none |
| Tools.Execute | src/MuzaiCore/agent/tools.py:161-184 | invalid arguments give the validation error; the function is called iff the arguments are valid and one is set; its response is returned, a raise becomes an execution failure, and no function gives "not implemented" |

## Left out

- Audio processing: `process_block`, node `process` methods, the volume curve, pan gains and the exponential automation curve are numeric DSP. `SetMixParameter` and `SegmentValue` take the decibel-to-gain map and `**` as function parameters.
- Console output, statistics, profiling, DOT export and debug printing are I/O.
- `TempoEvent` and `TimeSignatureEvent` in MuzaiCore are defined in models/timeline_model.py, which is not part of this model. `MuzaiTimeline.BisectLeftAsWritten` and `MuzaiTimeline.BisectRightAsWritten` assume that an event compares as a `(beat, bpm)` tuple, as a dataclass with `order=True` or a named tuple does. The first two Findings rows depend on that assumption.
- Threads and locks: the batch updater's flush thread and the queue's thread safety. Flushing is modelled as an explicit call, and the queue as a sequential FIFO.
- Mounting and event publication by the routers, tracks and the timeline (`is_mounted` / `publish`). Only the event bus itself, the parameter's publication and the sync controller's subscriptions are modelled.
- Floating-point numbers are modelled as `real`: rounding, `inf` and NaN are not represented. `beats_to_samples` and `samples_to_beats` (MuzaiCore timeline.py:232-262) are left out for the same reason.
- `PedalboardRenderGraph` latency reporting (`_update_node_latency`, `get_total_latency`), `set_parameter`, `move_plugin_in_node` and the clip forwarding methods are left out. They delegate to nodes, whose chain edits are modelled in `EffectNodes`. Also left out: MuzaiCore `freeze_node`, `optimize_processing_order` and `find_node_by_plugin_instance`.
- The echos router's `connect` calls `_would_create_cycle`, which router.py does not define; `ILifecycleAware` (src/echos/interfaces/system/ilifecycle.py) is not part of this model. The check is modelled as reachability from the destination to the source, the same test the render graph uses.
- The echos router's `remove_node` passes two `Port` objects to `disconnect`, which expects node ids; router_model.py, which defines them, is not part of this model. `EchosRouter.Router.RemoveNode` models the evident intent: every connection touching the node is removed.
- The echos render graph's `_would_create_cycle` is a depth-first search. It is modelled as reachability from the destination to the source. The two agree because the graph is kept acyclic.
- The MuzaiCore commands are modelled over the subsystem router (src/MuzaiCore/subsystems/router.py), whose `disconnect` takes node ids as all_commands.py:362 passes them. The project itself imports src/MuzaiCore/core/router.py (project.py:15, 39), and that router is not part of this model. As written, `Router()` there is called without the `event_bus` its constructor requires (core/router.py:16), so building a project raises a `TypeError`. It also has no `get_outputs_for_node`, which the delete command calls (all_commands.py:83). Its `connect` (core/router.py:70-94) checks only that both nodes exist, that the destination is an input and that the port pair is new: no port type, channel, self-loop or cycle check.
- The MuzaiCore project delegates node storage to its router (project.py:164-178). The model keeps a node registry beside the subsystem router and proves that the two stay in step.
- MuzaiCore `RemoveInsertPluginCommand` relies on the mixer channel's `remove_insert`. src/MuzaiCore/core/mixer.py declares it only through the interface (imixer_channel.py:64) and does not implement it. `NodeCommands.RemoveInsert` models it as removing the first insert with that id.
- MuzaiCore `AddInsertPluginCommand`, `CreateConnectionCommand`, `CreateSendCommand` and `CreateClipCommand` are left out; the node, insert-removal, note and tempo commands stand for the pattern.
- The echos `SyncController` needs two event fields that the event classes lack: the owner node of a plugin-enabled change, and the clips remaining after a clip removal. The model adds them to its `Event` datatype; the handlers as written raise without them (see Findings).
- The echos event bus is not part of this model. The sync controller is mounted on the MuzaiCore `EventBus`.
- `EventBus.Bus.Publish`: handlers are opaque values, and what they do is left out. A handler's failure is given as a predicate, and publishing returns the handlers called and those that failed.
- `MessageQueue.Queue.Drain` returns the drained messages in order rather than calling a handler on each.
- `ClassBundler.TopologicalSort` reports a cycle as the set of unsorted class names. The sorted list and the error message text are left out.
- `Tools`: `to_anthropic_tool` (tools.py:92-115) builds the same properties and required list as `to_openai_function` under another key, and is left out. Validation errors are a datatype naming the parameter and the failed check, not message text. The `pattern` is exported but, as in the source, never checked.
- The MuzaiCore time-signature lookup `_get_active_time_signature_at_beat` (timeline.py:127-133) has no member of its own; it is the generic `MuzaiTimeline.ActiveIndex` applied to the time-signature map.
- Parameter change callbacks (parameter.py:166-171) run arbitrary code and are left out; so are `ParameterGroup` and `VCAParameter`.
- `Parameter.Parameter.GetValueAt` takes the current beat rather than a transport context.
- Command descriptions, ids and histories as strings (`get_undo_history`, `get_statistics`) are left out.
- Node, plugin and clip objects are reduced to the fields the core reads: ids, kinds, plugin ids, clip ids with start beats and note sets.
- Commands are values rather than shared objects. A command held on two stacks at once would alias in Python; the model has no aliasing.
- `CommandManager.Manager.ExecuteCommand`: in the source a merge that completes returns without running the command (command_manager.py:103-111). The model runs the command and then merges it, which is the corrected behaviour of the Findings table; `History.CompletedMergeKeepsOldValue` states what the branch as written would leave.

## Findings

| source | as written | input that shows it | evidently intended | confidence | as-written member | corrected member |
|---|---|---|---|---|---|---|
| src/MuzaiCore/core/timeline.py:71-77 | assuming `TempoEvent` orders as a `(beat, bpm)` tuple (its definition, models/timeline_model.py, is not part of this model), `bisect_left` compares whole events, so an event at an existing beat with a higher bpm is placed after it and then inserted | tempo map `[(0, 120)]`, `set_tempo(140)`: the map becomes `[(0, 120), (0, 140)]`, and the tempo still reads 120 | replace the event at the same beat, so there is at most one event per beat | not executed | MuzaiTimeline.AddOrUpdateAsWrittenDuplicatesBeat | MuzaiTimeline.AddOrUpdateSorted |
| src/MuzaiCore/core/timeline.py:120-125 | under the same tuple-ordering assumption, `bisect_right` probes with `(beat, 0.0)`, which sorts before an event at that very beat, and index `-1` wraps to the last event | map `[(0, 120), (4, 90)]`: beat 4 reads 120 and beat 0 reads 90 | the last event at or before the beat: 90 at beat 4, 120 at beat 0 | not executed | MuzaiTimeline.ActiveTempoAsWrittenMissesEventAtBeat | MuzaiTimeline.Timeline.ActiveTempoAt |
| src/echos/backends/pedalboard/nodes.py:245-277 | `InstrumentTrackNode.add_plugin` never records the instance id in `plugin_instance_map` | add effect `fx` to an instrument track, then `remove_plugin("fx")`: "not found", and the effect stays in the chain | record the id as `BaseEffectNode.add_plugin` does, so it can be removed and moved | not executed | EffectNodes.InstrumentTrackEffectStays | EffectNodes.EffectNode.AddInstrumentTrackPlugin |
| src/echos/core/history/command_manager.py:186-229 | the subcommands of a macro run as they are recorded, but the macro itself is never executed, so it stays CREATED; `undo` and `cancel_macro_command` then refuse it | `begin_macro`, execute one command, `end_macro`, `undo`: the undo fails and the change stays | a finished macro counts as executed, so undo and cancel undo its subcommands, the last first | not executed | CommandManager.UnfinishedMacroUndoKeepsChanges | CommandManager.Manager.EndMacro |
| src/echos/core/history/command_manager.py:213-229 | cancelling calls `macro.undo()` on a CREATED macro, which is refused | `begin_macro`, execute one command, `cancel_macro`: the change stays | the recorded subcommands are undone | not executed | CommandManager.Manager.CancelMacroAsWritten | CommandManager.Manager.CancelMacro |
| src/echos/core/history/command_manager.py:205-208 | a top-level macro is pushed without the `max_history` trim that `execute_command` applies | `max_history` 1, one executed command, then one finished macro: the undo stack holds 2 entries | the same trim as `execute_command`, so the history never exceeds the limit | not executed | CommandManager.Manager.EndMacroAsWritten | CommandManager.Manager.EndMacro |
| src/MuzaiCore/subsystems/router.py:222-230 | the probe adds the edge (a no-op when it already exists) and then removes it | graph holding `a -> b`, probe `a -> b`: the graph ends empty | the graph is left exactly as found; `connect` adds the edge again, so the effect is not visible through `connect` | not executed | MuzaiRouter.ProbeCounterexample | MuzaiRouter.Router.WouldCreateCycle |
| src/echos/core/history/commands/editing_commands.py:27-29 | `merge_with` overwrites the target value, then assigns the read-only `description` and raises; the manager then also executes the command on its own | two changes of one parameter, 1 then 2, two undos and a redo: the redo sets 2 where 1 was the first step | the merge completes, so one undo restores the original (the corrected manager also runs the merged change; see the next row) | not executed | History.MergeAsWrittenRedoSkipsValue | History.MergedChangeActsAsOne |
| src/echos/core/history/command_manager.py:103-111 | after a merge that completes, `execute_command` returns without calling `command.execute()` | parameter at 0, set to 1, then a mergeable set to 2 whose merge does not raise: the parameter stays 1 while the undo entry reads "Set ... to 2" | run the merged change, so the parameter takes the newer value | not executed; latent while every echos `merge_with` raises (previous row) | History.CompletedMergeKeepsOldValue | CommandManager.Manager.ExecuteCommand |
| src/echos/core/history/commands/editing_commands.py:80-85 | undo removes every listed note, including notes that were in the clip before | clip holding `n`, add `{n, m}`: execute succeeds (`m` is new), and undo removes both | undo removes only the notes the command added | not executed | History.AddNotesUndoAsWrittenLosesNote | History.AddNotesRoundTrip |
| src/MuzaiCore/core/history/commands/all_commands.py:538-551 | undo discards every listed note from the clip, including notes that were there before | clip holding `n`, add `[n]`, undo: `n` is gone | undo removes only the notes the command added | not executed | NodeCommands.AddNotesUndoAsWrittenLosesNote | NodeCommands.AddNotesRoundTrip |
| src/echos/core/timeline.py:168-171 | `bisect_right(...) - 1` is `-1` for a beat before the first event, and Python reads the last event | tempos `[(0, 120), (8, 90)]`, `get_tempo_at_beat(-1)`: 90 | the first event's tempo, as the time-signature lookup does | not executed | EchosTimeline.TempoAtAsWrittenBeforeStart | EchosTimeline.EventAt |
| src/echos/backends/pedalboard/sync_controller.py:132-167 | the handlers read `event.plugin_id` and `event.remaining_clips`, which the events do not define, and build `SetPluginBypass` without its `owner_node_id` | an `InsertRemoved` event: the handler raises and no `RemovePlugin` is posted | post the message built from the event's fields | not executed | SyncController.InsertRemovedAsWritten | SyncController.Translate |
| src/echos/backends/pedalboard/sync_controller.py:89 | `_on_unmount` unsubscribes `self.on_tempo_changed`, which the controller does not define, and raises there | mount, then unmount: the timeline-state, clip-added and notes-removed handlers stay subscribed and the bus stays remembered | unsubscribe exactly what the mount subscribed and forget the bus | not executed | SyncController.UnmountAsWrittenLeavesHandlers | SyncController.UnmountRestores |
