/**
 * The sync controller between the project model and the audio engine: it
 * subscribes one handler per domain event type on the event bus, turns each
 * event into an engine message, and posts the message to the engine's
 * real-time or non-real-time queue (or drops it when there is no engine).
 * Clips, parameter values and timeline states are carried opaquely as `C`,
 * `V` and `S`; a connection is carried as the owner node ids of its ports.
 */
module SyncController {
  import opened Wrappers
  import opened EventBus
  import opened MessageQueue

  /** Domain events. */
  datatype Event<C, V, S> =
    | ProjectLoaded(timelineState: S)
    | ProjectClosed
    | NodeAdded(nodeId: string, nodeType: string)
    | NodeRemoved(nodeId: string)
    | ConnectionAdded(sourceNodeId: string, destNodeId: string)
    | ConnectionRemoved(sourceNodeId: string, destNodeId: string)
    | InsertAdded(ownerNodeId: string, pluginInstanceId: string, pluginUniqueId: string, index: int)
    | InsertRemoved(ownerNodeId: string, pluginInstanceId: string)
    | InsertMoved(ownerNodeId: string, pluginInstanceId: string, oldIndex: int, newIndex: int)
    /** Carries the owner node, which the bypass message needs. */
    | PluginEnabledChanged(ownerNodeId: string, pluginId: string, isEnabled: bool)
    | ParameterChanged(ownerNodeId: string, paramName: string, newValue: V)
    | TimelineStateChanged(timelineState: S)
    | TempoChanged
    | TimeSignatureChanged
    | ClipAdded(ownerTrackId: string, clip: C)
    /** Carries the clips left on the track, which the clip update message needs. */
    | ClipRemoved(ownerTrackId: string, clipId: string, remainingClips: seq<C>)
    | NoteAdded(ownerClipId: string)
    | NoteRemoved(ownerClipId: string)

  /** The engine messages the controller posts. */
  datatype Message<C, V, S> =
    | AddNode(nodeId: string, nodeType: string)
    | RemoveNode(nodeId: string)
    | AddConnection(sourceNodeId: string, destNodeId: string)
    | RemoveConnection(sourceNodeId: string, destNodeId: string)
    | AddPlugin(ownerNodeId: string, pluginInstanceId: string, pluginUniqueId: string, index: int)
    | RemovePlugin(ownerNodeId: string, pluginInstanceId: string)
    | MovePlugin(ownerNodeId: string, pluginInstanceId: string, oldIndex: int, newIndex: int)
    | SetPluginBypass(ownerNodeId: string, pluginInstanceId: string, isBypassed: bool)
    | SetParameter(ownerNodeId: string, parameterPath: string, value: V)
    | SetTimelineState(timelineState: S)
    | AddTrackClip(trackId: string, clip: C)
    | UpdateTrackClips(trackId: string, clips: seq<C>)

  /** Messages that go to the real-time queue; all others go to the non-real-time one. */
  predicate RealTime<C, V, S>(m: Message<C, V, S>) {
    m.SetPluginBypass? || m.SetParameter?
  }

  // ---------------------------------------------------------------------------
  // Translating events

  /**
   * The message each handler posts: ids are copied unchanged, the bypass flag
   * is the negation of the enabled flag, and a clip removal posts the clips
   * left on the track. Project, note, tempo and time-signature events post
   * nothing; every other event yields one message naming the same ids in the
   * same order, real-time exactly for plugin-enabled and parameter events.
   */
  function Translate<C, V, S>(e: Event<C, V, S>): (m: Option<Message<C, V, S>>)
    ensures m.Some? ==> MessageIds(m.value) == EventIds(e)
    ensures m.None? <==>
      e.ProjectLoaded? || e.ProjectClosed? || e.NoteAdded? || e.NoteRemoved? || e.TempoChanged? || e.TimeSignatureChanged?
    ensures m.Some? ==> (RealTime(m.value) <==> e.PluginEnabledChanged? || e.ParameterChanged?)
    ensures e.PluginEnabledChanged? ==> m.Some? && m.value.SetPluginBypass? && m.value.isBypassed == !e.isEnabled
    ensures e.ClipRemoved? ==> m.Some? && m.value.UpdateTrackClips? && m.value.clips == e.remainingClips
  {
    match e
    case NodeAdded(id, kind) => Some(AddNode(id, kind))
    case NodeRemoved(id) => Some(RemoveNode(id))
    case ConnectionAdded(src, dst) => Some(AddConnection(src, dst))
    case ConnectionRemoved(src, dst) => Some(RemoveConnection(src, dst))
    case InsertAdded(owner, inst, uid, index) => Some(AddPlugin(owner, inst, uid, index))
    case InsertRemoved(owner, inst) => Some(RemovePlugin(owner, inst))
    case InsertMoved(owner, inst, from, to) => Some(MovePlugin(owner, inst, from, to))
    case PluginEnabledChanged(owner, plugin, enabled) => Some(SetPluginBypass(owner, plugin, !enabled))
    case ParameterChanged(owner, name, value) => Some(SetParameter(owner, name, value))
    case TimelineStateChanged(state) => Some(SetTimelineState(state))
    case ClipAdded(track, clip) => Some(AddTrackClip(track, clip))
    case ClipRemoved(track, _, remaining) => Some(UpdateTrackClips(track, remaining))
    case _ => None
  }

  /** The node, plugin and track ids an event names, in field order. */
  function EventIds<C, V, S>(e: Event<C, V, S>): seq<string> {
    match e
    case NodeAdded(id, _) => [id]
    case NodeRemoved(id) => [id]
    case ConnectionAdded(src, dst) => [src, dst]
    case ConnectionRemoved(src, dst) => [src, dst]
    case InsertAdded(owner, inst, _, _) => [owner, inst]
    case InsertRemoved(owner, inst) => [owner, inst]
    case InsertMoved(owner, inst, _, _) => [owner, inst]
    case PluginEnabledChanged(owner, plugin, _) => [owner, plugin]
    case ParameterChanged(owner, _, _) => [owner]
    case ClipAdded(track, _) => [track]
    case ClipRemoved(track, _, _) => [track]
    case _ => []
  }

  /** The node, plugin and track ids a message names, in field order. */
  function MessageIds<C, V, S>(m: Message<C, V, S>): seq<string> {
    match m
    case AddNode(id, _) => [id]
    case RemoveNode(id) => [id]
    case AddConnection(src, dst) => [src, dst]
    case RemoveConnection(src, dst) => [src, dst]
    case AddPlugin(owner, inst, _, _) => [owner, inst]
    case RemovePlugin(owner, inst) => [owner, inst]
    case MovePlugin(owner, inst, _, _) => [owner, inst]
    case SetPluginBypass(owner, inst, _) => [owner, inst]
    case SetParameter(owner, _, _) => [owner]
    case SetTimelineState(_) => []
    case AddTrackClip(track, _) => [track]
    case UpdateTrackClips(track, _) => [track]
  }

  /** What a handler of the source does: posts a message, posts nothing, or raises for a missing attribute. */
  datatype Outcome<C, V, S> = Posts(message: Message<C, V, S>) | Quiet | Raises(attribute: string)

  /**
   * The handlers as written. The removed- and moved-insert handlers read a
   * `plugin_id` attribute the events do not have, the clip-removed handler
   * reads a `remaining_clips` attribute the event does not have, and the
   * plugin-enabled handler builds the bypass message without its owner node
   * id; those four raise and post nothing. The others post what `Translate`
   * gives.
   */
  function HandleAsWritten<C, V, S>(e: Event<C, V, S>): (o: Outcome<C, V, S>)
    ensures o.Raises? <==> e.InsertRemoved? || e.InsertMoved? || e.PluginEnabledChanged? || e.ClipRemoved?
    ensures !o.Raises? ==> (o.Posts? <==> Translate(e).Some?) && (o.Posts? ==> o.message == Translate(e).value)
  {
    match e
    case InsertRemoved(_, _) => Raises("plugin_id")
    case InsertMoved(_, _, _, _) => Raises("plugin_id")
    case PluginEnabledChanged(_, _, _) => Raises("owner_node_id")
    case ClipRemoved(_, _, _) => Raises("remaining_clips")
    case _ => if Translate(e).Some? then Posts(Translate(e).value) else Quiet
  }

  /** Removing an insert: the handler as written raises, while the corrected one posts the removal. */
  lemma InsertRemovedAsWritten()
    ensures var e: Event<int, int, int> := InsertRemoved("track-1", "plugin-1");
      HandleAsWritten(e) == Raises("plugin_id") && Translate(e) == Some(RemovePlugin("track-1", "plugin-1"))
  {
  }

  // ---------------------------------------------------------------------------
  // Subscriptions

  /** Event types as bus keys; `BaseEventType` is the base of all of them. */
  datatype Kind =
    | ProjectLoadedType | ProjectClosedType | NodeAddedType | NodeRemovedType
    | ConnectionAddedType | ConnectionRemovedType | InsertAddedType | InsertRemovedType
    | InsertMovedType | PluginEnabledChangedType | ParameterChangedType
    | TimelineStateChangedType | TempoChangedType | TimeSignatureChangedType
    | ClipAddedType | ClipRemovedType | NoteAddedType | NoteRemovedType | BaseEventType

  /** The controller's handler methods, and any other subscriber of the bus. */
  datatype Handler =
    | OnProjectLoaded | OnProjectClosed | OnNodeAdded | OnNodeRemoved
    | OnConnectionAdded | OnConnectionRemoved | OnInsertAdded | OnInsertRemoved
    | OnInsertMoved | OnPluginEnabledChanged | OnParameterChanged
    | OnTimelineStateChanged | OnTempoChanged | OnTimeSignatureChanged
    | OnClipAdded | OnClipRemoved | OnNotesAdded | OnNotesRemoved
    | Other(name: string)

  function KindOf<C, V, S>(e: Event<C, V, S>): Kind {
    match e
    case ProjectLoaded(_) => ProjectLoadedType
    case ProjectClosed => ProjectClosedType
    case NodeAdded(_, _) => NodeAddedType
    case NodeRemoved(_) => NodeRemovedType
    case ConnectionAdded(_, _) => ConnectionAddedType
    case ConnectionRemoved(_, _) => ConnectionRemovedType
    case InsertAdded(_, _, _, _) => InsertAddedType
    case InsertRemoved(_, _) => InsertRemovedType
    case InsertMoved(_, _, _, _) => InsertMovedType
    case PluginEnabledChanged(_, _, _) => PluginEnabledChangedType
    case ParameterChanged(_, _, _) => ParameterChangedType
    case TimelineStateChanged(_) => TimelineStateChangedType
    case TempoChanged => TempoChangedType
    case TimeSignatureChanged => TimeSignatureChangedType
    case ClipAdded(_, _) => ClipAddedType
    case ClipRemoved(_, _, _) => ClipRemovedType
    case NoteAdded(_) => NoteAddedType
    case NoteRemoved(_) => NoteRemovedType
  }

  /** The subscriptions `_on_mount` makes, in order. */
  const MountPairs: seq<(Kind, Handler)> := [
    (ProjectLoadedType, OnProjectLoaded), (ProjectClosedType, OnProjectClosed),
    (NodeAddedType, OnNodeAdded), (NodeRemovedType, OnNodeRemoved),
    (ConnectionAddedType, OnConnectionAdded), (ConnectionRemovedType, OnConnectionRemoved),
    (InsertAddedType, OnInsertAdded), (InsertRemovedType, OnInsertRemoved),
    (InsertMovedType, OnInsertMoved), (PluginEnabledChangedType, OnPluginEnabledChanged),
    (ParameterChangedType, OnParameterChanged), (TimelineStateChangedType, OnTimelineStateChanged),
    (ClipAddedType, OnClipAdded), (ClipRemovedType, OnClipRemoved),
    (NoteAddedType, OnNotesAdded), (NoteRemovedType, OnNotesRemoved)
  ]

  /**
   * The unsubscriptions `_on_unmount` reaches before it raises: the next
   * line names a tempo-changed handler the controller does not define.
   */
  const UnmountPairsReached: seq<(Kind, Handler)> := MountPairs[..11]

  /** Each (type, handler) pair's handler appears among the handlers for its type, and only there. */
  lemma {:induction false} HandlersForIn<T, H>(pairs: seq<(T, H)>, t: T, h: H)
    ensures h in HandlersFor(pairs, t) <==> (t, h) in pairs
    decreases pairs
  {
    if pairs != [] {
      HandlersForIn(pairs[1..], t, h);
      assert pairs == [pairs[0]] + pairs[1..];
    }
  }

  /** No pair names type `t`, so no handler is paired with it. */
  lemma {:induction false} HandlersForNone<T, H>(pairs: seq<(T, H)>, t: T)
    requires forall i :: 0 <= i < |pairs| ==> pairs[i].0 != t
    ensures HandlersFor(pairs, t) == []
    decreases pairs
  {
    if pairs != [] {
      HandlersForNone(pairs[1..], t);
    }
  }

  /** Exactly one pair names type `t`, so its handler is the only one paired with it. */
  lemma {:induction false} HandlersForOne<T, H>(pairs: seq<(T, H)>, t: T, j: nat)
    requires j < |pairs| && pairs[j].0 == t
    requires forall i :: 0 <= i < |pairs| && i != j ==> pairs[i].0 != t
    ensures HandlersFor(pairs, t) == [pairs[j].1]
    decreases pairs
  {
    if j == 0 {
      HandlersForNone(pairs[1..], t);
    } else {
      HandlersForOne(pairs[1..], t, j - 1);
    }
  }

  /**
   * A type named by exactly one subscribed pair and by no unsubscribed one
   * keeps that pair's handler after its earlier handlers.
   */
  lemma KeptAfterUnsubscribing<T, H>(s: map<T, seq<H>>, pairs: seq<(T, H)>, reached: seq<(T, H)>, t: T, j: nat)
    requires j < |pairs| && pairs[j].0 == t
    requires forall i :: 0 <= i < |pairs| && i != j ==> pairs[i].0 != t
    requires forall i :: 0 <= i < |reached| ==> reached[i].0 != t
    ensures Registered(UnsubscribeAll(SubscribeAll(s, pairs), reached), t) == Registered(s, t) + [pairs[j].1]
  {
    RegisteredAfterSubscribeAll(s, pairs, t);
    HandlersForOne(pairs, t, j);
    RegisteredAfterUnsubscribeAll(SubscribeAll(s, pairs), reached, t);
    HandlersForNone(reached, t);
  }

  lemma TimelineStateSkipped()
    ensures MountPairs[11] == (TimelineStateChangedType, OnTimelineStateChanged)
    ensures forall i :: 0 <= i < |MountPairs| && i != 11 ==> MountPairs[i].0 != TimelineStateChangedType
    ensures forall i :: 0 <= i < |UnmountPairsReached| ==> UnmountPairsReached[i].0 != TimelineStateChangedType
  {
  }

  lemma ClipAddedSkipped()
    ensures MountPairs[12] == (ClipAddedType, OnClipAdded)
    ensures forall i :: 0 <= i < |MountPairs| && i != 12 ==> MountPairs[i].0 != ClipAddedType
    ensures forall i :: 0 <= i < |UnmountPairsReached| ==> UnmountPairsReached[i].0 != ClipAddedType
  {
  }

  lemma NoteRemovedSkipped()
    ensures MountPairs[15] == (NoteRemovedType, OnNotesRemoved)
    ensures forall i :: 0 <= i < |MountPairs| && i != 15 ==> MountPairs[i].0 != NoteRemovedType
    ensures forall i :: 0 <= i < |UnmountPairsReached| ==> UnmountPairsReached[i].0 != NoteRemovedType
  {
  }

  /**
   * Mounting and then unmounting as written leaves the timeline-state, clip
   * and note handlers subscribed: the bus still calls them.
   */
  lemma UnmountAsWrittenLeavesHandlers(s: map<Kind, seq<Handler>>)
    ensures var after := UnsubscribeAll(SubscribeAll(s, MountPairs), UnmountPairsReached);
      && Registered(after, TimelineStateChangedType) == Registered(s, TimelineStateChangedType) + [OnTimelineStateChanged]
      && Registered(after, ClipAddedType) == Registered(s, ClipAddedType) + [OnClipAdded]
      && Registered(after, NoteRemovedType) == Registered(s, NoteRemovedType) + [OnNotesRemoved]
  {
    TimelineStateKept(s);
    ClipAddedKept(s);
    NoteRemovedKept(s);
  }

  lemma TimelineStateKept(s: map<Kind, seq<Handler>>)
    ensures Registered(UnsubscribeAll(SubscribeAll(s, MountPairs), UnmountPairsReached), TimelineStateChangedType)
      == Registered(s, TimelineStateChangedType) + [OnTimelineStateChanged]
  {
    TimelineStateSkipped();
    KeptAfterUnsubscribing(s, MountPairs, UnmountPairsReached, TimelineStateChangedType, 11);
  }

  lemma ClipAddedKept(s: map<Kind, seq<Handler>>)
    ensures Registered(UnsubscribeAll(SubscribeAll(s, MountPairs), UnmountPairsReached), ClipAddedType)
      == Registered(s, ClipAddedType) + [OnClipAdded]
  {
    ClipAddedSkipped();
    KeptAfterUnsubscribing(s, MountPairs, UnmountPairsReached, ClipAddedType, 12);
  }

  lemma NoteRemovedKept(s: map<Kind, seq<Handler>>)
    ensures Registered(UnsubscribeAll(SubscribeAll(s, MountPairs), UnmountPairsReached), NoteRemovedType)
      == Registered(s, NoteRemovedType) + [OnNotesRemoved]
  {
    NoteRemovedSkipped();
    KeptAfterUnsubscribing(s, MountPairs, UnmountPairsReached, NoteRemovedType, 15);
  }

  /** The mount subscribes only the controller's own handlers. */
  lemma MountHandlersOwn()
    ensures forall i :: 0 <= i < |MountPairs| ==> !MountPairs[i].1.Other?
  {
  }

  /** Unsubscribing the pairs just subscribed restores a type's list when none of their handlers was there. */
  lemma RestoredAfterUnsubscribing<T, H>(s: map<T, seq<H>>, pairs: seq<(T, H)>, t: T)
    requires forall i :: 0 <= i < |pairs| ==> pairs[i].1 !in Registered(s, t)
    ensures Registered(UnsubscribeAll(SubscribeAll(s, pairs), pairs), t) == Registered(s, t)
  {
    forall h | h in HandlersFor(pairs, t) ensures h !in Registered(s, t) {
      HandlersForIn(pairs, t, h);
    }
    SubscribeUnsubscribeAll(s, pairs, t);
  }

  /**
   * Unmounting with exactly the mount's pairs, as intended, restores every
   * type's handler list when none of the controller's handlers was
   * subscribed before.
   */
  lemma UnmountRestores(s: map<Kind, seq<Handler>>, t: Kind)
    requires forall k :: k in s ==> forall h :: h in s[k] ==> h.Other?
    ensures Registered(UnsubscribeAll(SubscribeAll(s, MountPairs), MountPairs), t) == Registered(s, t)
  {
    MountHandlersOwn();
    RestoredAfterUnsubscribing(s, MountPairs, t);
  }

  // ---------------------------------------------------------------------------
  // The controller

  class Controller<C, V, S> {
    /** Whether the engine is available. */
    const hasEngine: bool
    /** The engine's real-time and non-real-time message queues. */
    const realTime: Queue<Message<C, V, S>>
    const nonRealTime: Queue<Message<C, V, S>>
    /** The bus the controller is mounted on, if any. */
    var eventBus: Bus?<Kind, Handler>

    ghost predicate Valid()
      reads this
    {
      realTime != nonRealTime
    }

    constructor (hasEngine: bool, realTime: Queue<Message<C, V, S>>, nonRealTime: Queue<Message<C, V, S>>)
      requires realTime != nonRealTime
      ensures Valid() && eventBus == null
      ensures this.hasEngine == hasEngine && this.realTime == realTime && this.nonRealTime == nonRealTime
    {
      this.hasEngine := hasEngine;
      this.realTime := realTime;
      this.nonRealTime := nonRealTime;
      eventBus := null;
    }

    /**
     * `_post_command` together with the engine's `post_command`: real-time
     * messages to one queue, the rest to the other, and nothing at all
     * without an engine.
     */
    method PostCommand(m: Message<C, V, S>)
      requires Valid()
      modifies realTime, nonRealTime
      ensures realTime.pending == old(realTime.pending) + (if hasEngine && RealTime(m) then [m] else [])
      ensures nonRealTime.pending == old(nonRealTime.pending) + (if hasEngine && !RealTime(m) then [m] else [])
    {
      if hasEngine {
        if RealTime(m) {
          realTime.Push(m);
        } else {
          nonRealTime.Push(m);
        }
      }
    }

    /** The `on_*` handler for the event's type: posts the event's message, if it has one. */
    method OnEvent(e: Event<C, V, S>)
      requires Valid()
      modifies realTime, nonRealTime
      ensures var posted := if hasEngine && Translate(e).Some? then [Translate(e).value] else [];
        && realTime.pending == old(realTime.pending) + (if posted != [] && RealTime(posted[0]) then posted else [])
        && nonRealTime.pending == old(nonRealTime.pending) + (if posted != [] && !RealTime(posted[0]) then posted else [])
    {
      match Translate(e)
      case Some(m) => PostCommand(m);
      case None =>
    }

    /** `_on_mount`: remembers the bus and subscribes every handler to its event type. */
    method Mount(bus: Bus<Kind, Handler>)
      modifies this, bus
      ensures eventBus == bus
      ensures bus.subscribers == SubscribeAll(old(bus.subscribers), MountPairs)
    {
      eventBus := bus;
      SubscribeEach(bus, MountPairs);
    }

    /**
     * `_on_unmount` as written: without a bus it returns; otherwise it
     * unsubscribes the first eleven handlers and then raises, so the bus
     * stays remembered and the rest stay subscribed.
     */
    method UnmountAsWritten() returns (raised: Option<string>)
      modifies this`eventBus, eventBus
      ensures old(eventBus) == null ==> raised == None
      ensures old(eventBus) != null ==>
        && raised == Some("on_tempo_changed")
        && eventBus == old(eventBus)
        && eventBus.subscribers == UnsubscribeAll(old(eventBus.subscribers), UnmountPairsReached)
    {
      if eventBus == null {
        return None;
      }
      UnsubscribeEach(eventBus, UnmountPairsReached);
      return Some("on_tempo_changed");
    }

    /** `_on_unmount` as intended: unsubscribes exactly what the mount subscribed and forgets the bus. */
    method Unmount()
      modifies this`eventBus, eventBus
      ensures eventBus == null
      ensures old(eventBus) != null ==>
        old(eventBus).subscribers == UnsubscribeAll(old(eventBus.subscribers), MountPairs)
    {
      if eventBus == null {
        return;
      }
      UnsubscribeEach(eventBus, MountPairs);
      eventBus := null;
    }
  }

  lemma SubscribeAllSnoc<T, H>(s: map<T, seq<H>>, pairs: seq<(T, H)>, p: (T, H))
    ensures SubscribeAll(s, pairs + [p]) == Subscribed(SubscribeAll(s, pairs), p.0, p.1)
    decreases pairs
  {
    if pairs == [] {
      assert [p][1..] == [];
    } else {
      assert (pairs + [p])[1..] == pairs[1..] + [p];
      SubscribeAllSnoc(Subscribed(s, pairs[0].0, pairs[0].1), pairs[1..], p);
    }
  }

  lemma UnsubscribeAllSnoc<T, H>(s: map<T, seq<H>>, pairs: seq<(T, H)>, p: (T, H))
    ensures UnsubscribeAll(s, pairs + [p]) == Unsubscribed(UnsubscribeAll(s, pairs), p.0, p.1)
    decreases pairs
  {
    if pairs == [] {
      assert [p][1..] == [];
    } else {
      assert (pairs + [p])[1..] == pairs[1..] + [p];
      UnsubscribeAllSnoc(Unsubscribed(s, pairs[0].0, pairs[0].1), pairs[1..], p);
    }
  }

  /** Subscribes each pair in turn. */
  method SubscribeEach(bus: Bus<Kind, Handler>, pairs: seq<(Kind, Handler)>)
    modifies bus
    ensures bus.subscribers == SubscribeAll(old(bus.subscribers), pairs)
  {
    for i := 0 to |pairs|
      invariant bus.subscribers == SubscribeAll(old(bus.subscribers), pairs[..i])
    {
      SubscribeAllSnoc(old(bus.subscribers), pairs[..i], pairs[i]);
      assert pairs[..i + 1] == pairs[..i] + [pairs[i]];
      bus.Subscribe(pairs[i].0, pairs[i].1);
    }
    assert pairs[..|pairs|] == pairs;
  }

  /** Unsubscribes each pair in turn. */
  method UnsubscribeEach(bus: Bus<Kind, Handler>, pairs: seq<(Kind, Handler)>)
    modifies bus
    ensures bus.subscribers == UnsubscribeAll(old(bus.subscribers), pairs)
  {
    for i := 0 to |pairs|
      invariant bus.subscribers == UnsubscribeAll(old(bus.subscribers), pairs[..i])
    {
      UnsubscribeAllSnoc(old(bus.subscribers), pairs[..i], pairs[i]);
      assert pairs[..i + 1] == pairs[..i] + [pairs[i]];
      bus.Unsubscribe(pairs[i].0, pairs[i].1);
    }
    assert pairs[..|pairs|] == pairs;
  }
}
