/**
 * The audio nodes of the pedalboard backend as far as their bookkeeping
 * goes: the effect chain (`pedalboard`), the map from plugin instance ids to
 * plugin objects, the instrument slot of an instrument track, and the mix
 * parameters. Plugin objects are values of `P`, compared as the chain's
 * `remove` compares them; `isInstrument` says which are instruments.
 */
module EffectNodes {
  import opened Wrappers
  import opened Lists

  /** The set of plugin objects the map refers to. */
  function Referenced<P>(plugins: map<string, P>): set<P> {
    set id | id in plugins :: plugins[id]
  }

  /** No plugin object is registered under two ids. */
  ghost predicate Injective<P>(plugins: map<string, P>) {
    forall a, b :: a in plugins && b in plugins && a != b ==> plugins[a] != plugins[b]
  }

  /** `np.clip(value, -1.0, 1.0)`. */
  function ClipPan(value: real): (r: real)
    ensures -1.0 <= r <= 1.0
    ensures -1.0 <= value <= 1.0 ==> r == value
    ensures value < -1.0 ==> r == -1.0
    ensures value > 1.0 ==> r == 1.0
  {
    if value < -1.0 then -1.0 else if value > 1.0 then 1.0 else value
  }

  /**
   * Where an instrument track inserts an effect: one slot lower when an
   * instrument is set (the caller counts the instrument as slot 0), never
   * below the start of the chain.
   */
  function EffectIndex(index: int, hasInstrument: bool): (i: int)
    ensures i >= 0
    ensures i == index - (if hasInstrument then 1 else 0) || (i == 0 && index - (if hasInstrument then 1 else 0) < 0)
  {
    var shifted := index - (if hasInstrument then 1 else 0);
    if shifted < 0 then 0 else shifted
  }

  /** Adding a new plugin and removing it again leaves the chain as it was. */
  lemma AddThenRemoveChain<P>(chain: seq<P>, index: int, p: P)
    requires p !in chain
    ensures RemoveFirst(Insert(chain, index, p), p) == chain
  {
    InsertThenRemove(chain, index, p);
  }

  /** Taking a plugin out and putting it back in keeps the same plugins. */
  lemma RemoveThenInsertMultiset<P>(chain: seq<P>, p: P, newIndex: int)
    requires p in chain
    ensures multiset(Insert(RemoveFirst(chain, p), newIndex, p)) == multiset(chain)
  {
    RemoveFirstMultiset(chain, p);
    InsertMultiset(RemoveFirst(chain, p), newIndex, p);
    assert p in multiset(chain);
  }

  /** Moving a plugin that is in the chain keeps the chain's plugins, and puts it where asked. */
  lemma MoveKeepsPlugins<P>(chain: seq<P>, p: P, newIndex: int)
    requires p in chain
    ensures multiset(Insert(RemoveFirst(chain, p), newIndex, p)) == multiset(chain)
    ensures var r := Insert(RemoveFirst(chain, p), newIndex, p);
      r[ClampIndex(|chain| - 1, newIndex)] == p
  {
    var rest := RemoveFirst(chain, p);
    RemoveThenInsertMultiset(chain, p, newIndex);
    InsertAtClamp(rest, newIndex, p);
  }

  class EffectNode<P(==)> {
    const nodeId: string
    /** Whether this is an instrument track node, whose first plugin slot is the instrument. */
    const isInstrumentTrack: bool
    const isInstrument: P -> bool
    /** The effect chain, in processing order. */
    var chain: seq<P>
    /** `plugin_instance_map`. */
    var plugins: map<string, P>
    /** The instrument of an instrument track. */
    var instrument: Option<P>
    var volume: real
    var pan: real
    var muted: bool

    /**
     * The map and the plugins agree: each plugin object is in the chain or is
     * the instrument, exactly once, under exactly one id; an instrument track
     * keeps instruments out of its chain.
     */
    ghost predicate Consistent()
      reads this
    {
      && Distinct(chain)
      && Injective(plugins)
      && Referenced(plugins) == Elems(chain) + Slot(instrument)
      && (instrument.Some? ==> isInstrumentTrack && isInstrument(instrument.value) && instrument.value !in chain)
      && (isInstrumentTrack ==> forall x :: x in chain ==> !isInstrument(x))
    }

    constructor (nodeId: string, isInstrumentTrack: bool, isInstrument: P -> bool)
      ensures Consistent()
      ensures this.nodeId == nodeId && this.isInstrumentTrack == isInstrumentTrack && this.isInstrument == isInstrument
      ensures chain == [] && plugins == map[] && instrument == None
      ensures volume == 1.0 && pan == 0.0 && !muted
    {
      this.nodeId := nodeId;
      this.isInstrumentTrack := isInstrumentTrack;
      this.isInstrument := isInstrument;
      chain := [];
      plugins := map[];
      instrument := None;
      volume := 1.0;
      pan := 0.0;
      muted := false;
    }

    /**
     * `add_plugin` of an effect node: an id already in the map is ignored;
     * otherwise the plugin goes in at the index (appended past the end) and is
     * recorded under the id.
     */
    method AddPlugin(p: P, id: string, index: int)
      requires !isInstrumentTrack
      modifies this`chain, this`plugins
      ensures id in old(plugins) ==> chain == old(chain) && plugins == old(plugins)
      ensures id !in old(plugins) ==> chain == Insert(old(chain), index, p) && plugins == old(plugins)[id := p]
      ensures old(Consistent()) && p !in old(Referenced(plugins)) ==> Consistent()
    {
      if id in plugins {
        return;
      }
      ghost var before := plugins;
      if index >= |chain| {
        chain := chain + [p];
      } else {
        chain := Insert(chain, index, p);
      }
      plugins := plugins[id := p];
      if old(Consistent()) && p !in Referenced(before) {
        InsertDistinct(old(chain), index, p);
        RecordFresh(before, id, p);
      }
    }

    /**
     * `add_plugin` of an instrument track as written: an instrument replaces
     * the current one and an effect goes in at `EffectIndex`, but the plugin
     * is never recorded in the map.
     */
    method AddInstrumentTrackPluginAsWritten(p: P, id: string, index: int)
      requires isInstrumentTrack
      modifies this`chain, this`instrument
      ensures plugins == old(plugins)
      ensures id in plugins ==> chain == old(chain) && instrument == old(instrument)
      ensures id !in plugins && isInstrument(p) ==> instrument == Some(p) && chain == old(chain)
      ensures id !in plugins && !isInstrument(p) ==>
        instrument == old(instrument) && chain == Insert(old(chain), EffectIndex(index, old(instrument).Some?), p)
    {
      if id in plugins {
        return;
      }
      if isInstrument(p) {
        instrument := Some(p);
      } else {
        var actual := EffectIndex(index, instrument.Some?);
        if actual >= |chain| {
          chain := chain + [p];
        } else {
          chain := Insert(chain, actual, p);
        }
      }
    }

    /**
     * `add_plugin` of an instrument track as intended: as written, and the
     * plugin is recorded under its id.
     */
    method AddInstrumentTrackPlugin(p: P, id: string, index: int)
      requires isInstrumentTrack
      modifies this`chain, this`instrument, this`plugins
      ensures id in old(plugins) ==> chain == old(chain) && instrument == old(instrument) && plugins == old(plugins)
      ensures id !in old(plugins) ==> plugins == old(plugins)[id := p]
      ensures id !in old(plugins) && isInstrument(p) ==> instrument == Some(p) && chain == old(chain)
      ensures id !in old(plugins) && !isInstrument(p) ==>
        instrument == old(instrument) && chain == Insert(old(chain), EffectIndex(index, old(instrument).Some?), p)
      ensures old(Consistent()) && p !in old(Referenced(plugins)) && (isInstrument(p) ==> old(instrument).None?) ==> Consistent()
    {
      if id in plugins {
        return;
      }
      ghost var before := plugins;
      if isInstrument(p) {
        instrument := Some(p);
      } else {
        var actual := EffectIndex(index, instrument.Some?);
        if actual >= |chain| {
          chain := chain + [p];
        } else {
          chain := Insert(chain, actual, p);
        }
      }
      plugins := plugins[id := p];
      if old(Consistent()) && p !in Referenced(before) && (isInstrument(p) ==> old(instrument).None?) {
        if !isInstrument(p) {
          InsertDistinct(old(chain), EffectIndex(index, old(instrument).Some?), p);
        }
        RecordFresh(before, id, p);
      }
    }

    /**
     * `remove_plugin`: an unknown id is ignored; otherwise the id leaves the
     * map and its plugin leaves the instrument slot (an instrument on an
     * instrument track) or the chain.
     */
    method RemovePlugin(id: string)
      modifies this`chain, this`plugins, this`instrument
      ensures id !in old(plugins) ==> chain == old(chain) && plugins == old(plugins) && instrument == old(instrument)
      ensures id in old(plugins) ==> plugins == old(plugins) - {id}
      ensures id in old(plugins) && isInstrumentTrack && isInstrument(old(plugins)[id]) ==>
        instrument == None && chain == old(chain)
      ensures id in old(plugins) && !(isInstrumentTrack && isInstrument(old(plugins)[id])) ==>
        instrument == old(instrument) && chain == RemoveFirst(old(chain), old(plugins)[id])
      ensures old(Consistent()) ==> Consistent()
    {
      if id !in plugins {
        return;
      }
      var p := plugins[id];
      ghost var before := plugins;
      plugins := plugins - {id};
      if isInstrumentTrack && isInstrument(p) {
        instrument := None;
      } else {
        chain := RemoveFirst(chain, p);
      }
      if old(Consistent()) {
        assert p in Referenced(before);
        if isInstrumentTrack && isInstrument(p) {
          assert p !in old(chain);
        } else {
          RemoveFirstDistinct(old(chain), p);
        }
        RemovalAgrees(old(chain), old(instrument), before, id, isInstrumentTrack && isInstrument(p));
      }
    }

    /**
     * `move_plugin`: an unknown id is ignored; otherwise the plugin is taken
     * out of the chain and inserted at the new index. A plugin recorded in
     * the map but missing from the chain makes the removal raise, reported
     * as `raised`, and nothing changes.
     */
    method MovePlugin(id: string, newIndex: int) returns (raised: bool)
      modifies this`chain
      ensures raised <==> id in plugins && plugins[id] !in old(chain)
      ensures id !in plugins || raised ==> chain == old(chain)
      ensures id in plugins && !raised ==> chain == Insert(RemoveFirst(old(chain), plugins[id]), newIndex, plugins[id])
      ensures multiset(chain) == multiset(old(chain))
      ensures old(Consistent()) ==> Consistent()
    {
      if id !in plugins {
        return false;
      }
      var p := plugins[id];
      if p !in chain {
        return true;
      }
      RemoveFirstMultiset(chain, p);
      InsertMultiset(RemoveFirst(chain, p), newIndex, p);
      if Consistent() {
        RemoveFirstDistinct(chain, p);
        InsertDistinct(RemoveFirst(chain, p), newIndex, p);
      }
      chain := Insert(RemoveFirst(chain, p), newIndex, p);
      MultisetElems(old(chain), chain);
      return false;
    }

    /**
     * `set_mix_parameter`: volume from decibels through `dbToGain` (silent at
     * -96 dB and below), pan clipped to [-1, 1], muted as the truth of the
     * value (non-zero); any other name is ignored.
     */
    method SetMixParameter(name: string, value: real, dbToGain: real -> real)
      modifies this`volume, this`pan, this`muted
      ensures name == "volume" ==> volume == (if value > -96.0 then dbToGain(value / 20.0) else 0.0)
      ensures name == "pan" ==> pan == ClipPan(value) && -1.0 <= pan <= 1.0
      ensures name == "muted" ==> muted == (value != 0.0)
      ensures name != "volume" ==> volume == old(volume)
      ensures name != "pan" ==> pan == old(pan)
      ensures name != "muted" ==> muted == old(muted)
    {
      if name == "volume" {
        volume := if value > -96.0 then dbToGain(value / 20.0) else 0.0;
      } else if name == "pan" {
        pan := ClipPan(value);
      } else if name == "muted" {
        muted := value != 0.0;
      }
    }
  }

  /** Recording a plugin object not yet referenced keeps the map injective and adds it to the referenced set. */
  lemma RecordFresh<P>(plugins: map<string, P>, id: string, p: P)
    requires Injective(plugins) && id !in plugins && p !in Referenced(plugins)
    ensures Injective(plugins[id := p])
    ensures Referenced(plugins[id := p]) == Referenced(plugins) + {p}
  {
    var m := plugins[id := p];
    forall x | x in Referenced(m) ensures x in Referenced(plugins) + {p} {
      var k :| k in m && m[k] == x;
      if k != id {
        assert plugins[k] == x;
      }
    }
    forall x | x in Referenced(plugins) + {p} ensures x in Referenced(m) {
      if x != p {
        var k :| k in plugins && plugins[k] == x;
        assert m[k] == x;
      } else {
        assert m[id] == p;
      }
    }
  }

  /** Forgetting one id of an injective map drops exactly its plugin from the referenced set. */
  lemma ForgetOne<P>(plugins: map<string, P>, id: string)
    requires Injective(plugins) && id in plugins
    ensures Injective(plugins - {id})
    ensures Referenced(plugins - {id}) == Referenced(plugins) - {plugins[id]}
  {
    var m := plugins - {id};
    forall x | x in Referenced(plugins) - {plugins[id]} ensures x in Referenced(m) {
      var k :| k in plugins && plugins[k] == x;
      assert k != id;
      assert m[k] == x;
    }
  }

  function Slot<P>(instrument: Option<P>): set<P> {
    if instrument.Some? then {instrument.value} else {}
  }

  /**
   * Removing one id keeps the map in agreement with the plugins once its
   * plugin leaves the instrument slot (`fromSlot`) or the chain.
   */
  lemma RemovalAgrees<P>(chain: seq<P>, instrument: Option<P>, plugins: map<string, P>, id: string, fromSlot: bool)
    requires Distinct(chain) && Injective(plugins) && id in plugins
    requires Referenced(plugins) == Elems(chain) + Slot(instrument)
    requires instrument.Some? ==> instrument.value !in chain
    requires fromSlot ==> instrument == Some(plugins[id])
    requires !fromSlot ==> instrument != Some(plugins[id])
    ensures Injective(plugins - {id})
    ensures fromSlot ==> Referenced(plugins - {id}) == Elems(chain)
    ensures !fromSlot ==> Referenced(plugins - {id}) == Elems(RemoveFirst(chain, plugins[id])) + Slot(instrument)
  {
    ForgetOne(plugins, id);
    if !fromSlot {
      RemoveFirstDistinct(chain, plugins[id]);
    }
  }

  /** Lists with the same multiset hold the same elements. */
  lemma MultisetElems<T>(a: seq<T>, b: seq<T>)
    requires multiset(a) == multiset(b)
    ensures Elems(a) == Elems(b)
  {
    forall x ensures x in a <==> x in b {
      assert x in a <==> x in multiset(a);
      assert x in b <==> x in multiset(b);
    }
  }

  /**
   * On an instrument track, an effect added as written can never be removed
   * or moved: the map never learns its id.
   */
  method InstrumentTrackEffectStays<P(==)>(p: P, isInstrument: P -> bool) returns (chain: seq<P>, moveRaised: bool)
    requires !isInstrument(p)
    ensures chain == [p] && !moveRaised
  {
    var node := new EffectNode<P>("track", true, isInstrument);
    node.AddInstrumentTrackPluginAsWritten(p, "fx", 0);
    node.RemovePlugin("fx");
    moveRaised := node.MovePlugin("fx", 0);
    chain := node.chain;
    assert Insert([], EffectIndex(0, false), p) == [p];
  }
}
