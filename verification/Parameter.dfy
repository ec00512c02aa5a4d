/**
 * A node parameter: a base value clamped to optional bounds, an automation
 * lane of points kept in beat order and interpolated between them, and the
 * batch updater that collects value changes per (node, parameter) pair until
 * they are flushed as events.
 */
module Parameter {
  import opened Wrappers
  import opened Dicts

  datatype Curve = Linear | Exponential | Logarithmic | Sine | Square | Bezier

  /** An automation point; `shape` bends an exponential segment. */
  datatype Point = Point(beat: real, value: real, curve: Curve, shape: real)

  /** The `ParameterChanged` event. */
  datatype ParameterChanged = ParameterChanged(ownerNodeId: string, paramName: string, newValue: real)

  // ---------------------------------------------------------------------------
  // Clamping

  /** The bounds admit some value: each is absent, or the minimum is not above the maximum. */
  predicate Bounded(lo: Option<real>, hi: Option<real>) {
    lo.None? || hi.None? || lo.value <= hi.value
  }

  predicate InBounds(v: real, lo: Option<real>, hi: Option<real>) {
    (lo.None? || lo.value <= v) && (hi.None? || v <= hi.value)
  }

  /**
   * `_clamp`: below the minimum gives the minimum, above the maximum the
   * maximum, and anything else is kept.
   */
  function Clamp(v: real, lo: Option<real>, hi: Option<real>): (r: real)
    ensures r == v || (lo.Some? && r == lo.value) || (hi.Some? && r == hi.value)
    ensures Bounded(lo, hi) ==> InBounds(r, lo, hi)
    ensures InBounds(v, lo, hi) ==> r == v
  {
    if lo.Some? && v < lo.value then lo.value
    else if hi.Some? && v > hi.value then hi.value
    else v
  }

  /** Clamping twice is clamping once, when the bounds admit some value. */
  lemma ClampIdempotent(v: real, lo: Option<real>, hi: Option<real>)
    requires Bounded(lo, hi)
    ensures Clamp(Clamp(v, lo, hi), lo, hi) == Clamp(v, lo, hi)
  {
  }

  // ---------------------------------------------------------------------------
  // The automation lane

  /** Points are in beat order; several may share a beat. */
  ghost predicate ByBeat(ps: seq<Point>) {
    forall i, j :: 0 <= i < j < |ps| ==> ps[i].beat <= ps[j].beat
  }

  /** How many leading points are at or before `beat`. */
  function CountUpTo(ps: seq<Point>, beat: real): (n: nat)
    ensures n <= |ps|
    ensures forall k :: 0 <= k < n ==> ps[k].beat <= beat
    ensures n < |ps| ==> ps[n].beat > beat
  {
    if ps == [] || ps[0].beat > beat then 0 else 1 + CountUpTo(ps[1..], beat)
  }

  /**
   * Appending a point to a lane in beat order and sorting by beat, which is
   * stable: the point goes after every point at or before its beat.
   */
  function InsertByBeat(ps: seq<Point>, p: Point): (r: seq<Point>)
    ensures |r| == |ps| + 1
    ensures multiset(r) == multiset(ps) + multiset{p}
  {
    var k := CountUpTo(ps, p.beat);
    assert ps == ps[..k] + ps[k..];
    ps[..k] + [p] + ps[k..]
  }

  /**
   * On a lane in beat order the insertion keeps beat order, and it is the
   * stable sort's answer: the points before the new one, in their order, are
   * exactly those at or before its beat.
   */
  lemma InsertByBeatSorted(ps: seq<Point>, p: Point)
    requires ByBeat(ps)
    ensures ByBeat(InsertByBeat(ps, p))
  {
    var k := CountUpTo(ps, p.beat);
    AfterCount(ps, p.beat);
    SlicesByBeat(ps, k);
    var back := ps[k..];
    assert forall j :: 0 <= j < |back| ==> back[j].beat > p.beat by {
      forall j | 0 <= j < |back| ensures back[j].beat > p.beat {
        assert back[j] == ps[k + j];
      }
    }
    JoinByBeat(ps[..k], p, back);
  }

  /**
   * The insertion is the stable sort's answer: the points before the new one,
   * in their order, are exactly those at or before its beat, and the points
   * after it, in their order, the rest.
   */
  lemma InsertByBeatStable(ps: seq<Point>, p: Point)
    requires ByBeat(ps)
    ensures var k := CountUpTo(ps, p.beat);
      && InsertByBeat(ps, p)[k] == p
      && InsertByBeat(ps, p)[..k] == ps[..k]
      && InsertByBeat(ps, p)[k + 1..] == ps[k..]
      && (forall j :: 0 <= j < k ==> ps[j].beat <= p.beat)
      && (forall j :: k <= j < |ps| ==> ps[j].beat > p.beat)
  {
    var k := CountUpTo(ps, p.beat);
    AfterCount(ps, p.beat);
    var r := InsertByBeat(ps, p);
    assert r == ps[..k] + [p] + ps[k..];
    assert r[..k] == ps[..k];
    assert r[k + 1..] == ps[k..];
  }

  /** In a lane in beat order every point after the leading ones at or before a beat is after it. */
  lemma AfterCount(ps: seq<Point>, beat: real)
    requires ByBeat(ps)
    ensures forall j :: CountUpTo(ps, beat) <= j < |ps| ==> ps[j].beat > beat
  {
    var k := CountUpTo(ps, beat);
    forall j | k <= j < |ps| ensures ps[j].beat > beat {
      assert ps[k].beat <= ps[j].beat;
    }
  }

  lemma SlicesByBeat(ps: seq<Point>, k: nat)
    requires ByBeat(ps) && k <= |ps|
    ensures ByBeat(ps[..k]) && ByBeat(ps[k..])
  {
    assert forall j :: 0 <= j < |ps| - k ==> ps[k..][j] == ps[k + j];
  }

  /** A point between two lanes in beat order, above the first and below the second, joins them in beat order. */
  lemma JoinByBeat(front: seq<Point>, p: Point, back: seq<Point>)
    requires ByBeat(front) && ByBeat(back)
    requires forall j :: 0 <= j < |front| ==> front[j].beat <= p.beat
    requires forall j :: 0 <= j < |back| ==> back[j].beat > p.beat
    ensures ByBeat(front + [p] + back)
  {
    var r := front + [p] + back;
    var k := |front|;
    forall a, b | 0 <= a < b < |r| ensures r[a].beat <= r[b].beat {
      if b < k {
        assert r[a] == front[a] && r[b] == front[b];
      } else if b == k {
        assert r[a] == front[a];
      } else if a < k {
        assert r[a] == front[a] && r[b] == back[b - k - 1];
      } else if a == k {
        assert r[b] == back[b - k - 1];
      } else {
        assert r[a] == back[a - k - 1] && r[b] == back[b - k - 1];
      }
    }
  }

  function Abs(x: real): real {
    if x < 0.0 then -x else x
  }

  predicate Within(p: Point, beat: real, tolerance: real) {
    Abs(p.beat - beat) <= tolerance
  }

  // ---------------------------------------------------------------------------
  // Interpolation

  /**
   * The value inside the segment from `p1` to `p2` at `beat`: linear
   * interpolation, the exponential bend (`pow` stands for Python's `**` on
   * floats), or the left value for every other curve.
   */
  function SegmentValue(p1: Point, p2: Point, beat: real, pow: (real, real) -> real): real {
    var t := if p2.beat != p1.beat then (beat - p1.beat) / (p2.beat - p1.beat) else 0.0;
    match p1.curve
    case Linear => p1.value + (p2.value - p1.value) * t
    case Exponential =>
      var bent := if p1.shape > 0.0 then pow(t, 1.0 + p1.shape * 2.0) else 1.0 - pow(1.0 - t, 1.0 - p1.shape * 2.0);
      p1.value + (p2.value - p1.value) * bent
    case _ => p1.value
  }

  /** The first segment, from index `i` on, whose two points enclose `beat`. */
  function FirstSegment(ps: seq<Point>, beat: real, i: nat): (s: Option<nat>)
    ensures s.Some? ==> i <= s.value && s.value + 1 < |ps| && ps[s.value].beat <= beat <= ps[s.value + 1].beat
    decreases |ps| - i
  {
    if i + 1 >= |ps| then None
    else if ps[i].beat <= beat <= ps[i + 1].beat then Some(i)
    else FirstSegment(ps, beat, i + 1)
  }

  /**
   * `_interpolate_automation` on a lane in beat order: the base value with no
   * points, the first value up to the first point, the last value from the
   * last point on, and in between the value of the first enclosing segment.
   */
  function Interpolate(ps: seq<Point>, beat: real, base: real, pow: (real, real) -> real): real {
    if ps == [] then base
    else if beat <= ps[0].beat then ps[0].value
    else if beat >= ps[|ps| - 1].beat then ps[|ps| - 1].value
    else match FirstSegment(ps, beat, 0)
      case Some(i) => SegmentValue(ps[i], ps[i + 1], beat, pow)
      case None => base
  }

  /** Between the first and last points of a lane in beat order some segment encloses the beat. */
  lemma {:induction false} SegmentFound(ps: seq<Point>, beat: real, i: nat)
    requires ByBeat(ps) && i + 1 < |ps| && ps[i].beat <= beat < ps[|ps| - 1].beat
    ensures FirstSegment(ps, beat, i).Some?
    decreases |ps| - i
  {
    if ps[i + 1].beat < beat {
      SegmentFound(ps, beat, i + 1);
    }
  }

  /** Strictly inside the lane the interpolation never falls back to the base value. */
  lemma InterpolateInside(ps: seq<Point>, beat: real, base: real, pow: (real, real) -> real)
    requires ByBeat(ps) && |ps| > 0 && ps[0].beat < beat < ps[|ps| - 1].beat
    ensures exists i :: (0 <= i < |ps| - 1 && ps[i].beat <= beat <= ps[i + 1].beat
                         && Interpolate(ps, beat, base, pow) == SegmentValue(ps[i], ps[i + 1], beat, pow))
  {
    SegmentFound(ps, beat, 0);
    var i := FirstSegment(ps, beat, 0).value;
    assert ps[i].beat <= beat <= ps[i + 1].beat;
  }

  /** A linear segment stays between its two end values. */
  lemma LinearBetween(p1: Point, p2: Point, beat: real, pow: (real, real) -> real)
    requires p1.curve == Linear && p1.beat <= beat <= p2.beat
    ensures var v := SegmentValue(p1, p2, beat, pow);
      (p1.value <= v <= p2.value) || (p2.value <= v <= p1.value)
  {
    var t := if p2.beat != p1.beat then (beat - p1.beat) / (p2.beat - p1.beat) else 0.0;
    assert 0.0 <= t <= 1.0 by {
      if p2.beat != p1.beat {
        DivideWithin(beat - p1.beat, p2.beat - p1.beat);
      }
    }
    LerpWithin(p1.value, p2.value, t);
    assert SegmentValue(p1, p2, beat, pow) == p1.value + (p2.value - p1.value) * t;
  }

  lemma DivideWithin(x: real, y: real)
    requires 0.0 <= x <= y && y > 0.0
    ensures 0.0 <= x / y <= 1.0
  {
  }

  /** A point a fraction of the way from `a` to `b` lies between them. */
  lemma LerpWithin(a: real, b: real, t: real)
    requires 0.0 <= t <= 1.0
    ensures (a <= a + (b - a) * t <= b) || (b <= a + (b - a) * t <= a)
  {
    var d := b - a;
    var u := 1.0 - t;
    assert d * t + d * u == d;
    if d >= 0.0 {
      assert d * t >= 0.0 && d * u >= 0.0;
    } else {
      assert d * t <= 0.0 && d * u <= 0.0;
    }
  }

  /** A segment with a curve other than linear or exponential holds its left value. */
  lemma StepHolds(p1: Point, p2: Point, beat: real, pow: (real, real) -> real)
    requires p1.curve != Linear && p1.curve != Exponential
    ensures SegmentValue(p1, p2, beat, pow) == p1.value
  {
  }

  /** A linear segment reaches its right value at its right end. */
  lemma LinearReachesEnd(p1: Point, p2: Point, pow: (real, real) -> real)
    requires p1.curve == Linear && p1.beat < p2.beat
    ensures SegmentValue(p1, p2, p2.beat, pow) == p2.value
  {
    assert (p2.beat - p1.beat) / (p2.beat - p1.beat) == 1.0;
  }

  /** The loop of `_interpolate_automation` over a lane. */
  method InterpolateAutomation(ps: seq<Point>, beat: real, base: real, pow: (real, real) -> real) returns (v: real)
    ensures v == Interpolate(ps, beat, base, pow)
  {
    if ps == [] {
      return base;
    }
    if beat <= ps[0].beat {
      return ps[0].value;
    }
    if beat >= ps[|ps| - 1].beat {
      return ps[|ps| - 1].value;
    }
    var i := 0;
    while i < |ps| - 1
      invariant 0 <= i <= |ps| - 1
      invariant FirstSegment(ps, beat, 0) == FirstSegment(ps, beat, i)
    {
      var p1 := ps[i];
      var p2 := ps[i + 1];
      if p1.beat <= beat <= p2.beat {
        return SegmentValue(p1, p2, beat, pow);
      }
      i := i + 1;
    }
    return base;
  }

  // ---------------------------------------------------------------------------
  // The batch updater

  /** A (node id, parameter name) pair. */
  datatype Key = Key(nodeId: string, paramName: string)

  /** `ParameterBatchUpdater`: pending changes, one per pair, in the order the pairs were first queued. */
  class BatchUpdater {
    var pending: Dict<Key, real>

    ghost predicate Valid()
      reads this
    {
      pending.Valid()
    }

    constructor ()
      ensures Valid() && pending.keys == []
    {
      pending := Empty();
    }

    /** `queue_change`: the latest value for the pair replaces any earlier one. */
    method QueueChange(nodeId: string, paramName: string, value: real)
      requires Valid()
      modifies this
      ensures Valid()
      ensures pending == old(pending).Put(Key(nodeId, paramName), value)
    {
      pending := pending.Put(Key(nodeId, paramName), value);
    }

    /**
     * `flush_now`: takes every pending change and empties the queue, then
     * publishes one event per pair in queueing order; the events are returned.
     */
    method FlushNow() returns (published: seq<ParameterChanged>)
      requires Valid()
      modifies this
      ensures Valid() && pending.keys == [] && pending.items == map[]
      ensures |published| == |old(pending).keys|
      ensures forall i :: 0 <= i < |published| ==>
        var k := old(pending).keys[i];
        k in old(pending).items && published[i] == ParameterChanged(k.nodeId, k.paramName, old(pending).items[k])
    {
      var changes := pending;
      pending := Empty();
      published := [];
      var i := 0;
      while i < |changes.keys|
        invariant 0 <= i <= |changes.keys|
        invariant |published| == i
        invariant forall j :: 0 <= j < i ==>
          var k := changes.keys[j];
          k in changes.items && published[j] == ParameterChanged(k.nodeId, k.paramName, changes.items[k])
      {
        var k := changes.keys[i];
        published := published + [ParameterChanged(k.nodeId, k.paramName, changes.items[k])];
        i := i + 1;
      }
    }
  }

  /** Queueing two values for the same pair leaves only the second, where the first was queued. */
  lemma QueueKeepsLatest(d: Dict<Key, real>, k: Key, first: real, second: real)
    requires d.Valid()
    ensures d.Put(k, first).Put(k, second) == d.Put(k, second)
  {
    assert d.items[k := first][k := second] == d.items[k := second];
  }

  // ---------------------------------------------------------------------------
  // The parameter

  class Parameter {
    const ownerNodeId: string
    const name: string
    const defaultValue: real
    const minValue: Option<real>
    const maxValue: Option<real>
    var baseValue: real
    /** The automation lane. */
    var points: seq<Point>
    var automationEnabled: bool
    var immediateMode: bool
    /** Whether the parameter is mounted on an event bus. */
    const mounted: bool
    /** The shared batch updater, when one has been started. */
    const updater: BatchUpdater?

    /** The lane stays in beat order: every insertion sorts it and removal keeps the order. */
    ghost predicate Valid()
      reads this
    {
      ByBeat(points)
    }

    constructor (ownerNodeId: string, name: string, defaultValue: real, minValue: Option<real>, maxValue: Option<real>,
                 mounted: bool, updater: BatchUpdater?)
      ensures Valid()
      ensures this.ownerNodeId == ownerNodeId && this.name == name && this.defaultValue == defaultValue
      ensures this.minValue == minValue && this.maxValue == maxValue
      ensures this.mounted == mounted && this.updater == updater
      ensures baseValue == defaultValue && points == [] && automationEnabled && !immediateMode
    {
      this.ownerNodeId := ownerNodeId;
      this.name := name;
      this.defaultValue := defaultValue;
      this.minValue := minValue;
      this.maxValue := maxValue;
      this.mounted := mounted;
      this.updater := updater;
      baseValue := defaultValue;
      points := [];
      automationEnabled := true;
      immediateMode := false;
    }

    /**
     * `set_value`: stores the clamped value unless it equals the current one.
     * A mounted parameter then publishes the change at once when asked to or
     * in immediate mode (the event is returned), and otherwise queues it on
     * the batch updater, if there is one.
     */
    method SetValue(newValue: real, immediate: bool) returns (published: Option<ParameterChanged>)
      requires Valid() && (updater != null ==> updater.Valid())
      modifies this`baseValue, updater
      ensures Valid() && (updater != null ==> updater.Valid())
      ensures var clamped := Clamp(newValue, minValue, maxValue);
        && baseValue == clamped
        && (old(baseValue) == clamped ==> published == None && (updater != null ==> unchanged(updater)))
        && (old(baseValue) != clamped && mounted && (immediate || immediateMode) ==>
              published == Some(ParameterChanged(ownerNodeId, name, clamped)) && (updater != null ==> unchanged(updater)))
        && (old(baseValue) != clamped && mounted && !(immediate || immediateMode) && updater != null ==>
              published == None && updater.pending == old(updater.pending).Put(Key(ownerNodeId, name), clamped))
        && (old(baseValue) != clamped && !mounted ==> published == None && (updater != null ==> unchanged(updater)))
        && (updater == null ==> (!mounted || !(immediate || immediateMode) ==> published == None))
    {
      var clamped := Clamp(newValue, minValue, maxValue);
      if baseValue == clamped {
        return None;
      }
      baseValue := clamped;
      published := None;
      if mounted {
        if immediate || immediateMode {
          published := Some(ParameterChanged(ownerNodeId, name, clamped));
        } else if updater != null {
          updater.QueueChange(ownerNodeId, name, clamped);
        }
      }
    }

    /** `reset_to_default`: sets the default value, publishing at once. */
    method ResetToDefault() returns (published: Option<ParameterChanged>)
      requires Valid() && (updater != null ==> updater.Valid())
      modifies this`baseValue, updater
      ensures Valid()
      ensures baseValue == Clamp(defaultValue, minValue, maxValue)
      ensures published.Some? <==> mounted && old(baseValue) != Clamp(defaultValue, minValue, maxValue)
      ensures updater != null ==> unchanged(updater)
    {
      published := SetValue(defaultValue, true);
    }

    /**
     * `get_value_at`: the base value when automation is off or the lane is
     * empty, otherwise the lane interpolated at the beat.
     */
    method GetValueAt(beat: real, pow: (real, real) -> real) returns (v: real)
      requires Valid()
      ensures !automationEnabled || points == [] ==> v == baseValue
      ensures automationEnabled && points != [] ==> v == Interpolate(points, beat, baseValue, pow)
    {
      if !automationEnabled || points == [] {
        return baseValue;
      }
      v := InterpolateAutomation(points, beat, baseValue, pow);
    }

    /** `add_automation_point`: the point's value is clamped, and the lane stays in beat order. */
    method AddAutomationPoint(beat: real, value: real, curve: Curve, shape: real)
      requires Valid()
      modifies this`points
      ensures Valid()
      ensures points == InsertByBeat(old(points), Point(beat, Clamp(value, minValue, maxValue), curve, shape))
    {
      InsertByBeatSorted(points, Point(beat, Clamp(value, minValue, maxValue), curve, shape));
      points := InsertByBeat(points, Point(beat, Clamp(value, minValue, maxValue), curve, shape));
    }

    /**
     * `remove_automation_point_at`: removes the first point within the
     * tolerance of the beat and reports whether there was one.
     */
    method RemoveAutomationPointAt(beat: real, tolerance: real) returns (found: bool)
      requires Valid()
      modifies this`points
      ensures Valid()
      ensures found <==> exists i :: 0 <= i < |old(points)| && Within(old(points)[i], beat, tolerance)
      ensures !found ==> points == old(points)
      ensures found ==> exists i :: (0 <= i < |old(points)| && Within(old(points)[i], beat, tolerance)
                                     && (forall j :: 0 <= j < i ==> !Within(old(points)[j], beat, tolerance))
                                     && points == old(points)[..i] + old(points)[i + 1..])
    {
      var i := 0;
      while i < |points|
        invariant 0 <= i <= |points|
        invariant forall j :: 0 <= j < i ==> !Within(points[j], beat, tolerance)
      {
        if Within(points[i], beat, tolerance) {
          ghost var before := points;
          points := points[..i] + points[i + 1..];
          assert forall a :: 0 <= a < |points| ==> points[a] == before[if a < i then a else a + 1];
          return true;
        }
        i := i + 1;
      }
      return false;
    }

    /** `clear_automation`. */
    method ClearAutomation()
      modifies this`points
      ensures Valid() && points == []
    {
      points := [];
    }

    /** `enable_automation`. */
    method EnableAutomation(enabled: bool)
      modifies this`automationEnabled
      ensures automationEnabled == enabled
    {
      automationEnabled := enabled;
    }

    /** `enable_immediate_mode` and `disable_immediate_mode`. */
    method SetImmediateMode(on: bool)
      modifies this`immediateMode
      ensures immediateMode == on
    {
      immediateMode := on;
    }
  }
}
