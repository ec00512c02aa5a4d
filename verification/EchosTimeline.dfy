/**
 * The echos timeline: a tempo map and a time-signature map kept as lists of
 * events in beat order. Every edit builds a whole new state and hands it to
 * `set_state`, which validates it (not empty, starting at beat 0, never going
 * back in beat) before replacing the old one. Events and the list searches
 * are those of the MuzaiCore timeline.
 */
module EchosTimeline {
  import opened Wrappers
  import opened MuzaiTimeline

  datatype TimelineState = TimelineState(tempos: seq<TempoEvent>, timeSignatures: seq<TimeSignatureEvent>)

  // ---------------------------------------------------------------------------
  // Validation

  /** The check `_validate_state` runs: no neighbour comes before the event ahead of it. */
  predicate NeighboursOrdered<P>(es: seq<Event<P>>) {
    forall i :: 0 <= i < |es| - 1 ==> es[i].beat <= es[i + 1].beat
  }

  /** Checking neighbours is the same as checking every pair. */
  lemma {:induction false} NeighboursOrderedIff<P>(es: seq<Event<P>>)
    ensures NeighboursOrdered(es) <==> Ordered(es)
  {
    if NeighboursOrdered(es) {
      forall i, j | 0 <= i < j < |es| ensures es[i].beat <= es[j].beat {
        Chain(es, i, j);
      }
    }
  }

  lemma {:induction false} Chain<P>(es: seq<Event<P>>, i: nat, j: nat)
    requires NeighboursOrdered(es) && i <= j < |es|
    ensures es[i].beat <= es[j].beat
    decreases j - i
  {
    if i < j {
      Chain(es, i, j - 1);
      assert es[j - 1].beat <= es[j].beat;
    }
  }

  /** A map `set_state` accepts: not empty, starting at beat 0, in beat order. */
  ghost predicate WellFormed<P>(es: seq<Event<P>>) {
    |es| > 0 && es[0].beat == 0.0 && Ordered(es)
  }

  /** The error `_validate_state` raises for one map, named `name`; none when the map is well formed. */
  function MapError<P>(es: seq<Event<P>>, name: string): (r: Option<string>)
    ensures r.None? <==> WellFormed(es)
  {
    NeighboursOrderedIff(es);
    if |es| == 0 || es[0].beat != 0.0 then Some(name + " list must not be empty and must start at beat 0.0.")
    else if !NeighboursOrdered(es) then Some(name + " list must be sorted by beat.")
    else None
  }

  /** `_validate_state`: the tempo map is checked first, then the time-signature map. */
  function ValidateState(s: TimelineState): (r: Option<string>)
    ensures r.None? <==> WellFormed(s.tempos) && WellFormed(s.timeSignatures)
    ensures !WellFormed(s.tempos) ==> r == MapError(s.tempos, "Tempos")
  {
    var e := MapError(s.tempos, "Tempos");
    if e.Some? then e else MapError(s.timeSignatures, "Time signatures")
  }

  // ---------------------------------------------------------------------------
  // Edits

  /**
   * Insert-or-replace by beat keeps a well-formed map well formed, and keeps
   * every event at another beat.
   */
  lemma {:induction false} AddOrUpdateWellFormed<P>(es: seq<Event<P>>, e: Event<P>)
    requires WellFormed(es) && e.beat >= 0.0
    ensures WellFormed(AddOrUpdate(es, e))
    ensures forall x :: x in es && x.beat != e.beat ==> x in AddOrUpdate(es, e)
  {
    var i := FirstAtOrAfter(es, e.beat);
    var r := AddOrUpdate(es, e);
    if i < |es| && es[i].beat == e.beat {
      assert r == es[i := e];
      assert forall k :: 0 <= k < |r| ==> r[k].beat == es[k].beat;
      forall x | x in es && x.beat != e.beat ensures x in r {
        var k :| 0 <= k < |es| && es[k] == x;
        assert r[k] == x;
      }
    } else {
      assert r == es[..i] + [e] + es[i..];
      InsertOrdered(es, i, e);
    }
  }

  lemma {:induction false} InsertOrdered<P>(es: seq<Event<P>>, i: nat, e: Event<P>)
    requires WellFormed(es) && e.beat >= 0.0 && i <= |es|
    requires forall k :: 0 <= k < i ==> es[k].beat < e.beat
    requires i < |es| ==> es[i].beat > e.beat
    ensures WellFormed(es[..i] + [e] + es[i..])
    ensures forall x :: x in es ==> x in es[..i] + [e] + es[i..]
  {
    var r := es[..i] + [e] + es[i..];
    assert forall a :: 0 <= a < i ==> r[a] == es[a];
    assert r[i] == e;
    assert forall a :: i < a < |r| ==> r[a] == es[a - 1];
    forall a, b | 0 <= a < b < |r| ensures r[a].beat <= r[b].beat {
      if a < i && b > i {
        assert es[a].beat <= es[b - 1].beat;
      } else if a == i && b > i {
        assert es[i].beat <= es[b - 1].beat;
      } else if a > i {
        assert es[a - 1].beat <= es[b - 1].beat;
      }
    }
    forall x | x in es ensures x in r {
      var k :| 0 <= k < |es| && es[k] == x;
      if k < i {
        assert r[k] == x;
      } else {
        assert r[k + 1] == x;
      }
    }
  }

  /** The list comprehension of `remove_tempo`: the events at any other beat, in order. */
  function WithoutBeat<P(!new)>(es: seq<Event<P>>, beat: real): (r: seq<Event<P>>)
    ensures |r| <= |es|
    ensures forall x :: x in r <==> x in es && x.beat != beat
  {
    if es == [] then []
    else (if es[0].beat != beat then [es[0]] else []) + WithoutBeat(es[1..], beat)
  }

  /** Removing the events at a beat after 0 keeps the map well formed and its first event. */
  lemma {:induction false} WithoutBeatWellFormed<P(!new)>(es: seq<Event<P>>, beat: real)
    requires WellFormed(es) && beat > 0.0
    ensures WellFormed(WithoutBeat(es, beat)) && WithoutBeat(es, beat)[0] == es[0]
  {
    WithoutBeatOrdered(es, beat);
    assert WithoutBeat(es, beat) == [es[0]] + WithoutBeat(es[1..], beat);
  }

  lemma {:induction false} WithoutBeatOrdered<P(!new)>(es: seq<Event<P>>, beat: real)
    requires Ordered(es)
    ensures Ordered(WithoutBeat(es, beat))
  {
    if es != [] {
      assert Ordered(es[1..]);
      WithoutBeatOrdered(es[1..], beat);
      var rest := WithoutBeat(es[1..], beat);
      if es[0].beat != beat {
        var r := [es[0]] + rest;
        forall a, b | 0 <= a < b < |r| ensures r[a].beat <= r[b].beat {
          assert r[b] == rest[b - 1] && rest[b - 1] in es[1..];
          if a > 0 {
            assert r[a] == rest[a - 1];
          } else {
            var k :| 0 <= k < |es[1..]| && es[1..][k] == rest[b - 1];
            assert es[k + 1] == rest[b - 1];
          }
        }
      }
    }
  }

  // ---------------------------------------------------------------------------
  // Lookups

  /** On a list in beat order that starts no later than `beat`, the search index is the last event at or before it. */
  lemma ActiveIndexOrdered<P>(es: seq<Event<P>>, beat: real)
    requires |es| > 0
    ensures Ordered(es) && es[0].beat <= beat ==> IsActive(es, beat, ActiveIndex(es, beat))
  {
    if Ordered(es) && es[0].beat <= beat {
      var n := CountAtOrBefore(es, beat);
      assert n > 0;
      forall j | n - 1 < j < |es| ensures es[j].beat > beat {
        assert es[n].beat <= es[j].beat;
      }
    }
  }

  /**
   * `get_time_signature_at_beat`, and `get_tempo_at_beat` as it is meant: the
   * last event at or before `beat`, or the first event when the map starts
   * later.
   */
  function EventAt<P>(es: seq<Event<P>>, beat: real): (e: Event<P>)
    requires |es| > 0
    ensures Ordered(es) && es[0].beat <= beat ==> exists i :: IsActive(es, beat, i) && e == es[i]
    ensures beat < es[0].beat ==> e == es[0]
  {
    ActiveIndexOrdered(es, beat);
    es[ActiveIndex(es, beat)]
  }

  /** `get_time_signature_at_beat`: 4/4 from beat 0 when there is no event at all. */
  function SignatureAt(es: seq<TimeSignatureEvent>, beat: real): (e: TimeSignatureEvent)
    ensures es == [] ==> e == Event(0.0, Signature(4, 4))
    ensures es != [] ==> e == EventAt(es, beat)
  {
    if es == [] then Event(0.0, Signature(4, 4)) else EventAt(es, beat)
  }

  /**
   * `get_tempo_at_beat` as written: when no event is at or before `beat` the
   * search index is 0 and the lookup at index -1 reads the last event.
   */
  function TempoAtAsWritten(es: seq<TempoEvent>, beat: real): (e: TempoEvent)
    requires |es| > 0
    ensures e in es
  {
    var n := CountAtOrBefore(es, beat);
    if n == 0 then es[|es| - 1] else es[n - 1]
  }

  /** From the first event on, the lookup as written finds the event meant. */
  lemma TempoAtAsWrittenFromStart(es: seq<TempoEvent>, beat: real)
    requires |es| > 0 && es[0].beat <= beat
    ensures TempoAtAsWritten(es, beat) == EventAt(es, beat)
  {
  }

  /**
   * With 120 BPM from beat 0 and 90 BPM from beat 8, the lookup as written
   * gives the beat-8 event at beat -1; the first event is the one meant.
   */
  lemma {:induction false} TempoAtAsWrittenBeforeStart()
    ensures TempoAtAsWritten([Event(0.0, 120.0), Event(8.0, 90.0)], -1.0) == Event(8.0, 90.0)
    ensures EventAt([Event(0.0, 120.0), Event(8.0, 90.0)], -1.0) == Event(0.0, 120.0)
  {
    assert CountAtOrBefore([Event(0.0, 120.0), Event(8.0, 90.0)], -1.0) == 0;
  }

  // ---------------------------------------------------------------------------
  // Beats to seconds

  /**
   * Seconds spent walking the segments between consecutive events of `rel`,
   * each at its start event's bpm; a segment of no length is skipped, and
   * `None` stands for the division by zero a zero bpm raises.
   */
  function Walk(rel: seq<TempoEvent>): Option<real>
    decreases |rel|
  {
    if |rel| < 2 then Some(0.0)
    else
      var n := |rel|;
      match Walk(rel[..n - 1])
      case None => None
      case Some(s) =>
        if rel[n - 1].beat <= rel[n - 2].beat then Some(s)
        else if rel[n - 2].value == 0.0 then None
        else Some(s + (rel[n - 1].beat - rel[n - 2].beat) / rel[n - 2].value * 60.0)
  }

  /** The seconds at beat `target` of a map that starts at beat 0 (zero before it). */
  function Seconds(es: seq<TempoEvent>, target: real): Option<real>
    requires |es| > 0 && es[0].beat == 0.0
  {
    if target < 0.0 then Some(0.0) else Walk(Relevant(es, target))
  }

  lemma {:induction false} WalkStep(rel: seq<TempoEvent>, i: nat, total: real)
    requires i + 2 <= |rel| && Walk(rel[..i + 1]) == Some(total)
    ensures rel[i + 1].beat <= rel[i].beat ==> Walk(rel[..i + 2]) == Some(total)
    ensures rel[i + 1].beat > rel[i].beat && rel[i].value == 0.0 ==> Walk(rel[..i + 2]) == None
    ensures rel[i + 1].beat > rel[i].beat && rel[i].value != 0.0 ==>
      Walk(rel[..i + 2]) == Some(total + (rel[i + 1].beat - rel[i].beat) / rel[i].value * 60.0)
  {
    assert rel[..i + 2][..i + 1] == rel[..i + 1];
  }

  /** Once the walk has divided by zero, walking on does not recover. */
  lemma {:induction false} WalkNoneExtends(rel: seq<TempoEvent>, k: nat)
    requires 1 <= k <= |rel| && Walk(rel[..k]) == None
    ensures Walk(rel) == None
    decreases |rel| - k
  {
    if k < |rel| {
      var front := rel[..k + 1];
      assert front[..k] == rel[..k];
      assert Walk(front) == None;
      WalkNoneExtends(rel, k + 1);
    } else {
      assert rel[..k] == rel;
    }
  }

  /** Events that all share the beat of event `k - 1` add no seconds. */
  lemma {:induction false} WalkFlatTail(rel: seq<TempoEvent>, k: nat)
    requires 1 <= k <= |rel|
    requires forall j :: k - 1 <= j < |rel| ==> rel[j].beat == rel[k - 1].beat
    ensures Walk(rel) == Walk(rel[..k])
    decreases |rel| - k
  {
    if k == |rel| {
      assert rel[..k] == rel;
    } else {
      var front := rel[..|rel| - 1];
      assert front[..k] == rel[..k];
      WalkFlatTail(front, k);
    }
  }

  /**
   * The segment loop of `beats_to_seconds`. On a walk in beat order from beat
   * 0 to the target it computes `Walk`; `None` stands for the division by
   * zero a zero bpm raises.
   */
  method WalkTempoSegments(rel: seq<TempoEvent>, target: real) returns (r: Option<real>)
    requires |rel| > 0
    ensures Ordered(rel) && rel[0].beat == 0.0 && rel[|rel| - 1].beat == target ==> r == Walk(rel)
  {
    ghost var good := Ordered(rel) && rel[0].beat == 0.0 && rel[|rel| - 1].beat == target;
    var total := 0.0;
    var current := 0.0;
    var i := 0;
    while i < |rel| - 1
      invariant 0 <= i <= |rel| - 1
      invariant good ==> current == rel[i].beat && Walk(rel[..i + 1]) == Some(total)
    {
      var start := rel[i];
      var end := rel[i + 1];
      var segmentEnd := if end.beat < target then end.beat else target;
      if good {
        assert end.beat <= rel[|rel| - 1].beat;
        WalkStep(rel, i, total);
      }
      if segmentEnd > current {
        if start.value == 0.0 {
          if good {
            WalkNoneExtends(rel, i + 2);
          }
          return None;
        }
        total := total + (segmentEnd - current) / start.value * 60.0;
      }
      current := segmentEnd;
      if current >= target {
        if good {
          forall j | i + 1 <= j < |rel| ensures rel[j].beat == rel[i + 1].beat {
            assert rel[i + 1].beat <= rel[j].beat <= rel[|rel| - 1].beat;
          }
          WalkFlatTail(rel, i + 2);
        }
        return Some(total);
      }
      i := i + 1;
    }
    assert rel[..|rel|] == rel;
    return Some(total);
  }

  /** The walked list of a well-formed map is in beat order, from beat 0 to the target. */
  lemma {:induction false} RelevantOrdered(es: seq<TempoEvent>, target: real)
    requires WellFormed(es) && target >= 0.0
    ensures var rel := Relevant(es, target);
      Ordered(rel) && rel[0].beat == 0.0 && rel[|rel| - 1].beat == target
  {
    AtOrBeforePrefix(es, target);
    var n := CountAtOrBefore(es, target);
    var kept := es[..n];
    assert kept[0] == es[0];
    var rel := Relevant(es, target);
    if target > kept[n - 1].beat {
      var last := Event(target, ActiveTempo(es, target));
      assert rel == kept + [last];
      forall a, b | 0 <= a < b < |rel| ensures rel[a].beat <= rel[b].beat {
        if b < n {
          assert rel[a] == es[a] && rel[b] == es[b];
        } else {
          assert rel[a] == es[a];
        }
      }
    } else {
      assert rel == kept;
    }
  }

  /** On a map with one event per beat the walk is the MuzaiCore walk. */
  lemma {:induction false} WalkIsElapsed(rel: seq<TempoEvent>)
    requires Sorted(rel)
    ensures Walk(rel) == Elapsed(rel)
    decreases |rel|
  {
    if |rel| >= 2 {
      var n := |rel|;
      assert Sorted(rel[..n - 1]);
      WalkIsElapsed(rel[..n - 1]);
      assert rel[n - 2].beat < rel[n - 1].beat;
    }
  }

  /** On a map with one event per beat both timelines convert beats to the same seconds. */
  lemma {:induction false} SecondsAgree(es: seq<TempoEvent>, target: real)
    requires |es| > 0 && Sorted(es) && es[0].beat == 0.0
    ensures Seconds(es, target) == SecondsAt(es, target)
  {
    if target >= 0.0 {
      RelevantShape(es, target);
      WalkIsElapsed(Relevant(es, target));
    }
  }

  /** At a constant 120 BPM, four beats take two seconds. */
  lemma {:induction false} FourBeatsTwoSeconds()
    ensures Seconds([Event(0.0, 120.0)], 4.0) == Some(2.0)
  {
    SecondsAgree([Event(0.0, 120.0)], 4.0);
    FourBeatsAt120();
  }

  /**
   * For a map with positive tempos and one event per beat, converting a beat
   * to seconds and back returns the beat.
   */
  lemma {:induction false} SecondsRoundTrip(es: seq<TempoEvent>, target: real)
    requires |es| > 0 && Sorted(es) && es[0].beat == 0.0 && PositiveTempos(es) && target >= 0.0
    ensures Seconds(es, target).Some?
    ensures BeatsFrom(es, 0, Seconds(es, target).value) == target
  {
    SecondsAgree(es, target);
    BeatsSecondsRoundTrip(es, target);
  }

  // ---------------------------------------------------------------------------
  // The timeline

  class Timeline {
    var tempos: seq<TempoEvent>
    var timeSignatures: seq<TimeSignatureEvent>

    /** Neither map is ever empty: the constructor fills in defaults and `set_state` refuses empty maps. */
    ghost predicate Valid()
      reads this
    {
      |tempos| > 0 && |timeSignatures| > 0
    }

    /** Both maps are as `set_state` demands. */
    ghost predicate Accepted()
      reads this
    {
      WellFormed(tempos) && WellFormed(timeSignatures)
    }

    /** An empty list stands for the default: 120 BPM and 4/4 from beat 0. */
    constructor (tempos: seq<TempoEvent>, timeSignatures: seq<TimeSignatureEvent>)
      ensures Valid()
      ensures this.tempos == if tempos == [] then [Event(0.0, 120.0)] else tempos
      ensures this.timeSignatures == if timeSignatures == [] then [Event(0.0, Signature(4, 4))] else timeSignatures
    {
      this.tempos := if tempos == [] then [Event(0.0, 120.0)] else tempos;
      this.timeSignatures := if timeSignatures == [] then [Event(0.0, Signature(4, 4))] else timeSignatures;
    }

    /** The `timeline_state` property. */
    function State(): TimelineState
      reads this
    {
      TimelineState(tempos, timeSignatures)
    }

    /** `set_state`: an invalid state raises its validation error; otherwise it replaces the maps and returns the old state. */
    method SetState(s: TimelineState) returns (r: Result<TimelineState, string>)
      requires Valid()
      modifies this
      ensures Valid()
      ensures ValidateState(s).Some? ==> r == Failure(ValidateState(s).value) && unchanged(this)
      ensures ValidateState(s).None? ==> r == Success(old(State())) && State() == s && Accepted()
    {
      var e := ValidateState(s);
      if e.Some? {
        return Failure(e.value);
      }
      r := Success(State());
      tempos := s.tempos;
      timeSignatures := s.timeSignatures;
    }

    /**
     * `set_tempo`: a negative beat or a non-positive bpm is ignored; otherwise
     * the event replaces the one at its beat or goes in at its place, and the
     * result goes through `set_state`. On an accepted state this never fails.
     */
    method SetTempo(beat: real, bpm: real) returns (err: Option<string>)
      requires Valid()
      modifies this
      ensures Valid()
      ensures beat < 0.0 || bpm <= 0.0 ==> err == None && unchanged(this)
      ensures beat >= 0.0 && bpm > 0.0 ==>
        var proposed := TimelineState(AddOrUpdate(old(tempos), Event(beat, bpm)), old(timeSignatures));
        && err == ValidateState(proposed)
        && (err.None? ==> State() == proposed)
        && (err.Some? ==> unchanged(this))
      ensures beat >= 0.0 && bpm > 0.0 && old(Accepted()) ==> err == None && Accepted()
    {
      if beat < 0.0 || bpm <= 0.0 {
        return None;
      }
      if Accepted() {
        AddOrUpdateWellFormed(tempos, Event(beat, bpm));
      }
      var r := SetState(TimelineState(AddOrUpdate(tempos, Event(beat, bpm)), timeSignatures));
      err := if r.Failure? then Some(r.error) else None;
    }

    /** `set_time_signature`: like `set_tempo`, also ignoring a non-positive numerator or denominator. */
    method SetTimeSignature(beat: real, numerator: int, denominator: int) returns (err: Option<string>)
      requires Valid()
      modifies this
      ensures Valid()
      ensures beat < 0.0 || numerator <= 0 || denominator <= 0 ==> err == None && unchanged(this)
      ensures beat >= 0.0 && numerator > 0 && denominator > 0 ==>
        var proposed := TimelineState(old(tempos), AddOrUpdate(old(timeSignatures), Event(beat, Signature(numerator, denominator))));
        && err == ValidateState(proposed)
        && (err.None? ==> State() == proposed)
        && (err.Some? ==> unchanged(this))
      ensures beat >= 0.0 && numerator > 0 && denominator > 0 && old(Accepted()) ==> err == None && Accepted()
    {
      if beat < 0.0 || numerator <= 0 || denominator <= 0 {
        return None;
      }
      var e := Event(beat, Signature(numerator, denominator));
      if Accepted() {
        AddOrUpdateWellFormed(timeSignatures, e);
      }
      var r := SetState(TimelineState(tempos, AddOrUpdate(timeSignatures, e)));
      err := if r.Failure? then Some(r.error) else None;
    }

    /**
     * `remove_tempo`: a beat at or before 0 is ignored, so the opening tempo
     * always stays; otherwise the events at that beat are dropped and, when
     * there were any, the result goes through `set_state`.
     */
    method RemoveTempo(beat: real) returns (err: Option<string>)
      requires Valid()
      modifies this
      ensures Valid()
      ensures beat <= 0.0 || |WithoutBeat(old(tempos), beat)| == |old(tempos)| ==> err == None && unchanged(this)
      ensures beat > 0.0 && |WithoutBeat(old(tempos), beat)| < |old(tempos)| ==>
        var proposed := TimelineState(WithoutBeat(old(tempos), beat), old(timeSignatures));
        && err == ValidateState(proposed)
        && (err.None? ==> State() == proposed)
        && (err.Some? ==> unchanged(this))
      ensures beat > 0.0 && old(Accepted()) ==> err == None && Accepted() && tempos[0] == old(tempos[0])
    {
      if beat <= 0.0 {
        return None;
      }
      var kept := WithoutBeat(tempos, beat);
      if Accepted() {
        WithoutBeatWellFormed(tempos, beat);
      }
      if |kept| < |tempos| {
        var r := SetState(TimelineState(kept, timeSignatures));
        err := if r.Failure? then Some(r.error) else None;
      } else {
        err := None;
      }
    }

    /** `remove_time_signature`: like `remove_tempo`, on the time-signature map. */
    method RemoveTimeSignature(beat: real) returns (err: Option<string>)
      requires Valid()
      modifies this
      ensures Valid()
      ensures beat <= 0.0 || |WithoutBeat(old(timeSignatures), beat)| == |old(timeSignatures)| ==> err == None && unchanged(this)
      ensures beat > 0.0 && |WithoutBeat(old(timeSignatures), beat)| < |old(timeSignatures)| ==>
        var proposed := TimelineState(old(tempos), WithoutBeat(old(timeSignatures), beat));
        && err == ValidateState(proposed)
        && (err.None? ==> State() == proposed)
        && (err.Some? ==> unchanged(this))
      ensures beat > 0.0 && old(Accepted()) ==> err == None && Accepted() && timeSignatures[0] == old(timeSignatures[0])
    {
      if beat <= 0.0 {
        return None;
      }
      var kept := WithoutBeat(timeSignatures, beat);
      if Accepted() {
        WithoutBeatWellFormed(timeSignatures, beat);
      }
      if |kept| < |timeSignatures| {
        var r := SetState(TimelineState(tempos, kept));
        err := if r.Failure? then Some(r.error) else None;
      } else {
        err := None;
      }
    }

    /** `get_tempo_at_beat`: the tempo event in force at `beat`. */
    function TempoAtBeat(beat: real): (e: TempoEvent)
      reads this
      requires Valid()
      ensures Accepted() && beat >= 0.0 ==> exists i :: IsActive(tempos, beat, i) && e == tempos[i]
    {
      EventAt(tempos, beat)
    }

    /** `get_time_signature_at_beat`. */
    function TimeSignatureAtBeat(beat: real): (e: TimeSignatureEvent)
      reads this
      requires Valid()
      ensures Accepted() && beat >= 0.0 ==> exists i :: IsActive(timeSignatures, beat, i) && e == timeSignatures[i]
    {
      SignatureAt(timeSignatures, beat)
    }

    /**
     * `beats_to_seconds`: zero for a negative target; otherwise the segments
     * from beat 0 to the target, each at its start tempo. `None` stands for
     * the division by zero a zero tempo raises.
     */
    method BeatsToSeconds(target: real) returns (r: Option<real>)
      requires Valid()
      ensures target < 0.0 ==> r == Some(0.0)
      ensures Accepted() ==> r == Seconds(tempos, target)
    {
      if target < 0.0 {
        return Some(0.0);
      }
      var rel := AtOrBefore(tempos, target);
      if rel == [] || target > rel[|rel| - 1].beat {
        rel := rel + [Event(target, TempoAtBeat(target).value)];
      }
      if Accepted() {
        assert rel == Relevant(tempos, target);
        RelevantOrdered(tempos, target);
      }
      r := WalkTempoSegments(rel, target);
    }

    /**
     * `seconds_to_beats`: zero for a negative target; otherwise segment by
     * segment until the target time falls inside one, the last tempo running
     * forever.
     */
    method SecondsToBeats(target: real) returns (r: real)
      requires Valid()
      ensures target < 0.0 ==> r == 0.0
      ensures target >= 0.0 && Accepted() && PositiveTempos(tempos) ==> r == BeatsFrom(tempos, 0, target)
    {
      if target < 0.0 {
        return 0.0;
      }
      r := WalkSeconds(tempos, target);
    }
  }
}
