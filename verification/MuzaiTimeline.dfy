/**
 * The MuzaiCore timeline: a tempo map and a time-signature map, each a list of
 * events sorted by beat that always holds an event at beat 0, with conversions
 * between beats and seconds that walk the tempo segments; and the constant
 * `TempoMap`.
 */
module MuzaiTimeline {
  import opened Wrappers

  /** An event of a map: the beat it starts at and what it sets there. */
  datatype Event<P> = Event(beat: real, value: P)
  datatype Signature = Signature(numerator: int, denominator: int)
  type TempoEvent = Event<real>
  type TimeSignatureEvent = Event<Signature>

  /** Beats strictly increase along the list: sorted, and at most one event per beat. */
  ghost predicate Sorted<P>(es: seq<Event<P>>) {
    forall i, j :: 0 <= i < j < |es| ==> es[i].beat < es[j].beat
  }

  /** Beats never decrease along the list; events may share a beat. */
  ghost predicate Ordered<P>(es: seq<Event<P>>) {
    forall i, j :: 0 <= i < j < |es| ==> es[i].beat <= es[j].beat
  }

  lemma SortedOrdered<P>(es: seq<Event<P>>)
    requires Sorted(es)
    ensures Ordered(es)
  {
    forall i, j | 0 <= i < j < |es| ensures es[i].beat <= es[j].beat {
      assert es[i].beat < es[j].beat;
    }
  }

  ghost predicate PositiveTempos(es: seq<TempoEvent>) {
    forall k :: 0 <= k < |es| ==> es[k].value > 0.0
  }

  // ---------------------------------------------------------------------------
  // Insert-or-replace

  /** `bisect_left` keyed on the beat: the first event at or after `beat`. */
  function FirstAtOrAfter<P>(es: seq<Event<P>>, beat: real): (i: nat)
    ensures i <= |es|
    ensures forall k :: 0 <= k < i ==> es[k].beat < beat
    ensures i < |es| ==> es[i].beat >= beat
  {
    if es == [] || es[0].beat >= beat then 0 else 1 + FirstAtOrAfter(es[1..], beat)
  }

  /**
   * `_add_or_update_event`, searching by beat: an event already at the new
   * event's beat is replaced, otherwise the new event goes in before the first
   * later one.
   */
  function AddOrUpdate<P>(es: seq<Event<P>>, e: Event<P>): (r: seq<Event<P>>)
    ensures e in r
    ensures |r| == |es| || |r| == |es| + 1
    ensures forall x :: x in r ==> x == e || x in es
  {
    var i := FirstAtOrAfter(es, e.beat);
    if i < |es| && es[i].beat == e.beat then
      assert es[i := e][i] == e;
      es[i := e]
    else
      assert (es[..i] + [e] + es[i..])[i] == e;
      es[..i] + [e] + es[i..]
  }

  /**
   * On a sorted list, insert-or-replace keeps the list sorted, holds exactly the
   * new event and the old events at other beats, and keeps the first beat when
   * the new event is not earlier.
   */
  lemma {:induction false} AddOrUpdateSorted<P>(es: seq<Event<P>>, e: Event<P>)
    requires Sorted(es)
    ensures Sorted(AddOrUpdate(es, e))
    ensures forall x :: x in AddOrUpdate(es, e) <==> x == e || (x in es && x.beat != e.beat)
    ensures |es| > 0 && es[0].beat <= e.beat ==> AddOrUpdate(es, e)[0].beat == es[0].beat
  {
    var i := FirstAtOrAfter(es, e.beat);
    if i < |es| && es[i].beat == e.beat {
      ReplaceSorted(es, i, e);
    } else {
      InsertSorted(es, i, e);
    }
  }

  lemma {:induction false} ReplaceSorted<P>(es: seq<Event<P>>, i: nat, e: Event<P>)
    requires Sorted(es) && i < |es| && es[i].beat == e.beat
    ensures Sorted(es[i := e])
    ensures forall x :: x in es[i := e] <==> x == e || (x in es && x.beat != e.beat)
  {
    var r := es[i := e];
    assert r[i] == e;
    forall x ensures x in r <==> x == e || (x in es && x.beat != e.beat) {
      if x in r && x != e {
        var k :| 0 <= k < |r| && r[k] == x;
        assert k != i && es[k] == x;
        if k < i {
          assert es[k].beat < es[i].beat;
        } else {
          assert es[i].beat < es[k].beat;
        }
      }
      if x in es && x.beat != e.beat {
        var k :| 0 <= k < |es| && es[k] == x;
        assert k != i && r[k] == x;
      }
    }
  }

  lemma {:induction false} InsertSorted<P>(es: seq<Event<P>>, i: nat, e: Event<P>)
    requires Sorted(es) && i <= |es|
    requires forall k :: 0 <= k < i ==> es[k].beat < e.beat
    requires i < |es| ==> es[i].beat > e.beat
    ensures Sorted(es[..i] + [e] + es[i..])
    ensures forall x :: x in es[..i] + [e] + es[i..] <==> x == e || (x in es && x.beat != e.beat)
  {
    var r := es[..i] + [e] + es[i..];
    assert forall a :: 0 <= a < i ==> r[a] == es[a];
    assert forall a :: i < a < |r| ==> r[a] == es[a - 1];
    assert forall a :: i <= a < |es| ==> es[a].beat > e.beat by {
      forall a | i < a < |es| ensures es[a].beat > e.beat {
        assert es[i].beat < es[a].beat;
      }
    }
    forall a, b | 0 <= a < b < |r| ensures r[a].beat < r[b].beat {
      if a < i && b > i {
        assert es[a].beat < es[b - 1].beat;
      } else if a > i {
        assert es[a - 1].beat < es[b - 1].beat;
      }
    }
    forall x | x in es ensures x in r {
      var k :| 0 <= k < |es| && es[k] == x;
      if k < i {
        assert r[k] == x;
      } else {
        assert r[k + 1] == x;
      }
    }
  }

  /** On a map that starts at beat 0, setting the beat-0 event replaces the first event where it stands. */
  lemma ReplaceStart<P>(es: seq<Event<P>>, v: P)
    requires |es| > 0 && es[0].beat == 0.0
    ensures AddOrUpdate(es, Event(0.0, v)) == es[0 := Event(0.0, v)]
  {
    assert FirstAtOrAfter(es, 0.0) == 0;
  }

  // ---------------------------------------------------------------------------
  // Active tempo

  /** `bisect_right` keyed on the beat: how many leading events are at or before `beat`. */
  function CountAtOrBefore<P>(es: seq<Event<P>>, beat: real): (n: nat)
    ensures n <= |es|
    ensures forall k :: 0 <= k < n ==> es[k].beat <= beat
    ensures n < |es| ==> es[n].beat > beat
  {
    if es == [] || es[0].beat > beat then 0 else 1 + CountAtOrBefore(es[1..], beat)
  }

  /** Event `i` is the last one at or before `beat`. */
  ghost predicate IsActive<P>(es: seq<Event<P>>, beat: real, i: int) {
    0 <= i < |es| && es[i].beat <= beat && forall j :: i < j < |es| ==> es[j].beat > beat
  }

  /**
   * `bisect_right` keyed on the beat, minus one: the index of the last event at
   * or before `beat` (the first event when the map starts later).
   */
  function ActiveIndex<P>(es: seq<Event<P>>, beat: real): (i: nat)
    requires |es| > 0
    ensures i < |es|
    ensures Sorted(es) && es[0].beat <= beat ==> IsActive(es, beat, i)
  {
    var n := CountAtOrBefore(es, beat);
    if n == 0 then 0 else n - 1
  }

  /** `_get_active_tempo_at_beat`, searching by beat. */
  function ActiveTempo(es: seq<TempoEvent>, beat: real): real
    requires |es| > 0
  {
    es[ActiveIndex(es, beat)].value
  }

  /**
   * On a sorted map the active tempo is that of the last event at or before
   * the beat; before the first event it is the first event's.
   */
  lemma ActiveTempoInForce(es: seq<TempoEvent>, beat: real)
    requires |es| > 0
    ensures Sorted(es) && es[0].beat <= beat ==> exists i :: IsActive(es, beat, i) && ActiveTempo(es, beat) == es[i].value
    ensures beat < es[0].beat ==> ActiveTempo(es, beat) == es[0].value
  {
    if Sorted(es) && es[0].beat <= beat {
      assert IsActive(es, beat, ActiveIndex(es, beat));
    }
  }

  /** Setting a tempo at a beat makes it the tempo active at that beat. */
  lemma {:induction false} SetThenActive(es: seq<TempoEvent>, e: TempoEvent)
    requires |es| > 0 && Sorted(es) && es[0].beat <= e.beat
    ensures ActiveTempo(AddOrUpdate(es, e), e.beat) == e.value
  {
    var r := AddOrUpdate(es, e);
    AddOrUpdateSorted(es, e);
    var i := ActiveIndex(r, e.beat);
    assert IsActive(r, e.beat, i);
    var k :| 0 <= k < |r| && r[k] == e;
    assert r[i].beat <= r[k].beat;
  }

  /** In a map starting at beat 0, the first event is the one in force at beat 0. */
  lemma {:induction false} FirstIsActiveAtStart(es: seq<TempoEvent>)
    requires |es| > 0 && Sorted(es) && es[0].beat == 0.0
    ensures ActiveTempo(es, 0.0) == es[0].value
  {
    var i := ActiveIndex(es, 0.0);
    assert IsActive(es, 0.0, i) && es[i].beat <= es[0].beat;
  }

  // ---------------------------------------------------------------------------
  // Beats to seconds

  /** The events at or before `target`, as the list comprehension keeps them. */
  function AtOrBefore(es: seq<TempoEvent>, target: real): (r: seq<TempoEvent>)
    ensures |r| <= |es|
    ensures |es| > 0 && es[0].beat <= target ==> |r| > 0 && r[0] == es[0]
  {
    if es == [] then []
    else (if es[0].beat <= target then [es[0]] else []) + AtOrBefore(es[1..], target)
  }

  /** On a list in beat order the kept events are a prefix. */
  lemma {:induction false} AtOrBeforePrefix(es: seq<TempoEvent>, target: real)
    requires Ordered(es)
    ensures AtOrBefore(es, target) == es[..CountAtOrBefore(es, target)]
  {
    if es != [] {
      assert Ordered(es[1..]);
      if es[0].beat <= target {
        AtOrBeforePrefix(es[1..], target);
        assert es[..CountAtOrBefore(es, target)] == [es[0]] + es[1..][..CountAtOrBefore(es[1..], target)];
      } else {
        NoneAtOrBefore(es[1..], target);
      }
    }
  }

  lemma {:induction false} NoneAtOrBefore(es: seq<TempoEvent>, target: real)
    requires forall k :: 0 <= k < |es| ==> es[k].beat > target
    ensures AtOrBefore(es, target) == []
  {
    if es != [] {
      NoneAtOrBefore(es[1..], target);
    }
  }

  /**
   * The segment ends `beats_to_seconds` walks: the events up to the target, and
   * the target itself when it lies past the last of them.
   */
  function Relevant(es: seq<TempoEvent>, target: real): (rel: seq<TempoEvent>)
    requires |es| > 0 && es[0].beat <= target
  {
    var kept := AtOrBefore(es, target);
    if target > kept[|kept| - 1].beat then kept + [Event(target, ActiveTempo(es, target))] else kept
  }

  /**
   * Seconds spent walking the segments between consecutive events of `rel`,
   * each at its start event's bpm; `None` where a zero bpm would divide by zero.
   */
  function Elapsed(rel: seq<TempoEvent>): Option<real>
    decreases |rel|
  {
    if |rel| < 2 then Some(0.0)
    else
      var n := |rel|;
      match Elapsed(rel[..n - 1])
      case None => None
      case Some(s) =>
        if rel[n - 2].value == 0.0 then None
        else Some(s + (rel[n - 1].beat - rel[n - 2].beat) / rel[n - 2].value * 60.0)
  }

  /** The walk divides by zero exactly when a segment other than the last end starts at bpm 0. */
  lemma {:induction false} ElapsedSomeIff(rel: seq<TempoEvent>)
    ensures Elapsed(rel).Some? <==> forall k :: 0 <= k < |rel| - 1 ==> rel[k].value != 0.0
    decreases |rel|
  {
    if |rel| >= 2 {
      var front := rel[..|rel| - 1];
      ElapsedSomeIff(front);
      assert forall k :: 0 <= k < |rel| - 2 ==> front[k] == rel[k];
    }
  }

  /** The seconds at beat `target` of a map that starts at beat 0 (zero before it). */
  function SecondsAt(es: seq<TempoEvent>, target: real): Option<real>
    requires |es| > 0 && es[0].beat == 0.0
  {
    if target < 0.0 then Some(0.0) else Elapsed(Relevant(es, target))
  }

  /** The walked list is sorted, starts where the map starts and ends at the target. */
  lemma {:induction false} RelevantShape(es: seq<TempoEvent>, target: real)
    requires |es| > 0 && Sorted(es) && es[0].beat <= target
    ensures var rel := Relevant(es, target);
      && 0 < CountAtOrBefore(es, target) <= |rel|
      && rel[..CountAtOrBefore(es, target)] == es[..CountAtOrBefore(es, target)]
      && Sorted(rel) && rel[|rel| - 1].beat == target
  {
    SortedOrdered(es);
    AtOrBeforePrefix(es, target);
    var n := CountAtOrBefore(es, target);
    assert n > 0;
    var kept := es[..n];
    assert kept[n - 1].beat <= target;
    var rel := Relevant(es, target);
    if target > kept[n - 1].beat {
      var last := Event(target, ActiveTempo(es, target));
      assert rel == kept + [last];
      assert rel[..n] == kept;
      forall a, b | 0 <= a < b < |rel| ensures rel[a].beat < rel[b].beat {
        if b < n {
          assert rel[a] == es[a] && rel[b] == es[b];
        } else {
          assert rel[a] == es[a] && rel[b] == last;
        }
      }
    } else {
      assert rel == kept;
    }
  }

  /** One more segment of the walk, at its start event's non-zero bpm. */
  lemma {:induction false} ElapsedStep(rel: seq<TempoEvent>, i: nat, total: real)
    requires i + 2 <= |rel| && Elapsed(rel[..i + 1]) == Some(total) && rel[i].value != 0.0
    ensures Elapsed(rel[..i + 2]) == Some(total + (rel[i + 1].beat - rel[i].beat) / rel[i].value * 60.0)
  {
    assert rel[..i + 2][..i + 1] == rel[..i + 1];
  }

  /** Once a segment divides by zero, every longer walk does too. */
  lemma {:induction false} ElapsedNone(rel: seq<TempoEvent>, k: nat)
    requires 2 <= k <= |rel| && rel[k - 2].value == 0.0
    ensures Elapsed(rel) == None
  {
    ElapsedSomeIff(rel);
  }

  /**
   * The segment loop of `beats_to_seconds` over a walk that starts at beat 0 and
   * ends at the target; `None` stands for the division by zero a zero tempo raises.
   */
  method WalkSegments(rel: seq<TempoEvent>, target: real) returns (r: Option<real>)
    requires |rel| > 0 && Sorted(rel) && rel[0].beat == 0.0 && rel[|rel| - 1].beat == target
    ensures r == Elapsed(rel)
  {
    var total := 0.0;
    var current := 0.0;
    var i := 0;
    while i < |rel| - 1
      invariant 0 <= i <= |rel| - 1
      invariant current == rel[i].beat
      invariant Elapsed(rel[..i + 1]) == Some(total)
    {
      var start := rel[i];
      var end := rel[i + 1];
      var segmentEnd := if end.beat < target then end.beat else target;
      assert segmentEnd == end.beat;
      if segmentEnd > current {
        if start.value == 0.0 {
          ElapsedNone(rel, i + 2);
          return None;
        }
        ElapsedStep(rel, i, total);
        total := total + (segmentEnd - current) / start.value * 60.0;
      }
      current := segmentEnd;
      if current >= target {
        assert rel[..i + 2] == rel;
        break;
      }
      i := i + 1;
    }
    assert rel[..|rel|] == rel;
    // The loop stops exactly at the target, so the source's closing segment
    // for a target past the last event adds nothing here.
    assert current == target;
    return Some(total);
  }

  // ---------------------------------------------------------------------------
  // Seconds to beats

  /**
   * The beat reached after `left` more seconds from the start of segment `i`,
   * for a map whose tempos are all positive; the last segment runs forever.
   */
  function BeatsFrom(es: seq<TempoEvent>, i: nat, left: real): real
    requires i < |es| && PositiveTempos(es)
    decreases |es| - i
  {
    var bpm := es[i].value;
    if i == |es| - 1 then es[i].beat + left * bpm / 60.0
    else
      var seg := (es[i + 1].beat - es[i].beat) / bpm * 60.0;
      if seg >= left then es[i].beat + left * bpm / 60.0
      else BeatsFrom(es, i + 1, left - seg)
  }

  /** The seconds from the start of the map to event `k`, segment by segment. */
  function Cumulative(es: seq<TempoEvent>, k: nat): real
    requires k < |es| && PositiveTempos(es)
  {
    if k == 0 then 0.0
    else Cumulative(es, k - 1) + (es[k].beat - es[k - 1].beat) / es[k - 1].value * 60.0
  }

  lemma {:induction false} ElapsedIsCumulative(es: seq<TempoEvent>, k: nat)
    requires k < |es| && PositiveTempos(es)
    ensures Elapsed(es[..k + 1]) == Some(Cumulative(es, k))
  {
    if k > 0 {
      ElapsedIsCumulative(es, k - 1);
      assert es[..k + 1][..k] == es[..k];
    }
  }

  lemma {:induction false} CumulativeIncreasing(es: seq<TempoEvent>, i: nat, j: nat)
    requires i < j < |es| && Sorted(es) && PositiveTempos(es)
    ensures Cumulative(es, i) < Cumulative(es, j)
    decreases j - i
  {
    SegmentPositive(es[j].beat - es[j - 1].beat, es[j - 1].value);
    if i < j - 1 {
      CumulativeIncreasing(es, i, j - 1);
    }
  }

  lemma {:induction false} SegmentPositive(beats: real, bpm: real)
    requires beats > 0.0 && bpm > 0.0
    ensures beats / bpm * 60.0 > 0.0
  {
  }

  lemma {:induction false} ScaleBack(beats: real, bpm: real)
    requires bpm > 0.0
    ensures beats / bpm * 60.0 * bpm / 60.0 == beats
  {
  }

  lemma {:induction false} ScaleMonotone(x: real, y: real, bpm: real)
    requires x < y && bpm > 0.0
    ensures x / bpm * 60.0 < y / bpm * 60.0
  {
    SegmentPositive(y - x, bpm);
  }

  /** Walking from segment `i` with the seconds still left before target time lands on `target`. */
  lemma {:induction false} WalkLandsOnTarget(es: seq<TempoEvent>, target: real, n: nat, i: nat, total: real)
    requires Sorted(es) && PositiveTempos(es)
    requires 0 < n <= |es| && i < n
    requires es[n - 1].beat <= target && (n < |es| ==> es[n].beat > target)
    requires total == Cumulative(es, n - 1) + (target - es[n - 1].beat) / es[n - 1].value * 60.0
    ensures BeatsFrom(es, i, total - Cumulative(es, i)) == target
    decreases n - i
  {
    if i == n - 1 {
      WalkInLastSegment(es, target, n, total);
    } else {
      var bpm := es[i].value;
      var seg := (es[i + 1].beat - es[i].beat) / bpm * 60.0;
      WalkPastSegment(es, target, n, i, total);
      if seg < total - Cumulative(es, i) {
        WalkLandsOnTarget(es, target, n, i + 1, total);
      }
    }
  }

  /** In the segment that holds `target`, the remaining seconds convert back to exactly `target`. */
  lemma {:induction false} WalkInLastSegment(es: seq<TempoEvent>, target: real, n: nat, total: real)
    requires Sorted(es) && PositiveTempos(es)
    requires 0 < n <= |es|
    requires es[n - 1].beat <= target && (n < |es| ==> es[n].beat > target)
    requires total == Cumulative(es, n - 1) + (target - es[n - 1].beat) / es[n - 1].value * 60.0
    ensures BeatsFrom(es, n - 1, total - Cumulative(es, n - 1)) == target
  {
    var i := n - 1;
    var bpm := es[i].value;
    ScaleBack(target - es[i].beat, bpm);
    if i < |es| - 1 {
      ScaleMonotone(target - es[i].beat, es[i + 1].beat - es[i].beat, bpm);
    }
  }

  /**
   * Before the segment that holds `target`, either the walk goes on past
   * segment `i` with its seconds taken off, or `target` is the next event's
   * beat and the walk ends there.
   */
  lemma {:induction false} WalkPastSegment(es: seq<TempoEvent>, target: real, n: nat, i: nat, total: real)
    requires Sorted(es) && PositiveTempos(es)
    requires 0 < n <= |es| && i < n - 1
    requires es[n - 1].beat <= target
    requires total == Cumulative(es, n - 1) + (target - es[n - 1].beat) / es[n - 1].value * 60.0
    ensures
      var seg := (es[i + 1].beat - es[i].beat) / es[i].value * 60.0;
      var left := total - Cumulative(es, i);
      if seg < left then BeatsFrom(es, i, left) == BeatsFrom(es, i + 1, total - Cumulative(es, i + 1))
      else BeatsFrom(es, i, left) == target
  {
    var seg := (es[i + 1].beat - es[i].beat) / es[i].value * 60.0;
    var left := total - Cumulative(es, i);
    assert Cumulative(es, i + 1) == Cumulative(es, i) + seg;
    if seg >= left {
      WalkEndsAtNextEvent(es, target, n, i, total);
      ScaleBack(es[i + 1].beat - es[i].beat, es[i].value);
    }
  }

  /** A segment before the one holding `target` can use up the seconds left only when `target` is the next event's beat. */
  lemma {:induction false} WalkEndsAtNextEvent(es: seq<TempoEvent>, target: real, n: nat, i: nat, total: real)
    requires Sorted(es) && PositiveTempos(es)
    requires 0 < n <= |es| && i < n - 1
    requires es[n - 1].beat <= target
    requires total == Cumulative(es, n - 1) + (target - es[n - 1].beat) / es[n - 1].value * 60.0
    requires Cumulative(es, i + 1) >= total
    ensures i + 1 == n - 1 && target == es[n - 1].beat
  {
    if target > es[n - 1].beat {
      SegmentPositive(target - es[n - 1].beat, es[n - 1].value);
    }
    if i + 1 < n - 1 {
      CumulativeIncreasing(es, i + 1, n - 1);
    }
  }

  /**
   * For a map with positive tempos, converting a beat to seconds and the seconds
   * back to beats returns the beat.
   */
  lemma {:induction false} BeatsSecondsRoundTrip(es: seq<TempoEvent>, target: real)
    requires |es| > 0 && Sorted(es) && es[0].beat == 0.0 && PositiveTempos(es) && target >= 0.0
    ensures SecondsAt(es, target).Some?
    ensures BeatsFrom(es, 0, SecondsAt(es, target).value) == target
  {
    var n := CountAtOrBefore(es, target);
    ElapsedRelevant(es, target);
    var total := Cumulative(es, n - 1) + (target - es[n - 1].beat) / es[n - 1].value * 60.0;
    assert SecondsAt(es, target) == Some(total);
    assert es[n - 1].beat <= target && (n < |es| ==> es[n].beat > target);
    assert total - Cumulative(es, 0) == total;
    WalkLandsOnTarget(es, target, n, 0, total);
  }

  /** The seconds to a target: to the last event at or before it, plus the rest at that event's tempo. */
  lemma {:induction false} ElapsedRelevant(es: seq<TempoEvent>, target: real)
    requires |es| > 0 && Sorted(es) && es[0].beat == 0.0 && PositiveTempos(es) && target >= 0.0
    ensures 0 < CountAtOrBefore(es, target)
    ensures var n := CountAtOrBefore(es, target);
      Elapsed(Relevant(es, target)) == Some(Cumulative(es, n - 1) + (target - es[n - 1].beat) / es[n - 1].value * 60.0)
  {
    var n := CountAtOrBefore(es, target);
    assert n > 0;
    SortedOrdered(es);
    AtOrBeforePrefix(es, target);
    ElapsedIsCumulative(es, n - 1);
    var kept := es[..n];
    assert kept[n - 1] == es[n - 1];
    if target > es[n - 1].beat {
      ElapsedExtend(kept, Event(target, ActiveTempo(es, target)), Cumulative(es, n - 1));
    } else {
      assert target == es[n - 1].beat;
    }
  }

  /** Appending an event adds the seconds of the last segment at the previous event's tempo. */
  lemma ElapsedExtend(kept: seq<TempoEvent>, e: TempoEvent, total: real)
    requires |kept| > 0 && Elapsed(kept) == Some(total) && kept[|kept| - 1].value != 0.0
    ensures Elapsed(kept + [e]) == Some(total + (e.beat - kept[|kept| - 1].beat) / kept[|kept| - 1].value * 60.0)
  {
    assert (kept + [e])[..|kept|] == kept;
  }

  /** At a constant 120 BPM, four beats take two seconds. */
  lemma {:induction false} FourBeatsAt120()
    ensures SecondsAt([Event(0.0, 120.0)], 4.0) == Some(2.0)
  {
    var es := [Event(0.0, 120.0)];
    assert AtOrBefore(es, 4.0) == [Event(0.0, 120.0)];
    assert Relevant(es, 4.0) == [Event(0.0, 120.0), Event(4.0, ActiveTempo(es, 4.0))];
  }

  /** A constant tempo converts beats to seconds proportionally. */
  lemma {:induction false} ConstantTempoSeconds(bpm: real, target: real)
    requires bpm != 0.0 && target > 0.0
    ensures SecondsAt([Event(0.0, bpm)], target) == Some(target * 60.0 / bpm)
  {
    var es := [Event(0.0, bpm)];
    assert AtOrBefore(es, target) == es;
    var rel := Relevant(es, target);
    assert rel == [Event(0.0, bpm), Event(target, ActiveTempo(es, target))];
    assert Elapsed(rel[..1]) == Some(0.0);
    ElapsedStep(rel, 0, 0.0);
    assert rel[..2] == rel;
    assert (target - 0.0) / bpm * 60.0 == target * 60.0 / bpm;
  }

  // ---------------------------------------------------------------------------
  // The timeline

  class Timeline {
    var tempoEvents: seq<TempoEvent>
    var timeSignatureEvents: seq<TimeSignatureEvent>

    /** Both maps are sorted by beat, one event per beat, and start with an event at beat 0. */
    ghost predicate Valid()
      reads this
    {
      && |tempoEvents| > 0 && Sorted(tempoEvents) && tempoEvents[0].beat == 0.0
      && |timeSignatureEvents| > 0 && Sorted(timeSignatureEvents) && timeSignatureEvents[0].beat == 0.0
    }

    constructor (tempo: real, numerator: int, denominator: int)
      ensures Valid()
      ensures tempoEvents == [Event(0.0, tempo)]
      ensures timeSignatureEvents == [Event(0.0, Signature(numerator, denominator))]
    {
      tempoEvents := [Event(0.0, tempo)];
      timeSignatureEvents := [Event(0.0, Signature(numerator, denominator))];
    }

    /** The `tempo` property: the tempo in force at beat 0. */
    function Tempo(): (bpm: real)
      reads this
      requires Valid()
      ensures bpm == ActiveTempo(tempoEvents, 0.0)
    {
      FirstIsActiveAtStart(tempoEvents);
      tempoEvents[0].value
    }

    /** The `time_signature` property: the signature at beat 0. */
    function TimeSignature(): (ts: Signature)
      reads this
      requires Valid()
      ensures Event(0.0, ts) in timeSignatureEvents
    {
      timeSignatureEvents[0].value
    }

    /** `set_tempo_at_beat`: a negative beat is ignored; otherwise insert-or-replace by beat. */
    method SetTempoAtBeat(beat: real, bpm: real)
      requires Valid()
      modifies this`tempoEvents
      ensures Valid()
      ensures beat < 0.0 ==> tempoEvents == old(tempoEvents)
      ensures beat >= 0.0 ==> tempoEvents == AddOrUpdate(old(tempoEvents), Event(beat, bpm))
      ensures beat >= 0.0 ==> ActiveTempo(tempoEvents, beat) == bpm
    {
      if beat < 0.0 {
        return;
      }
      AddOrUpdateSorted(tempoEvents, Event(beat, bpm));
      SetThenActive(tempoEvents, Event(beat, bpm));
      tempoEvents := AddOrUpdate(tempoEvents, Event(beat, bpm));
    }

    /** `set_tempo`: the tempo at beat 0. */
    method SetTempo(bpm: real)
      requires Valid()
      modifies this`tempoEvents
      ensures Valid()
      ensures tempoEvents == AddOrUpdate(old(tempoEvents), Event(0.0, bpm))
      ensures tempoEvents == old(tempoEvents)[0 := Event(0.0, bpm)]
      ensures Tempo() == bpm
    {
      ReplaceStart(tempoEvents, bpm);
      SetTempoAtBeat(0.0, bpm);
    }

    /** `set_time_signature_at_beat`: a negative beat is ignored; otherwise insert-or-replace by beat. */
    method SetTimeSignatureAtBeat(beat: real, numerator: int, denominator: int)
      requires Valid()
      modifies this`timeSignatureEvents
      ensures Valid()
      ensures beat < 0.0 ==> timeSignatureEvents == old(timeSignatureEvents)
      ensures beat >= 0.0 ==>
        timeSignatureEvents == AddOrUpdate(old(timeSignatureEvents), Event(beat, Signature(numerator, denominator)))
    {
      if beat < 0.0 {
        return;
      }
      AddOrUpdateSorted(timeSignatureEvents, Event(beat, Signature(numerator, denominator)));
      timeSignatureEvents := AddOrUpdate(timeSignatureEvents, Event(beat, Signature(numerator, denominator)));
    }

    /** `set_time_signature`: the signature at beat 0. */
    method SetTimeSignature(numerator: int, denominator: int)
      requires Valid()
      modifies this`timeSignatureEvents
      ensures Valid()
      ensures timeSignatureEvents == AddOrUpdate(old(timeSignatureEvents), Event(0.0, Signature(numerator, denominator)))
      ensures timeSignatureEvents == old(timeSignatureEvents)[0 := Event(0.0, Signature(numerator, denominator))]
      ensures TimeSignature() == Signature(numerator, denominator)
    {
      ReplaceStart(timeSignatureEvents, Signature(numerator, denominator));
      SetTimeSignatureAtBeat(0.0, numerator, denominator);
    }

    /** `_get_active_tempo_at_beat`. */
    function ActiveTempoAt(beat: real): (bpm: real)
      reads this
      requires Valid()
      ensures beat >= 0.0 ==> exists i :: IsActive(tempoEvents, beat, i) && bpm == tempoEvents[i].value
    {
      assert beat >= 0.0 ==> IsActive(tempoEvents, beat, ActiveIndex(tempoEvents, beat));
      ActiveTempo(tempoEvents, beat)
    }

    /**
     * `beats_to_seconds`: zero for a negative target; otherwise the segments up
     * to the target, each at its start tempo. `None` stands for the division by
     * zero a zero tempo raises.
     */
    method BeatsToSeconds(target: real) returns (r: Option<real>)
      requires Valid()
      ensures r == SecondsAt(tempoEvents, target)
    {
      if target < 0.0 {
        return Some(0.0);
      }
      var rel := AtOrBefore(tempoEvents, target);
      if target > rel[|rel| - 1].beat {
        rel := rel + [Event(target, ActiveTempo(tempoEvents, target))];
      }
      assert rel == Relevant(tempoEvents, target);
      RelevantShape(tempoEvents, target);
      assert rel[0] == rel[..CountAtOrBefore(tempoEvents, target)][0];
      r := WalkSegments(rel, target);
    }

    /**
     * `seconds_to_beats`: zero for a negative target; otherwise segment by
     * segment until the target time falls inside one, the last segment running
     * forever. A segment with a non-positive tempo is skipped.
     */
    method SecondsToBeats(target: real) returns (r: real)
      requires Valid()
      ensures target < 0.0 ==> r == 0.0
      ensures target >= 0.0 && PositiveTempos(tempoEvents) ==> r == BeatsFrom(tempoEvents, 0, target)
    {
      if target < 0.0 {
        return 0.0;
      }
      r := WalkSeconds(tempoEvents, target);
    }
  }

  /**
   * The segment loop of `seconds_to_beats` over a tempo map that starts at
   * beat 0: segment by segment until the target time falls inside one, the
   * last segment running forever; a segment with a non-positive tempo is
   * skipped.
   */
  method WalkSeconds(es: seq<TempoEvent>, target: real) returns (r: real)
    requires |es| > 0 && target >= 0.0
    ensures es[0].beat == 0.0 && PositiveTempos(es) ==> r == BeatsFrom(es, 0, target)
  {
    ghost var good := es[0].beat == 0.0 && PositiveTempos(es);
    var total := 0.0;
    var currentSeconds := 0.0;
    var currentPos := 0.0;
    var i := 0;
    while i < |es|
      invariant 0 <= i <= |es|
      invariant total == currentPos
      invariant good ==> i < |es| && currentPos == es[i].beat && currentSeconds <= target
      invariant good ==> BeatsFrom(es, 0, target) == BeatsFrom(es, i, target - currentSeconds)
    {
      var tempo := es[i].value;
      if tempo <= 0.0 {
        i := i + 1;
        continue;
      }
      if i == |es| - 1 {
        // The closing segment ends at beat infinity, so the target falls inside it.
        return total + (target - currentSeconds) * tempo / 60.0;
      }
      var segmentBeats := es[i + 1].beat - currentPos;
      var segmentSeconds := segmentBeats / tempo * 60.0;
      if currentSeconds + segmentSeconds >= target {
        return total + (target - currentSeconds) * tempo / 60.0;
      }
      total := total + segmentBeats;
      currentSeconds := currentSeconds + segmentSeconds;
      currentPos := es[i + 1].beat;
      i := i + 1;
    }
    return total;
  }

  /**
   * On the timeline's own map, `seconds_to_beats` undoes `beats_to_seconds` for
   * every beat at or after 0 when all tempos are positive.
   */
  lemma {:induction false} TimelineRoundTrip(t: Timeline, target: real)
    requires t.Valid() && PositiveTempos(t.tempoEvents) && target >= 0.0
    ensures SecondsAt(t.tempoEvents, target).Some?
    ensures BeatsFrom(t.tempoEvents, 0, SecondsAt(t.tempoEvents, target).value) == target
  {
    BeatsSecondsRoundTrip(t.tempoEvents, target);
  }

  // ---------------------------------------------------------------------------
  // The constant tempo map

  class TempoMap {
    var tempo: real

    constructor (initialTempo: real)
      ensures tempo == initialTempo
    {
      tempo := initialTempo;
    }

    /** `set_constant_tempo`: a non-positive bpm is refused with an error and changes nothing. */
    method SetConstantTempo(bpm: real) returns (r: Result<(), string>)
      modifies this
      ensures bpm <= 0.0 ==> r == Failure("BPM must be positive.") && tempo == old(tempo)
      ensures bpm > 0.0 ==> r.Success? && tempo == bpm
    {
      if bpm <= 0.0 {
        return Failure("BPM must be positive.");
      }
      tempo := bpm;
      return Success(());
    }

    /** Beats to seconds; `None` stands for the division by zero a zero tempo raises. */
    function BeatsToSeconds(beats: real): (r: Option<real>)
      reads this
      ensures r.Some? <==> tempo != 0.0
    {
      if tempo == 0.0 then None else Some(beats * 60.0 / tempo)
    }

    /** Seconds to beats: with a non-zero tempo, converting the result back gives the seconds. */
    function SecondsToBeats(seconds: real): (beats: real)
      reads this
      ensures tempo != 0.0 ==> BeatsToSeconds(beats) == Some(seconds)
    {
      var b := seconds * tempo / 60.0;
      assert tempo != 0.0 ==> b * 60.0 / tempo == seconds by {
        if tempo != 0.0 {
          assert b * 60.0 == seconds * tempo;
        }
      }
      b
    }
  }

  /** With a non-zero tempo the two conversions of `TempoMap` undo each other. */
  lemma {:induction false} TempoMapRoundTrip(m: TempoMap, beats: real, seconds: real)
    requires m.tempo != 0.0
    ensures m.SecondsToBeats(m.BeatsToSeconds(beats).value) == beats
    ensures m.BeatsToSeconds(m.SecondsToBeats(seconds)) == Some(seconds)
  {
    var t := m.tempo;
    var b := seconds * t / 60.0;
    assert b * 60.0 == seconds * t;
    assert b * 60.0 / t == seconds * t / t == seconds;
    assert m.SecondsToBeats(seconds) == b;
  }

  // ---------------------------------------------------------------------------
  // As written: the searches compare whole events

  /** Python's order on tempo events: by beat, then by bpm. */
  predicate TupleBelow(a: TempoEvent, b: TempoEvent) {
    a.beat < b.beat || (a.beat == b.beat && a.value < b.value)
  }

  /** `bisect_left` on whole events. */
  function BisectLeftAsWritten(es: seq<TempoEvent>, e: TempoEvent): (i: nat)
    ensures i <= |es|
    ensures forall k :: 0 <= k < i ==> TupleBelow(es[k], e)
    ensures i < |es| ==> !TupleBelow(es[i], e)
  {
    if es == [] || !TupleBelow(es[0], e) then 0 else 1 + BisectLeftAsWritten(es[1..], e)
  }

  /** `_add_or_update_event` as written: the search key is the whole event, not its beat. */
  function AddOrUpdateAsWritten(es: seq<TempoEvent>, e: TempoEvent): (r: seq<TempoEvent>)
    ensures e in r
    ensures |r| == |es| || |r| == |es| + 1
    ensures forall x :: x in r ==> x == e || x in es
  {
    var i := BisectLeftAsWritten(es, e);
    if i < |es| && es[i].beat == e.beat then
      assert es[i := e][i] == e;
      es[i := e]
    else
      assert (es[..i] + [e] + es[i..])[i] == e;
      es[..i] + [e] + es[i..]
  }

  /**
   * Raising the beat-0 tempo from 120 to 140 inserts a second event at beat 0
   * behind the first, so the `tempo` property still reads 120; searching by beat
   * replaces it.
   */
  lemma {:induction false} AddOrUpdateAsWrittenDuplicatesBeat()
    ensures var r := AddOrUpdateAsWritten([Event(0.0, 120.0)], Event(0.0, 140.0));
      r == [Event(0.0, 120.0), Event(0.0, 140.0)] && !Sorted(r) && r[0].value == 120.0
    ensures AddOrUpdate([Event(0.0, 120.0)], Event(0.0, 140.0)) == [Event(0.0, 140.0)]
  {
    var r := AddOrUpdateAsWritten([Event(0.0, 120.0)], Event(0.0, 140.0));
    assert BisectLeftAsWritten([Event(0.0, 120.0)], Event(0.0, 140.0)) == 1;
    assert !(r[0].beat < r[1].beat);
  }

  /** `bisect_right` on whole events. */
  function BisectRightAsWritten(es: seq<TempoEvent>, e: TempoEvent): (i: nat)
    ensures i <= |es|
    ensures forall k :: 0 <= k < i ==> !TupleBelow(e, es[k])
    ensures i < |es| ==> TupleBelow(e, es[i])
  {
    if es == [] || TupleBelow(e, es[0]) then 0 else 1 + BisectRightAsWritten(es[1..], e)
  }

  /**
   * `_get_active_tempo_at_beat` as written: the probe carries bpm 0, so an event
   * exactly at the queried beat sorts after it; a zero index reads the last event.
   */
  function ActiveTempoAsWritten(es: seq<TempoEvent>, beat: real): (bpm: real)
    requires |es| > 0
    ensures exists i :: 0 <= i < |es| && bpm == es[i].value
  {
    var i := BisectRightAsWritten(es, Event(beat, 0.0));
    if i == 0 then es[|es| - 1].value else es[i - 1].value
  }

  /**
   * With 120 BPM from beat 0 and 90 BPM from beat 4, the lookup as written gives
   * 120 at beat 4 and 90 at beat 0; searching by beat gives 90 and 120.
   */
  lemma {:induction false} ActiveTempoAsWrittenMissesEventAtBeat()
    ensures ActiveTempoAsWritten([Event(0.0, 120.0), Event(4.0, 90.0)], 4.0) == 120.0
    ensures ActiveTempo([Event(0.0, 120.0), Event(4.0, 90.0)], 4.0) == 90.0
    ensures ActiveTempoAsWritten([Event(0.0, 120.0), Event(4.0, 90.0)], 0.0) == 90.0
    ensures ActiveTempo([Event(0.0, 120.0), Event(4.0, 90.0)], 0.0) == 120.0
  {
    var es := [Event(0.0, 120.0), Event(4.0, 90.0)];
    assert BisectRightAsWritten(es, Event(4.0, 0.0)) == 1;
    assert BisectRightAsWritten(es, Event(0.0, 0.0)) == 0;
    assert CountAtOrBefore(es, 4.0) == 2;
    assert CountAtOrBefore(es, 0.0) == 1;
  }
}
