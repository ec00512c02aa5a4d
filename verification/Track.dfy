/**
 * A track of the project model: its name and its clips keyed by clip id,
 * listed by start beat.
 */
module Track {
  import opened Lists
  import opened Dicts
  import opened Wrappers

  datatype Clip = Clip(clipId: string, startBeat: real, durationBeats: real, name: string)

  /** The clips of a dict in key insertion order, as `dict.values()` lists them. */
  function Values(d: Dict<string, Clip>): (vs: seq<Clip>)
    requires d.Valid()
    ensures |vs| == |d.keys|
    ensures forall i :: 0 <= i < |vs| ==> vs[i] == d.items[d.keys[i]]
  {
    ValuesOf(d.keys, d.items)
  }

  function ValuesOf(ks: seq<string>, items: map<string, Clip>): (vs: seq<Clip>)
    requires forall k :: k in ks ==> k in items
    ensures |vs| == |ks|
    ensures forall i :: 0 <= i < |vs| ==> vs[i] == items[ks[i]]
  {
    if ks == [] then [] else [items[ks[0]]] + ValuesOf(ks[1..], items)
  }

  ghost predicate SortedByStart(cs: seq<Clip>) {
    forall i, j :: 0 <= i < j < |cs| ==> cs[i].startBeat <= cs[j].startBeat
  }

  /** Python's stable `sorted(..., key=start_beat)`, as an insertion sort from the back. */
  function SortByStart(cs: seq<Clip>): (r: seq<Clip>)
    ensures multiset(r) == multiset(cs)
    ensures SortedByStart(r)
  {
    if cs == [] then []
    else
      assert cs == [cs[0]] + cs[1..];
      var rest := SortByStart(cs[1..]);
      InsertSorted(cs[0], rest);
      InsertBeforeEqual(cs[0], rest)
  }

  /** Places `c` before the first clip that starts at or after it, so `c` stays ahead of its equals. */
  function InsertBeforeEqual(c: Clip, cs: seq<Clip>): (r: seq<Clip>)
    ensures multiset(r) == multiset(cs) + multiset{c}
    ensures |r| == |cs| + 1
    ensures forall x :: x in r ==> x == c || x in cs
  {
    if cs == [] then [c]
    else if c.startBeat <= cs[0].startBeat then [c] + cs
    else
      assert cs == [cs[0]] + cs[1..];
      [cs[0]] + InsertBeforeEqual(c, cs[1..])
  }

  lemma {:induction false} InsertSorted(c: Clip, cs: seq<Clip>)
    requires SortedByStart(cs)
    ensures SortedByStart(InsertBeforeEqual(c, cs))
  {
    if cs != [] && c.startBeat > cs[0].startBeat {
      var rest := InsertBeforeEqual(c, cs[1..]);
      InsertSorted(c, cs[1..]);
      assert forall x :: x in cs[1..] ==> cs[0].startBeat <= x.startBeat;
      var r := [cs[0]] + rest;
      forall i, j | 0 <= i < j < |r| ensures r[i].startBeat <= r[j].startBeat {
        if i > 0 {
          assert r[i] == rest[i - 1] && r[j] == rest[j - 1];
        } else {
          assert r[j] in rest;
        }
      }
    }
  }

  /** A clip is among the values exactly when it is stored under its own id. */
  lemma ValuesByClipId(d: Dict<string, Clip>)
    requires d.Valid() && forall id :: id in d.items ==> d.items[id].clipId == id
    ensures forall c :: c in Values(d) <==> c.clipId in d.items && d.items[c.clipId] == c
  {
    var vs := Values(d);
    forall c: Clip | c.clipId in d.items && d.items[c.clipId] == c ensures c in vs {
      var i := IndexOf(d.keys, c.clipId);
      assert vs[i] == c;
    }
  }

  class Track {
    var name: string
    var clips: Dict<string, Clip>

    ghost predicate Valid()
      reads this
    {
      clips.Valid() && forall id :: id in clips.items ==> clips.items[id].clipId == id
    }

    constructor (name: string)
      ensures Valid() && this.name == name && clips.keys == [] && clips.items == map[]
    {
      this.name := name;
      clips := Empty();
    }

    /** The `clips` property: every clip once, ordered by start beat. */
    method Clips() returns (r: seq<Clip>)
      requires Valid()
      ensures SortedByStart(r)
      ensures multiset(r) == multiset(Values(clips))
      ensures forall c :: c in r <==> c.clipId in clips.items && clips.items[c.clipId] == c
    {
      r := SortByStart(Values(clips));
      ValuesByClipId(clips);
      assert forall c :: c in r <==> c in multiset(Values(clips));
    }

    /** `set_name`: the same name changes nothing and returns `None`; otherwise the old name is returned. */
    method SetName(value: string) returns (previous: Option<string>)
      requires Valid()
      modifies this`name
      ensures Valid()
      ensures old(name) == value ==> previous == None && name == old(name)
      ensures old(name) != value ==> previous == Some(old(name)) && name == value
    {
      if name == value {
        return None;
      }
      previous := Some(name);
      name := value;
    }

    /** `add_clip`: stores the clip under its id, replacing a clip with the same id in place. */
    method AddClip(c: Clip)
      requires Valid()
      modifies this`clips
      ensures Valid()
      ensures clips == old(clips).Put(c.clipId, c)
      ensures clips.items[c.clipId] == c
      ensures forall id :: id != c.clipId ==> (id in clips.items <==> id in old(clips.items))
    {
      clips := clips.Put(c.clipId, c);
    }

    /** `remove_clip`: true exactly when the id was present, and then it is gone. */
    method RemoveClip(id: string) returns (removed: bool)
      requires Valid()
      modifies this`clips
      ensures Valid()
      ensures removed <==> id in old(clips.items)
      ensures clips == old(clips).Pop(id)
      ensures id !in clips.items
    {
      removed := id in clips.items;
      clips := clips.Pop(id);
    }
  }

  /** Adding a clip under a fresh id and removing it again restores the clips, order included. */
  lemma AddThenRemove(d: Dict<string, Clip>, c: Clip)
    requires d.Valid() && c.clipId !in d.items
    ensures d.Put(c.clipId, c).Pop(c.clipId) == d
  {
    var p := d.Put(c.clipId, c);
    assert p.keys == d.keys + [c.clipId];
    RemoveLast(d.keys, c.clipId);
    PutThenRemove(d.items, c.clipId, c);
  }

  lemma PutThenRemove<K, V>(m: map<K, V>, k: K, v: V)
    requires k !in m
    ensures m[k := v] - {k} == m
  {
    assert forall j :: j in m[k := v] - {k} <==> j in m;
  }

  lemma {:induction false} RemoveLast(s: seq<string>, x: string)
    requires x !in s
    ensures RemoveFirst(s + [x], x) == s
  {
    if s != [] {
      assert (s + [x])[1..] == s[1..] + [x];
      RemoveLast(s[1..], x);
    }
  }
}
