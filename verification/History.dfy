/**
 * Undoable commands of the editing history and the state machine every
 * command follows: CREATED → EXECUTED ⇄ UNDONE, or FAILED when execution
 * fails. Commands are values: executing or undoing one yields the edited
 * document together with the command's updated state.
 */
module History {
  import opened Wrappers
  import opened Lists
  import opened Dicts
  import opened Track

  datatype State = Created | Executed | Undone | Failed

  datatype Note = Note(pitch: int, velocity: int, startBeat: real, durationBeats: real)

  datatype Op =
      /** Sets a parameter; `oldValue` is the value seen when the command was made. */
    | SetParameter(param: string, newValue: int, oldValue: int)
      /** Adds a MIDI clip to a track. */
    | CreateMidiClip(track: string, clip: Clip)
      /** Adds notes to a clip; `added` are the notes the last execution actually inserted. */
    | AddNotes(clipId: string, toAdd: seq<Note>, added: set<Note>)
      /** A group of commands run and undone as one. */
    | Macro(subs: seq<Command>, recording: bool)

  datatype Command = Command(description: string, state: State, error: Option<string>, op: Op)

  /** What commands edit: parameter values, each track's clips, each clip's notes. */
  datatype Doc = Doc(params: map<string, int>, tracks: map<string, Dict<string, Clip>>, notes: map<string, set<Note>>)

  ghost predicate DocValid(d: Doc) {
    forall t :: t in d.tracks ==> d.tracks[t].Valid()
  }

  function ClipsOf(d: Doc, t: string): (cs: Dict<string, Clip>)
    requires DocValid(d)
    ensures cs.Valid()
  {
    if t in d.tracks then d.tracks[t] else Empty()
  }

  function NotesOf(d: Doc, clipId: string): set<Note> {
    if clipId in d.notes then d.notes[clipId] else {}
  }

  /** The result of running one command. */
  datatype Outcome = Outcome(doc: Doc, cmd: Command, ok: bool)

  /** The result of running one command's own action. */
  datatype Step = Step(doc: Doc, op: Op, ok: bool)

  /** The result of running the commands of a macro. */
  datatype Batch = Batch(doc: Doc, cmds: seq<Command>, ok: bool)

  function Size(c: Command): nat {
    1 + OpSize(c.op)
  }

  function OpSize(op: Op): nat {
    if op.Macro? then SizeAll(op.subs) else 0
  }

  function SizeAll(cs: seq<Command>): nat {
    if cs == [] then 0 else Size(cs[0]) + SizeAll(cs[1..])
  }

  lemma SizeAllSplit(cs: seq<Command>)
    requires cs != []
    ensures Size(cs[0]) <= SizeAll(cs) && SizeAll(cs[1..]) < SizeAll(cs)
  {
  }

  /**
   * `BaseCommand.execute`: an executed command is not run again; otherwise
   * its action runs and the command becomes EXECUTED, or FAILED with an error.
   */
  function Execute(doc: Doc, c: Command): (r: Outcome)
    requires DocValid(doc)
    ensures DocValid(r.doc)
    ensures Size(r.cmd) == Size(c)
    ensures r.cmd.description == c.description
    ensures c.state == Executed ==> r == Outcome(doc, c, true)
    ensures r.ok <==> r.cmd.state == Executed
    ensures !r.ok ==> r.cmd.state == Failed && r.cmd.error.Some?
    ensures c.op.SetParameter? ==> r.ok && r.cmd.op == c.op
    decreases Size(c), 1
  {
    if c.state == Executed then Outcome(doc, c, true)
    else
      var s := DoExecute(doc, c.op);
      if s.ok then Outcome(s.doc, c.(state := Executed, op := s.op), true)
      else Outcome(s.doc, c.(state := Failed, error := Some("Execution returned False"), op := s.op), false)
  }

  /**
   * `BaseCommand.undo`: only an executed command can be undone; success makes
   * it UNDONE, failure keeps it EXECUTED and records an error.
   */
  function Undo(doc: Doc, c: Command): (r: Outcome)
    requires DocValid(doc)
    ensures DocValid(r.doc)
    ensures Size(r.cmd) == Size(c)
    ensures r.cmd.description == c.description
    ensures c.state != Executed ==> r == Outcome(doc, c, false)
    ensures r.ok ==> c.state == Executed && r.cmd.state == Undone
    ensures !r.ok && c.state == Executed ==> r.cmd.state == Executed && r.cmd.error.Some?
    decreases Size(c), 1
  {
    if c.state != Executed then Outcome(doc, c, false)
    else
      var s := DoUndo(doc, c.op);
      if s.ok then Outcome(s.doc, c.(state := Undone, op := s.op), true)
      else Outcome(s.doc, c.(error := Some("Undo returned False"), op := s.op), false)
  }

  /** The `_do_execute` of each command kind. */
  function DoExecute(doc: Doc, op: Op): (s: Step)
    requires DocValid(doc)
    ensures DocValid(s.doc)
    ensures OpSize(s.op) == OpSize(op)
    ensures op.Macro? <==> s.op.Macro?
    decreases OpSize(op), 3
  {
    match op
    case SetParameter(p, v, _) =>
      Step(doc.(params := doc.params[p := v]), op, true)
    case CreateMidiClip(t, clip) =>
      Step(doc.(tracks := doc.tracks[t := ClipsOf(doc, t).Put(clip.clipId, clip)]), op, true)
    case AddNotes(id, toAdd, _) =>
      var before := NotesOf(doc, id);
      var after := before + Elems(toAdd);
      Step(doc.(notes := doc.notes[id := after]), op.(added := after - before), |after| > |before|)
    case Macro(subs, rec) =>
      var b := MacroExecute(doc, subs);
      Step(b.doc, Macro(b.cmds, rec), b.ok)
  }

  /** The `_do_undo` of each command kind. */
  function DoUndo(doc: Doc, op: Op): (s: Step)
    requires DocValid(doc)
    ensures DocValid(s.doc)
    ensures OpSize(s.op) == OpSize(op)
    ensures op.Macro? <==> s.op.Macro?
    ensures op.Macro? ==> s.ok
    decreases OpSize(op), 3
  {
    match op
    case SetParameter(p, _, previous) =>
      Step(doc.(params := doc.params[p := previous]), op, true)
    case CreateMidiClip(t, clip) =>
      var cs := ClipsOf(doc, t);
      Step(doc.(tracks := doc.tracks[t := cs.Pop(clip.clipId)]), op, clip.clipId in cs.items)
    case AddNotes(id, _, added) =>
      var before := NotesOf(doc, id);
      var after := before - added;
      Step(doc.(notes := doc.notes[id := after]), op, |after| < |before|)
    case Macro(subs, rec) =>
      var b := UndoAllReversed(doc, subs);
      Step(b.doc, Macro(b.cmds, rec), true)
  }

  /**
   * `MacroCommand._do_execute`: runs the commands in order; when one fails,
   * the ones already run are undone, the latest first, and the macro fails.
   */
  function MacroExecute(doc: Doc, subs: seq<Command>): (b: Batch)
    requires DocValid(doc)
    ensures DocValid(b.doc)
    ensures |b.cmds| == |subs| && SizeAll(b.cmds) == SizeAll(subs)
    ensures b.ok ==> forall i :: 0 <= i < |b.cmds| ==> b.cmds[i].state == Executed
    ensures !b.ok ==> exists k :: RolledBackAt(subs, b.cmds, k)
    decreases SizeAll(subs), 2
  {
    if subs == [] then Batch(doc, [], true)
    else
      SizeAllSplit(subs);
      var first := Execute(doc, subs[0]);
      if !first.ok then
        assert SizeAll([first.cmd] + subs[1..]) == SizeAll(subs);
        assert RolledBackAt(subs, [first.cmd] + subs[1..], 0);
        Batch(first.doc, [first.cmd] + subs[1..], false)
      else
        var rest := MacroExecute(first.doc, subs[1..]);
        if rest.ok then
          Batch(rest.doc, [first.cmd] + rest.cmds, true)
        else
          var back := Undo(rest.doc, first.cmd);
          assert back.cmd.state != Failed;
          RolledBackCons(subs, rest.cmds, back.cmd);
          Batch(back.doc, [back.cmd] + rest.cmds, false)
  }

  /**
   * Command `k` failed, the ones after it never ran, and each one before it
   * was undone or kept the error of a failed undo.
   */
  ghost predicate RolledBackAt(subs: seq<Command>, cmds: seq<Command>, k: int) {
    && |cmds| == |subs| && 0 <= k < |subs|
    && cmds[k].state == Failed && cmds[k + 1..] == subs[k + 1..]
    && forall i :: 0 <= i < k ==> cmds[i].state == Undone || cmds[i].error.Some?
  }

  lemma RolledBackCons(subs: seq<Command>, rest: seq<Command>, c: Command)
    requires subs != [] && exists k :: RolledBackAt(subs[1..], rest, k)
    requires c.state == Undone || c.error.Some?
    ensures exists k :: RolledBackAt(subs, [c] + rest, k)
  {
    var k :| RolledBackAt(subs[1..], rest, k);
    var cmds := [c] + rest;
    assert cmds[k + 1] == rest[k];
    assert cmds[k + 2..] == rest[k + 1..];
    assert forall i :: 1 <= i < k + 1 ==> cmds[i] == rest[i - 1];
    assert RolledBackAt(subs, cmds, k + 1);
  }

  /** `MacroCommand._do_undo`: undoes every command, the last one first; failures are passed over. */
  function UndoAllReversed(doc: Doc, subs: seq<Command>): (b: Batch)
    requires DocValid(doc)
    ensures DocValid(b.doc)
    ensures |b.cmds| == |subs| && SizeAll(b.cmds) == SizeAll(subs)
    ensures forall i :: 0 <= i < |subs| && subs[i].state != Executed ==> b.cmds[i] == subs[i]
    ensures forall i :: 0 <= i < |subs| && subs[i].state == Executed ==>
              b.cmds[i].state == Undone || b.cmds[i].error.Some?
    decreases SizeAll(subs), 2
  {
    if subs == [] then Batch(doc, [], true)
    else
      SizeAllSplit(subs);
      var rest := UndoAllReversed(doc, subs[1..]);
      var first := Undo(rest.doc, subs[0]);
      var cmds := [first.cmd] + rest.cmds;
      assert forall i :: 1 <= i < |subs| ==> cmds[i] == rest.cmds[i - 1] && subs[i] == subs[1..][i - 1];
      Batch(first.doc, cmds, true)
  }

  /** Decimal text of an integer, as an f-string writes it. */
  function IntToString(i: int): string {
    if i < 0 then "-" + NatToString(-i) else NatToString(i)
  }

  function NatToString(n: nat): string {
    if n < 10 then ["0123456789"[n]] else NatToString(n / 10) + ["0123456789"[n % 10]]
  }

  function SetDescription(p: string, v: int): string {
    "Set " + p + " to " + IntToString(v)
  }

  /** `SetParameterCommand(parameter, new_value)`: remembers the parameter's current value. */
  function NewSetParameter(doc: Doc, p: string, v: int): Command
    requires p in doc.params
  {
    Command(SetDescription(p, v), Created, None, SetParameter(p, v, doc.params[p]))
  }

  function NewCreateMidiClip(t: string, clip: Clip): Command {
    Command("Create MIDI Clip '" + clip.name + "'", Created, None, CreateMidiClip(t, clip))
  }

  function NewAddNotes(clipId: string, toAdd: seq<Note>): Command {
    Command("Add notes to clip " + clipId, Created, None, AddNotes(clipId, toAdd, {}))
  }

  /** `can_merge_with`: only a parameter change merges, and only with a change of the same parameter. */
  predicate CanMerge(top: Command, c: Command) {
    top.op.SetParameter? && c.op.SetParameter? && top.op.param == c.op.param
  }

  /**
   * Mergeability compares parameters by identity: it is symmetric, and a
   * parameter change can merge with itself.
   */
  lemma CanMergeSameParameter(top: Command, c: Command)
    ensures CanMerge(top, c) <==> CanMerge(c, top)
    ensures top.op.SetParameter? ==> CanMerge(top, top)
    ensures CanMerge(top, c) ==> top.op.param == c.op.param
  {
  }

  /**
   * `merge_with` as intended: the merged command keeps the first old value
   * and takes the later target value and its description.
   */
  function Merge(top: Command, c: Command): (m: Command)
    requires CanMerge(top, c)
    ensures m.op == SetParameter(top.op.param, c.op.newValue, top.op.oldValue)
    ensures m.state == top.state
    ensures m.description == SetDescription(top.op.param, c.op.newValue)
  {
    top.(op := top.op.(newValue := c.op.newValue), description := SetDescription(top.op.param, c.op.newValue))
  }

  /**
   * `merge_with` as written: the target value is overwritten, then assigning
   * the read-only `description` raises, so the description keeps the old
   * target and the merge is reported as failed.
   */
  function MergeAsWritten(top: Command, c: Command): (r: Result<Command, Command>)
    requires CanMerge(top, c)
    ensures r.Failure? && r.error.op.SetParameter? && r.error.op.newValue == c.op.newValue
    ensures r.error.op.oldValue == top.op.oldValue && r.error.description == top.description
  {
    Failure(top.(op := top.op.(newValue := c.op.newValue)))
  }

  /** Setting a parameter and undoing the change restores the document exactly. */
  lemma SetParameterRoundTrip(doc: Doc, p: string, v: int)
    requires DocValid(doc) && p in doc.params
    ensures var e := Execute(doc, NewSetParameter(doc, p, v));
            && e.ok && e.doc == doc.(params := doc.params[p := v])
            && var u := Undo(e.doc, e.cmd);
               u.ok && u.doc == doc && u.cmd.state == Undone
  {
    assert doc.params[p := v][p := doc.params[p]] == doc.params;
  }

  /** Creating a clip under a new id adds it; undoing removes it and restores the document exactly. */
  lemma CreateMidiClipRoundTrip(doc: Doc, t: string, clip: Clip)
    requires DocValid(doc) && t in doc.tracks && clip.clipId !in doc.tracks[t].items
    ensures var e := Execute(doc, NewCreateMidiClip(t, clip));
            && e.ok && ClipsOf(e.doc, t) == doc.tracks[t].Put(clip.clipId, clip)
            && var u := Undo(e.doc, e.cmd);
               u.ok && u.doc == doc
  {
    var c := NewCreateMidiClip(t, clip);
    var d1 := doc.(tracks := doc.tracks[t := doc.tracks[t].Put(clip.clipId, clip)]);
    CreateMidiClipExecutes(doc, t, clip, d1);
    CreateMidiClipUndoes(doc, t, clip, d1, c.(state := Executed));
  }

  lemma CreateMidiClipExecutes(doc: Doc, t: string, clip: Clip, d1: Doc)
    requires DocValid(doc) && t in doc.tracks
    requires d1 == doc.(tracks := doc.tracks[t := doc.tracks[t].Put(clip.clipId, clip)])
    ensures Execute(doc, NewCreateMidiClip(t, clip)) == Outcome(d1, NewCreateMidiClip(t, clip).(state := Executed), true)
  {
    assert DoExecute(doc, CreateMidiClip(t, clip)) == Step(d1, CreateMidiClip(t, clip), true);
  }

  lemma CreateMidiClipUndoes(doc: Doc, t: string, clip: Clip, d1: Doc, c: Command)
    requires DocValid(doc) && t in doc.tracks && clip.clipId !in doc.tracks[t].items
    requires d1 == doc.(tracks := doc.tracks[t := doc.tracks[t].Put(clip.clipId, clip)])
    requires c.state == Executed && c.op == CreateMidiClip(t, clip)
    ensures DocValid(d1)
    ensures Undo(d1, c).ok && Undo(d1, c).doc == doc
  {
    AddThenRemove(doc.tracks[t], clip);
    assert DoUndo(d1, c.op).doc == doc.(tracks := doc.tracks[t := doc.tracks[t]]);
    assert doc.tracks[t := doc.tracks[t]] == doc.tracks;
  }

  lemma GrowsIffNew(before: set<Note>, toAdd: seq<Note>)
    ensures |before + Elems(toAdd)| > |before| <==> exists n :: n in toAdd && n !in before
  {
    if exists n :: n in toAdd && n !in before {
      var n :| n in toAdd && n !in before;
      SubsetCardStrict(before, before + Elems(toAdd));
    } else {
      assert before + Elems(toAdd) == before;
    }
  }

  /** Adding notes succeeds exactly when at least one of them is new to the clip. */
  lemma AddNotesSucceedsIffNew(doc: Doc, clipId: string, toAdd: seq<Note>)
    requires DocValid(doc)
    ensures Execute(doc, NewAddNotes(clipId, toAdd)).ok <==> exists n :: n in toAdd && n !in NotesOf(doc, clipId)
  {
    GrowsIffNew(NotesOf(doc, clipId), toAdd);
  }

  /**
   * After adding notes succeeds, undoing it succeeds and removes exactly the
   * notes that were inserted, restoring the document.
   */
  lemma AddNotesRoundTrip(doc: Doc, clipId: string, toAdd: seq<Note>)
    requires DocValid(doc) && clipId in doc.notes
    ensures var e := Execute(doc, NewAddNotes(clipId, toAdd));
            e.ok ==> var u := Undo(e.doc, e.cmd); u.ok && u.doc == doc
  {
    var before := doc.notes[clipId];
    var after := before + Elems(toAdd);
    if |after| > |before| {
      assert after - (after - before) == before;
      assert doc.notes[clipId := after][clipId := before] == doc.notes;
    }
  }

  /** `AddNotesToClipCommand._do_undo` as written: removes every listed note that is present. */
  function UndoAddNotesAsWritten(current: set<Note>, toAdd: seq<Note>): (r: set<Note>)
    ensures r <= current && forall n :: n in toAdd ==> n !in r
  {
    current - Elems(toAdd)
  }

  /**
   * Undoing as written also removes a listed note that was in the clip
   * before the command ran, so the clip does not get its notes back.
   */
  lemma AddNotesUndoAsWrittenLosesNote(before: set<Note>, toAdd: seq<Note>, n: Note)
    requires n in before && n in toAdd
    ensures UndoAddNotesAsWritten(before + Elems(toAdd), toAdd) != before
  {
    assert n !in UndoAddNotesAsWritten(before + Elems(toAdd), toAdd);
  }

  /**
   * Undoing a macro runs its commands backwards: two changes of one parameter
   * are undone to the value before the first, not the value between them.
   */
  lemma MacroUndoRunsBackwards(doc: Doc, p: string, a: int, b: int)
    requires DocValid(doc) && p in doc.params
    ensures var first := Command("", Executed, None, SetParameter(p, a, doc.params[p]));
            var second := Command("", Executed, None, SetParameter(p, b, a));
            var m := Command("", Executed, None, Macro([first, second], false));
            var u := Undo(doc.(params := doc.params[p := b]), m);
            && u.ok && u.doc.params == doc.params
            && u.cmd.op.Macro? && |u.cmd.op.subs| == 2
            && u.cmd.op.subs[0].state == Undone && u.cmd.op.subs[1].state == Undone
  {
    var first := Command("", Executed, None, SetParameter(p, a, doc.params[p]));
    var second := Command("", Executed, None, SetParameter(p, b, a));
    var d := doc.(params := doc.params[p := b]);
    var subs := [first, second];
    assert subs[1..] == [second] && subs[1..][1..] == [];
    var none := UndoAllReversed(d, []);
    assert none == Batch(d, [], true);
    var d2 := doc.(params := doc.params[p := b][p := a]);
    assert DoUndo(d, second.op) == Step(d2, second.op, true);
    var u2 := Undo(d, second);
    assert u2 == Outcome(d2, second.(state := Undone), true);
    var tail := UndoAllReversed(d, [second]);
    assert tail == Batch(d2, [second.(state := Undone)], true);
    assert DoUndo(d2, first.op).doc.params == doc.params[p := b][p := a][p := doc.params[p]];
    var u1 := Undo(d2, first);
    assert u1.doc.params == doc.params[p := b][p := a][p := doc.params[p]];
    assert doc.params[p := b][p := a][p := doc.params[p]] == doc.params;
    var r := UndoAllReversed(d, subs);
    assert r == Batch(u1.doc, [u1.cmd, second.(state := Undone)], true);
    assert DoUndo(d, Macro(subs, false)) == Step(r.doc, Macro(r.cmds, false), true);
  }

  /**
   * A macro whose second command fails undoes the first one: the parameter
   * it set gets its old value back and the macro ends FAILED.
   */
  lemma MacroFailureRollsBack(doc: Doc, p: string, v: int, clipId: string)
    requires DocValid(doc) && p in doc.params
    ensures var m := Command("", Created, None, Macro([NewSetParameter(doc, p, v), NewAddNotes(clipId, [])], false));
            var e := Execute(doc, m);
            && !e.ok && e.cmd.state == Failed && e.doc.params == doc.params
            && e.cmd.op.Macro? && |e.cmd.op.subs| == 2
            && e.cmd.op.subs[0].state == Undone && e.cmd.op.subs[1].state == Failed
  {
    var change := NewSetParameter(doc, p, v);
    var add := NewAddNotes(clipId, []);
    SetThenUndoParams(doc, p, v);
    var e1 := Execute(doc, change);
    EmptyAddFails(e1.doc, clipId);
    SecondFails(doc, change, add);
  }

  /**
   * A macro of two commands whose second one fails: the first is undone,
   * the second keeps its failure, and the macro fails.
   */
  lemma SecondFails(doc: Doc, first: Command, second: Command)
    requires DocValid(doc)
    requires Execute(doc, first).ok && !Execute(Execute(doc, first).doc, second).ok
    ensures var e1 := Execute(doc, first);
      var e2 := Execute(e1.doc, second);
      var back := Undo(e2.doc, e1.cmd);
      DoExecute(doc, Macro([first, second], false)) == Step(back.doc, Macro([back.cmd, e2.cmd], false), false)
  {
    var e1 := Execute(doc, first);
    var e2 := Execute(e1.doc, second);
    var back := Undo(e2.doc, e1.cmd);
    SecondFailsBatch(doc, first, second);
    assert MacroExecute(doc, [first, second]) == Batch(back.doc, [back.cmd, e2.cmd], false);
  }

  /** `SecondFails` at the level of the batch the macro's commands produce. */
  lemma SecondFailsBatch(doc: Doc, first: Command, second: Command)
    requires DocValid(doc)
    requires Execute(doc, first).ok && !Execute(Execute(doc, first).doc, second).ok
    ensures var e1 := Execute(doc, first);
      var e2 := Execute(e1.doc, second);
      var back := Undo(e2.doc, e1.cmd);
      MacroExecute(doc, [first, second]) == Batch(back.doc, [back.cmd, e2.cmd], false)
  {
    var subs := [first, second];
    assert subs[1..] == [second] && subs[1..][1..] == [];
    var e1 := Execute(doc, first);
    var e2 := Execute(e1.doc, second);
    assert MacroExecute(e1.doc, [second]) == Batch(e2.doc, [e2.cmd], false);
  }

  /** Adding no notes changes no clip, so the command fails and leaves the parameters alone. */
  lemma EmptyAddFails(doc: Doc, clipId: string)
    requires DocValid(doc)
    ensures var e := Execute(doc, NewAddNotes(clipId, []));
      !e.ok && e.cmd.state == Failed && e.doc.params == doc.params
  {
    var none: seq<Note> := [];
    assert NotesOf(doc, clipId) + Elems(none) == NotesOf(doc, clipId);
  }

  /**
   * Setting a parameter succeeds, and undoing it in any document that agrees
   * on the parameters puts the old value back.
   */
  lemma SetThenUndoParams(doc: Doc, p: string, v: int)
    requires DocValid(doc) && p in doc.params
    ensures var e := Execute(doc, NewSetParameter(doc, p, v));
      && e.ok && e.doc.params == doc.params[p := v] && e.cmd.state == Executed
      && forall d :: DocValid(d) && d.params == e.doc.params ==>
           Undo(d, e.cmd).ok && Undo(d, e.cmd).doc.params == doc.params
  {
    var e := Execute(doc, NewSetParameter(doc, p, v));
    assert doc.params[p := v][p := doc.params[p]] == doc.params;
  }

  /**
   * Running a second change of a parameter and then merging it into the first,
   * as the corrected manager does, leaves one history entry whose undo
   * restores the value before both changes and whose redo sets the later
   * target.
   */
  lemma MergedChangeActsAsOne(doc: Doc, p: string, a: int, b: int)
    requires DocValid(doc) && p in doc.params
    ensures var e1 := Execute(doc, NewSetParameter(doc, p, a));
            && e1.doc == doc.(params := doc.params[p := a])
            && var e2 := Execute(e1.doc, NewSetParameter(e1.doc, p, b));
               && e2.doc == doc.(params := doc.params[p := b]) && CanMerge(e1.cmd, e2.cmd)
               && var u := Undo(e2.doc, Merge(e1.cmd, e2.cmd));
                  && u.ok && u.doc == doc
                  && var r := Execute(u.doc, u.cmd);
                     r.ok && r.doc == e2.doc
  {
    assert doc.params[p := a][p := b][p := doc.params[p]] == doc.params;
    assert doc.params[p := b] == doc.params[p := a][p := b];
    assert doc.params[p := b][p := doc.params[p]] == doc.params;
  }

  /**
   * With the merge raising half-way, the first entry silently takes the second
   * target while the second change is also recorded: after undoing both, redo
   * sets the second target `b` instead of the first target `a`.
   */
  lemma MergeAsWrittenRedoSkipsValue(doc: Doc, p: string, a: int, b: int)
    requires DocValid(doc) && p in doc.params && a != b
    ensures var e1 := Execute(doc, NewSetParameter(doc, p, a));
            && e1.doc == doc.(params := doc.params[p := a])
            && var second := NewSetParameter(e1.doc, p, b);
               && CanMerge(e1.cmd, second)
               && var top := MergeAsWritten(e1.cmd, second).error;
                  var e2 := Execute(e1.doc, second);
                  var u2 := Undo(e2.doc, e2.cmd);
                  var u1 := Undo(u2.doc, top);
                  var r := Execute(u1.doc, u1.cmd);
                  && u2.doc == e1.doc && u1.doc == doc
                  && r.ok && r.doc == doc.(params := doc.params[p := b])
  {
    assert doc.params[p := a][p := b][p := a] == doc.params[p := a];
    assert doc.params[p := a][p := doc.params[p]] == doc.params;
  }

  /**
   * A merge that completes returns without running the second change: the
   * document keeps the first target `a` while the merged entry already names
   * `b` in its target and its description. The parameter reaches `b` only
   * once that entry is undone and redone.
   */
  lemma CompletedMergeKeepsOldValue(doc: Doc, p: string, a: int, b: int)
    requires DocValid(doc) && p in doc.params && a != b
    ensures var e1 := Execute(doc, NewSetParameter(doc, p, a));
            && e1.doc == doc.(params := doc.params[p := a])
            && var second := NewSetParameter(e1.doc, p, b);
               && CanMerge(e1.cmd, second)
               && var top := Merge(e1.cmd, second);
                  && top.op.newValue == b && top.description == SetDescription(p, b)
                  && e1.doc.params[p] == a && e1.doc.params[p] != b
                  && var u := Undo(e1.doc, top);
                     var r := Execute(u.doc, u.cmd);
                     && u.ok && u.doc == doc
                     && r.ok && r.doc == doc.(params := doc.params[p := b])
  {
    assert doc.params[p := a][p := doc.params[p]] == doc.params;
  }
}
