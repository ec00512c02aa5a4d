/**
 * The command manager: an undo stack and a redo stack of commands, a limit
 * on the history, and the macro being recorded (with the enclosing macros
 * it interrupted). The document the commands edit is held here as `doc`.
 */
module CommandManager {
  import opened Wrappers
  import opened History

  /** A macro that is still recording; nothing has run it as a whole yet. */
  ghost predicate IsOpenMacro(m: Command) {
    m.op.Macro? && m.op.recording && m.state == Created
  }

  /** `MacroCommand(description)`. */
  function NewMacro(description: string): (m: Command)
    ensures IsOpenMacro(m) && m.state == Created && m.op.subs == []
  {
    Command(description, Created, None, Macro([], true))
  }

  /** `add_command` on a recording macro: the command goes to the end. */
  function AddToMacro(m: Command, c: Command): (r: Command)
    requires IsOpenMacro(m)
    ensures IsOpenMacro(r) && r.op.subs == m.op.subs + [c]
    ensures r.state == m.state && r.description == m.description
  {
    m.(op := m.op.(subs := m.op.subs + [c]))
  }

  /** The most entries the undo and redo stacks may hold together. */
  function Cap(maxHistory: int): nat {
    if maxHistory < 0 then 0 else maxHistory
  }

  /**
   * Pushing onto a history of at most `maxHistory` entries: the new entry is
   * added, and the oldest one dropped when the limit is exceeded.
   */
  function Pushed(s: seq<Command>, c: Command, maxHistory: int): (r: seq<Command>)
    ensures |s| <= |r| <= |s| + 1 && r == (s + [c])[|s| + 1 - |r|..]
    ensures |r| <= Cap(maxHistory) || |r| == |s|
    ensures |s| < maxHistory ==> r == s + [c]
  {
    var t := s + [c];
    if |t| > maxHistory then t[1..] else t
  }

  class Manager {
    var doc: Doc
    var undoStack: seq<Command>
    var redoStack: seq<Command>
    var maxHistory: int
    var current: Option<Command>
    var macroStack: seq<Command>
    var totalExecuted: nat
    var totalUndone: nat
    var totalRedone: nat
    var mergeCount: nat

    /** The recording macro and the ones it interrupted are open macros; nesting needs a current macro. */
    ghost predicate Valid()
      reads this
    {
      && DocValid(doc)
      && (current.Some? ==> IsOpenMacro(current.value))
      && (forall i :: 0 <= i < |macroStack| ==> IsOpenMacro(macroStack[i]))
      && (macroStack != [] ==> current.Some?)
    }

    /** The two stacks together stay within the history limit. */
    ghost predicate WithinHistory()
      reads this
    {
      |undoStack| + |redoStack| <= Cap(maxHistory)
    }

    constructor (doc: Doc, maxHistory: int)
      requires DocValid(doc)
      ensures Valid() && WithinHistory()
      ensures this.doc == doc && this.maxHistory == maxHistory
      ensures undoStack == [] && redoStack == [] && current == None && macroStack == []
      ensures totalExecuted == 0 && totalUndone == 0 && totalRedone == 0 && mergeCount == 0
    {
      this.doc := doc;
      this.maxHistory := maxHistory;
      undoStack := [];
      redoStack := [];
      current := None;
      macroStack := [];
      totalExecuted := 0;
      totalUndone := 0;
      totalRedone := 0;
      mergeCount := 0;
    }

    /**
     * `execute_command` with a merge that completes: inside a macro the command
     * runs and joins the macro; a change of the same parameter as the newest
     * entry runs and is merged into it (the source returns after the merge
     * without running it; running it is the correction); otherwise a command
     * that runs is pushed, within the history limit, and the redo stack is
     * cleared.
     */
    method ExecuteCommand(cmd: Command) returns (after: Command)
      requires Valid() && WithinHistory()
      modifies this
      ensures Valid() && WithinHistory()
      ensures maxHistory == old(maxHistory) && totalUndone == old(totalUndone) && totalRedone == old(totalRedone)
      ensures var e := Execute(old(doc), cmd); doc == e.doc && after == e.cmd
      ensures old(current).Some? ==>
                && current == Some(AddToMacro(old(current).value, after))
                && undoStack == old(undoStack) && redoStack == old(redoStack) && macroStack == old(macroStack)
                && totalExecuted == old(totalExecuted) && mergeCount == old(mergeCount)
      ensures old(current).None? && old(undoStack) != [] && CanMerge(old(undoStack[|undoStack| - 1]), cmd) ==>
                && undoStack == old(undoStack[..|undoStack| - 1]) + [Merge(old(undoStack[|undoStack| - 1]), after)]
                && redoStack == old(redoStack) && current == None && macroStack == old(macroStack)
                && mergeCount == old(mergeCount) + 1 && totalExecuted == old(totalExecuted)
      ensures old(current).None? && !(old(undoStack) != [] && CanMerge(old(undoStack[|undoStack| - 1]), cmd)) ==>
                && current == None && macroStack == old(macroStack) && mergeCount == old(mergeCount)
                && (after.state == Executed ==>
                      undoStack == Pushed(old(undoStack), after, maxHistory) && redoStack == []
                      && totalExecuted == old(totalExecuted) + 1)
                && (after.state != Executed ==>
                      undoStack == old(undoStack) && redoStack == old(redoStack) && totalExecuted == old(totalExecuted))
    {
      if current.Some? {
        var e := Execute(doc, cmd);
        doc := e.doc;
        current := Some(AddToMacro(current.value, e.cmd));
        return e.cmd;
      }
      if undoStack != [] && CanMerge(undoStack[|undoStack| - 1], cmd) {
        var e := Execute(doc, cmd);
        doc := e.doc;
        undoStack := undoStack[..|undoStack| - 1] + [Merge(undoStack[|undoStack| - 1], e.cmd)];
        mergeCount := mergeCount + 1;
        return e.cmd;
      }
      var e := Execute(doc, cmd);
      doc := e.doc;
      after := e.cmd;
      if e.ok {
        undoStack := undoStack + [e.cmd];
        redoStack := [];
        totalExecuted := totalExecuted + 1;
        if |undoStack| > maxHistory {
          undoStack := undoStack[1..];
        }
      }
    }

    /**
     * `execute_command` as written: the merge overwrites the newest entry's
     * target and then raises, so the command also runs and is pushed as a
     * separate entry.
     */
    method ExecuteCommandAsWritten(cmd: Command) returns (after: Command)
      requires Valid() && WithinHistory()
      modifies this
      ensures Valid() && WithinHistory()
      ensures var e := Execute(old(doc), cmd); doc == e.doc && after == e.cmd
      ensures old(current).None? && old(undoStack) != [] && CanMerge(old(undoStack[|undoStack| - 1]), cmd) ==>
                var touched := old(undoStack[..|undoStack| - 1]) + [MergeAsWritten(old(undoStack[|undoStack| - 1]), cmd).error];
                && mergeCount == old(mergeCount)
                && (after.state == Executed ==> undoStack == Pushed(touched, after, maxHistory) && redoStack == [])
                && (after.state != Executed ==> undoStack == touched && redoStack == old(redoStack))
    {
      if current.Some? {
        var e := Execute(doc, cmd);
        doc := e.doc;
        current := Some(AddToMacro(current.value, e.cmd));
        return e.cmd;
      }
      if undoStack != [] && CanMerge(undoStack[|undoStack| - 1], cmd) {
        var merged := MergeAsWritten(undoStack[|undoStack| - 1], cmd);
        undoStack := undoStack[..|undoStack| - 1] + [merged.error];
      }
      var e := Execute(doc, cmd);
      doc := e.doc;
      after := e.cmd;
      if e.ok {
        undoStack := undoStack + [e.cmd];
        redoStack := [];
        totalExecuted := totalExecuted + 1;
        if |undoStack| > maxHistory {
          undoStack := undoStack[1..];
        }
      }
    }

    /**
     * `undo`: nothing happens with an empty undo stack or while a macro records;
     * otherwise the newest entry is undone and moves to the redo stack, or goes
     * back with its error when its undo fails.
     */
    method Undo()
      requires Valid() && WithinHistory()
      modifies this
      ensures Valid() && WithinHistory()
      ensures old(undoStack) == [] || old(current).Some? ==> unchanged(this)
      ensures old(undoStack) != [] && old(current).None? ==>
                var n := |old(undoStack)|;
                var u := History.Undo(old(doc), old(undoStack)[n - 1]);
                && doc == u.doc && current == old(current) && macroStack == old(macroStack)
                && totalExecuted == old(totalExecuted) && totalRedone == old(totalRedone) && mergeCount == old(mergeCount)
                && (u.ok ==> undoStack == old(undoStack)[..n - 1] && redoStack == old(redoStack) + [u.cmd]
                             && totalUndone == old(totalUndone) + 1)
                && (!u.ok ==> undoStack == old(undoStack)[..n - 1] + [u.cmd] && redoStack == old(redoStack)
                              && totalUndone == old(totalUndone))
    {
      if undoStack == [] {
        return;
      }
      if current.Some? {
        return;
      }
      var top := undoStack[|undoStack| - 1];
      undoStack := undoStack[..|undoStack| - 1];
      var u := History.Undo(doc, top);
      doc := u.doc;
      if u.ok {
        redoStack := redoStack + [u.cmd];
        totalUndone := totalUndone + 1;
      } else {
        undoStack := undoStack + [u.cmd];
      }
    }

    /**
     * `redo`: nothing happens with an empty redo stack or while a macro records;
     * otherwise the newest undone entry runs again and moves to the undo stack,
     * or goes back when it fails.
     */
    method Redo()
      requires Valid() && WithinHistory()
      modifies this
      ensures Valid() && WithinHistory()
      ensures old(redoStack) == [] || old(current).Some? ==> unchanged(this)
      ensures old(redoStack) != [] && old(current).None? ==>
                var n := |old(redoStack)|;
                var e := Execute(old(doc), old(redoStack)[n - 1]);
                && doc == e.doc && current == old(current) && macroStack == old(macroStack)
                && totalExecuted == old(totalExecuted) && totalUndone == old(totalUndone) && mergeCount == old(mergeCount)
                && (e.ok ==> redoStack == old(redoStack)[..n - 1] && undoStack == old(undoStack) + [e.cmd]
                             && totalRedone == old(totalRedone) + 1)
                && (!e.ok ==> redoStack == old(redoStack)[..n - 1] + [e.cmd] && undoStack == old(undoStack)
                              && totalRedone == old(totalRedone))
    {
      if redoStack == [] {
        return;
      }
      if current.Some? {
        return;
      }
      var top := redoStack[|redoStack| - 1];
      redoStack := redoStack[..|redoStack| - 1];
      var e := Execute(doc, top);
      doc := e.doc;
      if e.ok {
        undoStack := undoStack + [e.cmd];
        totalRedone := totalRedone + 1;
      } else {
        redoStack := redoStack + [e.cmd];
      }
    }

    /** `begin_macro_command`: a new macro records; the one it interrupts is kept. */
    method BeginMacro(description: string)
      requires Valid() && WithinHistory()
      modifies this`current, this`macroStack
      ensures Valid() && WithinHistory()
      ensures current == Some(NewMacro(description))
      ensures macroStack == old(macroStack) + (if old(current).Some? then [old(current).value] else [])
    {
      if current.Some? {
        macroStack := macroStack + [current.value];
      }
      current := Some(NewMacro(description));
    }

    /**
     * `end_macro_command` as intended: the macro, whose commands have all run,
     * is finalised as EXECUTED; a nested one joins its parent, an outermost one
     * is pushed within the history limit and clears the redo stack.
     */
    method EndMacro()
      requires Valid() && WithinHistory()
      modifies this`current, this`macroStack, this`undoStack, this`redoStack
      ensures Valid() && WithinHistory()
      ensures old(current).None? ==> unchanged(this)
      ensures old(current).Some? ==>
                var m := old(current).value.(state := Executed, op := old(current).value.op.(recording := false));
                && (old(macroStack) != [] ==>
                      var n := |old(macroStack)|;
                      && current == Some(AddToMacro(old(macroStack)[n - 1], m))
                      && macroStack == old(macroStack)[..n - 1]
                      && undoStack == old(undoStack) && redoStack == old(redoStack))
                && (old(macroStack) == [] ==>
                      current == None && undoStack == Pushed(old(undoStack), m, maxHistory) && redoStack == [])
    {
      if current.None? {
        return;
      }
      var m := current.value.(state := Executed, op := current.value.op.(recording := false));
      if macroStack != [] {
        var parent := macroStack[|macroStack| - 1];
        macroStack := macroStack[..|macroStack| - 1];
        current := Some(AddToMacro(parent, m));
      } else {
        current := None;
        undoStack := undoStack + [m];
        redoStack := [];
        if |undoStack| > maxHistory {
          undoStack := undoStack[1..];
        }
      }
    }

    /**
     * `end_macro_command` as written: the macro is finalised but stays CREATED,
     * and an outermost one is pushed without applying the history limit.
     */
    method EndMacroAsWritten()
      requires Valid()
      modifies this`current, this`macroStack, this`undoStack, this`redoStack
      ensures Valid()
      ensures old(current).Some? && old(macroStack) == [] ==>
                && current == None && redoStack == []
                && undoStack == old(undoStack) + [old(current).value.(op := old(current).value.op.(recording := false))]
                && undoStack[|undoStack| - 1].state == Created
      ensures old(current).Some? && old(macroStack) == [] && |old(undoStack)| >= Cap(maxHistory) ==>
                |undoStack| > Cap(maxHistory)
    {
      if current.None? {
        return;
      }
      var m := current.value.(op := current.value.op.(recording := false));
      if macroStack != [] {
        var parent := macroStack[|macroStack| - 1];
        macroStack := macroStack[..|macroStack| - 1];
        current := Some(AddToMacro(parent, m));
      } else {
        current := None;
        undoStack := undoStack + [m];
        redoStack := [];
      }
    }

    /**
     * `cancel_macro_command` as intended: the commands the macro ran are undone,
     * latest first, and the interrupted macro (if any) records again; the
     * cancelled macro is dropped.
     */
    method CancelMacro()
      requires Valid() && WithinHistory()
      modifies this`current, this`macroStack, this`doc
      ensures Valid() && WithinHistory()
      ensures old(current).None? ==> unchanged(this)
      ensures old(current).Some? ==>
                && doc == UndoAllReversed(old(doc), old(current).value.op.subs).doc
                && (old(macroStack) != [] ==>
                      current == Some(old(macroStack)[|old(macroStack)| - 1]) && macroStack == old(macroStack)[..|old(macroStack)| - 1])
                && (old(macroStack) == [] ==> current == None && macroStack == [])
    {
      if current.None? {
        return;
      }
      var m := current.value.(state := Executed);
      var u := History.Undo(doc, m);
      assert DoUndo(doc, m.op).doc == UndoAllReversed(doc, m.op.subs).doc;
      doc := u.doc;
      if macroStack != [] {
        current := Some(macroStack[|macroStack| - 1]);
        macroStack := macroStack[..|macroStack| - 1];
      } else {
        current := None;
      }
    }

    /**
     * `cancel_macro_command` as written: undoing the macro itself is refused,
     * because it never reached EXECUTED, so the document keeps every change
     * the macro's commands made.
     */
    method CancelMacroAsWritten()
      requires Valid()
      modifies this`current, this`macroStack, this`doc
      ensures Valid()
      ensures doc == old(doc)
    {
      if current.None? {
        return;
      }
      var u := History.Undo(doc, current.value);
      doc := u.doc;
      if macroStack != [] {
        current := Some(macroStack[|macroStack| - 1]);
        macroStack := macroStack[..|macroStack| - 1];
      } else {
        current := None;
      }
    }

    /** `can_undo`: there is an entry and no macro is recording. */
    method CanUndo() returns (b: bool)
      ensures b <==> undoStack != [] && current.None?
    {
      b := |undoStack| > 0 && current.None?;
    }

    /** `can_redo`: there is an undone entry and no macro is recording. */
    method CanRedo() returns (b: bool)
      ensures b <==> redoStack != [] && current.None?
    {
      b := |redoStack| > 0 && current.None?;
    }

    /** `clear`: both stacks and all macros are dropped; the counters stay. */
    method Clear()
      requires Valid()
      modifies this`undoStack, this`redoStack, this`current, this`macroStack
      ensures Valid() && WithinHistory()
      ensures undoStack == [] && redoStack == [] && current == None && macroStack == []
    {
      undoStack := [];
      redoStack := [];
      current := None;
      macroStack := [];
    }
  }

  /**
   * A macro pushed by `end_macro_command` as written is still CREATED, so
   * `undo` refuses it: the parameter its command set keeps the new value and
   * the entry stays on the undo stack.
   */
  lemma UnfinishedMacroUndoKeepsChanges(doc: Doc, p: string, v: int)
    requires DocValid(doc) && p in doc.params
    ensures var sub := Command("", Executed, None, SetParameter(p, v, doc.params[p]));
            var m := Command("", Created, None, Macro([sub], false));
            var d := doc.(params := doc.params[p := v]);
            var u := History.Undo(d, m);
            !u.ok && u.doc.params[p] == v && u.cmd == m
  {
  }
}
