/** Keyboard shortcuts (src/composables/useKeyboardShortcuts.ts): a table of
    conditions and actions, scanned in order for the first one that fires.
    Handlers are modelled by the action they would run. */
module Shortcuts {
  import opened Wrappers
  import Text
  import Config

  /** What a shortcut does to the layout. */
  datatype Action =
    | Undo | Redo
    | Move(dx: real, dy: real)
    | Resize(dw: real, dh: real)
    | DeleteSelected | CopySelected | Paste
    | Rotate(angle: real)

  /** A modifier flag the condition insists on, or `None` when it does not care. */
  datatype Condition = Condition(key: string, ctrl: Option<bool>, shift: Option<bool>, requiresSelection: bool)

  datatype Shortcut = Shortcut(condition: Condition, action: Action, preventDefault: bool)

  /** The parts of a keydown event the shortcuts look at. */
  datatype KeyEvent = KeyEvent(key: string, ctrlKey: bool, metaKey: bool, shiftKey: bool)

  /** matchesCondition: the key matches ignoring case; Ctrl is satisfied by
      Ctrl or Meta; an unstated modifier is not checked. */
  predicate Matches(e: KeyEvent, c: Condition) {
    var ctrlOrMeta := e.ctrlKey || e.metaKey;
    && Text.Lower(e.key) == Text.Lower(c.key)
    && (c.ctrl == Some(true) ==> ctrlOrMeta)
    && (c.ctrl == Some(false) ==> !ctrlOrMeta)
    && (c.shift.Some? ==> (c.shift.value <==> e.shiftKey))
  }

  /** Swapping Meta for Ctrl never changes whether a condition matches. */
  lemma MetaActsAsCtrl(e: KeyEvent, c: Condition)
    requires e.ctrlKey && !e.metaKey
    ensures Matches(e, c) <==> Matches(e.(ctrlKey := false, metaKey := true), c)
  {}

  /** A condition matches the same key in either case. */
  lemma KeyCaseIgnored(e: KeyEvent, c: Condition)
    ensures Matches(e, c) <==> Matches(e.(key := Text.Lower(e.key)), c)
  {
    Text.LowerIdempotent(e.key);
  }

  function Sc(key: string, ctrl: Option<bool>, shift: Option<bool>, sel: bool, a: Action): Shortcut {
    Shortcut(Condition(key, ctrl, shift, sel), a, true)
  }

  /** Undo and redo, which need no selection. */
  const HISTORY_SHORTCUTS: seq<Shortcut> := [
    Sc("z", Some(true), Some(false), false, Undo),
    Sc("y", Some(true), None, false, Redo),
    Sc("z", Some(true), Some(true), false, Redo)]

  /** The arrows move the selection. */
  const MOVE_SHORTCUTS: seq<Shortcut> := [
    Sc("ArrowUp", None, Some(false), true, Move(0.0, -Config.MOVE_STEP)),
    Sc("ArrowDown", None, Some(false), true, Move(0.0, Config.MOVE_STEP)),
    Sc("ArrowLeft", None, Some(false), true, Move(-Config.MOVE_STEP, 0.0)),
    Sc("ArrowRight", None, Some(false), true, Move(Config.MOVE_STEP, 0.0))]

  /** Shift and the arrows resize the selection. */
  const RESIZE_SHORTCUTS: seq<Shortcut> := [
    Sc("ArrowUp", None, Some(true), true, Resize(0.0, -Config.MOVE_STEP)),
    Sc("ArrowDown", None, Some(true), true, Resize(0.0, Config.MOVE_STEP)),
    Sc("ArrowLeft", None, Some(true), true, Resize(-Config.MOVE_STEP, 0.0)),
    Sc("ArrowRight", None, Some(true), true, Resize(Config.MOVE_STEP, 0.0))]

  /** Delete, copy, paste and rotate, all on the selection. */
  const EDIT_SHORTCUTS: seq<Shortcut> := [
    Sc("Delete", None, None, true, DeleteSelected),
    Sc("Backspace", None, None, true, DeleteSelected),
    Sc("c", Some(true), None, true, CopySelected),
    Sc("v", Some(true), None, true, Paste),
    Sc("r", None, Some(false), true, Rotate(Config.ROTATION_STEP)),
    Sc("r", None, Some(true), true, Rotate(-Config.ROTATION_STEP))]

  /** createShortcuts, in its order. */
  const SHORTCUTS: seq<Shortcut> := HISTORY_SHORTCUTS + MOVE_SHORTCUTS + RESIZE_SHORTCUTS + EDIT_SHORTCUTS

  /** Shortcut `s` may fire for `e`: it matches, and its selection
      requirement is met. */
  predicate Fires(s: Shortcut, e: KeyEvent, hasSelection: bool) {
    (!s.condition.requiresSelection || hasSelection) && Matches(e, s.condition)
  }

  /** handleKeyboardEvent: the first shortcut in the list that fires, whose
      handler is the only one run; `None` (the `false` result) when none
      fires. */
  function Dispatch(e: KeyEvent, shortcuts: seq<Shortcut>, hasSelection: bool): (r: Option<nat>)
    ensures r.None? <==> forall i :: 0 <= i < |shortcuts| ==> !Fires(shortcuts[i], e, hasSelection)
    ensures r.Some? ==> r.value < |shortcuts| && Fires(shortcuts[r.value], e, hasSelection)
    ensures r.Some? ==> forall i :: 0 <= i < r.value ==> !Fires(shortcuts[i], e, hasSelection)
  {
    if shortcuts == [] then None
    else if Fires(shortcuts[0], e, hasSelection) then Some(0)
    else
      match Dispatch(e, shortcuts[1..], hasSelection)
      case None =>
        assert forall i :: 0 < i < |shortcuts| ==> shortcuts[i] == shortcuts[1..][i - 1];
        None
      case Some(j) =>
        assert shortcuts[j + 1] == shortcuts[1..][j];
        assert forall i :: 0 < i < j + 1 ==> shortcuts[i] == shortcuts[1..][i - 1];
        Some(j + 1)
  }

  /** The action the editor's table runs for an event, if any. */
  function ActionFor(e: KeyEvent, hasSelection: bool): (r: Option<Action>)
    ensures r.Some? ==> exists i :: 0 <= i < |SHORTCUTS| && Fires(SHORTCUTS[i], e, hasSelection) && SHORTCUTS[i].action == r.value
    ensures r.None? <==> forall i :: 0 <= i < |SHORTCUTS| ==> !Fires(SHORTCUTS[i], e, hasSelection)
  {
    match Dispatch(e, SHORTCUTS, hasSelection)
    case None => None
    case Some(i) => Some(SHORTCUTS[i].action)
  }

  /** The shortcut at `i` is the first to fire, so its action runs. */
  lemma DispatchFirst(e: KeyEvent, shortcuts: seq<Shortcut>, hasSelection: bool, i: nat)
    requires i < |shortcuts| && Fires(shortcuts[i], e, hasSelection)
    requires forall j :: 0 <= j < i ==> !Fires(shortcuts[j], e, hasSelection)
    ensures Dispatch(e, shortcuts, hasSelection) == Some(i)
  {}

  /** Keys of different lengths never match, whatever their case. */
  lemma LengthsDiffer(e: KeyEvent, c: Condition)
    requires |e.key| != |c.key|
    ensures !Matches(e, c)
  {}

  /** The actions that work on the selection. */
  predicate NeedsSelection(a: Action) {
    a.Move? || a.Resize? || a.DeleteSelected? || a.CopySelected? || a.Paste? || a.Rotate?
  }

  /** In the table, a shortcut requires a selection exactly when its action
      works on the selection. */
  lemma TableSelectionFlags()
    ensures forall s :: s in SHORTCUTS ==> (s.condition.requiresSelection <==> NeedsSelection(s.action))
  {
    forall s | s in SHORTCUTS ensures s.condition.requiresSelection <==> NeedsSelection(s.action) {
      if s in HISTORY_SHORTCUTS {
      } else if s in MOVE_SHORTCUTS {
      } else if s in RESIZE_SHORTCUTS {
      } else {
        assert s in EDIT_SHORTCUTS;
      }
    }
  }

  /** Without a selection only undo and redo can fire. */
  lemma NoSelectionOnlyHistory(e: KeyEvent)
    ensures var r := ActionFor(e, false); r.Some? ==> !NeedsSelection(r.value)
  {
    var r := ActionFor(e, false);
    if r.Some? {
      var i :| 0 <= i < |SHORTCUTS| && Fires(SHORTCUTS[i], e, false) && SHORTCUTS[i].action == r.value;
      TableSelectionFlags();
      assert SHORTCUTS[i] in SHORTCUTS;
    }
  }

  /** Ctrl+Z without Shift undoes, in either case of the letter; Meta counts as Ctrl. */
  lemma UndoShortcut(hasSelection: bool, meta: bool, upper: bool)
    ensures ActionFor(KeyEvent(if upper then "Z" else "z", !meta, meta, false), hasSelection) == Some(Undo)
  {
    var e := KeyEvent(if upper then "Z" else "z", !meta, meta, false);
    assert Text.Lower(e.key) == "z";
    DispatchFirst(e, SHORTCUTS, hasSelection, 0);
  }

  /** Ctrl+Y redoes, with or without Shift. */
  lemma RedoShortcutY(hasSelection: bool, meta: bool, shift: bool)
    ensures ActionFor(KeyEvent("y", !meta, meta, shift), hasSelection) == Some(Redo)
  {
    var e := KeyEvent("y", !meta, meta, shift);
    assert Text.Lower("y") == "y" && Text.Lower("z") == "z";
    DispatchFirst(e, SHORTCUTS, hasSelection, 1);
  }

  /** Ctrl+Shift+Z redoes. */
  lemma RedoShortcutShiftZ(hasSelection: bool, meta: bool)
    ensures ActionFor(KeyEvent("z", !meta, meta, true), hasSelection) == Some(Redo)
  {
    var e := KeyEvent("z", !meta, meta, true);
    assert Text.Lower("y") == "y" && Text.Lower("z") == "z";
    forall j | 0 <= j < 2 ensures !Fires(SHORTCUTS[j], e, hasSelection) {
      if j == 1 { assert SHORTCUTS[1].condition.key == "y"; }
    }
    DispatchFirst(e, SHORTCUTS, hasSelection, 2);
  }

  /** With a selection, the up arrow moves the selection up by one step
      (Ctrl makes no difference). */
  lemma ArrowUpMoves(ctrl: bool)
    ensures ActionFor(KeyEvent("ArrowUp", ctrl, false, false), true) == Some(Move(0.0, -Config.MOVE_STEP))
  {
    var e := KeyEvent("ArrowUp", ctrl, false, false);
    forall j | 0 <= j < 3 ensures !Fires(SHORTCUTS[j], e, true) {
      assert SHORTCUTS[j] == HISTORY_SHORTCUTS[j];
      LengthsDiffer(e, HISTORY_SHORTCUTS[j].condition);
    }
    assert SHORTCUTS[3] == MOVE_SHORTCUTS[0];
    DispatchFirst(e, SHORTCUTS, true, 3);
  }

  /** With a selection, Shift and the up arrow shrink the selected keys'
      height by one step. */
  lemma ShiftArrowUpResizes(ctrl: bool)
    ensures ActionFor(KeyEvent("ArrowUp", ctrl, false, true), true) == Some(Resize(0.0, -Config.MOVE_STEP))
  {
    var e := KeyEvent("ArrowUp", ctrl, false, true);
    forall j | 0 <= j < 7 ensures !Fires(SHORTCUTS[j], e, true) {
      if j < 3 {
        assert SHORTCUTS[j] == HISTORY_SHORTCUTS[j];
        LengthsDiffer(e, HISTORY_SHORTCUTS[j].condition);
      } else if j == 3 {
        assert SHORTCUTS[3] == MOVE_SHORTCUTS[0];
      } else {
        assert SHORTCUTS[j] == MOVE_SHORTCUTS[j - 3];
        LengthsDiffer(e, MOVE_SHORTCUTS[j - 3].condition);
      }
    }
    assert SHORTCUTS[7] == RESIZE_SHORTCUTS[0];
    DispatchFirst(e, SHORTCUTS, true, 7);
  }

  /** With a selection, R rotates by one step and Shift+R by one step back. */
  lemma RotateShortcuts(shift: bool)
    ensures ActionFor(KeyEvent(if shift then "R" else "r", false, false, shift), true)
      == Some(Rotate(if shift then -Config.ROTATION_STEP else Config.ROTATION_STEP))
  {
    var e := KeyEvent(if shift then "R" else "r", false, false, shift);
    var i := if shift then 16 else 15;
    assert Text.Lower(e.key) == "r";
    forall j | 0 <= j < i ensures !Fires(SHORTCUTS[j], e, true) {
      if |e.key| != |SHORTCUTS[j].condition.key| {
        LengthsDiffer(e, SHORTCUTS[j].condition);
      } else if j != 15 {
        assert SHORTCUTS[j].condition.key in ["z", "y", "c", "v"];
        assert Text.Lower(SHORTCUTS[j].condition.key) != "r";
      }
    }
    DispatchFirst(e, SHORTCUTS, true, i);
  }
}
