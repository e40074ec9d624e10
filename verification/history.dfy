/** The undo/redo history (src/stores/history.ts): a bounded list of layout
    snapshots and a cursor into it. */
module History {
  import opened Wrappers
  import opened Config
  import opened Model

  datatype History = History(snapshots: seq<Layout>, index: int)

  /** The state clearHistory leaves behind. */
  const Empty: History := History([], -1)

  /** The shape every reachable history has: at most MAX_HISTORY_STATES
      snapshots and a cursor on one of them, or -1 exactly when empty. */
  predicate Valid(h: History) {
    && |h.snapshots| <= MAX_HISTORY_STATES
    && -1 <= h.index < |h.snapshots|
    && (h.index == -1 <==> h.snapshots == [])
  }

  predicate CanUndo(h: History) { h.index > 0 }

  predicate CanRedo(h: History) { h.index < |h.snapshots| - 1 }

  /** saveSnapshot: drops the redo branch, appends a copy of the live layout,
      and evicts the oldest snapshot once there are more than
      MAX_HISTORY_STATES. The cursor ends on the new snapshot; what precedes
      it is the newest part of the history up to the old cursor. */
  function Save(h: History, live: Layout): (r: History)
    requires Valid(h)
    ensures Valid(r)
    ensures |r.snapshots| > 0 && r.index == |r.snapshots| - 1 && r.snapshots[r.index] == CloneLayout(live)
    ensures !CanRedo(r)
    ensures r.index == if h.index + 1 < MAX_HISTORY_STATES then h.index + 1 else MAX_HISTORY_STATES - 1
    ensures r.snapshots[..r.index] == h.snapshots[h.index + 1 - r.index .. h.index + 1]
  {
    var kept := if h.index < |h.snapshots| - 1 then h.snapshots[..h.index + 1] else h.snapshots;
    var pushed := kept + [CloneLayout(live)];
    if |pushed| > MAX_HISTORY_STATES then History(pushed[1..], h.index)
    else History(pushed, h.index + 1)
  }

  /** A save brings in no snapshot but the copy of the live layout: every
      other snapshot it keeps was already in the history. */
  lemma SaveKeepsOlder(h: History, live: Layout)
    requires Valid(h)
    ensures forall x :: x in Save(h, live).snapshots ==> x in h.snapshots || x == CloneLayout(live)
  {
    var kept := if h.index < |h.snapshots| - 1 then h.snapshots[..h.index + 1] else h.snapshots;
    var pushed := kept + [CloneLayout(live)];
    assert forall x :: x in kept ==> x in h.snapshots;
    assert forall x :: x in pushed[1..] ==> x in pushed;
  }

  /** The outcome of undo or redo: the new history and the layout put back
      live, or `None` when the move was not possible. */
  datatype Step = Step(history: History, restored: Option<Layout>)

  /** undo: steps the cursor back and restores a copy of that snapshot. */
  function Undo(h: History): (s: Step)
    requires Valid(h)
    ensures Valid(s.history)
    ensures !CanUndo(h) ==> s == Step(h, None)
    ensures CanUndo(h) ==>
      && s.history == h.(index := h.index - 1)
      && s.restored == Some(CloneLayout(h.snapshots[h.index - 1]))
      && CanRedo(s.history)
  {
    if !CanUndo(h) then Step(h, None)
    else Step(h.(index := h.index - 1), Some(CloneLayout(h.snapshots[h.index - 1])))
  }

  /** redo: steps the cursor forward and restores a copy of that snapshot. */
  function Redo(h: History): (s: Step)
    requires Valid(h)
    ensures Valid(s.history)
    ensures !CanRedo(h) ==> s == Step(h, None)
    ensures CanRedo(h) ==>
      && s.history == h.(index := h.index + 1)
      && s.restored == Some(CloneLayout(h.snapshots[h.index + 1]))
      && CanUndo(s.history)
  {
    if !CanRedo(h) then Step(h, None)
    else Step(h.(index := h.index + 1), Some(CloneLayout(h.snapshots[h.index + 1])))
  }

  /** clearHistory. */
  function Clear(): (h: History)
    ensures Valid(h) && !CanUndo(h) && !CanRedo(h) && h.snapshots == []
  {
    Empty
  }

  /** initializeHistory: one snapshot of the live layout, nothing to undo or redo. */
  function Initialize(live: Layout): (h: History)
    ensures Valid(h)
    ensures h.snapshots == [CloneLayout(live)] && h.index == 0
    ensures !CanUndo(h) && !CanRedo(h)
  {
    Save(Clear(), live)
  }

  /** Redo undoes an undo: the cursor returns and the snapshot it left is restored. */
  lemma UndoThenRedo(h: History)
    requires Valid(h) && CanUndo(h)
    ensures Redo(Undo(h).history) == Step(h, Some(CloneLayout(h.snapshots[h.index])))
  {}

  /** Undo undoes a redo. */
  lemma RedoThenUndo(h: History)
    requires Valid(h) && CanRedo(h)
    ensures Undo(Redo(h).history) == Step(h, Some(CloneLayout(h.snapshots[h.index])))
  {}

  /** Undo right after a save restores the state that was current before the
      save, including when the save evicted the oldest snapshot. */
  lemma SaveThenUndo(h: History, live: Layout)
    requires Valid(h) && h.index >= 0
    ensures CanUndo(Save(h, live))
    ensures Undo(Save(h, live)).restored == Some(CloneLayout(h.snapshots[h.index]))
  {
    var r := Save(h, live);
    assert r.snapshots[..r.index][r.index - 1] == r.snapshots[r.index - 1];
  }

  /** `n` undos in a row. */
  function UndoTimes(h: History, n: nat): (r: History)
    requires Valid(h)
    ensures Valid(r)
    decreases n
  {
    if n == 0 then h else UndoTimes(Undo(h).history, n - 1)
  }

  /** From the newest snapshot, exactly `index` undos are possible and they
      walk the cursor back to the oldest snapshot, which is then where undo
      stops. */
  lemma {:induction false} UndoDepth(h: History, n: nat)
    requires Valid(h)
    ensures UndoTimes(h, n).index == if n <= h.index then h.index - n else if h.index >= 0 then 0 else -1
    ensures UndoTimes(h, n).snapshots == h.snapshots
    decreases n
  {
    if n > 0 {
      UndoDepth(Undo(h).history, n - 1);
    }
  }
}
