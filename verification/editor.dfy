/** The editor's UI state (src/stores/editor.ts): selection, display mode,
    clipboard and the layer being edited. */
module Editor {
  import opened Wrappers
  import opened Model
  import Text

  datatype DisplayMode = LegendMode | MatrixMode

  datatype KeyboardLayoutType = Ansi | Jis

  datatype Editor = Editor(
    selectedKeyIds: seq<string>,
    displayMode: DisplayMode,
    keyboardLayout: KeyboardLayoutType,
    copiedKeys: seq<Key>,
    currentLayer: int)

  /** The state the store starts in: nothing selected, matrix view, ANSI, layer 0. */
  const Initial: Editor := Editor([], MatrixMode, Ansi, [], 0)

  /** selectedKey: the key when exactly one id is selected and it exists. */
  function SelectedKey(e: Editor, keys: seq<Key>): (r: Option<Key>)
    ensures |e.selectedKeyIds| != 1 ==> r.None?
    ensures |e.selectedKeyIds| == 1 ==> r == KeyById(keys, e.selectedKeyIds[0])
  {
    if |e.selectedKeyIds| != 1 then None else KeyById(keys, e.selectedKeyIds[0])
  }

  /** selectedKeys: the selected keys in layout order. */
  function SelectedKeys(e: Editor, keys: seq<Key>): (r: seq<Key>)
    ensures forall k :: k in r <==> k in keys && k.id in e.selectedKeyIds
  {
    KeysByIds(keys, e.selectedKeyIds)
  }

  predicate HasSelection(e: Editor) { |e.selectedKeyIds| > 0 }

  /** selectKey: one key, or nothing for `null`. */
  function SelectKey(e: Editor, id: Option<string>): (r: Editor)
    ensures r.(selectedKeyIds := e.selectedKeyIds) == e
    ensures id.None? ==> r.selectedKeyIds == []
    ensures id.Some? ==> r.selectedKeyIds == [id.value]
  {
    match id
    case None => e.(selectedKeyIds := [])
    case Some(k) => e.(selectedKeyIds := [k])
  }

  /** toggleKeySelection: an unselected id is appended; a selected one has its
      first occurrence removed. */
  function ToggleKeySelection(e: Editor, id: string): (r: Editor)
    ensures r.(selectedKeyIds := e.selectedKeyIds) == e
    ensures id !in e.selectedKeyIds ==> r.selectedKeyIds == e.selectedKeyIds + [id]
    ensures id in e.selectedKeyIds ==>
      |r.selectedKeyIds| == |e.selectedKeyIds| - 1 &&
      exists i :: 0 <= i < |e.selectedKeyIds| && e.selectedKeyIds[i] == id && id !in e.selectedKeyIds[..i] &&
        r.selectedKeyIds == e.selectedKeyIds[..i] + e.selectedKeyIds[i + 1..]
  {
    var ids := e.selectedKeyIds;
    if id !in ids then e.(selectedKeyIds := ids + [id])
    else
      var i := Text.IndexOf(ids, id);
      e.(selectedKeyIds := ids[..i] + ids[i + 1..])
  }

  /** On a selection without repeats, toggling flips exactly the one id and
      keeps the selection free of repeats. */
  lemma ToggleFlipsMembership(e: Editor, id: string)
    requires Distinct(e.selectedKeyIds)
    ensures var r := ToggleKeySelection(e, id).selectedKeyIds;
      && Distinct(r)
      && forall x :: x in r <==> (if x == id then id !in e.selectedKeyIds else x in e.selectedKeyIds)
  {
    var ids := e.selectedKeyIds;
    var r := ToggleKeySelection(e, id).selectedKeyIds;
    if id in ids {
      var i := Text.IndexOf(ids, id);
      assert r == ids[..i] + ids[i + 1..];
      RemoveAtMembers(ids, i);
    } else {
      assert r == ids + [id];
      assert Distinct(r) by {
        forall a, b | 0 <= a < b < |r| ensures r[a] != r[b] {
          if b == |ids| { assert r[a] == ids[a]; }
        }
      }
    }
  }

  /** Cutting one element out of a list without repeats leaves every other
      element, still without repeats. */
  lemma RemoveAtMembers(ids: seq<string>, i: int)
    requires Distinct(ids) && 0 <= i < |ids|
    ensures var r := ids[..i] + ids[i + 1..];
      && Distinct(r)
      && forall x :: x in r <==> x in ids && x != ids[i]
  {
    var r := ids[..i] + ids[i + 1..];
    assert forall a :: 0 <= a < |r| ==> r[a] == if a < i then ids[a] else ids[a + 1];
    forall x ensures x in r <==> x in ids && x != ids[i] {
      if x in ids && x != ids[i] {
        var j :| 0 <= j < |ids| && ids[j] == x;
        if j < i { assert r[j] == x; } else { assert r[j - 1] == x; }
      }
    }
  }

  /** Toggling an unselected id twice gives the selection back unchanged. */
  lemma ToggleTwice(e: Editor, id: string)
    requires id !in e.selectedKeyIds
    ensures ToggleKeySelection(ToggleKeySelection(e, id), id) == e
  {
    var ids := e.selectedKeyIds;
    var once := ids + [id];
    assert once[..|ids|] == ids;
    assert Text.IndexOf(once, id) == |ids|;
  }

  /** selectMultipleKeys. */
  function SelectMultipleKeys(e: Editor, ids: seq<string>): (r: Editor)
    ensures r.selectedKeyIds == ids && r.(selectedKeyIds := e.selectedKeyIds) == e
  {
    e.(selectedKeyIds := ids)
  }

  /** clearSelection. */
  function ClearSelection(e: Editor): (r: Editor)
    ensures !HasSelection(r) && r.(selectedKeyIds := e.selectedKeyIds) == e
  {
    e.(selectedKeyIds := [])
  }

  /** selectNextKey: with exactly one selected key that exists, moves the
      selection to the key after its first occurrence; reports whether it moved. */
  function SelectNextKey(e: Editor, keys: seq<Key>): (r: (Editor, bool))
    ensures r.0.(selectedKeyIds := e.selectedKeyIds) == e
    ensures !r.1 ==> r.0 == e
    ensures r.1 <==> |e.selectedKeyIds| == 1 && exists i :: 0 <= i < |keys| - 1 && keys[i].id == e.selectedKeyIds[0] && IsFirst(keys, i)
    ensures r.1 ==>
      exists i :: 0 <= i < |keys| - 1 && keys[i].id == e.selectedKeyIds[0] && IsFirst(keys, i) &&
                  r.0.selectedKeyIds == [keys[i + 1].id]
  {
    if |e.selectedKeyIds| != 1 then (e, false)
    else
      match FindIndex(keys, e.selectedKeyIds[0])
      case None => (e, false)
      case Some(i) =>
        if i < |keys| - 1 then (e.(selectedKeyIds := [keys[i + 1].id]), true)
        else
          assert forall j :: 0 <= j < |keys| - 1 && keys[j].id == e.selectedKeyIds[0] && IsFirst(keys, j) ==> j == i;
          (e, false)
  }

  /** toggleDisplayMode. */
  function ToggleDisplayMode(e: Editor): (r: Editor)
    ensures r.displayMode != e.displayMode
    ensures r.(displayMode := e.displayMode) == e
  {
    e.(displayMode := if e.displayMode == LegendMode then MatrixMode else LegendMode)
  }

  lemma ToggleDisplayModeTwice(e: Editor)
    ensures ToggleDisplayMode(ToggleDisplayMode(e)) == e
  {}

  /** setKeyboardLayout. */
  function SetKeyboardLayout(e: Editor, t: KeyboardLayoutType): (r: Editor)
    ensures r.keyboardLayout == t && r.(keyboardLayout := e.keyboardLayout) == e
  {
    e.(keyboardLayout := t)
  }

  /** copySelectedKeys: with something selected, the clipboard becomes copies
      of the selected keys in layout order; otherwise nothing changes. */
  function CopySelectedKeys(e: Editor, keys: seq<Key>): (r: Editor)
    ensures r.(copiedKeys := e.copiedKeys) == e
    ensures SelectedKeys(e, keys) == [] ==> r == e
    ensures SelectedKeys(e, keys) != [] ==>
      r.copiedKeys == CloneKeys(SelectedKeys(e, keys)) && HasKeycodeMaps(r.copiedKeys)
  {
    var sel := SelectedKeys(e, keys);
    if sel == [] then e
    else
      assert HasKeycodeMaps(CloneKeys(sel)) by {
        CloneLayoutIdempotent(Layout("", sel, 1, None, None));
      }
      e.(copiedKeys := CloneKeys(sel))
  }

  predicate HasCopiedKeys(e: Editor) { |e.copiedKeys| > 0 }

  /** setCurrentLayer: accepted only inside [0, layerCount). */
  function SetCurrentLayer(e: Editor, layer: int, layerCount: int): (r: Editor)
    ensures r.(currentLayer := e.currentLayer) == e
    ensures 0 <= layer < layerCount ==> r.currentLayer == layer
    ensures !(0 <= layer < layerCount) ==> r == e
  {
    if 0 <= layer < layerCount then e.(currentLayer := layer) else e
  }

  /** resetCurrentLayerIfNeeded: back to layer 0 when the current one is not below `maxLayer`. */
  function ResetCurrentLayerIfNeeded(e: Editor, maxLayer: int): (r: Editor)
    ensures r.(currentLayer := e.currentLayer) == e
    ensures e.currentLayer >= maxLayer ==> r.currentLayer == 0
    ensures e.currentLayer < maxLayer ==> r == e
  {
    if e.currentLayer >= maxLayer then e.(currentLayer := 0) else e
  }

  /** After the reset, the current layer is a valid layer whenever it was
      non-negative and the count is positive. */
  lemma ResetKeepsLayerInRange(e: Editor, maxLayer: int)
    requires e.currentLayer >= 0 && maxLayer > 0
    ensures 0 <= ResetCurrentLayerIfNeeded(e, maxLayer).currentLayer < maxLayer
  {}

  /** resetState: no selection, layer 0; mode, layout and clipboard kept. */
  function ResetState(e: Editor): (r: Editor)
    ensures !HasSelection(r) && r.currentLayer == 0
    ensures r.(selectedKeyIds := e.selectedKeyIds, currentLayer := e.currentLayer) == e
  {
    e.(selectedKeyIds := [], currentLayer := 0)
  }
}
