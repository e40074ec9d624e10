/** The keyboard facade (src/stores/keyboard.ts): the layout, editor,
    history and auth stores as one state record, and the actions that
    orchestrate them. A layout operation that notifies is followed by its
    timestamp and by one history snapshot (`Commit`), the effect of the
    listener the history installs on the layout store. */
module Keyboard {
  import opened Wrappers
  import opened Model
  import Text
  import LayoutStore
  import Editor
  import History
  import AuthStore
  import Config

  datatype Studio = Studio(
    layout: Layout,
    editor: Editor.Editor,
    history: History.History,
    auth: AuthStore.Auth)

  /** The live layout is the one under the history cursor: the snapshot there
      is its copy, and every snapshot is a copy (so restoring one and
      copying it again changes nothing). Loading or creating a layout
      establishes this, and every other action keeps it. */
  predicate Synced(s: Studio) {
    && History.Valid(s.history)
    && |s.history.snapshots| > 0
    && s.history.snapshots[s.history.index] == CloneLayout(s.layout)
    && forall i :: 0 <= i < |s.history.snapshots| ==> HasKeycodeMaps(s.history.snapshots[i].keys)
  }

  // ---------------------------------------------------------------------
  // The notification and its snapshot

  /** Installs the result of a layout operation. When it notified, the
      layout is timestamped and a snapshot of the stamped layout is saved;
      otherwise the history is left alone. */
  function Commit(s: Studio, c: LayoutStore.Change, now: string): (r: Studio)
    requires History.Valid(s.history)
    ensures History.Valid(r.history)
    ensures r.editor == s.editor && r.auth == s.auth
    ensures r.layout.(metadata := c.layout.metadata) == c.layout
    ensures c.notified ==>
      && r.layout.metadata.Some? && r.layout.metadata.value.modified == Some(now)
      && r.history.index >= 0
      && r.history.snapshots[r.history.index] == CloneLayout(r.layout)
      && !History.CanRedo(r.history)
    ensures !c.notified ==> r.layout == c.layout && r.history == s.history
  {
    if c.notified then
      var stamped := LayoutStore.Stamp(c.layout, now);
      s.(layout := stamped, history := History.Save(s.history, stamped))
    else s.(layout := c.layout)
  }

  /** A notified operation keeps the studio in sync, and so does one that
      left the layout as it was. */
  lemma CommitKeepsSynced(s: Studio, c: LayoutStore.Change, now: string)
    requires History.Valid(s.history)
    ensures Synced(s) && (c.notified || c.layout == s.layout) ==> Synced(Commit(s, c, now))
  {
    if Synced(s) && c.notified {
      var stamped := LayoutStore.Stamp(c.layout, now);
      var h2 := History.Save(s.history, stamped);
      History.SaveKeepsOlder(s.history, stamped);
      CloneLayoutIdempotent(stamped);
      forall i | 0 <= i < |h2.snapshots|
        ensures HasKeycodeMaps(h2.snapshots[i].keys)
      {
        var x := h2.snapshots[i];
        if x != CloneLayout(stamped) {
          var j :| 0 <= j < |s.history.snapshots| && s.history.snapshots[j] == x;
        }
      }
    }
  }

  // ---------------------------------------------------------------------
  // Key edits

  /** updateKey on the live layout. */
  function UpdateKey(s: Studio, id: string, u: LayoutStore.KeyUpdate, now: string): (r: Studio)
    requires History.Valid(s.history)
    ensures r.editor == s.editor && r.auth == s.auth
    ensures r.layout.keys == LayoutStore.UpdateKey(s.layout, id, u).layout.keys
    ensures !HasId(s.layout.keys, id) ==> r == s
    ensures Synced(s) ==> Synced(r)
  {
    var c := LayoutStore.UpdateKey(s.layout, id, u);
    CommitKeepsSynced(s, c, now);
    Commit(s, c, now)
  }

  /** moveSelectedKeys: moves the selected keys; the selection stays, and a
      snapshot is taken iff some selected id exists. */
  function MoveSelectedKeys(s: Studio, dx: real, dy: real, now: string): (r: Studio)
    requires History.Valid(s.history)
    ensures r.editor == s.editor && r.auth == s.auth
    ensures r.layout.keys == LayoutStore.MoveKeys(s.layout, s.editor.selectedKeyIds, dx, dy).layout.keys
    ensures History.Valid(r.history)
    ensures !LayoutStore.AnyFound(s.layout.keys, s.editor.selectedKeyIds) ==> r == s
    ensures LayoutStore.AnyFound(s.layout.keys, s.editor.selectedKeyIds) ==>
      !History.CanRedo(r.history) && r.history.index >= 0 && r.history.snapshots[r.history.index] == CloneLayout(r.layout)
    ensures Synced(s) ==> Synced(r)
  {
    var c := LayoutStore.MoveKeys(s.layout, s.editor.selectedKeyIds, dx, dy);
    CommitKeepsSynced(s, c, now);
    Commit(s, c, now)
  }

  /** resizeSelectedKeys. */
  function ResizeSelectedKeys(s: Studio, dw: real, dh: real, now: string): (r: Studio)
    requires History.Valid(s.history)
    ensures r.editor == s.editor && r.auth == s.auth
    ensures r.layout.keys == LayoutStore.ResizeKeys(s.layout, s.editor.selectedKeyIds, dw, dh).layout.keys
    ensures History.Valid(r.history)
    ensures !LayoutStore.AnyFound(s.layout.keys, s.editor.selectedKeyIds) ==> r == s
    ensures LayoutStore.AnyFound(s.layout.keys, s.editor.selectedKeyIds) ==>
      !History.CanRedo(r.history) && r.history.index >= 0 && r.history.snapshots[r.history.index] == CloneLayout(r.layout)
    ensures Synced(s) ==> Synced(r)
  {
    var c := LayoutStore.ResizeKeys(s.layout, s.editor.selectedKeyIds, dw, dh);
    CommitKeepsSynced(s, c, now);
    Commit(s, c, now)
  }

  /** rotateSelectedKeys. */
  function RotateSelectedKeys(s: Studio, da: real, now: string): (r: Studio)
    requires History.Valid(s.history)
    ensures r.editor == s.editor && r.auth == s.auth
    ensures r.layout.keys == LayoutStore.RotateKeys(s.layout, s.editor.selectedKeyIds, da).layout.keys
    ensures History.Valid(r.history)
    ensures !LayoutStore.AnyFound(s.layout.keys, s.editor.selectedKeyIds) ==> r == s
    ensures LayoutStore.AnyFound(s.layout.keys, s.editor.selectedKeyIds) ==>
      !History.CanRedo(r.history) && r.history.index >= 0 && r.history.snapshots[r.history.index] == CloneLayout(r.layout)
    ensures Synced(s) ==> Synced(r)
  {
    var c := LayoutStore.RotateKeys(s.layout, s.editor.selectedKeyIds, da);
    CommitKeepsSynced(s, c, now);
    Commit(s, c, now)
  }

  // ---------------------------------------------------------------------
  // addKey, deleteSelectedKeys

  /** Where addKey puts a new key: right of the single selected key, else the origin. */
  function AddKeyAnchor(s: Studio): (p: (real, real))
    ensures Editor.SelectedKey(s.editor, s.layout.keys).None? ==> p == (0.0, 0.0)
    ensures Editor.SelectedKey(s.editor, s.layout.keys).Some? ==>
      var k := Editor.SelectedKey(s.editor, s.layout.keys).value;
      |s.editor.selectedKeyIds| == 1 && k.id == s.editor.selectedKeyIds[0] && k in s.layout.keys
      && p == (k.x + k.width, k.y)
  {
    match Editor.SelectedKey(s.editor, s.layout.keys)
    case Some(k) => (k.x + k.width, k.y)
    case None => (0.0, 0.0)
  }

  /** addKey: appends a default key at the anchor and makes it the only selection. */
  function AddKey(s: Studio, newId: string, now: string): (r: Studio)
    requires History.Valid(s.history)
    ensures r.editor.selectedKeyIds == [newId]
    ensures r.editor.(selectedKeyIds := s.editor.selectedKeyIds) == s.editor && r.auth == s.auth
    ensures |r.layout.keys| == |s.layout.keys| + 1 && r.layout.keys[..|s.layout.keys|] == s.layout.keys
    ensures var k := r.layout.keys[|s.layout.keys|];
      k.id == newId && (k.x, k.y) == AddKeyAnchor(s) && k.width == 1.0 && k.height == 1.0
    ensures !History.CanRedo(r.history)
    ensures Synced(s) ==> Synced(r)
  {
    var (x, y) := AddKeyAnchor(s);
    var c := LayoutStore.AddKey(s.layout, newId, x, y);
    CommitKeepsSynced(s, c, now);
    var r := Commit(s, c, now);
    r.(editor := Editor.SelectKey(r.editor, Some(newId)))
  }

  /** With a fresh id, the new key is exactly the one selected afterwards. */
  lemma AddKeySelectsNewKey(s: Studio, newId: string, now: string)
    requires History.Valid(s.history)
    requires !HasId(s.layout.keys, newId)
    ensures var r := AddKey(s, newId, now);
      Editor.SelectedKey(r.editor, r.layout.keys) == Some(r.layout.keys[|s.layout.keys|])
  {
    var r := AddKey(s, newId, now);
    var n := |s.layout.keys|;
    var found := FindIndex(r.layout.keys, newId);
    assert HasId(r.layout.keys, newId) by { assert r.layout.keys[n].id == newId; }
    assert found.Some?;
  }

  /** deleteSelectedKeys: the selected keys go, the rest stay, and nothing is
      selected afterwards. */
  function DeleteSelectedKeys(s: Studio, now: string): (r: Studio)
    requires History.Valid(s.history)
    ensures !Editor.HasSelection(r.editor)
    ensures r.editor.(selectedKeyIds := s.editor.selectedKeyIds) == s.editor && r.auth == s.auth
    ensures forall k :: k in r.layout.keys <==> k in s.layout.keys && k.id !in s.editor.selectedKeyIds
    ensures !Editor.HasSelection(s.editor) ==> r.layout == s.layout && r.history == s.history
    ensures Synced(s) ==> Synced(r)
  {
    var c := LayoutStore.DeleteKeys(s.layout, s.editor.selectedKeyIds);
    CommitKeepsSynced(s, c, now);
    var r := Commit(s, c, now);
    r.(editor := Editor.ClearSelection(r.editor))
  }

  // ---------------------------------------------------------------------
  // Paste

  /** The x of every key, in order. */
  function Xs(ks: seq<Key>): (r: seq<real>)
    ensures |r| == |ks| && forall i :: 0 <= i < |ks| ==> r[i] == ks[i].x
  {
    if ks == [] then [] else [ks[0].x] + Xs(ks[1..])
  }

  /** The y of every key, in order. */
  function Ys(ks: seq<Key>): (r: seq<real>)
    ensures |r| == |ks| && forall i :: 0 <= i < |ks| ==> r[i] == ks[i].y
  {
    if ks == [] then [] else [ks[0].y] + Ys(ks[1..])
  }

  /** `Math.min(...xs)` of a non-empty list. */
  function MinOf(xs: seq<real>): (m: real)
    requires xs != []
    ensures m in xs && forall i :: 0 <= i < |xs| ==> m <= xs[i]
  {
    if |xs| == 1 then xs[0]
    else
      var rest := MinOf(xs[1..]);
      assert forall i :: 1 <= i < |xs| ==> xs[i] == xs[1..][i - 1];
      if xs[0] <= rest then xs[0] else rest
  }

  /** The ids pasted keys get: `String(baseTime + index)`. */
  function PastedIds(baseTime: nat, n: nat): (r: seq<string>)
    ensures |r| == n && forall i :: 0 <= i < n ==> r[i] == Text.NatToString(baseTime + i)
  {
    if n == 0 then [] else PastedIds(baseTime, n - 1) + [Text.NatToString(baseTime + n - 1)]
  }

  /** The ids of one paste are pairwise distinct. */
  lemma PastedIdsDistinct(baseTime: nat, n: nat)
    ensures Distinct(PastedIds(baseTime, n))
  {
    var r := PastedIds(baseTime, n);
    forall i, j | 0 <= i < j < n ensures r[i] != r[j] {
      Text.NatToStringInjective(baseTime + i, baseTime + j);
    }
  }

  /** `r` is `ks` given consecutive fresh ids from `baseTime` and
      translated so that (mx, my) lands on (ax, ay). */
  predicate PlacedAs(r: seq<Key>, ks: seq<Key>, baseTime: nat, ax: real, ay: real, mx: real, my: real) {
    && |r| == |ks|
    && forall i :: 0 <= i < |ks| ==>
      r[i] == ks[i].(id := Text.NatToString(baseTime + i), x := ax + (ks[i].x - mx), y := ay + (ks[i].y - my))
  }

  function Placed(ks: seq<Key>, baseTime: nat, ax: real, ay: real, mx: real, my: real): (r: seq<Key>)
    ensures PlacedAs(r, ks, baseTime, ax, ay, mx, my)
  {
    if ks == [] then []
    else
      var k := ks[0].(id := Text.NatToString(baseTime), x := ax + (ks[0].x - mx), y := ay + (ks[0].y - my));
      var rest := Placed(ks[1..], baseTime + 1, ax, ay, mx, my);
      PlacedCons(ks, baseTime, ax, ay, mx, my, rest);
      [k] + rest
  }

  /** Placing the first key in front of the placed rest places them all. */
  lemma PlacedCons(ks: seq<Key>, baseTime: nat, ax: real, ay: real, mx: real, my: real, rest: seq<Key>)
    requires ks != [] && PlacedAs(rest, ks[1..], baseTime + 1, ax, ay, mx, my)
    ensures PlacedAs([ks[0].(id := Text.NatToString(baseTime), x := ax + (ks[0].x - mx), y := ay + (ks[0].y - my))] + rest,
                     ks, baseTime, ax, ay, mx, my)
  {
    var r := [ks[0].(id := Text.NatToString(baseTime), x := ax + (ks[0].x - mx), y := ay + (ks[0].y - my))] + rest;
    forall i | 0 <= i < |ks|
      ensures r[i] == ks[i].(id := Text.NatToString(baseTime + i), x := ax + (ks[i].x - mx), y := ay + (ks[i].y - my))
    {
      if i > 0 {
        PlacedRestAt(ks, baseTime, ax, ay, mx, my, rest, i);
        assert r[i] == rest[i - 1];
      }
    }
  }

  lemma PlacedRestAt(ks: seq<Key>, baseTime: nat, ax: real, ay: real, mx: real, my: real, rest: seq<Key>, i: nat)
    requires 0 < i < |ks| && PlacedAs(rest, ks[1..], baseTime + 1, ax, ay, mx, my)
    ensures rest[i - 1] == ks[i].(id := Text.NatToString(baseTime + i), x := ax + (ks[i].x - mx), y := ay + (ks[i].y - my))
  {
    assert ks[1..][i - 1] == ks[i];
    assert baseTime + 1 + (i - 1) == baseTime + i;
  }

  /** Where a paste goes: right of the first selected key in layout order,
      else the origin. */
  function PasteAnchor(s: Studio): (p: (real, real))
    ensures Editor.SelectedKeys(s.editor, s.layout.keys) == [] ==> p == (0.0, 0.0)
    ensures forall i :: 0 <= i < |s.layout.keys| && FirstListed(s.layout.keys, s.editor.selectedKeyIds, i) ==>
      p == (s.layout.keys[i].x + s.layout.keys[i].width, s.layout.keys[i].y)
  {
    var keys, ids := s.layout.keys, s.editor.selectedKeyIds;
    var sel := Editor.SelectedKeys(s.editor, keys);
    assert sel == KeysByIds(keys, ids);
    assert forall i :: 0 <= i < |keys| && FirstListed(keys, ids, i) ==> sel != [] && sel[0] == keys[i] by {
      forall i | 0 <= i < |keys| && FirstListed(keys, ids, i) ensures sel != [] && sel[0] == keys[i] {
        KeysByIdsHead(keys, ids, i);
      }
    }
    if sel == [] then (0.0, 0.0) else (sel[0].x + sel[0].width, sel[0].y)
  }

  /** The keys a paste appends: each clipboard key with a fresh id, moved so
      that the clipboard's top-left corner lands on the paste anchor. */
  function PastedKeys(s: Studio, baseTime: nat): (r: seq<Key>)
    ensures |r| == |s.editor.copiedKeys|
    ensures var c := s.editor.copiedKeys;
      c != [] ==> PlacedAs(r, c, baseTime, PasteAnchor(s).0, PasteAnchor(s).1, MinOf(Xs(c)), MinOf(Ys(c)))
  {
    var copied := s.editor.copiedKeys;
    if copied == [] then []
    else Placed(copied, baseTime, PasteAnchor(s).0, PasteAnchor(s).1, MinOf(Xs(copied)), MinOf(Ys(copied)))
  }

  /** pasteKeys: with an empty clipboard nothing happens; otherwise the placed
      copies are appended after the existing keys and become the selection. */
  function PasteKeys(s: Studio, baseTime: nat, now: string): (r: Studio)
    requires History.Valid(s.history)
    ensures s.editor.copiedKeys == [] ==> r == s
    ensures s.editor.copiedKeys != [] ==>
      && |r.layout.keys| == |s.layout.keys| + |s.editor.copiedKeys|
      && r.layout.keys[..|s.layout.keys|] == s.layout.keys
      && r.layout.keys[|s.layout.keys|..] == PastedKeys(s, baseTime)
      && r.editor.selectedKeyIds == PastedIds(baseTime, |s.editor.copiedKeys|)
      && r.editor.(selectedKeyIds := s.editor.selectedKeyIds) == s.editor
      && !History.CanRedo(r.history)
    ensures r.auth == s.auth
    ensures Synced(s) ==> Synced(r)
  {
    var copied := s.editor.copiedKeys;
    if copied == [] then s
    else
      var pasted := PastedKeys(s, baseTime);
      var c := LayoutStore.AddKeys(s.layout, pasted);
      CommitKeepsSynced(s, c, now);
      var r := Commit(s, c, now);
      r.(editor := Editor.SelectMultipleKeys(r.editor, PastedIds(baseTime, |copied|)))
  }

  /** Pasting keeps the clipboard's shape: the offset between any two pasted
      keys is the offset between their originals, and the block's top-left
      corner sits exactly on the anchor. */
  lemma PastePreservesOffsets(s: Studio, baseTime: nat)
    requires s.editor.copiedKeys != []
    ensures var p, c := PastedKeys(s, baseTime), s.editor.copiedKeys;
      forall i, j :: 0 <= i < |c| && 0 <= j < |c| ==>
        p[i].x - p[j].x == c[i].x - c[j].x && p[i].y - p[j].y == c[i].y - c[j].y
    ensures var p := PastedKeys(s, baseTime);
      && (forall i :: 0 <= i < |p| ==> p[i].x >= PasteAnchor(s).0 && p[i].y >= PasteAnchor(s).1)
      && (exists i :: 0 <= i < |p| && p[i].x == PasteAnchor(s).0)
      && (exists i :: 0 <= i < |p| && p[i].y == PasteAnchor(s).1)
  {
    var p, c := PastedKeys(s, baseTime), s.editor.copiedKeys;
    var mx, my := MinOf(Xs(c)), MinOf(Ys(c));
    forall i | 0 <= i < |c|
      ensures p[i].x == PasteAnchor(s).0 + (c[i].x - mx) && p[i].y == PasteAnchor(s).1 + (c[i].y - my)
      ensures p[i].x >= PasteAnchor(s).0 && p[i].y >= PasteAnchor(s).1
    {
      assert Xs(c)[i] == c[i].x && Ys(c)[i] == c[i].y;
    }
    var i :| 0 <= i < |c| && Xs(c)[i] == mx;
    var j :| 0 <= j < |c| && Ys(c)[j] == my;
    assert p[i].x == PasteAnchor(s).0;
    assert p[j].y == PasteAnchor(s).1;
  }

  /** When the new ids are fresh, the selection after a paste resolves to
      exactly the pasted keys, in clipboard order. */
  lemma PasteSelectsPastedKeys(s: Studio, baseTime: nat, now: string)
    requires History.Valid(s.history)
    requires s.editor.copiedKeys != []
    requires forall i :: 0 <= i < |s.layout.keys| ==> s.layout.keys[i].id !in PastedIds(baseTime, |s.editor.copiedKeys|)
    ensures var r := PasteKeys(s, baseTime, now);
      Editor.SelectedKeys(r.editor, r.layout.keys) == PastedKeys(s, baseTime)
  {
    var r := PasteKeys(s, baseTime, now);
    var ids := PastedIds(baseTime, |s.editor.copiedKeys|);
    var pasted := PastedKeys(s, baseTime);
    assert r.layout.keys == s.layout.keys + pasted by {
      assert r.layout.keys == r.layout.keys[..|s.layout.keys|] + r.layout.keys[|s.layout.keys|..];
    }
    assert r.editor.selectedKeyIds == ids;
    SelectAppended(s.layout.keys, pasted, ids);
  }

  /** Selecting the ids of keys appended after ones that carry none of them
      gives back exactly the appended keys. */
  lemma SelectAppended(before: seq<Key>, added: seq<Key>, ids: seq<string>)
    requires forall i :: 0 <= i < |before| ==> before[i].id !in ids
    requires |added| == |ids| && forall i :: 0 <= i < |added| ==> added[i].id == ids[i]
    ensures KeysByIds(before + added, ids) == added
  {
    KeysByIdsAppend(before, added, ids);
    KeysByIdsAllOrNone(before, ids);
    KeysByIdsAllOrNone(added, ids);
  }

  // ---------------------------------------------------------------------
  // Layers

  /** setCurrentLayer against the live layer count. */
  function SetCurrentLayer(s: Studio, layer: int): (r: Studio)
    ensures 0 <= layer < s.layout.layerCount ==> r.editor.currentLayer == layer
    ensures !(0 <= layer < s.layout.layerCount) ==> r == s
    ensures r == s.(editor := r.editor) && r.editor.(currentLayer := s.editor.currentLayer) == s.editor
  {
    s.(editor := Editor.SetCurrentLayer(s.editor, layer, s.layout.layerCount))
  }

  /** incrementLayerCount. */
  function IncrementLayerCount(s: Studio, now: string): (r: Studio)
    requires History.Valid(s.history)
    ensures r.editor == s.editor && r.auth == s.auth
    ensures r.layout.keys == LayoutStore.IncrementLayerCount(s.layout).layout.keys
    ensures r.layout.layerCount == if s.layout.layerCount < Config.MAX_LAYER_COUNT then s.layout.layerCount + 1 else s.layout.layerCount
    ensures Synced(s) ==> Synced(r)
  {
    var c := LayoutStore.IncrementLayerCount(s.layout);
    CommitKeepsSynced(s, c, now);
    Commit(s, c, now)
  }

  /** decrementLayerCount: deletes a layer and keeps the layer being edited
      pointing at the same layer when a lower one went away, falling back to
      layer 0 once it is past the new count. */
  function DecrementLayerCount(s: Studio, layerToDelete: Option<int>, now: string): (r: Studio)
    requires History.Valid(s.history)
    ensures var res := LayoutStore.DecrementLayerCount(s.layout, layerToDelete);
      && r.layout.keys == res.change.layout.keys && r.layout.layerCount == res.count
      && r.editor.(currentLayer := s.editor.currentLayer) == s.editor && r.auth == s.auth
    ensures var count := r.layout.layerCount; var cur := s.editor.currentLayer;
      && (layerToDelete.Some? && layerToDelete.value < cur && 0 < cur <= count ==> r.editor.currentLayer == cur - 1)
      && (layerToDelete.Some? && layerToDelete.value < cur && cur - 1 >= count ==> r.editor.currentLayer == 0)
      && (!(layerToDelete.Some? && layerToDelete.value < cur) ==>
            r.editor.currentLayer == if cur >= count then 0 else cur)
    ensures s.editor.currentLayer >= 0 && r.layout.layerCount > 0 ==> 0 <= r.editor.currentLayer < r.layout.layerCount
    ensures Synced(s) ==> Synced(r)
  {
    var res := LayoutStore.DecrementLayerCount(s.layout, layerToDelete);
    CommitKeepsSynced(s, res.change, now);
    var r := Commit(s, res.change, now);
    var cur := s.editor.currentLayer;
    var e1 := if layerToDelete.Some? && layerToDelete.value < cur
      then Editor.SetCurrentLayer(r.editor, cur - 1, r.layout.layerCount)
      else r.editor;
    r.(editor := Editor.ResetCurrentLayerIfNeeded(e1, res.count))
  }

  // ---------------------------------------------------------------------
  // Metadata

  /** updateMetadata on the live layout. */
  function UpdateMetadata(s: Studio, name: Option<string>, author: Option<string>,
                          description: Option<string>, now: string): (r: Studio)
    requires History.Valid(s.history)
    ensures r.editor == s.editor && r.auth == s.auth && r.layout.keys == s.layout.keys
    ensures r.layout.name == name.GetOr(s.layout.name)
    ensures !History.CanRedo(r.history)
    ensures Synced(s) ==> Synced(r)
  {
    var c := LayoutStore.UpdateMetadata(s.layout, name, author, description);
    CommitKeepsSynced(s, c, now);
    Commit(s, c, now)
  }

  /** setLegendFont on the live layout. */
  function SetLegendFont(s: Studio, font: Option<LegendFont>, now: string): (r: Studio)
    requires History.Valid(s.history)
    ensures r.editor == s.editor && r.auth == s.auth && r.layout.keys == s.layout.keys
    ensures r.layout.legendFont == font
    ensures !History.CanRedo(r.history)
    ensures Synced(s) ==> Synced(r)
  {
    var c := LayoutStore.SetLegendFont(s.layout, font);
    CommitKeepsSynced(s, c, now);
    Commit(s, c, now)
  }

  // ---------------------------------------------------------------------
  // Undo and redo

  /** undo: restores the previous snapshot and clears the selection, or
      changes nothing when there is nothing to undo. */
  function Undo(s: Studio): (r: Studio)
    requires History.Valid(s.history)
    ensures History.Valid(r.history)
    ensures !History.CanUndo(s.history) ==> r == s
    ensures History.CanUndo(s.history) ==>
      && r.layout == CloneLayout(s.history.snapshots[s.history.index - 1])
      && r.history.index == s.history.index - 1 && r.history.snapshots == s.history.snapshots
      && !Editor.HasSelection(r.editor)
      && r.editor.(selectedKeyIds := s.editor.selectedKeyIds) == s.editor
    ensures r.auth == s.auth
    ensures Synced(s) ==> Synced(r)
  {
    var step := History.Undo(s.history);
    match step.restored
    case None => s
    case Some(l) =>
      CloneLayoutIdempotent(s.history.snapshots[s.history.index - 1]);
      s.(layout := l, history := step.history, editor := Editor.ClearSelection(s.editor))
  }

  /** redo: restores the next snapshot and clears the selection, or changes
      nothing when there is nothing to redo. */
  function Redo(s: Studio): (r: Studio)
    requires History.Valid(s.history)
    ensures History.Valid(r.history)
    ensures !History.CanRedo(s.history) ==> r == s
    ensures History.CanRedo(s.history) ==>
      && r.layout == CloneLayout(s.history.snapshots[s.history.index + 1])
      && r.history.index == s.history.index + 1 && r.history.snapshots == s.history.snapshots
      && !Editor.HasSelection(r.editor)
      && r.editor.(selectedKeyIds := s.editor.selectedKeyIds) == s.editor
    ensures r.auth == s.auth
    ensures Synced(s) ==> Synced(r)
  {
    var step := History.Redo(s.history);
    match step.restored
    case None => s
    case Some(l) =>
      CloneLayoutIdempotent(s.history.snapshots[s.history.index + 1]);
      s.(layout := l, history := step.history, editor := Editor.ClearSelection(s.editor))
  }

  /** Undo reverts an edit: after any notified operation, one undo puts back
      (a copy of) the layout from before it. */
  lemma EditThenUndo(s: Studio, c: LayoutStore.Change, now: string)
    requires Synced(s) && c.notified
    ensures Undo(Commit(s, c, now)).layout == CloneLayout(s.layout)
  {
    var r := Commit(s, c, now);
    History.SaveThenUndo(s.history, r.layout);
    CloneLayoutIdempotent(s.layout);
  }

  /** Redo reverts an undo: the layout comes back as the snapshot copy of
      the one undone, and the history is as before. */
  lemma UndoThenRedo(s: Studio)
    requires Synced(s) && History.CanUndo(s.history)
    ensures Redo(Undo(s)).layout == CloneLayout(s.layout)
    ensures Redo(Undo(s)).history == s.history
  {
    CloneLayoutIdempotent(s.layout);
  }

  // ---------------------------------------------------------------------
  // Whole-layout actions

  datatype LoadOutcome = LoadOutcome(studio: Studio, corrected: bool)

  /** loadLayout: the sanitised layout becomes live with nothing selected, on
      layer 0, with a one-snapshot history; reports whether anything had to
      be corrected. */
  function LoadLayout(s: Studio, raw: LayoutStore.RawLayout): (r: LoadOutcome)
    ensures r.studio.layout == LayoutStore.LoadLayout(raw).layout
    ensures r.corrected == LayoutStore.LoadLayout(raw).corrected
    ensures !Editor.HasSelection(r.studio.editor) && r.studio.editor.currentLayer == 0
    ensures r.studio.history.snapshots == [CloneLayout(r.studio.layout)] && r.studio.history.index == 0
    ensures r.studio.auth == s.auth
    ensures Synced(r.studio)
  {
    var loaded := LayoutStore.LoadLayout(raw);
    var e := Editor.ResetState(s.editor);
    var e2 := match raw.layerCount case Some(n) => Editor.ResetCurrentLayerIfNeeded(e, n) case None => e;
    LoadOutcome(Installed(loaded.layout, e2, s.auth), loaded.corrected)
  }

  /** A studio whose history is a single snapshot of its layout. */
  function Installed(l: Layout, e: Editor.Editor, auth: AuthStore.Auth): (r: Studio)
    ensures r.layout == l && r.editor == e && r.auth == auth
    ensures r.history.snapshots == [CloneLayout(l)] && r.history.index == 0
    ensures Synced(r)
  {
    CloneLayoutIdempotent(l);
    Studio(l, e, History.Initialize(l), auth)
  }

  /** createNewLayout: a fresh untitled layout with reset editor state, a
      reset source, and a one-snapshot history. */
  function CreateNewLayout(s: Studio, now: string): (r: Studio)
    ensures r.layout == LayoutStore.CreateNewLayout(now)
    ensures !Editor.HasSelection(r.editor) && r.editor.currentLayer == 0
    ensures r.auth.layoutSource == AuthStore.New && r.auth.saveDestination == s.auth.saveDestination
    ensures r.history.snapshots == [CloneLayout(r.layout)] && r.history.index == 0
    ensures Synced(r)
  {
    var l := LayoutStore.CreateNewLayout(now);
    CloneLayoutIdempotent(l);
    Studio(l, Editor.ResetState(s.editor), History.Initialize(l), AuthStore.ResetToNew(s.auth))
  }
}
