# Keyboard Layout Studio — a Dafny model of the editor core

Keyboard Layout Studio is a browser editor for custom keyboard layouts. A layout
is a list of keys. Each key has a position and a size in key units, an optional
rotation, a nine-position legend, a switch-matrix coordinate (row, col) and one
keycode per layer. This project models the editor's core as pure functions over
immutable values:

- the layout store: key edits, bulk move/resize/rotate, add/delete, loading with
  legacy upgrade and sanitising, layer add/remove, metadata (`LayoutStore`);
- the undo/redo history (`History`), the editor selection and layer state
  (`Editor`) and the auth/save-destination state (`AuthStore`);
- the facade that wires them together, with each change snapshotted into the
  history (`Keyboard`);
- the value sanitiser (`Sanitizer`) and the property-panel field processing
  (`PropertyFields`);
- import from Keyboard Layout Editor (KLE) JSON (`KleImport`);
- export to QMK `keyboard.json`, Vial `vial.json` and QMK `keymap.c` (`Export`);
- rubber-band drag selection (`DragSelection`), the keyboard-shortcut table
  (`Shortcuts`) and keycode search (`Keycodes`);
- the Gist listing filter and the GitHub error messages (`GitHub`), and the
  persisted-state helpers (`Persistence`).

Shared vocabulary is kept in small modules:

- `Wrappers` holds `Option` and `Result`.
- `Config` holds the application constants.
- `Text` holds trimming, ASCII lower-casing, splitting, substring search and decimal ids.
- `Json` holds a JSON value type.
- `Model` holds the key and layout records, cloning and lookup by id.

Where the source mutates a reactive store, the model returns the new value.

- A layout-store operation returns a `LayoutStore.Change`: the new layout, plus
  whether the store would have called its change notifier.
- `Keyboard.Commit` plays the notifier and the history watcher. It stamps the
  modification time with the corrected notifier `LayoutStore.Stamp` (see
  "## Findings") and saves a snapshot.
- `Keyboard.Synced` is the invariant the facade keeps: the newest reachable
  snapshot is a clone of the live layout.

Clocks and ids are parameters: `now` is the ISO timestamp string and `baseTime`
is the millisecond clock used for fresh ids. Numbers that may be NaN use
`Model.Num` (`R(v)` or `NaN`).

## Model

| member | source | states |
|---|---|---|
| Model.CloneKey | src/stores/layout.ts:62-75 | a cloned key equals the original except that a missing keycode map becomes an empty map |
| Model.CloneLayout | src/stores/layout.ts:62-75 | cloning keeps name, layer count, font, metadata and key order, and clones each key |
| Model.CloneLayoutIdempotent | src/stores/layout.ts:62-75 | cloning twice is cloning once; a layout whose keys all have keycode maps is its own clone |
| Model.FindIndex | src/stores/layout.ts:103-105 | none exactly when no key has the id; otherwise the first key with that id |
| Model.KeyById | src/stores/layout.ts:381-383 | none exactly when no key has the id; otherwise the first key carrying it |
| Model.KeysByIds | src/stores/layout.ts:385-387 | the keys whose id is listed, in layout order: membership if and only if, a subsequence of the layout |
| Model.KeysByIdsFirst | src/stores/layout.ts:385-387 | the first key returned is the first layout key whose id is listed |
| Model.KeysByIdsHead | src/stores/layout.ts:385-387 | conversely, when some layout key is the first listed one, the result starts with it |
| Model.KeysByIdsAppend | src/stores/layout.ts:385-387 | the lookup distributes over concatenation of key lists |
| Model.KeysByIdsAllOrNone | src/stores/layout.ts:385-387 | listing every id returns all keys; listing none returns nothing |
| LayoutStore.StampAsWritten | src/stores/layout.ts:95-100 | the notifier as written: no result (a crash) exactly when the layout has no metadata, otherwise only `modified` changes |
| LayoutStore.Stamp | src/stores/layout.ts:95-100 | corrected notifier: metadata always present afterwards with `modified` = now; nothing else changes |
| LayoutStore.StampAgreesWhereDefined | src/stores/layout.ts:95-100 | wherever the as-written notifier does not crash it agrees with the corrected one |
| LayoutStore.ApplyUpdate | src/stores/layout.ts:103-121 | fields given by the update replace the key's; x and y are floored at 0; absent fields are kept; the empty update is the identity |
| LayoutStore.UpdateKey | src/stores/layout.ts:103-121 | unknown id: no change and no notification; known id: the first key with it is updated, all other keys and layout fields are kept |
| LayoutStore.ApplyEdit | src/stores/layout.ts:123-184 | one move/resize/rotate step never changes the key's id |
| LayoutStore.Count | src/stores/layout.ts:123-184 | the number of times an id is listed is zero exactly when it is absent |
| LayoutStore.CountDistinct | src/stores/layout.ts:123-184 | with a duplicate-free id list every listed id counts once |
| LayoutStore.EditFirst | src/stores/layout.ts:123-143 | only the first key with the id is edited; length kept |
| LayoutStore.EditKeys | src/stores/layout.ts:123-184 | the bulk loop keeps the number of keys and every key's id |
| LayoutStore.EditKeysEffect | src/stores/layout.ts:123-184 | a key is edited once per listing of its id if it is the first key with that id, otherwise left alone |
| LayoutStore.RepeatEffect | src/stores/layout.ts:123-184 | repeated moves touch only x/y and keep them non-negative; resizes touch only width/height and keep them at least the minimum; rotations touch only the rotation |
| LayoutStore.RepeatRotate | src/stores/layout.ts:164-184 | rotating n times by da is one rotation by n·da, normalised to (-180, 180] |
| LayoutStore.BulkEdit | src/stores/layout.ts:123-184 | untouched keys are unchanged; touched keys get the edit; notification exactly when some listed id is found, and otherwise nothing changes |
| LayoutStore.MoveKeys | src/stores/layout.ts:123-143 | found keys move by (dx, dy) and are clamped at 0; others are unchanged; notification if and only if some id is found |
| LayoutStore.ResizeKeys | src/stores/layout.ts:145-162 | found keys grow by (dw, dh) and are floored at the minimum key size; others are unchanged; notification if and only if some id is found |
| LayoutStore.RotateKeys | src/stores/layout.ts:164-184 | a found key ends as if rotated once by the delta times the number of times its id is listed, normalised (a missing rotation counts as 0); others are unchanged; notification if and only if some id is found |
| LayoutStore.RotateTwice | src/stores/layout.ts:164-184 | rotating by a and then by b is rotating by a + b |
| LayoutStore.RotateKeysOnce | src/stores/layout.ts:164-184 | with distinct ids each found key is rotated exactly once |
| LayoutStore.AddKey | src/stores/layout.ts:186-202 | appends one 1×1 rectangular key with the given id and position, empty legend, matrix and keycodes and no rotation; existing keys untouched; notifies |
| LayoutStore.AddKeys | src/stores/layout.ts:210-213 | appends the given keys after the existing ones, in order; notifies |
| LayoutStore.KeepUnlisted | src/stores/layout.ts:204-208 | the keys whose id is not listed, in order; with the listed ones they account for every key |
| LayoutStore.DeleteKeys | src/stores/layout.ts:204-208 | an empty id list changes nothing; otherwise exactly the unlisted keys remain, in order, and the store notifies |
| LayoutStore.UpgradeKey | src/stores/layout.ts:256-270 | a legacy `keycode` becomes layer 0 (empty becomes an empty map); a key without keycodes gets an empty map; a modern key is kept |
| LayoutStore.LoadOneKey | src/stores/layout.ts:256-279 | a loaded key is the upgraded key with sanitised geometry; it is flagged exactly when its geometry was out of bounds |
| LayoutStore.LoadKeys | src/stores/layout.ts:256-279 | one loaded key per raw key, in order; corrected if and only if some raw key's geometry was out of bounds |
| LayoutStore.ReloadKeys | src/stores/layout.ts:256-279 | keys with keycodes and in-bounds geometry load back to themselves with no correction |
| LayoutStore.TruncateOptional | src/stores/layout.ts:238-253 | an absent text stays absent; a too-long one becomes exactly its first maximum-length characters; any other is kept, and kept exactly when it was not too long |
| LayoutStore.LoadMetadata | src/stores/layout.ts:238-253 | author and description each become their first maximum-length characters when too long and are otherwise kept; timestamps kept; corrected if and only if one was too long; otherwise the metadata is kept |
| LayoutStore.LoadLayout | src/stores/layout.ts:220-283 | a missing or zero layer count becomes 1; the name is the given name when within the limit and its first maximum-length characters when too long (empty when missing); every key is loaded; corrected if and only if the name was missing or too long, the metadata was truncated, or some key was out of bounds |
| LayoutStore.LoadLayoutIdempotent | src/stores/layout.ts:220-283 | loading an already loaded layout again changes nothing and reports no correction |
| LayoutStore.ReloadMetadata | src/stores/layout.ts:238-253 | loaded metadata loads back to itself with no correction |
| LayoutStore.AddLayer | src/stores/layout.ts:317-331 | the new top layer gets the transparent code in the key's map, and a missing map becomes one; nothing else changes |
| LayoutStore.AddLayerAll | src/stores/layout.ts:317-331 | every key gets the new layer |
| LayoutStore.IncrementLayerCount | src/stores/layout.ts:317-331 | at the maximum nothing changes; otherwise the count grows by one, every key gets a transparent code on the new layer, and the store notifies |
| LayoutStore.ShiftDownSpec | src/stores/layout.ts:333-366 | after removing a layer, layer j holds what layer j (below the removed one) or j+1 (above it) held before |
| LayoutStore.ShiftDownExample | src/stores/layout.ts:333-366 | removing the middle of three layers keeps layer 0 and moves layer 2 down to 1 |
| LayoutStore.ShiftDownTop | src/stores/layout.ts:333-366 | removing a freshly added top layer restores the map |
| LayoutStore.DropLayer | src/stores/layout.ts:333-366 | a key's map loses the removed layer and the layers above shift down; a key without a map is unchanged |
| LayoutStore.DropLayerAll | src/stores/layout.ts:333-366 | every key drops the layer |
| LayoutStore.DecrementLayerCount | src/stores/layout.ts:333-366 | at the minimum nothing changes; otherwise the given layer (default the top one) is removed from every key, the count drops by one, and the store notifies |
| LayoutStore.AddDropLayer | src/stores/layout.ts:317-366 | adding and then removing the top layer restores a key whose layers are all below it |
| LayoutStore.AddDropLayerAll | src/stores/layout.ts:317-366 | the same for every key of a layout |
| LayoutStore.AddThenRemoveLayer | src/stores/layout.ts:317-366 | incrementing and then decrementing the layer count restores the layout |
| LayoutStore.KeysAddDrop | src/stores/layout.ts:317-366 | adding and dropping the top layer restores the key list |
| LayoutStore.AddLastLayer | src/stores/layout.ts:317-331 | incrementing is adding a transparent layer at index layerCount and bumping the count |
| LayoutStore.DropLastLayer | src/stores/layout.ts:333-366 | decrementing with no layer given drops the top layer |
| LayoutStore.UpdateMetadata | src/stores/layout.ts:289-307 | the name is replaced when given; author and description replace the metadata's when given; keys, layers and font are kept; notifies |
| LayoutStore.SetLegendFont | src/stores/layout.ts:309-315 | only the font changes, metadata is created if missing; notifies |
| LayoutStore.MetadataEditsStampable | src/stores/layout.ts:289-315 | after a metadata or font edit the as-written notifier cannot crash |
| LayoutStore.CreateNewLayout | src/stores/layout.ts:368-379 | an empty "Untitled Layout" with one layer and created = modified = now |
| LayoutStore.EditAfterLoadWithoutMetadata | src/stores/layout.ts:95-100 | a loaded layout without metadata makes the as-written notifier crash |
| History.Save | src/stores/history.ts:25-40 | redo states are dropped, a clone of the live layout becomes the newest state, the cursor is on it, at most the maximum is kept, and older states are preserved in order |
| History.SaveKeepsOlder | src/stores/history.ts:25-40 | every state after a save was already in the history or is the new clone of the live layout |
| History.Undo | src/stores/history.ts:42-48 | without an undo state nothing happens; otherwise the cursor moves back and a clone of that snapshot is restored, and redo becomes possible |
| History.Redo | src/stores/history.ts:50-56 | without a redo state nothing happens; otherwise the cursor moves forward, a clone of that snapshot is restored, and undo becomes possible |
| History.Clear | src/stores/history.ts:58-61 | no snapshots, no undo, no redo |
| History.Initialize | src/stores/history.ts:63-66 | a single snapshot of the live layout with the cursor on it |
| History.UndoThenRedo | src/stores/history.ts:42-56 | redo after undo returns to the same history and restores the current snapshot |
| History.RedoThenUndo | src/stores/history.ts:42-56 | undo after redo returns to the same history and restores the current snapshot |
| History.SaveThenUndo | src/stores/history.ts:25-48 | after a save, undo restores the snapshot that was current before the save |
| History.UndoTimes | src/stores/history.ts:42-48 | repeated undo keeps the history well formed |
| History.UndoDepth | src/stores/history.ts:42-48 | n undos move the cursor back n steps but never below the first snapshot, and never change the snapshots |
| Editor.SelectedKey | src/stores/editor.ts:26-29 | a key only when exactly one id is selected, and then the first layout key with it |
| Editor.SelectedKeys | src/stores/editor.ts:31-33 | the layout keys whose id is selected |
| Editor.SelectKey | src/stores/editor.ts:40-46 | none clears the selection; an id becomes the sole selection |
| Editor.ToggleKeySelection | src/stores/editor.ts:48-55 | an unselected id is appended; a selected id has its first occurrence removed; nothing else changes |
| Editor.ToggleFlipsMembership | src/stores/editor.ts:48-55 | on a duplicate-free selection, toggling flips exactly that id's membership and keeps it duplicate-free |
| Editor.ToggleTwice | src/stores/editor.ts:48-55 | toggling an unselected id twice restores the editor |
| Editor.SelectMultipleKeys | src/stores/editor.ts:57-59 | the selection becomes the given ids |
| Editor.ClearSelection | src/stores/editor.ts:61-63 | nothing is selected afterwards, all else kept |
| Editor.SelectNextKey | src/stores/editor.ts:65-80 | succeeds exactly when one key is selected and it is not the last; then selects the key after its first occurrence; otherwise nothing changes |
| Editor.ToggleDisplayMode | src/stores/editor.ts:82-84 | the display mode flips |
| Editor.ToggleDisplayModeTwice | src/stores/editor.ts:82-84 | flipping twice restores the editor |
| Editor.SetKeyboardLayout | src/stores/editor.ts:86-88 | only the physical layout type changes |
| Editor.CopySelectedKeys | src/stores/editor.ts:90-99 | with nothing selected the clipboard is kept; otherwise it holds clones of the selected keys |
| Editor.SetCurrentLayer | src/stores/editor.ts:109-113 | an in-range layer is selected; an out-of-range one is ignored |
| Editor.ResetCurrentLayerIfNeeded | src/stores/editor.ts:115-119 | a current layer at or above the count falls back to 0 |
| Editor.ResetKeepsLayerInRange | src/stores/editor.ts:115-119 | after the reset the current layer is in range |
| Editor.ResetState | src/stores/editor.ts:121-124 | selection cleared and layer 0; display mode, layout type and clipboard kept |
| AuthStore.DestinationOf | src/stores/auth.ts:64-72 | a Gist source saves to Gist, a local source saves locally, a new layout keeps the destination |
| AuthStore.Truthy | src/stores/auth.ts:64-72 | an empty string counts as absent |
| AuthStore.Username | src/stores/auth.ts:24 | a name only when logged in with a non-empty user name |
| AuthStore.SetGitHubAuth | src/stores/auth.ts:29-41 | logged in exactly when credentials are given; nothing else changes |
| AuthStore.SetLayoutSource | src/stores/auth.ts:64-72 | source set, empty ids dropped, destination follows the source unless it is new; credentials kept |
| AuthStore.ClearLayoutSource | src/stores/auth.ts:74-79 | a local source with no Gist ids and local saving |
| AuthStore.SetSaveDestination | src/stores/auth.ts:81-83 | only the destination changes |
| AuthStore.LogoutGitHub | src/stores/auth.ts:54-62 | logged out and saving locally; a Gist source becomes local with its ids cleared, any other source is kept |
| AuthStore.ResetToNew | src/stores/auth.ts:85-89 | source new with no ids; destination and credentials kept |
| AuthStore.LogoutLeavesNoGist | src/stores/auth.ts:54-62 | after logout the source is never a Gist, and logging out again changes nothing |
| AuthStore.ResetAfterSetSource | src/stores/auth.ts:64-89 | resetting erases the source that was set but keeps the destination it implied |
| AuthStore.ClearIsLocalSource | src/stores/auth.ts:64-79 | clearing is setting a local source without ids |
| AuthStore.InitialState | src/stores/auth.ts:14-22 | the initial state is logged out, new and local, and is fixed by reset and logout |
| Keyboard.Commit | src/stores/history.ts:69-73 | a notified change is stamped and snapshotted (no redo afterwards); an unnotified one replaces the layout without touching history |
| Keyboard.CommitKeepsSynced | src/stores/history.ts:69-73 | committing a notified change, or one that changes nothing, keeps the newest snapshot equal to a clone of the live layout |
| Keyboard.UpdateKey | src/stores/keyboard.ts:95-97 | the layout keys are the store's update; an unknown id changes nothing; the sync invariant is kept |
| Keyboard.MoveSelectedKeys | src/stores/keyboard.ts:99-101 | the selection is moved by the store; nothing found means nothing changes; the sync invariant is kept |
| Keyboard.ResizeSelectedKeys | src/stores/keyboard.ts:103-105 | the selection is resized by the store; nothing found means nothing changes; the sync invariant is kept |
| Keyboard.RotateSelectedKeys | src/stores/keyboard.ts:107-109 | the selection is rotated by the store; nothing found means nothing changes; the sync invariant is kept |
| Keyboard.AddKeyAnchor | src/stores/keyboard.ts:111-119 | the new key goes right of the single selected key, or at the origin |
| Keyboard.AddKey | src/stores/keyboard.ts:111-123 | one key is appended at the anchor and becomes the sole selection; no redo remains; sync kept |
| Keyboard.AddKeySelectsNewKey | src/stores/keyboard.ts:111-123 | with a fresh id, the selected key afterwards is the new 1×1 key at the anchor |
| Keyboard.DeleteSelectedKeys | src/stores/keyboard.ts:125-128 | exactly the unselected keys remain and the selection is cleared; with nothing selected the layout and history are kept |
| Keyboard.Xs | src/stores/keyboard.ts:170 | the x coordinates of the copied keys, in order |
| Keyboard.Ys | src/stores/keyboard.ts:171 | the y coordinates of the copied keys, in order |
| Keyboard.MinOf | src/stores/keyboard.ts:170-171 | the least coordinate, attained by some key |
| Keyboard.PastedIds | src/stores/keyboard.ts:173-175 | the i-th pasted key's id is the decimal string of baseTime + i |
| Keyboard.PastedIdsDistinct | src/stores/keyboard.ts:173-175 | the pasted ids are pairwise distinct |
| Keyboard.Placed | src/stores/keyboard.ts:173-182 | each pasted key is the copied key with a new id and its offset from the copied minimum added to the anchor |
| Keyboard.PasteAnchor | src/stores/keyboard.ts:159-167 | right of the first selected key, or the origin when nothing is selected |
| Keyboard.PastedKeys | src/stores/keyboard.ts:152-182 | one pasted key per copied key, at the anchor plus its offset |
| Keyboard.PasteKeys | src/stores/keyboard.ts:152-188 | an empty clipboard changes nothing; otherwise the pasted keys are appended and become the selection; sync kept |
| Keyboard.PastePreservesOffsets | src/stores/keyboard.ts:169-182 | pasted keys keep their relative offsets, and the top-left pasted key lands on the anchor |
| Keyboard.PasteSelectsPastedKeys | src/stores/keyboard.ts:184-185 | with fresh ids the selected keys after a paste are exactly the pasted keys |
| Keyboard.SelectAppended | src/stores/keyboard.ts:184-185 | looking up the ids of appended keys with fresh ids returns exactly those keys |
| Keyboard.SetCurrentLayer | src/stores/keyboard.ts:200-202 | an in-range layer becomes current; otherwise nothing changes |
| Keyboard.IncrementLayerCount | src/stores/keyboard.ts:204-206 | the count grows by one below the maximum and the keys get the new layer; sync kept |
| Keyboard.DecrementLayerCount | src/stores/keyboard.ts:208-215 | the store removes the layer; the current layer steps down when a lower layer went away and falls back to 0 once past the new count, so it stays in range; sync kept |
| Keyboard.UpdateMetadata | src/stores/keyboard.ts:191-193 | name replaced when given, keys kept, no redo remains; sync kept |
| Keyboard.SetLegendFont | src/stores/keyboard.ts:195-197 | font set, keys kept, no redo remains; sync kept |
| Keyboard.Undo | src/stores/keyboard.ts:218-222 | without an undo state nothing changes; otherwise the previous snapshot is restored as a clone; sync kept |
| Keyboard.Redo | src/stores/keyboard.ts:224-228 | without a redo state nothing changes; otherwise the next snapshot is restored as a clone; sync kept |
| Keyboard.EditThenUndo | src/stores/keyboard.ts:218-222 | undo right after any notified edit restores (a clone of) the layout before it |
| Keyboard.UndoThenRedo | src/stores/keyboard.ts:218-228 | redo right after undo restores the layout and the history |
| Keyboard.LoadLayout | src/stores/keyboard.ts:131-137 | the store's loaded layout, the selection cleared, layer 0, history reset to one snapshot; sync holds |
| Keyboard.CreateNewLayout | src/stores/keyboard.ts:231-236 | a fresh layout, editor reset, source new with the destination kept, history reset; sync holds |
| Sanitizer.ConstraintTablesWellFormed | src/utils/key-sanitizer.ts:39-100 | every numeric constraint has min ≤ max |
| Sanitizer.Clamp | src/utils/key-sanitizer.ts:13-15 | the result lies in [lo, hi], equals v inside, and is the nearer bound outside |
| Sanitizer.ValidateNumeric | src/utils/key-sanitizer.ts:104-113 | unknown fields pass; known fields pass exactly for a number within the bounds |
| Sanitizer.SanitizeNumeric | src/utils/key-sanitizer.ts:118-127 | unknown fields and NaN are kept; numbers are clamped into the bounds; valid values are unchanged |
| Sanitizer.SanitizeNumericSettles | src/utils/key-sanitizer.ts:104-127 | a sanitised number validates, and sanitising again changes nothing |
| Sanitizer.SubtractTurns | src/utils/key-sanitizer.ts:132-138 | whole turns are taken off until the angle is at most 180 |
| Sanitizer.AddTurns | src/utils/key-sanitizer.ts:132-138 | whole turns are added until the angle is above -180 |
| Sanitizer.NormalizeRotation | src/utils/key-sanitizer.ts:132-138 | the result lies in (-180, 180] and differs from the input by whole turns; NaN becomes 0; in-range angles are kept |
| Sanitizer.CanonicalAngleUnique | src/utils/key-sanitizer.ts:132-138 | two angles in (-180, 180] that differ by whole turns are equal |
| Sanitizer.NormalizeRotationCanonical | src/utils/key-sanitizer.ts:132-138 | the result is the unique angle in (-180, 180] equivalent to the input |
| Sanitizer.NormalizeRotationShift | src/utils/key-sanitizer.ts:132-138 | normalising before adding a step gives the same result as normalising afterwards |
| Sanitizer.NormalizeRotationIdempotent | src/utils/key-sanitizer.ts:132-138 | normalising twice is normalising once |
| Sanitizer.SanitizeGeometryField | src/utils/key-sanitizer.ts:144-166 | a geometry field is clamped by its constraint |
| Sanitizer.SanitizeKeyGeometry | src/utils/key-sanitizer.ts:144-166 | position and size are brought into bounds and nothing else changes; corrected if and only if the key changed, if and only if it was out of bounds |
| Sanitizer.ValidateText | src/utils/key-sanitizer.ts:172-181 | unknown fields pass; known fields pass exactly within the length limit |
| Sanitizer.SanitizeText | src/utils/key-sanitizer.ts:186-195 | the result is a prefix of the input within the limit, cut to the limit when too long, and unchanged when valid |
| Sanitizer.SanitizeTextIdempotent | src/utils/key-sanitizer.ts:186-195 | truncating twice is truncating once |
| Sanitizer.ErrorMessageIdentifiesField | src/utils/key-sanitizer.ts:39-97 | within the key, matrix and text tables, the message returned for a field (its table message, or the generic "invalid value" message naming it) is never shared with another field |
| PropertyFields.NumericFieldByName | src/composables/useKeyPropertyFields.ts:48-92 | exactly the seven numeric field names are known, and each maps back to its name |
| PropertyFields.NumericFieldNamesRoundTrip | src/composables/useKeyPropertyFields.ts:48-92 | every numeric field is found by its own name |
| PropertyFields.ProcessNumericField | src/composables/useKeyPropertyFields.ts:133-155 | unknown names fail with "Unknown field"; geometry fields accept in-range numbers unchanged; rotation accepts any number and normalises it; row/col also accept NaN; failures carry the field's message |
| PropertyFields.ValidValuesPassThrough | src/composables/useKeyPropertyFields.ts:133-155 | an accepted value other than a rotation is passed through unchanged |
| PropertyFields.NumericFieldUpdate | src/composables/useKeyPropertyFields.ts:191-211 | an update exactly for accepted geometry or rotation values, setting that field to the processed value |
| PropertyFields.NumericUpdateKeepsBounds | src/composables/useKeyPropertyFields.ts:191-211 | applying an accepted update to an in-bounds key keeps it in bounds |
| PropertyFields.MatrixFieldUpdate | src/composables/useKeyPropertyFields.ts:221-238 | only the edited coordinate changes; an empty input clears it, an in-range number sets it, and an out-of-range number clears it |
| PropertyFields.MatrixFieldRoundTrip | src/composables/useKeyPropertyFields.ts:221-238 | clearing and then setting a coordinate gives that coordinate and keeps the other |
| PropertyFields.ProcessTextField | src/composables/useKeyPropertyFields.ts:164-182 | unknown names fail; known names accept exactly the texts within the limit, unchanged |
| PropertyFields.LegendFieldUpdate | src/composables/useKeyPropertyFields.ts:247-264 | too long is rejected; empty removes the position; otherwise sets it; other positions are kept |
| PropertyFields.LegendSetThenClear | src/composables/useKeyPropertyFields.ts:247-264 | setting then clearing a position is just clearing it |
| PropertyFields.KeycodeFieldUpdate | src/composables/useKeyPropertyFields.ts:273-285 | empty removes the layer; otherwise sets it; other layers are kept |
| PropertyFields.KeycodeSetThenClear | src/composables/useKeyPropertyFields.ts:273-285 | the last write to a layer wins |
| PropertyFields.LegendFieldNames | src/composables/useKeyPropertyFields.ts:290-301 | a name is a legend field exactly when it names one of the nine positions, and names are distinct |
| Persistence.ExtractPersistedLayout | src/types/persistence.ts:97-105 | the persisted form carries exactly the layout's five fields |
| Persistence.PersistRoundTrip | src/types/persistence.ts:97-105 | extracting and rebuilding are inverse in both directions |
| Persistence.ShapeCheckIgnoresKeys | src/types/persistence.ts:111-121 | non-objects are rejected; the verdict does not depend on the key array's contents |
| Persistence.ShapeCheckAccepts | src/types/persistence.ts:111-121 | an object with a string name, an array of keys and a numeric layer count is accepted whatever else it holds |
| Persistence.InitialEditorState | src/types/persistence.ts:126-134 | no selection, empty clipboard, layer 0, matrix display, ANSI |
| Persistence.InitialHistoryState | src/types/persistence.ts:139-144 | no snapshots, cursor -1, no undo or redo |
| Persistence.InitialAuthState | src/types/persistence.ts:149-157 | logged out, new source, no Gist ids, local saving |
| Persistence.InitialStatesAgree | src/types/persistence.ts:126-157 | the three initial states are the ones the stores start from |
| GitHub.ItemOf | src/services/github.ts:196-215 | a list entry carries the Gist id, the file name as key, the description or empty, and the Gist source |
| GitHub.LayoutItems | src/services/github.ts:196-215 | an entry for exactly the layout files of one Gist |
| GitHub.FilterKlsGists | src/services/github.ts:196-215 | an entry for exactly the layout files across all Gists |
| GitHub.ItemsAreGistLayouts | src/services/github.ts:196-215 | every entry is a Gist layout file keyed by its name |
| GitHub.FilterKlsGistsAppend | src/services/github.ts:196-215 | listing distributes over concatenating Gist lists, so order is kept |
| GitHub.LayoutItemsCount | src/services/github.ts:196-215 | a Gist contributes as many entries as it has layout files |
| GitHub.GitHubErrorMessage | src/services/github.ts:217-239 | 401/403/404/422 get their own messages; other API errors are prefixed; fetch failures read as network errors; other errors keep their message; non-errors are "unexpected" |
| GitHub.ApiMessageDeterminesStatus | src/services/github.ts:218-230 | a known status can be recovered from its message |
| GitHub.NetworkFailureMessage | src/services/github.ts:232-238 | any message containing the fetch failure reads as the network message |
| KleImport.KleSlot | src/utils/kle-import.ts:171-205 | each legend position has one KLE slot, never 4-6 |
| KleImport.PositionMapInjective | src/utils/kle-import.ts:171-205 | the slot table maps at most one slot to each position |
| KleImport.LabelPrefix | src/utils/kle-import.ts:171-205 | after n parts, exactly the mapped positions with non-blank parts are set, to those parts |
| KleImport.LegendOf | src/utils/kle-import.ts:171-205 | a position is set exactly when its slot exists and is not blank, and holds that slot's text untrimmed |
| KleImport.ParseKleLabel | src/utils/kle-import.ts:171-205 | every legend text is one non-blank line of the label |
| KleImport.ParseJoinedLabel | src/utils/kle-import.ts:171-205 | for a label made of given lines, a position is filled exactly when its KLE slot exists and is not blank, and then holds that slot's line |
| Text.JoinSplit | src/utils/kle-import.ts:172 | splitting at the separator and joining again gives the text back |
| Text.SplitJoin | src/utils/kle-import.ts:172 | splitting a join of separator-free parts gives the parts back |
| KleImport.LegendIgnoresUnmappedSlots | src/utils/kle-import.ts:171-205 | labels that agree on the mapped slots give the same legend |
| KleImport.Scan | src/utils/kle-import.ts:114-157 | scanning a row never loses keys |
| KleImport.ScanKeys | src/utils/kle-import.ts:137-157 | each string element adds one key; the id counter advances by the same number |
| KleImport.ScanY | src/utils/kle-import.ts:114-130 | y moves by the sum of the row's y offsets |
| KleImport.ScanSize | src/utils/kle-import.ts:114-157 | the pending width/height is the last one set since the last key, or 1 |
| KleImport.ScanX | src/utils/kle-import.ts:114-157 | x is the row's x offsets plus the widths of the keys placed in it |
| KleImport.LabelMakesKey | src/utils/kle-import.ts:137-157 | a label appends exactly one key after those already made: at the cursor with the pending size, the next id, no matrix or keycodes, and the legend of the label |
| KleImport.ScanRowsFacts | src/utils/kle-import.ts:99-163 | the import yields one key per label, and y ends at the start plus one per array row plus the y offsets |
| KleImport.SkippedRow | src/utils/kle-import.ts:105-108 | a non-array row is ignored |
| KleImport.ConvertKleToKls | src/utils/kle-import.ts:77-166 | one layer; name, author and notes from the metadata object when they are non-empty strings; created and modified now; keys scanned from the rows |
| KleImport.ImportedKeys | src/utils/kle-import.ts:77-166 | the number of imported keys is the number of labels in array rows |
| KleImport.ScanUnwired | src/utils/kle-import.ts:137-157 | scanning adds only keys without matrix or keycodes |
| KleImport.ScanRowsUnwired | src/utils/kle-import.ts:99-163 | so does scanning all rows |
| KleImport.ImportedKeysUnwired | src/utils/kle-import.ts:77-166 | no imported key has a matrix position or keycodes |
| KleImport.ParseKleData | src/utils/kle-import.ts:57-72 | non-array data fails with its message; an array is converted |
| Export.Insert | src/utils/export.ts:186-191 | inserting adds exactly the one key: the result is the old keys plus it, as a multiset |
| Export.InsertSorted | src/utils/export.ts:186-191 | inserting into a list sorted by y then x keeps it sorted |
| Export.SortByPosition | src/utils/export.ts:186-191 | a permutation of the keys sorted by y then x |
| Export.RowIndices | src/utils/export.ts:23-24 | exactly the set row indices of the keys |
| Export.ColIndices | src/utils/export.ts:23-24 | exactly the set column indices of the keys |
| Export.MaxIndex | src/utils/export.ts:23-24 | the largest index, or -1 for none: an upper bound that is attained |
| Export.PinCount | src/utils/export.ts:23-30 | a pin count exists exactly when some key has that index ≥ 0; it is one more than every index and equal to one more than some index |
| Export.MatrixSize | src/utils/export.ts:53-57 | at least 1, one more than every set index, and either 1 or one more than some key's index |
| Export.ConvertToQmkLayout | src/utils/export.ts:69-89 | position kept; width/height only when not 1; matrix only when both coordinates are set |
| Export.QmkEntryRoundTrip | src/utils/export.ts:69-89 | the full geometry and matrix of a key can be read back from its entry |
| Export.ExportToQmk | src/utils/export.ts:8-41 | default name when empty; manufacturer and maintainer are the author; one entry per key; pin counts present exactly when some index ≥ 0 and then cover every index and are attained; a dynamic layer count only for more than one layer |
| Export.GapProps | src/utils/export.ts:124-149 | x only for a positive gap, w and h only when not 1 |
| Export.KeyItems | src/utils/export.ts:130-157 | a label for the key's matrix position, preceded by the fixed ISO Enter props, or by gap/size props when any is needed |
| Export.LabelsAppend | src/utils/export.ts:95-169 | labels distribute over item lists |
| Export.RowLabelsAreWired | src/utils/export.ts:118-157 | a row's labels are exactly the matrix positions of its wired keys, in order |
| Export.RowEmptyIffUnwired | src/utils/export.ts:118-165 | a row is empty exactly when none of its keys is wired |
| Export.Runs | src/utils/export.ts:97-103 | rows are non-empty runs of keys at one y |
| Export.RunsFlatten | src/utils/export.ts:97-103 | concatenating the rows gives the keys back |
| Export.RunsIncreasing | src/utils/export.ts:97-108 | for sorted keys the rows go strictly downwards |
| Export.ConvertToVialLayout | src/utils/export.ts:95-169 | no row is empty |
| Export.Nonempty | src/utils/export.ts:163-165 | dropping empty rows keeps the rest and the concatenation |
| Export.LabelsFlatten | src/utils/export.ts:95-169 | the labels of all rows are the wired positions of all groups |
| Export.WiredAppend | src/utils/export.ts:95-169 | wired positions distribute over key lists |
| Export.VialLabelsAreWired | src/utils/export.ts:95-169 | the Vial keymap labels, read in order, are the matrix positions of the wired keys sorted by position |
| Export.WiredInsert | src/utils/export.ts:186-191 | inserting a key adds its wired position |
| Export.WiredSort | src/utils/export.ts:186-191 | sorting keeps the multiset of wired positions |
| Export.ExportToVial | src/utils/export.ts:46-64 | default name when empty; the matrix has at least one row and column, covers every index and is no larger than needed; the keymap is the converted layout |
| Export.CodeAt | src/utils/export.ts:195-201 | the keycode on the layer, or the transparent code when unset or empty |
| Export.WiredKeys | src/utils/export.ts:176-178 | exactly the keys with both matrix coordinates |
| Export.Chunk | src/utils/export.ts:204-208 | lines hold the codes in order, 12 per line except the last, with a comma after every line but the last |
| Export.ExportToQmkKeymap | src/utils/export.ts:174-224 | fails with its message exactly when no key is wired; otherwise one block per layer, each listing the codes of the wired keys sorted by position, twelve to a line with a comma after every line but the last |
| Export.LayerCodes | src/utils/export.ts:195-201 | one code per key, in order |
| Export.KeymapLayerContents | src/utils/export.ts:174-224 | each layer lists one code per wired key, in sorted order |
| DragSelection.SelectionRect | src/composables/useDragSelection.ts:65-74 | a rectangle only while dragging, spanning exactly the start and end points |
| DragSelection.SelectionRectSymmetric | src/composables/useDragSelection.ts:65-74 | swapping start and end gives the same rectangle |
| DragSelection.MouseDown | src/composables/useDragSelection.ts:104-113 | starts a drag at the pointer, or does nothing without a position |
| DragSelection.MouseMove | src/composables/useDragSelection.ts:118-126 | while dragging the end follows the pointer; otherwise nothing changes |
| DragSelection.HitIds | src/composables/useDragSelection.ts:142-157 | exactly the ids of keys whose scaled bounds strictly overlap the rectangle |
| DragSelection.HitIdsAppend | src/composables/useDragSelection.ts:142-157 | hits distribute over key lists |
| DragSelection.MouseUp | src/composables/useDragSelection.ts:132-168 | outside a drag nothing happens; a drag ends; a tiny drag selects nothing; a real one selects the hit keys; the just-finished flag is set when something was selected |
| DragSelection.Reset | src/composables/useDragSelection.ts:173-180 | no drag, no flag, both points at the origin |
| DragSelection.ClickSelectsNothing | src/composables/useDragSelection.ts:132-141 | a click without movement selects nothing |
| DragSelection.SelectionSymmetric | src/composables/useDragSelection.ts:132-157 | dragging in either direction selects the same keys |
| DragSelection.ContainedKeyIsHit | src/composables/useDragSelection.ts:142-157 | a key inside the rectangle is selected |
| DragSelection.HitsMonotone | src/composables/useDragSelection.ts:142-157 | a larger rectangle selects at least the same keys |
| Shortcuts.MetaActsAsCtrl | src/composables/useKeyboardShortcuts.ts:52-69 | Cmd matches exactly like Ctrl |
| Shortcuts.KeyCaseIgnored | src/composables/useKeyboardShortcuts.ts:54-56 | key matching ignores letter case |
| Shortcuts.Dispatch | src/composables/useKeyboardShortcuts.ts:183-204 | the first shortcut in the table that fires, or none exactly when none fires |
| Shortcuts.ActionFor | src/composables/useKeyboardShortcuts.ts:183-204 | the action of a firing table entry, none exactly when nothing fires |
| Shortcuts.DispatchFirst | src/composables/useKeyboardShortcuts.ts:183-204 | the entry that fires with none firing before it is the one chosen |
| Shortcuts.LengthsDiffer | src/composables/useKeyboardShortcuts.ts:54-56 | a key name of another length never matches |
| Shortcuts.TableSelectionFlags | src/composables/useKeyboardShortcuts.ts:74-178 | the entries that need a selection are exactly the edit actions |
| Shortcuts.NoSelectionOnlyHistory | src/composables/useKeyboardShortcuts.ts:74-204 | without a selection only undo and redo can fire |
| Shortcuts.UndoShortcut | src/composables/useKeyboardShortcuts.ts:82-96 | Ctrl/Cmd+Z without Shift undoes, in either case |
| Shortcuts.RedoShortcutY | src/composables/useKeyboardShortcuts.ts:82-96 | Ctrl/Cmd+Y redoes whatever the Shift state |
| Shortcuts.RedoShortcutShiftZ | src/composables/useKeyboardShortcuts.ts:82-96 | Ctrl/Cmd+Shift+Z redoes |
| Shortcuts.ArrowUpMoves | src/composables/useKeyboardShortcuts.ts:99-118 | ArrowUp moves the selection up one step |
| Shortcuts.ShiftArrowUpResizes | src/composables/useKeyboardShortcuts.ts:121-140 | Shift+ArrowUp shrinks the selection's height one step |
| Shortcuts.RotateShortcuts | src/composables/useKeyboardShortcuts.ts:167-176 | R rotates clockwise and Shift+R counter-clockwise |
| Keycodes.AllKeycodes | src/data/keycodes.ts:277-278 | exactly the keycodes of all categories |
| Keycodes.Hits | src/data/keycodes.ts:277-283 | exactly the keycodes whose code, label or description contains the query |
| Keycodes.HitsAppend | src/data/keycodes.ts:277-283 | filtering distributes over lists, so order is kept |
| Keycodes.SearchKeycodes | src/data/keycodes.ts:274-284 | a blank query finds nothing; otherwise exactly the matching keycodes of all categories |
| Keycodes.SearchByCategory | src/data/keycodes.ts:274-284 | results come category by category |
| Keycodes.FindIn | src/data/keycodes.ts:289-296 | the first entry with the code, none exactly when absent |
| Keycodes.FindKeycode | src/data/keycodes.ts:289-296 | the first keycode with the code across categories, none exactly when absent |
| Keycodes.FindSkipsCategory | src/data/keycodes.ts:289-296 | a category without the code does not affect the result |
| Keycodes.KeycodeLabel | src/data/keycodes.ts:300-303 | the label of the code's keycode when it exists and is non-empty, otherwise the code |
| Keycodes.KnownCodeShowsLabel | src/data/keycodes.ts:300-303 | a unique known code with a label shows that label |

## Left out

- Vue/Pinia reactivity, component wiring and watchers are not modelled. Each store action is a function from state to state, and `Keyboard.Commit` stands for the change notifier and the history watcher.
- Clocks are not modelled. `Date.now()` and `new Date().toISOString()` are parameters (`baseTime`, `now`).
- `JSON.parse`/`JSON.stringify` are not modelled; inputs are already-parsed `Json` values.
- File downloads, clipboard and DOM events, `preventDefault`, and SVG coordinate conversion are not modelled. The drag model takes the pointer position in SVG units as an input (`None` when it cannot be computed).
- The GitHub HTTP calls, OAuth device flow, worker proxy, `localStorage` access (including `loadGitHubAuth`), toasts and i18n are not modelled; they are I/O.
- The keyboard store's pass-through wrappers for selection, display mode and auth are left out. They only call the editor and auth operations, which are modelled.
- The fixed preamble text of the generated `keymap.c` is not modelled; only the layer blocks are.
- The KLE alignment (`a`) warning is not modelled; it only logs.
- The keycode catalogue's contents are not modelled: the category table is a parameter of the search functions.
- Text.Lower, Keycodes.Hits, Keycodes.SearchKeycodes: lower-cases ASCII letters only, where the source uses Unicode `toLowerCase`; a search query with non-ASCII capitals matches less in the model than in the source.
- PropertyFields.ProcessNumericField, PropertyFields.ProcessTextField, Sanitizer.ValidateNumeric, Sanitizer.SanitizeNumeric, Sanitizer.ValidateText: a field name is looked up as an own key of its table only. Names the source's tables inherit from `Object.prototype` (`toString`, `constructor`, `__proto__`, ...) are treated as unknown; in the source they make `processNumericField`/`processTextField` throw a TypeError, the validators return false and `sanitizeNumericField` return NaN.
- Parsing of typed input (`parseFloat`, `parseInt`) is not modelled: the property-field pipeline receives the parsed number, NaN included.
- Key geometry is `real`, so a loaded file whose `x`, `y`, `width` or `height` is missing or not a number cannot be expressed. In the source such a value is clamped to NaN, which compares unequal to itself, so the load reports a correction.
- KleImport.ConvertKleToKls: metadata fields that are truthy but not strings are treated as absent, and non-numeric `x`/`y`/`w`/`h` properties are treated as absent. The source would copy such values through untyped.
- Export.SortByPosition: states sortedness by (y, x) and permutation, but not the stability of the source's `Array.prototype.sort`.
- Export.ConvertToVialLayout: the source groups keys by y and then sorts the groups. The model sorts first and then cuts into runs of equal y, which gives the same rows; that equivalence is argued here, not proved.
- LayoutStore.TruncateOptional, LayoutStore.LoadMetadata, LayoutStore.LoadLayout, Sanitizer.ValidateText, Sanitizer.SanitizeText, PropertyFields.ProcessTextField, PropertyFields.LegendFieldUpdate: a string's length counts Unicode scalar values, where the source's `.length` and `.slice` count UTF-16 code units. Text outside the Basic Multilingual Plane (an emoji, say) is therefore accepted and kept longer in the model than in the source, and a cut that would split a surrogate pair cannot be expressed with Dafny strings.
- Keyboard.Commit: uses the corrected notifier LayoutStore.Stamp (see Findings). As written, an edit of a layout without metadata throws before the snapshot is taken; LayoutStore.StampAsWritten models that.
- Keyboard.PasteKeys: the pasted keys are values. In the source a pasted key shares its `keycodes` object with the clipboard entry (the spread at src/stores/keyboard.ts:176-181 is shallow), so a later in-place layer edit (src/stores/layout.ts:322-327 and 339-343) also changes the clipboard and every key pasted from it. That sharing is not modelled.
- Sanitizer.NormalizeRotation, PropertyFields.ProcessNumericField, LayoutStore.ApplyEdit, LayoutStore.RotateKeys, LayoutStore.RepeatRotate, Keyboard.RotateSelectedKeys: numbers are finite reals, so the model always terminates. In the source the rotation loops (src/utils/key-sanitizer.ts:134-135, and again in `rotateKeys` at src/stores/layout.ts:172-173) never end for an infinite angle, or for one so large (about 2^62 or more) that subtracting 360 no longer changes the float. Such an angle reaches them through the rotation field, whose validator accepts any non-NaN number, and through a loaded file: `loadLayout` clamps only x, y, width and height (src/utils/key-sanitizer.ts:144-166) and leaves `rotation` unchecked, so a key with `"rotation": 1e300` hangs the editor on the next rotate.
- Floating-point rounding is not modelled: coordinates are Dafny `real`s, and NaN is a separate `Num` case.

## Findings

| source | as written | input that shows it | evidently intended | confidence | as-written member | corrected member |
|---|---|---|---|---|---|---|
| src/stores/layout.ts:95-100 | the change notifier writes `metadata!.modified`, assuming metadata is always present | load a layout file without `metadata`, then move any key: the notifier dereferences a missing object | create the metadata when missing and stamp `modified` | not executed | LayoutStore.StampAsWritten (counterexample LayoutStore.EditAfterLoadWithoutMetadata) | LayoutStore.Stamp |
