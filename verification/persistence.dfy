/** The persisted layout and the initial runtime states
    (src/types/persistence.ts). */
module Persistence {
  import opened Wrappers
  import opened Json
  import opened Model
  import Editor
  import History
  import AuthStore

  /** What is written to storage: the layout's five fields, nothing else. */
  datatype PersistedLayout = PersistedLayout(
    name: string,
    keys: seq<Key>,
    layerCount: int,
    legendFont: Option<LegendFont>,
    metadata: Option<Metadata>)

  /** extractPersistedLayout: copies the layout's fields over. */
  function ExtractPersistedLayout(l: Layout): (p: PersistedLayout)
    ensures p.name == l.name && p.keys == l.keys && p.layerCount == l.layerCount
    ensures p.legendFont == l.legendFont && p.metadata == l.metadata
  {
    PersistedLayout(l.name, l.keys, l.layerCount, l.legendFont, l.metadata)
  }

  /** Rebuilding the layout a persisted record describes. */
  function ToLayout(p: PersistedLayout): Layout {
    Layout(p.name, p.keys, p.layerCount, p.legendFont, p.metadata)
  }

  /** Persisting loses nothing: the layout comes back as it was, and the
      record is determined by the layout. */
  lemma PersistRoundTrip(l: Layout, p: PersistedLayout)
    ensures ToLayout(ExtractPersistedLayout(l)) == l
    ensures ExtractPersistedLayout(ToLayout(p)) == p
  {
  }

  /** isValidPersistedLayout: a non-null object whose name is a string, whose
      keys are an array and whose layer count is a number. The keys themselves
      are not inspected. */
  predicate IsValidPersistedLayout(data: Json) {
    && data.JObj?
    && "name" in data.fields && data.fields["name"].JStr?
    && "keys" in data.fields && data.fields["keys"].JArr?
    && "layerCount" in data.fields && data.fields["layerCount"].JNum?
  }

  /** Only objects pass the shape check, and the keys' contents never matter:
      swapping in any other array of keys leaves the verdict unchanged. */
  lemma ShapeCheckIgnoresKeys(data: Json, keys: seq<Json>)
    ensures !data.JObj? ==> !IsValidPersistedLayout(data)
    ensures data.JObj? && "keys" in data.fields && data.fields["keys"].JArr? ==>
      (IsValidPersistedLayout(data) <==> IsValidPersistedLayout(JObj(data.fields["keys" := JArr(keys)])))
  {
    if data.JObj? {
      var f2 := data.fields["keys" := JArr(keys)];
      assert "name" in data.fields <==> "name" in f2;
      assert "name" in data.fields ==> data.fields["name"] == f2["name"];
      assert "layerCount" in data.fields ==> data.fields["layerCount"] == f2["layerCount"];
    }
  }

  /** A record that passes the check, built from a name, a key array and a count. */
  lemma ShapeCheckAccepts(name: string, keys: seq<Json>, count: real, extra: map<string, Json>)
    requires "name" !in extra && "keys" !in extra && "layerCount" !in extra
    ensures IsValidPersistedLayout(JObj(extra["name" := JStr(name)]["keys" := JArr(keys)]["layerCount" := JNum(count)]))
  {
  }

  /** createInitialEditorState: matches the editor's start state. */
  function InitialEditorState(): (e: Editor.Editor)
    ensures e.selectedKeyIds == [] && e.copiedKeys == [] && e.currentLayer == 0
    ensures e.displayMode == Editor.MatrixMode && e.keyboardLayout == Editor.Ansi
    ensures !Editor.HasSelection(e)
  {
    Editor.Editor([], Editor.MatrixMode, Editor.Ansi, [], 0)
  }

  /** createInitialHistoryState: no snapshots, cursor before the first. */
  function InitialHistoryState(): (h: History.History)
    ensures h.snapshots == [] && h.index == -1
    ensures History.Valid(h) && !History.CanUndo(h) && !History.CanRedo(h)
  {
    History.History([], -1)
  }

  /** createInitialAuthState: signed out, a new layout, saving locally. */
  function InitialAuthState(): (a: AuthStore.Auth)
    ensures !AuthStore.IsLoggedIn(a) && a.layoutSource == AuthStore.New
    ensures a.layoutGistId.None? && a.layoutGistFileKey.None? && a.saveDestination == AuthStore.ToLocal
  {
    AuthStore.Auth(None, AuthStore.New, None, None, AuthStore.ToLocal)
  }

  /** The three initial states agree with the ones the stores start in. */
  lemma InitialStatesAgree()
    ensures InitialEditorState() == Editor.Initial
    ensures InitialHistoryState() == History.Empty
    ensures InitialAuthState() == AuthStore.Initial
  {
  }
}
