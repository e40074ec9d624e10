/** The Keyboard Layout Editor importer (src/utils/kle-import.ts): turns
    KLE raw data, already parsed from JSON, into a layout. Rows are scanned
    with a cursor: property objects move it and set the size of the next
    key, caption strings create keys. */
module KleImport {
  import opened Wrappers
  import opened Json
  import opened Model
  import Text

  // ---------------------------------------------------------------------
  // Labels

  /** Where KLE legend slot `i` goes (alignment 4): the front slots 4-6 have
      no place on a keycap here, and there are only twelve slots. */
  const POSITION_MAP: seq<Option<LegendPos>> := [
    Some(TopLeft), Some(BottomLeft), Some(TopRight), Some(BottomRight),
    None, None, None,
    Some(CenterLeft), Some(Center), Some(CenterRight),
    Some(TopCenter), Some(BottomCenter)]

  /** The KLE slot each position takes its text from (the inverse of POSITION_MAP). */
  function KleSlot(p: LegendPos): (i: nat)
    ensures i < |POSITION_MAP| && POSITION_MAP[i] == Some(p)
    ensures i != 4 && i != 5 && i != 6
  {
    match p
    case TopLeft => 0
    case BottomLeft => 1
    case TopRight => 2
    case BottomRight => 3
    case CenterLeft => 7
    case Center => 8
    case CenterRight => 9
    case TopCenter => 10
    case BottomCenter => 11
  }

  /** Each slot maps to at most one position, the one that reads from it. */
  lemma PositionMapInjective(i: nat, p: LegendPos)
    requires i < |POSITION_MAP| && POSITION_MAP[i] == Some(p)
    ensures KleSlot(p) == i
  {}

  /** Slot `i` holds text worth keeping: non-empty and not just whitespace. */
  predicate Kept(parts: seq<string>, i: nat)
    requires i < |parts|
  {
    parts[i] != "" && Text.Trim(parts[i]) != ""
  }

  /** The legend built from the first `n` parts, one part at a time. */
  function LabelPrefix(parts: seq<string>, n: nat): (legend: Legend)
    requires n <= |parts|
    ensures forall p :: p in legend <==> KleSlot(p) < n && Kept(parts, KleSlot(p))
    ensures forall p :: p in legend ==> legend[p] == parts[KleSlot(p)]
  {
    if n == 0 then map[]
    else
      var legend := LabelPrefix(parts, n - 1);
      var i := n - 1;
      if Kept(parts, i) && i < |POSITION_MAP| && POSITION_MAP[i].Some? then
        var p := POSITION_MAP[i].value;
        PositionMapInjective(i, p);
        legend[p := parts[i]]
      else
        assert forall p :: KleSlot(p) != i || !Kept(parts, i) by {
          forall p | KleSlot(p) == i ensures !Kept(parts, i) {
            assert i < |POSITION_MAP| && POSITION_MAP[i].Some?;
          }
        }
        legend
  }

  /** The legend a caption's lines give: each mapped slot whose line is not
      blank supplies the text at its position. */
  function LegendOf(parts: seq<string>): (legend: Legend)
    ensures forall p :: p in legend <==> KleSlot(p) < |parts| && !Text.IsBlank(parts[KleSlot(p)])
    ensures forall p :: p in legend ==> legend[p] == parts[KleSlot(p)]
  {
    forall i | 0 <= i < |parts| ensures Kept(parts, i) <==> !Text.IsBlank(parts[i]) {
      Text.TrimEmptyIffBlank(parts[i]);
    }
    LabelPrefix(parts, |parts|)
  }

  /** parseKLELabel: the caption split into lines, placed by the slot map;
      blank lines, the front slots and lines past the twelfth are dropped. */
  function ParseKleLabel(caption: string): (legend: Legend)
    ensures forall p :: p in legend ==> '\n' !in legend[p] && !Text.IsBlank(legend[p])
  {
    LegendOf(Text.Split(caption, '\n'))
  }

  /** Read back slot by slot: the caption whose lines are `parts` puts each
      non-blank mapped line at its position, and nothing else. */
  lemma ParseJoinedLabel(parts: seq<string>)
    requires |parts| >= 1 && forall i :: 0 <= i < |parts| ==> '\n' !in parts[i]
    ensures var legend := ParseKleLabel(Text.Join(parts, '\n'));
      && (forall p :: p in legend <==> KleSlot(p) < |parts| && !Text.IsBlank(parts[KleSlot(p)]))
      && (forall p :: p in legend ==> legend[p] == parts[KleSlot(p)])
  {
    Text.SplitJoin(parts, '\n');
  }

  /** Only the nine mapped slots matter: two captions whose lines agree there
      give the same legend, whatever their front slots and extra lines say. */
  lemma LegendIgnoresUnmappedSlots(pa: seq<string>, pb: seq<string>)
    requires forall p :: KleSlot(p) < |pa| <==> KleSlot(p) < |pb|
    requires forall p :: KleSlot(p) < |pa| ==> pa[KleSlot(p)] == pb[KleSlot(p)]
    ensures LegendOf(pa) == LegendOf(pb)
  {
    var la, lb := LegendOf(pa), LegendOf(pb);
    forall p ensures (p in la <==> p in lb) && (p in la ==> la[p] == lb[p]) {
      SlotAgrees(pa, pb, p);
    }
  }

  lemma SlotAgrees(pa: seq<string>, pb: seq<string>, p: LegendPos)
    requires KleSlot(p) < |pa| <==> KleSlot(p) < |pb|
    requires KleSlot(p) < |pa| ==> pa[KleSlot(p)] == pb[KleSlot(p)]
    ensures p in LegendOf(pa) <==> p in LegendOf(pb)
    ensures p in LegendOf(pa) ==> LegendOf(pa)[p] == LegendOf(pb)[p]
  {
  }

  // ---------------------------------------------------------------------
  // Rows

  /** The converter's cursor: position, the size the next key will get,
      the next id number, and the keys made so far. */
  datatype Cursor = Cursor(x: real, y: real, w: real, h: real, counter: nat, keys: seq<Key>)

  /** `typeof obj[name] === 'number' ? obj[name] : 0`. */
  function Delta(fields: map<string, Json>, name: string): real {
    NumberField(fields, name).GetOr(0.0)
  }

  /** The key a caption string creates at the cursor. */
  function MakeKey(c: Cursor, caption: string): Key {
    Key(Text.NatToString(c.counter), c.x, c.y, c.w, c.h, ParseKleLabel(caption), EmptyMatrix, None, None, None, None, None)
  }

  /** One element of a row: an object moves the cursor and sets the next
      key's size, a string makes a key and advances past it, anything else
      is ignored. */
  function Step(c: Cursor, e: Json): Cursor {
    match e
    case JObj(f) =>
      c.(x := c.x + Delta(f, "x"), y := c.y + Delta(f, "y"),
         w := NumberField(f, "w").GetOr(c.w), h := NumberField(f, "h").GetOr(c.h))
    case JStr(s) =>
      c.(keys := c.keys + [MakeKey(c, s)], counter := c.counter + 1, x := c.x + c.w, w := 1.0, h := 1.0)
    case _ => c
  }

  /** The cursor after the elements of a row, from `start`. */
  function Scan(elems: seq<Json>, start: Cursor): (c: Cursor)
    ensures |c.keys| >= |start.keys|
  {
    if elems == [] then start else Step(Scan(elems[..|elems| - 1], start), elems[|elems| - 1])
  }

  // Reference definitions of what the scan accumulates.

  /** Number of caption strings. */
  function Labels(elems: seq<Json>): nat {
    if elems == [] then 0 else Labels(elems[..|elems| - 1]) + (if elems[|elems| - 1].JStr? then 1 else 0)
  }

  /** Sum of the numeric `name` deltas of the property objects. */
  function DeltaSum(elems: seq<Json>, name: string): real {
    if elems == [] then 0.0
    else
      var e := elems[|elems| - 1];
      DeltaSum(elems[..|elems| - 1], name) + (if e.JObj? then Delta(e.fields, name) else 0.0)
  }

  /** The size the next key gets: the latest `name` ("w" or "h") set since
      the last caption, else 1. */
  function PendingSize(elems: seq<Json>, name: string): real {
    if elems == [] then 1.0
    else
      var e := elems[|elems| - 1];
      if e.JStr? then 1.0
      else if e.JObj? && NumberField(e.fields, name).Some? then NumberField(e.fields, name).value
      else PendingSize(elems[..|elems| - 1], name)
  }

  /** Total width of a run of keys. */
  function SumWidths(keys: seq<Key>): real {
    if keys == [] then 0.0 else SumWidths(keys[..|keys| - 1]) + keys[|keys| - 1].width
  }

  /** A row starts at x = 0 with the default 1u size. */
  predicate RowStart(c: Cursor) {
    c.x == 0.0 && c.w == 1.0 && c.h == 1.0
  }

  /** One key per caption, appended after the ones already made and
      numbered consecutively. */
  lemma {:induction false} ScanKeys(elems: seq<Json>, start: Cursor)
    ensures var c := Scan(elems, start);
      && |c.keys| == |start.keys| + Labels(elems)
      && c.keys[..|start.keys|] == start.keys
      && c.counter == start.counter + Labels(elems)
  {
    if elems != [] {
      var init := elems[..|elems| - 1];
      ScanKeys(init, start);
      var c0 := Scan(init, start);
      var e := elems[|elems| - 1];
      if e.JStr? {
        assert Scan(elems, start).keys[..|start.keys|] == c0.keys[..|start.keys|];
      }
    }
  }

  /** y moves only by the y-deltas of the property objects. */
  lemma {:induction false} ScanY(elems: seq<Json>, start: Cursor)
    ensures Scan(elems, start).y == start.y + DeltaSum(elems, "y")
  {
    if elems != [] {
      ScanY(elems[..|elems| - 1], start);
    }
  }

  /** From the start of a row, the pending size is the latest one set since
      the last caption, else 1. */
  lemma {:induction false} ScanSize(elems: seq<Json>, start: Cursor)
    requires RowStart(start)
    ensures Scan(elems, start).w == PendingSize(elems, "w")
    ensures Scan(elems, start).h == PendingSize(elems, "h")
  {
    if elems != [] {
      ScanSize(elems[..|elems| - 1], start);
    }
  }

  /** From the start of a row, x is the sum of the x-deltas plus the widths
      of the keys the row has made so far. */
  lemma {:induction false} ScanX(elems: seq<Json>, start: Cursor)
    requires RowStart(start)
    ensures Scan(elems, start).x == DeltaSum(elems, "x") + SumWidths(Scan(elems, start).keys[|start.keys|..])
  {
    ScanKeys(elems, start);
    if elems != [] {
      var init := elems[..|elems| - 1];
      ScanX(init, start);
      ScanKeys(init, start);
      var c0 := Scan(init, start);
      var e := elems[|elems| - 1];
      var c := Step(c0, e);
      assert Scan(elems, start) == c;
      if e.JStr? {
        StepWidths(c0, e.s, |start.keys|);
        assert DeltaSum(elems, "x") == DeltaSum(init, "x");
        assert c.x == c0.x + c0.w;
      } else {
        assert c.keys == c0.keys;
        assert c.x == c0.x + (if e.JObj? then Delta(e.fields, "x") else 0.0);
      }
    }
  }

  /** The key a caption makes after the row prefix `before`: at the cursor
      with the pending size, an empty matrix and no keycodes, with the next
      id and the caption's legend. */
  predicate CaptionKey(k: Key, before: seq<Json>, caption: string, start: Cursor) {
    && k.id == Text.NatToString(start.counter + Labels(before))
    && k.x == DeltaSum(before, "x") + SumWidths(Scan(before, start).keys[|start.keys|..])
    && k.y == start.y + DeltaSum(before, "y")
    && k.width == PendingSize(before, "w") && k.height == PendingSize(before, "h")
    && k.matrix == EmptyMatrix && k.keycodes.None?
    && k.legend == ParseKleLabel(caption)
  }

  /** A caption adds its key's width, the pending one, to the widths of the
      keys made since key `n`. */
  lemma StepWidths(c0: Cursor, caption: string, n: nat)
    requires n <= |c0.keys|
    ensures SumWidths(Step(c0, JStr(caption)).keys[n..]) == SumWidths(c0.keys[n..]) + c0.w
  {
    var added := c0.keys[n..];
    var k := MakeKey(c0, caption);
    assert Step(c0, JStr(caption)).keys[n..] == added + [k];
    assert (added + [k])[..|added|] == added;
  }

  /** A caption after a row prefix appends exactly one key, the one
      `CaptionKey` describes. */
  lemma LabelMakesKey(before: seq<Json>, caption: string, start: Cursor)
    requires RowStart(start)
    ensures var c0 := Scan(before, start); var c := Scan(before + [JStr(caption)], start);
      && |c.keys| == |c0.keys| + 1
      && c.keys[..|c0.keys|] == c0.keys
      && CaptionKey(c.keys[|c0.keys|], before, caption, start)
  {
    var c0 := Scan(before, start);
    var elems := before + [JStr(caption)];
    assert elems[..|elems| - 1] == before && elems[|elems| - 1] == JStr(caption);
    var c := Scan(elems, start);
    var k := MakeKey(c0, caption);
    assert c.keys == c0.keys + [k];
    assert c.keys[..|c0.keys|] == c0.keys && c.keys[|c0.keys|] == k;
    MadeKey(before, caption, start);
  }

  /** The key made from the cursor after a row prefix is the one `CaptionKey`
      describes. */
  lemma MadeKey(before: seq<Json>, caption: string, start: Cursor)
    requires RowStart(start)
    ensures CaptionKey(MakeKey(Scan(before, start), caption), before, caption, start)
  {
    var c0 := Scan(before, start);
    ScanCounter(before, start);
    ScanX(before, start);
    ScanY(before, start);
    ScanSize(before, start);
    KeyAtCursor(c0, caption, start.counter + Labels(before));
  }

  /** The counter has advanced once per caption. */
  lemma ScanCounter(elems: seq<Json>, start: Cursor)
    ensures Scan(elems, start).counter == start.counter + Labels(elems)
  {
    ScanKeys(elems, start);
  }

  /** A made key takes its id from the counter and its place and size from
      the cursor. */
  lemma KeyAtCursor(c: Cursor, caption: string, n: nat)
    requires c.counter == n
    ensures var k := MakeKey(c, caption);
      && k.id == Text.NatToString(n)
      && k.x == c.x && k.y == c.y && k.width == c.w && k.height == c.h
      && k.matrix == EmptyMatrix && k.keycodes.None? && k.legend == ParseKleLabel(caption)
  {
  }

  /** The cursor after a list of rows: a row that is an array is scanned from
      x = 0 with the default size and then moves y down by one; anything else
      is skipped. */
  function ScanRows(rows: seq<Json>, start: Cursor): Cursor {
    if rows == [] then start
    else
      var c := ScanRows(rows[..|rows| - 1], start);
      var row := rows[|rows| - 1];
      if row.JArr? then
        var after := Scan(row.items, c.(x := 0.0, w := 1.0, h := 1.0));
        after.(y := after.y + 1.0)
      else c
  }

  /** Number of rows that are arrays. */
  function ArrayRows(rows: seq<Json>): nat {
    if rows == [] then 0 else ArrayRows(rows[..|rows| - 1]) + (if rows[|rows| - 1].JArr? then 1 else 0)
  }

  /** Labels in all the array rows. */
  function RowLabels(rows: seq<Json>): nat {
    if rows == [] then 0
    else RowLabels(rows[..|rows| - 1]) + (if rows[|rows| - 1].JArr? then Labels(rows[|rows| - 1].items) else 0)
  }

  /** y-deltas in all the array rows. */
  function RowDeltaY(rows: seq<Json>): real {
    if rows == [] then 0.0
    else RowDeltaY(rows[..|rows| - 1]) + (if rows[|rows| - 1].JArr? then DeltaSum(rows[|rows| - 1].items, "y") else 0.0)
  }

  /** Across rows: one key per caption string of an array row, numbered
      consecutively; and the row cursor's y is the number of array rows so far
      plus every y-delta seen in them. */
  lemma {:induction false} ScanRowsFacts(rows: seq<Json>, start: Cursor)
    ensures var c := ScanRows(rows, start);
      && |c.keys| == |start.keys| + RowLabels(rows)
      && c.keys[..|start.keys|] == start.keys
      && c.counter == start.counter + RowLabels(rows)
      && c.y == start.y + ArrayRows(rows) as real + RowDeltaY(rows)
  {
    if rows != [] {
      var init := rows[..|rows| - 1];
      ScanRowsFacts(init, start);
      var c := ScanRows(init, start);
      var row := rows[|rows| - 1];
      if row.JArr? {
        var rs := c.(x := 0.0, w := 1.0, h := 1.0);
        ScanKeys(row.items, rs);
        ScanY(row.items, rs);
        var after := Scan(row.items, rs);
        assert after.keys[..|start.keys|] == after.keys[..|c.keys|][..|start.keys|];
      }
    }
  }

  /** Rows that are not arrays add nothing. */
  lemma SkippedRow(rows: seq<Json>, row: Json, start: Cursor)
    requires !row.JArr?
    ensures ScanRows(rows + [row], start) == ScanRows(rows, start)
  {
    assert (rows + [row])[..|rows|] == rows;
  }

  // ---------------------------------------------------------------------
  // The conversion

  const IMPORTED_NAME: string := "Imported from KLE"

  /** The first element is a metadata object rather than a row. */
  predicate HasMetadata(data: seq<Json>) {
    |data| > 0 && data[0].JObj?
  }

  /** convertKLEToKLS with the id counter's start and the creation time as
      inputs: name, author and description come from a leading metadata
      object when it has them as non-empty strings; every row after it is
      scanned; the result has one layer. */
  function ConvertKleToKls(data: seq<Json>, baseTime: nat, now: string): (l: Layout)
    ensures l.layerCount == 1 && l.legendFont.None?
    ensures var meta := if HasMetadata(data) then data[0].fields else map[];
      && l.name == NonEmptyStringField(meta, "name").GetOr(IMPORTED_NAME)
      && l.metadata == Some(Metadata(NonEmptyStringField(meta, "author"), NonEmptyStringField(meta, "notes"), Some(now), Some(now)))
    ensures var rows := if HasMetadata(data) then data[1..] else data;
      l.keys == ScanRows(rows, Cursor(0.0, 0.0, 1.0, 1.0, baseTime, [])).keys
  {
    var meta := if HasMetadata(data) then data[0].fields else map[];
    var rows := if HasMetadata(data) then data[1..] else data;
    var c := ScanRows(rows, Cursor(0.0, 0.0, 1.0, 1.0, baseTime, []));
    var metadata := Metadata(NonEmptyStringField(meta, "author"), NonEmptyStringField(meta, "notes"), Some(now), Some(now));
    Layout(NonEmptyStringField(meta, "name").GetOr(IMPORTED_NAME), c.keys, 1, None, Some(metadata))
  }

  /** The import's key count: one per caption string in an array row, none for
      the metadata object, and every key has an empty matrix. */
  lemma ImportedKeys(data: seq<Json>, baseTime: nat, now: string)
    ensures var rows := if HasMetadata(data) then data[1..] else data;
      |ConvertKleToKls(data, baseTime, now).keys| == RowLabels(rows)
  {
    var rows := if HasMetadata(data) then data[1..] else data;
    ScanRowsFacts(rows, Cursor(0.0, 0.0, 1.0, 1.0, baseTime, []));
  }

  /** No key the importer makes is wired yet: empty matrix, no keycodes. */
  predicate Unwired(keys: seq<Key>) {
    forall k :: k in keys ==> k.matrix == EmptyMatrix && k.keycodes.None?
  }

  lemma {:induction false} ScanUnwired(elems: seq<Json>, start: Cursor)
    requires Unwired(start.keys)
    ensures Unwired(Scan(elems, start).keys)
  {
    if elems != [] {
      ScanUnwired(elems[..|elems| - 1], start);
    }
  }

  lemma {:induction false} ScanRowsUnwired(rows: seq<Json>, start: Cursor)
    requires Unwired(start.keys)
    ensures Unwired(ScanRows(rows, start).keys)
  {
    if rows != [] {
      var c := ScanRows(rows[..|rows| - 1], start);
      ScanRowsUnwired(rows[..|rows| - 1], start);
      if rows[|rows| - 1].JArr? {
        ScanUnwired(rows[|rows| - 1].items, c.(x := 0.0, w := 1.0, h := 1.0));
      }
    }
  }

  /** Every imported key has an empty matrix and no keycodes. */
  lemma ImportedKeysUnwired(data: seq<Json>, baseTime: nat, now: string)
    ensures Unwired(ConvertKleToKls(data, baseTime, now).keys)
  {
    var rows := if HasMetadata(data) then data[1..] else data;
    ScanRowsUnwired(rows, Cursor(0.0, 0.0, 1.0, 1.0, baseTime, []));
  }

  /** The array check of parseKLEJson: raw data that is not an array is
      rejected with the importer's message; an array is converted. */
  function ParseKleData(data: Json, baseTime: nat, now: string): (r: Result<Layout, string>)
    ensures !data.JArr? ==> r == Failure("KLE data must be an array")
    ensures data.JArr? ==> r == Success(ConvertKleToKls(data.items, baseTime, now))
  {
    if !data.JArr? then Failure("KLE data must be an array")
    else Success(ConvertKleToKls(data.items, baseTime, now))
  }
}
