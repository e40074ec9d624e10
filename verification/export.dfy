/** The exporters (src/utils/export.ts): QMK keyboard.json, Vial vial.json
    and the keymap table of QMK keymap.c. Each export is modelled as the
    structured data it serialises; the JSON text, the template files it starts
    from and the C source around the table are not modelled. */
module Export {
  import opened Wrappers
  import opened Model
  import Config

  // ---------------------------------------------------------------------
  // Physical order

  /** `a` may stand before `b` when sorting by y, then x. */
  predicate InOrder(a: Key, b: Key) {
    a.y < b.y || (a.y == b.y && a.x <= b.x)
  }

  /** `k` sorts strictly before `b`. */
  predicate Precedes(k: Key, b: Key) {
    k.y < b.y || (k.y == b.y && k.x < b.x)
  }

  predicate SortedByPosition(s: seq<Key>) {
    forall i, j :: 0 <= i < j < |s| ==> InOrder(s[i], s[j])
  }

  /** Places `k` after every key it does not precede (so equal keys keep
      their order). */
  function Insert(s: seq<Key>, k: Key): (r: seq<Key>)
    ensures multiset(r) == multiset(s) + multiset{k}
    ensures |r| == |s| + 1
  {
    if s == [] then [k]
    else if Precedes(k, s[0]) then [k] + s
    else
      assert s == [s[0]] + s[1..];
      [s[0]] + Insert(s[1..], k)
  }

  /** The tail of a sorted list is sorted. */
  lemma SortedTail(s: seq<Key>)
    requires s != [] && SortedByPosition(s)
    ensures SortedByPosition(s[1..])
  {
    var tail := s[1..];
    forall i, j | 0 <= i < j < |tail| ensures InOrder(tail[i], tail[j]) {
      assert tail[i] == s[i + 1] && tail[j] == s[j + 1];
    }
  }

  /** A key that may stand before every key of a sorted list can be put in front. */
  lemma PrependSorted(x: Key, s: seq<Key>)
    requires SortedByPosition(s)
    requires forall j :: 0 <= j < |s| ==> InOrder(x, s[j])
    ensures SortedByPosition([x] + s)
  {
    var r := [x] + s;
    forall i, j | 0 <= i < j < |r| ensures InOrder(r[i], r[j]) {
      if i == 0 {
        assert r[j] == s[j - 1];
      } else {
        assert r[i] == s[i - 1] && r[j] == s[j - 1];
      }
    }
  }

  /** Inserting into a sorted list keeps it sorted. */
  lemma {:induction false} InsertSorted(s: seq<Key>, k: Key)
    requires SortedByPosition(s)
    ensures SortedByPosition(Insert(s, k))
  {
    if s == [] {
    } else if Precedes(k, s[0]) {
      forall j | 0 <= j < |s| ensures InOrder(k, s[j]) {
        if j > 0 { assert InOrder(s[0], s[j]); }
      }
      PrependSorted(k, s);
    } else {
      var tail := s[1..];
      SortedTail(s);
      InsertSorted(tail, k);
      var rest := Insert(tail, k);
      forall j | 0 <= j < |rest| ensures InOrder(s[0], rest[j]) {
        assert rest[j] in multiset(rest);
        if rest[j] != k {
          assert rest[j] in multiset(tail);
          var m :| 0 <= m < |tail| && tail[m] == rest[j];
          assert s[m + 1] == rest[j];
        }
      }
      PrependSorted(s[0], rest);
    }
  }

  /** The stable sort of the exporters (`Array.prototype.sort` is stable):
      by y, then by x. */
  function SortByPosition(s: seq<Key>): (r: seq<Key>)
    ensures multiset(r) == multiset(s) && |r| == |s|
    ensures SortedByPosition(r)
  {
    if s == [] then []
    else
      var init := s[..|s| - 1];
      assert s == init + [s[|s| - 1]];
      InsertSorted(SortByPosition(init), s[|s| - 1]);
      Insert(SortByPosition(init), s[|s| - 1])
  }

  // ---------------------------------------------------------------------
  // Matrix size

  /** The set row indices, in key order. */
  function RowIndices(keys: seq<Key>): (r: seq<int>)
    ensures forall v :: v in r <==> exists k :: k in keys && k.matrix.row == Some(v)
  {
    if keys == [] then []
    else
      var rest := RowIndices(keys[1..]);
      assert forall k :: k in keys <==> k == keys[0] || k in keys[1..];
      if keys[0].matrix.row.Some? then [keys[0].matrix.row.value] + rest else rest
  }

  /** The set column indices, in key order. */
  function ColIndices(keys: seq<Key>): (r: seq<int>)
    ensures forall v :: v in r <==> exists k :: k in keys && k.matrix.col == Some(v)
  {
    if keys == [] then []
    else
      var rest := ColIndices(keys[1..]);
      assert forall k :: k in keys <==> k == keys[0] || k in keys[1..];
      if keys[0].matrix.col.Some? then [keys[0].matrix.col.value] + rest else rest
  }

  /** `Math.max(...vals, -1)`. */
  function MaxIndex(vals: seq<int>): (m: int)
    ensures m >= -1
    ensures forall v :: v in vals ==> v <= m
    ensures m == -1 || m in vals
  {
    if vals == [] then -1
    else
      var rest := MaxIndex(vals[1..]);
      assert forall v :: v in vals ==> v == vals[0] || v in vals[1..];
      if vals[0] > rest then vals[0] else rest
  }

  /** The two matrix axes, as arguments of `Coord`. */
  const ROWS: bool := true
  const COLS: bool := false

  /** A key's matrix coordinate on one axis: the row, or the column. */
  function Coord(k: Key, rowAxis: bool): Option<int> {
    if rowAxis then k.matrix.row else k.matrix.col
  }

  /** `n` exceeds every index set on the axis. */
  predicate Covers(keys: seq<Key>, rowAxis: bool, n: int) {
    forall k :: k in keys && Coord(k, rowAxis).Some? ==> Coord(k, rowAxis).value < n
  }

  /** Some key sits at index `n - 1` of the axis, so `n` is no larger than needed. */
  predicate Attained(keys: seq<Key>, rowAxis: bool, n: int) {
    exists k :: k in keys && Coord(k, rowAxis) == Some(n - 1)
  }

  /** The pin count of one axis, `max + 1` of its set indices, when some
      index is at least 0: it covers every index and is no larger than needed. */
  function PinCount(keys: seq<Key>, rowAxis: bool): (n: Option<nat>)
    ensures n.Some? <==> exists k :: k in keys && Coord(k, rowAxis).Some? && Coord(k, rowAxis).value >= 0
    ensures n.Some? ==> Covers(keys, rowAxis, n.value) && Attained(keys, rowAxis, n.value)
  {
    var vals := if rowAxis then RowIndices(keys) else ColIndices(keys);
    assert forall v :: v in vals <==> exists k :: k in keys && Coord(k, rowAxis) == Some(v);
    var m := MaxIndex(vals);
    if m >= 0 then
      assert m in vals;
      Some(m + 1)
    else None
  }

  /** The matrix size of one axis as Vial declares it: the pin count, but at
      least 1. */
  function MatrixSize(keys: seq<Key>, rowAxis: bool): (n: int)
    ensures n >= 1
    ensures Covers(keys, rowAxis, n)
    ensures n == 1 || Attained(keys, rowAxis, n)
  {
    var pins := PinCount(keys, rowAxis);
    if pins.Some? && pins.value > 1 then pins.value else 1
  }

  // ---------------------------------------------------------------------
  // QMK keyboard.json

  /** One entry of `layouts.LAYOUT.layout`. */
  datatype QmkKey = QmkKey(x: real, y: real, w: Option<real>, h: Option<real>, matrix: Option<(int, int)>)

  /** convertToQMKLayout: sizes of 1 are left out, and the matrix only
      appears when both coordinates are set. */
  function ConvertToQmkLayout(k: Key): (q: QmkKey)
    ensures q.x == k.x && q.y == k.y
    ensures q.w.None? <==> k.width == 1.0
    ensures q.h.None? <==> k.height == 1.0
    ensures q.matrix.Some? <==> k.matrix.Complete()
  {
    QmkKey(k.x, k.y,
      if k.width != 1.0 then Some(k.width) else None,
      if k.height != 1.0 then Some(k.height) else None,
      if k.matrix.Complete() then Some((k.matrix.row.value, k.matrix.col.value)) else None)
  }

  /** How a QMK reader reads an entry back: a missing size is 1. */
  function QmkGeometry(q: QmkKey): (real, real, real, real) {
    (q.x, q.y, q.w.GetOr(1.0), q.h.GetOr(1.0))
  }

  /** Leaving out the default sizes loses nothing: the entry gives back the
      key's position, size and (when complete) matrix. */
  lemma QmkEntryRoundTrip(k: Key)
    ensures QmkGeometry(ConvertToQmkLayout(k)) == (k.x, k.y, k.width, k.height)
    ensures k.matrix.Complete() ==> ConvertToQmkLayout(k).matrix == Some((k.matrix.row.value, k.matrix.col.value))
  {}

  /** The fields exportToQMK writes into its template; `None` leaves the
      template's own value. */
  datatype QmkExport = QmkExport(
    keyboardName: string,
    manufacturer: Option<string>,
    maintainer: Option<string>,
    layout: seq<QmkKey>,
    rowPins: Option<nat>,
    colPins: Option<nat>,
    dynamicLayerCount: Option<int>)

  const QMK_DEFAULT_NAME: string := "custom_keyboard"

  /** The truthy author of the layout, if any. */
  function Author(l: Layout): Option<string> {
    if l.metadata.Some? && l.metadata.value.author.Some? && l.metadata.value.author.value != "" then l.metadata.value.author
    else None
  }

  /** exportToQMK. */
  function ExportToQmk(l: Layout): (e: QmkExport)
    ensures e.keyboardName == (if l.name != "" then l.name else QMK_DEFAULT_NAME)
    ensures e.manufacturer == Author(l) && e.maintainer == Author(l)
    ensures |e.layout| == |l.keys| && forall i :: 0 <= i < |l.keys| ==> e.layout[i] == ConvertToQmkLayout(l.keys[i])
    ensures e.rowPins.Some? <==> exists k :: k in l.keys && Coord(k, ROWS).Some? && Coord(k, ROWS).value >= 0
    ensures e.rowPins.Some? ==> Covers(l.keys, ROWS, e.rowPins.value) && Attained(l.keys, ROWS, e.rowPins.value)
    ensures e.colPins.Some? <==> exists k :: k in l.keys && Coord(k, COLS).Some? && Coord(k, COLS).value >= 0
    ensures e.colPins.Some? ==> Covers(l.keys, COLS, e.colPins.value) && Attained(l.keys, COLS, e.colPins.value)
    ensures e.dynamicLayerCount.Some? <==> l.layerCount > 1
    ensures e.dynamicLayerCount.Some? ==> e.dynamicLayerCount.value == l.layerCount
  {
    QmkExport(
      if l.name != "" then l.name else QMK_DEFAULT_NAME,
      Author(l), Author(l),
      seq(|l.keys|, i requires 0 <= i < |l.keys| => ConvertToQmkLayout(l.keys[i])),
      PinCount(l.keys, ROWS),
      PinCount(l.keys, COLS),
      if l.layerCount > 1 then Some(l.layerCount) else None)
  }

  // ---------------------------------------------------------------------
  // Vial vial.json

  /** The KLE-style properties written before a key; `None` fields are absent. */
  datatype VialProps = VialProps(
    x: Option<real>, w: Option<real>, h: Option<real>,
    w2: Option<real>, h2: Option<real>, x2: Option<real>)

  const NO_PROPS: VialProps := VialProps(None, None, None, None, None, None)

  /** The fixed properties of an ISO Enter, whatever its geometry. */
  const ISO_ENTER_PROPS: VialProps := VialProps(Some(0.25), Some(1.25), Some(2.0), Some(1.5), Some(1.0), Some(-0.25))

  /** An element of a Vial row: properties, or a key's "row,col" label. */
  datatype VialItem = Props(p: VialProps) | Label(row: int, col: int)

  /** The properties of an ordinary key: the gap from the previous key's right
      edge when positive, and the sizes that are not 1. */
  function GapProps(k: Key, lastX: real): (p: VialProps)
    ensures p.x.Some? <==> k.x - lastX > 0.0
    ensures p.x.Some? ==> p.x.value == k.x - lastX
    ensures p.w.None? <==> k.width == 1.0
    ensures p.w.Some? ==> p.w.value == k.width
    ensures p.h.None? <==> k.height == 1.0
    ensures p.h.Some? ==> p.h.value == k.height
    ensures p.w2.None? && p.h2.None? && p.x2.None?
  {
    VialProps(
      if k.x - lastX > 0.0 then Some(k.x - lastX) else None,
      if k.width != 1.0 then Some(k.width) else None,
      if k.height != 1.0 then Some(k.height) else None,
      None, None, None)
  }

  /** The items for one wired key: its properties when there are any, then
      its label. */
  function KeyItems(k: Key, lastX: real): (r: seq<VialItem>)
    requires k.matrix.Complete()
    ensures |r| == 1 || (|r| == 2 && r[0].Props?)
    ensures r[|r| - 1] == Label(k.matrix.row.value, k.matrix.col.value)
    ensures k.shape == Some(IsoEnter) ==> r == [Props(ISO_ENTER_PROPS), Label(k.matrix.row.value, k.matrix.col.value)]
    ensures k.shape != Some(IsoEnter) ==> (|r| == 2 <==> GapProps(k, lastX) != NO_PROPS)
    ensures k.shape != Some(IsoEnter) && |r| == 2 ==> r[0] == Props(GapProps(k, lastX))
  {
    var lab := Label(k.matrix.row.value, k.matrix.col.value);
    var p := if k.shape == Some(IsoEnter) then ISO_ENTER_PROPS else GapProps(k, lastX);
    if p != NO_PROPS then [Props(p), lab] else [lab]
  }

  /** One sorted row: unwired keys are skipped, and each wired key's gap is
      measured from the right edge of the previous wired key (0 at the
      start). */
  function RowItems(keys: seq<Key>, lastX: real): seq<VialItem> {
    if keys == [] then []
    else if !keys[0].matrix.Complete() then RowItems(keys[1..], lastX)
    else KeyItems(keys[0], lastX) + RowItems(keys[1..], keys[0].x + keys[0].width)
  }

  /** The labels among some items, in order. */
  function Labels(items: seq<VialItem>): seq<(int, int)> {
    if items == [] then []
    else (if items[0].Label? then [(items[0].row, items[0].col)] else []) + Labels(items[1..])
  }

  /** Reference: the matrix positions of the wired keys, in order. */
  function Wired(keys: seq<Key>): seq<(int, int)> {
    if keys == [] then []
    else (if keys[0].matrix.Complete() then [(keys[0].matrix.row.value, keys[0].matrix.col.value)] else []) + Wired(keys[1..])
  }

  lemma {:induction false} LabelsAppend(a: seq<VialItem>, b: seq<VialItem>)
    ensures Labels(a + b) == Labels(a) + Labels(b)
  {
    if a == [] {
      assert a + b == b;
    } else {
      assert (a + b)[0] == a[0];
      assert (a + b)[1..] == a[1..] + b;
      LabelsAppend(a[1..], b);
    }
  }

  /** A row carries exactly one label per wired key, in the row's order, and
      nothing for the others. */
  lemma {:induction false} RowLabelsAreWired(keys: seq<Key>, lastX: real)
    ensures Labels(RowItems(keys, lastX)) == Wired(keys)
  {
    if keys != [] {
      if keys[0].matrix.Complete() {
        var k := keys[0];
        var items := KeyItems(k, lastX);
        RowLabelsAreWired(keys[1..], k.x + k.width);
        LabelsAppend(items, RowItems(keys[1..], k.x + k.width));
        if |items| == 2 {
          assert items[1..][1..] == [];
        } else {
          assert items[1..] == [];
        }
      } else {
        RowLabelsAreWired(keys[1..], lastX);
      }
    }
  }

  /** A row has no items exactly when it has no wired key. */
  lemma RowEmptyIffUnwired(keys: seq<Key>, lastX: real)
    ensures RowItems(keys, lastX) == [] <==> Wired(keys) == []
  {
    RowLabelsAreWired(keys, lastX);
  }

  /** The rows of a sorted key list: maximal runs of keys with the same y. */
  function Runs(s: seq<Key>): (rows: seq<seq<Key>>)
    ensures forall i :: 0 <= i < |rows| ==> rows[i] != [] && forall k :: k in rows[i] ==> k.y == rows[i][0].y
  {
    if s == [] then []
    else
      var rest: seq<seq<Key>> := Runs(s[1..]);
      if rest != [] && rest[0][0].y == s[0].y then
        var rows := [[s[0]] + rest[0]] + rest[1..];
        assert forall i :: 0 < i < |rows| ==> rows[i] == rest[i];
        rows
      else
        [[s[0]]] + rest
  }

  /** Concatenation of rows. */
  function Flatten<T>(rows: seq<seq<T>>): seq<T> {
    if rows == [] then [] else rows[0] + Flatten(rows[1..])
  }

  /** Splitting into runs loses nothing and keeps the order. */
  lemma {:induction false} RunsFlatten(s: seq<Key>)
    ensures Flatten(Runs(s)) == s
  {
    if s != [] {
      RunsFlatten(s[1..]);
      var rest: seq<seq<Key>> := Runs(s[1..]);
      if rest != [] && rest[0][0].y == s[0].y {
        assert ([[s[0]] + rest[0]] + rest[1..])[1..] == rest[1..];
        assert Flatten(rest) == rest[0] + Flatten(rest[1..]);
      } else {
        assert ([[s[0]]] + rest)[1..] == rest;
      }
    }
  }

  /** In a sorted list, rows come in strictly increasing y. */
  lemma {:induction false} RunsIncreasing(s: seq<Key>)
    requires SortedByPosition(s)
    ensures var rows := Runs(s); forall i :: 0 <= i < |rows| - 1 ==> rows[i][0].y < rows[i + 1][0].y
  {
    if s != [] {
      assert SortedByPosition(s[1..]) by {
        forall i, j | 0 <= i < j < |s[1..]| ensures InOrder(s[1..][i], s[1..][j]) {
          assert s[1..][i] == s[i + 1] && s[1..][j] == s[j + 1];
        }
      }
      RunsIncreasing(s[1..]);
      var rest: seq<seq<Key>> := Runs(s[1..]);
      if rest != [] {
        RunsFlatten(s[1..]);
        assert Flatten(rest) == rest[0] + Flatten(rest[1..]);
        assert rest[0][0] == s[1];
        assert InOrder(s[0], s[1]);
      }
    }
  }

  /** convertToVialLayout: keys grouped into rows by y, rows in increasing y,
      each row in increasing x, unwired keys skipped and empty rows dropped.
      Sorting the whole list by (y, x) and cutting it at each change of y
      groups the keys exactly as building a row per y and sorting each row. */
  function ConvertToVialLayout(keys: seq<Key>): (rows: seq<seq<VialItem>>)
    ensures forall r :: r in rows ==> r != []
  {
    var groups := Runs(SortByPosition(keys));
    Nonempty(seq(|groups|, i requires 0 <= i < |groups| => RowItems(groups[i], 0.0)))
  }

  /** The rows that are not empty, in order. */
  function Nonempty(rows: seq<seq<VialItem>>): (r: seq<seq<VialItem>>)
    ensures forall x :: x in r <==> x in rows && x != []
    ensures Flatten(r) == Flatten(rows)
  {
    if rows == [] then []
    else
      var rest := Nonempty(rows[1..]);
      assert forall x :: x in rows <==> x == rows[0] || x in rows[1..];
      if rows[0] == [] then rest
      else
        var r := [rows[0]] + rest;
        assert r[1..] == rest;
        r
  }

  lemma {:induction false} LabelsFlatten(rows: seq<seq<VialItem>>, groups: seq<seq<Key>>)
    requires |rows| == |groups|
    requires forall i :: 0 <= i < |rows| ==> rows[i] == RowItems(groups[i], 0.0)
    ensures Labels(Flatten(rows)) == Wired(Flatten(groups))
  {
    if rows != [] {
      LabelsFlatten(rows[1..], groups[1..]);
      LabelsAppend(rows[0], Flatten(rows[1..]));
      RowLabelsAreWired(groups[0], 0.0);
      WiredAppend(groups[0], Flatten(groups[1..]));
    }
  }

  lemma {:induction false} WiredAppend(a: seq<Key>, b: seq<Key>)
    ensures Wired(a + b) == Wired(a) + Wired(b)
  {
    if a == [] {
      assert a + b == b;
    } else {
      assert (a + b)[0] == a[0];
      assert (a + b)[1..] == a[1..] + b;
      WiredAppend(a[1..], b);
    }
  }

  /** Every wired key gets exactly one label in the Vial layout, in (y, x)
      order, and no other label appears. */
  lemma VialLabelsAreWired(keys: seq<Key>)
    ensures Labels(Flatten(ConvertToVialLayout(keys))) == Wired(SortByPosition(keys))
  {
    var sorted := SortByPosition(keys);
    var groups := Runs(sorted);
    var rows := seq(|groups|, i requires 0 <= i < |groups| => RowItems(groups[i], 0.0));
    LabelsFlatten(rows, groups);
    RunsFlatten(sorted);
  }

  /** The wired positions of a reordering are a reordering of the wired
      positions. */
  lemma {:induction false} WiredInsert(s: seq<Key>, k: Key)
    ensures multiset(Wired(Insert(s, k))) == multiset(Wired(s)) + multiset(Wired([k]))
  {
    if s == [] {
      assert Insert(s, k) == [k] && Wired(s) == [];
    } else if Precedes(k, s[0]) {
      assert Insert(s, k) == [k] + s;
      WiredAppend([k], s);
    } else {
      var head, tail := [s[0]], s[1..];
      assert s == head + tail;
      assert Insert(s, k) == head + Insert(tail, k);
      WiredInsert(tail, k);
      WiredAppend(head, Insert(tail, k));
      WiredAppend(head, tail);
      calc {
        multiset(Wired(Insert(s, k)));
        multiset(Wired(head) + Wired(Insert(tail, k)));
        multiset(Wired(head)) + multiset(Wired(Insert(tail, k)));
        multiset(Wired(head)) + multiset(Wired(tail)) + multiset(Wired([k]));
        multiset(Wired(head) + Wired(tail)) + multiset(Wired([k]));
        multiset(Wired(s)) + multiset(Wired([k]));
      }
    }
  }

  lemma {:induction false} WiredSort(s: seq<Key>)
    ensures multiset(Wired(SortByPosition(s))) == multiset(Wired(s))
  {
    if s != [] {
      var init := s[..|s| - 1];
      assert s == init + [s[|s| - 1]];
      WiredSort(init);
      WiredInsert(SortByPosition(init), s[|s| - 1]);
      WiredAppend(init, [s[|s| - 1]]);
    }
  }

  /** The fields exportToVial writes into its template. */
  datatype VialExport = VialExport(name: string, rows: int, cols: int, keymap: seq<seq<VialItem>>)

  const VIAL_DEFAULT_NAME: string := "Custom Keyboard"

  /** exportToVial: the matrix is at least 1×1 and covers every set index. */
  function ExportToVial(l: Layout): (e: VialExport)
    ensures e.name == (if l.name != "" then l.name else VIAL_DEFAULT_NAME)
    ensures e.rows >= 1 && e.cols >= 1
    ensures Covers(l.keys, ROWS, e.rows) && (e.rows == 1 || Attained(l.keys, ROWS, e.rows))
    ensures Covers(l.keys, COLS, e.cols) && (e.cols == 1 || Attained(l.keys, COLS, e.cols))
    ensures e.keymap == ConvertToVialLayout(l.keys)
  {
    var rows, cols := MatrixSize(l.keys, ROWS), MatrixSize(l.keys, COLS);
    VialExport(if l.name != "" then l.name else VIAL_DEFAULT_NAME, rows, cols, ConvertToVialLayout(l.keys))
  }

  // ---------------------------------------------------------------------
  // QMK keymap.c

  const KEYS_PER_LINE: nat := 12
  const NO_MATRIX_ERROR: string := "マトリクス情報が設定されているキーがありません"

  /** One line of a LAYOUT(...) call: its keycodes, and whether a comma
      follows them. */
  datatype Line = Line(codes: seq<string>, comma: bool)

  /** The keycode a key contributes on a layer; unset or empty is transparent. */
  function CodeAt(k: Key, layer: int): (c: string)
    ensures c != ""
    ensures c != Config.TRANSPARENT ==> k.keycodes.Some? && layer in k.keycodes.value && k.keycodes.value[layer] == c
  {
    if k.keycodes.Some? && layer in k.keycodes.value && k.keycodes.value[layer] != "" then k.keycodes.value[layer]
    else Config.TRANSPARENT
  }

  /** The wired keys, in order. */
  function WiredKeys(keys: seq<Key>): (r: seq<Key>)
    ensures forall k :: k in r <==> k in keys && k.matrix.Complete()
    ensures |r| == |Wired(keys)|
  {
    if keys == [] then []
    else
      var rest := WiredKeys(keys[1..]);
      assert forall k :: k in keys <==> k == keys[0] || k in keys[1..];
      if keys[0].matrix.Complete() then [keys[0]] + rest else rest
  }

  /** The keycodes of some lines, in order. */
  function LineCodes(lines: seq<Line>): seq<string> {
    Flatten(seq(|lines|, i requires 0 <= i < |lines| => lines[i].codes))
  }

  /** The line layout of a keymap layer: every line holds one to twelve
      codes, all but the last hold exactly twelve, and every line but the
      last ends with a comma. */
  predicate Shaped(lines: seq<Line>) {
    forall i :: 0 <= i < |lines| ==>
      && 1 <= |lines[i].codes| <= KEYS_PER_LINE
      && (lines[i].comma <==> i < |lines| - 1)
      && (i < |lines| - 1 ==> |lines[i].codes| == KEYS_PER_LINE)
  }

  /** The lines of one layer: twelve keycodes to a line, a comma after every
      line but the last. */
  function Chunk(codes: seq<string>): (lines: seq<Line>)
    ensures LineCodes(lines) == codes
    ensures forall i :: 0 <= i < |lines| ==> 1 <= |lines[i].codes| <= KEYS_PER_LINE
    ensures forall i :: 0 <= i < |lines| ==> (lines[i].comma <==> i < |lines| - 1)
    ensures forall i :: 0 <= i < |lines| - 1 ==> |lines[i].codes| == KEYS_PER_LINE
    ensures Shaped(lines)
    decreases |codes|
  {
    if codes == [] then []
    else if |codes| <= KEYS_PER_LINE then
      var lines := [Line(codes, false)];
      assert seq(|lines|, i requires 0 <= i < |lines| => lines[i].codes) == [codes];
      assert [codes][1..] == [];
      assert Flatten([codes]) == codes + Flatten([]);
      lines
    else
      var rest := Chunk(codes[KEYS_PER_LINE..]);
      var lines := [Line(codes[..KEYS_PER_LINE], true)] + rest;
      assert seq(|lines|, i requires 0 <= i < |lines| => lines[i].codes)
        == [codes[..KEYS_PER_LINE]] + seq(|rest|, i requires 0 <= i < |rest| => rest[i].codes);
      assert codes == codes[..KEYS_PER_LINE] + codes[KEYS_PER_LINE..];
      lines
  }

  /** exportToQMKKeymapC as data: without a wired key it fails; otherwise
      one table per layer, listing every wired key's keycode on that layer in
      (y, x) order, chunked into lines. */
  function ExportToQmkKeymap(l: Layout): (r: Result<seq<seq<Line>>, string>)
    ensures r.Failure? <==> forall k :: k in l.keys ==> !k.matrix.Complete()
    ensures r.Failure? ==> r.error == NO_MATRIX_ERROR
    ensures r.Success? ==> |r.value| == (if l.layerCount > 0 then l.layerCount else 0)
    ensures r.Success? ==> forall layer :: 0 <= layer < |r.value| ==>
      LineCodes(r.value[layer]) == LayerCodes(SortByPosition(WiredKeys(l.keys)), layer)
    ensures r.Success? ==> forall layer :: 0 <= layer < |r.value| ==> Shaped(r.value[layer])
  {
    var wired := WiredKeys(l.keys);
    if wired == [] then Failure(NO_MATRIX_ERROR)
    else
      assert wired[0] in wired;
      var sorted := SortByPosition(wired);
      var n := if l.layerCount > 0 then l.layerCount else 0;
      Success(seq(n, layer requires 0 <= layer < n => Chunk(LayerCodes(sorted, layer))))
  }

  /** One keycode per key on a layer. */
  function LayerCodes(keys: seq<Key>, layer: int): (codes: seq<string>)
    ensures |codes| == |keys| && forall i :: 0 <= i < |keys| ==> codes[i] == CodeAt(keys[i], layer)
  {
    seq(|keys|, i requires 0 <= i < |keys| => CodeAt(keys[i], layer))
  }

  /** Every layer lists one keycode per wired key, and the keys are taken
      in (y, x) order: a reordering of the wired keys that is sorted. */
  lemma KeymapLayerContents(l: Layout, layer: nat)
    requires ExportToQmkKeymap(l).Success? && layer < |ExportToQmkKeymap(l).value|
    ensures |LineCodes(ExportToQmkKeymap(l).value[layer])| == |Wired(l.keys)|
    ensures SortedByPosition(SortByPosition(WiredKeys(l.keys)))
    ensures multiset(SortByPosition(WiredKeys(l.keys))) == multiset(WiredKeys(l.keys))
  {}
}
