/** The editor's data model (src/types/keyboard.ts): keys, their legend,
    matrix and per-layer keycodes, and the layout that owns them. */
module Model {
  import opened Wrappers

  /** A JavaScript number where the code tests `isNaN`. */
  datatype Num = NaN | R(v: real)

  /** The nine legend positions of a keycap. */
  datatype LegendPos =
    | TopLeft | TopCenter | TopRight
    | CenterLeft | Center | CenterRight
    | BottomLeft | BottomCenter | BottomRight

  datatype Shape = Rectangle | IsoEnter | BigAssEnter | Circle

  datatype LegendFont =
    | NotoSansJP | MPlus1p | MPlus2 | ZenKakuGothicNew
    | MPlusRounded1c | ZenMaruGothic | KosugiMaru
    | NotoSerifJP | ZenOldMincho | ShipporiMincho

  /** A key's switch-matrix position; either coordinate may be unset. */
  datatype Matrix = Matrix(row: Option<int>, col: Option<int>) {
    /** Both coordinates are set, so the key is wired. */
    predicate Complete() {
      row.Some? && col.Some?
    }
  }

  const EmptyMatrix: Matrix := Matrix(None, None)

  type Legend = map<LegendPos, string>

  /** Layer index to firmware keycode; a missing layer means transparent. */
  type Keycodes = map<int, string>

  datatype Key = Key(
    id: string,
    x: real,
    y: real,
    width: real,
    height: real,
    legend: Legend,
    matrix: Matrix,
    keycodes: Option<Keycodes>,
    rotation: Option<real>,
    rotationX: Option<real>,
    rotationY: Option<real>,
    shape: Option<Shape>)

  datatype Metadata = Metadata(
    author: Option<string>,
    description: Option<string>,
    created: Option<string>,
    modified: Option<string>)

  datatype Layout = Layout(
    name: string,
    keys: seq<Key>,
    layerCount: int,
    legendFont: Option<LegendFont>,
    metadata: Option<Metadata>)

  /** The copy made by cloneLayout and copySelectedKeys: every field is kept,
      except that spreading a missing keycode map yields an empty one. */
  function CloneKey(k: Key): (c: Key)
    ensures c.keycodes == Some(k.keycodes.GetOr(map[]))
    ensures c.(keycodes := k.keycodes) == k
  {
    k.(keycodes := Some(k.keycodes.GetOr(map[])))
  }

  function CloneKeys(keys: seq<Key>): (r: seq<Key>)
    ensures |r| == |keys|
    ensures forall i :: 0 <= i < |keys| ==> r[i] == CloneKey(keys[i])
  {
    if keys == [] then [] else [CloneKey(keys[0])] + CloneKeys(keys[1..])
  }

  /** cloneLayout (src/stores/layout.ts): the deep copy kept by the history. */
  function CloneLayout(l: Layout): (c: Layout)
    ensures c.name == l.name && c.layerCount == l.layerCount
    ensures c.legendFont == l.legendFont && c.metadata == l.metadata
    ensures |c.keys| == |l.keys|
    ensures forall i :: 0 <= i < |l.keys| ==> c.keys[i] == CloneKey(l.keys[i])
  {
    l.(keys := CloneKeys(l.keys))
  }

  /** Every key carries a keycode map (possibly empty). */
  predicate HasKeycodeMaps(keys: seq<Key>) {
    forall i :: 0 <= i < |keys| ==> keys[i].keycodes.Some?
  }

  /** A clone changes nothing but missing keycode maps, so cloning twice is
      cloning once, and a layout whose keys all carry a map is its own clone. */
  lemma CloneLayoutIdempotent(l: Layout)
    ensures CloneLayout(CloneLayout(l)) == CloneLayout(l)
    ensures HasKeycodeMaps(CloneLayout(l).keys)
    ensures HasKeycodeMaps(l.keys) ==> CloneLayout(l) == l
  {
    assert CloneLayout(CloneLayout(l)).keys == CloneLayout(l).keys;
  }

  /** No element occurs twice. */
  predicate Distinct<T(==)>(s: seq<T>) {
    forall i, j :: 0 <= i < j < |s| ==> s[i] != s[j]
  }

  /** Some key has this id. */
  predicate HasId(keys: seq<Key>, id: string) {
    exists i :: 0 <= i < |keys| && keys[i].id == id
  }

  /** Key `i` is the first one carrying its id (the one `findIndex` returns). */
  predicate IsFirst(keys: seq<Key>, i: int)
    requires 0 <= i < |keys|
  {
    forall j :: 0 <= j < i ==> keys[j].id != keys[i].id
  }

  /** `keys.findIndex(k => k.id === id)`, with `None` for -1. */
  function FindIndex(keys: seq<Key>, id: string): (r: Option<nat>)
    ensures r.None? <==> !HasId(keys, id)
    ensures r.Some? ==> r.value < |keys| && keys[r.value].id == id && IsFirst(keys, r.value)
  {
    if keys == [] then None
    else if keys[0].id == id then Some(0)
    else
      match FindIndex(keys[1..], id)
      case None =>
        assert forall i :: 0 < i < |keys| ==> keys[i] == keys[1..][i - 1];
        None
      case Some(j) =>
        assert keys[j + 1] == keys[1..][j];
        assert forall i :: 0 < i < j + 1 ==> keys[i] == keys[1..][i - 1];
        Some(j + 1)
  }

  /** getKeyById: the first key with this id. */
  function KeyById(keys: seq<Key>, id: string): (r: Option<Key>)
    ensures r.None? <==> !HasId(keys, id)
    ensures r.Some? ==> r.value.id == id && r.value in keys
    ensures r.Some? ==> exists i :: 0 <= i < |keys| && keys[i] == r.value && IsFirst(keys, i)
  {
    match FindIndex(keys, id)
    case None => None
    case Some(i) => Some(keys[i])
  }

  /** `a` is `b` with some elements removed, order kept. */
  ghost predicate IsSubsequence<T>(a: seq<T>, b: seq<T>)
    decreases |b|
  {
    a == [] || (b != [] && ((a[0] == b[0] && IsSubsequence(a[1..], b[1..])) || IsSubsequence(a, b[1..])))
  }

  /** Key `i` is the first key, in layout order, whose id is listed. */
  predicate FirstListed(keys: seq<Key>, ids: seq<string>, i: int)
    requires 0 <= i < |keys|
  {
    keys[i].id in ids && forall j :: 0 <= j < i ==> keys[j].id !in ids
  }

  /** getKeysByIds: the keys whose id is listed, in layout order. */
  function KeysByIds(keys: seq<Key>, ids: seq<string>): (r: seq<Key>)
    ensures forall k :: k in r <==> k in keys && k.id in ids
    ensures IsSubsequence(r, keys)
    ensures (exists i :: 0 <= i < |keys| && keys[i].id in ids) ==> r != []
  {
    if keys == [] then []
    else
      var rest := KeysByIds(keys[1..], ids);
      assert forall i :: 1 <= i < |keys| ==> keys[i] == keys[1..][i - 1];
      if keys[0].id in ids then
        var r := [keys[0]] + rest;
        assert r[1..] == rest;
        r
      else rest
  }

  /** The first key getKeysByIds returns is the earliest listed key in layout order. */
  lemma {:induction false} KeysByIdsFirst(keys: seq<Key>, ids: seq<string>)
    requires KeysByIds(keys, ids) != []
    ensures exists i :: 0 <= i < |keys| && FirstListed(keys, ids, i) && KeysByIds(keys, ids)[0] == keys[i]
  {
    if keys[0].id !in ids {
      var tail := keys[1..];
      KeysByIdsFirst(tail, ids);
      var i :| 0 <= i < |tail| && FirstListed(tail, ids, i) && KeysByIds(tail, ids)[0] == tail[i];
      assert keys[i + 1] == tail[i];
      assert FirstListed(keys, ids, i + 1) by {
        forall j | 0 <= j < i + 1 ensures keys[j].id !in ids {
          if j > 0 { assert keys[j] == tail[j - 1]; }
        }
      }
    } else {
      assert FirstListed(keys, ids, 0);
    }
  }

  /** Conversely, whichever key is the first listed one heads the result. */
  lemma {:induction false} KeysByIdsHead(keys: seq<Key>, ids: seq<string>, i: int)
    requires 0 <= i < |keys| && FirstListed(keys, ids, i)
    ensures KeysByIds(keys, ids) != [] && KeysByIds(keys, ids)[0] == keys[i]
  {
    if i > 0 {
      var tail := keys[1..];
      assert keys[0].id !in ids;
      assert tail[i - 1] == keys[i];
      assert FirstListed(tail, ids, i - 1) by {
        forall j | 0 <= j < i - 1 ensures tail[j].id !in ids {
          assert tail[j] == keys[j + 1];
        }
      }
      KeysByIdsHead(tail, ids, i - 1);
    }
  }

  /** getKeysByIds distributes over concatenation of key lists. */
  lemma {:induction false} KeysByIdsAppend(a: seq<Key>, b: seq<Key>, ids: seq<string>)
    ensures KeysByIds(a + b, ids) == KeysByIds(a, ids) + KeysByIds(b, ids)
  {
    if a == [] {
      assert a + b == b;
    } else {
      assert (a + b)[1..] == a[1..] + b;
      KeysByIdsAppend(a[1..], b, ids);
    }
  }

  /** Listing every id of a key list returns that list; listing none of them returns nothing. */
  lemma {:induction false} KeysByIdsAllOrNone(keys: seq<Key>, ids: seq<string>)
    ensures (forall i :: 0 <= i < |keys| ==> keys[i].id in ids) ==> KeysByIds(keys, ids) == keys
    ensures (forall i :: 0 <= i < |keys| ==> keys[i].id !in ids) ==> KeysByIds(keys, ids) == []
  {
    if keys != [] {
      assert forall i :: 1 <= i < |keys| ==> keys[i] == keys[1..][i - 1];
      KeysByIdsAllOrNone(keys[1..], ids);
    }
  }
}
