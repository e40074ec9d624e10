/** The layout engine (src/stores/layout.ts): every mutation of the live
    layout. Each operation returns the new layout together with whether it
    fired the change notification; the notification's timestamping is `Stamp`
    and the snapshot it triggers lives in the keyboard facade. */
module LayoutStore {
  import opened Wrappers
  import opened Config
  import opened Model
  import Sanitizer

  /** A new layout and whether the operation notified its listener. */
  datatype Change = Change(layout: Layout, notified: bool)

  // ---------------------------------------------------------------------
  // notifyChange

  const NoMetadata: Metadata := Metadata(None, None, None, None)

  /** notifyChange as written: `metadata!.modified = now` dereferences the
      metadata object, so a layout without one throws (`None`) instead of
      being stamped. */
  function StampAsWritten(l: Layout, now: string): (r: Option<Layout>)
    ensures r.None? <==> l.metadata.None?
    ensures r.Some? ==> r.value.metadata == Some(l.metadata.value.(modified := Some(now)))
  {
    match l.metadata
    case None => None
    case Some(m) => Some(l.(metadata := Some(m.(modified := Some(now)))))
  }

  /** notifyChange as intended: stamps `modified`, creating the metadata
      record when the layout has none (as updateMetadata and setLegendFont
      do before they notify). */
  function Stamp(l: Layout, now: string): (r: Layout)
    ensures r.metadata.Some? && r.metadata.value.modified == Some(now)
    ensures r.(metadata := l.metadata) == l
    ensures l.metadata.Some? ==> r.metadata.value.(modified := l.metadata.value.modified) == l.metadata.value
    ensures l.metadata.None? ==> r.metadata.value.(modified := None) == NoMetadata
  {
    l.(metadata := Some(l.metadata.GetOr(NoMetadata).(modified := Some(now))))
  }

  /** Wherever the written code succeeds, the intended one does the same thing. */
  lemma StampAgreesWhereDefined(l: Layout, now: string)
    ensures StampAsWritten(l, now).Some? ==> StampAsWritten(l, now).value == Stamp(l, now)
  {}

  // ---------------------------------------------------------------------
  // updateKey

  /** A `Partial<Key>`: the fields an edit supplies. */
  datatype KeyUpdate = KeyUpdate(
    id: Option<string>,
    x: Option<real>,
    y: Option<real>,
    width: Option<real>,
    height: Option<real>,
    legend: Option<Legend>,
    matrix: Option<Matrix>,
    keycodes: Option<Keycodes>,
    rotation: Option<real>,
    rotationX: Option<real>,
    rotationY: Option<real>,
    shape: Option<Shape>)

  const NoUpdate: KeyUpdate := KeyUpdate(None, None, None, None, None, None, None, None, None, None, None, None)

  function Max0(v: real): real { if v >= 0.0 then v else 0.0 }

  /** `{...key, ...updates}` after flooring a supplied x or y at 0. */
  function ApplyUpdate(k: Key, u: KeyUpdate): (r: Key)
    ensures u.x.Some? ==> r.x == Max0(u.x.value) && r.x >= 0.0
    ensures u.y.Some? ==> r.y == Max0(u.y.value) && r.y >= 0.0
    ensures u.x.None? ==> r.x == k.x
    ensures u.y.None? ==> r.y == k.y
    ensures r.id == u.id.GetOr(k.id) && r.width == u.width.GetOr(k.width) && r.height == u.height.GetOr(k.height)
    ensures r.legend == u.legend.GetOr(k.legend) && r.matrix == u.matrix.GetOr(k.matrix)
    ensures u.keycodes.Some? ==> r.keycodes == u.keycodes
    ensures u.keycodes.None? ==> r.keycodes == k.keycodes
    ensures u.rotation.Some? ==> r.rotation == u.rotation
    ensures u.rotation.None? ==> r.rotation == k.rotation
    ensures u.rotationX.Some? ==> r.rotationX == u.rotationX
    ensures u.rotationX.None? ==> r.rotationX == k.rotationX
    ensures u.rotationY.Some? ==> r.rotationY == u.rotationY
    ensures u.rotationY.None? ==> r.rotationY == k.rotationY
    ensures u.shape.Some? ==> r.shape == u.shape
    ensures u.shape.None? ==> r.shape == k.shape
    ensures u == NoUpdate ==> r == k
  {
    Key(
      u.id.GetOr(k.id),
      if u.x.Some? then Max0(u.x.value) else k.x,
      if u.y.Some? then Max0(u.y.value) else k.y,
      u.width.GetOr(k.width),
      u.height.GetOr(k.height),
      u.legend.GetOr(k.legend),
      u.matrix.GetOr(k.matrix),
      if u.keycodes.Some? then u.keycodes else k.keycodes,
      if u.rotation.Some? then u.rotation else k.rotation,
      if u.rotationX.Some? then u.rotationX else k.rotationX,
      if u.rotationY.Some? then u.rotationY else k.rotationY,
      if u.shape.Some? then u.shape else k.shape)
  }

  /** updateKey: a no-op for an unknown id; otherwise only the first key with
      that id changes, and the change is notified. */
  function UpdateKey(l: Layout, id: string, u: KeyUpdate): (c: Change)
    ensures !HasId(l.keys, id) ==> c == Change(l, false)
    ensures HasId(l.keys, id) ==> c.notified
    ensures c.layout.(keys := l.keys) == l
    ensures |c.layout.keys| == |l.keys|
    ensures forall i :: 0 <= i < |l.keys| ==>
      c.layout.keys[i] == if l.keys[i].id == id && IsFirst(l.keys, i) then ApplyUpdate(l.keys[i], u) else l.keys[i]
  {
    match FindIndex(l.keys, id)
    case None => Change(l, false)
    case Some(i) => Change(l.(keys := l.keys[i := ApplyUpdate(l.keys[i], u)]), true)
  }

  // ---------------------------------------------------------------------
  // moveKeys, resizeKeys, rotateKeys

  /** The per-key step of the three bulk edits. */
  datatype Edit = Move(dx: real, dy: real) | Resize(dw: real, dh: real) | Rotate(da: real)

  /** `key.rotation || 0`. */
  function RotationOrZero(k: Key): real {
    match k.rotation
    case None => 0.0
    case Some(r) => r
  }

  function ApplyEdit(k: Key, e: Edit): (r: Key)
    ensures r.id == k.id
  {
    match e
    case Move(dx, dy) => k.(x := Max0(k.x + dx), y := Max0(k.y + dy))
    case Resize(dw, dh) =>
      k.(width := Sanitizer.Max(MIN_KEY_SIZE, k.width + dw), height := Sanitizer.Max(MIN_KEY_SIZE, k.height + dh))
    case Rotate(da) => k.(rotation := Some(Sanitizer.NormalizeRotation(R(RotationOrZero(k) + da))))
  }

  /** `e` applied `n` times. */
  function Repeat(k: Key, e: Edit, n: nat): (r: Key)
    ensures r.id == k.id
    decreases n
  {
    if n == 0 then k else Repeat(ApplyEdit(k, e), e, n - 1)
  }

  /** How often `id` is listed. */
  function Count(ids: seq<string>, id: string): (n: nat)
    ensures n == 0 <==> id !in ids
  {
    if ids == [] then 0
    else (if ids[0] == id then 1 else 0) + Count(ids[1..], id)
  }

  lemma {:induction false} CountDistinct(ids: seq<string>, id: string)
    requires Distinct(ids)
    ensures Count(ids, id) == if id in ids then 1 else 0
  {
    if ids != [] {
      CountDistinct(ids[1..], id);
      if ids[0] == id {
        assert id !in ids[1..] by {
          forall j | 0 <= j < |ids[1..]| ensures ids[1..][j] != id {
            assert ids[1..][j] == ids[j + 1];
          }
        }
      }
    }
  }

  /** One iteration of the loop: the first key with `id`, if any, is edited. */
  function EditFirst(keys: seq<Key>, id: string, e: Edit): (r: seq<Key>)
    ensures |r| == |keys|
    ensures forall i :: 0 <= i < |keys| ==>
      r[i] == if IsFirst(keys, i) && keys[i].id == id then ApplyEdit(keys[i], e) else keys[i]
  {
    match FindIndex(keys, id)
    case None => keys
    case Some(j) => keys[j := ApplyEdit(keys[j], e)]
  }

  /** The loop of moveKeys/resizeKeys/rotateKeys over the listed ids, in order. */
  function EditKeys(keys: seq<Key>, ids: seq<string>, e: Edit): (r: seq<Key>)
    ensures |r| == |keys|
    ensures forall i :: 0 <= i < |keys| ==> r[i].id == keys[i].id
    decreases |ids|
  {
    if ids == [] then keys else EditKeys(EditFirst(keys, ids[0], e), ids[1..], e)
  }

  /** Two key lists with the same ids agree on which keys come first. */
  lemma SameIdsSameFirst(a: seq<Key>, b: seq<Key>, i: int)
    requires |a| == |b| && 0 <= i < |a|
    requires forall j :: 0 <= j < |a| ==> a[j].id == b[j].id
    ensures IsFirst(a, i) == IsFirst(b, i)
  {}

  /** Handling the first listed id and then the rest edits the first key
      with an id as often as the whole list names it. */
  lemma FirstEditThenRest(keys: seq<Key>, ids: seq<string>, e: Edit, i: int)
    requires ids != [] && 0 <= i < |keys| && IsFirst(keys, i)
    ensures Repeat(EditFirst(keys, ids[0], e)[i], e, Count(ids[1..], keys[i].id)) == Repeat(keys[i], e, Count(ids, keys[i].id))
  {
    var id, k1 := keys[i].id, EditFirst(keys, ids[0], e)[i];
    var n := Count(ids[1..], id);
    if id == ids[0] {
      calc {
        Repeat(keys[i], e, Count(ids, id));
        { assert Count(ids, id) == 1 + n; }
        Repeat(keys[i], e, 1 + n);
        Repeat(ApplyEdit(keys[i], e), e, n);
        { assert k1 == ApplyEdit(keys[i], e); }
        Repeat(k1, e, n);
      }
    } else {
      assert k1 == keys[i] by { assert keys[i].id != ids[0]; }
      assert Count(ids, id) == n;
    }
  }

  /** One step of the induction below, for key `i`: handling the first id
      and then the rest. */
  lemma EditKeysEffectAt(keys: seq<Key>, ids: seq<string>, e: Edit, i: int)
    requires ids != [] && 0 <= i < |keys|
    requires var keys1 := EditFirst(keys, ids[0], e);
      EditKeys(keys1, ids[1..], e)[i] == if IsFirst(keys1, i) then Repeat(keys1[i], e, Count(ids[1..], keys1[i].id)) else keys1[i]
    ensures EditKeys(keys, ids, e)[i] == if IsFirst(keys, i) then Repeat(keys[i], e, Count(ids, keys[i].id)) else keys[i]
  {
    var keys1 := EditFirst(keys, ids[0], e);
    assert EditKeys(keys, ids, e) == EditKeys(keys1, ids[1..], e);
    assert keys1[i].id == keys[i].id;
    SameIdsSameFirst(keys1, keys, i);
    if IsFirst(keys, i) {
      FirstEditThenRest(keys, ids, e, i);
    } else {
      assert keys1[i] == keys[i];
    }
  }

  /** The first key carrying an id is edited once per listing of that id;
      every other key is left alone. */
  lemma {:induction false} EditKeysEffect(keys: seq<Key>, ids: seq<string>, e: Edit)
    ensures forall i :: 0 <= i < |keys| ==>
      EditKeys(keys, ids, e)[i] == if IsFirst(keys, i) then Repeat(keys[i], e, Count(ids, keys[i].id)) else keys[i]
    decreases |ids|
  {
    if ids != [] {
      var keys1 := EditFirst(keys, ids[0], e);
      EditKeysEffect(keys1, ids[1..], e);
      forall i | 0 <= i < |keys|
        ensures EditKeys(keys, ids, e)[i] == if IsFirst(keys, i) then Repeat(keys[i], e, Count(ids, keys[i].id)) else keys[i]
      {
        EditKeysEffectAt(keys, ids, e, i);
      }
    }
  }

  /** Key `i` is one the bulk edit acts on: the first key whose id is listed. */
  predicate Touched(keys: seq<Key>, ids: seq<string>, i: int)
    requires 0 <= i < |keys|
  {
    IsFirst(keys, i) && keys[i].id in ids
  }

  /** At least one listed id names a key, so the loop's flag ends up true. */
  predicate AnyFound(keys: seq<Key>, ids: seq<string>) {
    exists j :: 0 <= j < |ids| && HasId(keys, ids[j])
  }

  /** The effect of a bulk edit on one key, summed up for the three edits. */
  lemma {:induction false} RepeatEffect(k: Key, e: Edit, n: nat)
    decreases n
    ensures n == 0 ==> Repeat(k, e, n) == k
    ensures n == 1 ==> Repeat(k, e, n) == ApplyEdit(k, e)
    ensures e.Move? ==> Repeat(k, e, n).(x := k.x, y := k.y) == k
    ensures e.Move? && n > 0 ==> Repeat(k, e, n).x >= 0.0 && Repeat(k, e, n).y >= 0.0
    ensures e.Resize? ==> Repeat(k, e, n).(width := k.width, height := k.height) == k
    ensures e.Resize? && n > 0 ==> Repeat(k, e, n).width >= MIN_KEY_SIZE && Repeat(k, e, n).height >= MIN_KEY_SIZE
    ensures e.Rotate? ==> Repeat(k, e, n).(rotation := k.rotation) == k
  {
    if n > 0 {
      var k1 := ApplyEdit(k, e);
      RepeatEffect(k1, e, n - 1);
      assert n == 1 ==> Repeat(k, e, n) == k1;
    }
  }

  /** `n * d` as repeated addition. */
  function Times(n: nat, d: real): (r: real)
    ensures r == (n as real) * d
  {
    if n == 0 then 0.0 else Times(n - 1, d) + d
  }

  /** Two rotations in a row land where one rotation by their sum would. */
  lemma RotateTwice(k: Key, a: real, b: real)
    ensures ApplyEdit(ApplyEdit(k, Rotate(a)), Rotate(b)) == ApplyEdit(k, Rotate(a + b))
  {
    var r0 := RotationOrZero(k);
    var k1 := ApplyEdit(k, Rotate(a));
    assert RotationOrZero(k1) == Sanitizer.NormalizeRotation(R(r0 + a));
    Sanitizer.NormalizeRotationShift(r0 + a, b);
    assert r0 + a + b == r0 + (a + b);
    var turned := Sanitizer.NormalizeRotation(R(r0 + (a + b)));
    assert ApplyEdit(k1, Rotate(b)) == k1.(rotation := Some(turned));
    assert k1.(rotation := Some(turned)) == k.(rotation := Some(turned));
  }

  /** Rotating `n` times by `da` lands where one rotation by `n * da` would. */
  lemma {:induction false} RepeatRotate(k: Key, da: real, n: nat)
    requires n > 0
    ensures Repeat(k, Rotate(da), n) == ApplyEdit(k, Rotate(Times(n, da)))
    decreases n
  {
    var k1 := ApplyEdit(k, Rotate(da));
    if n == 1 {
      assert Repeat(k, Rotate(da), n) == Repeat(k1, Rotate(da), 0) == k1;
      assert Times(n, da) == da;
    } else {
      var t := Times(n - 1, da);
      RepeatRotate(k1, da, n - 1);
      assert Repeat(k, Rotate(da), n) == ApplyEdit(k1, Rotate(t));
      RotateTwice(k, da, t);
      assert da + t == Times(n, da);
    }
  }

  /** The common shape of the three bulk edits. */
  function BulkEdit(l: Layout, ids: seq<string>, e: Edit): (c: Change)
    ensures c.layout.(keys := l.keys) == l
    ensures |c.layout.keys| == |l.keys|
    ensures forall i :: 0 <= i < |l.keys| && !Touched(l.keys, ids, i) ==> c.layout.keys[i] == l.keys[i]
    ensures forall i :: 0 <= i < |l.keys| && Touched(l.keys, ids, i) ==>
      c.layout.keys[i] == Repeat(l.keys[i], e, Count(ids, l.keys[i].id))
    ensures c.notified <==> AnyFound(l.keys, ids)
    ensures !c.notified ==> c.layout == l
  {
    var keys := EditKeys(l.keys, ids, e);
    EditKeysEffect(l.keys, ids, e);
    assert forall k :: Repeat(k, e, 0) == k;
    if !AnyFound(l.keys, ids) then
      assert keys == l.keys by {
        forall i | 0 <= i < |l.keys| ensures keys[i] == l.keys[i] {
          assert HasId(l.keys, l.keys[i].id);
          assert l.keys[i].id !in ids;
        }
      }
      Change(l, false)
    else
      Change(l.(keys := keys), true)
  }

  /** moveKeys: every touched key moves by (dx, dy) with its position floored
      at 0; nothing else changes; a notification fires iff some id was found. */
  function MoveKeys(l: Layout, ids: seq<string>, dx: real, dy: real): (c: Change)
    ensures c.layout.(keys := l.keys) == l
    ensures |c.layout.keys| == |l.keys|
    ensures c.notified <==> AnyFound(l.keys, ids)
    ensures !c.notified ==> c.layout == l
    ensures forall i :: 0 <= i < |l.keys| && !Touched(l.keys, ids, i) ==> c.layout.keys[i] == l.keys[i]
    ensures forall i :: 0 <= i < |l.keys| && Touched(l.keys, ids, i) ==>
      c.layout.keys[i].x >= 0.0 && c.layout.keys[i].y >= 0.0 &&
      c.layout.keys[i].(x := l.keys[i].x, y := l.keys[i].y) == l.keys[i]
    ensures Distinct(ids) ==> forall i :: 0 <= i < |l.keys| && Touched(l.keys, ids, i) ==>
      c.layout.keys[i] == l.keys[i].(x := Max0(l.keys[i].x + dx), y := Max0(l.keys[i].y + dy))
  {
    var c := BulkEdit(l, ids, Move(dx, dy));
    forall i | 0 <= i < |l.keys| && Touched(l.keys, ids, i)
      ensures c.layout.keys[i].x >= 0.0 && c.layout.keys[i].y >= 0.0 &&
        c.layout.keys[i].(x := l.keys[i].x, y := l.keys[i].y) == l.keys[i] &&
        (Distinct(ids) ==> c.layout.keys[i] == l.keys[i].(x := Max0(l.keys[i].x + dx), y := Max0(l.keys[i].y + dy)))
    {
      RepeatEffect(l.keys[i], Move(dx, dy), Count(ids, l.keys[i].id));
      if Distinct(ids) { CountDistinct(ids, l.keys[i].id); }
    }
    c
  }

  /** resizeKeys: every touched key grows by (dw, dh), floored at
      MIN_KEY_SIZE and with no upper bound. */
  function ResizeKeys(l: Layout, ids: seq<string>, dw: real, dh: real): (c: Change)
    ensures c.layout.(keys := l.keys) == l
    ensures |c.layout.keys| == |l.keys|
    ensures c.notified <==> AnyFound(l.keys, ids)
    ensures !c.notified ==> c.layout == l
    ensures forall i :: 0 <= i < |l.keys| && !Touched(l.keys, ids, i) ==> c.layout.keys[i] == l.keys[i]
    ensures forall i :: 0 <= i < |l.keys| && Touched(l.keys, ids, i) ==>
      c.layout.keys[i].width >= MIN_KEY_SIZE && c.layout.keys[i].height >= MIN_KEY_SIZE &&
      c.layout.keys[i].(width := l.keys[i].width, height := l.keys[i].height) == l.keys[i]
    ensures Distinct(ids) ==> forall i :: 0 <= i < |l.keys| && Touched(l.keys, ids, i) ==>
      c.layout.keys[i] == l.keys[i].(width := Sanitizer.Max(MIN_KEY_SIZE, l.keys[i].width + dw),
                                     height := Sanitizer.Max(MIN_KEY_SIZE, l.keys[i].height + dh))
  {
    var c := BulkEdit(l, ids, Resize(dw, dh));
    forall i | 0 <= i < |l.keys| && Touched(l.keys, ids, i)
      ensures c.layout.keys[i].width >= MIN_KEY_SIZE && c.layout.keys[i].height >= MIN_KEY_SIZE &&
        c.layout.keys[i].(width := l.keys[i].width, height := l.keys[i].height) == l.keys[i] &&
        (Distinct(ids) ==> c.layout.keys[i] == l.keys[i].(width := Sanitizer.Max(MIN_KEY_SIZE, l.keys[i].width + dw),
                                                           height := Sanitizer.Max(MIN_KEY_SIZE, l.keys[i].height + dh)))
    {
      RepeatEffect(l.keys[i], Resize(dw, dh), Count(ids, l.keys[i].id));
      if Distinct(ids) { CountDistinct(ids, l.keys[i].id); }
    }
    c
  }

  /** rotateKeys: every touched key ends as if rotated once by the delta
      times the number of listings of its id; see `ApplyEdit` for a single
      rotation, which normalises the old rotation (0 when unset) plus the
      delta into (-180, 180]. */
  function RotateKeys(l: Layout, ids: seq<string>, da: real): (c: Change)
    ensures c.layout.(keys := l.keys) == l
    ensures |c.layout.keys| == |l.keys|
    ensures c.notified <==> AnyFound(l.keys, ids)
    ensures !c.notified ==> c.layout == l
    ensures forall i :: 0 <= i < |l.keys| && !Touched(l.keys, ids, i) ==> c.layout.keys[i] == l.keys[i]
    ensures forall i :: 0 <= i < |l.keys| && Touched(l.keys, ids, i) ==>
      c.layout.keys[i] == ApplyEdit(l.keys[i], Rotate(Times(Count(ids, l.keys[i].id), da)))
  {
    var c := BulkEdit(l, ids, Rotate(da));
    forall i | 0 <= i < |l.keys| && Touched(l.keys, ids, i)
      ensures c.layout.keys[i] == ApplyEdit(l.keys[i], Rotate(Times(Count(ids, l.keys[i].id), da)))
    {
      RotatedAt(l, ids, da, i);
    }
    c
  }

  /** One touched key of a bulk rotation, in closed form. */
  lemma RotatedAt(l: Layout, ids: seq<string>, da: real, i: int)
    requires 0 <= i < |l.keys| && Touched(l.keys, ids, i)
    ensures BulkEdit(l, ids, Rotate(da)).layout.keys[i] == ApplyEdit(l.keys[i], Rotate(Times(Count(ids, l.keys[i].id), da)))
  {
    var n := Count(ids, l.keys[i].id);
    assert BulkEdit(l, ids, Rotate(da)).layout.keys[i] == Repeat(l.keys[i], Rotate(da), n);
    RepeatRotate(l.keys[i], da, n);
  }

  /** With each id listed once, every touched key is rotated exactly once. */
  lemma RotateKeysOnce(l: Layout, ids: seq<string>, da: real)
    requires Distinct(ids)
    ensures forall i :: 0 <= i < |l.keys| && Touched(l.keys, ids, i) ==>
      RotateKeys(l, ids, da).layout.keys[i].rotation == Some(Sanitizer.NormalizeRotation(R(RotationOrZero(l.keys[i]) + da)))
  {
    forall i | 0 <= i < |l.keys| && Touched(l.keys, ids, i)
      ensures Times(Count(ids, l.keys[i].id), da) == da
    {
      CountDistinct(ids, l.keys[i].id);
    }
  }

  // ---------------------------------------------------------------------
  // addKey, addKeys, deleteKeys

  /** The key addKey creates: default 1u size, empty legend, matrix and
      keycodes, rectangular. */
  function NewKey(id: string, x: real, y: real): Key {
    Key(id, x, y, DEFAULT_KEY_SIZE, DEFAULT_KEY_SIZE, map[], EmptyMatrix, Some(map[]), None, None, None, Some(Rectangle))
  }

  /** addKey: appends exactly one new key at the end and notifies. */
  function AddKey(l: Layout, id: string, x: real, y: real): (c: Change)
    ensures c.notified
    ensures c.layout.(keys := l.keys) == l
    ensures |c.layout.keys| == |l.keys| + 1 && c.layout.keys[..|l.keys|] == l.keys
    ensures var k := c.layout.keys[|l.keys|];
      && k.id == id && k.x == x && k.y == y && k.width == 1.0 && k.height == 1.0
      && k.legend == map[] && k.matrix == EmptyMatrix && k.keycodes == Some(map[])
      && k.shape == Some(Rectangle) && k.rotation.None?
  {
    Change(l.(keys := l.keys + [NewKey(id, x, y)]), true)
  }

  /** addKeys: appends the keys in order and always notifies. */
  function AddKeys(l: Layout, ks: seq<Key>): (c: Change)
    ensures c.notified
    ensures c.layout.(keys := l.keys) == l
    ensures |c.layout.keys| == |l.keys| + |ks|
    ensures c.layout.keys[..|l.keys|] == l.keys && c.layout.keys[|l.keys|..] == ks
  {
    Change(l.(keys := l.keys + ks), true)
  }

  /** `keys.filter(k => !ids.includes(k.id))`. */
  function KeepUnlisted(keys: seq<Key>, ids: seq<string>): (r: seq<Key>)
    ensures forall k :: k in r <==> k in keys && k.id !in ids
    ensures IsSubsequence(r, keys)
    ensures |r| + |KeysByIds(keys, ids)| == |keys|
  {
    if keys == [] then []
    else
      var rest := KeepUnlisted(keys[1..], ids);
      assert forall i :: 1 <= i < |keys| ==> keys[i] == keys[1..][i - 1];
      assert keys == [keys[0]] + keys[1..];
      if keys[0].id !in ids then
        var r := [keys[0]] + rest;
        assert r[1..] == rest;
        r
      else rest
  }

  /** deleteKeys: an empty list changes nothing; otherwise exactly the keys
      whose id is not listed survive, in order, and the change is notified
      even when no key matched. */
  function DeleteKeys(l: Layout, ids: seq<string>): (c: Change)
    ensures ids == [] ==> c == Change(l, false)
    ensures ids != [] ==> c.notified
    ensures c.layout.(keys := l.keys) == l
    ensures ids != [] ==> forall k :: k in c.layout.keys <==> k in l.keys && k.id !in ids
    ensures IsSubsequence(c.layout.keys, l.keys)
    ensures ids != [] ==> |c.layout.keys| + |KeysByIds(l.keys, ids)| == |l.keys|
  {
    if ids == [] then
      assert IsSubsequence(l.keys, l.keys) by { SubsequenceRefl(l.keys); }
      Change(l, false)
    else Change(l.(keys := KeepUnlisted(l.keys, ids)), true)
  }

  lemma {:induction false} SubsequenceRefl<T>(s: seq<T>)
    ensures IsSubsequence(s, s)
    decreases |s|
  {
    if s != [] {
      SubsequenceRefl(s[1..]);
    }
  }

  // ---------------------------------------------------------------------
  // loadLayout

  /** A key as found in a file: possibly the legacy shape with a single
      `keycode` string (`keycode` is `Some` exactly when isLegacyKey holds). */
  datatype RawKey = RawKey(key: Key, keycode: Option<string>)

  /** A layout as found in a file, before loadLayout fills in defaults. */
  datatype RawLayout = RawLayout(
    name: Option<string>,
    keys: seq<RawKey>,
    layerCount: Option<int>,
    legendFont: Option<LegendFont>,
    metadata: Option<Metadata>)

  /** The legacy-format upgrade: `{keycode}` becomes `{keycodes: {0: keycode}}`
      (or `{}` for an empty keycode); a key lacking keycodes gets `{}`. */
  function UpgradeKey(rk: RawKey): (k: Key)
    ensures k.keycodes.Some?
    ensures k.(keycodes := rk.key.keycodes) == rk.key
    ensures rk.keycode.Some? && rk.keycode.value != "" ==> k.keycodes == Some(map[0 := rk.keycode.value])
    ensures rk.keycode == Some("") ==> k.keycodes == Some(map[])
    ensures rk.keycode.None? && rk.key.keycodes.Some? ==> k == rk.key
    ensures rk.keycode.None? && rk.key.keycodes.None? ==> k.keycodes == Some(map[])
  {
    match rk.keycode
    case Some(kc) => rk.key.(keycodes := Some(if kc != "" then map[0 := kc] else map[]))
    case None => if rk.key.keycodes.Some? then rk.key else rk.key.(keycodes := Some(map[]))
  }

  datatype KeysResult = KeysResult(keys: seq<Key>, corrected: bool)

  /** What loading does to one key: keycodes upgraded, geometry clamped, the
      rest kept. */
  predicate LoadedKey(raw: RawKey, k: Key) {
    && k.keycodes == UpgradeKey(raw).keycodes
    && Sanitizer.GeometryInBounds(k)
    && k.(x := raw.key.x, y := raw.key.y, width := raw.key.width, height := raw.key.height,
          keycodes := raw.key.keycodes) == raw.key
    && (Sanitizer.GeometryInBounds(raw.key) ==> k == UpgradeKey(raw))
  }

  lemma LoadOneKey(raw: RawKey)
    ensures LoadedKey(raw, Sanitizer.SanitizeKeyGeometry(UpgradeKey(raw)).sanitized)
    ensures Sanitizer.SanitizeKeyGeometry(UpgradeKey(raw)).hasCorrected <==> !Sanitizer.GeometryInBounds(raw.key)
  {
    assert Sanitizer.GeometryInBounds(UpgradeKey(raw)) == Sanitizer.GeometryInBounds(raw.key);
  }

  /** `r` is what loading makes of the file's keys: one loaded key per raw
      key, and a correction flag raised exactly when some raw key's geometry
      was out of bounds. */
  predicate LoadedAll(raw: seq<RawKey>, r: KeysResult) {
    && |r.keys| == |raw|
    && (forall i :: 0 <= i < |raw| ==> LoadedKey(raw[i], r.keys[i]))
    && (r.corrected <==> exists i :: 0 <= i < |raw| && !Sanitizer.GeometryInBounds(raw[i].key))
  }

  /** Upgrades and geometry-sanitizes every key, noting whether any key was out of bounds. */
  function LoadKeys(raw: seq<RawKey>): (r: KeysResult)
    ensures LoadedAll(raw, r)
  {
    if raw == [] then KeysResult([], false)
    else
      var g := Sanitizer.SanitizeKeyGeometry(UpgradeKey(raw[0]));
      var rest := LoadKeys(raw[1..]);
      LoadKeysCons(raw, rest);
      KeysResult([g.sanitized] + rest.keys, g.hasCorrected || rest.corrected)
  }

  /** Loading the first key in front of the loaded rest loads them all. */
  lemma LoadKeysCons(raw: seq<RawKey>, rest: KeysResult)
    requires raw != [] && LoadedAll(raw[1..], rest)
    ensures var g := Sanitizer.SanitizeKeyGeometry(UpgradeKey(raw[0]));
      LoadedAll(raw, KeysResult([g.sanitized] + rest.keys, g.hasCorrected || rest.corrected))
  {
    var g := Sanitizer.SanitizeKeyGeometry(UpgradeKey(raw[0]));
    var keys := [g.sanitized] + rest.keys;
    LoadOneKey(raw[0]);
    forall i | 0 <= i < |raw| ensures LoadedKey(raw[i], keys[i]) {
      if i > 0 {
        assert raw[i] == raw[1..][i - 1] && keys[i] == rest.keys[i - 1];
      }
    }
    OutOfBoundsCons(raw);
  }

  /** Some key is out of bounds iff the first one is or one of the rest is. */
  lemma OutOfBoundsCons(raw: seq<RawKey>)
    requires raw != []
    ensures (exists i :: 0 <= i < |raw| && !Sanitizer.GeometryInBounds(raw[i].key)) <==>
      !Sanitizer.GeometryInBounds(raw[0].key) || exists i :: 0 <= i < |raw[1..]| && !Sanitizer.GeometryInBounds(raw[1..][i].key)
  {
    var tail := raw[1..];
    if exists i :: 0 <= i < |raw| && !Sanitizer.GeometryInBounds(raw[i].key) {
      var i :| 0 <= i < |raw| && !Sanitizer.GeometryInBounds(raw[i].key);
      if i > 0 { assert tail[i - 1] == raw[i]; }
    }
    if exists i :: 0 <= i < |tail| && !Sanitizer.GeometryInBounds(tail[i].key) {
      var i :| 0 <= i < |tail| && !Sanitizer.GeometryInBounds(tail[i].key);
      assert raw[i + 1] == tail[i];
    }
  }

  /** A text value that loading would shorten. */
  predicate TooLong(s: Option<string>, max: nat) {
    s.Some? && |s.value| > max
  }

  /** The text cut to its first `max` characters when it is longer. */
  function CutTo(s: Option<string>, max: nat): Option<string> {
    if TooLong(s, max) then Some(s.value[..max]) else s
  }

  /** Truncates a present, non-empty text value (`if (meta.author) ...`). */
  function TruncateOptional(s: Option<string>, field: string): (r: Option<string>)
    requires field in Sanitizer.TEXT_FIELD_CONSTRAINTS
    ensures r.None? <==> s.None?
    ensures r.Some? ==> |r.value| <= Sanitizer.TEXT_FIELD_CONSTRAINTS[field].maxLength
    ensures r.Some? ==> |r.value| <= |s.value| && r.value == s.value[..|r.value|]
    ensures r == s <==> !TooLong(s, Sanitizer.TEXT_FIELD_CONSTRAINTS[field].maxLength)
    ensures r == CutTo(s, Sanitizer.TEXT_FIELD_CONSTRAINTS[field].maxLength)
  {
    match s
    case None => None
    case Some(v) => if v != "" then Some(Sanitizer.SanitizeText(field, v, Sanitizer.TEXT_FIELD_CONSTRAINTS)) else s
  }

  datatype MetadataResult = MetadataResult(metadata: Option<Metadata>, corrected: bool)

  /** The metadata part of loadLayout: author and description truncated,
      timestamps kept. */
  function LoadMetadata(m: Option<Metadata>): (r: MetadataResult)
    ensures r.metadata.None? <==> m.None?
    ensures m.Some? ==>
      && r.metadata.value.created == m.value.created
      && r.metadata.value.modified == m.value.modified
      && (r.metadata.value.author.Some? ==> |r.metadata.value.author.value| <= MAX_AUTHOR_LENGTH)
      && (r.metadata.value.description.Some? ==> |r.metadata.value.description.value| <= MAX_DESCRIPTION_LENGTH)
    ensures r.corrected <==>
      m.Some? && (TooLong(m.value.author, MAX_AUTHOR_LENGTH) || TooLong(m.value.description, MAX_DESCRIPTION_LENGTH))
    ensures !r.corrected ==> r.metadata == m
    ensures m.Some? ==> r.metadata.value.author == CutTo(m.value.author, MAX_AUTHOR_LENGTH)
    ensures m.Some? ==> r.metadata.value.description == CutTo(m.value.description, MAX_DESCRIPTION_LENGTH)
  {
    match m
    case None => MetadataResult(None, false)
    case Some(md) =>
      var author := TruncateOptional(md.author, "author");
      var description := TruncateOptional(md.description, "description");
      MetadataResult(Some(md.(author := author, description := description)),
                     author != md.author || description != md.description)
  }

  datatype LoadResult = LoadResult(layout: Layout, corrected: bool)

  /** loadLayout: fills in the layer count, upgrades legacy keys, truncates
      over-long texts and clamps key geometry; the flag reports exactly
      whether a name, author, description or geometry value was altered. */
  function LoadLayout(raw: RawLayout): (r: LoadResult)
    ensures r.layout.layerCount == if raw.layerCount.None? || raw.layerCount.value == 0 then 1 else raw.layerCount.value
    ensures r.layout.layerCount != 0
    ensures r.layout.legendFont == raw.legendFont
    ensures |r.layout.name| <= MAX_LAYOUT_NAME_LENGTH && |r.layout.name| <= |raw.name.GetOr("")|
    ensures r.layout.name == raw.name.GetOr("")[..|r.layout.name|]
    ensures raw.name.Some? && |raw.name.value| <= MAX_LAYOUT_NAME_LENGTH ==> r.layout.name == raw.name.value
    ensures TooLong(raw.name, MAX_LAYOUT_NAME_LENGTH) ==> r.layout.name == raw.name.value[..MAX_LAYOUT_NAME_LENGTH]
    ensures r.layout.metadata == LoadMetadata(raw.metadata).metadata
    ensures |r.layout.keys| == |raw.keys|
    ensures forall i :: 0 <= i < |raw.keys| ==> LoadedKey(raw.keys[i], r.layout.keys[i])
    ensures r.corrected <==>
      || raw.name.None? || TooLong(raw.name, MAX_LAYOUT_NAME_LENGTH)
      || LoadMetadata(raw.metadata).corrected
      || (exists i :: 0 <= i < |raw.keys| && !Sanitizer.GeometryInBounds(raw.keys[i].key))
  {
    var count := if raw.layerCount.None? || raw.layerCount.value == 0 then 1 else raw.layerCount.value;
    var name := Sanitizer.SanitizeText("layoutName", raw.name.GetOr(""), Sanitizer.TEXT_FIELD_CONSTRAINTS);
    var keys := LoadKeys(raw.keys);
    var meta := LoadMetadata(raw.metadata);
    LoadResult(Layout(name, keys.keys, count, raw.legendFont, meta.metadata),
               raw.name != Some(name) || meta.corrected || keys.corrected)
  }

  /** A loaded layout viewed as a file again (no legacy fields). */
  function AsRaw(l: Layout): RawLayout {
    RawLayout(Some(l.name), AsRawKeys(l.keys), Some(l.layerCount), l.legendFont, l.metadata)
  }

  function AsRawKeys(keys: seq<Key>): (r: seq<RawKey>)
    ensures |r| == |keys| && forall i :: 0 <= i < |keys| ==> r[i] == RawKey(keys[i], None)
  {
    if keys == [] then [] else [RawKey(keys[0], None)] + AsRawKeys(keys[1..])
  }

  /** Loading is idempotent: a loaded layout loads back to itself with no
      correction, so an upgraded legacy file upgrades only once. */
  lemma LoadLayoutIdempotent(raw: RawLayout)
    ensures LoadLayout(AsRaw(LoadLayout(raw).layout)) == LoadResult(LoadLayout(raw).layout, false)
  {
    var l := LoadLayout(raw).layout;
    LoadedReloadable(raw.keys, l.keys);
    ReloadKeys(l.keys);
    ReloadMetadata(raw.metadata);
    var r2 := LoadLayout(AsRaw(l));
    assert r2.layout.keys == l.keys;
    assert r2.layout.name == l.name;
    assert r2.layout.layerCount == l.layerCount;
  }

  /** Loaded metadata loads back to itself with no correction. */
  lemma ReloadMetadata(m: Option<Metadata>)
    ensures LoadMetadata(LoadMetadata(m).metadata) == MetadataResult(LoadMetadata(m).metadata, false)
  {
    var m1 := LoadMetadata(m).metadata;
    assert !LoadMetadata(m1).corrected;
  }

  lemma LoadedReloadable(raw: seq<RawKey>, keys: seq<Key>)
    requires |keys| == |raw| && forall i :: 0 <= i < |raw| ==> LoadedKey(raw[i], keys[i])
    ensures forall i :: 0 <= i < |keys| ==> Reloadable(keys[i])
  {
    forall i | 0 <= i < |keys| ensures Reloadable(keys[i]) {
      assert LoadedKey(raw[i], keys[i]);
    }
  }

  /** What every loaded key satisfies: it has keycodes and in-bounds geometry. */
  predicate Reloadable(k: Key) {
    k.keycodes.Some? && Sanitizer.GeometryInBounds(k)
  }

  /** Upgrading such a key leaves it as it is. */
  lemma ReloadKey(k: Key)
    requires Reloadable(k)
    ensures UpgradeKey(RawKey(k, None)) == k
  {
  }

  /** Keys that loading produced load back to themselves, with no correction. */
  lemma ReloadKeys(keys: seq<Key>)
    requires forall i :: 0 <= i < |keys| ==> Reloadable(keys[i])
    ensures LoadKeys(AsRawKeys(keys)) == KeysResult(keys, false)
  {
    var raw := AsRawKeys(keys);
    var r := LoadKeys(raw);
    forall i | 0 <= i < |keys| ensures r.keys[i] == keys[i] && Sanitizer.GeometryInBounds(raw[i].key) {
      assert raw[i] == RawKey(keys[i], None);
      assert LoadedKey(raw[i], r.keys[i]);
      ReloadKey(keys[i]);
    }
    assert r.keys == keys;
  }

  // ---------------------------------------------------------------------
  // incrementLayerCount, decrementLayerCount

  /** One key gains layer `n`, set to the transparent keycode (a key without
      keycodes gets a fresh map first). */
  function AddLayer(k: Key, n: int): (r: Key)
    ensures r.(keycodes := k.keycodes) == k
    ensures k.keycodes.Some? ==> r.keycodes == Some(k.keycodes.value[n := TRANSPARENT])
    ensures k.keycodes.None? ==> r.keycodes == Some(map[n := TRANSPARENT])
  {
    k.(keycodes := Some(k.keycodes.GetOr(map[])[n := TRANSPARENT]))
  }

  function AddLayerAll(keys: seq<Key>, n: int): (r: seq<Key>)
    ensures |r| == |keys| && forall i :: 0 <= i < |keys| ==> r[i] == AddLayer(keys[i], n)
  {
    if keys == [] then [] else [AddLayer(keys[0], n)] + AddLayerAll(keys[1..], n)
  }

  /** incrementLayerCount: below the maximum, adds a layer whose keycode is
      the transparent one on every key; at the maximum, does nothing. */
  function IncrementLayerCount(l: Layout): (c: Change)
    ensures l.layerCount >= MAX_LAYER_COUNT ==> c == Change(l, false)
    ensures l.layerCount < MAX_LAYER_COUNT ==>
      && c.notified
      && c.layout.(keys := l.keys, layerCount := l.layerCount) == l
      && c.layout.layerCount == l.layerCount + 1
      && |c.layout.keys| == |l.keys|
      && forall i :: 0 <= i < |l.keys| ==> c.layout.keys[i] == AddLayer(l.keys[i], l.layerCount)
  {
    if l.layerCount < MAX_LAYER_COUNT then
      var n := l.layerCount;
      Change(l.(keys := AddLayerAll(l.keys, n), layerCount := n + 1), true)
    else Change(l, false)
  }

  /** The layer index just below `l`. */
  function Below(l: int): int { l - 1 }

  /** The layer that becomes layer `j` once `removed` is deleted. */
  function OldLayer(j: int, removed: int): int {
    if j < removed then j else j + 1
  }

  /** The keycode map after deleting `removed`. */
  function ShiftDown(m: Keycodes, removed: int): Keycodes {
    var lower := map j | j in m && j < removed :: m[j];
    var above := set l | l in m && l > removed :: Below(l);
    var upper := map j | j in above :: m[j + 1];
    lower + upper
  }

  /** Lower layers stay, the removed one goes, higher ones move down by one. */
  lemma ShiftDownSpec(m: Keycodes, removed: int)
    ensures forall j :: j in ShiftDown(m, removed) <==> OldLayer(j, removed) in m
    ensures forall j :: j in ShiftDown(m, removed) ==> ShiftDown(m, removed)[j] == m[OldLayer(j, removed)]
  {
    forall j | j >= removed && j + 1 in m ensures j in ShiftDown(m, removed) {
      assert j == Below(j + 1);
    }
  }

  datatype LayerResult = LayerResult(change: Change, count: int)

  /** One key loses layer `removed`; a key without keycodes is left alone. */
  function DropLayer(k: Key, removed: int): (r: Key)
    ensures r.(keycodes := k.keycodes) == k
    ensures k.keycodes.None? ==> r == k
    ensures k.keycodes.Some? ==> r.keycodes == Some(ShiftDown(k.keycodes.value, removed))
  {
    match k.keycodes
    case None => k
    case Some(m) => k.(keycodes := Some(ShiftDown(m, removed)))
  }

  function DropLayerAll(keys: seq<Key>, removed: int): (r: seq<Key>)
    ensures |r| == |keys| && forall i :: 0 <= i < |keys| ==> r[i] == DropLayer(keys[i], removed)
  {
    if keys == [] then [] else [DropLayer(keys[0], removed)] + DropLayerAll(keys[1..], removed)
  }

  /** decrementLayerCount: above the minimum, deletes layer `layerToDelete`
      (the last one by default) from every key's keycodes, re-indexes the
      higher layers, and returns the new count; at the minimum, does nothing. */
  function DecrementLayerCount(l: Layout, layerToDelete: Option<int>): (r: LayerResult)
    ensures l.layerCount <= MIN_LAYER_COUNT ==> r == LayerResult(Change(l, false), l.layerCount)
    ensures l.layerCount > MIN_LAYER_COUNT ==>
      && r.change.notified
      && r.count == l.layerCount - 1 == r.change.layout.layerCount
      && r.change.layout.(keys := l.keys, layerCount := l.layerCount) == l
      && |r.change.layout.keys| == |l.keys|
      && forall i :: 0 <= i < |l.keys| ==>
           r.change.layout.keys[i] == DropLayer(l.keys[i], layerToDelete.GetOr(l.layerCount - 1))
  {
    if l.layerCount > MIN_LAYER_COUNT then
      var removed := layerToDelete.GetOr(l.layerCount - 1);
      LayerResult(Change(l.(keys := DropLayerAll(l.keys, removed), layerCount := l.layerCount - 1), true), l.layerCount - 1)
    else LayerResult(Change(l, false), l.layerCount)
  }

  /** The worked example: deleting layer 1 of {0: A, 1: B, 2: C} leaves {0: A, 1: C}. */
  lemma ShiftDownExample()
    ensures ShiftDown(map[0 := "KC_A", 1 := "KC_B", 2 := "KC_C"], 1) == map[0 := "KC_A", 1 := "KC_C"]
  {
    var m := map[0 := "KC_A", 1 := "KC_B", 2 := "KC_C"];
    var r := ShiftDown(m, 1);
    ShiftDownSpec(m, 1);
    assert 0 in r && 1 in r;
    assert forall j :: j in r ==> j == 0 || j == 1;
  }

  /** Keycodes only on layers below the count, and every key carries a map. */
  predicate KeycodesBelow(l: Layout) {
    forall i :: 0 <= i < |l.keys| ==>
      l.keys[i].keycodes.Some? && forall j :: j in l.keys[i].keycodes.value ==> j < l.layerCount
  }

  /** Deleting a layer just added above all others gives the map back. */
  lemma ShiftDownTop(m: Keycodes, n: int)
    requires forall j :: j in m ==> j < n
    ensures ShiftDown(m[n := TRANSPARENT], n) == m
  {
    var s := ShiftDown(m[n := TRANSPARENT], n);
    ShiftDownSpec(m[n := TRANSPARENT], n);
    assert forall j :: j in s <==> j in m;
    assert forall j :: j in s ==> s[j] == m[j];
  }

  lemma AddDropLayer(k: Key, n: int)
    requires k.keycodes.Some? && forall j :: j in k.keycodes.value ==> j < n
    ensures DropLayer(AddLayer(k, n), n) == k
  {
    ShiftDownTop(k.keycodes.value, n);
  }

  lemma AddDropLayerAll(keys: seq<Key>, n: int)
    requires forall i :: 0 <= i < |keys| ==>
      keys[i].keycodes.Some? && forall j :: j in keys[i].keycodes.value ==> j < n
    ensures DropLayerAll(AddLayerAll(keys, n), n) == keys
  {
    var added := AddLayerAll(keys, n);
    var r := DropLayerAll(added, n);
    forall i | 0 <= i < |keys| ensures r[i] == keys[i] {
      assert r[i] == DropLayer(added[i], n) && added[i] == AddLayer(keys[i], n);
      AddDropLayer(keys[i], n);
    }
  }

  /** Adding a layer and then deleting the last one restores the layout. */
  lemma AddThenRemoveLayer(l: Layout)
    requires MIN_LAYER_COUNT <= l.layerCount < MAX_LAYER_COUNT
    requires KeycodesBelow(l)
    ensures var l1 := IncrementLayerCount(l).layout; DecrementLayerCount(l1, None).change.layout == l
  {
    var n := l.layerCount;
    var l1 := IncrementLayerCount(l).layout;
    AddLastLayer(l);
    DropLastLayer(l1);
    var l2 := DecrementLayerCount(l1, None).change.layout;
    KeysAddDrop(l);
    UpdatesCompose(l, l1, l2);
  }

  lemma KeysAddDrop(l: Layout)
    requires KeycodesBelow(l)
    ensures DropLayerAll(AddLayerAll(l.keys, l.layerCount), l.layerCount) == l.keys
  {
    AddDropLayerAll(l.keys, l.layerCount);
  }

  /** Replacing keys and count, then replacing them again by the inverse
      keys, restores the layout. */
  lemma UpdatesCompose(l: Layout, l1: Layout, l2: Layout)
    requires l1 == l.(keys := AddLayerAll(l.keys, l.layerCount), layerCount := l.layerCount + 1)
    requires l2 == l1.(keys := DropLayerAll(l1.keys, l1.layerCount - 1), layerCount := l1.layerCount - 1)
    requires DropLayerAll(AddLayerAll(l.keys, l.layerCount), l.layerCount) == l.keys
    ensures l2 == l
  {}

  lemma AddLastLayer(l: Layout)
    requires l.layerCount < MAX_LAYER_COUNT
    ensures IncrementLayerCount(l).layout ==
      l.(keys := AddLayerAll(l.keys, l.layerCount), layerCount := l.layerCount + 1)
  {}

  /** Deleting with no explicit layer deletes the last one. */
  lemma DropLastLayer(l: Layout)
    requires l.layerCount > MIN_LAYER_COUNT
    ensures DecrementLayerCount(l, None).change.layout ==
      l.(keys := DropLayerAll(l.keys, l.layerCount - 1), layerCount := l.layerCount - 1)
  {}

  // ---------------------------------------------------------------------
  // updateMetadata, setLegendFont

  /** updateMetadata: sets each supplied field, creating the metadata record
      first when there is none, and always notifies. */
  function UpdateMetadata(l: Layout, name: Option<string>, author: Option<string>, description: Option<string>): (c: Change)
    ensures c.notified && c.layout.metadata.Some?
    ensures c.layout.keys == l.keys && c.layout.layerCount == l.layerCount && c.layout.legendFont == l.legendFont
    ensures c.layout.name == name.GetOr(l.name)
    ensures var before := l.metadata.GetOr(NoMetadata); var after := c.layout.metadata.value;
      && after.author == (if author.Some? then author else before.author)
      && after.description == (if description.Some? then description else before.description)
      && after.created == before.created && after.modified == before.modified
  {
    var m := l.metadata.GetOr(NoMetadata);
    var m1 := if author.Some? then m.(author := author) else m;
    var m2 := if description.Some? then m1.(description := description) else m1;
    Change(l.(name := name.GetOr(l.name), metadata := Some(m2)), true)
  }

  /** setLegendFont: replaces the font (possibly with none), creates the
      metadata record when missing, and notifies. */
  function SetLegendFont(l: Layout, font: Option<LegendFont>): (c: Change)
    ensures c.notified && c.layout.legendFont == font
    ensures c.layout.metadata == Some(l.metadata.GetOr(NoMetadata))
    ensures c.layout.(legendFont := l.legendFont, metadata := l.metadata) == l
  {
    Change(l.(legendFont := font, metadata := Some(l.metadata.GetOr(NoMetadata))), true)
  }

  /** Both metadata-editing operations leave a record behind, so the
      notification they fire always finds something to stamp, and it stamps
      what the intended notification does. */
  lemma MetadataEditsStampable(l: Layout, name: Option<string>, author: Option<string>,
                               description: Option<string>, font: Option<LegendFont>, now: string)
    ensures StampAsWritten(UpdateMetadata(l, name, author, description).layout, now)
      == Some(Stamp(UpdateMetadata(l, name, author, description).layout, now))
    ensures StampAsWritten(SetLegendFont(l, font).layout, now) == Some(Stamp(SetLegendFont(l, font).layout, now))
  {
  }

  // ---------------------------------------------------------------------
  // createNewLayout

  /** createNewLayout: an empty one-layer layout created now. */
  function CreateNewLayout(now: string): (l: Layout)
    ensures l.name == "Untitled Layout" && l.keys == [] && l.layerCount == 1 && l.legendFont.None?
    ensures l.metadata == Some(Metadata(None, None, Some(now), Some(now)))
  {
    Layout("Untitled Layout", [], 1, None, Some(Metadata(None, None, Some(now), Some(now))))
  }

  // ---------------------------------------------------------------------
  // The notification on a layout loaded without metadata

  /** A file with no metadata object loads successfully, and the first edit
      afterwards reaches notifyChange with no metadata to stamp: the code as
      written throws there, the intended stamp records the time. */
  lemma EditAfterLoadWithoutMetadata(now: string)
    ensures var loaded := LoadLayout(RawLayout(Some("Board"), [], Some(1), None, None)).layout;
      var edited := AddKey(loaded, "k1", 0.0, 0.0);
      && edited.notified
      && StampAsWritten(edited.layout, now).None?
      && Stamp(edited.layout, now).metadata.value.modified == Some(now)
  {}
}
