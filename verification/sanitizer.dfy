/** Range validation, clamping, rotation normalisation and text truncation
    for key and layout fields (src/utils/key-sanitizer.ts). */
module Sanitizer {
  import opened Wrappers
  import opened Config
  import opened Model

  /** A numeric field's declared range and the message shown when an edit violates it. */
  datatype Constraint = Constraint(min: real, max: real, errorMessage: string)

  /** A text field's maximum length and its message. */
  datatype TextConstraint = TextConstraint(maxLength: nat, errorMessage: string)

  const KEY_FIELD_CONSTRAINTS: map<string, Constraint> := map[
    "x" := Constraint(0.0, MAX_KEY_X, "X座標は0〜50の範囲である必要があります"),
    "y" := Constraint(0.0, MAX_KEY_Y, "Y座標は0〜20の範囲である必要があります"),
    "width" := Constraint(MIN_KEY_SIZE, MAX_KEY_WIDTH, "幅は0.25〜15の範囲である必要があります"),
    "height" := Constraint(MIN_KEY_SIZE, MAX_KEY_HEIGHT, "高さは0.25〜5の範囲である必要があります")]

  const MATRIX_FIELD_CONSTRAINTS: map<string, Constraint> := map[
    "row" := Constraint(0.0, MAX_MATRIX_ROW, "ROWは0〜32の範囲である必要があります"),
    "col" := Constraint(0.0, MAX_MATRIX_COL, "COLは0〜32の範囲である必要があります")]

  const TEXT_FIELD_CONSTRAINTS: map<string, TextConstraint> := map[
    "legend" := TextConstraint(MAX_LEGEND_LENGTH, "レジェンドは10文字以内である必要があります"),
    "layoutName" := TextConstraint(MAX_LAYOUT_NAME_LENGTH, "レイアウト名は50文字以内である必要があります"),
    "author" := TextConstraint(MAX_AUTHOR_LENGTH, "作者名は50文字以内である必要があります"),
    "description" := TextConstraint(MAX_DESCRIPTION_LENGTH, "説明は200文字以内である必要があります")]

  /** Every range in the table is non-empty. */
  predicate WellFormed(table: map<string, Constraint>) {
    forall f :: f in table ==> table[f].min <= table[f].max
  }

  lemma ConstraintTablesWellFormed()
    ensures WellFormed(KEY_FIELD_CONSTRAINTS) && WellFormed(MATRIX_FIELD_CONSTRAINTS)
  {}

  function Max(a: real, b: real): real { if a >= b then a else b }
  function Min(a: real, b: real): real { if a <= b then a else b }

  /** `Math.max(lo, Math.min(hi, v))`. */
  function Clamp(v: real, lo: real, hi: real): (r: real)
    requires lo <= hi
    ensures lo <= r <= hi
    ensures lo <= v <= hi ==> r == v
    ensures v < lo ==> r == lo
    ensures v > hi ==> r == hi
  {
    Max(lo, Min(hi, v))
  }

  /** validateNumericField: fields without a constraint always pass; a
      constrained field passes exactly when the value is a number in range. */
  function ValidateNumeric(field: string, v: Num, table: map<string, Constraint>): (ok: bool)
    ensures field !in table ==> ok
    ensures field in table ==> (ok <==> v.R? && table[field].min <= v.v <= table[field].max)
  {
    if field !in table then true
    else v.R? && table[field].min <= v.v && v.v <= table[field].max
  }

  /** sanitizeNumericField: clamps a constrained field into its range, leaves
      other fields alone; NaN stays NaN, as it does through Math.max/Math.min. */
  function SanitizeNumeric(field: string, v: Num, table: map<string, Constraint>): (r: Num)
    requires WellFormed(table)
    ensures field !in table ==> r == v
    ensures v.NaN? ==> r.NaN?
    ensures field in table && v.R? ==> r.R? && table[field].min <= r.v <= table[field].max
    ensures field in table && v.R? && v.v < table[field].min ==> r == R(table[field].min)
    ensures field in table && v.R? && v.v > table[field].max ==> r == R(table[field].max)
    ensures ValidateNumeric(field, v, table) ==> r == v
  {
    if field !in table then v
    else match v
      case NaN => NaN
      case R(x) => R(Clamp(x, table[field].min, table[field].max))
  }

  /** A sanitized number always validates, and sanitizing it again changes nothing. */
  lemma SanitizeNumericSettles(field: string, v: Num, table: map<string, Constraint>)
    requires WellFormed(table)
    requires v.R?
    ensures ValidateNumeric(field, SanitizeNumeric(field, v, table), table)
    ensures SanitizeNumeric(field, SanitizeNumeric(field, v, table), table) == SanitizeNumeric(field, v, table)
  {}

  /** `d` is a whole number of turns. */
  predicate WholeTurns(d: real) {
    d == 360.0 * ((d / 360.0).Floor as real)
  }

  lemma WholeTurnsStep(d: real, s: real)
    requires WholeTurns(d)
    requires s == 360.0 || s == -360.0
    ensures WholeTurns(d + s)
  {
    var k := (d / 360.0).Floor;
    assert (d + s) / 360.0 == (k as real) + s / 360.0;
    assert ((d + s) / 360.0).Floor == k + (if s > 0.0 then 1 else -1);
  }

  /** `while (v > 180) v -= 360`. */
  function SubtractTurns(v: real): (r: real)
    ensures r <= 180.0
    ensures v > 180.0 ==> r > -180.0
    ensures v <= 180.0 ==> r == v
    ensures WholeTurns(v - r)
    decreases if v > 180.0 then v.Floor else 0
  {
    if v > 180.0 then
      var r := SubtractTurns(v - 360.0);
      WholeTurnsStep(v - 360.0 - r, 360.0);
      r
    else
      assert v - v == 360.0 * ((0.0 / 360.0).Floor as real);
      v
  }

  /** `while (v <= -180) v += 360`. */
  function AddTurns(v: real): (r: real)
    ensures r > -180.0
    ensures v <= 180.0 ==> r <= 180.0
    ensures v > -180.0 ==> r == v
    ensures WholeTurns(v - r)
    decreases if v <= -180.0 then (-v).Floor else 0
  {
    if v <= -180.0 then
      var r := AddTurns(v + 360.0);
      WholeTurnsStep(v + 360.0 - r, -360.0);
      r
    else
      assert v - v == 360.0 * ((0.0 / 360.0).Floor as real);
      v
  }

  /** A canonical angle: in (-180, 180]. */
  predicate InHalfOpenTurn(a: real) {
    -180.0 < a <= 180.0
  }

  lemma WholeTurnsSum(a: real, b: real)
    requires WholeTurns(a) && WholeTurns(b)
    ensures WholeTurns(a + b)
  {
    var i := (a / 360.0).Floor;
    var j := (b / 360.0).Floor;
    assert a == 360.0 * (i as real) && b == 360.0 * (j as real);
    assert a + b == 360.0 * ((i + j) as real);
    assert (a + b) / 360.0 == (i + j) as real;
    assert ((a + b) / 360.0).Floor == i + j;
  }

  /** normalizeRotation: NaN becomes 0; any number becomes the angle in
      (-180, 180] that differs from it by whole turns. */
  function NormalizeRotation(v: Num): (r: real)
    ensures InHalfOpenTurn(r)
    ensures v.NaN? ==> r == 0.0
    ensures v.R? ==> WholeTurns(v.v - r)
    ensures v.R? && InHalfOpenTurn(v.v) ==> r == v.v
  {
    match v
    case NaN => 0.0
    case R(x) =>
      var a := SubtractTurns(x);
      var r := AddTurns(a);
      WholeTurnsSum(x - a, a - r);
      r
  }

  /** There is only one canonical angle per class of whole turns. */
  lemma {:induction false} CanonicalAngleUnique(a: real, b: real)
    requires InHalfOpenTurn(a) && InHalfOpenTurn(b)
    requires WholeTurns(a - b)
    ensures a == b
  {
    var k := ((a - b) / 360.0).Floor;
    assert a - b == 360.0 * (k as real);
    assert -1 < k < 1;
  }

  /** normalizeRotation is the canonical-representative map: it returns the
      one canonical angle of its argument's class, so it is idempotent and
      agrees on angles that differ by whole turns. */
  lemma NormalizeRotationCanonical(x: real, c: real)
    requires InHalfOpenTurn(c) && WholeTurns(x - c)
    ensures NormalizeRotation(R(x)) == c
  {
    var r := NormalizeRotation(R(x));
    var i := ((x - c) / 360.0).Floor;
    var j := ((x - r) / 360.0).Floor;
    assert r - c == (x - c) - (x - r);
    assert (r - c) / 360.0 == (i - j) as real;
    CanonicalAngleUnique(r, c);
  }

  lemma WholeTurnsNeg(d: real)
    requires WholeTurns(d)
    ensures WholeTurns(-d)
  {
    var k := (d / 360.0).Floor;
    assert d / 360.0 == k as real;
    assert -d / 360.0 == (-k) as real;
    assert (-d / 360.0).Floor == -k;
  }

  /** Adding to an already normalized angle and normalizing again is the
      same as normalizing the plain sum. */
  lemma NormalizeRotationShift(x: real, y: real)
    ensures NormalizeRotation(R(NormalizeRotation(R(x)) + y)) == NormalizeRotation(R(x + y))
  {
    var a := NormalizeRotation(R(x));
    var c := NormalizeRotation(R(x + y));
    WholeTurnsNeg(x - a);
    WholeTurnsSum(x + y - c, -(x - a));
    assert (x + y - c) + -(x - a) == a + y - c;
    NormalizeRotationCanonical(a + y, c);
  }

  lemma NormalizeRotationIdempotent(v: Num)
    ensures NormalizeRotation(R(NormalizeRotation(v))) == NormalizeRotation(v)
  {}

  /** The result of sanitizeKeyGeometry. */
  datatype GeometryResult = GeometryResult(sanitized: Key, hasCorrected: bool)

  /** x, y, width and height all lie within their declared ranges. */
  predicate GeometryInBounds(k: Key) {
    && ValidateNumeric("x", R(k.x), KEY_FIELD_CONSTRAINTS)
    && ValidateNumeric("y", R(k.y), KEY_FIELD_CONSTRAINTS)
    && ValidateNumeric("width", R(k.width), KEY_FIELD_CONSTRAINTS)
    && ValidateNumeric("height", R(k.height), KEY_FIELD_CONSTRAINTS)
  }

  /** Clamps one geometry field of a key by its name. */
  function SanitizeGeometryField(field: string, v: real): (r: real)
    requires field in KEY_FIELD_CONSTRAINTS
    ensures R(r) == SanitizeNumeric(field, R(v), KEY_FIELD_CONSTRAINTS)
  {
    SanitizeNumeric(field, R(v), KEY_FIELD_CONSTRAINTS).v
  }

  /** sanitizeKeyGeometry: clamps x, y, width and height into range, keeps
      every other field, and reports a correction exactly when a value moved,
      which is exactly when the key was out of bounds. */
  function SanitizeKeyGeometry(k: Key): (res: GeometryResult)
    ensures GeometryInBounds(res.sanitized)
    ensures res.sanitized.(x := k.x, y := k.y, width := k.width, height := k.height) == k
    ensures res.hasCorrected <==> res.sanitized != k
    ensures res.hasCorrected <==> !GeometryInBounds(k)
  {
    var x := SanitizeGeometryField("x", k.x);
    var y := SanitizeGeometryField("y", k.y);
    var w := SanitizeGeometryField("width", k.width);
    var h := SanitizeGeometryField("height", k.height);
    var s := k.(x := x, y := y, width := w, height := h);
    GeometryResult(s, x != k.x || y != k.y || w != k.width || h != k.height)
  }

  /** validateTextField: unconstrained fields pass; others pass up to their length. */
  function ValidateText(field: string, s: string, table: map<string, TextConstraint>): (ok: bool)
    ensures field !in table ==> ok
    ensures field in table ==> (ok <==> |s| <= table[field].maxLength)
  {
    field !in table || |s| <= table[field].maxLength
  }

  /** sanitizeTextField: truncation to the field's maximum length. */
  function SanitizeText(field: string, s: string, table: map<string, TextConstraint>): (r: string)
    ensures |r| <= |s| && r == s[..|r|]
    ensures field in table ==> |r| <= table[field].maxLength
    ensures field in table && |s| > table[field].maxLength ==> |r| == table[field].maxLength
    ensures ValidateText(field, s, table) ==> r == s
    ensures ValidateText(field, r, table)
  {
    if field !in table || |s| <= table[field].maxLength then s
    else s[..table[field].maxLength]
  }

  /** Truncation settles after one step. */
  lemma SanitizeTextIdempotent(field: string, s: string, table: map<string, TextConstraint>)
    ensures SanitizeText(field, SanitizeText(field, s, table), table) == SanitizeText(field, s, table)
  {}

  /** The message for a field no table describes. */
  function GenericError(field: string): string {
    field + "の値が不正です"
  }

  function ConstraintMessage(c: Constraint): string { c.errorMessage }

  function TextConstraintMessage(c: TextConstraint): string { c.errorMessage }

  /** getFieldErrorMessage and getTextFieldErrorMessage: the table entry's
      message, or the generic one naming the field. */
  function ErrorMessage<C>(field: string, table: map<string, C>, message: C -> string): string {
    if field in table then message(table[field]) else GenericError(field)
  }

  /** Different fields never share a message: the generic messages differ by
      the field they name, and none of them reads like a table's message,
      which all end in "ます" rather than "です". */
  lemma ErrorMessageIdentifiesField(f: string, g: string)
    ensures ErrorMessage(f, KEY_FIELD_CONSTRAINTS, ConstraintMessage) == ErrorMessage(g, KEY_FIELD_CONSTRAINTS, ConstraintMessage)
      ==> f == g
    ensures ErrorMessage(f, MATRIX_FIELD_CONSTRAINTS, ConstraintMessage) == ErrorMessage(g, MATRIX_FIELD_CONSTRAINTS, ConstraintMessage)
      ==> f == g
    ensures ErrorMessage(f, TEXT_FIELD_CONSTRAINTS, TextConstraintMessage) == ErrorMessage(g, TEXT_FIELD_CONSTRAINTS, TextConstraintMessage)
      ==> f == g
  {
    GenericErrorInjective(f, g);
    GenericErrorNotInTable(f);
    GenericErrorNotInTable(g);
    if f != g && f in KEY_FIELD_CONSTRAINTS && g in KEY_FIELD_CONSTRAINTS {
      KeyMessagesDistinct(f, g);
    }
    if f != g && f in MATRIX_FIELD_CONSTRAINTS && g in MATRIX_FIELD_CONSTRAINTS {
      MatrixMessagesDistinct(f, g);
    }
    if f != g && f in TEXT_FIELD_CONSTRAINTS && g in TEXT_FIELD_CONSTRAINTS {
      TextMessagesDistinct(f, g);
    }
  }

  lemma KeyMessagesDistinct(f: string, g: string)
    requires f in KEY_FIELD_CONSTRAINTS && g in KEY_FIELD_CONSTRAINTS && f != g
    ensures KEY_FIELD_CONSTRAINTS[f].errorMessage != KEY_FIELD_CONSTRAINTS[g].errorMessage
  {}

  lemma MatrixMessagesDistinct(f: string, g: string)
    requires f in MATRIX_FIELD_CONSTRAINTS && g in MATRIX_FIELD_CONSTRAINTS && f != g
    ensures MATRIX_FIELD_CONSTRAINTS[f].errorMessage != MATRIX_FIELD_CONSTRAINTS[g].errorMessage
  {}

  lemma TextMessagesDistinct(f: string, g: string)
    requires f in TEXT_FIELD_CONSTRAINTS && g in TEXT_FIELD_CONSTRAINTS && f != g
    ensures TEXT_FIELD_CONSTRAINTS[f].errorMessage != TEXT_FIELD_CONSTRAINTS[g].errorMessage
  {}

  lemma GenericErrorInjective(f: string, g: string)
    ensures GenericError(f) == GenericError(g) ==> f == g
  {
    if GenericError(f) == GenericError(g) {
      assert |f| == |g|;
      assert f == GenericError(f)[..|f|];
    }
  }

  /** The second-to-last character tells a generic message from a table's. */
  lemma GenericErrorNotInTable(f: string)
    ensures forall g :: g in KEY_FIELD_CONSTRAINTS ==> KEY_FIELD_CONSTRAINTS[g].errorMessage != GenericError(f)
    ensures forall g :: g in MATRIX_FIELD_CONSTRAINTS ==> MATRIX_FIELD_CONSTRAINTS[g].errorMessage != GenericError(f)
    ensures forall g :: g in TEXT_FIELD_CONSTRAINTS ==> TEXT_FIELD_CONSTRAINTS[g].errorMessage != GenericError(f)
  {
    var e := GenericError(f);
    assert e[|e| - 2] == 'で';
  }
}
