/** The property panel's edit pipeline (src/composables/useKeyPropertyFields.ts):
    for each editable field, parse, then validate, then transform, and turn
    the outcome into a partial key update. Parsing itself (`parseFloat`,
    `parseInt`) is not modelled: the pipeline receives the parsed number,
    NaN included. */
module PropertyFields {
  import opened Wrappers
  import opened Model
  import Sanitizer
  import Config
  import LayoutStore

  /** The numeric fields the panel knows, by the name the panel uses. */
  datatype NumericField = XField | YField | WidthField | HeightField | RotationField | RowField | ColField

  function NumericFieldByName(name: string): (r: Option<NumericField>)
    ensures r.Some? <==> name in {"x", "y", "width", "height", "rotation", "row", "col"}
    ensures r.Some? ==> NumericFieldName(r.value) == name
  {
    if name == "x" then Some(XField)
    else if name == "y" then Some(YField)
    else if name == "width" then Some(WidthField)
    else if name == "height" then Some(HeightField)
    else if name == "rotation" then Some(RotationField)
    else if name == "row" then Some(RowField)
    else if name == "col" then Some(ColField)
    else None
  }

  function NumericFieldName(f: NumericField): string {
    match f
    case XField => "x"
    case YField => "y"
    case WidthField => "width"
    case HeightField => "height"
    case RotationField => "rotation"
    case RowField => "row"
    case ColField => "col"
  }

  /** Field names and fields correspond one to one. */
  lemma NumericFieldNamesRoundTrip(f: NumericField)
    ensures NumericFieldByName(NumericFieldName(f)) == Some(f)
  {}

  predicate IsGeometry(f: NumericField) {
    f == XField || f == YField || f == WidthField || f == HeightField
  }

  const ROTATION_ERROR: string := "回転角度は数値である必要があります"

  /** The `validate` entry of NUMERIC_FIELD_DEFINITIONS. */
  function ValidateField(f: NumericField, v: Num): bool {
    var name := NumericFieldName(f);
    if IsGeometry(f) then Sanitizer.ValidateNumeric(name, v, Sanitizer.KEY_FIELD_CONSTRAINTS)
    else if f == RotationField then v.R?
    else v.NaN? || Sanitizer.ValidateNumeric(name, v, Sanitizer.MATRIX_FIELD_CONSTRAINTS)
  }

  /** The `transform` entry of NUMERIC_FIELD_DEFINITIONS. */
  function TransformField(f: NumericField, v: Num): Num {
    var name := NumericFieldName(f);
    Sanitizer.ConstraintTablesWellFormed();
    if IsGeometry(f) then Sanitizer.SanitizeNumeric(name, v, Sanitizer.KEY_FIELD_CONSTRAINTS)
    else if f == RotationField then R(Sanitizer.NormalizeRotation(v))
    else if v.NaN? then v
    else Sanitizer.SanitizeNumeric(name, v, Sanitizer.MATRIX_FIELD_CONSTRAINTS)
  }

  /** The `errorMessage` entry of NUMERIC_FIELD_DEFINITIONS. */
  function FieldError(f: NumericField): string {
    var name := NumericFieldName(f);
    if IsGeometry(f) then Sanitizer.ErrorMessage(name, Sanitizer.KEY_FIELD_CONSTRAINTS, Sanitizer.ConstraintMessage)
    else if f == RotationField then ROTATION_ERROR
    else Sanitizer.ErrorMessage(name, Sanitizer.MATRIX_FIELD_CONSTRAINTS, Sanitizer.ConstraintMessage)
  }

  /** processNumericField, given the value the field's parser produced. */
  function ProcessNumericField(name: string, parsed: Num): (r: Result<Num, string>)
    ensures NumericFieldByName(name).None? ==> r == Failure("Unknown field: " + name)
    ensures NumericFieldByName(name).Some? && r.Failure? ==> r.error == FieldError(NumericFieldByName(name).value)
    ensures name in Sanitizer.KEY_FIELD_CONSTRAINTS ==>
      (r.Success? <==> parsed.R? && Sanitizer.KEY_FIELD_CONSTRAINTS[name].min <= parsed.v <= Sanitizer.KEY_FIELD_CONSTRAINTS[name].max)
    ensures name in Sanitizer.KEY_FIELD_CONSTRAINTS && r.Success? ==> r.value == parsed
    ensures name == "rotation" ==> (r.Success? <==> parsed.R?)
    ensures name == "rotation" && r.Success? ==>
      r.value.R? && -180.0 < r.value.v <= 180.0 && Sanitizer.WholeTurns(parsed.v - r.value.v)
    ensures name in Sanitizer.MATRIX_FIELD_CONSTRAINTS ==>
      (r.Success? <==> parsed.NaN? || Sanitizer.MATRIX_FIELD_CONSTRAINTS[name].min <= parsed.v <= Sanitizer.MATRIX_FIELD_CONSTRAINTS[name].max)
    ensures name in Sanitizer.MATRIX_FIELD_CONSTRAINTS && r.Success? ==> r.value == parsed
  {
    match NumericFieldByName(name)
    case None => Failure("Unknown field: " + name)
    case Some(f) =>
      assert NumericFieldName(f) == name;
      if !ValidateField(f, parsed) then Failure(FieldError(f))
      else Success(TransformField(f, parsed))
  }

  /** The panel's view of the outcome: the in-range values pass through as
      they are, so transforming a valid value never changes it, except that
      rotation is brought into (-180, 180]. */
  lemma ValidValuesPassThrough(name: string, parsed: Num)
    requires name != "rotation"
    requires ProcessNumericField(name, parsed).Success?
    ensures ProcessNumericField(name, parsed).value == parsed
  {}

  /** getNumericFieldUpdate: a one-field update for a valid x, y, width,
      height or rotation; nothing for row, col, an unknown field or an
      invalid value. */
  function NumericFieldUpdate(name: string, parsed: Num): (u: Option<LayoutStore.KeyUpdate>)
    ensures u.Some? <==>
      name in {"x", "y", "width", "height", "rotation"} && ProcessNumericField(name, parsed).Success?
    ensures u.Some? ==> var v := ProcessNumericField(name, parsed).value;
      v.R? && u.value == SetField(name, v.v)
  {
    var result := ProcessNumericField(name, parsed);
    if result.Failure? then None
    else if name in {"x", "y", "width", "height", "rotation"} then
      assert result.value.R?;
      Some(SetField(name, result.value.v))
    else None
  }

  /** `{ [name]: value }` for the five numeric key fields. */
  function SetField(name: string, v: real): (u: LayoutStore.KeyUpdate)
    requires name in {"x", "y", "width", "height", "rotation"}
  {
    var n := LayoutStore.NoUpdate;
    if name == "x" then n.(x := Some(v))
    else if name == "y" then n.(y := Some(v))
    else if name == "width" then n.(width := Some(v))
    else if name == "height" then n.(height := Some(v))
    else n.(rotation := Some(v))
  }

  /** An update from the panel changes only its own field, and only to a
      value that keeps an in-bounds key in bounds. */
  lemma NumericUpdateKeepsBounds(k: Key, name: string, parsed: Num)
    requires Sanitizer.GeometryInBounds(k)
    requires NumericFieldUpdate(name, parsed).Some?
    ensures var k2 := LayoutStore.ApplyUpdate(k, NumericFieldUpdate(name, parsed).value);
      && Sanitizer.GeometryInBounds(k2)
      && (name == "x" ==> k2 == k.(x := parsed.v))
      && (name == "y" ==> k2 == k.(y := parsed.v))
      && (name == "width" ==> k2 == k.(width := parsed.v))
      && (name == "height" ==> k2 == k.(height := parsed.v))
      && (name == "rotation" ==> k2 == k.(rotation := Some(Sanitizer.NormalizeRotation(parsed))))
  {}

  /** The matrix coordinates. */
  datatype MatrixField = Row | Col

  /** getMatrixFieldUpdate, given `parseInt`'s result (`None` for NaN): the
      named coordinate becomes the parsed value when it is in range and unset
      when the input was empty or out of range; the other coordinate stays. */
  function MatrixFieldUpdate(current: Matrix, field: MatrixField, parsed: Option<int>): (m: Matrix)
    ensures field == Row ==> m.col == current.col
    ensures field == Col ==> m.row == current.row
    ensures var coord := if field == Row then m.row else m.col;
      var max := if field == Row then Config.MAX_MATRIX_ROW else Config.MAX_MATRIX_COL;
      coord == if parsed.Some? && 0 <= parsed.value && parsed.value as real <= max then parsed else None
  {
    var name := if field == Row then "row" else "col";
    var num := match parsed case Some(n) => R(n as real) case None => NaN;
    var result := ProcessNumericField(name, num);
    var value: Option<int> := match result
      case Success(R(x)) => Some(x.Floor)
      case _ => None;
    if field == Row then current.(row := value) else current.(col := value)
  }

  /** Setting a coordinate from an empty input unsets it, and re-entering
      the value it shows sets it back. */
  lemma MatrixFieldRoundTrip(current: Matrix, field: MatrixField, n: int)
    requires 0 <= n <= 32
    ensures var cleared := MatrixFieldUpdate(current, field, None);
      (if field == Row then cleared.row else cleared.col).None?
      && MatrixFieldUpdate(cleared, field, Some(n)) == MatrixFieldUpdate(current, field, Some(n))
  {}

  /** processTextField. */
  function ProcessTextField(name: string, raw: string): (r: Result<string, string>)
    ensures name !in Sanitizer.TEXT_FIELD_CONSTRAINTS ==> r == Failure("Unknown field: " + name)
    ensures name in Sanitizer.TEXT_FIELD_CONSTRAINTS ==>
      (r.Success? <==> |raw| <= Sanitizer.TEXT_FIELD_CONSTRAINTS[name].maxLength)
    ensures r.Success? ==> r.value == raw
    ensures name in Sanitizer.TEXT_FIELD_CONSTRAINTS && r.Failure? ==>
      r.error == Sanitizer.TEXT_FIELD_CONSTRAINTS[name].errorMessage
  {
    if name !in Sanitizer.TEXT_FIELD_CONSTRAINTS then Failure("Unknown field: " + name)
    else if !Sanitizer.ValidateText(name, raw, Sanitizer.TEXT_FIELD_CONSTRAINTS) then
      Failure(Sanitizer.ErrorMessage(name, Sanitizer.TEXT_FIELD_CONSTRAINTS, Sanitizer.TextConstraintMessage))
    else Success(raw)
  }

  /** getLegendFieldUpdate: nothing for over-long text; otherwise only the
      given position changes, and the empty string unsets it. */
  function LegendFieldUpdate(current: Legend, pos: LegendPos, value: string): (r: Option<Legend>)
    ensures r.None? <==> |value| > Config.MAX_LEGEND_LENGTH
    ensures r.Some? && value == "" ==> pos !in r.value
    ensures r.Some? && value != "" ==> pos in r.value && r.value[pos] == value
    ensures r.Some? ==> forall p :: p != pos ==> (p in r.value <==> p in current) && (p in current ==> r.value[p] == current[p])
  {
    var result := ProcessTextField("legend", value);
    if result.Failure? then None
    else if result.value == "" then Some(current - {pos})
    else Some(current[pos := result.value])
  }

  /** Clearing a legend position after setting it is clearing it directly. */
  lemma LegendSetThenClear(current: Legend, pos: LegendPos, value: string)
    requires |value| <= Config.MAX_LEGEND_LENGTH
    ensures LegendFieldUpdate(LegendFieldUpdate(current, pos, value).value, pos, "") == LegendFieldUpdate(current, pos, "")
  {
    assert LegendFieldUpdate(current, pos, value).value - {pos} == current - {pos};
  }

  /** getKeycodeFieldUpdate: a copy of the current map (empty when there is
      none) with the layer's entry set to a non-empty value or removed for
      the empty one; every other layer is kept. */
  function KeycodeFieldUpdate(current: Option<Keycodes>, layer: int, value: string): (r: Keycodes)
    ensures value != "" ==> layer in r && r[layer] == value
    ensures value == "" ==> layer !in r
    ensures forall l :: l != layer ==> (l in r <==> l in current.GetOr(map[])) && (l in r ==> r[l] == current.GetOr(map[])[l])
  {
    var m := current.GetOr(map[]);
    if value != "" then m[layer := value] else m - {layer}
  }

  /** Setting a layer's keycode and then clearing it leaves the map as a
      clear alone would, and setting it twice keeps only the second value. */
  lemma KeycodeSetThenClear(current: Option<Keycodes>, layer: int, v1: string, v2: string)
    requires v2 != ""
    ensures KeycodeFieldUpdate(Some(KeycodeFieldUpdate(current, layer, v1)), layer, "") == KeycodeFieldUpdate(current, layer, "")
    ensures KeycodeFieldUpdate(Some(KeycodeFieldUpdate(current, layer, v1)), layer, v2) == KeycodeFieldUpdate(current, layer, v2)
  {
    var m := current.GetOr(map[]);
    assert KeycodeFieldUpdate(current, layer, v1) - {layer} == m - {layer};
    assert KeycodeFieldUpdate(current, layer, v1)[layer := v2] == m[layer := v2];
  }

  /** LEGEND_FIELD_NAMES: the nine positions by the name the panel uses. */
  function LegendFieldName(p: LegendPos): string {
    match p
    case TopLeft => "topLeft"
    case TopCenter => "topCenter"
    case TopRight => "topRight"
    case CenterLeft => "centerLeft"
    case Center => "center"
    case CenterRight => "centerRight"
    case BottomLeft => "bottomLeft"
    case BottomCenter => "bottomCenter"
    case BottomRight => "bottomRight"
  }

  const LEGEND_FIELD_NAMES: seq<string> := [
    "topLeft", "topCenter", "topRight",
    "centerLeft", "center", "centerRight",
    "bottomLeft", "bottomCenter", "bottomRight"]

  /** isLegendField: the name is one of the nine, and each of the nine names
      exactly one position. */
  predicate IsLegendField(name: string) {
    name in LEGEND_FIELD_NAMES
  }

  lemma LegendFieldNames(name: string)
    ensures IsLegendField(name) <==> exists p :: LegendFieldName(p) == name
    ensures forall p, q :: LegendFieldName(p) == LegendFieldName(q) ==> p == q
  {
    if IsLegendField(name) {
      var i :| 0 <= i < |LEGEND_FIELD_NAMES| && LEGEND_FIELD_NAMES[i] == name;
      assert i == 0 || i == 1 || i == 2 || i == 3 || i == 4 || i == 5 || i == 6 || i == 7 || i == 8;
      if i == 0 { assert LegendFieldName(TopLeft) == name; }
      else if i == 1 { assert LegendFieldName(TopCenter) == name; }
      else if i == 2 { assert LegendFieldName(TopRight) == name; }
      else if i == 3 { assert LegendFieldName(CenterLeft) == name; }
      else if i == 4 { assert LegendFieldName(Center) == name; }
      else if i == 5 { assert LegendFieldName(CenterRight) == name; }
      else if i == 6 { assert LegendFieldName(BottomLeft) == name; }
      else if i == 7 { assert LegendFieldName(BottomCenter) == name; }
      else { assert LegendFieldName(BottomRight) == name; }
    }
  }
}
