/** Build-time configuration of the editor (src/constants/app-config.ts and
    src/constants/rendering.ts). */
module Config {

  /** Maximum number of undo/redo snapshots kept. */
  const MAX_HISTORY_STATES: nat := 20

  /** Bounds of a layout's layer count. */
  const MAX_LAYER_COUNT: int := 16
  const MIN_LAYER_COUNT: int := 1

  /** Key size bounds, in u-units. */
  const MIN_KEY_SIZE: real := 0.25
  const DEFAULT_KEY_SIZE: real := 1.0

  /** Position and size upper bounds, in u-units. */
  const MAX_KEY_X: real := 50.0
  const MAX_KEY_Y: real := 20.0
  const MAX_KEY_WIDTH: real := 15.0
  const MAX_KEY_HEIGHT: real := 5.0

  /** Largest matrix row / column index. */
  const MAX_MATRIX_ROW: real := 32.0
  const MAX_MATRIX_COL: real := 32.0

  /** Keyboard-shortcut steps: degrees per rotation, u-units per move/resize. */
  const ROTATION_STEP: real := 3.0
  const MOVE_STEP: real := 0.25

  /** Text length limits. */
  const MAX_LEGEND_LENGTH: nat := 10
  const MAX_LAYOUT_NAME_LENGTH: nat := 50
  const MAX_AUTHOR_LENGTH: nat := 50
  const MAX_DESCRIPTION_LENGTH: nat := 200

  /** Pixels per u-unit on the canvas. */
  const KEY_UNIT: real := 54.0

  /** The transparent (fall-through) keycode given to new layers and missing entries. */
  const TRANSPARENT: string := "KC_TRNS"
}
