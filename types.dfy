/** Types shared by every component of the patch-to-map join. */
module PatchTypes {

  /** An unsigned 32-bit integer (`uint32_t`): the element type of the scanline buffers. */
  type uint32 = x: int | 0 <= x < 0x1_0000_0000

  datatype Option<+T> = None | Some(value: T)

  /** A `pair<int, int>` of the patch index: `first` is the column, `second` the row. */
  datatype Coord = Coord(x: int, y: int)

  /** The four categorical values of one pixel, in key order. */
  datatype Quad = Quad(basin: uint32, hills: uint32, zone: uint32, patch: uint32)

  /** Strict row-major order on pixel coordinates: earlier row, or same row and earlier column. */
  predicate RowMajorBefore(a: Coord, b: Coord) {
    a.y < b.y || (a.y == b.y && a.x < b.x)
  }
}
