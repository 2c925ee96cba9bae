/** Box representations and the grid of cells that the anchor layout
    places its centres on.

    The encoder works with two box forms: corner form (xmin, ymin, xmax,
    ymax), in which ground truth arrives, and centre form (cx, cy, w, h),
    in which anchors are laid out and targets are computed.  The
    conversion and the cell grid come from a helper file that is not part
    of this model; the conversion here is the usual corner/centre one with
    w = xmax - xmin (no +1 pixel), and the grid lists cells row by row with
    x varying fastest. */
module Boxes {

  /** Width and height of an anchor, one entry of the anchor table. */
  datatype Size = Size(w: real, h: real)

  /** A box in centre form: centre x, centre y, width, height. */
  datatype Box = Box(cx: real, cy: real, w: real, h: real)

  /** A box in corner form: top-left and bottom-right corners. */
  datatype Corners = Corners(xmin: real, ymin: real, xmax: real, ymax: real)

  /** A point, the centre of a grid cell in pixels. */
  datatype Point = Point(x: real, y: real)

  /** One grid cell, x the column and y the row. */
  datatype Cell = Cell(x: nat, y: nat)

  /** Corner form to centre form ('xyxy2xywh'). */
  function ToCenter(b: Corners): (r: Box)
    ensures ToCorners(r) == b
  {
    Box((b.xmin + b.xmax) / 2.0, (b.ymin + b.ymax) / 2.0, b.xmax - b.xmin, b.ymax - b.ymin)
  }

  /** Centre form to corner form ('xywh2xyxy'). */
  function ToCorners(b: Box): (r: Corners)
    ensures r.xmax - r.xmin == b.w && r.ymax - r.ymin == b.h
    ensures r.xmin + r.xmax == 2.0 * b.cx && r.ymin + r.ymax == 2.0 * b.cy
  {
    Corners(b.cx - b.w / 2.0, b.cy - b.h / 2.0, b.cx + b.w / 2.0, b.cy + b.h / 2.0)
  }

  /** The two conversions undo each other, in both orders. */
  lemma ConversionRoundTrip(c: Corners, b: Box)
    ensures ToCorners(ToCenter(c)) == c
    ensures ToCenter(ToCorners(b)) == b
  {
  }

  /** Multiplies every coordinate by k, as `boxes * input_size` does. */
  function Scale(b: Box, k: real): (r: Box)
    ensures ToCorners(r) == ScaleCorners(ToCorners(b), k)
  {
    Box(b.cx * k, b.cy * k, b.w * k, b.h * k)
  }

  /** Multiplies the corner coordinates by k. */
  function ScaleCorners(c: Corners, k: real): Corners
  {
    Corners(c.xmin * k, c.ymin * k, c.xmax * k, c.ymax * k)
  }

  /** The fm x fm grid of cells in row-major order with x varying fastest:
      cell c is column c % fm of row c / fm. */
  function Meshgrid(fm: nat): (cells: seq<Cell>)
    ensures |cells| == fm * fm
  {
    seq(fm * fm, c requires 0 <= c < fm * fm => Cell(c % fm, c / fm))
  }
}
