/** Anchor placement: the (left, top) offset of an image of one size placed
    inside a canvas of another, at one of nine named anchors. */
module Placement {

  /** The nine anchors; Centre is also what the source does for any other
      position value. */
  datatype Position = Centre | Top | Right | Bottom | Left | TopRight | BottomRight | BottomLeft | TopLeft

  const Int32Min := -0x8000_0000
  const Int32Max := 0x7fff_ffff

  predicate IsInt32(x: int) {
    Int32Min <= x <= Int32Max
  }

  /** C++ integer division, which truncates toward zero (Dafny's `/` is
      Euclidean and rounds negative quotients down instead). */
  function TruncDiv(a: int, b: int): (q: int)
    requires b > 0
    ensures a >= 0 ==> 0 <= a - q * b < b
    ensures a < 0 ==> -b < a - q * b <= 0
  {
    if a >= 0 then a / b else -((-a) / b)
  }

  /** Where an anchor puts the image along one axis. */
  datatype Align = Start | Middle | End

  function HorizontalAlign(pos: Position): Align {
    match pos
    case TopLeft | Left | BottomLeft => Start
    case Top | Centre | Bottom => Middle
    case TopRight | Right | BottomRight => End
  }

  function VerticalAlign(pos: Position): Align {
    match pos
    case TopLeft | Top | TopRight => Start
    case Left | Centre | Right => Middle
    case BottomLeft | Bottom | BottomRight => End
  }

  /** The offset along one axis whose free space (canvas minus image) is delta. */
  function AxisOffset(align: Align, delta: int): int {
    match align
    case Start => 0
    case Middle => TruncDiv(delta, 2)
    case End => delta
  }

  /** The (left, top) of an inWidth x inHeight image anchored at pos inside an
      outWidth x outHeight canvas. No clamping: a smaller canvas gives
      negative offsets. The requires clause rules out 32-bit overflow of
      the two differences. */
  function CalculatePosition(inWidth: int, inHeight: int, outWidth: int, outHeight: int, pos: Position): (r: (int, int))
    requires IsInt32(inWidth) && IsInt32(inHeight) && IsInt32(outWidth) && IsInt32(outHeight)
    requires IsInt32(outWidth - inWidth) && IsInt32(outHeight - inHeight)
    ensures r.0 == AxisOffset(HorizontalAlign(pos), outWidth - inWidth)
    ensures r.1 == AxisOffset(VerticalAlign(pos), outHeight - inHeight)
  {
    var dw, dh := outWidth - inWidth, outHeight - inHeight;
    match pos
    case Top => (TruncDiv(dw, 2), 0)
    case Right => (dw, TruncDiv(dh, 2))
    case Bottom => (TruncDiv(dw, 2), dh)
    case Left => (0, TruncDiv(dh, 2))
    case TopRight => (dw, 0)
    case BottomRight => (dw, dh)
    case BottomLeft => (0, dh)
    case TopLeft => (0, 0)
    case Centre => (TruncDiv(dw, 2), TruncDiv(dh, 2))
  }

  /** The corners: TopLeft is the origin, BottomRight absorbs all the free space. */
  lemma CalculatePositionCorners(inWidth: int, inHeight: int, outWidth: int, outHeight: int)
    requires IsInt32(inWidth) && IsInt32(inHeight) && IsInt32(outWidth) && IsInt32(outHeight)
    requires IsInt32(outWidth - inWidth) && IsInt32(outHeight - inHeight)
    ensures CalculatePosition(inWidth, inHeight, outWidth, outHeight, TopLeft) == (0, 0)
    ensures CalculatePosition(inWidth, inHeight, outWidth, outHeight, BottomRight) == (outWidth - inWidth, outHeight - inHeight)
  {
  }

  /** A centred axis splits the free space into two margins that differ by at
      most one pixel; for negative free space the quotient is truncated toward
      zero, so the larger overhang is on the far side. */
  lemma MiddleSplitsFreeSpace(delta: int)
    ensures var o := AxisOffset(Middle, delta);
      (delta >= 0 ==> 0 <= o && o <= delta - o <= o + 1) &&
      (delta < 0 ==> delta <= o <= 0 && o - 1 <= delta - o <= o)
  {
  }

  /** When the canvas is at least as large as the image on both axes, every
      anchor keeps the image inside the canvas. */
  lemma CalculatePositionWithinCanvas(inWidth: int, inHeight: int, outWidth: int, outHeight: int, pos: Position)
    requires IsInt32(inWidth) && IsInt32(inHeight) && IsInt32(outWidth) && IsInt32(outHeight)
    requires IsInt32(outWidth - inWidth) && IsInt32(outHeight - inHeight)
    requires outWidth >= inWidth && outHeight >= inHeight
    ensures var (left, top) := CalculatePosition(inWidth, inHeight, outWidth, outHeight, pos);
      0 <= left <= outWidth - inWidth && 0 <= top <= outHeight - inHeight
  {
    MiddleSplitsFreeSpace(outWidth - inWidth);
    MiddleSplitsFreeSpace(outHeight - inHeight);
  }

  lemma CalculatePositionExamples()
    ensures CalculatePosition(50, 50, 100, 100, TopLeft) == (0, 0)
    ensures CalculatePosition(50, 50, 100, 100, Centre) == (25, 25)
    ensures CalculatePosition(50, 50, 100, 100, BottomRight) == (50, 50)
    ensures CalculatePosition(50, 50, 100, 100, Right) == (50, 25)
    ensures CalculatePosition(105, 51, 100, 100, Centre) == (-2, 24)
  {
  }
}
