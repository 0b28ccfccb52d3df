/** The quads that the decorators generate for the frame of a window. */
module DecorQuads {
  import opened DecorProperty
  import ViewportMath

  const GRAVITY_WEST: bv32 := 1
  const GRAVITY_EAST: bv32 := 2
  const GRAVITY_NORTH: bv32 := 4
  const GRAVITY_SOUTH: bv32 := 8

  const ALIGN_LEFT: bv32 := 0
  const ALIGN_RIGHT: bv32 := 1
  const ALIGN_TOP: bv32 := 0
  const ALIGN_BOTTOM: bv32 := 2

  const CLAMP_VERT: bv32 := 2

  const SHRT_MAX := 32767

  datatype Context = Context(leftSpace: int, rightSpace: int, topSpace: int, bottomSpace: int,
                             leftCornerSpace: int, rightCornerSpace: int, topCornerSpace: int, bottomCornerSpace: int)

  datatype Box = Box(x1: int, y1: int, x2: int, y2: int)

  datatype Layout = Layout(left: Box, right: Box, top: Box, bottom: Box, rotation: bool)

  function VertQuadRow(top: int, topCorner: int, bottom: int, bottomCorner: int, left: int, right: int, gravity: bv32,
                       height: int, splitY: int, splitGravity: bv32, x0: real, y0: real, rotation: bool): seq<Quad>
  {
    var upper := Quad(Point(left, -top, gravity | GRAVITY_NORTH), Point(right, splitY, gravity | splitGravity),
                      SHRT_MAX, top + topCorner, ALIGN_TOP, CLAMP_VERT, 0,
                      if rotation then Matrix(0.0, 1.0, 1.0, 0.0, x0, y0) else Matrix(1.0, 0.0, 0.0, 1.0, x0, y0));
    var middle := Quad(Point(left, topCorner, gravity | GRAVITY_NORTH), Point(right, -bottomCorner, gravity | GRAVITY_SOUTH),
                       SHRT_MAX, SHRT_MAX, 0, CLAMP_VERT, 0,
                       if rotation then Matrix(0.0, 1.0, 0.0, 0.0, x0 + (top + topCorner) as real, y0)
                       else Matrix(1.0, 0.0, 0.0, 0.0, x0, y0 + (top + topCorner) as real));
    var lower := Quad(Point(left, splitY, gravity | splitGravity), Point(right, bottom, gravity | GRAVITY_SOUTH),
                      SHRT_MAX, bottomCorner + bottom, ALIGN_BOTTOM, CLAMP_VERT, 0,
                      if rotation then Matrix(0.0, 1.0, 1.0, 0.0, x0 + height as real, y0)
                      else Matrix(1.0, 0.0, 0.0, 1.0, x0, y0 + height as real));
    [upper, middle, lower]
  }

  function HorzQuadLine(left: int, leftCorner: int, right: int, rightCorner: int, top: int, bottom: int, gravity: bv32,
                        width: int, splitX: int, splitGravity: bv32, x0: real, y0: real): seq<Quad>
  {
    [Quad(Point(-left, top, gravity | GRAVITY_WEST), Point(splitX, bottom, gravity | splitGravity),
          left + leftCorner, SHRT_MAX, ALIGN_LEFT, 0, 0, Matrix(1.0, 0.0, 0.0, 1.0, x0, y0)),
     Quad(Point(leftCorner, top, gravity | GRAVITY_WEST), Point(-rightCorner, bottom, gravity | GRAVITY_EAST),
          SHRT_MAX, SHRT_MAX, 0, 0, 0, Matrix(0.0, 0.0, 0.0, 1.0, x0 + (left + leftCorner) as real, y0)),
     Quad(Point(splitX, top, gravity | splitGravity), Point(right, bottom, gravity | GRAVITY_EAST),
          rightCorner + right, SHRT_MAX, ALIGN_RIGHT, 0, 0, Matrix(1.0, 0.0, 0.0, 1.0, x0 + width as real, y0))]
  }

  function SideHeight(b: Box, rotation: bool): int {
    if rotation then b.x2 - b.x1 else b.y2 - b.y1
  }

  /** The quads of the sides, both stretched in the middle. */
  function SideQuads(c: Context, l: Layout): seq<Quad> {
    var splitY := ViewportMath.Quot(c.topCornerSpace - c.bottomCornerSpace, 2);
    VertQuadRow(0, c.topCornerSpace, 0, c.bottomCornerSpace, -c.leftSpace, 0, GRAVITY_WEST, SideHeight(l.left, l.rotation),
                splitY, 0, l.left.x1 as real, l.left.y1 as real, l.rotation)
    + VertQuadRow(0, c.topCornerSpace, 0, c.bottomCornerSpace, 0, c.rightSpace, GRAVITY_EAST, SideHeight(l.right, l.rotation),
                  splitY, 0, l.right.x1 as real, l.right.y1 as real, l.rotation)
  }

  /** The quads of a side that is stretched at an offset from its top. */
  function OffsetSideQuads(offset: int, left: int, right: int, gravity: bv32, b: Box, rotation: bool): seq<Quad> {
    var h := SideHeight(b, rotation);
    VertQuadRow(0, offset, 0, h - offset - 1, left, right, gravity, h, -(h - offset - 1), GRAVITY_SOUTH,
                b.x1 as real, b.y1 as real, rotation)
  }

  /** The quads of an edge that is stretched in the middle. */
  function EdgeQuads(c: Context, top: int, bottom: int, gravity: bv32, b: Box): seq<Quad> {
    HorzQuadLine(c.leftSpace, c.leftCornerSpace, c.rightSpace, c.rightCornerSpace, top, bottom, gravity, b.x2 - b.x1,
                 ViewportMath.Quot(c.leftCornerSpace - c.rightCornerSpace, 2), 0, b.x1 as real, b.y1 as real)
  }

  /** The quads of an edge that is stretched at an offset from its left end. */
  function OffsetEdgeQuads(offset: int, c: Context, top: int, bottom: int, gravity: bv32, b: Box): seq<Quad> {
    var rest := b.x2 - b.x1 - c.leftSpace - c.rightSpace - offset - 1;
    HorzQuadLine(c.leftSpace, offset, c.rightSpace, rest, top, bottom, gravity, b.x2 - b.x1, -rest, GRAVITY_EAST,
                 b.x1 as real, b.y1 as real)
  }

  /** Where the edges and sides of a frame are stretched: in the middle, or at an offset. */
  datatype Stretch =
    | AllMiddle
    | TopAt(topOffset: int)
    | BottomAt(bottomOffset: int)
    | AllAt(leftOffset: int, rightOffset: int, topOffset: int, bottomOffset: int)

  function WindowQuads(c: Context, l: Layout, s: Stretch): seq<Quad> {
    match s
    case AllMiddle =>
      EdgeQuads(c, -c.topSpace, 0, GRAVITY_NORTH, l.top) + SideQuads(c, l)
      + EdgeQuads(c, 0, c.bottomSpace, GRAVITY_SOUTH, l.bottom)
    case TopAt(topOffset) =>
      OffsetEdgeQuads(topOffset, c, -c.topSpace, 0, GRAVITY_NORTH, l.top) + SideQuads(c, l)
      + EdgeQuads(c, 0, c.bottomSpace, GRAVITY_SOUTH, l.bottom)
    case BottomAt(bottomOffset) =>
      EdgeQuads(c, -c.topSpace, 0, GRAVITY_NORTH, l.top) + SideQuads(c, l)
      + OffsetEdgeQuads(bottomOffset, c, 0, c.bottomSpace, GRAVITY_SOUTH, l.bottom)
    case AllAt(leftOffset, rightOffset, topOffset, bottomOffset) =>
      OffsetEdgeQuads(topOffset, c, -c.topSpace, 0, GRAVITY_NORTH, l.top)
      + OffsetSideQuads(leftOffset, -c.leftSpace, 0, GRAVITY_WEST, l.left, l.rotation)
      + OffsetSideQuads(rightOffset, 0, c.rightSpace, GRAVITY_EAST, l.right, l.rotation)
      + OffsetEdgeQuads(bottomOffset, c, 0, c.bottomSpace, GRAVITY_SOUTH, l.bottom)
  }

  ghost predicate AllStorable(quads: seq<Quad>) {
    forall i :: 0 <= i < |quads| ==> Storable(quads[i])
  }

  lemma GravityFits(a: bv32, b: bv32)
    requires a <= 0xf && b <= 0xf
    ensures a | b <= 0xf
  {
  }

  lemma WholeSum(n: int, x: real)
    requires x == Trunc(x) as real
    ensures x + n as real == Trunc(x + n as real) as real
  {
    assert x + n as real == (Trunc(x) + n) as real;
    TruncWhole(Trunc(x) + n);
  }

  lemma VertStorable(top: int, topCorner: int, bottom: int, bottomCorner: int, left: int, right: int, gravity: bv32,
                     height: int, splitY: int, splitGravity: bv32, x0: int, y0: int, rotation: bool)
    requires gravity <= 0xf && splitGravity <= 0xf
    ensures AllStorable(VertQuadRow(top, topCorner, bottom, bottomCorner, left, right, gravity, height, splitY, splitGravity,
                                    x0 as real, y0 as real, rotation))
  {
    hide Trunc;
    TruncWhole(x0);
    TruncWhole(y0);
    WholeSum(top + topCorner, x0 as real);
    WholeSum(top + topCorner, y0 as real);
    WholeSum(height, x0 as real);
    WholeSum(height, y0 as real);
    GravityFits(gravity, GRAVITY_NORTH);
    GravityFits(gravity, GRAVITY_SOUTH);
    GravityFits(gravity, splitGravity);
  }

  lemma HorzStorable(left: int, leftCorner: int, right: int, rightCorner: int, top: int, bottom: int, gravity: bv32,
                     width: int, splitX: int, splitGravity: bv32, x0: int, y0: int)
    requires gravity <= 0xf && splitGravity <= 0xf
    ensures AllStorable(HorzQuadLine(left, leftCorner, right, rightCorner, top, bottom, gravity, width, splitX, splitGravity,
                                     x0 as real, y0 as real))
  {
    hide Trunc;
    TruncWhole(x0);
    TruncWhole(y0);
    WholeSum(left + leftCorner, x0 as real);
    WholeSum(width, x0 as real);
    GravityFits(gravity, GRAVITY_WEST);
    GravityFits(gravity, GRAVITY_EAST);
    GravityFits(gravity, splitGravity);
  }

  lemma StorableConcat(a: seq<Quad>, b: seq<Quad>)
    requires AllStorable(a) && AllStorable(b)
    ensures AllStorable(a + b)
  {
    hide Storable;
  }

  lemma SideStorable(c: Context, l: Layout)
    ensures AllStorable(SideQuads(c, l)) && |SideQuads(c, l)| == 6
  {
    hide AllStorable;
    var splitY := ViewportMath.Quot(c.topCornerSpace - c.bottomCornerSpace, 2);
    VertStorable(0, c.topCornerSpace, 0, c.bottomCornerSpace, -c.leftSpace, 0, GRAVITY_WEST, SideHeight(l.left, l.rotation),
                 splitY, 0, l.left.x1, l.left.y1, l.rotation);
    VertStorable(0, c.topCornerSpace, 0, c.bottomCornerSpace, 0, c.rightSpace, GRAVITY_EAST, SideHeight(l.right, l.rotation),
                 splitY, 0, l.right.x1, l.right.y1, l.rotation);
    StorableConcat(SideQuads(c, l)[..3], SideQuads(c, l)[3..]);
  }

  lemma EdgeStorable(c: Context, top: int, bottom: int, gravity: bv32, b: Box, offset: int)
    requires gravity <= 0xf
    ensures AllStorable(EdgeQuads(c, top, bottom, gravity, b)) && |EdgeQuads(c, top, bottom, gravity, b)| == 3
    ensures AllStorable(OffsetEdgeQuads(offset, c, top, bottom, gravity, b))
    ensures |OffsetEdgeQuads(offset, c, top, bottom, gravity, b)| == 3
  {
    hide AllStorable;
    HorzStorable(c.leftSpace, c.leftCornerSpace, c.rightSpace, c.rightCornerSpace, top, bottom, gravity, b.x2 - b.x1,
                 ViewportMath.Quot(c.leftCornerSpace - c.rightCornerSpace, 2), 0, b.x1, b.y1);
    var rest := b.x2 - b.x1 - c.leftSpace - c.rightSpace - offset - 1;
    HorzStorable(c.leftSpace, offset, c.rightSpace, rest, top, bottom, gravity, b.x2 - b.x1, -rest, GRAVITY_EAST, b.x1, b.y1);
  }

  lemma OffsetSideStorable(offset: int, left: int, right: int, gravity: bv32, b: Box, rotation: bool)
    requires gravity <= 0xf
    ensures AllStorable(OffsetSideQuads(offset, left, right, gravity, b, rotation))
    ensures |OffsetSideQuads(offset, left, right, gravity, b, rotation)| == 3
  {
    hide AllStorable;
    var h := SideHeight(b, rotation);
    VertStorable(0, offset, 0, h - offset - 1, left, right, gravity, h, -(h - offset - 1), GRAVITY_SOUTH, b.x1, b.y1, rotation);
  }

  /** All quads of a frame can be stored, whatever the context and the layout, and there are twelve. */
  lemma WindowStorable(c: Context, l: Layout, s: Stretch)
    ensures AllStorable(WindowQuads(c, l, s)) && |WindowQuads(c, l, s)| == 12
  {
    hide AllStorable, EdgeQuads, OffsetEdgeQuads, SideQuads, OffsetSideQuads;
    var topOffset := if s.TopAt? || s.AllAt? then s.topOffset else 0;
    var bottomOffset := if s.BottomAt? || s.AllAt? then s.bottomOffset else 0;
    EdgeStorable(c, -c.topSpace, 0, GRAVITY_NORTH, l.top, topOffset);
    EdgeStorable(c, 0, c.bottomSpace, GRAVITY_SOUTH, l.bottom, bottomOffset);
    SideStorable(c, l);
    if s.AllAt? {
      OffsetSideStorable(s.leftOffset, -c.leftSpace, 0, GRAVITY_WEST, l.left, l.rotation);
      OffsetSideStorable(s.rightOffset, 0, c.rightSpace, GRAVITY_EAST, l.right, l.rotation);
      var left := OffsetSideQuads(s.leftOffset, -c.leftSpace, 0, GRAVITY_WEST, l.left, l.rotation);
      var right := OffsetSideQuads(s.rightOffset, 0, c.rightSpace, GRAVITY_EAST, l.right, l.rotation);
      var top := OffsetEdgeQuads(topOffset, c, -c.topSpace, 0, GRAVITY_NORTH, l.top);
      StorableConcat(top, left);
      StorableConcat(top + left, right);
      StorableConcat(top + left + right, OffsetEdgeQuads(bottomOffset, c, 0, c.bottomSpace, GRAVITY_SOUTH, l.bottom));
    } else {
      var top := if s.TopAt? then OffsetEdgeQuads(topOffset, c, -c.topSpace, 0, GRAVITY_NORTH, l.top)
                 else EdgeQuads(c, -c.topSpace, 0, GRAVITY_NORTH, l.top);
      var bottom := if s.BottomAt? then OffsetEdgeQuads(bottomOffset, c, 0, c.bottomSpace, GRAVITY_SOUTH, l.bottom)
                    else EdgeQuads(c, 0, c.bottomSpace, GRAVITY_SOUTH, l.bottom);
      StorableConcat(top, SideQuads(c, l));
      StorableConcat(top + SideQuads(c, l), bottom);
    }
  }

  /** What is generated for a frame and written into a slot is read back from it, and no other slot changes. */
  lemma GeneratedRoundTrip(data: seq<int>, n: nat, b: Base, c: Context, l: Layout, s: Stretch)
    requires SlotStart(n + 1) <= |data|
    ensures var quads := WindowQuads(c, l, s);
            && |quads| == 12
            && var r := Overwritten(data, SlotStart(n), DecorationWords(b, quads));
               && BaseAt(r, SlotStart(n)) == b && r[SlotStart(n) + BASE_PROP_SIZE] == |quads|
               && QuadsAt(r, SlotStart(n) + BASE_WORDS, |quads|) == quads && OthersKept(data, r, n)
  {
    hide WindowQuads, Storable, BaseAt, QuadsAt, Overwritten, DecorationWords, OthersKept;
    WindowStorable(c, l, s);
    var quads := WindowQuads(c, l, s);
    assert forall q :: q in quads ==> Storable(q);
    PropertyRoundTrip(data, n, b, quads);
    SlotKeptIff(n, b, quads);
  }
}
