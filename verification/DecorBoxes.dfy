/** Where the generated quads lie on a window: their points follow gravity, and what is larger than a quad may be
    is cut off. */
module DecorBoxes {
  import opened DecorProperty
  import opened DecorQuads
  import ViewportMath

  const CLAMP_HORZ: bv32 := 1
  const STRETCH_X: bv32 := 1
  const STRETCH_Y: bv32 := 2

  function Min(a: int, b: int): int {
    if a < b then a else b
  }

  function Max(a: int, b: int): int {
    if a < b then b else a
  }

  /** A coordinate on a window of this size, counted from its end, its start or its middle. */
  function Gravitated(toEnd: bool, toStart: bool, at: int, size: nat): int {
    if toEnd then Max(0, at + size)
    else if toStart then Min(size, at)
    else Min(size, Max(0, at + size / 2))
  }

  function PlaceX(p: Point, width: nat): int {
    Gravitated(p.gravity & GRAVITY_EAST != 0, p.gravity & GRAVITY_WEST != 0, p.x, width)
  }

  function PlaceY(p: Point, height: nat): int {
    Gravitated(p.gravity & GRAVITY_SOUTH != 0, p.gravity & GRAVITY_NORTH != 0, p.y, height)
  }

  /** What is left of a span that is cut off at `most`, at its start or at its end. */
  function Cut(from: int, to: int, most: int, atStart: bool): (int, int) {
    if most >= to - from then (from, to) else if atStart then (to - most, to) else (from, from + most)
  }

  /** The part of a window of this size that a quad is drawn on. */
  function QuadBox(q: Quad, width: nat, height: nat): Box {
    var x1, x2 := PlaceX(q.p1, width), PlaceX(q.p2, width);
    var y1, y2 := PlaceY(q.p1, height), PlaceY(q.p2, height);
    var (left, right) := if q.clamp & CLAMP_HORZ != 0 then (Max(0, x1), Min(width, x2)) else (x1, x2);
    var (top, bottom) := if q.clamp & CLAMP_VERT != 0 then (Max(0, y1), Min(height, y2)) else (y1, y2);
    var (a, b) := if q.stretch & STRETCH_X != 0 then (left, right)
                  else Cut(left, right, q.maxWidth, q.align & ALIGN_RIGHT != 0);
    var (c, d) := if q.stretch & STRETCH_Y != 0 then (top, bottom)
                  else Cut(top, bottom, q.maxHeight, q.align & ALIGN_BOTTOM != 0);
    Box(a, c, b, d)
  }

  predicate Covers(b: Box, x: int, y: int) {
    b.x1 <= x < b.x2 && b.y1 <= y < b.y2
  }

  /** How many of the quads are drawn on a point. */
  function Layers(quads: seq<Quad>, width: nat, height: nat, x: int, y: int): nat {
    if quads == [] then 0
    else (if Covers(QuadBox(quads[0], width, height), x, y) then 1 else 0) + Layers(quads[1..], width, height, x, y)
  }

  lemma {:induction false} LayersConcat(a: seq<Quad>, b: seq<Quad>, width: nat, height: nat, x: int, y: int)
    ensures Layers(a + b, width, height, x, y) == Layers(a, width, height, x, y) + Layers(b, width, height, x, y)
  {
    if a == [] {
      assert a + b == b;
    } else {
      assert (a + b)[1..] == a[1..] + b;
      LayersConcat(a[1..], b, width, height, x, y);
    }
  }

  lemma LayersOfThree(a: Quad, b: Quad, c: Quad, width: nat, height: nat, x: int, y: int)
    ensures Layers([a, b, c], width, height, x, y)
         == (if Covers(QuadBox(a, width, height), x, y) then 1 else 0)
            + (if Covers(QuadBox(b, width, height), x, y) then 1 else 0)
            + (if Covers(QuadBox(c, width, height), x, y) then 1 else 0)
  {
    hide QuadBox;
    assert [a, b, c][1..] == [b, c] && [b, c][1..] == [c] && [c][1..] == [];
    assert Layers([c], width, height, x, y) == if Covers(QuadBox(c, width, height), x, y) then 1 else 0;
    assert Layers([b, c], width, height, x, y)
        == (if Covers(QuadBox(b, width, height), x, y) then 1 else 0) + Layers([c], width, height, x, y);
  }

  /** How many of three spans hold a coordinate: the two ends, of at most these lengths, up to where they meet at
      `split`, and the middle between the corners. */
  function Spans(before: int, corner: int, after: int, corner1: int, split: int, size: nat, at: int): nat {
    var (a, b) := Cut(Min(size, -before), split, before + corner, false);
    var (c, d) := Cut(split, Max(0, after + size), corner1 + after, true);
    (if a <= at < b then 1 else 0)
    + (if Min(size, corner) <= at < Max(0, size - corner1) then 1 else 0)
    + (if c <= at < d then 1 else 0)
  }

  /** The corners do not just meet at a coordinate that the halves of an odd size and an odd difference miss. */
  predicate MeetsWell(corner: int, corner1: int, size: nat) {
    size == corner + corner1 && corner1 < corner ==> (corner - corner1) % 2 == 0
  }

  /** Stretched in the middle, the three spans make up all of a side exactly then. */
  lemma MiddleSpans(before: int, corner: int, after: int, corner1: int, size: nat, at: int)
    requires before >= 0 && corner >= 0 && after >= 0 && corner1 >= 0
    ensures var split := Gravitated(false, false, ViewportMath.Quot(corner - corner1, 2), size);
            Spans(before, corner, after, corner1, split, size, at)
            == if -before <= at < size + after && (MeetsWell(corner, corner1, size) || at != corner - 1) then 1 else 0
  {
  }

  /** Stretched at an offset, they always do. */
  lemma OffsetSpans(before: int, offset: int, after: int, rest: int, size: nat, at: int)
    requires before >= 0 && offset >= 0 && after >= 0 && rest >= 0
    ensures Spans(before, offset, after, rest, Gravitated(true, false, -rest, size), size, at)
         == if -before <= at < size + after then 1 else 0
  {
  }

  /** The quads of an edge above or below the window: three spans along its width. */
  lemma LineLayers(left: int, leftCorner: int, right: int, rightCorner: int, top: int, bottom: int, gravity: bv32,
                   b: int, splitX: int, splitGravity: bv32, x0: real, y0: real, width: nat, height: nat, x: int, y: int)
    requires gravity in {GRAVITY_NORTH, GRAVITY_SOUTH} && splitGravity in {0, GRAVITY_EAST}
    requires leftCorner >= 0 && rightCorner >= 0 && bottom - top <= SHRT_MAX && width <= SHRT_MAX
    requires if gravity == GRAVITY_NORTH then top <= bottom == 0 else 0 == top <= bottom
    ensures var split := Gravitated(splitGravity == GRAVITY_EAST, false, splitX, width);
            var from := if gravity == GRAVITY_NORTH then top else height;
            Layers(HorzQuadLine(left, leftCorner, right, rightCorner, top, bottom, gravity, b, splitX, splitGravity,
                                x0, y0), width, height, x, y)
            == if from <= y < from + (bottom - top)
               then Spans(left, leftCorner, right, rightCorner, split, width, x) else 0
  {
    hide Layers;
    var q := HorzQuadLine(left, leftCorner, right, rightCorner, top, bottom, gravity, b, splitX, splitGravity, x0, y0);
    LayersOfThree(q[0], q[1], q[2], width, height, x, y);
  }

  /** The quads of a side of the window: three spans along its height. */
  lemma RowLayers(topCorner: int, bottomCorner: int, left: int, right: int, gravity: bv32, b: int, splitY: int,
                  splitGravity: bv32, x0: real, y0: real, rotation: bool, width: nat, height: nat, x: int, y: int)
    requires gravity in {GRAVITY_WEST, GRAVITY_EAST} && splitGravity in {0, GRAVITY_SOUTH}
    requires topCorner >= 0 && bottomCorner >= 0 && right - left <= SHRT_MAX && height <= SHRT_MAX
    requires splitGravity == GRAVITY_SOUTH ==> splitY <= 0
    requires if gravity == GRAVITY_WEST then left <= right == 0 else 0 == left <= right
    ensures var split := Gravitated(splitGravity == GRAVITY_SOUTH, false, splitY, height);
            var from := if gravity == GRAVITY_WEST then left else width;
            Layers(VertQuadRow(0, topCorner, 0, bottomCorner, left, right, gravity, b, splitY, splitGravity, x0, y0,
                               rotation), width, height, x, y)
            == if from <= x < from + (right - left)
               then Spans(0, topCorner, 0, bottomCorner, split, height, y) else 0
  {
    hide Layers;
    var q := VertQuadRow(0, topCorner, 0, bottomCorner, left, right, gravity, b, splitY, splitGravity, x0, y0,
                         rotation);
    LayersOfThree(q[0], q[1], q[2], width, height, x, y);
  }

  /** A point of the frame: between the extents, but not on the window. */
  predicate OnFrame(c: Context, width: nat, height: nat, x: int, y: int) {
    && -c.leftSpace <= x < width + c.rightSpace && -c.topSpace <= y < height + c.bottomSpace
    && !(0 <= x < width && 0 <= y < height)
  }

  /** Spaces and corners as the decorators have them. */
  predicate Proper(c: Context) {
    && 0 <= c.leftSpace <= SHRT_MAX && 0 <= c.rightSpace <= SHRT_MAX
    && 0 <= c.topSpace <= SHRT_MAX && 0 <= c.bottomSpace <= SHRT_MAX
    && c.leftCornerSpace >= 0 && c.rightCornerSpace >= 0 && c.topCornerSpace >= 0 && c.bottomCornerSpace >= 0
  }

  /** Where an edge that is stretched in the middle, or at an offset, has a gap: along its length at this place. */
  predicate Gap(corner: int, corner1: int, size: nat, at: int) {
    !MeetsWell(corner, corner1, size) && at == corner - 1
  }

  lemma EdgeLayers(c: Context, top: int, bottom: int, gravity: bv32, b: Box, width: nat, height: nat, x: int, y: int)
    requires Proper(c) && gravity in {GRAVITY_NORTH, GRAVITY_SOUTH} && bottom - top <= SHRT_MAX && width <= SHRT_MAX
    requires if gravity == GRAVITY_NORTH then top <= bottom == 0 else 0 == top <= bottom
    ensures var from := if gravity == GRAVITY_NORTH then top else height;
            Layers(EdgeQuads(c, top, bottom, gravity, b), width, height, x, y)
            == if from <= y < from + (bottom - top) && -c.leftSpace <= x < width + c.rightSpace
                  && !Gap(c.leftCornerSpace, c.rightCornerSpace, width, x) then 1 else 0
  {
    hide Layers, Spans, HorzQuadLine;
    var splitX := ViewportMath.Quot(c.leftCornerSpace - c.rightCornerSpace, 2);
    LineLayers(c.leftSpace, c.leftCornerSpace, c.rightSpace, c.rightCornerSpace, top, bottom, gravity, b.x2 - b.x1,
               splitX, 0, b.x1 as real, b.y1 as real, width, height, x, y);
    MiddleSpans(c.leftSpace, c.leftCornerSpace, c.rightSpace, c.rightCornerSpace, width, x);
  }

  lemma OffsetEdgeLayers(offset: int, c: Context, top: int, bottom: int, gravity: bv32, b: Box, width: nat, height: nat,
                         x: int, y: int)
    requires Proper(c) && gravity in {GRAVITY_NORTH, GRAVITY_SOUTH} && bottom - top <= SHRT_MAX && width <= SHRT_MAX
    requires if gravity == GRAVITY_NORTH then top <= bottom == 0 else 0 == top <= bottom
    requires 0 <= offset && c.leftSpace + c.rightSpace + offset + 1 <= b.x2 - b.x1
    ensures var from := if gravity == GRAVITY_NORTH then top else height;
            Layers(OffsetEdgeQuads(offset, c, top, bottom, gravity, b), width, height, x, y)
            == if from <= y < from + (bottom - top) && -c.leftSpace <= x < width + c.rightSpace then 1 else 0
  {
    hide Layers, Spans, HorzQuadLine;
    var rest := b.x2 - b.x1 - c.leftSpace - c.rightSpace - offset - 1;
    LineLayers(c.leftSpace, offset, c.rightSpace, rest, top, bottom, gravity, b.x2 - b.x1, -rest, GRAVITY_EAST,
               b.x1 as real, b.y1 as real, width, height, x, y);
    OffsetSpans(c.leftSpace, offset, c.rightSpace, rest, width, x);
  }

  lemma SideLayers(c: Context, l: Layout, width: nat, height: nat, x: int, y: int)
    requires Proper(c) && height <= SHRT_MAX
    ensures Layers(SideQuads(c, l), width, height, x, y)
         == if (-c.leftSpace <= x < 0 || width <= x < width + c.rightSpace) && 0 <= y < height
               && !Gap(c.topCornerSpace, c.bottomCornerSpace, height, y) then 1 else 0
  {
    hide Layers, Spans, VertQuadRow;
    var splitY := ViewportMath.Quot(c.topCornerSpace - c.bottomCornerSpace, 2);
    var leftRow := VertQuadRow(0, c.topCornerSpace, 0, c.bottomCornerSpace, -c.leftSpace, 0, GRAVITY_WEST,
                               SideHeight(l.left, l.rotation), splitY, 0, l.left.x1 as real, l.left.y1 as real,
                               l.rotation);
    var rightRow := VertQuadRow(0, c.topCornerSpace, 0, c.bottomCornerSpace, 0, c.rightSpace, GRAVITY_EAST,
                                SideHeight(l.right, l.rotation), splitY, 0, l.right.x1 as real, l.right.y1 as real,
                                l.rotation);
    LayersConcat(leftRow, rightRow, width, height, x, y);
    RowLayers(c.topCornerSpace, c.bottomCornerSpace, -c.leftSpace, 0, GRAVITY_WEST, SideHeight(l.left, l.rotation),
              splitY, 0, l.left.x1 as real, l.left.y1 as real, l.rotation, width, height, x, y);
    RowLayers(c.topCornerSpace, c.bottomCornerSpace, 0, c.rightSpace, GRAVITY_EAST, SideHeight(l.right, l.rotation),
              splitY, 0, l.right.x1 as real, l.right.y1 as real, l.rotation, width, height, x, y);
    MiddleSpans(0, c.topCornerSpace, 0, c.bottomCornerSpace, height, y);
  }

  lemma OffsetSideLayers(offset: int, left: int, right: int, gravity: bv32, b: Box, rotation: bool, width: nat,
                         height: nat, x: int, y: int)
    requires gravity in {GRAVITY_WEST, GRAVITY_EAST} && right - left <= SHRT_MAX && height <= SHRT_MAX
    requires if gravity == GRAVITY_WEST then left <= right == 0 else 0 == left <= right
    requires 0 <= offset && offset + 1 <= SideHeight(b, rotation)
    ensures var from := if gravity == GRAVITY_WEST then left else width;
            Layers(OffsetSideQuads(offset, left, right, gravity, b, rotation), width, height, x, y)
            == if from <= x < from + (right - left) && 0 <= y < height then 1 else 0
  {
    hide Layers, Spans, VertQuadRow;
    var h := SideHeight(b, rotation);
    RowLayers(offset, h - offset - 1, left, right, gravity, h, -(h - offset - 1), GRAVITY_SOUTH,
              b.x1 as real, b.y1 as real, rotation, width, height, x, y);
    OffsetSpans(0, offset, 0, h - offset - 1, height, y);
  }

  /** The layout has room for the offsets at which edges and sides are stretched. */
  predicate HasRoomFor(c: Context, l: Layout, s: Stretch) {
    match s
    case AllMiddle => true
    case TopAt(topOffset) => EdgeRoom(c, l.top, topOffset)
    case BottomAt(bottomOffset) => EdgeRoom(c, l.bottom, bottomOffset)
    case AllAt(leftOffset, rightOffset, topOffset, bottomOffset) =>
      && EdgeRoom(c, l.top, topOffset) && EdgeRoom(c, l.bottom, bottomOffset)
      && 0 <= leftOffset < SideHeight(l.left, l.rotation) && 0 <= rightOffset < SideHeight(l.right, l.rotation)
  }

  predicate EdgeRoom(c: Context, b: Box, offset: int) {
    0 <= offset && c.leftSpace + c.rightSpace + offset < b.x2 - b.x1
  }

  /** Where the frame is left bare: one column of an edge or one row of the sides that is stretched in the middle. */
  predicate Bare(c: Context, s: Stretch, width: nat, height: nat, x: int, y: int) {
    if 0 <= y < height then !s.AllAt? && Gap(c.topCornerSpace, c.bottomCornerSpace, height, y)
    else
      && (if y < 0 then s.AllMiddle? || s.BottomAt? else s.AllMiddle? || s.TopAt?)
      && Gap(c.leftCornerSpace, c.rightCornerSpace, width, x)
  }

  /** On a window of any size the twelve quads cover the frame between the extents, no point twice and nothing
      else, except where the halves of an odd size and of an odd difference of the corners leave a gap. */
  lemma QuadsCoverFrame(c: Context, l: Layout, s: Stretch, width: nat, height: nat, x: int, y: int)
    requires Proper(c) && HasRoomFor(c, l, s) && width <= SHRT_MAX && height <= SHRT_MAX
    ensures Layers(WindowQuads(c, l, s), width, height, x, y)
         == if OnFrame(c, width, height, x, y) && !Bare(c, s, width, height, x, y) then 1 else 0
  {
    hide Layers, EdgeQuads, OffsetEdgeQuads, SideQuads, OffsetSideQuads, Gap;
    var upper := match s
                 case AllMiddle => EdgeQuads(c, -c.topSpace, 0, GRAVITY_NORTH, l.top)
                 case TopAt(at) => OffsetEdgeQuads(at, c, -c.topSpace, 0, GRAVITY_NORTH, l.top)
                 case BottomAt(_) => EdgeQuads(c, -c.topSpace, 0, GRAVITY_NORTH, l.top)
                 case AllAt(_, _, at, _) => OffsetEdgeQuads(at, c, -c.topSpace, 0, GRAVITY_NORTH, l.top);
    var lower := match s
                 case AllMiddle => EdgeQuads(c, 0, c.bottomSpace, GRAVITY_SOUTH, l.bottom)
                 case TopAt(_) => EdgeQuads(c, 0, c.bottomSpace, GRAVITY_SOUTH, l.bottom)
                 case BottomAt(at) => OffsetEdgeQuads(at, c, 0, c.bottomSpace, GRAVITY_SOUTH, l.bottom)
                 case AllAt(_, _, _, at) => OffsetEdgeQuads(at, c, 0, c.bottomSpace, GRAVITY_SOUTH, l.bottom);
    match s
    case AllAt(leftAt, rightAt, topAt, bottomAt) =>
      var a := OffsetSideQuads(leftAt, -c.leftSpace, 0, GRAVITY_WEST, l.left, l.rotation);
      var b := OffsetSideQuads(rightAt, 0, c.rightSpace, GRAVITY_EAST, l.right, l.rotation);
      ThreeLayers(upper + a, b, lower, width, height, x, y);
      LayersConcat(upper, a, width, height, x, y);
      OffsetEdgeLayers(topAt, c, -c.topSpace, 0, GRAVITY_NORTH, l.top, width, height, x, y);
      OffsetEdgeLayers(bottomAt, c, 0, c.bottomSpace, GRAVITY_SOUTH, l.bottom, width, height, x, y);
      OffsetSideLayers(leftAt, -c.leftSpace, 0, GRAVITY_WEST, l.left, l.rotation, width, height, x, y);
      OffsetSideLayers(rightAt, 0, c.rightSpace, GRAVITY_EAST, l.right, l.rotation, width, height, x, y);
    case AllMiddle =>
      ThreeLayers(upper, SideQuads(c, l), lower, width, height, x, y);
      SideLayers(c, l, width, height, x, y);
      EdgeLayers(c, -c.topSpace, 0, GRAVITY_NORTH, l.top, width, height, x, y);
      EdgeLayers(c, 0, c.bottomSpace, GRAVITY_SOUTH, l.bottom, width, height, x, y);
    case TopAt(at) =>
      ThreeLayers(upper, SideQuads(c, l), lower, width, height, x, y);
      SideLayers(c, l, width, height, x, y);
      OffsetEdgeLayers(at, c, -c.topSpace, 0, GRAVITY_NORTH, l.top, width, height, x, y);
      EdgeLayers(c, 0, c.bottomSpace, GRAVITY_SOUTH, l.bottom, width, height, x, y);
    case BottomAt(at) =>
      ThreeLayers(upper, SideQuads(c, l), lower, width, height, x, y);
      SideLayers(c, l, width, height, x, y);
      EdgeLayers(c, -c.topSpace, 0, GRAVITY_NORTH, l.top, width, height, x, y);
      OffsetEdgeLayers(at, c, 0, c.bottomSpace, GRAVITY_SOUTH, l.bottom, width, height, x, y);
  }

  lemma ThreeLayers(a: seq<Quad>, b: seq<Quad>, d: seq<Quad>, width: nat, height: nat, x: int, y: int)
    ensures Layers(a + b + d, width, height, x, y)
         == Layers(a, width, height, x, y) + Layers(b, width, height, x, y) + Layers(d, width, height, x, y)
  {
    LayersConcat(a + b, d, width, height, x, y);
    LayersConcat(a, b, width, height, x, y);
  }

  /** A window that is just as wide as its corners can have a column of its frame left bare. */
  lemma FrameCanBeBare()
    ensures exists c, l, s, width: nat, height: nat, x, y ::
              && Proper(c) && HasRoomFor(c, l, s) && width <= SHRT_MAX && height <= SHRT_MAX
              && OnFrame(c, width, height, x, y) && Layers(WindowQuads(c, l, s), width, height, x, y) == 0
  {
    hide Layers, WindowQuads;
    var c, b := Context(5, 5, 20, 5, 2, 1, 1, 1), Box(0, 0, 100, 100);
    var l := Layout(b, b, b, b, false);
    QuadsCoverFrame(c, l, AllMiddle, 3, 100, 1, -1);
  }
}
