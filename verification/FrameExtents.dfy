/** Where a window goes when the extents of its frame change: its gravity says which point of it stays, and the
    first frame is kept inside the work area. */
module FrameExtents {
  import opened Values
  import opened BufferModel
  import opened FrameGeometry

  datatype Gravity = Forget | NorthWest | North | NorthEast | West | Center | East | SouthWest | South | SouthEast
                   | Static

  datatype Rect = Rect(x1: int, y1: int, x2: int, y2: int)

  /** What the placement of a frame depends on, besides the window: whether the window fills the screen, whether
      it has a frame already, whether it may be resized, and the work area. */
  datatype Setting = Setting(gravity: Gravity, fills: bool, decorated: bool, resizable: bool, workarea: Rect)

  /** How far a frame moves the window that it is put around. */
  function ShiftX(e: Extents, gravity: Gravity): int {
    if gravity in {Static, West, NorthWest, SouthWest} then e.left
    else if gravity in {East, NorthEast, SouthEast} then -e.right
    else 0
  }

  function ShiftY(e: Extents, gravity: Gravity): int {
    if gravity in {Static, North, NorthWest, NorthEast, Center} then e.top
    else if gravity in {South, SouthWest, SouthEast} then -e.bottom
    else 0
  }

  /** The start of a window of this size, as moved for its frame, within `lo` and `hi`: back by what the frame has
      grown when it gets past the end, to the beginning when that takes it before it, and on again. */
  function Along(start: int, size: int, lo: int, hi: int, movement: int, growth: int): int {
    if start + size <= hi then start
    else
      var back := start - growth;
      var at := if back < lo then lo + movement else back;
      if at - growth < lo then at + growth else at
  }

  function Shrunk(size: int, room: int, growth: int, resizable: bool): int {
    if resizable && size + growth > room then room - growth else size
  }

  const GEOMETRY: Mask := {X, Y, Width, Height}

  /** The request that new borders `b` lead to, where the borders were `border`. */
  function FrameRequest(g: Geometry, border: Extents, b: Extents, s: Setting): Changes {
    var dx, dy := ShiftX(b, s.gravity) - ShiftX(border, s.gravity), ShiftY(b, s.gravity) - ShiftY(border, s.gravity);
    var growX := (b.left + b.right) - (border.left + border.right);
    var growY := (b.top + b.bottom) - (border.top + border.bottom);
    var width, height := g.width - (if s.fills then growX else 0), g.height - (if s.fills then growY else 0);
    if s.decorated then NO_CHANGES.(x := g.x + dx, y := g.y + dy, width := width, height := height)
    else
      var area := s.workarea;
      NO_CHANGES.(x := Along(g.x + dx, width, area.x1, area.x2, dx, growX),
                  y := Along(g.y + dy, height, area.y1, area.y2, dy, growY),
                  width := Shrunk(width, area.x2 - area.x1, growX, s.resizable),
                  height := Shrunk(height, area.y2 - area.y1, growY, s.resizable))
  }

  /** The geometry after that request. */
  function Framing(g: Geometry, border: Extents, b: Extents, s: Setting): Geometry {
    Requested(g, GEOMETRY, FrameRequest(g, border, b, s))
  }

  /** New extents bring the window itself there. */
  lemma ExtentsFrame(w: Framed, border: Extents, b: Extents, input: Extents, s: Setting)
    ensures var r := Act(w, SetExtents(input, GEOMETRY, FrameRequest(w.serverGeometry, border, b, s)));
            r.serverGeometry == Framing(w.serverGeometry, border, b, s) && FrameFits(r)
  {
    hide FrameRequest, Reconfigure;
    ReconfigureFits(w.(serverInput := input), GEOMETRY, FrameRequest(w.serverGeometry, border, b, s), {});
  }

  /** A change of the frame of a window. */
  datatype Change = Change(b: Extents, s: Setting)

  /** The geometry and the borders after a run of changes. */
  function Reframed(g: Geometry, border: Extents, changes: seq<Change>): (r: (Geometry, Extents)) {
    if changes == [] then (g, border)
    else
      var (before, was) := Reframed(g, border, changes[..|changes| - 1]);
      var c := changes[|changes| - 1];
      (Framing(before, was, c.b, c.s), c.b)
  }

  /** The point of a window in its frame that a gravity names, along one axis: the edge of the frame that it
      points to, or the window itself. */
  function KeptX(g: Geometry, b: Extents, gravity: Gravity): int {
    match gravity
    case NorthWest => g.x - b.left
    case West => g.x - b.left
    case SouthWest => g.x - b.left
    case Static => g.x - b.left
    case NorthEast => g.x + b.right
    case East => g.x + b.right
    case SouthEast => g.x + b.right
    case _ => g.x
  }

  function KeptY(g: Geometry, b: Extents, gravity: Gravity): int {
    match gravity
    case NorthWest => g.y - b.top
    case North => g.y - b.top
    case NorthEast => g.y - b.top
    case Static => g.y - b.top
    case Center => g.y - b.top
    case SouthWest => g.y + b.bottom
    case South => g.y + b.bottom
    case SouthEast => g.y + b.bottom
    case _ => g.y
  }

  /** Of a window that has had its first frame, the point that its gravity names stays where it is over any run
      of changes; so the window is back in its place whenever it has the same borders. */
  lemma {:induction false} GravityPointStays(g: Geometry, border: Extents, changes: seq<Change>, gravity: Gravity)
    requires forall c :: c in changes ==> c.s.decorated && c.s.gravity == gravity
    ensures var (r, b) := Reframed(g, border, changes);
            && KeptX(r, b, gravity) == KeptX(g, border, gravity) && KeptY(r, b, gravity) == KeptY(g, border, gravity)
            && r.border == g.border
  {
    if changes != [] {
      var n := |changes| - 1;
      assert changes[n] in changes;
      GravityPointStays(g, border, changes[..n], gravity);
      var (before, was) := Reframed(g, border, changes[..n]);
      OneFrameKeeps(before, was, changes[n].b, changes[n].s);
    }
  }

  lemma OneFrameKeeps(g: Geometry, border: Extents, b: Extents, s: Setting)
    requires s.decorated
    ensures var r := Framing(g, border, b, s);
            && KeptX(r, b, s.gravity) == KeptX(g, border, s.gravity)
            && KeptY(r, b, s.gravity) == KeptY(g, border, s.gravity) && r.border == g.border
  {
  }

  /** No frame leaves nothing of the window. */
  predicate LeavesRoom(g: Geometry, border: Extents, changes: seq<Change>) {
    forall k :: 0 <= k < |changes| ==>
      var (r, was) := Reframed(g, border, changes[..k]);
      && r.width != changes[k].b.left + changes[k].b.right - (was.left + was.right)
      && r.height != changes[k].b.top + changes[k].b.bottom - (was.top + was.bottom)
  }

  /** While it fills the screen, window and frame together keep their size; otherwise the window does. */
  lemma {:induction false} SizeStays(g: Geometry, border: Extents, changes: seq<Change>, fills: bool)
    requires forall c :: c in changes ==> c.s.decorated && c.s.fills == fills
    requires g.width != 0 && g.height != 0 && (fills ==> LeavesRoom(g, border, changes))
    ensures var (r, b) := Reframed(g, border, changes);
            && r.width != 0 && r.height != 0
            && (if fills
                then r.width + b.left + b.right == g.width + border.left + border.right
                     && r.height + b.top + b.bottom == g.height + border.top + border.bottom
                else r.width == g.width && r.height == g.height)
  {
    hide ShiftX, ShiftY;
    if changes != [] {
      var n := |changes| - 1;
      assert changes[n] in changes;
      assert forall k :: 0 <= k < n ==> changes[..n][..k] == changes[..k];
      SizeStays(g, border, changes[..n], fills);
    }
  }

  /** A range with what is added on both sides is within `lo` and `hi`. */
  predicate Within(start: int, size: int, before: int, after: int, lo: int, hi: int) {
    lo <= start - before && start + size + after <= hi
  }

  /** Whether a window that starts inside the work area gets a first frame inside it, along one axis. With a
      gravity that keeps its start: there is room for the frame after the window, or the window is past the end
      as it is moved and there is room twice before it, or it is shrunk and starts at the very beginning. With a
      gravity that keeps its end there must be room before it, and with any other on both sides. */
  predicate HasRoom(start: int, size: int, before: int, after: int, lo: int, hi: int, movement: int, resizable: bool) {
    var growth := before + after;
    var length := Shrunk(size, hi - lo, growth, resizable);
    if movement == -after then lo <= start - growth
    else if movement == 0 then lo <= start - before && start + length + after <= hi
    else || start + size + growth <= hi
         || (start + size + before > hi && lo <= start - after - growth)
         || (length < size && start == lo && (after == 0 || start + size + before <= hi))
  }

  lemma FirstFrameAlongIff(start: int, size: int, before: int, after: int, lo: int, hi: int, movement: int,
                           resizable: bool)
    requires before >= 0 && after >= 0 && Within(start, size, 0, 0, lo, hi) && movement in {before, 0, -after}
    ensures Within(Along(start + movement, size, lo, hi, movement, before + after),
                   Shrunk(size, hi - lo, before + after, resizable), before, after, lo, hi)
       <==> HasRoom(start, size, before, after, lo, hi, movement, resizable)
  {
  }

  /** A window of this place and size, with its borders, is inside the work area. */
  predicate Inside(c: Changes, b: Extents, area: Rect) {
    && Within(c.x, c.width, b.left, b.right, area.x1, area.x2)
    && Within(c.y, c.height, b.top, b.bottom, area.y1, area.y2)
  }

  /** The first frame of a window that is inside the work area is inside as well if and only if there is room
      for it along both axes. */
  lemma FirstFrameInsideIff(g: Geometry, b: Extents, s: Setting)
    requires !s.decorated && !s.fills && b.left >= 0 && b.right >= 0 && b.top >= 0 && b.bottom >= 0
    requires Inside(AsChanges(g, NO_CHANGES), NO_EXTENTS, s.workarea)
    ensures Inside(FrameRequest(g, NO_EXTENTS, b, s), b, s.workarea) <==>
              && HasRoom(g.x, g.width, b.left, b.right, s.workarea.x1, s.workarea.x2, ShiftX(b, s.gravity), s.resizable)
              && HasRoom(g.y, g.height, b.top, b.bottom, s.workarea.y1, s.workarea.y2, ShiftY(b, s.gravity), s.resizable)
  {
    hide Along, Shrunk, HasRoom;
    FirstFrameAlongIff(g.x, g.width, b.left, b.right, s.workarea.x1, s.workarea.x2, ShiftX(b, s.gravity), s.resizable);
    FirstFrameAlongIff(g.y, g.height, b.top, b.bottom, s.workarea.y1, s.workarea.y2, ShiftY(b, s.gravity), s.resizable);
  }

  /** With its first frame a window that can be resized is no larger than the work area; one that is small enough,
      or cannot be resized, keeps its size. */
  lemma FirstFrameFits(g: Geometry, b: Extents, s: Setting)
    requires !s.decorated && !s.fills
    ensures var r := FrameRequest(g, NO_EXTENTS, b, s);
            var width, height := s.workarea.x2 - s.workarea.x1, s.workarea.y2 - s.workarea.y1;
            && (s.resizable ==> r.width + b.left + b.right <= width && r.height + b.top + b.bottom <= height)
            && (!s.resizable || g.width + b.left + b.right <= width ==> r.width == g.width)
            && (!s.resizable || g.height + b.top + b.bottom <= height ==> r.height == g.height)
            && r.width <= g.width && r.height <= g.height
  {
    hide Along, ShiftX, ShiftY;
  }

  /** A window as wide as the work area is shrunk for its frame, and yet put past the end. */
  lemma FirstFrameCanLeaveWorkarea()
    ensures exists g, b: Extents, s: Setting ::
              && !s.decorated && s.resizable && Inside(AsChanges(g, NO_CHANGES), NO_EXTENTS, s.workarea)
              && b.left + b.right < s.workarea.x2 - s.workarea.x1 && b.top + b.bottom < s.workarea.y2 - s.workarea.y1
              && !Inside(FrameRequest(g, NO_EXTENTS, b, s), b, s.workarea)
  {
    var g, b, s := Geometry(0, 0, 1000, 500, 0), Extents(5, 5, 20, 5),
                   Setting(NorthWest, false, false, true, Rect(0, 0, 1000, 800));
    assert FrameRequest(g, NO_EXTENTS, b, s).x == 15;
    assert Inside(AsChanges(g, NO_CHANGES), NO_EXTENTS, s.workarea);
  }
}
