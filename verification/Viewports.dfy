/** The current viewport of the wall and the windows that move with it. */
module Viewports {
  import opened Sequences
  import opened Values
  import opened ViewportMath

  /** The place of a window, and the place it returns to when it is no longer maximized. */
  datatype Place = Place(x: int, y: int, savedX: int, savedY: int)

  class ViewWindow {
    var place: Place
    const width: int
    const height: int
    const input: Extents
    const saveMaskX: bool
    const saveMaskY: bool
    const onAllViewports: bool

    constructor (place: Place, width: int, height: int, input: Extents, saveMaskX: bool, saveMaskY: bool,
                 onAllViewports: bool)
      ensures this.place == place && this.width == width && this.height == height && this.input == input
      ensures this.saveMaskX == saveMaskX && this.saveMaskY == saveMaskY && this.onAllViewports == onAllViewports
    {
      this.place, this.width, this.height, this.input := place, width, height, input;
      this.saveMaskX, this.saveMaskY, this.onAllViewports := saveMaskX, saveMaskY, onAllViewports;
    }
  }

  datatype Wall = Wall(vpX: int, vpY: int, hsize: int, vsize: int, width: int, height: int) {
    predicate Valid() {
      0 <= vpX < hsize && 0 <= vpY < vsize && width > 0 && height > 0
    }
  }

  /** A window after the viewport has moved from `a.vpX`, `a.vpY` to those of `b`. */
  function Followed(w: ViewWindow, p: Place, a: Wall, b: Wall): Place
    requires a.Valid()
  {
    if w.onAllViewports then p
    else
      var dx := Movement(p.x, w.width, w.input.left, w.input.right, (b.vpX - a.vpX) * -a.width, a.width, a.hsize);
      var dy := Movement(p.y, w.height, w.input.top, w.input.bottom, (b.vpY - a.vpY) * -a.height, a.height, a.vsize);
      Place(p.x + dx, p.y + dy,
            if w.saveMaskX then p.savedX + dx else p.savedX, if w.saveMaskY then p.savedY + dy else p.savedY)
  }

  /** A window on a wall that gets smaller. */
  function Gathered(w: ViewWindow, p: Place, a: Wall, newh: int, newv: int): Place
    requires a.Valid()
  {
    if w.onAllViewports then p
    else
      p.(x := if newh < a.hsize then Rehomed(p.x, a.vpX, newh, a.width) else p.x,
         y := if newv < a.vsize then Rehomed(p.y, a.vpY, newv, a.height) else p.y)
  }

  /** The wall after a request to move the viewport by so many screens. */
  function Moved(a: Wall, tx: int, ty: int): (b: Wall)
    requires a.Valid()
    ensures b.Valid() && b == a.(vpX := b.vpX, vpY := b.vpY)
    ensures b.vpX == (a.vpX - tx) % a.hsize && b.vpY == (a.vpY - ty) % a.vsize
  {
    a.(vpX := (a.vpX - tx) % a.hsize, vpY := (a.vpY - ty) % a.vsize)
  }

  class Screen {
    var wall: Wall
    var windows: seq<ViewWindow>

    constructor (wall: Wall)
      requires wall.Valid()
      ensures Valid() && this.wall == wall && windows == []
    {
      this.wall, windows := wall, [];
    }

    ghost predicate Valid()
      reads this
    {
      wall.Valid() && Distinct(windows)
    }

    method MoveViewport(tx: int, ty: int)
      requires Valid()
      modifies this`wall, windows`place
      ensures Valid() && wall == Moved(old(wall), tx, ty)
      ensures wall != old(wall) ==>
                forall i :: 0 <= i < |windows| ==> windows[i].place == Followed(windows[i], old(windows[i].place), old(wall), wall)
      ensures wall == old(wall) ==> forall i :: 0 <= i < |windows| ==> windows[i].place == old(windows[i].place)
      ensures forall i :: 0 <= i < |windows| && windows[i].onAllViewports ==> windows[i].place == old(windows[i].place)
    {
      WraparoundModIsEuclidean(wall.vpX - tx, wall.hsize);
      WraparoundModIsEuclidean(wall.vpY - ty, wall.vsize);
      var dx := WraparoundMod(wall.vpX - tx, wall.hsize) - wall.vpX;
      var dy := WraparoundMod(wall.vpY - ty, wall.vsize) - wall.vpY;
      if dx == 0 && dy == 0 {
        return;
      }
      ghost var before := wall;
      wall := wall.(vpX := wall.vpX + dx, vpY := wall.vpY + dy);
      dx, dy := dx * -wall.width, dy * -wall.height;
      MoveWindows(dx, dy, before);
    }

    method MoveWindows(dx: int, dy: int, ghost before: Wall)
      requires Valid() && before.Valid() && wall == before.(vpX := wall.vpX, vpY := wall.vpY)
      requires dx == (wall.vpX - before.vpX) * -before.width && dy == (wall.vpY - before.vpY) * -before.height
      modifies windows`place
      ensures forall i :: 0 <= i < |windows| ==>
                windows[i].place == Followed(windows[i], old(windows[i].place), before, wall)
    {
      var i := 0;
      while i < |windows|
        invariant 0 <= i <= |windows|
        invariant forall j :: 0 <= j < i ==>
                    windows[j].place == Followed(windows[j], old(windows[j].place), before, wall)
        invariant forall j :: i <= j < |windows| ==> windows[j].place == old(windows[j].place)
      {
        var w := windows[i];
        if !w.onAllViewports {
          MoveWindow(w, dx, dy, before);
        }
        i := i + 1;
      }
    }

    method MoveWindow(w: ViewWindow, dx: int, dy: int, ghost before: Wall)
      requires wall.Valid() && before.Valid() && wall == before.(vpX := wall.vpX, vpY := wall.vpY) && !w.onAllViewports
      requires dx == (wall.vpX - before.vpX) * -before.width && dy == (wall.vpY - before.vpY) * -before.height
      modifies w`place
      ensures w.place == Followed(w, old(w.place), before, wall)
    {
      hide Movement;
      var p := w.place;
      var px := Movement(p.x, w.width, w.input.left, w.input.right, dx, wall.width, wall.hsize);
      var py := Movement(p.y, w.height, w.input.top, w.input.bottom, dy, wall.height, wall.vsize);
      if w.saveMaskX {
        w.place := w.place.(savedX := w.place.savedX + px);
      }
      if w.saveMaskY {
        w.place := w.place.(savedY := w.place.savedY + py);
      }
      w.place := w.place.(x := w.place.x + px, y := w.place.y + py);
    }

    /** The wall gets another size. Where it gets smaller, the viewport and the windows that would be left
        outside move to the last column or row that stays. */
    method SetVirtualScreenSize(newh: int, newv: int)
      requires Valid() && newh > 0 && newv > 0
      modifies this`wall, windows`place
      ensures Valid() && wall == Retreated(old(wall), newh, newv).(hsize := newh, vsize := newv)
      ensures forall i :: 0 <= i < |windows| ==>
                windows[i].place == Resized(windows[i], old(windows[i].place), old(wall), newh, newv)
      ensures forall i :: 0 <= i < |windows| && windows[i].onAllViewports ==> windows[i].place == old(windows[i].place)
    {
      if newh < wall.hsize || newv < wall.vsize {
        ghost var before := wall;
        var tx, ty := 0, 0;
        if wall.vpX >= newh {
          tx := wall.vpX - (newh - 1);
        }
        if wall.vpY >= newv {
          ty := wall.vpY - (newv - 1);
        }
        Retreats(wall, newh, newv, tx, ty);
        if tx != 0 || ty != 0 {
          MoveViewport(tx, ty);
        }
        GatherWindows(newh, newv);
      }
      wall := wall.(hsize := newh, vsize := newv);
    }

    method GatherWindows(newh: int, newv: int)
      requires Valid() && wall.vpX < newh && wall.vpY < newv
      modifies windows`place
      ensures forall i :: 0 <= i < |windows| ==>
                windows[i].place == Gathered(windows[i], old(windows[i].place), wall, newh, newv)
    {
      var i := 0;
      while i < |windows|
        invariant 0 <= i <= |windows|
        invariant forall j :: 0 <= j < i ==>
                    windows[j].place == Gathered(windows[j], old(windows[j].place), wall, newh, newv)
        invariant forall j :: i <= j < |windows| ==> windows[j].place == old(windows[j].place)
      {
        var w := windows[i];
        if !w.onAllViewports {
          GatherWindow(w, newh, newv);
        }
        i := i + 1;
      }
    }

    method GatherWindow(w: ViewWindow, newh: int, newv: int)
      requires wall.Valid() && !w.onAllViewports
      modifies w`place
      ensures w.place == Gathered(w, old(w.place), wall, newh, newv)
    {
      var moveX, moveY := 0, 0;
      if newh < wall.hsize {
        var vpX := Quot(w.place.x, wall.width);
        if w.place.x < 0 {
          vpX := vpX - 1;
        }
        vpX := vpX + wall.vpX;
        if vpX >= newh {
          moveX := (newh - 1 - vpX) * wall.width;
        }
      }
      if newv < wall.vsize {
        var vpY := Quot(w.place.y, wall.height);
        if w.place.y < 0 {
          vpY := vpY - 1;
        }
        vpY := vpY + wall.vpY;
        if vpY >= newv {
          moveY := (newv - 1 - vpY) * wall.height;
        }
      }
      if moveX != 0 || moveY != 0 {
        w.place := w.place.(x := w.place.x + moveX, y := w.place.y + moveY);
      }
    }
  }

  /** The wall with the viewport moved into a smaller one. */
  function Retreated(a: Wall, newh: int, newv: int): (b: Wall)
    requires a.Valid() && newh > 0 && newv > 0
    ensures b.Valid() && b.vpX < newh && b.vpY < newv
  {
    a.(vpX := if a.vpX >= newh then newh - 1 else a.vpX, vpY := if a.vpY >= newv then newv - 1 else a.vpY)
  }

  /** A window after the wall has got another size. */
  function Resized(w: ViewWindow, p: Place, a: Wall, newh: int, newv: int): Place
    requires a.Valid() && newh > 0 && newv > 0
  {
    var b := Retreated(a, newh, newv);
    Gathered(w, if b == a then p else Followed(w, p, a, b), b, newh, newv)
  }

  lemma Retreats(a: Wall, newh: int, newv: int, tx: int, ty: int)
    requires a.Valid() && newh > 0 && newv > 0
    requires tx == (if a.vpX >= newh then a.vpX - (newh - 1) else 0) && ty == if a.vpY >= newv then a.vpY - (newv - 1) else 0
    ensures Moved(a, tx, ty) == Retreated(a, newh, newv)
    ensures tx == 0 && ty == 0 ==> Retreated(a, newh, newv) == a
  {
    ModUnique(a.vpX - tx, a.hsize, 0, a.vpX - tx);
    ModUnique(a.vpY - ty, a.vsize, 0, a.vpY - ty);
  }

  /** Moving the viewport leaves every window that moves along where it was on the wall, up to whole walls,
      and the place that it returns to moves by as much where there is one. */
  lemma FollowedConserved(w: ViewWindow, p: Place, a: Wall, b: Wall)
    requires a.Valid() && b == a.(vpX := b.vpX, vpY := b.vpY) && !w.onAllViewports
    ensures a.width * a.hsize > 0 && a.height * a.vsize > 0
    ensures var q := Followed(w, p, a, b);
            && (q.x + b.vpX * a.width) % (a.width * a.hsize) == (p.x + a.vpX * a.width) % (a.width * a.hsize)
            && (q.y + b.vpY * a.height) % (a.height * a.vsize) == (p.y + a.vpY * a.height) % (a.height * a.vsize)
            && q.savedX - p.savedX == (if w.saveMaskX then q.x - p.x else 0)
            && q.savedY - p.savedY == (if w.saveMaskY then q.y - p.y else 0)
            && Congruent(q.x - p.x, 0, a.width) && Congruent(q.y - p.y, 0, a.height)
  {
    hide Movement, Congruent;
    PlaceConserved(p.x, w.width, w.input.left, w.input.right, a.vpX, b.vpX, a.width, a.hsize);
    PlaceConserved(p.y, w.height, w.input.top, w.input.bottom, a.vpY, b.vpY, a.height, a.vsize);
    WholeScreens(p.x, w.width, w.input.left, w.input.right, a.vpX, b.vpX, a.width, a.hsize);
    WholeScreens(p.y, w.height, w.input.top, w.input.bottom, a.vpY, b.vpY, a.height, a.vsize);
  }

  /** A window with its extents is on the wall, along both axes. */
  predicate OnTheWall(w: ViewWindow, p: Place, a: Wall) {
    && OnWall(p.x, w.width, w.input.left, w.input.right, a.width, a.hsize)
    && OnWall(p.y, w.height, w.input.top, w.input.bottom, a.height, a.vsize)
  }

  /** Wherever the viewport moves to, a window that is on the wall, and along an axis of several screens not larger
      than all of it but one screen, stays on it. */
  lemma FollowedOnTheWall(w: ViewWindow, p: Place, a: Wall, b: Wall)
    requires a.Valid() && b.Valid() && b == a.(vpX := b.vpX, vpY := b.vpY) && OnTheWall(w, p, a)
    requires a.hsize > 1 ==> w.input.left + w.width + w.input.right <= a.width * a.hsize - a.width
    requires a.vsize > 1 ==> w.input.top + w.height + w.input.bottom <= a.height * a.vsize - a.height
    ensures OnTheWall(w, Followed(w, p, a, b), b)
  {
    hide Movement, OnWall;
    FollowsOnWall(p.x, w.width, w.input.left, w.input.right, a.vpX, b.vpX, a.width, a.hsize);
    FollowsOnWall(p.y, w.height, w.input.top, w.input.bottom, a.vpY, b.vpY, a.height, a.vsize);
  }

  /** After the wall has got smaller, every window that moves along is found on a viewport that stays, and
      has moved by whole screens. */
  lemma ResizedInside(w: ViewWindow, p: Place, a: Wall, newh: int, newv: int)
    requires a.Valid() && newh > 0 && newv > 0 && !w.onAllViewports
    ensures var q, b := Resized(w, p, a, newh, newv), Retreated(a, newh, newv);
            && (newh < a.hsize ==> q.x / a.width + b.vpX < newh)
            && (newv < a.vsize ==> q.y / a.height + b.vpY < newv)
            && Congruent(q.x, p.x, a.width) && Congruent(q.y, p.y, a.height)
  {
    hide Movement, Rehomed, Followed;
    var b := Retreated(a, newh, newv);
    var p1 := if b == a then p else Followed(w, p, a, b);
    if b == a {
      assert Apart(p.x, p.x, a.width, 0) && Apart(p.y, p.y, a.height, 0);
    } else {
      FollowedConserved(w, p, a, b);
      FromZero(p1.x, p.x, a.width);
      FromZero(p1.y, p.y, a.height);
    }
    RehomedInside(p1.x, b.vpX, newh, a.width);
    RehomedInside(p1.y, b.vpY, newv, a.height);
    var q := Gathered(w, p1, b, newh, newv);
    Through(if newh < a.hsize then Rehomed(p1.x, b.vpX, newh, a.width) else p1.x, p1.x, p.x, a.width);
    Through(if newv < a.vsize then Rehomed(p1.y, b.vpY, newv, a.height) else p1.y, p1.y, p.y, a.height);
  }

  lemma FromZero(a: int, b: int, n: int)
    requires Congruent(a - b, 0, n)
    ensures Congruent(a, b, n)
  {
    var k :| Apart(a - b, 0, n, k);
    assert Apart(a, b, n, k);
  }

  lemma Through(a: int, b: int, c: int, n: int)
    requires (a == b || Congruent(a, b, n)) && Congruent(b, c, n)
    ensures Congruent(a, c, n)
  {
    if a != b {
      var k :| Apart(a, b, n, k);
      var l :| Apart(b, c, n, l);
      Distribute(k, l, n);
      assert Apart(a, c, n, k + l);
    }
  }
}
