/** The arithmetic of the wall of viewports, for one axis. */
module ViewportMath {

  /** The quotient and the remainder of the source language, which round towards zero. */
  function Quot(a: int, b: int): int
    requires b > 0
  {
    if a >= 0 then a / b else -((-a) / b)
  }

  function Rem(a: int, b: int): int
    requires b > 0
  {
    if a >= 0 then a % b else -((-a) % b)
  }

  function WraparoundMod(a: int, b: int): int
    requires b > 0
  {
    if a < 0 then b - Rem(-a - 1, b) - 1 else Rem(a, b)
  }

  /** `a` and `b` are a whole number of `n` apart. */
  ghost predicate Congruent(a: int, b: int, n: int) {
    exists k: int :: Apart(a, b, n, k)
  }

  predicate Apart(a: int, b: int, n: int, k: int) {
    a == b + k * n
  }

  lemma DivMod(a: int, n: int)
    requires n > 0
    ensures a == a / n * n + a % n && 0 <= a % n < n
  {
  }

  /** A remainder in the right range is the remainder. */
  lemma ModUnique(a: int, n: int, q: int, r: int)
    requires n > 0 && a == q * n + r && 0 <= r < n
    ensures a % n == r && a / n == q
  {
    DivMod(a, n);
    var p := a / n;
    if p != q {
      Gap(p, q, n);
      Gap(q, p, n);
    }
  }

  lemma Distribute(a: int, b: int, n: int)
    ensures (a + b) * n == a * n + b * n
  {
  }

  lemma NonNegative(a: int, n: int)
    ensures a >= 0 && n >= 0 ==> a * n >= 0
  {
  }

  lemma Gap(p: int, q: int, n: int)
    requires n > 0
    ensures p < q ==> p * n + n <= q * n
  {
    var d := q - p - 1;
    NonNegative(d, n);
    Distribute(p, 1 + d, n);
    Distribute(1, d, n);
    assert 1 * n == n;
  }

  /** The wrap-around is the remainder that is never negative. */
  lemma WraparoundModIsEuclidean(a: int, b: int)
    requires b > 0
    ensures WraparoundMod(a, b) == a % b
  {
    if a < 0 {
      DivMod(-a - 1, b);
      var q, r := (-a - 1) / b, (-a - 1) % b;
      assert a == (-q - 1) * b + (b - r - 1);
      ModUnique(a, b, -q - 1, b - r - 1);
    }
  }

  lemma CongruentMod(a: int, b: int, n: int)
    requires n > 0 && Congruent(a, b, n)
    ensures a % n == b % n
  {
    var k :| Apart(a, b, n, k);
    DivMod(b, n);
    assert a == (b / n + k) * n + b % n;
    ModUnique(a, n, b / n + k, b % n);
  }

  lemma RemCongruent(a: int, n: int)
    requires n > 0
    ensures Apart(Rem(a, n), a, n, if a >= 0 then -(a / n) else (-a) / n)
  {
    if a >= 0 {
      DivMod(a, n);
    } else {
      DivMod(-a, n);
    }
  }

  /** How far a window moves, along one axis, for a wall of `count` screens that is moved by `offset`. */
  function Movement(x: int, size: int, before: int, after: int, offset: int, screen: int, count: int): int
    requires screen > 0 && count > 0
  {
    var wall := screen * count;
    var off := Rem(offset, wall);
    var m := x + off;
    if count == 1 then off
    else if m - before < screen - wall then off + wall
    else if m + size + after > wall then off - wall
    else off
  }

  lemma WallPositive(screen: int, count: int)
    requires screen > 0 && count > 0
    ensures screen * count > 0
  {
  }

  lemma MovementCongruent(x: int, size: int, before: int, after: int, offset: int, screen: int, count: int)
    requires screen > 0 && count > 0
    ensures Congruent(Movement(x, size, before, after, offset, screen, count), offset, screen * count)
  {
    WallPositive(screen, count);
    var wall := screen * count;
    RemCongruent(offset, wall);
    var k := if offset >= 0 then -(offset / wall) else (-offset) / wall;
    var off := Rem(offset, wall);
    var m := Movement(x, size, before, after, offset, screen, count);
    var j := if m == off then k else if m == off + wall then k + 1 else k - 1;
    assert (k + 1) * wall == k * wall + wall && (k - 1) * wall == k * wall - wall;
    assert Apart(m, offset, wall, j);
  }

  /** A window with its extents is on the wall, counted from the current viewport in both directions, so that any
      viewport can come next. */
  predicate OnWall(x: int, size: int, before: int, after: int, screen: int, count: int) {
    screen - screen * count <= x - before && x + size + after <= screen * count
  }

  lemma RemBounds(a: int, n: int)
    requires n > 0
    ensures -n < Rem(a, n) < n
  {
    DivMod(a, n);
    DivMod(-a, n);
  }

  /** The movement wraps around: a window that is on the wall is on it afterwards too if and only if, where the
      offset alone would take it past one end, it would take it right past the current viewport. */
  lemma MovementOnWallIff(x: int, size: int, before: int, after: int, offset: int, screen: int, count: int)
    requires screen > 0 && count > 1 && OnWall(x, size, before, after, screen, count)
    ensures screen * count > 0
    ensures var m := x + Rem(offset, screen * count);
            OnWall(x + Movement(x, size, before, after, offset, screen, count), size, before, after, screen, count) <==>
              if m - before < screen - screen * count then m + size + after <= 0
              else m + size + after > screen * count ==> screen <= m - before
  {
    WallPositive(screen, count);
    RemBounds(offset, screen * count);
  }

  /** So it is whenever it is not larger than the wall but one screen. */
  lemma MovementStaysOnWall(x: int, size: int, before: int, after: int, offset: int, screen: int, count: int)
    requires screen > 0 && count > 1 && before + size + after <= screen * count - screen
    requires OnWall(x, size, before, after, screen, count)
    ensures OnWall(x + Movement(x, size, before, after, offset, screen, count), size, before, after, screen, count)
  {
    hide Movement, Rem;
    MovementOnWallIff(x, size, before, after, offset, screen, count);
  }

  /** The same for a move from viewport `vp` to `vp1`; along an axis of one screen nothing moves. */
  lemma FollowsOnWall(x: int, size: int, before: int, after: int, vp: int, vp1: int, screen: int, count: int)
    requires screen > 0 && 0 <= vp < count && 0 <= vp1 < count && OnWall(x, size, before, after, screen, count)
    requires count > 1 ==> before + size + after <= screen * count - screen
    ensures OnWall(x + Movement(x, size, before, after, (vp1 - vp) * -screen, screen, count), size, before, after,
                   screen, count)
  {
    hide OnWall;
    if count > 1 {
      MovementStaysOnWall(x, size, before, after, (vp1 - vp) * -screen, screen, count);
    } else {
      WallPositive(screen, count);
      assert (vp1 - vp) * -screen == 0 && Rem(0, screen * count) == 0;
    }
  }

  lemma BackToPlace(vp: int, vp1: int, screen: int)
    ensures (vp1 - vp) * -screen + vp1 * screen == vp * screen
  {
    Distribute(vp1 - vp, vp, screen);
    assert (vp1 - vp) * -screen == -((vp1 - vp) * screen);
  }

  /** Where a window belongs on the wall: moving the viewport by `vp1 - vp` screens and the window along
      does not change that, up to whole walls. */
  lemma PlaceConserved(x: int, size: int, before: int, after: int, vp: int, vp1: int, screen: int, count: int)
    requires screen > 0 && count > 0
    ensures screen * count > 0
    ensures var x1 := x + Movement(x, size, before, after, (vp1 - vp) * -screen, screen, count);
            (x1 + vp1 * screen) % (screen * count) == (x + vp * screen) % (screen * count)
  {
    WallPositive(screen, count);
    var offset := (vp1 - vp) * -screen;
    MovementCongruent(x, size, before, after, offset, screen, count);
    var m := Movement(x, size, before, after, offset, screen, count);
    var k :| Apart(m, offset, screen * count, k);
    BackToPlace(vp, vp1, screen);
    assert Apart(x + m + vp1 * screen, x + vp * screen, screen * count, k);
    CongruentMod(x + m + vp1 * screen, x + vp * screen, screen * count);
  }

  /** A window moves by whole screens when the viewport does. */
  lemma WholeScreens(x: int, size: int, before: int, after: int, vp: int, vp1: int, screen: int, count: int)
    requires screen > 0 && count > 0
    ensures Congruent(Movement(x, size, before, after, (vp1 - vp) * -screen, screen, count), 0, screen)
  {
    var offset := (vp1 - vp) * -screen;
    MovementCongruent(x, size, before, after, offset, screen, count);
    var m := Movement(x, size, before, after, offset, screen, count);
    var k :| Apart(m, offset, screen * count, k);
    Screens(m, vp1 - vp, screen, count, k);
  }

  lemma Screens(m: int, t: int, screen: int, count: int, k: int)
    requires Apart(m, t * -screen, screen * count, k)
    ensures Congruent(m, 0, screen)
  {
    var a := k * count;
    assert k * (screen * count) == a * screen;
    assert t * -screen == (-t) * screen;
    Distribute(-t, a, screen);
    assert Apart(m, 0, screen, a - t);
  }

  /** The index of the viewport that a window is found on, counted from the current one. */
  function VpIndex(x: int, screen: int): int
    requires screen > 0
  {
    Quot(x, screen) - if x < 0 then 1 else 0
  }

  lemma QuotNegative(x: int, screen: int)
    requires screen > 0 && x < 0
    ensures Quot(x, screen) <= 0 && x / screen <= -1
  {
    DivMod(x, screen);
    NonNegative(x / screen, screen);
  }

  /** Where a window goes that is on a viewport from index `count` on. */
  function Rehomed(x: int, vp: int, count: int, screen: int): int
    requires screen > 0
  {
    var v := VpIndex(x, screen) + vp;
    if v >= count then x + (count - 1 - v) * screen else x
  }

  /** A window ends on a viewport below `count`, moved by whole screens, and only if it has to be. */
  lemma RehomedInside(x: int, vp: int, count: int, screen: int)
    requires screen > 0 && 0 <= vp < count
    ensures Congruent(Rehomed(x, vp, count, screen), x, screen)
    ensures Rehomed(x, vp, count, screen) / screen + vp == if x / screen + vp < count then x / screen + vp else count - 1
    ensures x / screen + vp < count ==> Rehomed(x, vp, count, screen) == x
  {
    if x < 0 {
      QuotNegative(x, screen);
      assert Apart(x, x, screen, 0);
    } else {
      var k := if VpIndex(x, screen) + vp >= count then count - 1 - (VpIndex(x, screen) + vp) else 0;
      DivMod(x, screen);
      assert (x / screen + k) * screen == x / screen * screen + k * screen;
      ModUnique(x + k * screen, screen, x / screen + k, x % screen);
      assert Apart(Rehomed(x, vp, count, screen), x, screen, k);
    }
  }
}
