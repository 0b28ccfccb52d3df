/** The docks that are put above the other windows again after a restack, where there is a fullscreen
    window. */
module Docks {
  import opened Sequences
  import opened TransientForest
  import opened Values
  import opened Windows
  import opened Stacking
  import opened ReplayProofs
  import opened RestackGroups
  import GroupClashes
  import GroupWalks

  predicate IsFullscreen(c: Scene, x: Window) {
    x in c.wins && c.wins[x].wtype == Fullscreen
  }

  predicate IsDock(c: Scene, x: Window) {
    x in c.wins && c.wins[x].wtype == Dock
  }

  predicate HasFullscreen(c: Scene, stack: seq<Window>) {
    exists i :: 0 <= i < |stack| && IsFullscreen(c, stack[i])
  }

  /** Whether `x` is a window in use that docks may be put above when `w` has been restacked. */
  predicate CarriesDocks(c: Scene, w: Window, x: Window)
    requires c.Sound() && w in c.wins
  {
    x in c.wins &&
    var p := c.wins[x];
    && p.managed && !p.unmanaging && !p.hidden && p.wtype !in {Fullscreen, Dock}
    && !IsAncestorTo(c.Links(), w, x) && !p.overrideRedirect && p.viewable && p.onServer
  }

  /** The window that the docks are put above: among the lowest `k`, the topmost one in use above a
      fullscreen window. */
  function BelowDocks(c: Scene, w: Window, stack: seq<Window>, k: nat): (r: Option<Window>)
    requires c.Sound() && w in c.wins && k <= |stack|
    ensures r.Some? ==> CarriesDocks(c, w, r.value)
                        && exists i :: 0 <= i < k && stack[i] == r.value && HasFullscreen(c, stack[..i])
                                       && forall j :: i < j < k ==> !CarriesDocks(c, w, stack[j])
    ensures r.None? ==> forall i :: 0 <= i < k && HasFullscreen(c, stack[..i]) ==> !CarriesDocks(c, w, stack[i])
  {
    if k == 0 then None
    else if HasFullscreen(c, stack[..k - 1]) && CarriesDocks(c, w, stack[k - 1]) then Some(stack[k - 1])
    else BelowDocks(c, w, stack, k - 1)
  }

  /** The docks of a stack, in its order. */
  function DocksOf(c: Scene, stack: seq<Window>): (r: seq<Window>)
    ensures forall x :: x in r <==> x in stack && IsDock(c, x)
  {
    if stack == [] then []
    else (if IsDock(c, stack[0]) then [stack[0]] else []) + DocksOf(c, stack[1..])
  }

  /** The moves of a list of windows, from its end on, each just above `sibling`. */
  function MoveEach(stack: seq<Window>, sibling: Window, list: seq<Window>): seq<Window>
    decreases |list|
  {
    if list == [] then stack
    else MoveEach(MoveAbove(stack, list[|list| - 1], sibling), sibling, list[..|list| - 1])
  }

  /** A stack after the docks have been put above the windows in use. */
  function WithDocks(c: Scene, w: Window, stack: seq<Window>): seq<Window>
    requires c.Sound() && w in c.wins
  {
    match BelowDocks(c, w, stack, |stack|)
    case None => stack
    case Some(below) => MoveEach(stack, below, DocksOf(c, stack))
  }

  /** The stack after a request to put `w` above `sibling`: a window that is not managed moves alone. */
  function Restacked(c: Scene, w: Window, sibling: Window): seq<Window>
    requires c.Sound() && w in c.wins
  {
    if !c.wins[w].managed then MoveAbove(c.stack, w, sibling)
    else if !StackTransients(c, w, NONE, sibling).ok then c.stack
    else WithDocks(c, w, Restack(c, w, sibling))
  }

  /** Exactly which window the docks go above: the topmost above a fullscreen window that is managed and not about
      to be unmanaged, neither hidden nor override-redirect, viewable and known to the server, neither a fullscreen
      window nor a dock, and no ancestor of `w`. */
  lemma CarrierIff(c: Scene, w: Window, stack: seq<Window>, i: nat)
    requires c.Sound() && w in c.wins && Distinct(stack) && i < |stack| && (forall x :: x in stack ==> x in c.wins)
    ensures BelowDocks(c, w, stack, |stack|) == Some(stack[i]) <==>
              && InUse(c.wins[stack[i]]) && !IsAncestorTo(c.Links(), w, stack[i]) && HasFullscreen(c, stack[..i])
              && forall j :: i < j < |stack| && InUse(c.wins[stack[j]]) ==> IsAncestorTo(c.Links(), w, stack[j])
  {
    hide CarriesDocks, IsAncestorTo, HasFullscreen, InUse;
    forall j | 0 <= j < |stack|
      ensures CarriesDocks(c, w, stack[j]) <==> InUse(c.wins[stack[j]]) && !IsAncestorTo(c.Links(), w, stack[j])
      ensures i <= j && HasFullscreen(c, stack[..i]) ==> HasFullscreen(c, stack[..j])
    {
      assert stack[j] in c.wins;
      CarriesIff(c, w, stack[j]);
      if i <= j && HasFullscreen(c, stack[..i]) {
        FullscreenFurther(c, stack, i, j);
      }
    }
    LowestFullscreen(c, w, stack, i);
  }

  lemma CarriesIff(c: Scene, w: Window, x: Window)
    requires c.Sound() && w in c.wins && x in c.wins
    ensures CarriesDocks(c, w, x) <==> InUse(c.wins[x]) && !IsAncestorTo(c.Links(), w, x)
  {
    hide IsAncestorTo;
  }

  lemma FullscreenFurther(c: Scene, stack: seq<Window>, i: nat, j: nat)
    requires i <= j <= |stack| && HasFullscreen(c, stack[..i])
    ensures HasFullscreen(c, stack[..j])
  {
    var k :| 0 <= k < i && IsFullscreen(c, stack[..i][k]);
    assert stack[..j][k] == stack[k];
  }

  /** The window found in terms of those that carry docks. */
  lemma LowestFullscreen(c: Scene, w: Window, stack: seq<Window>, i: nat)
    requires c.Sound() && w in c.wins && Distinct(stack) && i < |stack|
    requires forall j :: i <= j < |stack| && HasFullscreen(c, stack[..i]) ==> HasFullscreen(c, stack[..j])
    ensures BelowDocks(c, w, stack, |stack|) == Some(stack[i]) <==>
              && CarriesDocks(c, w, stack[i]) && HasFullscreen(c, stack[..i])
              && forall j :: i < j < |stack| ==> !CarriesDocks(c, w, stack[j])
  {
    hide CarriesDocks, HasFullscreen, BelowDocks;
  }

  predicate InUse(p: Props) {
    && p.managed && !p.unmanaging && !p.hidden && !p.overrideRedirect && p.viewable && p.onServer
    && p.wtype != Fullscreen && p.wtype != Dock
  }

  /** Without a fullscreen window the docks stay where they are. */
  lemma NoFullscreenNoDocks(c: Scene, w: Window, stack: seq<Window>)
    requires c.Sound() && w in c.wins && forall x :: x in stack ==> !IsFullscreen(c, x)
    ensures WithDocks(c, w, stack) == stack
  {
  }

  lemma {:induction false} DocksDistinct(c: Scene, stack: seq<Window>)
    requires Distinct(stack)
    ensures Distinct(DocksOf(c, stack))
  {
    if stack != [] {
      DocksDistinct(c, stack[1..]);
      assert stack[0] !in stack[1..];
    }
  }

  /** The moved windows end up in one block just above the sibling, in their order. */
  lemma {:induction false} MoveEachBlock(stack: seq<Window>, sibling: Window, list: seq<Window>)
    requires Distinct(stack) && Distinct(list) && sibling in stack && sibling !in list
    requires forall x :: x in list ==> x in stack
    ensures MoveEach(stack, sibling, list) == Spliced(Without(stack, Elements(list)), sibling, list)
    decreases |list|
  {
    if list == [] {
      assert Elements(list) == {};
      WithoutNothing(stack);
    } else {
      var n := |list| - 1;
      var x, more := list[n], list[..n];
      assert list == more + [x] && x !in more;
      var pre, post := Around(stack, x, sibling);
      MoveEachBlock(pre + [sibling, x] + post, sibling, more);
      LastMove(stack, pre, sibling, x, post, more);
    }
  }

  lemma LastMove(stack: seq<Window>, pre: seq<Window>, sibling: Window, x: Window, post: seq<Window>,
                 more: seq<Window>)
    requires Distinct(stack) && Remove(stack, x) == pre + [sibling] + post
    requires sibling !in pre && x !in pre && x != sibling && x !in more && sibling !in more
    ensures Spliced(Without(pre + [sibling, x] + post, Elements(more)), sibling, more)
         == Spliced(Without(stack, Elements(more + [x])), sibling, more + [x])
  {
    hide Spliced, Without, Remove;
    var p, q := Without(pre, Elements(more)), Without(post, Elements(more));
    assert Without(stack, Elements(more + [x])) == p + [sibling] + q by {
      assert Elements(more + [x]) == {x} + Elements(more);
      WithoutTwice(stack, x, Elements(more));
      WithoutParts(pre, sibling, post, Elements(more));
    }
    assert Without(pre + [sibling, x] + post, Elements(more)) == p + [sibling] + ([x] + q) by {
      assert pre + [sibling, x] + post == pre + [sibling] + ([x] + post);
      WithoutParts(pre, sibling, [x] + post, Elements(more));
      WithoutConcat([x], post, Elements(more));
      WithoutOne(x, Elements(more));
    }
    SplicedBetween(p, sibling, q, more + [x]);
    SplicedBetween(p, sibling, [x] + q, more);
    assert p + [sibling] + more + ([x] + q) == p + [sibling] + (more + [x]) + q;
  }

  /** What becomes of the stack: the docks form one block above the topmost window in use that is above a
      fullscreen window, and neither they nor the others change their order. */
  lemma DocksBlock(c: Scene, w: Window, stack: seq<Window>)
    requires c.Sound() && w in c.wins && Stacked(c.wins, stack)
    requires BelowDocks(c, w, stack, |stack|).Some?
    ensures var below, docks := BelowDocks(c, w, stack, |stack|).value, DocksOf(c, stack);
            && below in stack && below !in docks && Distinct(docks)
            && WithDocks(c, w, stack) == Spliced(Without(stack, Elements(docks)), below, docks)
  {
    hide CarriesDocks, HasFullscreen;
    var below, docks := BelowDocks(c, w, stack, |stack|).value, DocksOf(c, stack);
    CarrierIsNoDock(c, w, below);
    DocksDistinct(c, stack);
    MoveEachBlock(stack, below, docks);
  }

  lemma CarrierIsNoDock(c: Scene, w: Window, x: Window)
    requires c.Sound() && w in c.wins && CarriesDocks(c, w, x)
    ensures x in c.wins && !IsDock(c, x)
  {
  }

  lemma {:induction false} MoveEachStacked(wins: Wins, stack: seq<Window>, sibling: Window, list: seq<Window>)
    requires Stacked(wins, stack) && forall x :: x in list ==> x in wins
    ensures Stacked(wins, MoveEach(stack, sibling, list))
    decreases |list|
  {
    hide MoveAbove, Stacked;
    if list != [] {
      MoveStacked(wins, stack, list[|list| - 1], sibling);
      MoveEachStacked(wins, MoveAbove(stack, list[|list| - 1], sibling), sibling, list[..|list| - 1]);
    }
  }

  lemma RestackedStacked(c: Scene, w: Window, sibling: Window)
    requires c.Sound() && w in c.wins
    ensures Stacked(c.wins, Restacked(c, w, sibling))
  {
    hide Restack, MoveAbove, BelowDocks, StackTransients;
    RestackStacked(c, w, sibling);
    if c.wins[w].managed {
      var mid := Restack(c, w, sibling);
      if BelowDocks(c, w, mid, |mid|).Some? {
        MoveEachStacked(c.wins, mid, BelowDocks(c, w, mid, |mid|).value, DocksOf(c, mid));
      }
    } else {
      MoveStacked(c.wins, c.stack, w, sibling);
    }
  }

  lemma {:induction false} MoveEachSame(stack: seq<Window>, sibling: Window, list: seq<Window>)
    requires Distinct(stack) && sibling in stack && sibling !in list && forall x :: x in list ==> x in stack
    ensures SameWindows(MoveEach(stack, sibling, list), stack)
    decreases |list|
  {
    hide MoveAbove, Distinct;
    if list != [] {
      var n := |list| - 1;
      MoveKeeps(stack, list[n], sibling);
      MoveEachSame(MoveAbove(stack, list[n], sibling), sibling, list[..n]);
    }
  }

  /** Moving the docks loses no window. */
  lemma DocksSame(c: Scene, w: Window, stack: seq<Window>)
    requires c.Sound() && w in c.wins && Distinct(stack)
    ensures SameWindows(WithDocks(c, w, stack), stack)
  {
    hide CarriesDocks, HasFullscreen;
    if BelowDocks(c, w, stack, |stack|).Some? {
      var below := BelowDocks(c, w, stack, |stack|).value;
      CarrierIsNoDock(c, w, below);
      MoveEachSame(stack, below, DocksOf(c, stack));
    }
  }

  /** So a whole request keeps every window if and only if its restack does, which it does where no two main
      windows of a group clash. */
  lemma RestackedKeepsAllIff(c: Scene, w: Window, sibling: Window)
    requires c.Valid() && w in c.wins && sibling in c.wins && w != sibling && c.wins[w].managed
    requires !GroupWalks.GoesAlong(c, sibling, w)
    ensures SameWindows(Restacked(c, w, sibling), c.stack) <==> !GroupClashes.Clash(c, w, sibling)
  {
    hide Restack, WithDocks, StackTransients, GroupClashes.Clash, GroupWalks.GoesAlong;
    GroupWalks.WalkEndsIff(c, w, sibling);
    RestackStacked(c, w, sibling);
    DocksSame(c, w, Restack(c, w, sibling));
    RestackKeepsAllIff(c, w, sibling);
  }
}
