/** What any number of requests to raise windows keeps. */
module RaiseTheorems {
  import opened Sequences
  import opened TransientForest
  import opened Values
  import opened Windows
  import opened Stacking
  import opened LayerOrder
  import opened RestackProofs
  import opened ReplayProofs
  import opened RestackOrder
  import opened WalkOrder
  import opened RestackGroups
  import opened GroupWalks
  import opened GroupClashes
  import opened Docks
  import opened DockOrder

  lemma FoundAbove(c: Scene, w: Window, active: bool)
    requires c.Valid() && w in c.wins
    ensures var r := Place(c, w, active);
            r.Some? ==> r.value in c.wins && r.value != w
  {
  }

  lemma BottomPermutes(stack: seq<Window>, w: Window)
    requires Distinct(stack) && w in stack
    ensures Distinct([w] + Remove(stack, w))
    ensures forall x :: x in [w] + Remove(stack, w) <==> x in stack
  {
    RemoveDistinct(stack, w);
    DistinctConcat([w], Remove(stack, w));
  }

  /** Whether a raise leaves the stack as it is: `w` stands already where it belongs, or it is managed and the
      window found goes along with it. */
  ghost predicate Unmoved(c: Scene, w: Window, active: bool, pending: bool)
    requires c.Valid() && w in c.wins
  {
    match Place(c, w, active)
    case None => Below(c.stack, w) == NONE
    case Some(sibling) => (Below(c.stack, w) == sibling && !pending) || (c.wins[w].managed && GoesAlong(c, sibling, w))
  }

  lemma UnmovedStays(c: Scene, w: Window, active: bool, pending: bool)
    requires c.Valid() && w in c.wins && Unmoved(c, w, active, pending)
    ensures Raise(c, w, active, pending) == c.stack
  {
    hide Place, StackTransients, GoesAlong;
    match Place(c, w, active)
    case None =>
    case Some(sibling) => WalkEndsIff(c, w, sibling);
  }

  /** No two main windows of a group clash when `w` is raised. */
  ghost predicate PlaceClear(c: Scene, w: Window, active: bool)
    requires c.Valid() && w in c.wins
  {
    Place(c, w, active).Some? && c.wins[w].managed ==> !Clash(c, w, Place(c, w, active).value)
  }

  /** With any groups: a request to raise a window loses none, and lists none twice, if and only if it leaves the
      stack as it is or no two main windows clash. */
  lemma RaiseKeepsAllIff(c: Scene, w: Window, active: bool, pending: bool)
    requires c.Valid() && w in c.wins
    ensures SameWindows(Raise(c, w, active, pending), c.stack) <==>
              Unmoved(c, w, active, pending) || PlaceClear(c, w, active)
  {
    hide Restacked, MoveAbove, Stops, Place, Clash, GoesAlong;
    FoundAbove(c, w, active);
    if Unmoved(c, w, active, pending) {
      UnmovedStays(c, w, active, pending);
    } else {
      match Place(c, w, active)
      case None =>
        BottomPermutes(c.stack, w);
      case Some(sibling) =>
        if c.wins[w].managed {
          RestackedKeepsAllIff(c, w, sibling);
        } else {
          AloneKeepsAll(c, w, sibling);
        }
    }
  }

  lemma AloneKeepsAll(c: Scene, w: Window, sibling: Window)
    requires c.Valid() && w in c.wins && sibling in c.wins && w != sibling && !c.wins[w].managed
    ensures SameWindows(Restacked(c, w, sibling), c.stack)
  {
    MoveKeeps(c.stack, w, sibling);
  }

  /** Where the search stops at an ancestor: it is not passed over and on the server, the window is not
      stacked with the desktop, and no fullscreen window bars it. */
  lemma AncestorStops(c: Scene, w: Window, aboveFs: bool, z: Window)
    requires c.Valid() && w in c.wins && z in c.wins && Under(c, w, z)
    requires !Avoided(c.wins[z]) && c.wins[z].onServer && StackType(c, w) != Desktop
    requires StackType(c, w) in {Fullscreen, Dock}
             || (if aboveFs then c.wins[z].wtype == Fullscreen ==> c.wins[z].focusable
                 else c.wins[z].wtype != Fullscreen && !HasAncestorOf(c, z, {Fullscreen}))
    ensures Stops(c, w, aboveFs, z)
  {
    UnderRank(c, w, z);
    if StackType(c, w) !in {Fullscreen, Dock} {
      NoDockAbove(c, w, z);
      TwoTypes(c, z);
    }
  }

  lemma {:induction false} NoDockAbove(c: Scene, w: Window, z: Window)
    requires c.Valid() && w in c.wins && z in c.wins && Under(c, w, z) && !HasAncestorOf(c, w, {Dock})
    ensures c.wins[z].wtype != Dock && !HasAncestorOf(c, z, {Dock})
    decreases RankOf(c.Links())(w)
  {
    var up := c.wins[w].transientFor;
    UnderStep(c, w, z);
    if up != z {
      ParentRank(c, w);
      NoDockAbove(c, up, z);
    }
  }

  lemma {:induction false} TwoTypes(c: Scene, z: Window)
    requires c.Valid() && z in c.wins
    ensures HasAncestorOf(c, z, {Dock, Fullscreen}) <==>
              HasAncestorOf(c, z, {Dock}) || HasAncestorOf(c, z, {Fullscreen})
    decreases RankOf(c.Links())(z)
  {
    var up := c.wins[z].transientFor;
    if up in c.wins {
      ParentRank(c, z);
      TwoTypes(c, up);
    }
  }

  lemma BottomKeepsShownBelow(c: Scene, w: Window)
    requires c.Valid() && w in c.wins && ShownBelow(c, c.stack)
    requires forall z :: Shown(c, z) ==> !Under(c, w, z)
    ensures ShownBelow(c, [w] + Remove(c.stack, w))
  {
    hide Shown, Under, Remove, IndexOf;
    RemovedAt(c.stack, w);
    var rest, at, r := Remove(c.stack, w), IndexOf(c.stack, w), [w] + Remove(c.stack, w);
    forall i, j | 0 <= i < |r| && 0 <= j < |r| && Shown(c, r[i]) && Shown(c, r[j]) && Under(c, r[i], r[j])
      ensures j < i
    {
      if i > 0 && j > 0 {
        var i', j' := if i - 1 < at then i - 1 else i, if j - 1 < at then j - 1 else j;
        assert r[j] == rest[j - 1] == c.stack[j'] && r[i] == rest[i - 1] == c.stack[i'];
      }
    }
  }

  /** The window found is no lower than any at which the search stops. */
  lemma FoundTopmost(c: Scene, w: Window, aboveFs: bool, sibling: Window, z: Window)
    requires c.Valid() && w in c.wins && FindSiblingBelow(c, w, aboveFs, |c.stack|) == Some(sibling)
    requires z in c.wins && Stops(c, w, aboveFs, z)
    ensures sibling in c.wins && sibling != w && Stops(c, w, aboveFs, sibling)
    ensures IndexOf(c.stack, z) <= IndexOf(c.stack, sibling)
  {
    hide Stops, FindSiblingBelow;
    var a := FoundAt(c, w, aboveFs, sibling);
    assert c.stack[IndexOf(c.stack, z)] == z;
  }

  /** Whether the place of a raised window is right for those it is transient for: above them, unless they go
      along. A window that is not managed takes nothing along. */
  ghost predicate PlaceFits(c: Scene, w: Window, active: bool)
    requires c.Valid() && w in c.wins
  {
    match Place(c, w, active)
    case None => forall z :: Shown(c, z) ==> !Under(c, w, z)
    case Some(sibling) =>
      FoundAbove(c, w, active);
      if c.wins[w].managed then NoneLeftAbove(c, w, sibling) else AloneFits(c, w, sibling)
  }

  /** No ancestor is above the sibling, and no transient at it or below. */
  ghost predicate AloneFits(c: Scene, w: Window, sibling: Window)
    requires c.Valid() && sibling in c.wins
  {
    && (forall z :: Shown(c, z) && Under(c, w, z) ==> IndexOf(c.stack, z) <= IndexOf(c.stack, sibling))
    && (forall x :: Shown(c, x) && Under(c, x, w) ==> IndexOf(c.stack, sibling) < IndexOf(c.stack, x))
  }

  /** No window that can be restacked, and that the window found is transient for, is above it. */
  ghost predicate PlaceSettled(c: Scene, w: Window, active: bool)
    requires c.Valid() && w in c.wins
  {
    FoundAbove(c, w, active);
    Place(c, w, active).Some? ==> Settled(c, Place(c, w, active).value)
  }

  lemma MovedBlock(stack: seq<Window>, w: Window, sibling: Window)
    requires Distinct(stack) && w in stack && sibling in stack && w != sibling
    ensures MoveAbove(stack, w, sibling) == Spliced(Without(stack, Elements([w])), sibling, [w])
  {
    ReplayBlock(stack, sibling, [w]);
    assert Replay(stack, sibling, [w]) == Replay(MoveAbove(stack, w, sibling), w, []);
  }

  lemma MovedShownIff(c: Scene, w: Window, sibling: Window)
    requires c.Valid() && Shown(c, w) && sibling in c.wins && w != sibling && ShownBelow(c, c.stack)
    ensures ShownBelow(c, MoveAbove(c.stack, w, sibling)) <==> AloneFits(c, w, sibling)
  {
    hide MoveAbove, Under, IndexOf, Restackable;
    MovedBlock(c.stack, w, sibling);
    NotUnderSelf(c, w);
    SplicedShownIff(c, c.stack, sibling, [w]);
    assert forall x :: x in [w] <==> x == w;
  }

  /** A request to put a window above one that is settled keeps the order just where its place is right. */
  lemma RestackedShownIff(c: Scene, w: Window, sibling: Window)
    requires c.Valid() && Shown(c, w) && sibling in c.wins && Settled(c, sibling) && w != sibling
    requires ShownBelow(c, c.stack) && DocksApart(c)
    requires c.wins[w].managed ==> !GoesAlong(c, sibling, w) && !Clash(c, w, sibling)
    ensures ShownBelow(c, Restacked(c, w, sibling)) <==>
              if c.wins[w].managed then NoneLeftAbove(c, w, sibling) else AloneFits(c, w, sibling)
  {
    hide WithDocks, ShownBelow, Under, IndexOf, DocksApart, MoveAbove, NoneLeftAbove, AloneFits, Settled;
    hide Replay, Block, StackTransients, GoesAlong, Clash;
    if c.wins[w].managed {
      RestackKeepsShownIff(c, w, sibling);
      RestackKeepsAllIff(c, w, sibling);
      WalkEndsIff(c, w, sibling);
      DocksApartKeepShown(c, w, Restack(c, w, sibling));
    } else {
      MovedShownIff(c, w, sibling);
    }
  }

  lemma BottomShownIff(c: Scene, w: Window)
    requires c.Valid() && Shown(c, w) && ShownBelow(c, c.stack)
    ensures ShownBelow(c, [w] + Remove(c.stack, w)) <==> forall z :: Shown(c, z) ==> !Under(c, w, z)
  {
    hide Shown, Under, Remove, IndexOf;
    ShownIsListed(c, w);
    var r := [w] + Remove(c.stack, w);
    BottomPermutes(c.stack, w);
    if forall z :: Shown(c, z) ==> !Under(c, w, z) {
      BottomKeepsShownBelow(c, w);
    } else {
      var z :| Shown(c, z) && Under(c, w, z);
      ShownIsListed(c, z);
      var j :| 0 <= j < |r| && r[j] == z;
      assert r[0] == w;
    }
  }

  lemma NoneIsNoWindow(c: Scene, x: Window)
    requires c.Valid() && x in c.wins
    ensures x != NONE
  {
  }

  lemma JustBelow(stack: seq<Window>, w: Window, sibling: Window)
    requires Distinct(stack) && w in stack && sibling in stack && Below(stack, w) == sibling && sibling != NONE
    ensures IndexOf(stack, w) == IndexOf(stack, sibling) + 1
  {
    assert stack[IndexOf(stack, sibling)] == stack[IndexOf(stack, w) - 1];
  }

  /** Raising a window, with any groups that do not clash, leaves every window that can be restacked above all
      those that it is transient for if and only if nothing moves or the place found for it is right. */
  lemma RaiseKeepsShownIff(c: Scene, w: Window, active: bool, pending: bool)
    requires c.Valid() && Shown(c, w) && DocksApart(c) && ShownBelow(c, c.stack)
    requires PlaceSettled(c, w, active) && PlaceClear(c, w, active)
    ensures ShownBelow(c, Raise(c, w, active, pending)) <==>
              Unmoved(c, w, active, pending) || PlaceFits(c, w, active)
  {
    hide Restacked, Place, ShownBelow, Under, Shown, IndexOf, DocksApart, NoneLeftAbove, AloneFits, Settled, GoesAlong;
    hide Clash;
    ShownIsListed(c, w);
    FoundAbove(c, w, active);
    if Unmoved(c, w, active, pending) {
      UnmovedStays(c, w, active, pending);
    } else {
      match Place(c, w, active)
      case None => BottomShownIff(c, w);
      case Some(sibling) => RestackedShownIff(c, w, sibling);
    }
  }

  /** The part that holds for a managed window whether or not it can itself be restacked. */
  lemma RaiseKeepsShownBelow(c: Scene, w: Window, active: bool, pending: bool)
    requires c.Valid() && w in c.wins && c.wins[w].managed && DocksApart(c) && ShownBelow(c, c.stack)
    requires PlaceSettled(c, w, active) && PlaceClear(c, w, active)
    requires Unmoved(c, w, active, pending) || PlaceFits(c, w, active)
    ensures ShownBelow(c, Raise(c, w, active, pending))
  {
    hide Restack, WithDocks, Place, ShownBelow, Under, IndexOf, DocksApart, NoneLeftAbove, Settled, GoesAlong, Clash;
    hide StackTransients;
    FoundAbove(c, w, active);
    if Unmoved(c, w, active, pending) {
      UnmovedStays(c, w, active, pending);
    } else {
      match Place(c, w, active)
      case None =>
        BottomKeepsShownBelow(c, w);
      case Some(sibling) =>
        RestackKeepsShownBelow(c, w, sibling);
        RestackKeepsAllIff(c, w, sibling);
        WalkEndsIff(c, w, sibling);
        DocksApartKeepShown(c, w, Restack(c, w, sibling));
    }
  }

  /** A window that may be left behind above some sibling, whatever the order of the stack: where the climb stops or
      further up, or a main window of the group that it comes to. */
  ghost predicate MayBeLeft(c: Scene, w: Window, sibling: Window, z: Window)
    requires c.Valid() && w in c.wins && z in c.wins
    decreases RankOf(c.Links())(w)
  {
    var a := c.wins[w].transientFor;
    if a in c.wins then
      if ClimbStops(c, w, a) || MeetsBeside(c, a, w, sibling) then Within(c, a, z)
      else
        assert c.Links()[w] == a;
        MayBeLeft(c, a, sibling, z)
    else
      && IsGroupTransient(c.wins[w], c.wins[w].clientLeader, c.root) && IsMain(c, z, w)
      && (ClimbStops(c, w, z) || MeetsBeside(c, z, w, sibling))
  }

  lemma {:induction false} GroupLeftMay(c: Scene, w: Window, sibling: Window, k: nat, z: Window)
    requires c.Valid() && w in c.wins && k <= |c.stack| && GroupLeft(c, w, sibling, k, z)
    ensures z in c.wins && IsMain(c, z, w) && (ClimbStops(c, w, z) || MeetsBeside(c, z, w, sibling))
    decreases k
  {
    hide IsMain, MeetsBeside, ClimbStops, StackTransients;
    var a := c.stack[k - 1];
    if !IsMain(c, a, w) || z != a {
      GroupLeftMay(c, w, sibling, k - 1, z);
    } else if !(MeetsBeside(c, a, w, sibling) || ClimbStops(c, w, a)) {
      GroupLeftMay(c, w, sibling, k - 1, z);
    }
  }

  lemma {:induction false} LeftBehindMay(c: Scene, w: Window, sibling: Window, z: Window)
    requires c.Valid() && w in c.wins && z in c.wins && LeftBehind(c, w, sibling, z)
    ensures MayBeLeft(c, w, sibling, z)
    decreases RankOf(c.Links())(w)
  {
    hide MeetsBeside, GroupLeft, IsMain, ClimbStops;
    var a := c.wins[w].transientFor;
    if a in c.wins {
      ParentRank(c, w);
      if !ClimbStops(c, w, a) && !MeetsBeside(c, a, w, sibling) {
        LeftBehindMay(c, a, sibling, z);
      }
    } else {
      GroupLeftMay(c, w, sibling, |c.stack|, z);
    }
  }

  /** What is asked of a window that is raised at any time, whatever the order of the stack: it is managed;
      the search stops only at windows that can be restacked, and somewhere if the window is transient for one;
      and it stops at the ancestors that its climb leaves behind. */
  ghost predicate Raisable(c: Scene, w: Window, active: bool)
    requires c.Valid() && w in c.wins
  {
    && c.wins[w].managed && GroupClear(c, w)
    && forall aboveFs :: (aboveFs ==> active) ==> SearchFits(c, w, aboveFs)
  }

  /** Where the climb from `w` ends at a window that is transient for a group, every main window of the group can
      be restacked and none is a desktop window. */
  ghost predicate GroupClear(c: Scene, w: Window)
    requires c.Valid() && w in c.wins
  {
    IsGroupTransient(c.wins[Top(c, w)], c.wins[Top(c, w)].clientLeader, c.root) ==>
      forall a :: a in c.wins && IsMain(c, a, Top(c, w)) ==> PutOn(c, a)
  }

  ghost predicate SearchFits(c: Scene, w: Window, aboveFs: bool)
    requires c.Valid() && w in c.wins
  {
    && (forall x :: x in c.wins && Stops(c, w, aboveFs, x) ==> Restackable(c, x))
    && (forall x, z :: (x in c.wins && Stops(c, w, aboveFs, x) && Shown(c, z) && MayBeLeft(c, w, x, z)) ==>
                         Stops(c, w, aboveFs, z) || Within(c, x, z))
    && ((exists x :: x in c.wins && Stops(c, w, aboveFs, x)) || forall z :: Shown(c, z) ==> !Under(c, w, z))
  }

  lemma RaisablePlace(c: Scene, w: Window, active: bool)
    requires c.Valid() && w in c.wins && Raisable(c, w, active) && ShownBelow(c, c.stack)
    ensures PlaceSettled(c, w, active) && PlaceClear(c, w, active) && PlaceFits(c, w, active)
  {
    hide Stops, ShownBelow, Under, IndexOf, LeftBehind, MayBeLeft, Settled, Clash, GroupClear, Shown;
    var aboveFs := AboveFs(c, w, active);
    assert SearchFits(c, w, aboveFs);
    match FindSiblingBelow(c, w, aboveFs, |c.stack|)
    case None =>
      forall x | x in c.wins
        ensures !Stops(c, w, aboveFs, x)
      {
        assert x in c.stack;
      }
    case Some(sibling) =>
      FoundAbove(c, w, active);
      IsShown(c, sibling);
      ShownSettled(c, sibling);
      ClearNoClash(c, w, sibling);
      forall z | Shown(c, z) && LeftBehind(c, w, sibling, z)
        ensures z in c.stack && IndexOf(c.stack, z) <= IndexOf(c.stack, sibling)
      {
        ShownIsListed(c, z);
        LeftBehindMay(c, w, sibling, z);
        if Stops(c, w, aboveFs, z) {
          FoundTopmost(c, w, aboveFs, sibling, z);
        } else {
          SettledBelow(c, sibling, z);
        }
      }
  }

  lemma IsShown(c: Scene, x: Window)
    requires x in c.wins && Restackable(c, x)
    ensures Shown(c, x)
  {
  }

  lemma SettledBelow(c: Scene, sibling: Window, z: Window)
    requires c.Valid() && sibling in c.wins && Settled(c, sibling) && Shown(c, z) && Within(c, sibling, z)
    ensures IndexOf(c.stack, z) <= IndexOf(c.stack, sibling)
  {
  }

  lemma {:induction false} ClearNoClash(c: Scene, w: Window, sibling: Window)
    requires c.Valid() && w in c.wins && GroupClear(c, w)
    ensures !Clash(c, w, sibling)
    decreases RankOf(c.Links())(w)
  {
    hide StackTransients, IsMain, PutOn, IsGroupTransient;
    var a := c.wins[w].transientFor;
    if a in c.wins {
      ParentRank(c, w);
      if a != sibling {
        assert Top(c, w) == Top(c, a);
        ClearNoClash(c, a, sibling);
      } else {
        IsNoGroupTransient(c, w);
      }
    } else if IsGroupTransient(c.wins[w], c.wins[w].clientLeader, c.root) {
      NoGroupClash(c, w, sibling, |c.stack|);
    }
  }

  lemma IsNoGroupTransient(c: Scene, w: Window)
    requires c.Valid() && w in c.wins && c.wins[w].transientFor in c.wins
    ensures !IsGroupTransient(c.wins[w], c.wins[w].clientLeader, c.root)
  {
  }

  datatype Request = Request(w: Window, active: bool, pending: bool)

  /** The stack after a request to raise a window. */
  function Requested(c: Scene, q: Request): seq<Window>
    requires c.Sound() && q.w in c.wins
  {
    Raise(c, q.w, q.active, q.pending)
  }

  lemma RaisedSound(c: Scene, q: Request)
    requires c.Sound() && q.w in c.wins
    ensures c.(stack := Requested(c, q)).Sound()
  {
    hide Place, Restacked, Stacked, Remove, Below;
    AlreadyStacked(c);
    BottomStacked(c.wins, c.stack, q.w);
    match Place(c, q.w, q.active)
    case None =>
      StackedSound(c, Requested(c, q));
    case Some(sibling) =>
      RestackedStacked(c, q.w, sibling);
      StackedSound(c, Requested(c, q));
  }

  /** A run of requests to raise windows. */
  ghost function Run(c: Scene, requests: seq<Request>): (r: Scene)
    requires c.Sound() && forall q :: q in requests ==> q.w in c.wins
    ensures r.Sound() && r.wins == c.wins && r.root == c.root
  {
    hide Scene.Sound, Requested;
    if requests == [] then c
    else
      var before := Run(c, requests[..|requests| - 1]);
      var q := requests[|requests| - 1];
      RaisedSound(before, q);
      before.(stack := Requested(before, q))
  }

  /** A raised window of a plain stack ends on top of its layer: above every window that the debugger looks at in
      it and in the layers below, but for docks that are to be kept above. */
  lemma RaisedToTop(c: Scene, w: Window, active: bool, pending: bool, x: Window)
    requires c.Valid() && Plain(c) && w in c.wins && x in c.wins && x != w && Considered(c.wins[x])
    requires Layer(c.wins[x]) <= Layer(c.wins[w]) && !DockKeptAbove(c.wins[w], c.wins[x])
    ensures var r := Raise(c, w, active, pending);
            w in r && x in r && IndexOf(r, x) < IndexOf(r, w)
  {
    hide Stops, Restacked, Plain, FindSiblingBelow, MoveAbove, IndexOf, Scene.Sound, Considered, Layer;
    var aboveFs := AboveFs(c, w, active);
    StopsByLayerIff(c, w, aboveFs, x);
    ValidLists(c, w);
    ValidLists(c, x);
    FoundAbove(c, w, active);
    match FindSiblingBelow(c, w, aboveFs, |c.stack|)
    case Some(sibling) =>
      FoundTopmost(c, w, aboveFs, sibling, x);
      if Below(c.stack, w) == sibling && !pending {
        NoneIsNoWindow(c, sibling);
        JustBelow(c.stack, w, sibling);
      } else {
        PlainRestack(c, w, sibling);
        MovedBlock(c.stack, w, sibling);
        SplicedOrder(c.stack, sibling, [w], x, w);
      }
  }

  lemma ValidLists(c: Scene, x: Window)
    requires c.Valid() && x in c.wins
    ensures c.Sound() && x in c.stack && Distinct(c.stack) && forall i :: 0 <= i < |c.stack| ==> c.stack[i] in c.wins
  {
  }

  /** No run of raises breaks the order of layers of a plain stack. */
  lemma {:induction false} RunsKeepLayers(c: Scene, requests: seq<Request>)
    requires c.Sound() && Plain(c) && forall q :: q in requests ==> q.w in c.wins
    requires LayersOrdered(c.wins, c.stack)
    ensures LayersOrdered(c.wins, Run(c, requests).stack)
  {
    hide Raise, Scene.Sound;
    if requests != [] {
      RunsKeepLayers(c, requests[..|requests| - 1]);
      var q := requests[|requests| - 1];
      RaiseKeepsLayers(Run(c, requests[..|requests| - 1]), q.w, q.active, q.pending);
    }
  }

  lemma RaisedValid(c: Scene, q: Request)
    requires c.Valid() && q.w in c.wins && PlaceClear(c, q.w, q.active)
    ensures c.(stack := Requested(c, q)).Valid()
  {
    hide Raise, Scene.Sound, PlaceClear, Unmoved;
    RaisedSound(c, q);
    RaiseKeepsAllIff(c, q.w, q.active, q.pending);
  }

  /** No run of raises of such windows loses a window, or ever puts one that can be restacked below one that
      it is transient for, at any depth. */
  lemma {:induction false} RunsKeepShownBelow(c: Scene, requests: seq<Request>)
    requires c.Valid() && DocksApart(c) && ShownBelow(c, c.stack)
    requires forall q :: q in requests ==> q.w in c.wins && Raisable(c, q.w, q.active)
    ensures Run(c, requests).Valid() && ShownBelow(Run(c, requests), Run(c, requests).stack)
  {
    hide Raise, Scene.Sound, Raisable, ShownBelow, DocksApart;
    if requests != [] {
      var before := Run(c, requests[..|requests| - 1]);
      var q := requests[|requests| - 1];
      RunsKeepShownBelow(c, requests[..|requests| - 1]);
      OneMoreRaise(c, before, q);
    }
  }

  lemma OneMoreRaise(c: Scene, before: Scene, q: Request)
    requires c.Valid() && before.Valid() && c.wins == before.wins && c.root == before.root
    requires DocksApart(c) && ShownBelow(before, before.stack) && q.w in c.wins && Raisable(c, q.w, q.active)
    ensures var after := before.(stack := Requested(before, q));
            after.Valid() && ShownBelow(after, after.stack)
  {
    hide Raise, Scene.Sound, Raisable, ShownBelow, DocksApart, PlaceFits, PlaceSettled, PlaceClear, Unmoved;
    var after := before.(stack := Requested(before, q));
    StaysRaisable(c, before, q.w, q.active);
    StaysApart(c, before);
    RaisablePlace(before, q.w, q.active);
    RaisedValid(before, q);
    assert before.wins[q.w].managed by {
      IsManaged(before, q.w, q.active);
    }
    RaiseKeepsShownBelow(before, q.w, q.active, q.pending);
    SameOrder(before, after, after.stack);
  }

  lemma IsManaged(c: Scene, w: Window, active: bool)
    requires c.Valid() && w in c.wins && Raisable(c, w, active)
    ensures c.wins[w].managed
  {
  }

  lemma {:induction false} SameAncestors(c: Scene, d: Scene, w: Window, types: set<WindowType>)
    requires c.Valid() && d.Valid() && c.wins == d.wins && w in c.wins
    ensures HasAncestorOf(c, w, types) == HasAncestorOf(d, w, types)
    decreases RankOf(c.Links())(w)
  {
    var up := c.wins[w].transientFor;
    if up in c.wins {
      ParentRank(c, w);
      SameAncestors(c, d, up, types);
    }
  }

  lemma SameStops(c: Scene, d: Scene, w: Window, aboveFs: bool, below: Window)
    requires c.Valid() && d.Valid() && c.wins == d.wins && c.root == d.root && w in c.wins && below in c.wins
    ensures Stops(c, w, aboveFs, below) == Stops(d, w, aboveFs, below)
  {
    hide HasAncestorOf, IsGroupTransient, Avoided;
    SameAncestors(c, d, w, {Dock});
    SameAncestors(c, d, below, Barred(aboveFs));
    assert c.Links() == d.Links();
  }

  lemma StaysApart(c: Scene, d: Scene)
    requires c.Valid() && d.Valid() && c.wins == d.wins && DocksApart(c)
    ensures DocksApart(d)
  {
    assert c.Links() == d.Links();
    assert forall x, y :: Under(c, x, y) == Under(d, x, y);
    assert forall x :: Shown(c, x) == Shown(d, x) && IsDock(c, x) == IsDock(d, x);
    assert forall x :: IsFullscreen(c, x) == IsFullscreen(d, x);
  }

  lemma SameOrder(c: Scene, d: Scene, stack: seq<Window>)
    requires c.Valid() && d.Valid() && c.wins == d.wins
    ensures ShownBelow(c, stack) == ShownBelow(d, stack)
  {
    assert c.Links() == d.Links();
    assert forall x, y :: Under(c, x, y) == Under(d, x, y);
    assert forall x :: Shown(c, x) == Shown(d, x);
  }

  lemma {:induction false} SameMayBeLeft(c: Scene, d: Scene, w: Window, sibling: Window, z: Window)
    requires c.Valid() && d.Valid() && c.wins == d.wins && c.root == d.root && w in c.wins && z in c.wins
    ensures MayBeLeft(c, w, sibling, z) == MayBeLeft(d, w, sibling, z)
    decreases RankOf(c.Links())(w)
  {
    hide MeetsBeside;
    var a := c.wins[w].transientFor;
    assert c.Links() == d.Links();
    SameBeside(c, d, z, w, sibling);
    if a in c.wins {
      ParentRank(c, w);
      SameBeside(c, d, a, w, sibling);
      SameMayBeLeft(c, d, a, sibling, z);
    }
  }

  lemma SameBeside(c: Scene, d: Scene, a: Window, w: Window, sibling: Window)
    requires c.Valid() && d.Valid() && c.wins == d.wins && c.root == d.root && a in c.wins
    ensures MeetsBeside(c, a, w, sibling) == MeetsBeside(d, a, w, sibling)
  {
    assert c.Links() == d.Links();
    assert forall t :: t in c.wins ==> Follows(c, t, a) == Follows(d, t, a);
    assert forall t :: Within(c, sibling, t) == Within(d, sibling, t);
  }

  lemma {:induction false} SameTop(c: Scene, d: Scene, w: Window)
    requires c.Valid() && d.Valid() && c.wins == d.wins && w in c.wins
    ensures Top(c, w) == Top(d, w)
    decreases RankOf(c.Links())(w)
  {
    if c.wins[w].transientFor in c.wins {
      ParentRank(c, w);
      SameTop(c, d, c.wins[w].transientFor);
    }
  }

  lemma StaysClear(c: Scene, d: Scene, w: Window)
    requires c.Valid() && d.Valid() && c.wins == d.wins && c.root == d.root && w in c.wins && GroupClear(c, w)
    ensures GroupClear(d, w)
  {
    SameTop(c, d, w);
    assert forall a :: a in c.wins ==> IsMain(c, a, Top(c, w)) == IsMain(d, a, Top(c, w)) && PutOn(c, a) == PutOn(d, a);
  }

  lemma StaysRaisable(c: Scene, d: Scene, w: Window, active: bool)
    requires c.Valid() && d.Valid() && c.wins == d.wins && c.root == d.root
    requires w in c.wins && Raisable(c, w, active)
    ensures Raisable(d, w, active)
  {
    hide Stops, MayBeLeft, GroupClear;
    assert c.Links() == d.Links();
    StaysClear(c, d, w);
    forall aboveFs, x | x in c.wins
      ensures Stops(c, w, aboveFs, x) == Stops(d, w, aboveFs, x)
    {
      SameStops(c, d, w, aboveFs, x);
    }
    forall x, z | z in c.wins
      ensures MayBeLeft(c, w, x, z) == MayBeLeft(d, w, x, z)
    {
      SameMayBeLeft(c, d, w, x, z);
    }
    assert forall x, z :: Within(c, x, z) == Within(d, x, z);
    assert forall x :: Shown(c, x) == Shown(d, x);
    assert forall z :: Under(c, w, z) == Under(d, w, z);
    forall aboveFs: bool | aboveFs ==> active
      ensures SearchFits(d, w, aboveFs)
    {
      assert SearchFits(c, w, aboveFs);
    }
  }
}
