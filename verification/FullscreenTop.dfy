/** What becomes of a fullscreen window that is raised while it is the active one. */
module FullscreenTop {
  import opened Sequences
  import opened TransientForest
  import opened Values
  import opened Windows
  import opened Stacking
  import opened RestackProofs
  import opened RestackTheorems
  import opened RestackOrder
  import opened WalkOrder
  import opened GroupWalks
  import opened GroupClashes
  import opened GroupBlocks
  import opened RestackGroups
  import opened Docks
  import opened LayerOrder
  import opened RaiseTheorems

  /** A managed fullscreen window that is stacked as one. */
  ghost predicate ActiveFullscreen(c: Scene, w: Window)
    requires c.Valid()
  {
    w in c.wins && c.wins[w].managed && c.wins[w].wtype == Fullscreen && StackType(c, w) == Fullscreen
  }

  /** A window that the search does not pass over, other than `w`, what goes along with it and the docks. */
  ghost predicate Rival(c: Scene, w: Window, x: Window)
    requires c.Valid() && w in c.wins
  {
    x in c.wins && x != w && !Avoided(c.wins[x]) && !GoesAlong(c, x, w) && !IsDock(c, x)
  }

  /** In this stack `w` is above all its rivals. */
  ghost predicate OnTop(c: Scene, w: Window, stack: seq<Window>)
    requires c.Valid() && w in c.wins && forall x :: x in c.wins ==> x in stack
  {
    forall x :: Rival(c, w, x) ==> IndexOf(stack, x) < IndexOf(stack, w)
  }

  /** The search for an active fullscreen window stops wherever it does not pass over. */
  lemma StopsEverywhere(c: Scene, w: Window, x: Window)
    requires c.Valid() && ActiveFullscreen(c, w) && x in c.wins && x != w && !Avoided(c.wins[x])
    ensures AboveFs(c, w, true) && Stops(c, w, true, x)
  {
  }

  /** In a block, what does not go along with `w` stands below it. */
  lemma BlockBelow(c: Scene, w: Window, sibling: Window, x: Window)
    requires c.Valid() && w in c.wins && x in Moved(c, w, sibling) && x != w && !GoesAlong(c, x, w)
    ensures w in Moved(c, w, sibling) && IndexOf(Moved(c, w, sibling), x) < IndexOf(Moved(c, w, sibling), w)
  {
    hide StackTransients, StackAncestors, IndexOf, GoesAlong, LastOnly;
    var t, a := StackTransients(c, w, NONE, sibling).list, StackAncestors(c, w, sibling);
    MovedIff(c, w, sibling, x);
    InReverse(a, x);
    InReverse(t, x);
    InReverse(t, w);
    CollectedNotSelf(c, w, NONE, sibling);
    if x in t {
      CollectedGoesAlong(c, w, sibling, x);
    }
    assert Reverse(a) + [w] + Reverse(t) == Reverse(a) + ([w] + Reverse(t));
    LastBefore(Reverse(a), [w] + Reverse(t), x, w);
  }

  lemma CollectedGoesAlong(c: Scene, w: Window, sibling: Window, x: Window)
    requires c.Valid() && w in c.wins && x in StackTransients(c, w, NONE, sibling).list
    ensures GoesAlong(c, x, w)
  {
    var i := CollectedVia(c, w, NONE, sibling, x);
  }

  lemma RestackedOnTop(c: Scene, w: Window, sibling: Window, x: Window)
    requires c.Valid() && w in c.wins && sibling in c.wins && sibling != w
    requires !GoesAlong(c, sibling, w) && !Clash(c, w, sibling) && x in c.wins && x != w && !GoesAlong(c, x, w)
    requires IndexOf(c.stack, x) <= IndexOf(c.stack, sibling)
    ensures var r := Restack(c, w, sibling);
            w in r && x in r && IndexOf(r, x) < IndexOf(r, w)
  {
    hide StackTransients, Block, Restack, GoesAlong, Clash, LastOnly;
    GroupMovesBlock(c, w, sibling);
    if x in Moved(c, w, sibling) {
      BlockBelow(c, w, sibling, x);
    }
    SplicedOrder(c.stack, sibling, Moved(c, w, sibling), x, w);
  }

  /** Two windows that are no docks keep their order when the docks are moved. */
  lemma DocksLeaveOrder(c: Scene, w: Window, stack: seq<Window>, x: Window, y: Window)
    requires c.Valid() && w in c.wins && Stacked(c.wins, stack) && x in stack && y in stack && x != y
    requires !IsDock(c, x) && !IsDock(c, y) && IndexOf(stack, x) < IndexOf(stack, y)
    ensures var r := WithDocks(c, w, stack);
            x in r && y in r && IndexOf(r, x) < IndexOf(r, y)
  {
    hide BelowDocks, DocksOf, IsDock;
    if BelowDocks(c, w, stack, |stack|).Some? {
      DocksBlock(c, w, stack);
      SplicedOrder(stack, BelowDocks(c, w, stack, |stack|).value, DocksOf(c, stack), x, y);
    }
  }

  /** An active fullscreen window that is raised gets above all its rivals, unless the topmost window on show goes
      along with it. */
  lemma RaisedOnTop(c: Scene, w: Window, pending: bool, sibling: Window)
    requires c.Valid() && ActiveFullscreen(c, w) && PlaceClear(c, w, true)
    requires Place(c, w, true) == Some(sibling) && !GoesAlong(c, sibling, w)
    ensures forall x :: x in c.wins ==> x in Raise(c, w, true, pending)
    ensures OnTop(c, w, Raise(c, w, true, pending))
  {
    hide StackTransients, Restack, WithDocks, FindSiblingBelow, IndexOf, Distinct, StackType, HasAncestorOf, GoesAlong;
    hide Clash, Unmoved;
    RaiseKeepsAllIff(c, w, true, pending);
    var r := Raise(c, w, true, pending);
    FoundAbove(c, w, true);
    WalkEndsIff(c, w, sibling);
    forall x | Rival(c, w, x)
      ensures IndexOf(r, x) < IndexOf(r, w)
    {
      StopsEverywhere(c, w, x);
      FoundTopmost(c, w, true, sibling, x);
      if Below(c.stack, w) == sibling && !pending {
        NoneIsNoWindow(c, sibling);
        JustBelow(c.stack, w, sibling);
      } else {
        RestackedOnTop(c, w, sibling, x);
        RestackStacked(c, w, sibling);
        DocksLeaveOrder(c, w, Restack(c, w, sibling), x, w);
      }
    }
  }

  /** Where the window found goes along, a raise changes nothing. */
  lemma RaiseStuck(c: Scene, w: Window, active: bool, pending: bool, sibling: Window)
    requires c.Valid() && w in c.wins && c.wins[w].managed
    requires Place(c, w, active) == Some(sibling) && GoesAlong(c, sibling, w)
    ensures Raise(c, w, active, pending) == c.stack
  {
    UnmovedStays(c, w, active, pending);
  }

  /** `x` goes along with `w` and is the topmost window on show. */
  ghost predicate OwnOnTop(c: Scene, w: Window, x: Window)
    requires c.Valid() && w in c.wins
  {
    && x in c.wins && x != w && !Avoided(c.wins[x]) && GoesAlong(c, x, w)
    && forall y :: y in c.wins && y != w && !Avoided(c.wins[y]) ==> IndexOf(c.stack, y) <= IndexOf(c.stack, x)
  }

  /** The search finds the topmost window on show. */
  lemma FindsTopmost(c: Scene, w: Window)
    requires c.Valid() && ActiveFullscreen(c, w)
    ensures match Place(c, w, true)
            case None => forall x :: x in c.wins && x != w ==> Avoided(c.wins[x])
            case Some(sibling) =>
              && sibling in c.wins && sibling != w && !Avoided(c.wins[sibling])
              && forall y :: y in c.wins && y != w && !Avoided(c.wins[y]) ==>
                               IndexOf(c.stack, y) <= IndexOf(c.stack, sibling)
  {
    hide FindSiblingBelow, IndexOf, StackType, StackLayerCheck, HasAncestorOf;
    forall y | y in c.wins && y != w && !Avoided(c.wins[y])
      ensures AboveFs(c, w, true) && Stops(c, w, true, y) && y in c.stack
    {
      StopsEverywhere(c, w, y);
    }
    FullscreenMayGoAbove(c, w);
    match FindSiblingBelow(c, w, true, |c.stack|)
    case None =>
    case Some(sibling) =>
      forall y | y in c.wins && y != w && !Avoided(c.wins[y])
        ensures IndexOf(c.stack, y) <= IndexOf(c.stack, sibling)
      {
        FoundTopmost(c, w, true, sibling, y);
      }
  }

  lemma FullscreenMayGoAbove(c: Scene, w: Window)
    requires c.Valid() && ActiveFullscreen(c, w)
    ensures AboveFs(c, w, true)
  {
  }

  /** A raised active fullscreen window gets above all its rivals if and only if it was there before or the
      topmost window on show does not go along with it. */
  lemma RaisedOnTopIff(c: Scene, w: Window, pending: bool)
    requires c.Valid() && ActiveFullscreen(c, w) && PlaceClear(c, w, true)
    ensures forall x :: x in c.wins ==> x in Raise(c, w, true, pending)
    ensures OnTop(c, w, Raise(c, w, true, pending)) <==>
              OnTop(c, w, c.stack) || !exists x :: OwnOnTop(c, w, x)
  {
    hide Raise, Place, StackType, IndexOf, Avoided, GoesAlong, Unmoved, PlaceClear, OnTop;
    FindsTopmost(c, w);
    RaiseKeepsAllIff(c, w, true, pending);
    match Place(c, w, true)
    case None => NoRivals(c, w, pending);
    case Some(sibling) =>
      if GoesAlong(c, sibling, w) {
        RaiseStuck(c, w, true, pending, sibling);
        assert OwnOnTop(c, w, sibling);
      } else {
        RaisedOnTop(c, w, pending, sibling);
        forall x | x in c.wins && x != w && !Avoided(c.wins[x]) && GoesAlong(c, x, w)
          ensures !OwnOnTop(c, w, x)
        {
          SameIndex(c.stack, x, sibling);
        }
      }
  }

  lemma NoRivals(c: Scene, w: Window, pending: bool)
    requires c.Valid() && w in c.wins && forall x :: x in c.wins && x != w ==> Avoided(c.wins[x])
    requires forall x :: x in c.wins ==> x in Raise(c, w, true, pending)
    ensures OnTop(c, w, Raise(c, w, true, pending)) && OnTop(c, w, c.stack)
  {
    hide Raise;
  }

  lemma SameIndex(stack: seq<Window>, x: Window, y: Window)
    requires x in stack && y in stack
    ensures IndexOf(stack, x) == IndexOf(stack, y) ==> x == y
  {
    assert stack[IndexOf(stack, x)] == x && stack[IndexOf(stack, y)] == y;
  }

  const FULL := NO_PROPS.(wtype := Fullscreen, managed := true, viewable := true, mapNum := 1)
  const WINDOW := NO_PROPS.(wtype := Normal, managed := true, viewable := true, mapNum := 1)

  /** A fullscreen window below another window, with a dialog on top. */
  const COVERED := Scene(map[10 := FULL, 11 := WINDOW, 12 := WINDOW.(transientFor := 10)], 1, [10, 11, 12])

  /** An active fullscreen window with a dialog on top stays below other windows when it is raised. */
  lemma FullscreenCanStayBelow()
    ensures exists c: Scene, w, pending ::
              && c.Valid() && ActiveFullscreen(c, w) && (forall x :: x in c.wins ==> x in c.stack)
              && (forall x :: x in c.wins ==> x in Raise(c, w, true, pending))
              && !OnTop(c, w, Raise(c, w, true, pending))
  {
    hide Raise, Scene.Sound, NoGroups, OnTop, ActiveFullscreen, PlaceClear, Clash, Place;
    CoveredValid();
    CoveredBelow();
    CoveredClear();
    RaisedOnTopIff(COVERED, 10, false);
  }

  lemma CoveredValid()
    ensures COVERED.Valid() && NoGroups(COVERED)
  {
    hide Acyclic, Scene.Links;
    CoveredAcyclic();
    CoveredNoGroups();
  }

  lemma CoveredClear()
    requires COVERED.Valid() && NoGroups(COVERED)
    ensures 10 in COVERED.wins && PlaceClear(COVERED, 10, true)
  {
    hide Place, NoGroups;
    FoundAbove(COVERED, 10, true);
    if Place(COVERED, 10, true).Some? {
      PlainNoClash(COVERED, 10, Place(COVERED, 10, true).value);
    }
  }

  lemma CoveredNoGroups()
    ensures NoGroups(COVERED)
  {
  }

  lemma CoveredAcyclic()
    ensures Acyclic(COVERED.Links())
  {
    assert Ranked(COVERED.Links(), (x: Window) => x);
  }

  lemma CoveredBelow()
    requires COVERED.Valid() && NoGroups(COVERED)
    ensures ActiveFullscreen(COVERED, 10) && !OnTop(COVERED, 10, COVERED.stack) && OwnOnTop(COVERED, 10, 12)
  {
    hide GoesAlong, NoGroups, Under, ActiveFullscreen, Scene.Sound, Avoided, IsDock, IndexOf;
    CoveredActive();
    CoveredUnder();
    CoveredPlaces();
    PlainGoesAlong(COVERED, 10, 11);
    PlainGoesAlong(COVERED, 10, 12);
    assert Rival(COVERED, 10, 11);
  }

  lemma CoveredActive()
    requires COVERED.Valid()
    ensures ActiveFullscreen(COVERED, 10)
  {
    hide Scene.Sound;
  }

  lemma CoveredPlaces()
    ensures IndexOf(COVERED.stack, 10) == 0 && IndexOf(COVERED.stack, 11) == 1 && IndexOf(COVERED.stack, 12) == 2
    ensures !Avoided(COVERED.wins[11]) && !Avoided(COVERED.wins[12]) && !IsDock(COVERED, 11)
  {
  }

  lemma CoveredUnder()
    requires COVERED.Valid()
    ensures !Under(COVERED, 11, 10) && Under(COVERED, 12, 10)
  {
    UnderStep(COVERED, 11, 10);
    UnderStep(COVERED, 12, 10);
  }
}
