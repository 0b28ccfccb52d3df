/** Where a raised window goes that has group transients. */
module RaiseGroups {
  import opened Sequences
  import opened TransientForest
  import opened Values
  import opened Windows
  import opened Stacking
  import opened RestackProofs
  import opened RestackOrder
  import opened GroupWalks
  import opened GroupClashes
  import opened RestackGroups
  import opened Docks
  import opened LayerOrder
  import opened RaiseTheorems
  import opened FullscreenTop

  /** A window that is stacked neither with fullscreen windows nor with docks. */
  ghost predicate InLayers(c: Scene, w: Window)
    requires c.Valid()
  {
    w in c.wins && StackType(c, w) !in {Fullscreen, Dock}
  }

  /** What the search stops at is no group transient of the window that is raised, and under it at most when it is
      a desktop window. */
  lemma StopsBeyondGroup(c: Scene, w: Window, aboveFs: bool, s: Window)
    requires c.Valid() && InLayers(c, w) && s in c.wins && Stops(c, w, aboveFs, s)
    ensures s != w && !IsGroupTransient(c.wins[s], GroupOf(c, w), c.root) && c.wins[s].wtype != Dock
    ensures c.wins[s].wtype != Desktop ==> !Under(c, s, w)
  {
    hide HasAncestorOf, GroupOf;
    if Under(c, s, w) {
      UnderRank(c, s, w);
      if Under(c, w, s) {
        UnderRank(c, w, s);
      }
    }
    MainHasNoAncestors(c, w, s);
  }

  lemma MainHasNoAncestors(c: Scene, w: Window, s: Window)
    requires c.Valid() && w in c.wins && s in c.wins
    ensures GroupOf(c, w) != NONE ==> !Under(c, w, s)
  {
    UnderStep(c, w, s);
  }

  /** Exactly when the search passes over a group transient but stops at a window that is transient for one. */
  ghost predicate BehindGroup(c: Scene, w: Window, s: Window)
    requires c.Valid() && w in c.wins && s in c.wins
  {
    || (exists t :: t in c.wins && IsGroupTransient(c.wins[t], GroupOf(c, w), c.root) && Under(c, s, t))
    || (c.wins[s].wtype == Desktop && Under(c, s, w))
  }

  /** The window found goes along with the raised one if and only if it is transient for one of its group
      transients, or is a desktop window under it. */
  lemma PlaceGoesAlongIff(c: Scene, w: Window, active: bool, s: Window)
    requires c.Valid() && InLayers(c, w) && Place(c, w, active) == Some(s)
    ensures s in c.wins && s != w && !IsGroupTransient(c.wins[s], GroupOf(c, w), c.root)
    ensures GoesAlong(c, s, w) <==> BehindGroup(c, w, s)
  {
    hide Stops, StackType, IsGroupTransient, FindSiblingBelow, IsAncestorTo, GroupOf;
    var a := FoundAt(c, w, AboveFs(c, w, active), s);
    StopsBeyondGroup(c, w, AboveFs(c, w, active), s);
    if GoesAlong(c, s, w) {
      var i :| 0 <= i < |c.stack| && Via(c, w, NONE, s, i);
      AlongThrough(c, w, c.stack[i], s);
    }
    if Under(c, s, w) {
      UnderGoesAlong(c, w, s);
    }
    if t :| t in c.wins && IsGroupTransient(c.wins[t], GroupOf(c, w), c.root) && Under(c, s, t) {
      ThroughGroup(c, w, t, s);
    }
  }

  lemma AlongThrough(c: Scene, w: Window, t: Window, s: Window)
    requires c.Valid() && w in c.wins && t in c.wins && Follows(c, t, w) && Within(c, s, t)
    requires !IsGroupTransient(c.wins[s], GroupOf(c, w), c.root)
    ensures Under(c, s, w) || (IsGroupTransient(c.wins[t], GroupOf(c, w), c.root) && Under(c, s, t))
  {
    hide IsGroupTransient, GroupOf;
    UnderStep(c, t, w);
    if s != t && Under(c, t, w) {
      UnderTransitive(c, s, t, w);
    }
  }

  lemma ThroughGroup(c: Scene, w: Window, t: Window, s: Window)
    requires c.Valid() && w in c.wins && t in c.wins && IsGroupTransient(c.wins[t], GroupOf(c, w), c.root)
    requires Under(c, s, t)
    ensures GoesAlong(c, s, w)
  {
    assert t != w && t != NONE;
    assert Via(c, w, NONE, s, IndexOf(c.stack, t));
  }

  /** A managed window that is raised gets above the window found for it if and only if it was above it before, or
      that one does not go along: a main window stays where it is when the search has passed over one of its
      group transients and stopped at a dialog of it. */
  lemma RaisedAboveIff(c: Scene, w: Window, active: bool, pending: bool, s: Window)
    requires c.Valid() && InLayers(c, w) && c.wins[w].managed && PlaceClear(c, w, active)
    requires Place(c, w, active) == Some(s)
    ensures s in c.wins && w in Raise(c, w, active, pending) && s in Raise(c, w, active, pending)
    ensures IndexOf(Raise(c, w, active, pending), s) < IndexOf(Raise(c, w, active, pending), w) <==>
              IndexOf(c.stack, s) < IndexOf(c.stack, w) || !BehindGroup(c, w, s)
  {
    hide IndexOf, StackTransients, Restack, WithDocks, Place, GoesAlong, BehindGroup, Clash, Unmoved;
    PlaceGoesAlongIff(c, w, active, s);
    FoundAbove(c, w, active);
    RaiseKeepsAllIff(c, w, active, pending);
    if GoesAlong(c, s, w) {
      RaiseStuck(c, w, active, pending, s);
    } else if Below(c.stack, w) == s && !pending {
      NoneIsNoWindow(c, s);
      JustBelow(c.stack, w, s);
    } else {
      NoDocks(c, w, active, s);
      RestackedOnTop(c, w, s, s);
      RestackStacked(c, w, s);
      WalkEndsIff(c, w, s);
      DocksLeaveOrder(c, w, Restack(c, w, s), s, w);
    }
  }

  lemma NoDocks(c: Scene, w: Window, active: bool, s: Window)
    requires c.Valid() && InLayers(c, w) && Place(c, w, active) == Some(s)
    ensures !IsDock(c, w) && !IsDock(c, s)
  {
    hide Stops, FindSiblingBelow, HasAncestorOf;
    var a := FoundAt(c, w, AboveFs(c, w, active), s);
    StopsBeyondGroup(c, w, AboveFs(c, w, active), s);
  }

  lemma {:induction false} AncestorOfTypes(c: Scene, w: Window, types: set<WindowType>)
    requires c.Valid() && w in c.wins
    ensures HasAncestorOf(c, w, types) <==> exists z :: z in c.wins && Under(c, w, z) && c.wins[z].wtype in types
    decreases RankOf(c.Links())(w)
  {
    var up := c.wins[w].transientFor;
    if up in c.wins {
      ParentRank(c, w);
      AncestorOfTypes(c, up, types);
      UnderStep(c, w, up);
      forall z | z in c.wins
        ensures Under(c, w, z) <==> z == up || Under(c, up, z)
      {
        UnderStep(c, w, z);
      }
    } else {
      forall z | z in c.wins
        ensures !Under(c, w, z)
      {
        UnderStep(c, w, z);
      }
    }
  }

  /** The layer that a window is stacked in: with the docks where it is one or is transient for one at any depth,
      with fullscreen windows where it is one that is not to be kept below. */
  lemma StackTypeIff(c: Scene, w: Window)
    requires c.Valid() && w in c.wins
    ensures StackType(c, w) == Dock <==>
              c.wins[w].wtype == Dock || exists z :: z in c.wins && Under(c, w, z) && c.wins[z].wtype == Dock
    ensures StackType(c, w) == Fullscreen <==>
              c.wins[w].wtype == Fullscreen && !c.wins[w].below && StackType(c, w) != Dock
    ensures StackType(c, w) !in {Dock, Normal} ==> StackType(c, w) == c.wins[w].wtype
  {
    hide HasAncestorOf, Under;
    AncestorOfTypes(c, w, {Dock});
  }

  /** On show, or about to be, and managed by the window manager. */
  predicate OnShow(p: Props) {
    !p.overrideRedirect && ((p.viewable && p.mapNum != 0) || p.awaitingMap || p.shaded || p.pendingMaps != 0)
  }

  /** Whether `w` may be put above `s` as far as their relation and states go: above what it is transient for, never
      above its own transients or those of its group, and otherwise as the states to be kept above or below say. */
  ghost predicate MayPass(c: Scene, w: Window, s: Window)
    requires c.Valid() && w in c.wins && s in c.wins
  {
    || Under(c, w, s)
    || (!Under(c, s, w) && !IsGroupTransient(c.wins[s], GroupOf(c, w), c.root)
        && (c.wins[w].above || (if c.wins[w].below then c.wins[s].below else !c.wins[s].above)))
  }

  /** `s` or a window that it is transient for is of this type. */
  ghost predicate IsOrFor(c: Scene, s: Window, t: WindowType)
    requires c.Valid() && s in c.wins
  {
    exists z :: z in c.wins && Within(c, s, z) && c.wins[z].wtype == t
  }

  /** Exactly where the search stops for a window that is stacked neither with fullscreen windows nor with docks
      nor with the desktop. */
  lemma StopsIff(c: Scene, w: Window, aboveFs: bool, s: Window)
    requires c.Valid() && InLayers(c, w) && StackType(c, w) != Desktop && s in c.wins
    ensures var p := c.wins[s];
            Stops(c, w, aboveFs, s) <==>
              && s != w && OnShow(p)
              && (p.wtype == Desktop
                  || (p.onServer && MayPass(c, w, s) && !IsOrFor(c, s, Dock)
                      && (if aboveFs then p.wtype == Fullscreen ==> p.focusable else !IsOrFor(c, s, Fullscreen))))
  {
    hide StackType, GroupOf, IsAncestorTo, HasAncestorOf, StackLayerCheck, MayPass;
    AncestorOfTypes(c, s, Barred(aboveFs));
    AncestorOfTypes(c, s, {Dock});
    CheckIff(c, w, s);
    IsOrForIff(c, s, Dock);
    IsOrForIff(c, s, Fullscreen);
  }

  lemma IsOrForIff(c: Scene, s: Window, t: WindowType)
    requires c.Valid() && s in c.wins
    ensures IsOrFor(c, s, t) <==>
              c.wins[s].wtype == t || exists z :: z in c.wins && Under(c, s, z) && c.wins[z].wtype == t
  {
  }

  lemma CheckIff(c: Scene, w: Window, s: Window)
    requires c.Valid() && w in c.wins && s in c.wins
    ensures StackLayerCheck(c, w, GroupOf(c, w), s) <==> MayPass(c, w, s)
  {
    hide GroupOf, IsAncestorTo;
    NotBoth(c, w, s);
  }

  lemma NotBoth(c: Scene, w: Window, s: Window)
    requires c.Valid() && w in c.wins && s in c.wins
    ensures !(Under(c, w, s) && Under(c, s, w))
  {
    if Under(c, w, s) && Under(c, s, w) {
      UnderRank(c, w, s);
      UnderRank(c, s, w);
    }
  }

  /** Exactly where it stops for one that is stacked with docks, or with fullscreen windows without being the active
      one: at windows of all other layers, and among those two as relation and states say. */
  lemma StopsAmongFullIff(c: Scene, w: Window, aboveFs: bool, s: Window)
    requires c.Valid() && w in c.wins && StackType(c, w) in {Fullscreen, Dock} && s in c.wins
    ensures var p := c.wins[s];
            Stops(c, w, aboveFs, s) <==>
              && s != w && OnShow(p)
              && ((StackType(c, w) == Fullscreen && aboveFs) || p.wtype !in {Fullscreen, Dock}
                  || (p.onServer && MayPass(c, w, s)))
  {
    hide StackType, GroupOf, IsAncestorTo, HasAncestorOf, StackLayerCheck, MayPass;
    CheckIff(c, w, s);
  }

  /** And for one that is stacked with the desktop: at desktop windows only. */
  lemma StopsAtDesktopIff(c: Scene, w: Window, aboveFs: bool, s: Window)
    requires c.Valid() && w in c.wins && StackType(c, w) == Desktop && s in c.wins
    ensures Stops(c, w, aboveFs, s) <==> s != w && OnShow(c.wins[s]) && c.wins[s].wtype == Desktop
  {
    hide StackType, StackLayerCheck, HasAncestorOf;
  }

  /** An active window that stands just above a fullscreen one, and is not to be kept below others, stays above
      it when it is raised. */
  lemma StaysAboveFullscreen(c: Scene, w: Window, pending: bool, f: Window)
    requires c.Valid() && InLayers(c, w) && StackType(c, w) != Desktop && c.wins[w].managed && PlaceClear(c, w, true)
    requires f in c.wins && Below(c.stack, w) == f && f != w && !GoesAlong(c, f, w)
    requires c.wins[f].wtype == Fullscreen && StackType(c, f) == Fullscreen && c.wins[f].focusable && c.wins[f].onServer
    requires !Avoided(c.wins[f]) && !c.wins[f].above && !c.wins[w].below
    ensures f in Raise(c, w, true, pending) && w in Raise(c, w, true, pending)
    ensures IndexOf(Raise(c, w, true, pending), f) < IndexOf(Raise(c, w, true, pending), w)
  {
    hide IndexOf, StackTransients, Restack, WithDocks, FindSiblingBelow, GoesAlong, Clash, Unmoved, Stops, HasAncestorOf;
    hide IsGroupTransient, Avoided, StackLayerCheck;
    if Under(c, f, w) {
      UnderGoesAlong(c, w, f);
    }
    StopsAtFullscreen(c, w, f);
    NoneIsNoWindow(c, f);
    JustBelow(c.stack, w, f);
    RaiseKeepsAllIff(c, w, true, pending);
    match FindSiblingBelow(c, w, true, |c.stack|)
    case Some(s) =>
      FoundTopmost(c, w, true, s, f);
      if GoesAlong(c, s, w) {
        RaiseStuck(c, w, true, pending, s);
      } else if !(Below(c.stack, w) == s && !pending) {
        NoDocks(c, w, true, s);
        RestackedOnTop(c, w, s, f);
        RestackStacked(c, w, s);
        WalkEndsIff(c, w, s);
        DocksLeaveOrder(c, w, Restack(c, w, s), f, w);
      }
  }

  lemma StopsAtFullscreen(c: Scene, w: Window, f: Window)
    requires c.Valid() && InLayers(c, w) && StackType(c, w) != Desktop && f in c.wins && Below(c.stack, w) == f && f != w
    requires c.wins[f].wtype == Fullscreen && StackType(c, f) == Fullscreen && c.wins[f].focusable && c.wins[f].onServer
    requires !Avoided(c.wins[f]) && !c.wins[f].above && !c.wins[w].below && !Under(c, f, w)
    ensures AboveFs(c, w, true) && Stops(c, w, true, f)
  {
    hide Avoided;
  }

  const MAIN_WINDOW :=
    NO_PROPS.(wtype := Normal, clientLeader := 5, managed := true, viewable := true, mapNum := 1, onServer := true)

  /** A main window below a foreign one, with a toolbar of its group on top that has a dialog. */
  const TOOLS := Scene(map[10 := MAIN_WINDOW, 11 := MAIN_WINDOW.(wtype := Toolbar), 12 := MAIN_WINDOW.(clientLeader := 6),
                           13 := MAIN_WINDOW.(wtype := Dialog, transientFor := 11)], 1, [10, 12, 11, 13])

  /** A main window can stay below a foreign one when it is raised. */
  lemma MainCanStayBelow()
    ensures exists c: Scene, w, active, pending, x ::
              && c.Valid() && InLayers(c, w) && c.wins[w].managed && x in c.wins && Stops(c, w, active, x)
              && !GoesAlong(c, x, w) && x in c.stack && IndexOf(c.stack, w) < IndexOf(c.stack, x)
              && Raise(c, w, active, pending) == c.stack
  {
    hide Scene.Sound, Stops, GoesAlong, Raise, Place, InLayers;
    ToolsValid();
    ToolsLinks();
    ToolsAlong();
    ToolsPlace();
    RaiseStuck(TOOLS, 10, false, false, 13);
    assert IndexOf(TOOLS.stack, 10) == 0 && IndexOf(TOOLS.stack, 12) == 1;
  }

  lemma ToolsValid()
    ensures TOOLS.Valid()
  {
    hide Acyclic, Scene.Links;
    ToolsAcyclic();
  }

  lemma ToolsAcyclic()
    ensures Acyclic(TOOLS.Links())
  {
    assert Ranked(TOOLS.Links(), (x: Window) => x);
  }

  lemma ToolsLinks()
    requires TOOLS.Valid()
    ensures forall x, y :: Under(TOOLS, x, y) <==> x == 13 && y == 11
    ensures InLayers(TOOLS, 10)
  {
    hide Scene.Sound, Scene.Links;
    forall x, y
      ensures Under(TOOLS, x, y) <==> x == 13 && y == 11
    {
      if x in TOOLS.wins {
        UnderStep(TOOLS, x, y);
        UnderStep(TOOLS, 11, y);
      }
    }
  }

  /** The dialog of the toolbar goes along, the foreign window does not. */
  lemma ToolsAlong()
    requires TOOLS.Valid() && forall x, y :: Under(TOOLS, x, y) <==> x == 13 && y == 11
    ensures GoesAlong(TOOLS, 13, 10) && !GoesAlong(TOOLS, 12, 10)
  {
    hide Scene.Sound, Under;
    ThroughGroup(TOOLS, 10, 11, 13);
  }

  lemma ToolsPlace()
    requires TOOLS.Valid() && InLayers(TOOLS, 10)
    requires forall x, y :: Under(TOOLS, x, y) <==> x == 13 && y == 11
    ensures Place(TOOLS, 10, false) == Some(13) && Stops(TOOLS, 10, false, 12)
  {
    hide Scene.Sound, Stops, Under, InLayers;
    ToolsStops(12);
    ToolsStops(13);
    assert TOOLS.stack[3] == 13;
  }

  lemma ToolsStops(x: Window)
    requires TOOLS.Valid() && InLayers(TOOLS, 10) && x in {12, 13}
    requires forall x, y :: Under(TOOLS, x, y) <==> x == 13 && y == 11
    ensures Stops(TOOLS, 10, false, x)
  {
    hide Scene.Sound, HasAncestorOf, StackLayerCheck;
    ToolsFree(x);
    ToolsCheck(x);
  }

  lemma ToolsFree(x: Window)
    requires TOOLS.Valid() && x in {12, 13}
    ensures !HasAncestorOf(TOOLS, x, {Dock, Fullscreen}) && !HasAncestorOf(TOOLS, 10, {Dock})
  {
    hide Scene.Sound;
    assert !HasAncestorOf(TOOLS, 11, {Dock, Fullscreen});
  }

  lemma ToolsCheck(x: Window)
    requires TOOLS.Valid() && x in {12, 13}
    requires forall x, y :: Under(TOOLS, x, y) <==> x == 13 && y == 11
    ensures StackLayerCheck(TOOLS, 10, GroupOf(TOOLS, 10), x)
  {
    hide Scene.Sound, IsAncestorTo;
    assert !Under(TOOLS, x, 10) && !Under(TOOLS, 10, x);
  }
}
