/** What putting the docks above the windows in use keeps. */
module DockOrder {
  import opened Sequences
  import opened TransientForest
  import opened Values
  import opened Windows
  import opened Stacking
  import opened RestackProofs
  import opened ReplayProofs
  import opened RestackGroups
  import opened RestackOrder
  import opened WalkOrder
  import opened Docks

  /** Afterwards every dock is above every window in use that is above a fullscreen window. */
  lemma DocksAbove(c: Scene, w: Window, stack: seq<Window>, i: nat, dock: Window)
    requires c.Sound() && w in c.wins && Stacked(c.wins, stack)
    requires i < |stack| && HasFullscreen(c, stack[..i]) && CarriesDocks(c, w, stack[i])
    requires dock in stack && IsDock(c, dock)
    ensures stack[i] in WithDocks(c, w, stack) && dock in WithDocks(c, w, stack)
    ensures IndexOf(WithDocks(c, w, stack), stack[i]) < IndexOf(WithDocks(c, w, stack), dock)
  {
    hide CarriesDocks, HasFullscreen, WithDocks, DocksOf, Spliced, Without;
    var below := TopmostInUse(c, w, stack, i);
    DocksBlock(c, w, stack);
    var docks := DocksOf(c, stack);
    CarrierIsNoDock(c, w, stack[i]);
    SplicedOrder(stack, below, docks, stack[i], dock);
  }

  lemma TopmostInUse(c: Scene, w: Window, stack: seq<Window>, i: nat) returns (below: Window)
    requires c.Sound() && w in c.wins && Distinct(stack)
    requires i < |stack| && HasFullscreen(c, stack[..i]) && CarriesDocks(c, w, stack[i])
    ensures BelowDocks(c, w, stack, |stack|) == Some(below) && below in stack
    ensures IndexOf(stack, stack[i]) <= IndexOf(stack, below)
  {
    hide CarriesDocks, HasFullscreen, BelowDocks;
    below := BelowDocks(c, w, stack, |stack|).value;
    var k :| 0 <= k < |stack| && stack[k] == below && forall j :: k < j < |stack| ==> !CarriesDocks(c, w, stack[j]);
    assert i <= k;
  }

  ghost function Others(c: Scene, stack: seq<Window>): set<Window> {
    set x | x in stack && !IsDock(c, x)
  }

  lemma {:induction false} DocksAreRest(c: Scene, stack: seq<Window>, others: set<Window>)
    requires forall x :: x in stack ==> (x in others <==> !IsDock(c, x))
    ensures DocksOf(c, stack) == Without(stack, others)
  {
    if stack != [] {
      DocksAreRest(c, stack[1..], others);
    }
  }

  /** The docks are listed in the order of the stack. */
  lemma DocksInOrder(c: Scene, stack: seq<Window>, x: Window, y: Window)
    requires Distinct(stack) && x in DocksOf(c, stack) && y in DocksOf(c, stack)
    ensures IndexOf(DocksOf(c, stack), x) < IndexOf(DocksOf(c, stack), y) <==> IndexOf(stack, x) < IndexOf(stack, y)
  {
    hide IsDock;
    DocksAreRest(c, stack, Others(c, stack));
    StillInOrder(stack, Others(c, stack), x, y);
  }

  lemma DocksKeepOrder(c: Scene, stack: seq<Window>)
    requires c.Valid() && Distinct(stack) && ShownBelow(c, stack)
    ensures Distinct(DocksOf(c, stack)) && ShownBelow(c, DocksOf(c, stack))
  {
    hide ShownBelow, Under, Shown, IsDock, IndexOf;
    var docks := DocksOf(c, stack);
    DocksDistinct(c, stack);
    ShownByIndex(c, stack);
    ShownByIndex(c, docks);
    forall x, y | x in docks && y in docks
      ensures IndexOf(docks, x) < IndexOf(docks, y) <==> IndexOf(stack, x) < IndexOf(stack, y)
    {
      DocksInOrder(c, stack, x, y);
    }
  }

  /** Moving the docks keeps windows above those they are transient for if and only if nothing that a dock is
      under is above the place where the docks go, and nothing that is under a dock is below it. */
  lemma DocksKeepShownIff(c: Scene, w: Window, stack: seq<Window>)
    requires c.Valid() && w in c.wins && SameWindows(stack, c.stack) && ShownBelow(c, stack)
    requires BelowDocks(c, w, stack, |stack|).Some?
    ensures var below := BelowDocks(c, w, stack, |stack|).value;
            && below in stack
            && (ShownBelow(c, WithDocks(c, w, stack)) <==> FitsAbove(c, stack, below, DocksOf(c, stack)))
  {
    hide BelowDocks, ShownBelow, WithDocks, DocksOf, FitsAbove, Spliced, Without;
    assert Stacked(c.wins, stack);
    DocksBlock(c, w, stack);
    DocksKeepOrder(c, stack);
    SplicedShownIff(c, stack, BelowDocks(c, w, stack, |stack|).value, DocksOf(c, stack));
  }

  /** There is no fullscreen window, or no dock is above or below another window in the forest. */
  ghost predicate DocksApart(c: Scene)
    requires c.Valid()
  {
    || (forall x :: x in c.wins ==> !IsFullscreen(c, x))
    || (forall x, y :: Shown(c, x) && Shown(c, y) && Under(c, x, y) ==> IsDock(c, x) == IsDock(c, y))
  }

  /** Then two windows of which one is under the other keep their order. */
  lemma RelatedKeepOrder(c: Scene, w: Window, stack: seq<Window>, x: Window, y: Window)
    requires c.Valid() && w in c.wins && SameWindows(stack, c.stack) && DocksApart(c)
    requires Shown(c, x) && Shown(c, y) && Under(c, x, y)
    ensures var r := WithDocks(c, w, stack);
            && x in stack && y in stack && x in r && y in r
            && (IndexOf(r, y) < IndexOf(r, x) <==> IndexOf(stack, y) < IndexOf(stack, x))
  {
    hide BelowDocks, DocksOf, IsDock, Under, Restackable, IndexOf;
    NotUnderSelf(c, x);
    if forall z :: z in c.wins ==> !IsFullscreen(c, z) {
      NoFullscreenNoDocks(c, w, stack);
    } else if BelowDocks(c, w, stack, |stack|).Some? {
      assert Stacked(c.wins, stack);
      DocksBlock(c, w, stack);
      var docks := DocksOf(c, stack);
      SplicedOrder(stack, BelowDocks(c, w, stack, |stack|).value, docks, y, x);
      if x in docks {
        DocksInOrder(c, stack, y, x);
      }
    }
  }

  lemma DocksApartKeepShown(c: Scene, w: Window, stack: seq<Window>)
    requires c.Valid() && w in c.wins && SameWindows(stack, c.stack) && DocksApart(c)
    ensures ShownBelow(c, WithDocks(c, w, stack)) <==> ShownBelow(c, stack)
  {
    hide WithDocks, ShownBelow, Under, Shown, IndexOf, DocksApart;
    DocksSame(c, w, stack);
    ShownByIndex(c, stack);
    ShownByIndex(c, WithDocks(c, w, stack));
    forall x, y | Shown(c, x) && Shown(c, y) && Under(c, x, y)
      ensures x in stack && y in stack
      ensures x in WithDocks(c, w, stack) && y in WithDocks(c, w, stack)
      ensures IndexOf(WithDocks(c, w, stack), y) < IndexOf(WithDocks(c, w, stack), x)
         <==> IndexOf(stack, y) < IndexOf(stack, x)
    {
      RelatedKeepOrder(c, w, stack, x, y);
    }
  }

  const USED := NO_PROPS.(wtype := Normal, managed := true, viewable := true, mapNum := 1, onServer := true)

  /** A window in use, a fullscreen window above it and a dock on top. */
  const FULL_AND_DOCK := Scene(map[10 := USED, 11 := USED.(wtype := Fullscreen), 12 := USED.(wtype := Dock)], 1,
                               [10, 11, 12])

  /** The look for a window in use below the fullscreen one never finds any: a dock can stay above the fullscreen
      window although a window that carries docks is below it. */
  lemma DocksCanStayAbove()
    ensures exists c: Scene, w, below, i, dock ::
              && c.Valid() && w in c.wins && CarriesDocks(c, w, below)
              && 0 <= i < |c.stack| && IsFullscreen(c, c.stack[i])
              && below in c.stack[..i] && dock in c.stack[i + 1..] && IsDock(c, dock)
              && WithDocks(c, w, c.stack) == c.stack
  {
    hide WithDocks, CarriesDocks, Scene.Sound;
    DockSceneValid();
    var c := FULL_AND_DOCK;
    DockStays();
    assert c.stack[..1] == [10] && c.stack[1 + 1..] == [12];
    assert IsFullscreen(c, c.stack[1]) && IsDock(c, 12) && 10 in c.stack[..1] && 12 in c.stack[1 + 1..];
  }

  lemma DockSceneValid()
    ensures FULL_AND_DOCK.Valid() && 11 in FULL_AND_DOCK.wins
  {
    hide Acyclic, Scene.Links;
    DockSceneAcyclic();
  }

  lemma DockSceneAcyclic()
    ensures Acyclic(FULL_AND_DOCK.Links())
  {
    assert Ranked(FULL_AND_DOCK.Links(), (x: Window) => x);
  }

  lemma DockStays()
    requires FULL_AND_DOCK.Valid()
    ensures CarriesDocks(FULL_AND_DOCK, 11, 10) && WithDocks(FULL_AND_DOCK, 11, [10, 11, 12]) == [10, 11, 12]
  {
    var c := FULL_AND_DOCK;
    assert c.Links()[11] == NONE;
    assert !HasFullscreen(c, [10, 11, 12][..0]) && !HasFullscreen(c, [10, 11, 12][..1]);
    assert !CarriesDocks(c, 11, 12) && !CarriesDocks(c, 11, 11);
  }
}
