/** Restacking with all that follows from it, the docks included, as it is carried out on the window
    records. */
module Docking {
  import TransientForest
  import opened Values
  import opened Windows
  import opened WindowLists
  import opened Stacking
  import opened Restacking
  import opened Moving
  import Docks
  import RestackTheorems
  import RestackGroups

  /** The window that the docks are to be put above, the topmost one in use above a fullscreen window, null
      where there is none; and the docks, from the top down. The look for a window below the fullscreen one
      asks for the type of that one itself, and so never finds any. */
  method StackDocks(wm: WindowManager, w: CompWindow, ghost c: Scene, ghost stack: seq<Window>)
    returns (belowDocks: CompWindow?, docks: seq<CompWindow>)
    requires c.Sound() && c.(stack := stack).Sound() && Ready(wm, c.(stack := stack)) && w in wm.Known()
    modifies wm`lastFoundWindow
    ensures Ready(wm, c.(stack := stack)) && w.id in c.wins && (belowDocks == null || belowDocks in wm.Known())
    ensures Docks.BelowDocks(c, w.id, stack, |stack|) == if belowDocks == null then None else Some(belowDocks.id)
    ensures belowDocks != null ==> Tagged(wm.Known(), docks, Reverse(Docks.DocksOf(c, stack)))
  {
    hide Ready, Docks.BelowDocks, Docks.HasFullscreen, Docks.CarriesDocks, Docks.DocksOf, Tagged;
    ghost var d := c.(stack := stack);
    WindowShown(wm, d, w);
    belowDocks, docks := null, [];
    var firstFullscreenWindow: CompWindow? := null;
    var i := 0;
    FirstOfDocks(c, w.id, stack);
    while i < |wm.serverWindows|
      invariant i <= |wm.serverWindows| == |stack| && Ready(wm, d)
      invariant belowDocks == null || belowDocks in wm.Known()
      invariant Docks.BelowDocks(c, w.id, stack, i) == if belowDocks == null then None else Some(belowDocks.id)
      invariant firstFullscreenWindow != null <==> Docks.HasFullscreen(c, stack[..i])
    {
      var dw := wm.serverWindows[i];
      Listed(wm, d, i);
      NextOfDocks(c, w.id, stack, i);
      if firstFullscreenWindow != null {
        var carries := CarriesDocks(wm, w, dw, c, d);
        if carries {
          belowDocks := dw;
        }
      } else if dw.props.wtype == Fullscreen {
        firstFullscreenWindow := dw;
        var dww := LookBelow(wm, dw, d, i);
        if dww != null {
          belowDocks := dww;
        }
      }
      i := i + 1;
    }
    assert stack[..i] == stack;
    if belowDocks != null {
      docks := CollectDocks(wm, c, stack);
    }
  }

  /** The look for a window to put docks above, below a fullscreen window. */
  method LookBelow(wm: WindowManager, dw: CompWindow, ghost d: Scene, ghost i: nat) returns (found: CompWindow?)
    requires Ready(wm, d) && dw in wm.Known() && dw.props.wtype == Fullscreen && At(wm, dw, i + 1)
    ensures found == null
  {
    hide Ready, At;
    Down(wm, d, dw, i + 1);
    var dww := dw.serverPrev;
    ghost var k := i;
    found := null;
    while dww != null
      invariant At(wm, dww, k) && found == null
      decreases k
    {
      Down(wm, d, dww, k);
      var currentlyManaged := dw.props.managed && !dw.props.unmanaging;
      var visible := !dw.props.hidden;
      var acceptableType := dw.props.wtype !in {Fullscreen, Dock};
      var usable := !dww.props.overrideRedirect && dww.props.viewable && dww.props.onServer;
      if currentlyManaged && visible && usable && acceptableType {
        found := dww;
        break;
      }
      dww, k := dww.serverPrev, k - 1;
    }
  }

  lemma Listed(wm: WindowManager, d: Scene, i: nat)
    requires Ready(wm, d) && i < |wm.serverWindows|
    ensures |d.stack| == |wm.serverWindows| && wm.serverWindows[i] in wm.Known() && At(wm, wm.serverWindows[i], i + 1)
    ensures wm.serverWindows[i].id == d.stack[i] && d.stack[i] in d.wins && d.wins[d.stack[i]] == wm.serverWindows[i].props
  {
    hide WindowManager.Listed;
  }

  method CarriesDocks(wm: WindowManager, w: CompWindow, dw: CompWindow, ghost c: Scene, ghost d: Scene)
    returns (carries: bool)
    requires c.Sound() && Ready(wm, d) && d == c.(stack := d.stack) && w in wm.Known() && dw in wm.Known()
    modifies wm`lastFoundWindow
    ensures Ready(wm, d) && w.id in c.wins && carries == Docks.CarriesDocks(c, w.id, dw.id)
  {
    hide Ready, TransientForest.IsAncestorTo;
    WindowShown(wm, d, w);
    WindowShown(wm, d, dw);
    assert c.Links() == d.Links();
    var currentlyManaged := dw.props.managed && !dw.props.unmanaging;
    var visible := !dw.props.hidden;
    var ancestorToClient := Restacking.IsAncestorTo(wm, w, dw, d);
    var acceptableType := dw.props.wtype !in {Fullscreen, Dock};
    carries := currentlyManaged && visible && acceptableType && !ancestorToClient && !dw.props.overrideRedirect
               && dw.props.viewable && dw.props.onServer;
  }

  lemma FirstOfDocks(c: Scene, w: Window, stack: seq<Window>)
    requires c.Sound() && w in c.wins
    ensures Docks.BelowDocks(c, w, stack, 0) == None && !Docks.HasFullscreen(c, stack[..0])
  {
  }

  lemma NextOfDocks(c: Scene, w: Window, stack: seq<Window>, i: nat)
    requires c.Sound() && w in c.wins && i < |stack|
    ensures Docks.BelowDocks(c, w, stack, i + 1)
         == if Docks.HasFullscreen(c, stack[..i]) && Docks.CarriesDocks(c, w, stack[i]) then Some(stack[i])
            else Docks.BelowDocks(c, w, stack, i)
    ensures Docks.HasFullscreen(c, stack[..i + 1]) <==>
              Docks.HasFullscreen(c, stack[..i]) || Docks.IsFullscreen(c, stack[i])
  {
    hide Docks.CarriesDocks;
    assert stack[..i + 1] == stack[..i] + [stack[i]];
    if Docks.HasFullscreen(c, stack[..i]) {
      var k :| 0 <= k < i && Docks.IsFullscreen(c, stack[..i][k]);
      assert Docks.IsFullscreen(c, stack[..i + 1][k]);
    }
    if Docks.IsFullscreen(c, stack[i]) {
      assert Docks.IsFullscreen(c, stack[..i + 1][i]);
    }
  }

  /** The docks, each put in front of those below it. */
  method CollectDocks(wm: WindowManager, ghost c: Scene, ghost stack: seq<Window>) returns (docks: seq<CompWindow>)
    requires Ready(wm, c.(stack := stack))
    ensures Tagged(wm.Known(), docks, Reverse(Docks.DocksOf(c, stack)))
  {
    hide Ready, Docks.DocksOf;
    ghost var d := c.(stack := stack);
    docks := [];
    assert Docks.DocksOf(c, []) == [] by {
      NoDocks(c);
    }
    ListedLength(wm, d);
    var i := 0;
    while i < |wm.serverWindows|
      invariant i <= |wm.serverWindows| == |stack|
      invariant Tagged(wm.Known(), docks, Reverse(Docks.DocksOf(c, stack[..i])))
    {
      var dw := wm.serverWindows[i];
      Listed(wm, d, i);
      MoreDocks(c, stack, i);
      if dw.props.wtype == Dock {
        docks := [dw] + docks;
      }
      i := i + 1;
    }
    assert stack[..i] == stack;
  }

  lemma ListedLength(wm: WindowManager, d: Scene)
    requires Ready(wm, d)
    ensures |wm.serverWindows| == |d.stack|
  {
    hide WindowManager.Listed;
  }

  lemma NoDocks(c: Scene)
    ensures Docks.DocksOf(c, []) == []
  {
  }

  lemma {:induction false} DocksConcat(c: Scene, a: seq<Window>, b: seq<Window>)
    ensures Docks.DocksOf(c, a + b) == Docks.DocksOf(c, a) + Docks.DocksOf(c, b)
  {
    if a == [] {
      assert a + b == b;
    } else {
      assert (a + b)[1..] == a[1..] + b;
      DocksConcat(c, a[1..], b);
    }
  }

  lemma MoreDocks(c: Scene, stack: seq<Window>, i: nat)
    requires i < |stack|
    ensures Reverse(Docks.DocksOf(c, stack[..i + 1]))
         == (if Docks.IsDock(c, stack[i]) then [stack[i]] else []) + Reverse(Docks.DocksOf(c, stack[..i]))
  {
    assert stack[..i + 1] == stack[..i] + [stack[i]];
    DocksConcat(c, stack[..i], [stack[i]]);
    var one := if Docks.IsDock(c, stack[i]) then [stack[i]] else [];
    assert Docks.DocksOf(c, [stack[i]]) == one;
    RestackTheorems.ReverseConcat(Docks.DocksOf(c, stack[..i]), one);
    assert Reverse(one) == one;
  }

  /** Each dock is put just above `below`, the topmost first. */
  method UpdateDocks(wm: WindowManager, docks: seq<CompWindow>, below: CompWindow, ghost ids: seq<Window>,
                     ghost stack: seq<Window>)
    requires Spells(wm, stack) && NamesApart(wm.Known()) && Tagged(wm.Known(), docks, Reverse(ids))
    requires below in wm.Known()
    modifies wm`serverWindows, wm.alive`serverPrev, wm.alive`serverNext
    ensures Spells(wm, Docks.MoveEach(stack, below.id, ids))
  {
    hide NamesApart, Denotes, Spells, Docks.MoveEach, Stacking.MoveAbove;
    var xid := RootParent(below);
    RootParentDenotes(wm.Known(), below);
    ghost var known := wm.Known();
    ghost var s := stack;
    var i := 0;
    assert ids[..|ids|] == ids;
    while i < |docks|
      invariant i <= |docks| == |ids| && Spells(wm, s)
      invariant Docks.MoveEach(stack, below.id, ids) == Docks.MoveEach(s, below.id, ids[..|ids| - i])
    {
      assert docks[i] in known && docks[i].id == ids[|ids| - 1 - i];
      EachNext(s, below.id, ids, |ids| - 1 - i);
      ReconfigureStack(wm, docks[i], xid, s, below.id);
      s := Stacking.MoveAbove(s, ids[|ids| - 1 - i], below.id);
      i := i + 1;
    }
    EachNone(s, below.id);
  }

  lemma EachNext(stack: seq<Window>, sibling: Window, ids: seq<Window>, i: nat)
    requires i < |ids|
    ensures Docks.MoveEach(stack, sibling, ids[..i + 1])
         == Docks.MoveEach(Stacking.MoveAbove(stack, ids[i], sibling), sibling, ids[..i])
  {
    hide Stacking.MoveAbove;
    assert ids[..i + 1][..i] == ids[..i];
  }

  lemma EachNone(stack: seq<Window>, sibling: Window)
    ensures Docks.MoveEach(stack, sibling, []) == stack
  {
  }

  /** A request to put `w` above the window that `xid` names: with the ancestors and transients that go along,
      and the docks after them. Whether or not windows get lost from the list, the records stay in order,
      and so does the life of the windows. */
  method RestackAndConfigureXWindow(wm: WindowManager, root: Window, w: CompWindow, xid: Window,
                                    ghost c: Scene, ghost sibling: Window)
    requires Ready(wm, c) && NamesApart(wm.Known()) && w in wm.Known() && root == c.root
    requires xid != NONE && Denotes(wm.Known(), xid, sibling)
    modifies wm`lastFoundWindow, wm`serverWindows, wm.alive`serverPrev, wm.alive`serverNext
    ensures w.id in c.wins && Ready(wm, c.(stack := Docks.Restacked(c, w.id, sibling)))
    ensures old(wm.Valid()) ==> wm.Valid()
  {
    hide Ready, NamesApart, Denotes, Spells, Docks.Restacked, Attributes, WindowManager.Linked;
    hide WindowManager.ServerLinked, WindowManager.Indexed, WindowManager.Roster, WindowManager.LinksLead, Staged;
    hide Scene.Sound;
    WindowShown(wm, c, w);
    RecordsShown(wm, c);
    ghost var valid := wm.Valid();
    if valid {
      wm.Apart();
    }
    RestackInList(wm, root, w, xid, c, sibling);
    RestackedSound(c, w.id, sibling);
    ReadyAgain(wm, c, Docks.Restacked(c, w.id, sibling));
  }

  lemma RestackedSound(c: Scene, w: Window, sibling: Window)
    requires c.Sound() && w in c.wins
    ensures c.(stack := Docks.Restacked(c, w, sibling)).Sound()
  {
    hide RestackGroups.Stacked, Docks.Restacked;
    Docks.RestackedStacked(c, w, sibling);
    RestackGroups.StackedSound(c, Docks.Restacked(c, w, sibling));
  }

  /** The part of a restack that concerns the list. */
  method RestackInList(wm: WindowManager, root: Window, w: CompWindow, xid: Window,
                       ghost c: Scene, ghost sibling: Window)
    requires Ready(wm, c) && NamesApart(wm.Known()) && w in wm.Known() && root == c.root
    requires xid != NONE && Denotes(wm.Known(), xid, sibling)
    modifies wm`lastFoundWindow, wm`serverWindows, wm.alive`serverPrev, wm.alive`serverNext
    ensures w.id in c.wins && wm.Indexed() && Spells(wm, Docks.Restacked(c, w.id, sibling))
  {
    hide Ready, NamesApart, Denotes, Spells, Tagged, Restack, Stacking.MoveAbove, Stacking.StackTransients;
    hide Docks.WithDocks, Attributes, Scene.Sound, IndexedBy;
    WindowShown(wm, c, w);
    ReadySpells(wm, c);
    RecordsShown(wm, c);
    if w.props.managed {
      var ok := RestackRelatives(wm, root, w, xid, c, sibling);
      if ok {
        ghost var mid := Restack(c, w.id, sibling);
        RestackGroups.RestackStacked(c, w.id, sibling);
        RestackGroups.StackedSound(c, mid);
        ReadyAgain(wm, c, mid);
        DocksInList(wm, w, c, mid);
      }
    } else {
      ReconfigureStack(wm, w, xid, c.stack, sibling);
    }
  }

  method DocksInList(wm: WindowManager, w: CompWindow, ghost c: Scene, ghost stack: seq<Window>)
    requires c.Sound() && c.(stack := stack).Sound() && Ready(wm, c.(stack := stack))
    requires NamesApart(wm.Known()) && w in wm.Known()
    modifies wm`lastFoundWindow, wm`serverWindows, wm.alive`serverPrev, wm.alive`serverNext
    ensures w.id in c.wins && wm.Indexed() && Spells(wm, Docks.WithDocks(c, w.id, stack))
  {
    hide Ready, NamesApart, Spells, Tagged, Docks.BelowDocks, Docks.DocksOf, Docks.MoveEach, Scene.Sound, IndexedBy;
    var belowDocks, docks := StackDocks(wm, w, c, stack);
    ReadySpells(wm, c.(stack := stack));
    if belowDocks != null {
      UpdateDocks(wm, docks, belowDocks, Docks.DocksOf(c, stack), stack);
    }
  }
}
