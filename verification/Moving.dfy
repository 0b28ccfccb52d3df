/** The moves of a restack, carried out one by one on the list last sent to the server. */
module Moving {
  import opened Sequences
  import opened Windows
  import opened WindowLists
  import opened Stacking
  import opened Restacking
  import RestackTheorems

  /** The id of the window that is a child of the root: the frame where there is one. */
  function RootParent(t: CompWindow): Window
    reads t`id, t`props
  {
    if t.props.serverFrame != NONE then t.props.serverFrame else t.id
  }

  /** No two windows share an id or a frame, and no id of a window is a frame of another. */
  ghost predicate NamesApart(known: set<CompWindow>)
    reads known`id, known`props
  {
    && (forall t :: t in known ==> t.id != NONE)
    && (forall t, u :: t in known && u in known && Names(u.id, u.props.serverFrame, t.id) ==> u == t)
    && (forall t, u :: t in known && t.props.serverFrame != NONE && u in known ==>
          (Names(u.id, u.props.serverFrame, t.props.serverFrame) ==> u == t))
  }

  lemma RootParentDenotes(known: set<CompWindow>, t: CompWindow)
    requires NamesApart(known) && t in known
    ensures RootParent(t) != NONE && Denotes(known, RootParent(t), t.id)
  {
  }

  lemma {:induction false} RemoveTagged(known: set<CompWindow>, list: seq<CompWindow>, ids: seq<Window>, w: CompWindow)
    requires NamesApart(known) && Tagged(known, list, ids) && w in known
    ensures Tagged(known, Remove(list, w), Remove(ids, w.id))
  {
    hide NamesApart;
    if list != [] {
      SameId(known, list[0], w);
      RemoveTagged(known, list[1..], ids[1..], w);
    }
  }

  lemma SameId(known: set<CompWindow>, t: CompWindow, w: CompWindow)
    requires NamesApart(known) && t in known && w in known
    ensures t == w <==> t.id == w.id
  {
  }

  lemma {:induction false} FirstTagged(known: set<CompWindow>, list: seq<CompWindow>, ids: seq<Window>, xid: Window,
                          sibling: Window)
    requires Tagged(known, list, ids) && Denotes(known, xid, sibling)
    ensures FirstNamed(list, true, xid) == if sibling in ids then IndexOf(ids, sibling) else -1
  {
    if list != [] {
      FirstTagged(known, list[1..], ids[1..], xid, sibling);
    }
  }

  lemma InsertTagged(known: set<CompWindow>, list: seq<CompWindow>, ids: seq<Window>, k: nat, w: CompWindow)
    requires Tagged(known, list, ids) && k <= |list| && w in known
    ensures Tagged(known, InsertAt(list, k, w), InsertAt(ids, k, w.id))
  {
  }

  /** The list spells out a stack, and its links do so too. */
  ghost predicate Spells(wm: WindowManager, stack: seq<Window>)
    reads wm`windows, wm`serverWindows, wm`alive, wm.alive`serverPrev, wm.alive`serverNext, wm.Known()`id
  {
    wm.ServerLinked() && wm.Known() <= wm.alive && Tagged(wm.Known(), wm.serverWindows, stack)
  }

  /** A window is taken out. */
  method TakeOut(wm: WindowManager, w: CompWindow, ghost stack: seq<Window>)
    requires Spells(wm, stack) && NamesApart(wm.Known()) && w in wm.Known()
    modifies wm`serverWindows, wm.alive`serverPrev, wm.alive`serverNext
    ensures Spells(wm, Remove(stack, w.id)) && w !in wm.serverWindows
  {
    hide WindowManager.ServerLinked, Tagged, NamesApart, Remove;
    RemoveTagged(wm.Known(), wm.serverWindows, stack, w);
    wm.UnhookServerWindow(w);
    assert w !in Elements(wm.serverWindows);
  }

  /** The ids of a list after a window has been put in. */
  function PutAbove(ids: seq<Window>, w: Window, sibling: Window): seq<Window> {
    if ids == [] then [w]
    else if sibling in ids then InsertAt(ids, IndexOf(ids, sibling) + 1, w)
    else ids
  }

  method PutIn(wm: WindowManager, w: CompWindow, xid: Window, ghost ids: seq<Window>, ghost sibling: Window)
    requires Spells(wm, ids) && w in wm.Known() && w !in wm.serverWindows
    requires xid != NONE && Denotes(wm.Known(), xid, sibling)
    modifies wm`serverWindows, wm.alive`serverPrev, wm.alive`serverNext
    ensures Spells(wm, PutAbove(ids, w.id, sibling))
  {
    hide WindowManager.ServerLinked, Tagged, Denotes, PutAbove, InsertionPoint;
    Inserted(wm.Known(), wm.serverWindows, ids, w, xid, sibling);
    wm.InsertServerWindow(w, xid);
  }

  /** A window is taken out and put back above the one that `xid` names. */
  method MoveAbove(wm: WindowManager, w: CompWindow, xid: Window, ghost stack: seq<Window>, ghost sibling: Window)
    requires Spells(wm, stack) && NamesApart(wm.Known()) && w in wm.Known()
    requires xid != NONE && Denotes(wm.Known(), xid, sibling)
    modifies wm`serverWindows, wm.alive`serverPrev, wm.alive`serverNext
    ensures Spells(wm, Stacking.MoveAbove(stack, w.id, sibling))
  {
    hide Spells, Denotes, NamesApart, Remove;
    TakeOut(wm, w, stack);
    PutIn(wm, w, xid, Remove(stack, w.id), sibling);
  }

  lemma Inserted(known: set<CompWindow>, list: seq<CompWindow>, ids: seq<Window>, w: CompWindow, xid: Window,
                 sibling: Window)
    requires Tagged(known, list, ids) && Denotes(known, xid, sibling) && xid != NONE && w in known
    ensures var k := InsertionPoint(list, true, xid);
            Tagged(known, if k < 0 then list else InsertAt(list, k, w), PutAbove(ids, w.id, sibling))
  {
    hide Denotes, IndexOf, FirstNamed;
    FirstTagged(known, list, ids, xid, sibling);
    if list == [] {
      assert InsertAt(list, 0, w) == [w];
    } else if sibling in ids {
      InsertTagged(known, list, ids, IndexOf(ids, sibling) + 1, w);
    }
  }

  lemma {:induction false} MoveInPlace(stack: seq<Window>, k: nat)
    requires Distinct(stack) && 0 < k < |stack|
    ensures Stacking.MoveAbove(stack, stack[k], stack[k - 1]) == stack
  {
    RemoveAt(stack, k);
    var rest := Remove(stack, stack[k]);
    assert rest == stack[..k] + stack[k + 1..];
    assert rest[k - 1] == stack[k - 1];
    RemoveDistinct(stack, stack[k]);
    assert IndexOf(rest, stack[k - 1]) == k - 1;
  }

  /** What a request to be above `xid` does to the list. One that asks for the place where the window
      already is may be left out; whether it is depends on the requests that the server has not yet
      confirmed, which are not known here. A window that is not listed has no neighbours. */
  method ReconfigureStack(wm: WindowManager, w: CompWindow, xid: Window, ghost stack: seq<Window>,
                          ghost sibling: Window)
    requires Spells(wm, stack) && NamesApart(wm.Known()) && w in wm.Known()
    requires xid != NONE && Denotes(wm.Known(), xid, sibling)
    modifies wm`serverWindows, wm.alive`serverPrev, wm.alive`serverNext
    ensures Spells(wm, Stacking.MoveAbove(stack, w.id, sibling))
  {
    hide Stacking.MoveAbove, NamesApart;
    var remove := false;
    if w in wm.serverWindows && w.serverPrev != null && RootParent(w.serverPrev) == xid {
      remove := *;
    }
    if remove {
      InPlace(wm, w, xid, stack, sibling);
    } else {
      MoveAbove(wm, w, xid, stack, sibling);
    }
  }

  lemma InPlace(wm: WindowManager, w: CompWindow, xid: Window, stack: seq<Window>, sibling: Window)
    requires Spells(wm, stack) && NamesApart(wm.Known()) && w in wm.serverWindows
    requires Denotes(wm.Known(), xid, sibling) && w.serverPrev != null && RootParent(w.serverPrev) == xid
    ensures Stacking.MoveAbove(stack, w.id, sibling) == stack
  {
    hide Stacking.MoveAbove;
    var k :| 0 <= k < |wm.serverWindows| && wm.serverWindows[k] == w;
    assert k > 0 && w.serverPrev == wm.serverWindows[k - 1];
    assert stack[k - 1] == w.serverPrev.id == sibling;
    TaggedDistinct(wm.Known(), wm.serverWindows, stack);
    MoveInPlace(stack, k);
  }

  lemma TaggedDistinct(known: set<CompWindow>, list: seq<CompWindow>, ids: seq<Window>)
    requires NamesApart(known) && Tagged(known, list, ids) && Distinct(list)
    ensures Distinct(ids)
  {
    forall i, j | 0 <= i < j < |ids|
      ensures ids[i] != ids[j]
    {
      SameId(known, list[i], list[j]);
    }
  }

  /** The windows of a list are restacked one by one from its end, each above the one before. */
  method RestackEach(wm: WindowManager, list: seq<CompWindow>, xid: Window, ghost ids: seq<Window>,
                     ghost stack: seq<Window>, ghost sibling: Window)
    returns (last: Window, ghost now: Window)
    requires Spells(wm, stack) && NamesApart(wm.Known()) && Tagged(wm.Known(), list, ids)
    requires xid != NONE && Denotes(wm.Known(), xid, sibling)
    modifies wm`serverWindows, wm.alive`serverPrev, wm.alive`serverNext
    ensures Spells(wm, Replay(stack, sibling, Reverse(ids)))
    ensures last != NONE && Denotes(wm.Known(), last, now) && now == if ids == [] then sibling else ids[0]
  {
    hide NamesApart, Denotes, Spells, Replay, Reverse, Stacking.MoveAbove;
    ghost var known := wm.Known();
    ghost var s := stack;
    var i := |list|;
    last, now := xid, sibling;
    assert ids[..i] == ids;
    while i > 0
      invariant i <= |list| == |ids| && Spells(wm, s) && last != NONE && Denotes(known, last, now)
      invariant now == if i == |ids| then sibling else ids[i]
      invariant Replay(stack, sibling, Reverse(ids)) == Replay(s, now, Reverse(ids[..i]))
    {
      i := i - 1;
      assert list[i].id == ids[i] && list[i] in known;
      ReplayNext(s, now, ids, i);
      ReconfigureStack(wm, list[i], last, s, now);
      s, now := Stacking.MoveAbove(s, ids[i], now), ids[i];
      RootParentDenotes(known, list[i]);
      last := RootParent(list[i]);
    }
    ReplayNone(s, now);
  }

  lemma ReplayNone(stack: seq<Window>, sibling: Window)
    ensures Replay(stack, sibling, Reverse([])) == stack
  {
  }

  lemma ReplayNext(stack: seq<Window>, sibling: Window, ids: seq<Window>, i: nat)
    requires i < |ids|
    ensures Replay(stack, sibling, Reverse(ids[..i + 1]))
         == Replay(Stacking.MoveAbove(stack, ids[i], sibling), ids[i], Reverse(ids[..i]))
  {
    hide Stacking.MoveAbove;
    var r := Reverse(ids[..i + 1]);
    assert ids[..i + 1] == ids[..i] + [ids[i]];
    RestackTheorems.ReverseConcat(ids[..i], [ids[i]]);
    assert Reverse([ids[i]]) == [ids[i]];
    assert r == [ids[i]] + Reverse(ids[..i]);
    assert r[1..] == Reverse(ids[..i]);
  }

  lemma {:induction false} ReplayConcat(stack: seq<Window>, sibling: Window, a: seq<Window>, b: seq<Window>)
    ensures Replay(stack, sibling, a + b)
         == Replay(Replay(stack, sibling, a), if a == [] then sibling else a[|a| - 1], b)
    decreases |a|
  {
    hide Stacking.MoveAbove;
    if a == [] {
      assert a + b == b;
    } else {
      assert (a + b)[1..] == a[1..] + b;
      ReplayConcat(Stacking.MoveAbove(stack, a[0], sibling), a[0], a[1..], b);
    }
  }

  /** What the records say besides the order of the server list. */
  lemma RecordsShown(wm: WindowManager, c: Scene)
    requires Ready(wm, c)
    ensures wm.Linked() && c.Sound() && Attributes(wm.Known(), wm.windowsMap, c)
  {
    hide WindowManager.Linked, WindowManager.ServerLinked, WindowManager.Indexed;
  }

  lemma ReadyAgain(wm: WindowManager, c: Scene, stack: seq<Window>)
    requires wm.Linked() && wm.Indexed() && Attributes(wm.Known(), wm.windowsMap, c) && Spells(wm, stack)
    requires c.(stack := stack).Sound()
    ensures Ready(wm, c.(stack := stack)) && wm.Listed()
  {
    hide WindowManager.Linked, WindowManager.Indexed, WindowManager.ServerLinked, Tagged, Scene.Sound;
  }

  /** A managed window is put above the one that `xid` names, with the ancestors and transients that go
      along, unless that window is among its transients. */
  method RestackRelatives(wm: WindowManager, root: Window, w: CompWindow, xid: Window,
                          ghost c: Scene, ghost sibling: Window)
    returns (ok: bool)
    requires Ready(wm, c) && NamesApart(wm.Known()) && w in wm.Known() && root == c.root
    requires xid != NONE && Denotes(wm.Known(), xid, sibling)
    modifies wm`lastFoundWindow, wm`serverWindows, wm.alive`serverPrev, wm.alive`serverNext
    ensures w.id in c.wins && wm.Indexed()
    ensures ok == Stacking.StackTransients(c, w.id, NONE, sibling).ok
    ensures Spells(wm, if ok then Restack(c, w.id, sibling) else c.stack)
  {
    hide Ready, NamesApart, Denotes, Spells, Tagged, Replay, Stacking.MoveAbove, Stacking.StackTransients;
    hide Stacking.StackAncestors;
    WindowShown(wm, c, w);
    ReadySpells(wm, c);
    var transients;
    ok, transients := Restacking.StackTransients(wm, root, w, null, xid, c, sibling);
    if ok {
      var ancestors := Restacking.StackAncestors(wm, root, w, xid, c, sibling);
      ReadySpells(wm, c);
      MoveBlock(wm, w, xid, ancestors, transients, c, sibling);
    }
  }

  lemma ReadySpells(wm: WindowManager, c: Scene)
    requires Ready(wm, c)
    ensures Spells(wm, c.stack) && wm.Indexed()
  {
    hide WindowManager.ServerLinked;
  }

  method MoveBlock(wm: WindowManager, w: CompWindow, xid: Window, ancestors: seq<CompWindow>,
                   transients: seq<CompWindow>,
                   ghost c: Scene, ghost sibling: Window)
    requires c.Sound() && Spells(wm, c.stack) && NamesApart(wm.Known()) && w in wm.Known() && w.id in c.wins
    requires xid != NONE && Denotes(wm.Known(), xid, sibling)
    requires Tagged(wm.Known(), ancestors, Stacking.StackAncestors(c, w.id, sibling))
    requires Tagged(wm.Known(), transients, Stacking.StackTransients(c, w.id, NONE, sibling).list)
    modifies wm`serverWindows, wm.alive`serverPrev, wm.alive`serverNext
    ensures Spells(wm, Replay(c.stack, sibling, Block(c, w.id, sibling)))
  {
    hide Scene.Sound, NamesApart, Denotes, Spells, Tagged, Replay, Stacking.MoveAbove, Stacking.StackTransients;
    hide Stacking.StackAncestors, Block;
    ghost var known := wm.Known();
    ghost var a, t := Stacking.StackAncestors(c, w.id, sibling), Stacking.StackTransients(c, w.id, NONE, sibling).list;
    BlockReplayed(c, w.id, sibling);
    var last; ghost var now;
    last, now := RestackEach(wm, ancestors, xid, a, c.stack, sibling);
    ghost var s := Replay(c.stack, sibling, Reverse(a));
    ReconfigureStack(wm, w, last, s, now);
    RootParentDenotes(known, w);
    last, now := RestackEach(wm, transients, RootParent(w), t, Stacking.MoveAbove(s, w.id, now), w.id);
  }

  lemma BlockReplayed(c: Scene, w: Window, sibling: Window)
    requires c.Sound() && w in c.wins
    ensures var a, t := Stacking.StackAncestors(c, w, sibling), Stacking.StackTransients(c, w, NONE, sibling).list;
            var now := if a == [] then sibling else a[0];
            Replay(c.stack, sibling, Block(c, w, sibling))
            == Replay(Stacking.MoveAbove(Replay(c.stack, sibling, Reverse(a)), w, now), w, Reverse(t))
  {
    hide Stacking.MoveAbove, Stacking.StackTransients, Stacking.StackAncestors;
    var a, t := Stacking.StackAncestors(c, w, sibling), Stacking.StackTransients(c, w, NONE, sibling).list;
    var r := [w] + Reverse(t);
    assert Block(c, w, sibling) == Reverse(a) + r;
    ReplayConcat(c.stack, sibling, Reverse(a), r);
    assert r[1..] == Reverse(t);
  }
}
