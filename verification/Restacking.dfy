/** Restacking as it is carried out on the window records: the walks over the list last sent to the
    server, and the moves that they lead to. */
module Restacking {
  import opened TransientForest
  import opened Windows
  import opened WindowLists
  import opened Stacking

  /** The scene that the records show: the ids in the order of the server list, and the attributes of the
      windows that can be found. A window that can be found may be missing from the server list. */
  ghost predicate Shows(wm: WindowManager, c: Scene)
    reads wm`windows, wm`serverWindows, wm`windowsMap, wm.Known()`id, wm.Known()`props
  {
    && Tagged(wm.Known(), wm.serverWindows, c.stack)
    && Attributes(wm.Known(), wm.windowsMap, c)
  }

  ghost predicate Attributes(known: set<CompWindow>, index: map<Window, CompWindow>, c: Scene)
    reads known`id, known`props
  {
    && c.wins.Keys == index.Keys
    && (forall t :: t in known ==> t.id in c.wins && c.wins[t.id] == t.props)
    && (forall t, u :: t in known && u in known && t.id == u.id ==> t == u)
  }

  /** The records are in order and show a scene. */
  ghost predicate Ready(wm: WindowManager, c: Scene)
    reads wm`windows, wm`serverWindows, wm`windowsMap, wm`lastFoundWindow, wm`alive
    reads wm.alive`prev, wm.alive`next, wm.alive`serverPrev, wm.alive`serverNext, wm.alive`id
    reads wm.Known()`id, wm.Known()`props
  {
    wm.Listed() && c.Sound() && Shows(wm, c)
  }

  /** Windows with these ids. */
  ghost predicate Tagged(known: set<CompWindow>, list: seq<CompWindow>, ids: seq<Window>)
    reads known`id
  {
    |list| == |ids| && forall i :: 0 <= i < |list| ==> list[i] in known && list[i].id == ids[i]
  }

  /** A resource id that names the window `sibling` and no other, by its id or by its frame. */
  ghost predicate Denotes(known: set<CompWindow>, xid: Window, sibling: Window)
    reads known`id, known`props
  {
    forall t :: t in known ==> (Names(t.id, t.props.serverFrame, xid) <==> t.id == sibling)
  }

  method Lookup(wm: WindowManager, ghost c: Scene, id: Window) returns (t: CompWindow?)
    requires Ready(wm, c)
    modifies wm`lastFoundWindow
    ensures Ready(wm, c)
    ensures t == null <==> id !in c.wins
    ensures t != null ==> t in wm.Known() && t.id == id
  {
    hide WindowManager.Linked, WindowManager.ServerLinked;
    t := wm.FindWindow(id);
  }

  /** The topmost window. */
  method Back(wm: WindowManager, ghost c: Scene) returns (t: CompWindow?)
    requires Ready(wm, c)
    ensures At(wm, t, |c.stack|)
  {
    t := if wm.serverWindows == [] then null else wm.serverWindows[|wm.serverWindows| - 1];
  }

  /** A walk down the stack that has come to the window below index `k`. */
  ghost predicate At(wm: WindowManager, t: CompWindow?, k: nat)
    reads wm`serverWindows
  {
    k <= |wm.serverWindows| && if k == 0 then t == null else t == wm.serverWindows[k - 1]
  }

  lemma Bottom(wm: WindowManager, k: nat)
    requires At(wm, null, k)
    ensures k == 0
  {
  }

  lemma Down(wm: WindowManager, c: Scene, t: CompWindow, k: nat)
    requires Ready(wm, c) && At(wm, t, k)
    ensures k > 0 && t in wm.Known() && t.id == c.stack[k - 1] && At(wm, t.serverPrev, k - 1)
  {
    hide WindowManager.Linked, WindowManager.Indexed;
    assert wm.serverWindows[k - 1] == t;
  }

  function IdOf(t: CompWindow?): Window
    reads if t == null then {} else {t}
  {
    if t == null then NONE else t.id
  }

  /** The transients that are to be restacked above `w`, collected from the top of the stack down.
      `xid` is the id that the stack is to be put above, the id or the frame of `sibling`. */
  method StackTransients(wm: WindowManager, root: Window, w: CompWindow, avoid: CompWindow?, xid: Window,
                         ghost c: Scene, ghost sibling: Window)
    returns (ok: bool, list: seq<CompWindow>)
    requires Ready(wm, c) && w in wm.Known() && (avoid == null || avoid in wm.Known()) && root == c.root
    requires Denotes(wm.Known(), xid, sibling)
    ensures ok == Stacking.StackTransients(c, w.id, IdOf(avoid), sibling).ok
    ensures Tagged(wm.Known(), list, Stacking.StackTransients(c, w.id, IdOf(avoid), sibling).list)
    decreases GroupOf(c, w.id) != NONE, Levels(c, w.id)
  {
    hide Ready, TransientsBelow, Stacking.StackTransients, Tagged, Denotes, At, Gathers;
    WindowShown(wm, c, w);
    ghost var a := IdOf(avoid);
    var clientLeader := LeaderOf(wm, root, w, c);
    ok, list := true, [];
    var t := Back(wm, c);
    ghost var k: nat, done: seq<Window> := |c.stack|, [];
    GathersStart(c, w.id, a, sibling);
    TaggedEmpty(wm.Known());
    while t != null
      invariant ok && k <= |c.stack| && At(wm, t, k) && Tagged(wm.Known(), list, done)
      invariant Gathers(c, w.id, a, sibling, done, k)
      decreases k
    {
      Down(wm, c, t, k);
      Examined(wm, c, t, w, avoid, xid, sibling);
      if t == w || t == avoid {
        GathersSkip(c, w.id, a, sibling, done, k);
      } else if t.props.transientFor == w.id || IsGroupTransient(t.props, clientLeader, root) {
        var more;
        Deeper(c, t.id, w.id);
        ok, more := StackTransients(wm, root, t, avoid, xid, c, sibling);
        ghost var above := Stacking.StackTransients(c, t.id, a, sibling);
        TaggedConcat(wm.Known(), list, more, done, above.list);
        list := list + more;
        if !ok || Names(t.id, t.props.serverFrame, xid) {
          GathersStop(c, w.id, a, sibling, done, k);
          return false, list;
        }
        GathersTake(c, w.id, a, sibling, done, k);
        done := done + above.list;
        if (t.props.mapNum != 0 || t.props.pendingMaps != 0) && t.props.onServer {
          TaggedOne(wm.Known(), t);
          TaggedConcat(wm.Known(), list, [t], done, [t.id]);
          list, done := list + [t], done + [t.id];
        }
      } else {
        GathersSkip(c, w.id, a, sibling, done, k);
      }
      t, k := t.serverPrev, k - 1;
    }
    Bottom(wm, k);
    GathersEnd(c, w.id, a, sibling, done);
  }

  /** The leader whose group transients go with `w`. */
  method LeaderOf(wm: WindowManager, root: Window, w: CompWindow, ghost c: Scene) returns (leader: Window)
    requires Ready(wm, c) && w in wm.Known() && root == c.root
    ensures w.id in c.wins && leader == GroupOf(c, w.id)
  {
    hide WindowManager.Listed;
    leader := w.props.clientLeader;
    if w.props.transientFor != NONE || IsGroupTransient(w.props, leader, root) {
      leader := NONE;
    }
  }

  lemma WindowShown(wm: WindowManager, c: Scene, w: CompWindow)
    requires Ready(wm, c) && w in wm.Known()
    ensures c.Sound() && |c.stack| == |wm.serverWindows| && w.id in c.wins && c.wins[w.id] == w.props
  {
    hide WindowManager.Listed;
  }

  /** What a walk asks of a window, asked of the scene. */
  lemma Examined(wm: WindowManager, c: Scene, t: CompWindow, w: CompWindow, avoid: CompWindow?, xid: Window,
                 sibling: Window)
    requires Ready(wm, c) && t in wm.Known() && w in wm.Known() && (avoid == null || avoid in wm.Known())
    requires Denotes(wm.Known(), xid, sibling)
    ensures t == w <==> t.id == w.id
    ensures t == avoid <==> t.id == IdOf(avoid)
    ensures t.id in c.wins && c.wins[t.id] == t.props
    ensures Names(t.id, t.props.serverFrame, xid) <==> t.id == sibling
  {
    hide WindowManager.Listed;
  }

  lemma TaggedEmpty(known: set<CompWindow>)
    ensures Tagged(known, [], [])
  {
  }

  lemma TaggedOne(known: set<CompWindow>, t: CompWindow)
    requires t in known
    ensures Tagged(known, [t], [t.id])
  {
  }

  lemma TaggedConcat(known: set<CompWindow>, list: seq<CompWindow>, more: seq<CompWindow>, ids: seq<Window>,
                     others: seq<Window>)
    requires Tagged(known, list, ids) && Tagged(known, more, others)
    ensures Tagged(known, list + more, ids + others)
  {
  }

  /** What has been collected so far, with what the rest of the walk will collect, is the result. */
  ghost predicate Gathers(c: Scene, w: Window, avoid: Window, sibling: Window, done: seq<Window>, k: nat)
    requires c.Sound() && w in c.wins && k <= |c.stack|
  {
    var rest := TransientsBelow(c, w, avoid, sibling, k);
    Stacking.StackTransients(c, w, avoid, sibling) == Collected(rest.ok, done + rest.list)
  }

  lemma GathersStart(c: Scene, w: Window, avoid: Window, sibling: Window)
    requires c.Sound() && w in c.wins
    ensures Gathers(c, w, avoid, sibling, [], |c.stack|)
  {
    hide TransientsBelow;
  }

  lemma GathersEnd(c: Scene, w: Window, avoid: Window, sibling: Window, done: seq<Window>)
    requires c.Sound() && w in c.wins && Gathers(c, w, avoid, sibling, done, 0)
    ensures Stacking.StackTransients(c, w, avoid, sibling) == Collected(true, done)
  {
    hide Stacking.StackTransients;
    assert TransientsBelow(c, w, avoid, sibling, 0) == Collected(true, []);
  }

  lemma GathersSkip(c: Scene, w: Window, avoid: Window, sibling: Window, done: seq<Window>, k: nat)
    requires c.Sound() && w in c.wins && 0 < k <= |c.stack| && Gathers(c, w, avoid, sibling, done, k)
    requires c.stack[k - 1] == w || c.stack[k - 1] == avoid || !Follows(c, c.stack[k - 1], w)
    ensures Gathers(c, w, avoid, sibling, done, k - 1)
  {
    hide Stacking.StackTransients, Follows;
  }

  lemma GathersStop(c: Scene, w: Window, avoid: Window, sibling: Window, done: seq<Window>, k: nat)
    requires c.Sound() && w in c.wins && 0 < k <= |c.stack| && Gathers(c, w, avoid, sibling, done, k)
    requires c.stack[k - 1] != w && c.stack[k - 1] != avoid && Follows(c, c.stack[k - 1], w)
    requires !Stacking.StackTransients(c, c.stack[k - 1], avoid, sibling).ok || c.stack[k - 1] == sibling
    ensures Stacking.StackTransients(c, w, avoid, sibling)
         == Collected(false, done + Stacking.StackTransients(c, c.stack[k - 1], avoid, sibling).list)
  {
    hide Stacking.StackTransients, Follows;
  }

  lemma GathersTake(c: Scene, w: Window, avoid: Window, sibling: Window, done: seq<Window>, k: nat)
    requires c.Sound() && w in c.wins && 0 < k <= |c.stack| && Gathers(c, w, avoid, sibling, done, k)
    requires c.stack[k - 1] != w && c.stack[k - 1] != avoid && Follows(c, c.stack[k - 1], w)
    requires Stacking.StackTransients(c, c.stack[k - 1], avoid, sibling).ok && c.stack[k - 1] != sibling
    ensures Gathers(c, w, avoid, sibling, Taken(c, done, Stacking.StackTransients(c, c.stack[k - 1], avoid, sibling).list,
                                                c.stack[k - 1]), k - 1)
  {
    hide Stacking.StackTransients, Follows, Restackable;
    var t := c.stack[k - 1];
    var above := Stacking.StackTransients(c, t, avoid, sibling).list;
    var rest := TransientsBelow(c, w, avoid, sibling, k - 1);
    var some := if Restackable(c, t) then [t] else [];
    assert done + (above + some + rest.list) == done + above + some + rest.list;
    assert Taken(c, done, above, t) == done + above + some;
  }

  /** A list of windows with those added that go above `t`, and `t` where it can be restacked. */
  ghost function Taken(c: Scene, done: seq<Window>, above: seq<Window>, t: Window): seq<Window>
    requires t in c.wins
  {
    if Restackable(c, t) then done + above + [t] else done + above
  }

  /** The windows that are to be restacked below `w`, its ancestors and their other transients, the
      uppermost first. */
  method StackAncestors(wm: WindowManager, root: Window, w: CompWindow, xid: Window, ghost c: Scene,
                        ghost sibling: Window)
    returns (list: seq<CompWindow>)
    requires Ready(wm, c) && w in wm.Known() && root == c.root && Denotes(wm.Known(), xid, sibling)
    modifies wm`lastFoundWindow
    ensures Ready(wm, c) && Tagged(wm.Known(), list, Stacking.StackAncestors(c, w.id, sibling))
    decreases RankOf(c.Links())(w.id)
  {
    hide Ready, Tagged, Denotes, Stacking.StackTransients, Stacking.StackAncestors, GroupAncestors, IsGroupTransient;
    WindowShown(wm, c, w);
    var ancestor: CompWindow? := null;
    if w.props.transientFor != NONE {
      ancestor := Lookup(wm, c, w.props.transientFor);
    }
    NoneListed(c);
    if ancestor != null {
      Examined(wm, c, ancestor, w, null, xid, sibling);
    }
    if ancestor != null && !Names(ancestor.id, ancestor.props.serverFrame, xid) {
      list := StackAncestor(wm, root, w, ancestor, xid, c, sibling);
    } else if IsGroupTransient(w.props, w.props.clientLeader, root) {
      list := StackGroup(wm, root, w, xid, c, sibling);
      NoAncestor(c, w.id, sibling);
    } else {
      list := [];
      TaggedEmpty(wm.Known());
      NoAncestor(c, w.id, sibling);
    }
  }

  lemma NoneListed(c: Scene)
    requires c.Sound()
    ensures NONE !in c.wins
  {
  }

  /** The climb from a window in search of an ancestor. */
  method IsAncestorTo(wm: WindowManager, transient: CompWindow, ancestor: CompWindow, ghost c: Scene)
    returns (found: bool)
    requires Ready(wm, c) && transient in wm.Known() && ancestor in wm.Known()
    modifies wm`lastFoundWindow
    ensures Ready(wm, c) && transient.id in c.wins && ancestor.id in c.wins
    ensures found == TransientForest.IsAncestorTo(c.Links(), transient.id, ancestor.id)
    decreases RankOf(c.Links())(transient.id)
  {
    hide Ready;
    WindowShown(wm, c, transient);
    WindowShown(wm, c, ancestor);
    NoneListed(c);
    found := false;
    if transient.props.transientFor != NONE {
      if transient.props.transientFor == ancestor.id {
        return true;
      }
      assert c.Links()[transient.id] == transient.props.transientFor;
      var t := Lookup(wm, c, transient.props.transientFor);
      if t != null {
        found := IsAncestorTo(wm, t, ancestor, c);
      }
    }
  }

  lemma NoAncestor(c: Scene, w: Window, sibling: Window)
    requires c.Sound() && w in c.wins
    requires c.wins[w].transientFor !in c.wins || c.wins[w].transientFor == sibling
    ensures Stacking.StackAncestors(c, w, sibling)
         == if IsGroupTransient(c.wins[w], c.wins[w].clientLeader, c.root) then GroupAncestors(c, w, sibling, |c.stack|) else []
  {
    hide IsGroupTransient, GroupAncestors, Stacking.StackTransients;
  }

  lemma AncestorStep(c: Scene, w: Window, sibling: Window)
    requires c.Sound() && w in c.wins && c.wins[w].transientFor in c.wins && c.wins[w].transientFor != sibling
    ensures var a := c.wins[w].transientFor;
            var others := Stacking.StackTransients(c, a, w, sibling);
            && RankOf(c.Links())(a) < RankOf(c.Links())(w)
            && Stacking.StackAncestors(c, w, sibling)
            == if !others.ok || c.wins[a].wtype == Desktop || (c.wins[a].wtype == Dock && c.wins[w].wtype != Dock) then
                 others.list
               else Taken(c, [], others.list, a) + Stacking.StackAncestors(c, a, sibling)
  {
    hide GroupAncestors, Stacking.StackTransients, Restackable;
    var a := c.wins[w].transientFor;
    assert c.Links()[w] == a;
    var others := Stacking.StackTransients(c, a, w, sibling);
    var some := if Restackable(c, a) then [a] else [];
    assert Taken(c, [], others.list, a) == others.list + some;
  }

  method StackAncestor(wm: WindowManager, root: Window, w: CompWindow, ancestor: CompWindow, xid: Window,
                       ghost c: Scene, ghost sibling: Window)
    returns (list: seq<CompWindow>)
    requires Ready(wm, c) && w in wm.Known() && root == c.root && Denotes(wm.Known(), xid, sibling)
    requires ancestor in wm.Known() && ancestor.id == w.props.transientFor && ancestor.id != sibling
    modifies wm`lastFoundWindow
    ensures Ready(wm, c) && Tagged(wm.Known(), list, Stacking.StackAncestors(c, w.id, sibling))
    decreases RankOf(c.Links())(w.id), 0
  {
    hide Ready, Tagged, Denotes, Stacking.StackTransients, Stacking.StackAncestors, Restackable;
    WindowShown(wm, c, w);
    WindowShown(wm, c, ancestor);
    AncestorStep(c, w.id, sibling);
    var ok;
    ok, list := StackTransients(wm, root, ancestor, w, xid, c, sibling);
    if !ok || ancestor.props.wtype == Desktop || (ancestor.props.wtype == Dock && w.props.wtype != Dock) {
      return;
    }
    list := Take(wm, list, ancestor, c, Stacking.StackTransients(c, ancestor.id, w.id, sibling).list);
    var more := StackAncestors(wm, root, ancestor, xid, c, sibling);
    TaggedConcat(wm.Known(), list, more,
                 Taken(c, [], Stacking.StackTransients(c, ancestor.id, w.id, sibling).list, ancestor.id),
                 Stacking.StackAncestors(c, ancestor.id, sibling));
    list := list + more;
  }

  /** A window is added to a list where it can be restacked. */
  method Take(wm: WindowManager, list: seq<CompWindow>, t: CompWindow, ghost c: Scene, ghost ids: seq<Window>)
    returns (r: seq<CompWindow>)
    requires t in wm.Known() && t.id in c.wins && c.wins[t.id] == t.props && Tagged(wm.Known(), list, ids)
    ensures Tagged(wm.Known(), r, Taken(c, [], ids, t.id))
  {
    r := list;
    assert [] + ids == ids;
    if (t.props.mapNum != 0 || t.props.pendingMaps != 0) && t.props.onServer {
      r := r + [t];
    }
  }

  /** The main windows of the group of `w`, each after its other transients. */
  method StackGroup(wm: WindowManager, root: Window, w: CompWindow, xid: Window, ghost c: Scene, ghost sibling: Window)
    returns (list: seq<CompWindow>)
    requires Ready(wm, c) && w in wm.Known() && root == c.root && Denotes(wm.Known(), xid, sibling)
    ensures Tagged(wm.Known(), list, GroupAncestors(c, w.id, sibling, |c.stack|))
  {
    hide Ready, Tagged, Denotes, Stacking.StackTransients, GroupAncestors, IsGroupTransient, Restackable, At;
    WindowShown(wm, c, w);
    list := [];
    var a := Back(wm, c);
    ghost var k: nat, done: seq<Window> := |c.stack|, [];
    TaggedEmpty(wm.Known());
    while a != null
      invariant k <= |c.stack| && At(wm, a, k) && Tagged(wm.Known(), list, done)
      invariant GroupAncestors(c, w.id, sibling, |c.stack|) == done + GroupAncestors(c, w.id, sibling, k)
      decreases k
    {
      Down(wm, c, a, k);
      Examined(wm, c, a, w, null, xid, sibling);
      if a.props.clientLeader == w.props.clientLeader && a.props.transientFor == NONE
         && !IsGroupTransient(a.props, w.props.clientLeader, root) {
        GroupStep(c, w.id, sibling, done, k);
        if Names(a.id, a.props.serverFrame, xid) {
          return;
        }
        var ok, more := StackTransients(wm, root, a, w, xid, c, sibling);
        ghost var others := Stacking.StackTransients(c, a.id, w.id, sibling).list;
        TaggedConcat(wm.Known(), list, more, done, others);
        list, done := list + more, done + others;
        if !ok {
          return;
        }
        if a.props.wtype != Desktop {
          if a.props.wtype == Dock && w.props.wtype != Dock {
            return;
          }
          list := Take(wm, list, a, c, done);
          done := Taken(c, [], done, a.id);
        }
      } else {
        GroupSkip(c, w.id, sibling, k);
      }
      a, k := a.serverPrev, k - 1;
    }
    Bottom(wm, k);
    GroupSkip(c, w.id, sibling, 0);
    assert done + [] == done;
  }

  predicate LeadsGroup(c: Scene, a: Window, w: Window)
    requires a in c.wins && w in c.wins
  {
    && c.wins[a].clientLeader == c.wins[w].clientLeader && c.wins[a].transientFor == NONE
    && !IsGroupTransient(c.wins[a], c.wins[w].clientLeader, c.root)
  }

  lemma GroupSkip(c: Scene, w: Window, sibling: Window, k: nat)
    requires c.Sound() && w in c.wins && k <= |c.stack|
    requires k > 0 ==> !LeadsGroup(c, c.stack[k - 1], w)
    ensures GroupAncestors(c, w, sibling, k) == if k == 0 then [] else GroupAncestors(c, w, sibling, k - 1)
  {
    hide IsGroupTransient, Stacking.StackTransients;
  }

  lemma GroupStep(c: Scene, w: Window, sibling: Window, done: seq<Window>, k: nat)
    requires c.Sound() && w in c.wins && 0 < k <= |c.stack| && LeadsGroup(c, c.stack[k - 1], w)
    ensures var a := c.stack[k - 1];
            var p := c.wins[a];
            var others := Stacking.StackTransients(c, a, w, sibling);
            done + GroupAncestors(c, w, sibling, k)
            == if a == sibling then done
               else if !others.ok then done + others.list
               else if p.wtype == Desktop then done + others.list + GroupAncestors(c, w, sibling, k - 1)
               else if p.wtype == Dock && c.wins[w].wtype != Dock then done + others.list
               else Taken(c, [], done + others.list, a) + GroupAncestors(c, w, sibling, k - 1)
  {
    hide IsGroupTransient, Stacking.StackTransients, Restackable;
    var a := c.stack[k - 1];
    var others := Stacking.StackTransients(c, a, w, sibling);
    var some := if Restackable(c, a) then [a] else [];
    var rest := GroupAncestors(c, w, sibling, k - 1);
    assert done + (others.list + rest) == done + others.list + rest;
    assert done + (others.list + some + rest) == done + others.list + some + rest;
    assert Taken(c, [], done + others.list, a) == done + others.list + some;
  }
}
