/** Hints of transience and requests to raise a window, carried out on the window records. */
module Raising {
  import opened Sequences
  import opened TransientForest
  import opened Values
  import opened Windows
  import opened WindowLists
  import opened Stacking
  import opened Restacking
  import opened Moving
  import opened Docking
  import Docks
  import LayerOrder
  import RestackGroups

  /** Whether a window, or one on the climb up from it, is of one of these types. */
  ghost predicate AtOrAbove(c: Scene, t: CompWindow?, types: set<WindowType>)
    requires c.Sound() && (t == null || t.id in c.wins)
    reads if t == null then {} else {t}
  {
    t != null && (c.wins[t.id].wtype in types || LayerOrder.HasAncestorOf(c, t.id, types))
  }

  lemma AncestorAtOrAbove(c: Scene, w: Window, t: CompWindow?, types: set<WindowType>)
    requires c.Sound() && w in c.wins
    requires if t == null then c.wins[w].transientFor !in c.wins else t.id == c.wins[w].transientFor && t.id in c.wins
    ensures LayerOrder.HasAncestorOf(c, w, types) == AtOrAbove(c, t, types)
    ensures t != null ==> RankOf(c.Links())(t.id) < RankOf(c.Links())(w)
  {
    assert t != null ==> c.Links()[w] == t.id;
  }

  /** The layer in which a window is stacked. */
  method StackType(wm: WindowManager, w: CompWindow, ghost c: Scene) returns (wtype: WindowType)
    requires Ready(wm, c) && w in wm.Known()
    modifies wm`lastFoundWindow
    ensures Ready(wm, c) && w.id in c.wins && wtype == LayerOrder.StackType(c, w.id)
  {
    hide Ready, LayerOrder.HasAncestorOf, AtOrAbove;
    WindowShown(wm, c, w);
    var t := Lookup(wm, c, w.props.transientFor);
    wtype := w.props.wtype;
    if wtype == Fullscreen && w.props.below {
      wtype := Normal;
    }
    ghost var own := wtype;
    AncestorAtOrAbove(c, w.id, t, {Dock});
    while t != null && wtype != Dock
      invariant Ready(wm, c) && (t == null || (t in wm.Known() && t.id in c.wins))
      invariant wtype == Dock || wtype == own
      invariant LayerOrder.StackType(c, w.id) == if AtOrAbove(c, t, {Dock}) then Dock else wtype
      decreases if t == null then 0 else RankOf(c.Links())(t.id) + 1
    {
      WindowShown(wm, c, t);
      ghost var below := t;
      if t.props.wtype == Dock {
        wtype := Dock;
      }
      t := Lookup(wm, c, t.props.transientFor);
      AncestorAtOrAbove(c, below.id, t, {Dock});
      Above(c, below, {Dock});
    }
    Above(c, t, {Dock});
  }

  lemma Above(c: Scene, t: CompWindow?, types: set<WindowType>)
    requires c.Sound() && (t == null || t.id in c.wins)
    ensures AtOrAbove(c, t, types)
         == (t != null && (c.wins[t.id].wtype in types || LayerOrder.HasAncestorOf(c, t.id, types)))
  {
  }

  /** Whether neither a window nor any of its ancestors is of a type that bars others. */
  method AllowedRelativeToLayer(wm: WindowManager, below: CompWindow, aboveFs: bool, ghost c: Scene)
    returns (allowed: bool)
    requires Ready(wm, c) && below in wm.Known()
    modifies wm`lastFoundWindow
    ensures Ready(wm, c)
    ensures allowed == !AtOrAbove(c, below, LayerOrder.Barred(aboveFs))
  {
    hide Ready, LayerOrder.HasAncestorOf, AtOrAbove;
    WindowShown(wm, c, below);
    var types := LayerOrder.Barred(aboveFs);
    allowed := below.props.wtype !in types;
    Above(c, below, types);
    var t := Lookup(wm, c, below.props.transientFor);
    AncestorAtOrAbove(c, below.id, t, types);
    while t != null && allowed
      invariant Ready(wm, c) && (t == null || (t in wm.Known() && t.id in c.wins))
      invariant AtOrAbove(c, below, types) == (!allowed || AtOrAbove(c, t, types))
      decreases if t == null then 0 else RankOf(c.Links())(t.id) + 1
    {
      WindowShown(wm, c, t);
      ghost var u := t;
      allowed := t.props.wtype !in types;
      t := Lookup(wm, c, t.props.transientFor);
      AncestorAtOrAbove(c, u.id, t, types);
      Above(c, u, types);
    }
    Above(c, t, types);
  }

  method StackLayerCheck(wm: WindowManager, root: Window, w: CompWindow, clientLeader: Window, below: CompWindow,
                         ghost c: Scene)
    returns (may: bool)
    requires Ready(wm, c) && w in wm.Known() && below in wm.Known() && root == c.root
    modifies wm`lastFoundWindow
    ensures Ready(wm, c) && w.id in c.wins && below.id in c.wins
    ensures may == LayerOrder.StackLayerCheck(c, w.id, clientLeader, below.id)
  {
    hide Ready, TransientForest.IsAncestorTo;
    WindowShown(wm, c, w);
    WindowShown(wm, c, below);
    var up := Restacking.IsAncestorTo(wm, w, below, c);
    if up {
      return true;
    }
    var down := Restacking.IsAncestorTo(wm, below, w, c);
    if down {
      return false;
    }
    if clientLeader != NONE && below.props.clientLeader == clientLeader && IsGroupTransient(below.props, clientLeader, root) {
      return false;
    }
    if w.props.above {
      return true;
    } else if w.props.below {
      if below.props.below {
        return true;
      }
    } else if !below.props.above {
      return true;
    }
    return false;
  }

  /** Whether a search for a place passes over a window. */
  method AvoidStackingRelativeTo(wm: WindowManager, w: CompWindow, ghost c: Scene) returns (avoid: bool)
    requires Ready(wm, c) && w in wm.Known()
    ensures w.id in c.wins && avoid == LayerOrder.Avoided(c.wins[w.id])
  {
    hide WindowManager.Listed;
    var allowRelativeToUnmapped := w.props.awaitingMap || w.props.shaded || w.props.pendingMaps != 0;
    if w.props.overrideRedirect || (!allowRelativeToUnmapped && (!w.props.viewable || w.props.mapNum == 0)) {
      return true;
    }
    return false;
  }

  /** Whether the search for a place for `w`, which is stacked in the layer of `wtype`, stops at `below`. */
  method StopsAt(wm: WindowManager, root: Window, w: CompWindow, aboveFs: bool, wtype: WindowType,
                 clientLeader: Window, below: CompWindow, ghost c: Scene)
    returns (stops: bool)
    requires Ready(wm, c) && w in wm.Known() && below in wm.Known() && root == c.root
    requires w.id in c.wins && wtype == LayerOrder.StackType(c, w.id) && clientLeader == GroupOf(c, w.id)
    modifies wm`lastFoundWindow
    ensures Ready(wm, c) && below.id in c.wins
    ensures stops == LayerOrder.Stops(c, w.id, aboveFs, below.id)
  {
    hide Ready, LayerOrder.StackType, LayerOrder.StackLayerCheck, LayerOrder.HasAncestorOf, LayerOrder.Avoided;
    WindowShown(wm, c, below);
    Examined(wm, c, below, w, null, NONE, NONE);
    var avoid := AvoidStackingRelativeTo(wm, below, c);
    if below == w || avoid {
      return false;
    }
    if below.props.wtype == Desktop {
      return true;
    }
    match wtype
    case Desktop => stops := false;
    case Fullscreen | Dock =>
      if wtype == Fullscreen && aboveFs {
        return true;
      }
      if below.props.wtype in {Fullscreen, Dock} {
        stops := StackLayerCheck(wm, root, w, clientLeader, below, c);
        stops := stops && below.props.onServer;
      } else {
        stops := true;
      }
    case _ =>
      if aboveFs && below.props.wtype == Fullscreen && !below.props.focusable {
        return false;
      }
      var allowed := AllowedRelativeToLayer(wm, below, aboveFs, c);
      if allowed {
        stops := StackLayerCheck(wm, root, w, clientLeader, below, c);
        stops := stops && below.props.onServer;
      } else {
        stops := false;
      }
  }

  /** The window that `w` is to be put above, null when it goes to the bottom. */
  method FindSiblingBelow(wm: WindowManager, root: Window, w: CompWindow, aboveFs: bool, ghost c: Scene)
    returns (below: CompWindow?)
    requires Ready(wm, c) && w in wm.Known() && root == c.root
    modifies wm`lastFoundWindow
    ensures Ready(wm, c) && w.id in c.wins && (below == null || below in wm.Known())
    ensures LayerOrder.FindSiblingBelow(c, w.id, aboveFs, |c.stack|) == if below == null then None else Some(below.id)
  {
    hide Ready, LayerOrder.StackType, LayerOrder.Stops, LayerOrder.FindSiblingBelow, At, IsGroupTransient;
    WindowShown(wm, c, w);
    var wtype := StackType(wm, w, c);
    var clientLeader := LeaderOf(wm, root, w, c);
    below := Back(wm, c);
    ghost var k: nat := |c.stack|;
    while below != null
      invariant Ready(wm, c) && k <= |c.stack| && At(wm, below, k)
      invariant LayerOrder.FindSiblingBelow(c, w.id, aboveFs, |c.stack|)
             == LayerOrder.FindSiblingBelow(c, w.id, aboveFs, k)
      decreases k
    {
      Down(wm, c, below, k);
      SearchStep(c, w.id, aboveFs, k);
      var stops := StopsAt(wm, root, w, aboveFs, wtype, clientLeader, below, c);
      if stops {
        return;
      }
      below, k := below.serverPrev, k - 1;
    }
    Bottom(wm, k);
    SearchStep(c, w.id, aboveFs, 0);
  }

  lemma SearchStep(c: Scene, w: Window, aboveFs: bool, k: nat)
    requires c.Sound() && w in c.wins && k <= |c.stack|
    ensures LayerOrder.FindSiblingBelow(c, w, aboveFs, k)
         == if k == 0 then None
            else if LayerOrder.Stops(c, w, aboveFs, c.stack[k - 1]) then Some(c.stack[k - 1])
            else LayerOrder.FindSiblingBelow(c, w, aboveFs, k - 1)
  {
    hide LayerOrder.Stops;
  }

  /** Whether `w` may be raised above fullscreen windows. */
  method MayGoAboveFs(wm: WindowManager, w: CompWindow, active: bool, ghost c: Scene) returns (aboveFs: bool)
    requires Ready(wm, c) && w in wm.Known()
    ensures w.id in c.wins && aboveFs == LayerOrder.AboveFs(c, w.id, active)
  {
    hide Ready, LayerOrder.Below;
    WindowShown(wm, c, w);
    Placed(wm, w, c);
    ghost var k := IndexBelow(wm, w, c);
    aboveFs := w.props.wtype == Fullscreen && active;
    var pw := w.serverPrev;
    ghost var first := true;
    while pw != null
      invariant At(wm, pw, k) && (first ==> pw == w.serverPrev)
      invariant first ==> aboveFs == (w.props.wtype == Fullscreen && active)
      invariant !first ==> w.serverPrev != null && active && w.serverPrev.props.wtype == Fullscreen && aboveFs
      decreases k
    {
      Down(wm, c, pw, k);
      WindowShown(wm, c, pw);
      if pw.props.wtype == Fullscreen && active {
        aboveFs := true;
      } else {
        break;
      }
      pw, k, first := pw.serverPrev, k - 1, false;
    }
    NoneListed(c);
  }

  /** The index just above the window below `w`, 0 where there is none. */
  lemma IndexBelow(wm: WindowManager, w: CompWindow, c: Scene) returns (k: nat)
    requires Ready(wm, c) && w in wm.Known()
    ensures At(wm, w.serverPrev, k)
    ensures w.serverPrev != null ==> w.serverPrev in wm.Known() && w.serverPrev.id in c.wins
                                     && c.wins[w.serverPrev.id] == w.serverPrev.props
  {
    hide WindowManager.Indexed;
    if w in wm.serverWindows {
      k :| 0 <= k < |wm.serverWindows| && wm.serverWindows[k] == w;
      assert k > 0 ==> w.serverPrev == wm.serverWindows[k - 1] && c.stack[k - 1] in c.wins;
    } else {
      wm.ListedAlive();
      assert w in wm.alive - Elements(wm.serverWindows);
      k := 0;
    }
  }

  /** The window that `w` is to be put above when it is raised. */
  method FindPlace(wm: WindowManager, root: Window, w: CompWindow, active: bool, ghost c: Scene)
    returns (below: CompWindow?)
    requires Ready(wm, c) && w in wm.Known() && root == c.root
    modifies wm`lastFoundWindow
    ensures Ready(wm, c) && w.id in c.wins && (below == null || below in wm.Known())
    ensures LayerOrder.Place(c, w.id, active) == if below == null then None else Some(below.id)
    ensures old(wm.Valid()) ==> wm.Valid()
  {
    hide Ready, LayerOrder.FindSiblingBelow, LayerOrder.AboveFs;
    hide WindowManager.Listed, WindowManager.Roster, WindowManager.LinksLead, Staged;
    var aboveFs := MayGoAboveFs(wm, w, active, c);
    below := FindSiblingBelow(wm, root, w, aboveFs, c);
    InOrder(wm, c);
  }

  /** A request to raise a window. Whether it is the active one, whether the window below it has itself a
      restack pending, and whether the request was already made, is known to the caller only. Whether or not
      a window gets lost from the list, the records stay in order, and so does the life of the windows. */
  method Raise(wm: WindowManager, root: Window, w: CompWindow, active: bool, matching: bool, restackPending: bool,
               ghost c: Scene)
    requires Ready(wm, c) && NamesApart(wm.Known()) && w in wm.Known() && root == c.root
    modifies wm`lastFoundWindow, wm`serverWindows, wm.alive`serverPrev, wm.alive`serverNext
    ensures w.id in c.wins && Ready(wm, c.(stack := LayerOrder.Raise(c, w.id, active, restackPending && !matching)))
    ensures old(wm.Valid()) ==> wm.Valid()
  {
    hide Ready, NamesApart, LayerOrder.Place, LayerOrder.Raise, Docks.Restacked, Denotes, WindowManager.Valid;
    ghost var known := wm.Known();
    var sibling := FindPlace(wm, root, w, active, c);
    RaiseCases(wm, w, active, sibling, c, restackPending && !matching);
    if sibling == null || sibling.id != w.id {
      if w.serverPrev != null {
        if sibling == null {
          MoveToBottom(wm, w, c);
        } else if sibling.id != w.serverPrev.id || (restackPending && !matching) {
          RootParentDenotes(known, sibling);
          RestackAndConfigureXWindow(wm, root, w, RootParent(sibling), c, sibling.id);
        }
      } else if sibling != null {
        RootParentDenotes(known, sibling);
        RestackAndConfigureXWindow(wm, root, w, RootParent(sibling), c, sibling.id);
      }
    }
  }

  /** The list after a raise, told apart by what the records say. */
  lemma RaiseCases(wm: WindowManager, w: CompWindow, active: bool, sibling: CompWindow?, c: Scene, pending: bool)
    requires Ready(wm, c) && w in wm.Known() && w.id in c.wins && (sibling == null || sibling in wm.Known())
    requires LayerOrder.Place(c, w.id, active) == if sibling == null then None else Some(sibling.id)
    ensures sibling != null ==> sibling.id != w.id
    ensures c.(stack := LayerOrder.Raise(c, w.id, active, pending))
         == if sibling == null then
              if w.serverPrev == null then c else c.(stack := [w.id] + Remove(c.stack, w.id))
            else if w.serverPrev != null && sibling.id == w.serverPrev.id && !pending then c
            else c.(stack := Docks.Restacked(c, w.id, sibling.id))
  {
    hide LayerOrder.FindSiblingBelow, LayerOrder.Stops, Docks.Restacked, Remove, LayerOrder.Below;
    hide LayerOrder.AboveFs;
    WindowShown(wm, c, w);
    if sibling != null {
      WindowShown(wm, c, sibling);
      assert LayerOrder.Stops(c, w.id, LayerOrder.AboveFs(c, w.id, active), sibling.id);
    }
    Placed(wm, w, c);
    NotItself(c, w.id, LayerOrder.AboveFs(c, w.id, active));
    NoneListed(c);
  }

  lemma NotItself(c: Scene, w: Window, aboveFs: bool)
    requires c.Sound() && w in c.wins
    ensures !LayerOrder.Stops(c, w, aboveFs, w)
  {
  }

  lemma Placed(wm: WindowManager, w: CompWindow, c: Scene)
    requires Ready(wm, c) && w in wm.Known() && w.id in c.wins
    ensures LayerOrder.Below(c.stack, w.id) == if w.serverPrev == null then NONE else w.serverPrev.id
    ensures w.serverPrev != null ==> w.serverPrev.id != NONE
  {
    hide WindowManager.Indexed;
    if w.id in c.stack {
      var at := IndexOf(c.stack, w.id);
      assert wm.serverWindows[at] == w;
      assert at > 0 ==> w.serverPrev == wm.serverWindows[at - 1] && c.stack[at - 1] in c.wins;
    } else {
      wm.ListedAlive();
      assert w in wm.alive - Elements(wm.serverWindows);
    }
  }

  /** A window goes to the bottom of the list. */
  method MoveToBottom(wm: WindowManager, w: CompWindow, ghost c: Scene)
    requires Ready(wm, c) && NamesApart(wm.Known()) && w in wm.Known()
    modifies wm`serverWindows, wm.alive`serverPrev, wm.alive`serverNext
    ensures w.id in c.wins && Ready(wm, c.(stack := [w.id] + Remove(c.stack, w.id)))
    ensures old(wm.Valid()) ==> wm.Valid()
  {
    hide Ready, NamesApart, Spells, Attributes, WindowManager.Linked, WindowManager.ServerLinked;
    hide WindowManager.Indexed, WindowManager.Roster, WindowManager.LinksLead, Staged, Scene.Sound, Remove;
    WindowShown(wm, c, w);
    RecordsShown(wm, c);
    ReadySpells(wm, c);
    ghost var valid := wm.Valid();
    if valid {
      wm.Apart();
    }
    PutAtBottom(wm, w, c.stack);
    RestackGroups.AlreadyStacked(c);
    RestackGroups.BottomStacked(c.wins, c.stack, w.id);
    RestackGroups.StackedSound(c, [w.id] + Remove(c.stack, w.id));
    ReadyAgain(wm, c, [w.id] + Remove(c.stack, w.id));
  }

  method PutAtBottom(wm: WindowManager, w: CompWindow, ghost stack: seq<Window>)
    requires Spells(wm, stack) && NamesApart(wm.Known()) && w in wm.Known()
    modifies wm`serverWindows, wm.alive`serverPrev, wm.alive`serverNext
    ensures Spells(wm, [w.id] + Remove(stack, w.id))
  {
    hide WindowManager.ServerLinked, Tagged, NamesApart, Remove;
    TakeOut(wm, w, stack);
    BottomTagged(wm.Known(), wm.serverWindows, Remove(stack, w.id), w);
    wm.InsertServerWindow(w, NONE);
  }

  lemma BottomTagged(known: set<CompWindow>, list: seq<CompWindow>, ids: seq<Window>, w: CompWindow)
    requires Tagged(known, list, ids) && w in known
    ensures InsertionPoint(list, true, NONE) == 0 && Tagged(known, InsertAt(list, 0, w), [w.id] + ids)
  {
  }

  /** A scene in which one window has become transient for another. */
  ghost function Linked(c: Scene, w: Window, target: Window): Scene
    requires w in c.wins
  {
    c.(wins := c.wins[w := c.wins[w].(transientFor := target)])
  }

  lemma LinkedValid(c: Scene, w: Window, target: Window)
    requires c.Sound() && w in c.wins && Acyclic(c.Links()[w := target])
    ensures Linked(c, w, target).Sound() && Linked(c, w, target).Links() == c.Links()[w := target]
  {
    assert Linked(c, w, target).Links() == c.Links()[w := target];
  }

  method SetTransientFor(wm: WindowManager, w: CompWindow, target: Window, ghost c: Scene)
    requires Ready(wm, c) && w in wm.Known() && w.id in c.wins && Acyclic(c.Links()[w.id := target])
    modifies w`props
    ensures Ready(wm, Linked(c, w.id, target))
  {
    hide WindowManager.Listed, Scene.Sound, Acyclic, Scene.Links;
    assert c.wins[w.id] == w.props;
    LinkedValid(c, w.id, target);
    w.props := w.props.(transientFor := target);
  }

  lemma ValidLinks(c: Scene)
    requires c.Sound()
    ensures Acyclic(c.Links()) && c.Links().Keys == c.wins.Keys
  {
  }

  /** Whether a window can become transient for the window with this id: one that is listed, is not the
      window itself and does not lead back to it. */
  method MayFollow(wm: WindowManager, w: CompWindow, target: Window, ghost c: Scene) returns (may: bool)
    requires Ready(wm, c) && w in wm.Known()
    modifies wm`lastFoundWindow
    ensures Ready(wm, c) && w.id in c.wins && Acyclic(c.Links())
    ensures may == (target in c.Links() && target != w.id && !TransientForest.IsAncestorTo(c.Links(), target, w.id))
  {
    hide Ready, Acyclic, TransientForest.IsAncestorTo;
    WindowShown(wm, c, w);
    ValidLinks(c);
    var ancestor := Lookup(wm, c, target);
    if ancestor == null {
      return false;
    }
    if target == w.id {
      return false;
    }
    may := Restacking.IsAncestorTo(wm, ancestor, w, c);
    may := !may;
  }

  /** The link of a window after its hint has been read, where it has none to begin with. */
  ghost function HintTarget(l: Links, w: Window, hint: Option<Window>): Window
    requires Acyclic(l)
  {
    if hint.Some? && hint.value in l && hint.value != w && !TransientForest.IsAncestorTo(l, hint.value, w) then hint.value
    else NONE
  }

  lemma TargetTaken(l: Links, w: Window, hint: Option<Window>)
    requires Acyclic(l) && w in l
    ensures Acyclic(l[w := NONE])
    ensures var target := HintTarget(l[w := NONE], w, hint);
            Acyclic(l[w := target]) && TransientForest.UpdateTransientHint(l, w, hint) == l[w := target]
  {
    hide Acyclic, TransientForest.IsAncestorTo;
    ClearedAcyclic(l, w);
    var cleared := l[w := NONE];
    var target := HintTarget(cleared, w, hint);
    if target != NONE {
      LinkedAcyclic(cleared, w, target);
      assert cleared[w := target] == l[w := target];
    }
  }

  lemma HintRead(c: Scene, w: Window, hint: Option<Window>)
    requires c.Sound() && w in c.wins
    ensures Acyclic(c.Links()) && Acyclic(c.Links()[w := NONE]) && w in c.Links()
    ensures var cleared := Linked(c, w, NONE);
            && w in cleared.wins && cleared.Sound() && cleared.Links() == c.Links()[w := NONE]
            && var target := HintTarget(cleared.Links(), w, hint);
               && Acyclic(cleared.Links()[w := target])
               && Linked(cleared, w, target) == Linked(c, w, target)
               && TransientForest.UpdateTransientHint(c.Links(), w, hint)[w] == target
  {
    hide Acyclic, HintTarget, Scene.Links, Scene.Sound, TransientForest.UpdateTransientHint, Linked;
    ValidLinks(c);
    var l := c.Links();
    TargetTaken(l, w, hint);
    LinkedValid(c, w, NONE);
    var cleared: Links := l[w := NONE];
    var target := HintTarget(cleared, w, hint);
    LinkedTwice(c, w, target);
    assert cleared[w := target] == l[w := target];
  }

  lemma LinkedTwice(c: Scene, w: Window, target: Window)
    requires w in c.wins
    ensures w in Linked(c, w, NONE).wins && Linked(Linked(c, w, NONE), w, target) == Linked(c, w, target)
  {
    var p, q := c.wins[w].(transientFor := NONE), c.wins[w].(transientFor := target);
    LastHint(c.wins[w], target);
    TwiceUpdated(c.wins, w, p, q);
  }

  lemma LastHint(p: Props, target: Window)
    ensures p.(transientFor := NONE).(transientFor := target) == p.(transientFor := target)
  {
  }

  lemma TwiceUpdated(m: Wins, w: Window, p: Props, q: Props)
    ensures m[w := p][w := q] == m[w := q]
  {
  }

  /** What a window is transient for after its hint has been read. */
  method UpdateTransientHint(wm: WindowManager, w: CompWindow, hint: Option<Window>, ghost c: Scene)
    requires Ready(wm, c) && w in wm.Known()
    modifies wm`lastFoundWindow, w`props
    ensures w.id in c.wins && Acyclic(c.Links())
    ensures Ready(wm, Linked(c, w.id, TransientForest.UpdateTransientHint(c.Links(), w.id, hint)[w.id]))
    ensures old(wm.Valid()) ==> wm.Valid()
  {
    hide Ready, Scene.Sound, Acyclic, TransientForest.IsAncestorTo, TransientForest.UpdateTransientHint, Scene.Links;
    hide WindowManager.Listed, WindowManager.Roster, WindowManager.LinksLead, Staged;
    WindowShown(wm, c, w);
    ghost var id := w.id;
    HintRead(c, id, hint);
    ghost var after := Linked(c, id, TransientForest.UpdateTransientHint(c.Links(), id, hint)[id]);
    SetTransientFor(wm, w, NONE, c);
    ghost var cleared := Linked(c, id, NONE);
    if hint.Some? {
      var may := MayFollow(wm, w, hint.value, cleared);
      if may {
        SetTransientFor(wm, w, hint.value, cleared);
      }
    }
    InOrder(wm, after);
  }

  lemma InOrder(wm: WindowManager, c: Scene)
    requires Ready(wm, c)
    ensures wm.Listed()
  {
    hide WindowManager.Listed;
  }
}
