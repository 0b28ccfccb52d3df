/** The search for the modal dialog of a window, carried out on the window records. */
module ModalSearch {
  import TransientForest
  import opened Values
  import opened Windows
  import opened WindowLists
  import opened Stacking
  import opened Restacking
  import opened ModalTransients

  /** The records show a scene, and their list is in this order. */
  ghost predicate Shown(wm: WindowManager, c: Scene, order: seq<Window>)
    reads wm`windows, wm`serverWindows, wm`windowsMap, wm`lastFoundWindow, wm`alive
    reads wm.alive`prev, wm.alive`next, wm.alive`serverPrev, wm.alive`serverNext, wm.alive`id
    reads wm.Known()`id, wm.Known()`props
  {
    Ready(wm, c) && Ordered(c, order) && Tagged(wm.Known(), wm.windows, order)
  }

  /** A walk down the list that has come to the window below index `k`. */
  ghost predicate Walks(wm: WindowManager, w: CompWindow?, k: nat)
    reads wm`windows
  {
    k <= |wm.windows| && if k == 0 then w == null else w == wm.windows[k - 1]
  }

  method Back(wm: WindowManager, ghost c: Scene, ghost order: seq<Window>) returns (w: CompWindow?)
    requires Shown(wm, c, order)
    ensures Walks(wm, w, |order|)
  {
    hide Ready;
    w := if wm.windows == [] then null else wm.windows[|wm.windows| - 1];
  }

  lemma Down(wm: WindowManager, c: Scene, order: seq<Window>, w: CompWindow, k: nat)
    requires Shown(wm, c, order) && Walks(wm, w, k) && k <= |order|
    ensures k > 0 && w in wm.Known() && w.id == order[k - 1] && w.id in c.wins && c.wins[w.id] == w.props
    ensures Walks(wm, w.prev, k - 1)
  {
    hide WindowManager.ServerLinked, WindowManager.Indexed;
    assert wm.windows[k - 1] == w;
  }

  lemma Ended(wm: WindowManager, k: nat)
    requires Walks(wm, null, k)
    ensures k == 0
  {
  }

  lemma Same(wm: WindowManager, c: Scene, order: seq<Window>, t: CompWindow, w: CompWindow)
    requires Shown(wm, c, order) && t in wm.Known() && w in wm.Known()
    ensures t == w <==> t.id == w.id
    ensures c.Sound() && Ordered(c, order) && w.id in c.wins && c.wins[w.id] == w.props && Ready(wm, c)
  {
    hide WindowManager.Listed;
  }

  /** The end of the chain of modal transients of `window`. After a step the walk goes on from the topmost
      window, and so with the one below it. */
  method ClimbModal(wm: WindowManager, window: CompWindow, ghost c: Scene, ghost order: seq<Window>)
    returns (modalTransient: CompWindow)
    requires Shown(wm, c, order) && window in wm.Known()
    ensures modalTransient in wm.Known() && Ordered(c, order) && window.id in c.wins
    ensures modalTransient.id == Search(c, order, window.id, |order|)
  {
    hide Shown, Walks, Ordered, Search, LevelsAbove, ModalChild, Climbing;
    ClimbStart(wm, c, order, window);
    modalTransient := window;
    var w := Back(wm, c, order);
    ghost var k: nat := |order|;
    while w != null
      invariant modalTransient in wm.Known() && Walks(wm, w, k)
      invariant Climbing(c, order, window.id, modalTransient.id, k)
      decreases if Ordered(c, order) then LevelsAbove(c, order, modalTransient.id) else 0, k
    {
      ClimbStep(wm, c, order, window.id, w, modalTransient, k);
      var child := IsModalChild(wm, w, modalTransient, c, order);
      if child {
        modalTransient := w;
        w := Back(wm, c, order);
        k := |order|;
        BackStep(wm, c, order, w);
      }
      w, k := w.prev, k - 1;
    }
    ClimbEnd(wm, c, order, window.id, modalTransient.id, k);
  }

  /** The walk that has come to the window below index `k` leads where the whole walk leads. */
  ghost predicate Climbing(c: Scene, order: seq<Window>, window: Window, m: Window, k: nat) {
    Ordered(c, order) && window in c.wins && m in c.wins && k <= |order|
    && Search(c, order, window, |order|) == Search(c, order, m, k)
  }

  lemma ClimbStart(wm: WindowManager, c: Scene, order: seq<Window>, window: CompWindow)
    requires Shown(wm, c, order) && window in wm.Known()
    ensures Climbing(c, order, window.id, window.id, |order|)
  {
    hide Shown, Ordered, Search;
    Same(wm, c, order, window, window);
  }

  lemma ClimbEnd(wm: WindowManager, c: Scene, order: seq<Window>, window: Window, m: Window, k: nat)
    requires Climbing(c, order, window, m, k) && Walks(wm, null, k)
    ensures Ordered(c, order) && window in c.wins && m == Search(c, order, window, |order|)
  {
    hide Ordered, Search;
    Ended(wm, k);
    SearchNone(c, order, m);
  }

  method IsModalChild(wm: WindowManager, w: CompWindow, modalTransient: CompWindow, ghost c: Scene,
                      ghost order: seq<Window>)
    returns (child: bool)
    requires Shown(wm, c, order) && w in wm.Known() && modalTransient in wm.Known()
    ensures w.id in c.wins && child == ModalChild(c, w.id, modalTransient.id)
  {
    hide Shown, Ordered;
    Same(wm, c, order, w, modalTransient);
    Same(wm, c, order, w, w);
    if w == modalTransient || w.props.mapNum == 0 {
      return false;
    }
    return w.props.transientFor == modalTransient.id && w.props.modal;
  }

  lemma ClimbStep(wm: WindowManager, c: Scene, order: seq<Window>, window: Window, w: CompWindow, m: CompWindow, k: nat)
    requires Shown(wm, c, order) && Walks(wm, w, k) && m in wm.Known() && Climbing(c, order, window, m.id, k)
    ensures Ordered(c, order) && k > 0 && w in wm.Known() && w.id in c.wins && Walks(wm, w.prev, k - 1)
    ensures c.Sound() && |order| > 0
    ensures if ModalChild(c, w.id, m.id)
            then Climbing(c, order, window, w.id, |order| - 1)
                 && LevelsAbove(c, order, w.id) < LevelsAbove(c, order, m.id)
            else Climbing(c, order, window, m.id, k - 1)
  {
    hide Shown, Walks, Ordered, Search, LevelsAbove, ModalChild;
    Down(wm, c, order, w, k);
    Same(wm, c, order, w, m);
    SearchStep(c, order, m.id, k);
  }

  lemma BackStep(wm: WindowManager, c: Scene, order: seq<Window>, w: CompWindow?)
    requires Shown(wm, c, order) && Walks(wm, w, |order|)
    ensures w != null && |order| > 0 && Walks(wm, w.prev, |order| - 1)
  {
    hide Shown, Walks;
    OneAtLeast(wm, c, order, w);
    Down(wm, c, order, w, |order|);
  }

  lemma OneAtLeast(wm: WindowManager, c: Scene, order: seq<Window>, w: CompWindow?)
    requires Shown(wm, c, order) && Walks(wm, w, |order|)
    ensures w != null
  {
    hide Ready;
  }

  /** The modal dialog of a window, null when there is none. */
  method GetModalTransient(wm: WindowManager, root: Window, window: CompWindow, ghost c: Scene,
                          ghost order: seq<Window>)
    returns (modalTransient: CompWindow?)
    requires Shown(wm, c, order) && window in wm.Known() && root == c.root
    modifies wm`lastFoundWindow
    ensures Shown(wm, c, order) && Ordered(c, order) && window.id in c.wins
    ensures modalTransient != null ==> modalTransient in wm.Known()
    ensures ModalTransient(c, order, window.id) == if modalTransient == null then None else Some(modalTransient.id)
    decreases if window.props.modal then 0 else 1
  {
    hide Shown, Ordered, Search, GroupModal;
    Same(wm, c, order, window, window);
    modalTransient := ClimbModal(wm, window, c, order);
    Same(wm, c, order, modalTransient, window);
    if modalTransient == window {
      if window.props.modal {
        return null;
      }
      modalTransient := SearchGroup(wm, root, window, c, order);
    }
  }

  method SearchGroup(wm: WindowManager, root: Window, window: CompWindow, ghost c: Scene, ghost order: seq<Window>)
    returns (modalTransient: CompWindow?)
    requires Shown(wm, c, order) && window in wm.Known() && root == c.root && !window.props.modal
    modifies wm`lastFoundWindow
    ensures Shown(wm, c, order) && Ordered(c, order) && window.id in c.wins && !c.wins[window.id].modal
    ensures modalTransient != null ==> modalTransient in wm.Known()
    ensures GroupModal(c, order, window.id, |order|) == if modalTransient == null then None else Some(modalTransient.id)
    decreases if window.props.modal then 0 else 1, 0
  {
    hide Shown, Walks, Ordered, ModalTransient, GroupModal, GroupModalChild, Seeking;
    SeekStart(wm, c, order, window);
    var w := Back(wm, c, order);
    ghost var k: nat := |order|;
    while w != null
      invariant Shown(wm, c, order) && Walks(wm, w, k) && Seeking(c, order, window.id, k)
      decreases k
    {
      SeekStep(wm, c, order, w, window, k);
      var child := IsGroupModalChild(wm, root, w, window, c, order);
      if child {
        modalTransient := w;
        w := GetModalTransient(wm, root, w, c, order);
        if w != null {
          modalTransient := w;
        }
        return;
      }
      w, k := w.prev, k - 1;
    }
    SeekEnd(wm, c, order, window.id, k);
    return null;
  }

  /** The walk that has come to the window below index `k` finds what the whole walk finds. */
  ghost predicate Seeking(c: Scene, order: seq<Window>, window: Window, k: nat) {
    Ordered(c, order) && window in c.wins && !c.wins[window].modal && k <= |order|
    && GroupModal(c, order, window, |order|) == GroupModal(c, order, window, k)
  }

  lemma SeekStart(wm: WindowManager, c: Scene, order: seq<Window>, window: CompWindow)
    requires Shown(wm, c, order) && window in wm.Known() && !window.props.modal
    ensures Seeking(c, order, window.id, |order|)
  {
    hide Shown, Ordered, GroupModal;
    Same(wm, c, order, window, window);
  }

  lemma SeekEnd(wm: WindowManager, c: Scene, order: seq<Window>, window: Window, k: nat)
    requires Seeking(c, order, window, k) && Walks(wm, null, k)
    ensures Ordered(c, order) && window in c.wins && !c.wins[window].modal && GroupModal(c, order, window, |order|) == None
  {
    hide Ordered, GroupModal;
    Ended(wm, k);
    GroupNone(c, order, window);
  }

  method IsGroupModalChild(wm: WindowManager, root: Window, w: CompWindow, window: CompWindow, ghost c: Scene,
                          ghost order: seq<Window>)
    returns (child: bool)
    requires Shown(wm, c, order) && w in wm.Known() && window in wm.Known() && root == c.root
    modifies wm`lastFoundWindow
    ensures Shown(wm, c, order) && c.Sound() && w.id in c.wins && window.id in c.wins
    ensures child == GroupModalChild(c, w.id, window.id) && (child ==> w.props.modal)
  {
    hide Shown, Ordered, TransientForest.IsAncestorTo, IsGroupTransient;
    Same(wm, c, order, w, window);
    Same(wm, c, order, w, w);
    if w == window || w.props.mapNum == 0 {
      return false;
    }
    var above := IsAncestor(wm, window, w, c, order);
    return !above && IsGroupTransient(w.props, window.props.clientLeader, root) && w.props.modal;
  }

  lemma SeekStep(wm: WindowManager, c: Scene, order: seq<Window>, w: CompWindow, window: CompWindow, k: nat)
    requires Shown(wm, c, order) && Walks(wm, w, k) && window in wm.Known() && Seeking(c, order, window.id, k)
    ensures k > 0 && w in wm.Known() && w.id in c.wins && window.id in c.wins && Walks(wm, w.prev, k - 1)
    ensures c.Sound() && Ordered(c, order) && !c.wins[window.id].modal && !window.props.modal
    ensures if !GroupModalChild(c, w.id, window.id) then Seeking(c, order, window.id, k - 1)
            else GroupModal(c, order, window.id, |order|)
                 == if ModalTransient(c, order, w.id).None? then Some(w.id) else ModalTransient(c, order, w.id)
  {
    hide Shown, Walks, Ordered, GroupModal, GroupModalChild, ModalTransient;
    Down(wm, c, order, w, k);
    Same(wm, c, order, w, window);
    GroupStep(c, order, window.id, k);
  }

  method IsAncestor(wm: WindowManager, transient: CompWindow, ancestor: CompWindow, ghost c: Scene,
                    ghost order: seq<Window>)
    returns (found: bool)
    requires Shown(wm, c, order) && transient in wm.Known() && ancestor in wm.Known()
    modifies wm`lastFoundWindow
    ensures Shown(wm, c, order) && c.Sound() && transient.id in c.wins
    ensures found == TransientForest.IsAncestorTo(c.Links(), transient.id, ancestor.id)
  {
    hide Ready, TransientForest.IsAncestorTo, Ordered;
    Same(wm, c, order, transient, transient);
    found := Restacking.IsAncestorTo(wm, transient, ancestor, c);
  }

  lemma GroupStep(c: Scene, order: seq<Window>, w: Window, k: nat)
    requires Ordered(c, order) && w in c.wins && !c.wins[w].modal && 0 < k <= |order|
    ensures GroupModal(c, order, w, k)
         == if !GroupModalChild(c, order[k - 1], w) then GroupModal(c, order, w, k - 1)
            else if ModalTransient(c, order, order[k - 1]).None? then Some(order[k - 1])
            else ModalTransient(c, order, order[k - 1])
  {
    hide ModalTransient, GroupModalChild;
  }

  lemma GroupNone(c: Scene, order: seq<Window>, w: Window)
    requires Ordered(c, order) && w in c.wins && !c.wins[w].modal
    ensures GroupModal(c, order, w, 0) == None
  {
  }
}
