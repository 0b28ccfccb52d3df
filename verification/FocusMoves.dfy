/** The input focus handed on from window to window, carried out on the window records. */
module FocusMoves {
  import opened Values
  import opened Windows
  import opened WindowLists
  import opened Stacking
  import opened Restacking
  import opened ModalTransients
  import opened ModalSearch
  import opened InputFocus

  /** What is asked of the server for a window: where the focus is set (or NONE), whether the client is asked to
      take it, and which window is expected to become active (or NONE). */
  datatype Offer = Offer(input: Window, asked: bool, nextActive: Window)

  const NO_OFFER := Offer(NONE, false, NONE)

  /** A shaded window gets the focus at its frame; any other as its input hint and protocols say. */
  function OfferTo(id: Window, p: Props): Offer {
    if p.shaded then Offer(p.serverFrame, false, p.serverFrame)
    else if !Takes(p) then NO_OFFER
    else Offer(if p.inputHint then id else NONE, p.takeFocus, id)
  }

  /** The focus that is offered to `w` comes within `n` steps to rest at `r`. */
  ghost predicate RestsAt(c: Scene, order: seq<Window>, w: Window, r: Window, n: nat)
    requires Ordered(c, order) && w in c.wins
  {
    r in c.wins && Next(c, order, r) == None && exists k: nat :: k <= n && Handed(c, order, w, k) == Some(r)
  }

  /** A walk up the list that has come to index `k`. */
  ghost predicate WalksUp(wm: WindowManager, w: CompWindow?, k: nat)
    reads wm`windows
  {
    k <= |wm.windows| && if k == |wm.windows| then w == null else w == wm.windows[k]
  }

  method Front(wm: WindowManager, ghost c: Scene, ghost order: seq<Window>) returns (w: CompWindow?)
    requires Shown(wm, c, order)
    ensures WalksUp(wm, w, 0)
  {
    hide Ready;
    w := if wm.windows == [] then null else wm.windows[0];
  }

  lemma Up(wm: WindowManager, c: Scene, order: seq<Window>, w: CompWindow, k: nat)
    requires Shown(wm, c, order) && WalksUp(wm, w, k)
    ensures k < |order| && w in wm.Known() && w.id == order[k] && w.id in c.wins && WalksUp(wm, w.next, k + 1)
  {
    hide WindowManager.ServerLinked, WindowManager.Indexed;
    assert k < |wm.windows|;
    assert wm.windows[k] == w;
  }

  lemma UpEnded(wm: WindowManager, c: Scene, order: seq<Window>, k: nat)
    requires Shown(wm, c, order) && WalksUp(wm, null, k)
    ensures k == |order|
  {
    hide Ready;
  }

  /** The walk that has come to index `k` finds the ancestor that the whole walk finds. */
  ghost predicate Looking(c: Scene, order: seq<Window>, w: Window, k: nat) {
    Ordered(c, order) && w in c.wins && k <= |order|
    && LowestAncestor(c, order, w, 0) == LowestAncestor(c, order, w, k)
  }

  method FindAncestor(wm: WindowManager, w: CompWindow, ghost c: Scene, ghost order: seq<Window>)
    returns (ancestor: CompWindow?)
    requires Shown(wm, c, order) && w in wm.Known()
    modifies wm`lastFoundWindow
    ensures Shown(wm, c, order) && Ordered(c, order) && w.id in c.wins
    ensures ancestor != null ==> ancestor in wm.Known()
    ensures LowestAncestor(c, order, w.id, 0) == if ancestor == null then None else Some(ancestor.id)
  {
    hide Shown, Ordered, LowestAncestor, WalksUp, Looking;
    LookStart(wm, c, order, w);
    ancestor := Front(wm, c, order);
    ghost var k: nat := 0;
    while ancestor != null
      invariant Shown(wm, c, order) && WalksUp(wm, ancestor, k) && Looking(c, order, w.id, k)
      decreases |order| - k
    {
      Up(wm, c, order, ancestor, k);
      LookStep(c, order, w.id, k);
      var found := IsAncestor(wm, w, ancestor, c, order);
      if found {
        return;
      }
      ancestor, k := ancestor.next, k + 1;
    }
    LookEnd(wm, c, order, w.id, k);
  }

  lemma LookStart(wm: WindowManager, c: Scene, order: seq<Window>, w: CompWindow)
    requires Shown(wm, c, order) && w in wm.Known()
    ensures Looking(c, order, w.id, 0)
  {
    hide Shown, Ordered, LowestAncestor;
    Same(wm, c, order, w, w);
  }

  lemma LookStep(c: Scene, order: seq<Window>, w: Window, k: nat)
    requires Looking(c, order, w, k) && k < |order|
    ensures Ordered(c, order) && w in c.wins
    ensures if TransientForest.IsAncestorTo(c.Links(), w, order[k])
            then LowestAncestor(c, order, w, 0) == Some(order[k])
            else Looking(c, order, w, k + 1)
  {
    hide TransientForest.IsAncestorTo;
  }

  lemma LookEnd(wm: WindowManager, c: Scene, order: seq<Window>, w: Window, k: nat)
    requires Shown(wm, c, order) && WalksUp(wm, null, k) && Looking(c, order, w, k)
    ensures Ordered(c, order) && w in c.wins && LowestAncestor(c, order, w, 0) == None
  {
    hide Shown, Ordered;
    UpEnded(wm, c, order, k);
  }

  lemma RestsHere(c: Scene, order: seq<Window>, w: Window, n: nat)
    requires Ordered(c, order) && w in c.wins && Next(c, order, w) == None
    ensures RestsAt(c, order, w, w, n)
  {
    assert Handed(c, order, w, 0) == Some(w);
  }

  lemma RestsFurther(c: Scene, order: seq<Window>, w: Window, x: Window, r: Window, n: nat)
    requires Ordered(c, order) && w in c.wins && x in c.wins && Next(c, order, w) == Some(x)
    requires RestsAt(c, order, x, r, n)
    ensures RestsAt(c, order, w, r, n + 1)
  {
    hide Next;
    var k: nat :| k <= n && Handed(c, order, x, k) == Some(r);
    assert Handed(c, order, w, k + 1) == Some(r);
  }

  /** The window to hand the focus on to, null where it stays. */
  method HandOn(wm: WindowManager, root: Window, w: CompWindow, ghost c: Scene, ghost order: seq<Window>)
    returns (next: CompWindow?)
    requires Shown(wm, c, order) && w in wm.Known() && root == c.root
    modifies wm`lastFoundWindow
    ensures Shown(wm, c, order) && Ordered(c, order) && w.id in c.wins
    ensures next != null ==> next in wm.Known() && next.id in c.wins
    ensures Next(c, order, w.id) == if next == null then None else Some(next.id)
  {
    hide Shown, Ordered, ModalTransient, LowestAncestor;
    Same(wm, c, order, w, w);
    next := GetModalTransient(wm, root, w, c, order);
    if next == null {
      var setFocus := w.props.shaded || w.props.inputHint || w.props.takeFocus;
      if !setFocus {
        next := FindAncestor(wm, w, c, order);
      }
    }
    if next != null {
      Same(wm, c, order, next, next);
    }
  }

  /** Hands the focus on until it comes to rest: where it does, and what it asks of the server there. It ends
      if and only if some number of steps is enough. */
  method MoveInputFocusTo(wm: WindowManager, root: Window, w: CompWindow, ghost c: Scene, ghost order: seq<Window>,
                          ghost n: nat)
    returns (r: CompWindow, offer: Offer)
    requires Shown(wm, c, order) && w in wm.Known() && root == c.root
    requires Ordered(c, order) && w.id in c.wins && EndsWithin(c, order, w.id, n)
    modifies wm`lastFoundWindow
    ensures Shown(wm, c, order) && r in wm.Known() && Ordered(c, order) && RestsAt(c, order, w.id, r.id, n)
    ensures offer == OfferTo(r.id, r.props)
    decreases n
  {
    hide Shown, Ordered, Next, RestsAt;
    var next := HandOn(wm, root, w, c, order);
    if next == null {
      RestsHere(c, order, w.id, n);
      r := w;
      if w.props.shaded {
        offer := Offer(w.props.serverFrame, false, w.props.serverFrame);
      } else {
        var setFocus := w.props.inputHint || w.props.takeFocus;
        offer := Offer(if w.props.inputHint then w.id else NONE, w.props.takeFocus, if setFocus then w.id else NONE);
      }
    } else {
      r, offer := MoveInputFocusTo(wm, root, next, c, order, n - 1);
      RestsFurther(c, order, w.id, next.id, r.id, n - 1);
    }
  }
}
