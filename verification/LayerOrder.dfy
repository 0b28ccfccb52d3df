/** Where a raised window goes, and the order of layers that the stack debugger checks. */
module LayerOrder {
  import opened Sequences
  import opened TransientForest
  import opened Values
  import opened Windows
  import opened Stacking
  import opened Docks

  /** Whether a walk through the stack passes over a window. */
  predicate Avoided(p: Props) {
    || p.overrideRedirect
    || (!(p.awaitingMap || p.shaded || p.pendingMaps != 0) && (!p.viewable || p.mapNum == 0))
  }

  /** The layer in which a window is stacked: its own, or that of a dock it is transient for. */
  function StackType(c: Scene, w: Window): WindowType
    requires c.Sound() && w in c.wins
  {
    var p := c.wins[w];
    var own := if p.wtype == Fullscreen && p.below then Normal else p.wtype;
    if HasAncestorOf(c, w, {Dock}) then Dock else own
  }

  /** The climb through the ancestors of a window in search of one of the given types. */
  predicate HasAncestorOf(c: Scene, w: Window, types: set<WindowType>)
    requires c.Sound() && w in c.wins
    decreases RankOf(c.Links())(w)
  {
    var up := c.wins[w].transientFor;
    assert up in c.wins ==> c.Links()[w] == up;
    up in c.wins && (c.wins[up].wtype in types || HasAncestorOf(c, up, types))
  }

  predicate StackLayerCheck(c: Scene, w: Window, clientLeader: Window, below: Window)
    requires c.Sound() && w in c.wins && below in c.wins
  {
    if IsAncestorTo(c.Links(), w, below) then true
    else if IsAncestorTo(c.Links(), below, w) then false
    else if clientLeader != NONE && IsGroupTransient(c.wins[below], clientLeader, c.root) then false
    else if c.wins[w].above then true
    else if c.wins[w].below then c.wins[below].below
    else !c.wins[below].above
  }

  /** The types that no other window is stacked above: a request may put windows above fullscreen ones. */
  function Barred(aboveFs: bool): set<WindowType> {
    if aboveFs then {Dock} else {Dock, Fullscreen}
  }

  /** Whether the search for a place for `w` stops at `below`. */
  predicate Stops(c: Scene, w: Window, aboveFs: bool, below: Window)
    requires c.Sound() && w in c.wins && below in c.wins
  {
    var b := c.wins[below];
    var wtype := StackType(c, w);
    if below == w || Avoided(b) then false
    else if b.wtype == Desktop then true
    else if wtype == Desktop then false
    else if wtype == Fullscreen && aboveFs then true
    else if wtype in {Fullscreen, Dock} then
      b.wtype in {Fullscreen, Dock} ==> StackLayerCheck(c, w, GroupOf(c, w), below) && b.onServer
    else
      && !(aboveFs && b.wtype == Fullscreen && !b.focusable)
      && b.wtype !in Barred(aboveFs) && !HasAncestorOf(c, below, Barred(aboveFs))
      && StackLayerCheck(c, w, GroupOf(c, w), below) && b.onServer
  }

  /** The window that `w` is to be put above: the topmost at which the search stops. */
  function FindSiblingBelow(c: Scene, w: Window, aboveFs: bool, k: nat): (r: Option<Window>)
    requires c.Sound() && w in c.wins && k <= |c.stack|
    ensures r.Some? ==> exists i :: 0 <= i < k && c.stack[i] == r.value && Stops(c, w, aboveFs, r.value)
                                    && forall j :: i < j < k ==> !Stops(c, w, aboveFs, c.stack[j])
    ensures r.None? ==> forall j :: 0 <= j < k ==> !Stops(c, w, aboveFs, c.stack[j])
  {
    if k == 0 then None
    else if Stops(c, w, aboveFs, c.stack[k - 1]) then Some(c.stack[k - 1])
    else FindSiblingBelow(c, w, aboveFs, k - 1)
  }

  /** The window just below `w` in a stack, NONE where there is none. */
  function Below(stack: seq<Window>, w: Window): Window {
    if w in stack && IndexOf(stack, w) > 0 then stack[IndexOf(stack, w) - 1] else NONE
  }

  /** Whether a window that is raised may go above fullscreen ones: the active window, when it is a fullscreen
      window itself or stands just above one. */
  predicate AboveFs(c: Scene, w: Window, active: bool)
    requires c.Sound() && w in c.wins
  {
    var below := Below(c.stack, w);
    active && (c.wins[w].wtype == Fullscreen || (below in c.wins && c.wins[below].wtype == Fullscreen))
  }

  /** The window that a raised window is put above, where there is one. */
  function Place(c: Scene, w: Window, active: bool): Option<Window>
    requires c.Sound() && w in c.wins
  {
    FindSiblingBelow(c, w, AboveFs(c, w, active), |c.stack|)
  }

  /** The stack after a request to raise `w`, which is a request to put it above the window found, or
      at the bottom. Where it already stands there nothing is done, unless the window below it has
      itself a restack pending. */
  function Raise(c: Scene, w: Window, active: bool, pending: bool): seq<Window>
    requires c.Sound() && w in c.wins
  {
    match Place(c, w, active)
    case None => if Below(c.stack, w) == NONE then c.stack else [w] + Remove(c.stack, w)
    case Some(sibling) =>
      if Below(c.stack, w) == sibling && !pending then c.stack
      else Restacked(c, w, sibling)
  }

  /** The type of a window, from the type its hints give it and its state. A dock that is to be kept below
      is no dock. */
  function RecalcType(wmType: WindowType, overrideRedirect: bool, fullscreen: bool, transient: bool, below: bool,
                      modal: bool)
    : (t: WindowType)
    ensures t == Fullscreen <==> fullscreen || wmType == Fullscreen
    ensures t == Dock <==> wmType == Dock && !fullscreen && !below
    ensures t == Unknown <==> wmType == Unknown && overrideRedirect && !fullscreen
    ensures t in {Desktop, Toolbar, Menu, Splash, Util} || wmType in {Desktop, Toolbar, Menu, Splash, Util} ==>
              t == if fullscreen then Fullscreen else wmType
    ensures t == ModalDialog <==>
              !fullscreen && (wmType == ModalDialog
                              || (modal && (wmType in {Normal, Dialog} || (wmType == Unknown && !overrideRedirect)
                                            || (wmType == Dock && below))))
    ensures t == Dialog <==>
              !fullscreen && !modal
              && (wmType == Dialog || (transient && (wmType == Normal || (wmType == Unknown && !overrideRedirect))))
  {
    var known := if !overrideRedirect && wmType == Unknown then Normal else wmType;
    var full := if fullscreen then Fullscreen else known;
    var dialog := if full == Normal && transient then Dialog else full;
    var dock := if dialog == Dock && below then Normal else dialog;
    if dock in {Normal, Dialog} && modal then ModalDialog else dock
  }

  /** The windows that the stack debugger looks at. */
  predicate Considered(p: Props) {
    !p.overrideRedirect && p.managed && p.mapNum != 0
  }

  /** The layers that the debugger tells apart when there is no fullscreen window, from the bottom up. */
  function Layer(p: Props): nat {
    if p.wtype == Dock then 4
    else if p.wtype == Desktop then 0
    else if p.above then 3
    else if p.below then 1
    else 2
  }

  ghost predicate LayersOrdered(wins: Wins, stack: seq<Window>) {
    forall i, j | 0 <= i < j < |stack| ::
      stack[i] in wins && stack[j] in wins && Considered(wins[stack[i]]) && Considered(wins[stack[j]]) ==>
        Layer(wins[stack[i]]) <= Layer(wins[stack[j]])
  }

  /** A stack without transients, group transients and fullscreen windows, where every window either
      is on show and known to the server or is passed over by all walks, where none is to be kept
      both above and below, and no dock is to be kept below. */
  ghost predicate Plain(c: Scene) {
    forall x :: x in c.wins ==>
      var p := c.wins[x];
      && p.transientFor !in c.wins
      && !IsGroupTransient(p, p.clientLeader, c.root)
      && p.wtype != Fullscreen
      && !(p.above && p.below) && !(p.wtype == Dock && p.below)
      && (if Considered(p) then p.viewable && p.onServer else Avoided(p))
  }

  lemma PlainHasNoAncestors(c: Scene, x: Window, y: Window)
    requires c.Sound() && Plain(c) && x in c.wins && y in c.wins
    ensures !IsAncestorTo(c.Links(), x, y)
  {
  }

  /** In a plain stack the search stops at no window of a higher layer, and passes over none of a
      lower one. */
  lemma StopsByLayer(c: Scene, w: Window, aboveFs: bool, below: Window)
    requires c.Sound() && Plain(c) && w in c.wins && below in c.wins && below != w
    ensures Stops(c, w, aboveFs, below) ==> Considered(c.wins[below]) && Layer(c.wins[below]) <= Layer(c.wins[w])
    ensures Considered(c.wins[below]) && !Stops(c, w, aboveFs, below) ==> Layer(c.wins[w]) <= Layer(c.wins[below])
  {
    PlainHasNoAncestors(c, w, below);
    PlainHasNoAncestors(c, below, w);
  }

  /** A dock that is to be kept above is not passed by one that is not. */
  predicate DockKeptAbove(p: Props, q: Props) {
    p.wtype == Dock && q.wtype == Dock && q.above && !p.above
  }

  /** Besides, it stops at all windows of its own layer and below. */
  lemma StopsByLayerIff(c: Scene, w: Window, aboveFs: bool, below: Window)
    requires c.Sound() && Plain(c) && w in c.wins && below in c.wins && below != w && Considered(c.wins[below])
    ensures Stops(c, w, aboveFs, below) <==>
              Layer(c.wins[below]) <= Layer(c.wins[w]) && !DockKeptAbove(c.wins[w], c.wins[below])
  {
    PlainHasNoAncestors(c, w, below);
    PlainHasNoAncestors(c, below, w);
  }

  lemma {:induction false} PlainHasNoTransients(c: Scene, w: Window, sibling: Window, k: nat)
    requires c.Sound() && Plain(c) && w in c.wins && k <= |c.stack|
    ensures TransientsBelow(c, w, NONE, sibling, k) == Collected(true, [])
  {
    if k > 0 {
      PlainHasNoTransients(c, w, sibling, k - 1);
      assert c.stack[k - 1] in c.wins;
    }
  }

  /** Nothing goes along with a window of a plain stack. */
  lemma PlainRestack(c: Scene, w: Window, sibling: Window)
    requires c.Sound() && Plain(c) && w in c.wins
    ensures Restacked(c, w, sibling) == MoveAbove(c.stack, w, sibling)
  {
    PlainHasNoTransients(c, w, sibling, |c.stack|);
    assert StackAncestors(c, w, sibling) == [];
    assert Block(c, w, sibling) == [w];
    assert Replay(c.stack, sibling, [w]) == Replay(MoveAbove(c.stack, w, sibling), w, []);
    NoFullscreenNoDocks(c, w, Restack(c, w, sibling));
  }

  lemma InsertOrdered(wins: Wins, rest: seq<Window>, k: nat, w: Window)
    requires k <= |rest| && w in wins && LayersOrdered(wins, rest)
    requires forall i | 0 <= i < k ::
               rest[i] in wins && Considered(wins[rest[i]]) ==> Layer(wins[rest[i]]) <= Layer(wins[w])
    requires forall i | k <= i < |rest| ::
               rest[i] in wins && Considered(wins[rest[i]]) ==> Layer(wins[w]) <= Layer(wins[rest[i]])
    ensures LayersOrdered(wins, InsertAt(rest, k, w))
  {
    var r := InsertAt(rest, k, w);
    forall i, j | 0 <= i < j < |r| && r[i] in wins && r[j] in wins && Considered(wins[r[i]]) && Considered(wins[r[j]])
      ensures Layer(wins[r[i]]) <= Layer(wins[r[j]])
    {
      InsertedAt(rest, k, w, i);
      InsertedAt(rest, k, w, j);
    }
  }

  /** A stack that `w` has been taken out of, with the places its windows had before. */
  lemma RemovedAt(stack: seq<Window>, w: Window)
    requires Distinct(stack) && w in stack
    ensures var rest := Remove(stack, w);
            && |rest| == |stack| - 1
            && forall i :: 0 <= i < |rest| ==> rest[i] == stack[if i < IndexOf(stack, w) then i else i + 1]
  {
    hide Remove;
    RemoveAt(stack, IndexOf(stack, w));
  }

  lemma RemovedIndex(stack: seq<Window>, w: Window, a: nat)
    requires Distinct(stack) && w in stack && a < |stack| && stack[a] != w
    ensures stack[a] in Remove(stack, w)
    ensures IndexOf(Remove(stack, w), stack[a]) == if a < IndexOf(stack, w) then a else a - 1
  {
    hide Remove, IndexOf;
    RemovedAt(stack, w);
    var rest, at := Remove(stack, w), IndexOf(stack, w);
    var k := if a < at then a else a - 1;
    assert rest[k] == stack[a];
    forall i | 0 <= i < |rest| && rest[i] == stack[a]
      ensures i == k
    {
      assert rest[i] == stack[if i < at then i else i + 1];
    }
  }

  lemma MovedAbove(stack: seq<Window>, w: Window, a: nat)
    requires Distinct(stack) && w in stack && a < |stack| && stack[a] != w
    ensures var k := if a < IndexOf(stack, w) then a else a - 1;
            k < |Remove(stack, w)| && MoveAbove(stack, w, stack[a]) == InsertAt(Remove(stack, w), k + 1, w)
  {
    RemovedAt(stack, w);
    RemovedIndex(stack, w, a);
  }

  lemma RemoveKeepsLayers(wins: Wins, stack: seq<Window>, w: Window)
    requires Distinct(stack) && w in stack && LayersOrdered(wins, stack)
    ensures LayersOrdered(wins, Remove(stack, w))
  {
    RemovedAt(stack, w);
    var rest, at := Remove(stack, w), IndexOf(stack, w);
    forall i, j | 0 <= i < j < |rest| && rest[i] in wins && rest[j] in wins
                  && Considered(wins[rest[i]]) && Considered(wins[rest[j]])
      ensures Layer(wins[rest[i]]) <= Layer(wins[rest[j]])
    {
      var i', j' := if i < at then i else i + 1, if j < at then j else j + 1;
      assert rest[i] == stack[i'] && rest[j] == stack[j'];
    }
  }

  /** Raising a window never breaks the order of layers, whether or not it was listed before. */
  lemma RaiseKeepsLayers(c: Scene, w: Window, active: bool, pending: bool)
    requires c.Sound() && Plain(c) && w in c.wins && LayersOrdered(c.wins, c.stack)
    ensures LayersOrdered(c.wins, Raise(c, w, active, pending))
  {
    hide Stops, Remove, LayersOrdered, Plain, Restacked, Scene.Sound, IndexOf, FindSiblingBelow;
    var aboveFs := AboveFs(c, w, active);
    match FindSiblingBelow(c, w, aboveFs, |c.stack|)
    case None =>
      if w in c.stack {
        BottomOrdered(c, w, aboveFs);
      }
    case Some(sibling) =>
      PlainRestack(c, w, sibling);
      PlacedOrdered(c, w, aboveFs, sibling);
  }

  lemma BottomOrdered(c: Scene, w: Window, aboveFs: bool)
    requires c.Sound() && Plain(c) && w in c.stack && w in c.wins && LayersOrdered(c.wins, c.stack)
    requires FindSiblingBelow(c, w, aboveFs, |c.stack|) == None
    ensures LayersOrdered(c.wins, [w] + Remove(c.stack, w))
  {
    hide Stops, Considered, Layer, Remove, LayersOrdered, Plain;
    var rest, at := Remove(c.stack, w), IndexOf(c.stack, w);
    RemovedAt(c.stack, w);
    RemoveKeepsLayers(c.wins, c.stack, w);
    forall i | 0 <= i < |rest| && rest[i] in c.wins && Considered(c.wins[rest[i]])
      ensures Layer(c.wins[w]) <= Layer(c.wins[rest[i]])
    {
      assert rest[i] == c.stack[if i < at then i else i + 1];
      StopsByLayer(c, w, aboveFs, rest[i]);
    }
    InsertOrdered(c.wins, rest, 0, w);
    assert InsertAt(rest, 0, w) == [w] + rest;
  }

  /** The place just above the window found is right for the layer of `w`. */
  lemma PlacedOrdered(c: Scene, w: Window, aboveFs: bool, sibling: Window)
    requires c.Sound() && Plain(c) && w in c.wins && LayersOrdered(c.wins, c.stack)
    requires FindSiblingBelow(c, w, aboveFs, |c.stack|) == Some(sibling)
    ensures LayersOrdered(c.wins, MoveAbove(c.stack, w, sibling))
  {
    hide Stops, Considered, Plain, LayersOrdered, MoveAbove, FindSiblingBelow, Layer;
    var a := FoundAt(c, w, aboveFs, sibling);
    forall i | 0 <= i < |c.stack| && c.stack[i] != w && Considered(c.wins[c.stack[i]])
      ensures Fits(c.wins, w, c.stack[i], i <= a)
    {
      LayerAround(c, w, aboveFs, a, i);
    }
    if w in c.stack {
      MoveOrdered(c.wins, c.stack, w, a);
    } else {
      NewOrdered(c.wins, c.stack, w, a);
    }
  }

  lemma NewOrdered(wins: Wins, stack: seq<Window>, w: Window, a: nat)
    requires Distinct(stack) && w !in stack && w in wins && (forall x :: x in stack ==> x in wins)
    requires a < |stack| && LayersOrdered(wins, stack)
    requires forall i | 0 <= i < |stack| :: Considered(wins[stack[i]]) ==> Fits(wins, w, stack[i], i <= a)
    ensures LayersOrdered(wins, MoveAbove(stack, w, stack[a]))
  {
    hide Considered, Layer, LayersOrdered;
    forall i | 0 <= i < |stack| && stack[i] == stack[a]
      ensures i == a
    {
    }
    InsertOrdered(wins, stack, a + 1, w);
  }

  /** Whether a window that will be below `w`, or above it, is in the right layer for that. */
  predicate Fits(wins: Wins, w: Window, x: Window, isBelow: bool)
    requires w in wins && x in wins
  {
    if isBelow then Layer(wins[x]) <= Layer(wins[w]) else Layer(wins[w]) <= Layer(wins[x])
  }

  lemma MoveOrdered(wins: Wins, stack: seq<Window>, w: Window, a: nat)
    requires Distinct(stack) && w in stack && (forall x :: x in stack ==> x in wins)
    requires a < |stack| && stack[a] != w && LayersOrdered(wins, stack)
    requires forall i | 0 <= i < |stack| ::
               stack[i] != w && Considered(wins[stack[i]]) ==> Fits(wins, w, stack[i], i <= a)
    ensures LayersOrdered(wins, MoveAbove(stack, w, stack[a]))
  {
    hide Considered, Layer, MoveAbove, IndexOf, Remove, InsertAt;
    var rest, at := Remove(stack, w), IndexOf(stack, w);
    RemovedAt(stack, w);
    MovedAbove(stack, w, a);
    RemoveKeepsLayers(wins, stack, w);
    var k := if a < at then a else a - 1;
    forall i | 0 <= i < |rest| && Considered(wins[rest[i]])
      ensures Fits(wins, w, rest[i], i <= k)
    {
      var i' := if i < at then i else i + 1;
      assert rest[i] == stack[i'];
    }
    InsertOrdered(wins, rest, k + 1, w);
  }

  lemma FoundAt(c: Scene, w: Window, aboveFs: bool, sibling: Window) returns (a: nat)
    requires c.Sound() && w in c.wins && FindSiblingBelow(c, w, aboveFs, |c.stack|) == Some(sibling)
    ensures a < |c.stack| && c.stack[a] == sibling && Stops(c, w, aboveFs, sibling) && sibling != w
    ensures forall j :: a < j < |c.stack| ==> !Stops(c, w, aboveFs, c.stack[j])
  {
    a :| 0 <= a < |c.stack| && c.stack[a] == sibling && Stops(c, w, aboveFs, sibling)
         && forall j :: a < j < |c.stack| ==> !Stops(c, w, aboveFs, c.stack[j]);
  }

  lemma LayerAround(c: Scene, w: Window, aboveFs: bool, a: nat, i: nat)
    requires c.Sound() && Plain(c) && w in c.wins && LayersOrdered(c.wins, c.stack)
    requires a < |c.stack| && c.stack[a] != w && Stops(c, w, aboveFs, c.stack[a])
    requires forall j :: a < j < |c.stack| ==> !Stops(c, w, aboveFs, c.stack[j])
    requires i < |c.stack| && c.stack[i] != w && Considered(c.wins[c.stack[i]])
    ensures if i <= a then Layer(c.wins[c.stack[i]]) <= Layer(c.wins[w])
            else Layer(c.wins[w]) <= Layer(c.wins[c.stack[i]])
  {
    hide Stops, Considered, Layer;
    StopsByLayer(c, w, aboveFs, c.stack[a]);
    StopsByLayer(c, w, aboveFs, c.stack[i]);
  }
}
