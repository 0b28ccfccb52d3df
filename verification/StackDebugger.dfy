/** The check that the debugger makes of the stack last sent to the server. */
module StackDebugger {
  import Sequences
  import opened Windows
  import opened Stacking
  import opened LayerOrder

  /** The layers as bit masks: 0xffffffff shifted right by the number of the layer, from 1, the docks
      above toplevels above fullscreen windows, to 10, the desktop. */
  function Mask(layer: nat): bv32
    requires layer <= 10
  {
    match layer
    case 0 => 0xffffffff
    case 1 => 0x7fffffff
    case 2 => 0x3fffffff
    case 3 => 0x1fffffff
    case 4 => 0x0fffffff
    case 5 => 0x07ffffff
    case 6 => 0x03ffffff
    case 7 => 0x01ffffff
    case 8 => 0x00ffffff
    case 9 => 0x007fffff
    case _ => 0x003fffff
  }

  const DOCKS_ABOVE_TOPLEVELS_ABOVE_FULLSCREEN := 1
  const KEEP_ABOVE_TOPLEVELS_ABOVE_FULLSCREEN := 2
  const TOPLEVELS_ABOVE_FULLSCREEN := 3
  const FULLSCREEN := 4
  const DOCKS := 5
  const KEEP_ABOVE := 6
  const TOPLEVELS := 7
  const DOCKS_BELOW := 8
  const KEEP_BELOW := 9
  const DESKTOP := 10

  predicate Includes(current: bv32, layer: nat)
    requires layer <= 10
  {
    current & Mask(layer) == Mask(layer)
  }

  lemma IncludesIsBelow(k: nat, layer: nat)
    requires k <= 10 && layer <= 10
    ensures Includes(Mask(k), layer) <==> k <= layer
  {
  }

  /** Whether there is a fullscreen window below index `k` of the list of windows. */
  function FullscreenBelow(wins: Wins, windows: seq<Window>, k: nat): (b: bool)
    requires k <= |windows|
    ensures b <==> exists i :: 0 <= i < k && windows[i] in wins && wins[windows[i]].wtype == Fullscreen
  {
    k > 0 && ((windows[k - 1] in wins && wins[windows[k - 1]].wtype == Fullscreen) || FullscreenBelow(wins, windows, k - 1))
  }

  /** The layer a window claims while the walk is in layer `current`, where `overFullscreen` tells
      whether there is a fullscreen window somewhere below it. */
  function Claim(p: Props, current: nat, overFullscreen: bool): (layer: nat)
    ensures 1 <= layer <= 10
  {
    if p.wtype == Dock then
      if current <= DOCKS_ABOVE_TOPLEVELS_ABOVE_FULLSCREEN then
        if overFullscreen then DOCKS_ABOVE_TOPLEVELS_ABOVE_FULLSCREEN else DOCKS
      else if p.below then DOCKS_BELOW
      else DOCKS
    else if p.wtype == Fullscreen then FULLSCREEN
    else if p.wtype == Desktop then DESKTOP
    else if p.above then
      if current <= KEEP_ABOVE_TOPLEVELS_ABOVE_FULLSCREEN && overFullscreen then KEEP_ABOVE_TOPLEVELS_ABOVE_FULLSCREEN
      else KEEP_ABOVE
    else if p.below then KEEP_BELOW
    else if current <= TOPLEVELS_ABOVE_FULLSCREEN && overFullscreen then TOPLEVELS_ABOVE_FULLSCREEN
    else TOPLEVELS
  }

  function OverFullscreen(wins: Wins, windows: seq<Window>, w: Window): bool {
    w in windows && FullscreenBelow(wins, windows, Sequences.IndexOf(windows, w))
  }

  /** Whether the walk down from the window below index `k` finds a window that claims a higher layer
      than the one it has come to. */
  function Insane(wins: Wins, windows: seq<Window>, stack: seq<Window>, k: nat, current: nat): bool
    requires k <= |stack| && forall x :: x in stack ==> x in wins
  {
    if k == 0 then false
    else
      var w := stack[k - 1];
      if !Considered(wins[w]) then Insane(wins, windows, stack, k - 1, current)
      else
        var layer := Claim(wins[w], current, OverFullscreen(wins, windows, w));
        !(current <= layer) || Insane(wins, windows, stack, k - 1, layer)
  }

  /** The walk down the stack, with layers as bit masks that may only lose bits. */
  method CheckSanity(wins: Wins, windows: seq<Window>, serverWindows: seq<Window>) returns (err: bool)
    requires forall x :: x in serverWindows ==> x in wins
    ensures err == Insane(wins, windows, serverWindows, |serverWindows|, 0)
  {
    var current := Mask(0);
    ghost var layer: nat := 0;
    err := false;
    var k: nat := |serverWindows|;
    while k > 0
      invariant k <= |serverWindows| && layer <= 10 && current == Mask(layer)
      invariant (err || Insane(wins, windows, serverWindows, k, layer))
             == Insane(wins, windows, serverWindows, |serverWindows|, 0)
    {
      k := k - 1;
      var w := serverWindows[k];
      if Considered(wins[w]) {
        var over := OverFullscreen(wins, windows, w);
        var claim := ClaimByMask(wins[w], current, over, layer);
        IncludesIsBelow(layer, claim);
        if !Includes(current, claim) {
          err := true;
        }
        current, layer := Mask(claim), claim;
      }
    }
  }

  /** The choice of a layer by tests of the mask the walk has come to. */
  method ClaimByMask(p: Props, current: bv32, over: bool, ghost layer: nat) returns (claim: nat)
    requires layer <= 10 && current == Mask(layer)
    ensures claim == Claim(p, layer, over)
  {
    IncludesIsBelow(layer, DOCKS_ABOVE_TOPLEVELS_ABOVE_FULLSCREEN);
    IncludesIsBelow(layer, KEEP_ABOVE_TOPLEVELS_ABOVE_FULLSCREEN);
    IncludesIsBelow(layer, TOPLEVELS_ABOVE_FULLSCREEN);
    if p.wtype == Dock {
      if Includes(current, DOCKS_ABOVE_TOPLEVELS_ABOVE_FULLSCREEN) {
        claim := if !over then DOCKS else DOCKS_ABOVE_TOPLEVELS_ABOVE_FULLSCREEN;
      } else if p.below {
        claim := DOCKS_BELOW;
      } else {
        claim := DOCKS;
      }
    } else if p.wtype == Fullscreen {
      claim := FULLSCREEN;
    } else if p.wtype == Desktop {
      claim := DESKTOP;
    } else if p.above {
      claim := if Includes(current, KEEP_ABOVE_TOPLEVELS_ABOVE_FULLSCREEN) && over
               then KEEP_ABOVE_TOPLEVELS_ABOVE_FULLSCREEN else KEEP_ABOVE;
    } else if p.below {
      claim := KEEP_BELOW;
    } else {
      claim := if Includes(current, TOPLEVELS_ABOVE_FULLSCREEN) && over then TOPLEVELS_ABOVE_FULLSCREEN else TOPLEVELS;
    }
  }

  /** The layer of a plain window, as the debugger numbers it. */
  function Number(p: Props): nat {
    match Layer(p)
    case 0 => DESKTOP
    case 1 => KEEP_BELOW
    case 2 => TOPLEVELS
    case 3 => KEEP_ABOVE
    case _ => DOCKS
  }

  lemma PlainClaim(c: Scene, windows: seq<Window>, w: Window, current: nat)
    requires Plain(c) && w in c.wins
    ensures Claim(c.wins[w], current, OverFullscreen(c.wins, windows, w)) == Number(c.wins[w])
  {
  }

  /** Whether some window below index `k` claims a higher layer than `current`. */
  ghost predicate Rises(c: Scene, k: nat, current: nat)
    requires k <= |c.stack| && forall x :: x in c.stack ==> x in c.wins
  {
    exists i :: 0 <= i < k && Considered(c.wins[c.stack[i]]) && Number(c.wins[c.stack[i]]) < current
  }

  lemma OrderedBelow(c: Scene, k: nat)
    requires c.Sound() && 0 < k <= |c.stack|
    ensures LayersOrdered(c.wins, c.stack[..k]) <==>
              && LayersOrdered(c.wins, c.stack[..k - 1])
              && (Considered(c.wins[c.stack[k - 1]]) ==> !Rises(c, k - 1, Number(c.wins[c.stack[k - 1]])))
  {
    hide Considered, Number, LayersOrdered, Rises;
    if LayersOrdered(c.wins, c.stack[..k]) {
      OrderedRest(c, k);
    }
    if LayersOrdered(c.wins, c.stack[..k - 1])
       && (Considered(c.wins[c.stack[k - 1]]) ==> !Rises(c, k - 1, Number(c.wins[c.stack[k - 1]]))) {
      OrderedMore(c, k);
    }
  }

  lemma OrderedRest(c: Scene, k: nat)
    requires c.Sound() && 0 < k <= |c.stack| && LayersOrdered(c.wins, c.stack[..k])
    ensures LayersOrdered(c.wins, c.stack[..k - 1])
    ensures Considered(c.wins[c.stack[k - 1]]) ==> !Rises(c, k - 1, Number(c.wins[c.stack[k - 1]]))
  {
    hide Considered, Layer, Number;
    var top, rest, w := c.stack[..k], c.stack[..k - 1], c.stack[k - 1];
    NumbersFall();
    forall i, j | 0 <= i < j < |rest| && Considered(c.wins[rest[i]]) && Considered(c.wins[rest[j]])
      ensures Layer(c.wins[rest[i]]) <= Layer(c.wins[rest[j]])
    {
      assert top[i] == rest[i] && top[j] == rest[j];
    }
    forall i | 0 <= i < k - 1 && Considered(c.wins[c.stack[i]]) && Considered(c.wins[w])
      ensures Number(c.wins[w]) <= Number(c.wins[c.stack[i]])
    {
      assert top[i] == c.stack[i] && top[k - 1] == w;
    }
  }

  lemma OrderedMore(c: Scene, k: nat)
    requires c.Sound() && 0 < k <= |c.stack| && LayersOrdered(c.wins, c.stack[..k - 1])
    requires Considered(c.wins[c.stack[k - 1]]) ==> !Rises(c, k - 1, Number(c.wins[c.stack[k - 1]]))
    ensures LayersOrdered(c.wins, c.stack[..k])
  {
    hide Considered, Layer, Number;
    var top, rest, w := c.stack[..k], c.stack[..k - 1], c.stack[k - 1];
    NumbersFall();
    forall i, j | 0 <= i < j < |top| && Considered(c.wins[top[i]]) && Considered(c.wins[top[j]])
      ensures Layer(c.wins[top[i]]) <= Layer(c.wins[top[j]])
    {
      assert top[i] == rest[i] && top[i] == c.stack[i];
      assert if j < k - 1 then top[j] == rest[j] else top[j] == w;
    }
  }

  lemma NumbersFall()
    ensures forall p, q :: Number(p) < Number(q) <==> Layer(q) < Layer(p)
  {
  }

  lemma {:induction false} SaneBelow(c: Scene, windows: seq<Window>, k: nat, current: nat)
    requires c.Sound() && Plain(c) && k <= |c.stack|
    ensures Insane(c.wins, windows, c.stack, k, current) <==>
              !LayersOrdered(c.wins, c.stack[..k]) || Rises(c, k, current)
    decreases k
  {
    hide Considered, Layer, LayersOrdered, Number, Claim, OverFullscreen;
    if k > 0 {
      var w := c.stack[k - 1];
      PlainClaim(c, windows, w, current);
      OrderedBelow(c, k);
      SaneBelow(c, windows, k - 1, if Considered(c.wins[w]) then Number(c.wins[w]) else current);
    } else {
      NothingOrdered(c.wins);
      assert c.stack[..0] == [];
    }
  }

  lemma NothingOrdered(wins: Wins)
    ensures LayersOrdered(wins, [])
  {
  }

  /** For a plain stack the debugger finds no fault exactly when desktop windows, windows kept below,
      ordinary windows, windows kept above and docks follow each other from the bottom up. */
  lemma SaneIffOrdered(c: Scene, windows: seq<Window>)
    requires c.Sound() && Plain(c)
    ensures !Insane(c.wins, windows, c.stack, |c.stack|, 0) <==> LayersOrdered(c.wins, c.stack)
  {
    SaneBelow(c, windows, |c.stack|, 0);
    assert c.stack[..|c.stack|] == c.stack;
  }
}
