/** How a window that is restacked takes its ancestors and its transients with it.

    A stack is a list of window ids from the bottom to the top; ids stand for the windows. */
module Stacking {
  import opened Sequences
  import opened TransientForest
  import opened Windows

  type Wins = map<Window, Props>

  /** The windows, the id of the root window and the stack last sent to the server. */
  datatype Scene = Scene(wins: Wins, root: Window, stack: seq<Window>) {
    function Links(): Links {
      map id | id in wins :: wins[id].transientFor
    }

    /** The stack lists windows, none twice, and no window is its own transitive transient. */
    ghost predicate Sound() {
      && Distinct(stack)
      && (forall x :: x in stack ==> x in wins)
      && NONE !in wins && root !in wins
      && Acyclic(Links())
    }

    /** Besides, every window is in the stack. */
    ghost predicate Valid() {
      Sound() && forall x :: x in wins ==> x in stack
    }
  }

  predicate IsGroupTransient(p: Props, leader: Window, root: Window) {
    && leader != NONE
    && (p.transientFor == NONE || p.transientFor == root)
    && p.wtype in {Util, Toolbar, Menu, Dialog, ModalDialog}
    && p.clientLeader == leader
  }

  /** The leader whose group transients go with a window: none for a window that is itself transient. */
  function GroupOf(c: Scene, w: Window): Window
    requires w in c.wins
  {
    var p := c.wins[w];
    if p.transientFor != NONE || IsGroupTransient(p, p.clientLeader, c.root) then NONE else p.clientLeader
  }

  /** Whether `t` is restacked along with `w`. */
  predicate Follows(c: Scene, t: Window, w: Window)
    requires t in c.wins && w in c.wins
  {
    c.wins[t].transientFor == w || IsGroupTransient(c.wins[t], GroupOf(c, w), c.root)
  }

  /** Whether a window is mapped, or soon will be, and the server knows it. */
  predicate Restackable(c: Scene, t: Window)
    requires t in c.wins
  {
    (c.wins[t].mapNum != 0 || c.wins[t].pendingMaps != 0) && c.wins[t].onServer
  }

  /** A list of windows to restack, and whether the walk came to its end. */
  datatype Collected = Collected(ok: bool, list: seq<Window>)

  /** A bound on the ranks of the windows in a stack. */
  ghost function Height(rank: Window -> nat, stack: seq<Window>): (h: nat)
    ensures forall x :: x in stack ==> rank(x) <= h
  {
    if stack == [] then 0
    else
      var h := Height(rank, stack[1..]);
      assert forall x :: x in stack ==> x == stack[0] || x in stack[1..];
      if h < rank(stack[0]) then rank(stack[0]) else h
  }

  /** How many levels of transients there can be above a window. */
  ghost function Levels(c: Scene, w: Window): nat
    requires c.Sound()
  {
    var rank := RankOf(c.Links());
    var h := Height(rank, c.stack);
    if rank(w) <= h then h - rank(w) else 0
  }

  /** The transients of `w`, each after its own transients, the topmost first. The walk fails when
      it meets the window that the stack is to be put above. */
  function StackTransients(c: Scene, w: Window, avoid: Window, sibling: Window): Collected
    requires c.Sound() && w in c.wins
    decreases GroupOf(c, w) != NONE, Levels(c, w), |c.stack| + 1
  {
    TransientsBelow(c, w, avoid, sibling, |c.stack|)
  }

  /** The same walk from the window below index `k` down. */
  function TransientsBelow(c: Scene, w: Window, avoid: Window, sibling: Window, k: nat): Collected
    requires c.Sound() && w in c.wins && k <= |c.stack|
    decreases GroupOf(c, w) != NONE, Levels(c, w), k
  {
    if k == 0 then Collected(true, [])
    else
      var t := c.stack[k - 1];
      if t == w || t == avoid || !Follows(c, t, w) then TransientsBelow(c, w, avoid, sibling, k - 1)
      else
        Deeper(c, t, w);
        var above := StackTransients(c, t, avoid, sibling);
        if !above.ok || t == sibling then Collected(false, above.list)
        else
          var rest := TransientsBelow(c, w, avoid, sibling, k - 1);
          Collected(rest.ok, above.list + (if Restackable(c, t) then [t] else []) + rest.list)
  }

  lemma Deeper(c: Scene, t: Window, w: Window)
    requires c.Sound() && t in c.stack && w in c.wins && Follows(c, t, w)
    ensures GroupOf(c, t) == NONE
    ensures GroupOf(c, w) != NONE || Levels(c, t) < Levels(c, w)
  {
    var rank := RankOf(c.Links());
    if c.wins[t].transientFor == w {
      assert t in c.Links() && c.Links()[t] == w;
      assert rank(w) < rank(t) <= Height(rank, c.stack);
    }
  }

  /** The ancestors of `w` from the nearest up, each after its other transients. */
  function StackAncestors(c: Scene, w: Window, sibling: Window): seq<Window>
    requires c.Sound() && w in c.wins
    decreases RankOf(c.Links())(w)
  {
    var ancestor := c.wins[w].transientFor;
    if ancestor in c.wins && ancestor != sibling then
      var others := StackTransients(c, ancestor, w, sibling);
      var a := c.wins[ancestor];
      if !others.ok || a.wtype == Desktop || (a.wtype == Dock && c.wins[w].wtype != Dock) then others.list
      else
        assert c.Links()[w] == ancestor;
        others.list + (if Restackable(c, ancestor) then [ancestor] else []) + StackAncestors(c, ancestor, sibling)
    else if IsGroupTransient(c.wins[w], c.wins[w].clientLeader, c.root) then
      GroupAncestors(c, w, sibling, |c.stack|)
    else []
  }

  /** The main windows of the group of `w`, from the window below index `k` down, each after its
      other transients. */
  function GroupAncestors(c: Scene, w: Window, sibling: Window, k: nat): seq<Window>
    requires c.Sound() && w in c.wins && k <= |c.stack|
    decreases k
  {
    if k == 0 then []
    else
      var a := c.stack[k - 1];
      var p := c.wins[a];
      if p.clientLeader == c.wins[w].clientLeader && p.transientFor == NONE
         && !IsGroupTransient(p, c.wins[w].clientLeader, c.root) then
        if a == sibling then []
        else
          var others := StackTransients(c, a, w, sibling);
          if !others.ok then others.list
          else if p.wtype == Desktop then others.list + GroupAncestors(c, w, sibling, k - 1)
          else if p.wtype == Dock && c.wins[w].wtype != Dock then others.list
          else
            others.list + (if Restackable(c, a) then [a] else []) + GroupAncestors(c, w, sibling, k - 1)
      else GroupAncestors(c, w, sibling, k - 1)
  }

  /** The stack after `w` has been taken out and put back just above `sibling`. When that is not in the
      stack, `w` is left out, unless there is no other window. */
  function MoveAbove(stack: seq<Window>, w: Window, sibling: Window): (r: seq<Window>)
    ensures r != []
  {
    var rest := Remove(stack, w);
    if rest == [] then [w]
    else if sibling in rest then InsertAt(rest, IndexOf(rest, sibling) + 1, w) else rest
  }

  /** The moves of a list of windows, each above the one before it, the first above `sibling`. */
  function Replay(stack: seq<Window>, sibling: Window, list: seq<Window>): seq<Window>
    decreases |list|
  {
    if list == [] then stack
    else Replay(MoveAbove(stack, list[0], sibling), list[0], list[1..])
  }

  function Reverse<T>(s: seq<T>): (r: seq<T>)
    ensures |r| == |s| && forall i :: 0 <= i < |s| ==> r[i] == s[|s| - 1 - i]
  {
    if s == [] then [] else Reverse(s[1..]) + [s[0]]
  }

  /** The windows that move when `w` is put above `sibling`, from the bottom to the top. */
  function Block(c: Scene, w: Window, sibling: Window): seq<Window>
    requires c.Sound() && w in c.wins
  {
    Reverse(StackAncestors(c, w, sibling)) + [w] + Reverse(StackTransients(c, w, NONE, sibling).list)
  }

  /** The stack after `w` has been put above `sibling` with all that goes with it. */
  function Restack(c: Scene, w: Window, sibling: Window): seq<Window>
    requires c.Sound() && w in c.wins
  {
    if StackTransients(c, w, NONE, sibling).ok then Replay(c.stack, sibling, Block(c, w, sibling))
    else c.stack
  }
}
