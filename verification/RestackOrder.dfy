/** A restack never puts a window that can be restacked below one that it is transient for. Windows that
    are not mapped stay where they are, but the walks pass through them to their transients. */
module RestackOrder {
  import opened Sequences
  import opened TransientForest
  import opened Windows
  import opened Stacking
  import opened RestackProofs
  import opened ReplayProofs
  import opened RestackTheorems
  import opened GroupWalks
  import opened GroupClashes
  import opened GroupBlocks
  import opened WalkOrder

  /** Every window that can be restacked is above all such windows that it is transient for, at any depth. */
  ghost predicate ShownBelow(c: Scene, stack: seq<Window>)
    requires c.Valid()
  {
    forall i, j | 0 <= i < |stack| && 0 <= j < |stack| && Shown(c, stack[i]) && Shown(c, stack[j]) ::
      Under(c, stack[i], stack[j]) ==> j < i
  }

  /** No window left behind is above the sibling. */
  ghost predicate NoneLeftAbove(c: Scene, w: Window, sibling: Window)
    requires c.Valid() && w in c.wins && sibling in c.wins
  {
    forall z :: Shown(c, z) && LeftBehind(c, w, sibling, z) ==>
                  IndexOf(c.stack, z) <= IndexOf(c.stack, sibling)
  }

  /** Every window that goes along with `w`, being under it at any depth or belonging to a group transient of its
      group, moves if it can be restacked. */
  lemma TransientsMove(c: Scene, w: Window, sibling: Window, x: Window)
    requires c.Valid() && w in c.wins && !GoesAlong(c, sibling, w)
    requires Shown(c, x) && GoesAlong(c, x, w)
    ensures x in Moved(c, w, sibling)
  {
    WalkEndsIff(c, w, sibling);
    NothingUnderNone(c, x);
    var i :| 0 <= i < |c.stack| && Via(c, w, NONE, x, i);
    CollectsAll(c, w, NONE, sibling, |c.stack|, i, x);
    FollowersMove(c, w, sibling, x);
  }

  /** In the block, what goes along through a window higher in the stack ends above what goes along through a
      lower one. */
  lemma BlockKeepsAlong(c: Scene, w: Window, sibling: Window, x: Window, i: nat, y: Window, j: nat)
    requires c.Valid() && w in c.wins && w != sibling && !GoesAlong(c, sibling, w) && j < i < |c.stack|
    requires Via(c, w, NONE, x, i) && Via(c, w, NONE, y, j) && Shown(c, x) && Shown(c, y)
    ensures var l := Moved(c, w, sibling); x in l && y in l && IndexOf(l, y) < IndexOf(l, x)
  {
    hide IndexOf, StackAncestors, StackTransients, Block, LastOnly, IsAncestorTo, Follows;
    WalkEndsIff(c, w, sibling);
    NothingUnderNone(c, x);
    NothingUnderNone(c, y);
    AllAlong(c, w, sibling, x, i);
    AllAlong(c, w, sibling, y, j);
    WalkInOrder(c, w, sibling, x, i, y, j);
    CollectedOnce(c, w, NONE, sibling);
    BlockIsReversed(c, w, sibling);
    var t := StackTransients(c, w, NONE, sibling).list;
    var rest := [w] + StackAncestors(c, w, sibling);
    PrecedesOn([], t, rest, x, y);
    assert [] + t + rest == t + rest;
    LastInOrder(t + rest, x, y);
  }

  lemma AllAlong(c: Scene, w: Window, sibling: Window, x: Window, i: nat)
    requires c.Valid() && w in c.wins && i < |c.stack| && StackTransients(c, w, NONE, sibling).ok
    requires Via(c, w, NONE, x, i) && Shown(c, x) && !Within(c, x, NONE)
    ensures x in StackTransients(c, w, NONE, sibling).list
  {
    CollectsAll(c, w, NONE, sibling, |c.stack|, i, x);
  }

  lemma WalkInOrder(c: Scene, w: Window, sibling: Window, x: Window, i: nat, y: Window, j: nat)
    requires c.Valid() && w in c.wins && j < i < |c.stack| && Via(c, w, NONE, x, i) && Via(c, w, NONE, y, j)
    requires x in StackTransients(c, w, NONE, sibling).list && y in StackTransients(c, w, NONE, sibling).list
    ensures Precedes(StackTransients(c, w, NONE, sibling).list, x, y)
  {
    CollectsInOrder(c, w, NONE, sibling, |c.stack|, x, i, y, j);
  }

  /** So, whatever groups there are, a restack keeps the order of what goes along: that of the windows through
      which it does. */
  lemma AlongKeepsOrder(c: Scene, w: Window, sibling: Window, x: Window, i: nat, y: Window, j: nat)
    requires c.Valid() && w in c.wins && sibling in c.wins && w != sibling && j < i < |c.stack|
    requires !GoesAlong(c, sibling, w) && !Clash(c, w, sibling)
    requires Via(c, w, NONE, x, i) && Via(c, w, NONE, y, j) && Shown(c, x) && Shown(c, y)
    ensures var r := Restack(c, w, sibling); x in r && y in r && IndexOf(r, y) < IndexOf(r, x)
  {
    hide IndexOf, Moved, Restack, Clash, GoesAlong, Via;
    GroupMovesBlock(c, w, sibling);
    BlockKeepsAlong(c, w, sibling, x, i, y, j);
    SplicedOrder(c.stack, sibling, Moved(c, w, sibling), y, x);
  }

  /** And the order of the main windows that are put below a group transient. */
  lemma MainsKeepOrder(c: Scene, w: Window, sibling: Window, i: nat, j: nat)
    requires c.Valid() && w in c.wins && sibling in c.wins && w != sibling && j < i < |c.stack|
    requires IsGroupTransient(c.wins[w], c.wins[w].clientLeader, c.root)
    requires !GoesAlong(c, sibling, w) && !Clash(c, w, sibling)
    requires IsMain(c, c.stack[i], w) && IsMain(c, c.stack[j], w)
    requires c.stack[i] in Moved(c, w, sibling) && c.stack[j] in Moved(c, w, sibling)
    ensures var r := Restack(c, w, sibling);
            c.stack[i] in r && c.stack[j] in r && IndexOf(r, c.stack[j]) < IndexOf(r, c.stack[i])
  {
    hide IndexOf, Moved, Restack, Clash, GoesAlong, IsMain, IsGroupTransient;
    GroupMovesBlock(c, w, sibling);
    MainsInBlock(c, w, sibling, i, j);
    SplicedOrder(c.stack, sibling, Moved(c, w, sibling), c.stack[j], c.stack[i]);
  }

  lemma MainsInBlock(c: Scene, w: Window, sibling: Window, i: nat, j: nat)
    requires c.Valid() && w in c.wins && w != sibling && j < i < |c.stack| && !GoesAlong(c, sibling, w)
    requires IsGroupTransient(c.wins[w], c.wins[w].clientLeader, c.root)
    requires IsMain(c, c.stack[i], w) && IsMain(c, c.stack[j], w)
    requires c.stack[i] in Moved(c, w, sibling) && c.stack[j] in Moved(c, w, sibling)
    ensures IndexOf(Moved(c, w, sibling), c.stack[j]) < IndexOf(Moved(c, w, sibling), c.stack[i])
  {
    hide IndexOf, StackTransients, StackAncestors, IsMain, Block, LastOnly, IsAncestorTo, IsGroupTransient, Precedes;
    var x, y := c.stack[i], c.stack[j];
    MainsListed(c, w, sibling, i, j);
    MainApart(c, w, sibling, y);
    BlockIsReversed(c, w, sibling);
    var t, a := StackTransients(c, w, NONE, sibling).list, StackAncestors(c, w, sibling);
    PrecedesOn(t + [w], a, [], x, y);
    assert t + [w] + a + [] == t + ([w] + a);
    LastInOrder(t + ([w] + a), x, y);
  }

  lemma MainsListed(c: Scene, w: Window, sibling: Window, i: nat, j: nat)
    requires c.Valid() && w in c.wins && w != sibling && j < i < |c.stack| && !GoesAlong(c, sibling, w)
    requires IsGroupTransient(c.wins[w], c.wins[w].clientLeader, c.root)
    requires IsMain(c, c.stack[i], w) && IsMain(c, c.stack[j], w)
    requires c.stack[i] in Moved(c, w, sibling) && c.stack[j] in Moved(c, w, sibling)
    ensures Precedes(StackAncestors(c, w, sibling), c.stack[i], c.stack[j])
  {
    hide StackTransients, StackAncestors, IsMain, Moved, IsAncestorTo, IsGroupTransient, Precedes, GoesAlong;
    var x, y := c.stack[i], c.stack[j];
    NotAlong(c, w, sibling);
    MainApart(c, w, sibling, x);
    MainApart(c, w, sibling, y);
    MovedIff(c, w, sibling, x);
    MovedIff(c, w, sibling, y);
    TopOfClimb(c, w, sibling);
    MainsInOrder(c, w, sibling, |c.stack|, i, j);
  }

  /** A main window of the group of `w` is collected neither as `w` nor for it. */
  lemma MainApart(c: Scene, w: Window, sibling: Window, m: Window)
    requires c.Valid() && w in c.wins && m in c.wins && IsMain(c, m, w)
    requires IsGroupTransient(c.wins[w], c.wins[w].clientLeader, c.root)
    ensures m != w && m !in StackTransients(c, w, NONE, sibling).list
  {
    MainFollowed(c, m, w);
    if m in StackTransients(c, w, NONE, sibling).list {
      AroundUnder(c, w, NONE, sibling, m);
    }
  }

  lemma TopOfClimb(c: Scene, w: Window, sibling: Window)
    requires c.Valid() && w in c.wins && IsGroupTransient(c.wins[w], c.wins[w].clientLeader, c.root)
    ensures StackAncestors(c, w, sibling) == GroupAncestors(c, w, sibling, |c.stack|)
  {
  }

  lemma PrecedesOn(a: seq<Window>, b: seq<Window>, d: seq<Window>, x: Window, y: Window)
    requires Precedes(b, x, y) && y !in a
    ensures Precedes(a + b + d, x, y)
  {
    PrecedesConcat(a, b, x, y);
    var l := a + b;
    var i :| 0 <= i < |l| && l[i] == x && y !in l[..i + 1];
    assert (l + d)[i] == x && (l + d)[..i + 1] == l[..i + 1];
  }

  lemma LastInOrder(list: seq<Window>, x: Window, y: Window)
    requires Precedes(list, x, y)
    ensures var l := LastOnly(Reverse(list));
            x in l && y in l && IndexOf(l, y) < IndexOf(l, x)
  {
    hide IndexOf, LastOnly, Reverse;
    var i :| 0 <= i < |list| && list[i] == x && y !in list[..i + 1];
    var a, b := list[..i + 1], list[i + 1..];
    assert list == a + b && a[i] == x;
    LastReversed(list, a, b, x, y);
  }

  lemma UnderGoesAlong(c: Scene, w: Window, x: Window)
    requires c.Valid() && w in c.wins && Under(c, x, w)
    ensures GoesAlong(c, x, w)
  {
    var i := TowardChild(c, x, w);
    ParentRank(c, c.stack[i]);
    NothingUnderNone(c, x);
    assert Via(c, w, NONE, x, i);
  }

  lemma MovedIff(c: Scene, w: Window, sibling: Window, x: Window)
    requires c.Valid() && w in c.wins
    ensures x in Moved(c, w, sibling) <==>
              x in StackTransients(c, w, NONE, sibling).list || x == w || x in StackAncestors(c, w, sibling)
  {
    hide StackTransients, StackAncestors;
    FollowersMove(c, w, sibling, x);
  }

  /** What is under a moved window, and can be restacked, moves. */
  lemma BlockClosed(c: Scene, w: Window, sibling: Window, x: Window, y: Window)
    requires c.Valid() && w in c.wins && w != sibling && !GoesAlong(c, sibling, w)
    requires y in Moved(c, w, sibling) && Shown(c, x) && Under(c, x, y)
    ensures x in Moved(c, w, sibling)
  {
    hide StackTransients, StackAncestors, IsAncestorTo, Moved, GoesAlong;
    MovedIff(c, w, sibling, x);
    MovedIff(c, w, sibling, y);
    NotAlong(c, w, sibling);
    if Under(c, x, w) {
      UnderGoesAlong(c, w, x);
      TransientsMove(c, w, sibling, x);
    } else if y in StackTransients(c, w, NONE, sibling).list {
      NothingUnderNone(c, x);
      WalkClosed(c, w, NONE, sibling, x, y);
    } else if x != w {
      AncestorsClosed(c, w, sibling, x, y);
    }
  }

  /** What a moved window is under, and does not move though it can be restacked. */
  lemma BlockMiss(c: Scene, w: Window, sibling: Window, x: Window, y: Window)
    requires c.Valid() && w in c.wins && w != sibling && !GoesAlong(c, sibling, w)
    requires x in Moved(c, w, sibling) && y !in Moved(c, w, sibling) && Shown(c, y) && Under(c, x, y)
    ensures Within(c, sibling, y) || LeftBehind(c, w, sibling, y)
  {
    hide StackTransients, StackAncestors, IsAncestorTo, Moved, GoesAlong, LeftBehind;
    MovedIff(c, w, sibling, x);
    MovedIff(c, w, sibling, y);
    NotAlong(c, w, sibling);
    if Under(c, w, y) {
      ClimbMiss(c, w, sibling, y);
    } else if x in StackAncestors(c, w, sibling) {
      AncestorsMiss(c, w, sibling, x, y);
    } else if x != w {
      NothingUnderNone(c, x);
      MissedAround(c, w, NONE, sibling, x, y);
    }
  }

  /** Where a window of a spliced stack is found. */
  lemma SplicedIndex(rest: seq<Window>, sibling: Window, block: seq<Window>, x: Window)
    requires Distinct(rest) && Distinct(block) && sibling in rest && forall y :: y in block ==> y !in rest
    requires x in rest || x in block
    ensures var k, r := IndexOf(rest, sibling) + 1, Spliced(rest, sibling, block);
            && Distinct(r) && x in r
            && IndexOf(r, x) == if x in block then k + IndexOf(block, x)
                                else if IndexOf(rest, x) < k then IndexOf(rest, x)
                                else IndexOf(rest, x) + |block|
  {
    hide IndexOf;
    SplicedDistinct(rest, sibling, block);
    var k, r := IndexOf(rest, sibling) + 1, Spliced(rest, sibling, block);
    var i := if x in block then k + IndexOf(block, x)
             else if IndexOf(rest, x) < k then IndexOf(rest, x)
             else IndexOf(rest, x) + |block|;
    assert r[i] == x;
  }

  /** In which order two windows stand once a block has been taken out and put above `sibling`. */
  lemma SplicedOrder(stack: seq<Window>, sibling: Window, block: seq<Window>, x: Window, y: Window)
    requires Distinct(stack) && Distinct(block) && sibling in stack && sibling !in block
    requires (forall z :: z in block ==> z in stack) && x in stack && y in stack && x != y
    ensures var r := Spliced(Without(stack, Elements(block)), sibling, block);
            && x in r && y in r
            && (IndexOf(r, x) < IndexOf(r, y) <==>
                  if x in block && y in block then IndexOf(block, x) < IndexOf(block, y)
                  else if x in block then IndexOf(stack, sibling) < IndexOf(stack, y)
                  else if y in block then IndexOf(stack, x) <= IndexOf(stack, sibling)
                  else IndexOf(stack, x) < IndexOf(stack, y))
  {
    hide IndexOf, Spliced, Distinct;
    var moved := Elements(block);
    WithoutDistinct(stack, moved);
    SplicedIndex(Without(stack, moved), sibling, block, x);
    SplicedIndex(Without(stack, moved), sibling, block, y);
    StillInOrder(stack, moved, x, y);
    StillInOrder(stack, moved, x, sibling);
    StillInOrder(stack, moved, sibling, y);
  }

  lemma StillInOrder(stack: seq<Window>, moved: set<Window>, x: Window, y: Window)
    requires x in stack && y in stack
    ensures x !in moved && y !in moved ==>
              (IndexOf(Without(stack, moved), x) < IndexOf(Without(stack, moved), y)
               <==> IndexOf(stack, x) < IndexOf(stack, y))
  {
    if x !in moved && y !in moved && x != y {
      if IndexOf(stack, x) < IndexOf(stack, y) {
        WithoutKeepsOrder(stack, moved, x, y);
      } else {
        assert stack[IndexOf(stack, x)] == x && stack[IndexOf(stack, y)] == y;
        WithoutKeepsOrder(stack, moved, y, x);
      }
    }
  }

  /** The order of a stack without repetition, told by the places of its windows. */
  lemma ShownByIndex(c: Scene, stack: seq<Window>)
    requires c.Valid() && Distinct(stack)
    ensures ShownBelow(c, stack) <==>
              forall x, y :: x in stack && y in stack && Shown(c, x) && Shown(c, y) && Under(c, x, y) ==>
                               IndexOf(stack, y) < IndexOf(stack, x)
  {
    hide Under, Shown;
    if forall x, y :: x in stack && y in stack && Shown(c, x) && Shown(c, y) && Under(c, x, y) ==>
                        IndexOf(stack, y) < IndexOf(stack, x) {
      forall i, j | 0 <= i < |stack| && 0 <= j < |stack| && Shown(c, stack[i]) && Shown(c, stack[j])
                    && Under(c, stack[i], stack[j])
        ensures j < i
      {
        assert IndexOf(stack, stack[j]) < IndexOf(stack, stack[i]);
      }
    }
  }

  /** The places that the windows of a block have to avoid when it goes above `sibling`: nothing that one of
      them is under may be above, nothing that is under one of them may be at the sibling or below. */
  ghost predicate FitsAbove(c: Scene, stack: seq<Window>, sibling: Window, block: seq<Window>)
    requires c.Valid() && sibling in stack && forall x :: x in c.wins ==> x in stack
  {
    forall x, y :: Shown(c, x) && Shown(c, y) && Under(c, x, y) && (x in block) != (y in block) ==>
                     if x in block then IndexOf(stack, y) <= IndexOf(stack, sibling)
                     else IndexOf(stack, sibling) < IndexOf(stack, x)
  }

  lemma SplicedShownIff(c: Scene, stack: seq<Window>, sibling: Window, block: seq<Window>)
    requires c.Valid() && Distinct(stack) && (forall x :: x in c.wins ==> x in stack)
    requires ShownBelow(c, stack) && ShownBelow(c, block) && Distinct(block)
    requires sibling in stack && sibling !in block && forall x :: x in block ==> x in stack
    ensures ShownBelow(c, Spliced(Without(stack, Elements(block)), sibling, block)) <==>
              FitsAbove(c, stack, sibling, block)
  {
    hide Under, Shown, Spliced, IndexOf, Distinct, ShownBelow, Without;
    var r := Spliced(Without(stack, Elements(block)), sibling, block);
    SplicedSame(stack, sibling, block);
    ShownByIndex(c, stack);
    ShownByIndex(c, block);
    ShownByIndex(c, r);
    forall x, y | Shown(c, x) && Shown(c, y) && Under(c, x, y)
      ensures x in stack && y in stack && x in r && y in r
      ensures IndexOf(r, y) < IndexOf(r, x) <==>
                if (x in block) == (y in block) then true
                else if x in block then IndexOf(stack, y) <= IndexOf(stack, sibling)
                else IndexOf(stack, sibling) < IndexOf(stack, x)
    {
      ShownIsListed(c, x);
      ShownIsListed(c, y);
      NotUnderSelf(c, x);
      SplicedOrder(stack, sibling, block, y, x);
    }
  }

  lemma SplicedSame(stack: seq<Window>, sibling: Window, block: seq<Window>)
    requires Distinct(stack) && Distinct(block) && sibling in stack && sibling !in block
    requires forall x :: x in block ==> x in stack
    ensures var r := Spliced(Without(stack, Elements(block)), sibling, block);
            Distinct(r) && forall x :: x in r <==> x in stack
  {
    WithoutDistinct(stack, Elements(block));
    SplicedDistinct(Without(stack, Elements(block)), sibling, block);
  }

  /** No window that can be restacked, and that the sibling is transient for, is above it. */
  ghost predicate Settled(c: Scene, sibling: Window)
    requires c.Valid() && sibling in c.wins
  {
    forall y :: Shown(c, y) && Under(c, sibling, y) ==> IndexOf(c.stack, y) <= IndexOf(c.stack, sibling)
  }

  lemma ShownIsListed(c: Scene, x: Window)
    requires c.Valid() && Shown(c, x)
    ensures x in c.wins && x in c.stack
  {
  }

  /** A window that can be restacked is settled. */
  lemma ShownSettled(c: Scene, sibling: Window)
    requires c.Valid() && ShownBelow(c, c.stack) && Shown(c, sibling)
    ensures Settled(c, sibling)
  {
    forall y | Shown(c, y) && Under(c, sibling, y)
      ensures IndexOf(c.stack, y) <= IndexOf(c.stack, sibling)
    {
      assert c.stack[IndexOf(c.stack, y)] == y && c.stack[IndexOf(c.stack, sibling)] == sibling;
    }
  }

  /** Putting a window above one that is settled brings no window that can be restacked below one that it is
      transient for, at any depth and with any groups that do not clash, unless the climb leaves a window behind
      above the sibling. */
  lemma RestackKeepsShownBelow(c: Scene, w: Window, sibling: Window)
    requires c.Valid() && w in c.wins && sibling in c.wins && Settled(c, sibling) && w != sibling
    requires ShownBelow(c, c.stack) && !Clash(c, w, sibling) && NoneLeftAbove(c, w, sibling)
    ensures ShownBelow(c, Restack(c, w, sibling))
  {
    hide Under, Shown, IndexOf, Moved, StackTransients, LeftBehind, GoesAlong, Clash;
    WalkEndsIff(c, w, sibling);
    if !GoesAlong(c, sibling, w) {
      var block := Moved(c, w, sibling);
      GroupMovesBlock(c, w, sibling);
      forall x, y | Shown(c, x) && Shown(c, y) && Under(c, x, y) && (x in block) != (y in block)
        ensures x in block && y in c.stack && IndexOf(c.stack, y) <= IndexOf(c.stack, sibling)
      {
        ShownIsListed(c, y);
        if y in block {
          BlockClosed(c, w, sibling, x, y);
        } else {
          BlockMiss(c, w, sibling, x, y);
        }
      }
      SplicedShownIff(c, c.stack, sibling, block);
    }
  }

  /** For a window that can be restacked this is exact. */
  lemma RestackKeepsShownIff(c: Scene, w: Window, sibling: Window)
    requires c.Valid() && Shown(c, w) && sibling in c.wins && Settled(c, sibling) && w != sibling
    requires ShownBelow(c, c.stack) && !Clash(c, w, sibling)
    ensures ShownBelow(c, Restack(c, w, sibling)) <==> GoesAlong(c, sibling, w) || NoneLeftAbove(c, w, sibling)
  {
    hide Under, Shown, IndexOf, Moved, StackTransients, LeftBehind, Restack, Spliced, GoesAlong, Clash;
    ShownIsListed(c, w);
    if GoesAlong(c, sibling, w) {
      RestackNothing(c, w, sibling);
    } else if NoneLeftAbove(c, w, sibling) {
      RestackKeepsShownBelow(c, w, sibling);
    } else {
      var z :| Shown(c, z) && z in c.stack && LeftBehind(c, w, sibling, z)
               && IndexOf(c.stack, z) > IndexOf(c.stack, sibling);
      var u := LeftOutOfBlock(c, w, sibling, z);
      GroupMovesBlock(c, w, sibling);
      SplicedShownIff(c, c.stack, sibling, Moved(c, w, sibling));
    }
  }

  /** A restack above a window that goes along does nothing. */
  lemma RestackNothing(c: Scene, w: Window, sibling: Window)
    requires c.Valid() && w in c.wins && GoesAlong(c, sibling, w)
    ensures Restack(c, w, sibling) == c.stack
  {
    WalkEndsIff(c, w, sibling);
  }

  /** A window that is left behind does not move, but one that is transient for it does. */
  lemma LeftOutOfBlock(c: Scene, w: Window, sibling: Window, z: Window) returns (u: Window)
    requires c.Valid() && Shown(c, w) && w != sibling && !GoesAlong(c, sibling, w)
    requires Shown(c, z) && LeftBehind(c, w, sibling, z)
    ensures z !in Moved(c, w, sibling) && u in Moved(c, w, sibling) && Under(c, u, z) && Shown(c, u)
  {
    hide StackTransients, StackAncestors, IsAncestorTo, Moved, GoesAlong, LeftBehind;
    NotAlong(c, w, sibling);
    LeftBehindAbove(c, w, sibling, z);
    NotUnderSelf(c, w);
    NotAmong(c, w, NONE, sibling, z);
    MovedIff(c, w, sibling, z);
    if Under(c, w, z) {
      u := w;
    } else {
      u :| u in StackAncestors(c, w, sibling) && Under(c, u, z);
      AncestorShown(c, w, sibling, u);
    }
    MovedIff(c, w, sibling, u);
  }

  const DOCK := NO_PROPS.(wtype := Dock, mapNum := 1)
  const WINDOW := NO_PROPS.(wtype := Normal, mapNum := 1)

  /** A dock and its dialog on top of another window. */
  const DOCKED := Scene(map[10 := WINDOW, 11 := DOCK, 12 := WINDOW.(transientFor := 11)], 1, [10, 11, 12])

  /** A dialog put above a lower window leaves its dock behind, above itself. */
  lemma DialogCanGetBelowDock()
    ensures exists c: Scene, w, sibling ::
              && c.Valid() && NoGroups(c) && Shown(c, w) && Shown(c, sibling) && w != sibling
              && ShownBelow(c, c.stack) && !ShownBelow(c, Restack(c, w, sibling))
  {
    var c := DOCKED;
    DockedOrdered();
    DockedLeft();
    ShownSettled(c, 10);
    RestackKeepsShownIff(c, 12, 10);
  }

  lemma DockedOrdered()
    ensures DOCKED.Valid() && NoGroups(DOCKED) && ShownBelow(DOCKED, DOCKED.stack)
    ensures Shown(DOCKED, 10) && Shown(DOCKED, 11) && Shown(DOCKED, 12)
  {
    DockedValid();
    hide Scene.Valid, Under;
    forall i, j | 0 <= i < 3 && 0 <= j < 3 && Under(DOCKED, DOCKED.stack[i], DOCKED.stack[j])
      ensures j < i
    {
      OneDialog(DOCKED.stack[i], DOCKED.stack[j]);
    }
  }

  lemma DockedValid()
    ensures DOCKED.Valid()
  {
    hide Acyclic, Scene.Links;
    DockedAcyclic();
  }

  lemma DockedAcyclic()
    ensures Acyclic(DOCKED.Links())
  {
    assert Ranked(DOCKED.Links(), (x: Window) => x);
  }

  lemma OneDialog(x: Window, y: Window)
    requires DOCKED.Valid() && Under(DOCKED, x, y)
    ensures x == 12 && y == 11
  {
    UnderStep(DOCKED, x, y);
  }

  lemma DockedLeft()
    requires DOCKED.Valid() && Shown(DOCKED, 11)
    ensures !NoneLeftAbove(DOCKED, 12, 10)
  {
    assert LeftBehind(DOCKED, 12, 10, 11);
    assert IndexOf(DOCKED.stack, 11) == 1 && IndexOf(DOCKED.stack, 10) == 0;
  }
}
