/** In which order the walks of a restack collect windows, and which ones they leave behind, with any groups. */
module WalkOrder {
  import opened Sequences
  import opened TransientForest
  import opened Windows
  import opened Stacking
  import opened RestackProofs
  import opened GroupWalks
  import opened GroupClashes

  /** A listed window that can be restacked. */
  ghost predicate Shown(c: Scene, x: Window) {
    x in c.wins && Restackable(c, x)
  }

  /** Every walk over what goes along puts a window on its list after all windows that are under it, also one
      that is transient for a group. */
  lemma {:induction false} CollectsOrdered(c: Scene, w: Window, avoid: Window, sibling: Window, k: nat)
    requires c.Valid() && w in c.wins && k <= |c.stack|
    ensures DescendantsFirst(c, TransientsBelow(c, w, avoid, sibling, k).list)
    decreases GroupOf(c, w) != NONE, Levels(c, w), k
  {
    hide Follows, Under, Within, DescendantsFirst;
    if k == 0 {
      NoneOrdered(c);
    } else {
      var t := c.stack[k - 1];
      CollectsOrdered(c, w, avoid, sibling, k - 1);
      if t != w && t != avoid && Follows(c, t, w) {
        Deeper(c, t, w);
        CollectsOrdered(c, t, avoid, sibling, |c.stack|);
        FollowerOrdered(c, w, avoid, sibling, k);
      }
    }
  }

  lemma WalkOrdered(c: Scene, w: Window, avoid: Window, sibling: Window)
    requires c.Valid() && w in c.wins
    ensures DescendantsFirst(c, StackTransients(c, w, avoid, sibling).list)
  {
    CollectsOrdered(c, w, avoid, sibling, |c.stack|);
  }

  lemma NoneOrdered(c: Scene)
    requires c.Valid()
    ensures DescendantsFirst(c, [])
  {
  }

  lemma FollowerOrdered(c: Scene, w: Window, avoid: Window, sibling: Window, k: nat)
    requires c.Valid() && w in c.wins && 0 < k <= |c.stack|
    requires c.stack[k - 1] != w && c.stack[k - 1] != avoid && Follows(c, c.stack[k - 1], w)
    requires DescendantsFirst(c, TransientsBelow(c, w, avoid, sibling, k - 1).list)
    requires DescendantsFirst(c, StackTransients(c, c.stack[k - 1], avoid, sibling).list)
    ensures DescendantsFirst(c, TransientsBelow(c, w, avoid, sibling, k).list)
  {
    hide Follows, IsAncestorTo, DescendantsFirst, TransientsBelow;
    var t := c.stack[k - 1];
    var above, rest := StackTransients(c, t, avoid, sibling), TransientsBelow(c, w, avoid, sibling, k - 1);
    var first := above.list + (if Restackable(c, t) then [t] else []);
    WalkAt(c, w, avoid, sibling, k);
    CollectedOnce(c, t, avoid, sibling);
    forall x | x in above.list
      ensures Under(c, x, t)
    {
      Deeper(c, t, w);
      AroundUnder(c, t, avoid, sibling, x);
    }
    SubtreeOrdered(c, t, above.list);
    assert above.list + [] == above.list;
    forall x, y | x in first && y in rest.list
      ensures !Under(c, y, x)
    {
      CollectedBelow(c, w, avoid, sibling, k, y);
      Collects(c, w, avoid, sibling, k - 1, y);
      OutsideSubtree(c, x, y, t);
    }
    DescendantsFirstConcat(c, first, rest.list);
  }

  /** What the walk puts on its list for the window at index `k - 1`. */
  lemma WalkAt(c: Scene, w: Window, avoid: Window, sibling: Window, k: nat)
    requires c.Valid() && w in c.wins && 0 < k <= |c.stack|
    requires c.stack[k - 1] != w && c.stack[k - 1] != avoid && Follows(c, c.stack[k - 1], w)
    ensures var t := c.stack[k - 1];
            var above, rest := StackTransients(c, t, avoid, sibling), TransientsBelow(c, w, avoid, sibling, k - 1);
            TransientsBelow(c, w, avoid, sibling, k)
            == if !above.ok || t == sibling then Collected(false, above.list)
               else Collected(rest.ok, above.list + (if Restackable(c, t) then [t] else []) + rest.list)
  {
    hide Follows, Restackable, StackTransients;
  }

  /** In this list `x` comes before `y` does for the first time. */
  ghost predicate Precedes(list: seq<Window>, x: Window, y: Window) {
    y in list && exists i :: 0 <= i < |list| && list[i] == x && y !in list[..i + 1]
  }

  lemma PrecedesConcat(a: seq<Window>, b: seq<Window>, x: Window, y: Window)
    requires y !in a && ((x in a && y in b) || Precedes(b, x, y))
    ensures Precedes(a + b, x, y)
  {
    var l := a + b;
    if x in a && y in b {
      var i :| 0 <= i < |a| && a[i] == x;
      assert l[i] == x && l[..i + 1] == a[..i + 1];
    } else {
      var i :| 0 <= i < |b| && b[i] == x && y !in b[..i + 1];
      assert l[|a| + i] == x && l[..|a| + i + 1] == a + b[..i + 1];
    }
  }

  /** What goes along through a window that is higher in the stack is collected before what goes along through a
      lower one. */
  lemma {:induction false} CollectsInOrder(c: Scene, w: Window, avoid: Window, sibling: Window, k: nat,
                                           x: Window, i: nat, y: Window, j: nat)
    requires c.Valid() && w in c.wins && j < i < k <= |c.stack|
    requires Via(c, w, avoid, x, i) && Via(c, w, avoid, y, j)
    requires x in TransientsBelow(c, w, avoid, sibling, k).list && y in TransientsBelow(c, w, avoid, sibling, k).list
    ensures Precedes(TransientsBelow(c, w, avoid, sibling, k).list, x, y)
    decreases k
  {
    hide Follows, IsAncestorTo, Precedes, Restackable, StackTransients;
    var t := c.stack[k - 1];
    if t == w || t == avoid || !Follows(c, t, w) {
      CollectsInOrder(c, w, avoid, sibling, k - 1, x, i, y, j);
    } else {
      WalkAt(c, w, avoid, sibling, k);
      FollowersApart(c, w, c.stack[j], t, y);
      FollowedBy(c, w, avoid, sibling, t, y);
      var first := StackTransients(c, t, avoid, sibling).list + (if Restackable(c, t) then [t] else []);
      var rest := TransientsBelow(c, w, avoid, sibling, k - 1).list;
      if i == k - 1 {
        if x in rest {
          CollectedBelow(c, w, avoid, sibling, k, x);
        }
      } else {
        FollowersApart(c, w, c.stack[i], t, x);
        FollowedBy(c, w, avoid, sibling, t, x);
        CollectsInOrder(c, w, avoid, sibling, k - 1, x, i, y, j);
      }
      PrecedesConcat(first, rest, x, y);
    }
  }

  /** What is not in the subtree of a window that goes along is not collected around it. */
  lemma FollowedBy(c: Scene, w: Window, avoid: Window, sibling: Window, t: Window, y: Window)
    requires c.Valid() && w in c.wins && t in c.wins && Follows(c, t, w) && !Within(c, y, t)
    ensures y !in StackTransients(c, t, avoid, sibling).list && y != t
  {
    hide IsAncestorTo;
    if y in StackTransients(c, t, avoid, sibling).list {
      Deeper(c, t, w);
      AroundUnder(c, t, avoid, sibling, y);
    }
  }

  /** A walk that comes to its end has collected every window that can be restacked, however many levels
      down, outside the subtree that it avoids. */
  lemma TransientsReach(c: Scene, w: Window, avoid: Window, sibling: Window, x: Window)
    requires c.Valid() && w in c.wins && StackTransients(c, w, avoid, sibling).ok
    requires Shown(c, x) && Under(c, x, w) && !Within(c, x, avoid)
    ensures x in StackTransients(c, w, avoid, sibling).list
  {
    var i := TowardChild(c, x, w);
    ParentRank(c, c.stack[i]);
    CollectsAll(c, w, avoid, sibling, |c.stack|, i, x);
  }

  /** With a window all goes along that is under it and can be restacked, whether or not the walk comes to
      its end. */
  lemma {:induction false} TransientsClosed(c: Scene, w: Window, avoid: Window, sibling: Window, k: nat,
                                            x: Window, y: Window)
    requires c.Valid() && w in c.wins && k <= |c.stack|
    requires y in TransientsBelow(c, w, avoid, sibling, k).list
    requires Shown(c, x) && Under(c, x, y) && !Within(c, x, avoid)
    ensures x in TransientsBelow(c, w, avoid, sibling, k).list
    decreases GroupOf(c, w) != NONE, Levels(c, w), k
  {
    var t := c.stack[k - 1];
    if t == w || t == avoid || !Follows(c, t, w) {
      TransientsClosed(c, w, avoid, sibling, k - 1, x, y);
    } else {
      Deeper(c, t, w);
      if y in StackTransients(c, t, avoid, sibling).list {
        TransientsClosed(c, t, avoid, sibling, |c.stack|, x, y);
      } else if y == t {
        TransientsReach(c, t, avoid, sibling, x);
      } else {
        TransientsClosed(c, w, avoid, sibling, k - 1, x, y);
      }
    }
  }

  lemma WalkClosed(c: Scene, w: Window, avoid: Window, sibling: Window, x: Window, y: Window)
    requires c.Valid() && w in c.wins && y in StackTransients(c, w, avoid, sibling).list
    requires Shown(c, x) && Under(c, x, y) && !Within(c, x, avoid)
    ensures x in StackTransients(c, w, avoid, sibling).list
  {
    TransientsClosed(c, w, avoid, sibling, |c.stack|, x, y);
  }

  /** Through which window something has been collected. */
  lemma CollectedVia(c: Scene, w: Window, avoid: Window, sibling: Window, x: Window) returns (i: nat)
    requires c.Valid() && w in c.wins && x in StackTransients(c, w, avoid, sibling).list
    ensures i < |c.stack| && Via(c, w, avoid, x, i) && Shown(c, x)
  {
    Collects(c, w, avoid, sibling, |c.stack|, x);
    i :| 0 <= i < |c.stack| && Via(c, w, avoid, x, i);
  }

  /** What a window is under that goes along with `w`: `w`, or what `w` is under. */
  lemma AboveFollower(c: Scene, w: Window, t: Window, y: Window)
    requires c.Valid() && w in c.wins && t in c.wins && y in c.wins && Follows(c, t, w) && Under(c, t, y)
    ensures y == w || Under(c, w, y)
  {
    UnderStep(c, t, y);
    UnderStep(c, c.wins[t].transientFor, y);
  }

  lemma FollowersNotAbove(c: Scene, w: Window, t: Window, u: Window, y: Window)
    requires c.Valid() && w in c.wins && t in c.wins && u in c.wins && t != w && u != w
    requires Follows(c, t, w) && Follows(c, u, w) && Within(c, y, u)
    ensures !Under(c, t, y)
  {
    if Under(c, t, y) {
      if t == u {
        UnderRank(c, t, y);
        if y != t {
          UnderRank(c, y, t);
        }
      } else {
        if y != u {
          UnderTransitive(c, t, y, u);
        }
        FollowersApart(c, w, t, u, t);
      }
    }
  }

  /** Where the walk around a window without a group fails, the sibling is under that window. */
  lemma FailsUnder(c: Scene, t: Window, avoid: Window, sibling: Window)
    requires c.Valid() && t in c.wins && GroupOf(c, t) == NONE && !StackTransients(c, t, avoid, sibling).ok
    ensures Under(c, sibling, t)
  {
    WalkFails(c, t, avoid, sibling, |c.stack|);
    var i :| 0 <= i < |c.stack| && Via(c, t, avoid, sibling, i);
    UnderChild(c, sibling, c.stack[i], t);
  }

  /** The walk leaves out a window between a collected one and the window that it goes along with only where it
      fails at the sibling. */
  lemma {:induction false} TransientsMiss(c: Scene, w: Window, avoid: Window, sibling: Window, k: nat,
                                          x: Window, y: Window, i: nat)
    requires c.Valid() && w in c.wins && k <= |c.stack| && i < |c.stack|
    requires x in TransientsBelow(c, w, avoid, sibling, k).list && !Within(c, x, avoid)
    requires Shown(c, y) && Under(c, x, y) && Via(c, w, avoid, y, i)
    requires y !in TransientsBelow(c, w, avoid, sibling, k).list
    ensures Within(c, sibling, y)
    decreases GroupOf(c, w) != NONE, Levels(c, w), k
  {
    hide Restackable, IsAncestorTo;
    var t := c.stack[k - 1];
    if t == w || t == avoid || !Follows(c, t, w) {
      TransientsMiss(c, w, avoid, sibling, k - 1, x, y, i);
    } else {
      Deeper(c, t, w);
      FollowersNotAbove(c, w, t, c.stack[i], y);
      WalkAt(c, w, avoid, sibling, k);
      if x in StackTransients(c, t, avoid, sibling).list {
        AroundUnder(c, t, avoid, sibling, x);
        OneChain(c, x, y, t);
        if y == t {
          if !StackTransients(c, t, avoid, sibling).ok {
            FailsUnder(c, t, avoid, sibling);
          }
        } else {
          var j := BetweenVia(c, t, avoid, x, y);
          TransientsMiss(c, t, avoid, sibling, |c.stack|, x, y, j);
        }
      } else if x != t {
        TransientsMiss(c, w, avoid, sibling, k - 1, x, y, i);
      }
    }
  }

  lemma BetweenVia(c: Scene, t: Window, avoid: Window, x: Window, y: Window) returns (j: nat)
    requires c.Valid() && t in c.wins && Under(c, x, y) && Under(c, y, t) && !Within(c, x, avoid)
    ensures j < |c.stack| && Via(c, t, avoid, y, j)
  {
    j := TowardChild(c, y, t);
    ParentRank(c, c.stack[j]);
    if c.stack[j] == avoid && y != avoid {
      UnderTransitive(c, x, y, avoid);
    }
  }

  /** The sibling goes along with `a`, other than through `w`. */
  ghost predicate MeetsBeside(c: Scene, a: Window, w: Window, sibling: Window)
    requires c.Valid() && a in c.wins
  {
    exists t :: t in c.wins && t != a && t != w && Follows(c, t, a) && Within(c, sibling, t)
  }

  /** The walk around `a` that leaves `w` out comes to its end if and only if it does not meet the sibling. */
  lemma WalkEndsBesideIff(c: Scene, a: Window, w: Window, sibling: Window)
    requires c.Valid() && a in c.wins && w in c.wins && !Within(c, sibling, w)
    ensures StackTransients(c, a, w, sibling).ok <==> !MeetsBeside(c, a, w, sibling)
  {
    if MeetsBeside(c, a, w, sibling) {
      var t :| t in c.wins && t != a && t != w && Follows(c, t, a) && Within(c, sibling, t);
      WalkMeets(c, a, w, sibling, |c.stack|, IndexOf(c.stack, t));
    }
    if !StackTransients(c, a, w, sibling).ok {
      WalkFails(c, a, w, sibling, |c.stack|);
      var i :| 0 <= i < |c.stack| && Via(c, a, w, sibling, i);
      assert c.stack[i] in c.wins;
    }
  }

  /** Beyond `a` a climb that has not met the sibling does not come from it. */
  lemma NotFromSibling(c: Scene, a: Window, w: Window, sibling: Window)
    requires c.Valid() && a in c.wins && w in c.wins && !Within(c, sibling, w)
    requires a != sibling && !MeetsBeside(c, a, w, sibling)
    ensures !Within(c, sibling, a)
  {
    if Under(c, sibling, a) {
      var j := TowardChild(c, sibling, a);
      ParentRank(c, c.stack[j]);
      assert c.stack[j] in c.wins && Follows(c, c.stack[j], a);
    }
  }

  /** Whether the climb from `w` stops at its parent `a`: at a desktop window, or at a dock that it comes to
      from a window that is none. */
  predicate ClimbStops(c: Scene, w: Window, a: Window)
    requires w in c.wins && a in c.wins
  {
    c.wins[a].wtype == Desktop || (c.wins[a].wtype == Dock && c.wins[w].wtype != Dock)
  }

  /** Of the group of `x`, `z` is a main window below index `k` that is not put on the list though a window under
      it is: a desktop window, a dock, or one whose walk meets the sibling. */
  ghost predicate GroupLeft(c: Scene, x: Window, sibling: Window, k: nat, z: Window)
    requires c.Valid() && x in c.wins && k <= |c.stack|
  {
    k > 0 &&
    var a := c.stack[k - 1];
    if !IsMain(c, a, x) then GroupLeft(c, x, sibling, k - 1, z)
    else
      && a != sibling
      && ((z == a && (MeetsBeside(c, a, x, sibling) || ClimbStops(c, x, a)) && TakesAny(c, a, x, sibling))
          || (!MeetsBeside(c, a, x, sibling) && (c.wins[a].wtype == Desktop || !ClimbStops(c, x, a))
              && GroupLeft(c, x, sibling, k - 1, z)))
  }

  /** A window under `a` is collected. */
  ghost predicate TakesAny(c: Scene, a: Window, x: Window, sibling: Window)
    requires c.Valid() && a in c.wins
  {
    exists u :: u in StackTransients(c, a, x, sibling).list && Under(c, u, a)
  }

  /** `z` is where the climb from `w` stops, or further up, or a main window left behind where it comes to a
      window that is transient for a group. */
  ghost predicate LeftBehind(c: Scene, w: Window, sibling: Window, z: Window)
    requires c.Valid() && w in c.wins
    decreases RankOf(c.Links())(w)
  {
    var a := c.wins[w].transientFor;
    if a in c.wins then
      && a != sibling
      && if ClimbStops(c, w, a) || MeetsBeside(c, a, w, sibling) then Within(c, a, z)
         else
           assert c.Links()[w] == a;
           a != z && LeftBehind(c, a, sibling, z)
    else IsGroupTransient(c.wins[w], c.wins[w].clientLeader, c.root) && GroupLeft(c, w, sibling, |c.stack|, z)
  }

  /** How the list of the ancestors begins. */
  lemma ClimbAt(c: Scene, w: Window, sibling: Window)
    requires c.Valid() && w in c.wins && c.wins[w].transientFor in c.wins && !Within(c, sibling, w)
    ensures var a := c.wins[w].transientFor;
            var others := StackTransients(c, a, w, sibling).list;
            StackAncestors(c, w, sibling)
            == if a == sibling then []
               else if ClimbStops(c, w, a) || MeetsBeside(c, a, w, sibling) then others
               else others + (if Restackable(c, a) then [a] else []) + StackAncestors(c, a, sibling)
  {
    hide StackTransients, MeetsBeside, Restackable, GroupAncestors;
    WalkEndsBesideIff(c, c.wins[w].transientFor, w, sibling);
  }

  lemma GroupAt(c: Scene, x: Window, sibling: Window, k: nat)
    requires c.Valid() && x in c.wins && 0 < k <= |c.stack| && !Within(c, sibling, x)
    ensures var a, rest := c.stack[k - 1], GroupAncestors(c, x, sibling, k - 1);
            var others := StackTransients(c, a, x, sibling).list;
            GroupAncestors(c, x, sibling, k)
            == if !IsMain(c, a, x) then rest
               else if a == sibling then []
               else if MeetsBeside(c, a, x, sibling) then others
               else if c.wins[a].wtype == Desktop then others + rest
               else if ClimbStops(c, x, a) then others
               else others + (if Restackable(c, a) then [a] else []) + rest
  {
    hide StackTransients, MeetsBeside, Restackable, IsGroupTransient;
    WalkEndsBesideIff(c, c.stack[k - 1], x, sibling);
  }

  /** Nothing that is collected for `a` is above it in the forest, or is `a`. */
  lemma CollectedNotAbove(c: Scene, a: Window, avoid: Window, sibling: Window, u: Window)
    requires c.Valid() && a in c.wins && u in StackTransients(c, a, avoid, sibling).list
    ensures u in c.wins && !Within(c, a, u)
  {
    var i := CollectedVia(c, a, avoid, sibling, u);
    FollowerNotAbove(c, a, c.stack[i]);
    if Under(c, a, u) && u != c.stack[i] {
      UnderTransitive(c, a, u, c.stack[i]);
    }
  }

  /** What the lists for the ancestors hold can be restacked, and is not in the subtree that the climb comes
      from. */
  lemma {:induction false} GroupShown(c: Scene, x: Window, sibling: Window, k: nat, z: Window)
    requires c.Valid() && x in c.wins && k <= |c.stack| && z in GroupAncestors(c, x, sibling, k)
    ensures Shown(c, z)
    decreases k
  {
    hide StackTransients, IsGroupTransient, Restackable;
    var a := c.stack[k - 1];
    if z in StackTransients(c, a, x, sibling).list {
      var i := CollectedVia(c, a, x, sibling, z);
    } else if z != a {
      GroupShown(c, x, sibling, k - 1, z);
    } else if !(IsMain(c, a, x) && Restackable(c, a)) {
      GroupShown(c, x, sibling, k - 1, z);
    }
  }

  lemma {:induction false} AncestorShown(c: Scene, w: Window, sibling: Window, z: Window)
    requires c.Valid() && w in c.wins && z in StackAncestors(c, w, sibling)
    ensures Shown(c, z)
    decreases RankOf(c.Links())(w)
  {
    hide StackTransients, IsGroupTransient, GroupAncestors;
    var a := c.wins[w].transientFor;
    if a in c.wins && a != sibling {
      ParentRank(c, w);
      if z in StackTransients(c, a, w, sibling).list {
        var i := CollectedVia(c, a, w, sibling, z);
      } else if z in StackAncestors(c, a, sibling) {
        AncestorShown(c, a, sibling, z);
      }
    } else {
      GroupShown(c, w, sibling, |c.stack|, z);
    }
  }

  /** In a list that may repeat windows, whatever is under a window has occurred before it does. */
  ghost predicate DescendantsBefore(c: Scene, list: seq<Window>)
    requires c.Valid()
  {
    forall x, j | 0 <= j < |list| && x in list :: Under(c, x, list[j]) ==> x in list[..j]
  }

  lemma BeforeConcat(c: Scene, a: seq<Window>, b: seq<Window>)
    requires c.Valid() && DescendantsBefore(c, a) && DescendantsBefore(c, b)
    requires forall x, y :: x in a && y in b && y !in a ==> !Under(c, y, x)
    ensures DescendantsBefore(c, a + b)
  {
    hide Under;
    var l := a + b;
    forall x, j | 0 <= j < |l| && x in l && Under(c, x, l[j])
      ensures x in l[..j]
    {
      if j < |a| {
        assert l[..j] == a[..j] && l[j] in a;
      } else {
        assert l[..j] == a + b[..j - |a|] && l[j] == b[j - |a|];
      }
    }
  }

  lemma OrderedBefore(c: Scene, list: seq<Window>)
    requires c.Valid() && DescendantsFirst(c, list)
    ensures DescendantsBefore(c, list)
  {
    hide Under;
    forall x, j | 0 <= j < |list| && x in list && Under(c, x, list[j])
      ensures x in list[..j]
    {
      var i :| 0 <= i < |list| && list[i] == x;
      assert i < j && list[..j][i] == x;
    }
  }

  /** The list for `a`, with `a` itself or without. */
  lemma OwnBefore(c: Scene, a: Window, avoid: Window, sibling: Window, own: seq<Window>)
    requires c.Valid() && a in c.wins && own <= [a]
    ensures DescendantsBefore(c, StackTransients(c, a, avoid, sibling).list + own)
  {
    hide Under, StackTransients;
    var list := StackTransients(c, a, avoid, sibling).list;
    WalkOrdered(c, a, avoid, sibling);
    OrderedBefore(c, list);
    forall x, y | x in list && y in own
      ensures !Under(c, y, x)
    {
      assert y == a;
      CollectedNotAbove(c, a, avoid, sibling, x);
    }
    NotUnderSelf(c, a);
    assert DescendantsBefore(c, own);
    BeforeConcat(c, list, own);
  }

  lemma NotUnderSelf(c: Scene, x: Window)
    requires c.Valid()
    ensures !Under(c, x, x)
  {
    if Under(c, x, x) {
      UnderRank(c, x, x);
    }
  }

  /** With a window on the list of the group of `x` all goes along that is under it and can be restacked. */
  lemma {:induction false} GroupClosed(c: Scene, x: Window, sibling: Window, k: nat, u: Window, y: Window)
    requires c.Valid() && x in c.wins && k <= |c.stack| && !Within(c, sibling, x)
    requires y in GroupAncestors(c, x, sibling, k) && Shown(c, u) && Under(c, u, y) && !Within(c, u, x)
    ensures u in GroupAncestors(c, x, sibling, k)
    decreases k
  {
    hide StackTransients, IsMain, Restackable, MeetsBeside, Under, IsGroupTransient;
    var a := c.stack[k - 1];
    GroupAt(c, x, sibling, k);
    if IsMain(c, a, x) && y in StackTransients(c, a, x, sibling).list {
      WalkClosed(c, a, x, sibling, u, y);
    } else if y in GroupAncestors(c, x, sibling, k - 1) {
      GroupClosed(c, x, sibling, k - 1, u, y);
    } else {
      WalkEndsBesideIff(c, a, x, sibling);
      TransientsReach(c, a, x, sibling, u);
    }
  }

  lemma {:induction false} AncestorsClosed(c: Scene, w: Window, sibling: Window, u: Window, y: Window)
    requires c.Valid() && w in c.wins && !Within(c, sibling, w)
    requires y in StackAncestors(c, w, sibling) && Shown(c, u) && Under(c, u, y) && !Within(c, u, w)
    ensures u in StackAncestors(c, w, sibling)
    decreases RankOf(c.Links())(w)
  {
    hide StackTransients, IsGroupTransient, Restackable, MeetsBeside, IsAncestorTo, GroupAncestors;
    var a := c.wins[w].transientFor;
    if a in c.wins {
      ParentRank(c, w);
      ClimbAt(c, w, sibling);
      if y in StackTransients(c, a, w, sibling).list {
        WalkClosed(c, a, w, sibling, u, y);
      } else {
        WalkEndsBesideIff(c, a, w, sibling);
        NotFromSibling(c, a, w, sibling);
        if Under(c, u, a) {
          TransientsReach(c, a, w, sibling, u);
        } else if u != a {
          AncestorsClosed(c, a, sibling, u, y);
        }
      }
    } else {
      GroupClosed(c, w, sibling, |c.stack|, u, y);
    }
  }

  /** The list of a group, with what is collected for each main window. */
  lemma {:induction false} GroupBefore(c: Scene, x: Window, sibling: Window, k: nat)
    requires c.Valid() && x in c.wins && k <= |c.stack| && !Within(c, sibling, x)
    requires IsGroupTransient(c.wins[x], c.wins[x].clientLeader, c.root)
    ensures DescendantsBefore(c, GroupAncestors(c, x, sibling, k))
    decreases k
  {
    hide StackTransients, IsGroupTransient, IsMain, Restackable, MeetsBeside, Under, DescendantsBefore, ClimbStops;
    if k == 0 {
      NothingBefore(c);
    } else {
      var a := c.stack[k - 1];
      GroupBefore(c, x, sibling, k - 1);
      GroupAt(c, x, sibling, k);
      NothingBefore(c);
      if IsMain(c, a, x) {
        var others, rest := StackTransients(c, a, x, sibling).list, GroupAncestors(c, x, sibling, k - 1);
        var own := if c.wins[a].wtype == Desktop || !Restackable(c, a) then [] else [a];
        OwnBefore(c, a, x, sibling, []);
        assert others + [] == others;
        OwnBefore(c, a, x, sibling, own);
        if !MeetsBeside(c, a, x, sibling) {
          WalkEndsBesideIff(c, a, x, sibling);
          GroupRest(c, x, sibling, k, own);
          BeforeConcat(c, others + own, rest);
        }
      }
    }
  }

  lemma NothingBefore(c: Scene)
    requires c.Valid()
    ensures DescendantsBefore(c, [])
  {
  }

  /** What follows in the list of a group is not under what is collected for a main window. */
  lemma GroupRest(c: Scene, x: Window, sibling: Window, k: nat, own: seq<Window>)
    requires c.Valid() && x in c.wins && 0 < k <= |c.stack| && !Within(c, sibling, x)
    requires IsGroupTransient(c.wins[x], c.wins[x].clientLeader, c.root) && IsMain(c, c.stack[k - 1], x)
    requires own <= [c.stack[k - 1]]
    ensures var others := StackTransients(c, c.stack[k - 1], x, sibling);
            forall u, y :: (u in others.list + own && y in GroupAncestors(c, x, sibling, k - 1)
                            && y !in others.list + own && others.ok) ==> !Under(c, y, u)
  {
    hide StackTransients, IsGroupTransient, IsMain, GroupAncestors, Under;
    var a := c.stack[k - 1];
    var others := StackTransients(c, a, x, sibling);
    forall u, y | u in others.list + own && y in GroupAncestors(c, x, sibling, k - 1)
                  && y !in others.list + own && others.ok
      ensures !Under(c, y, u)
    {
      GroupShown(c, x, sibling, k - 1, y);
      GroupOutside(c, x, sibling, k - 1, y);
      if Under(c, y, u) {
        if u in others.list {
          WalkClosed(c, a, x, sibling, y, u);
        } else {
          TransientsReach(c, a, x, sibling, y);
        }
      }
    }
  }

  lemma GroupOutside(c: Scene, x: Window, sibling: Window, k: nat, y: Window)
    requires c.Valid() && x in c.wins && k <= |c.stack| && y in GroupAncestors(c, x, sibling, k)
    requires IsGroupTransient(c.wins[x], c.wins[x].clientLeader, c.root)
    ensures !Within(c, y, x)
  {
    hide StackTransients, IsGroupTransient, IsMain, GroupAncestors;
    var j := GroupFrom(c, x, sibling, k, y);
    MainFollowed(c, c.stack[j], x);
    if y != c.stack[j] {
      var i := CollectedNoMain(c, x, sibling, c.stack[j], y);
    }
  }

  /** Main windows are put on the list from the topmost down. */
  lemma {:induction false} MainsInOrder(c: Scene, x: Window, sibling: Window, k: nat, i: nat, j: nat)
    requires c.Valid() && x in c.wins && j < i < k <= |c.stack| && !Within(c, sibling, x)
    requires IsGroupTransient(c.wins[x], c.wins[x].clientLeader, c.root)
    requires IsMain(c, c.stack[i], x) && IsMain(c, c.stack[j], x)
    requires c.stack[i] in GroupAncestors(c, x, sibling, k) && c.stack[j] in GroupAncestors(c, x, sibling, k)
    ensures Precedes(GroupAncestors(c, x, sibling, k), c.stack[i], c.stack[j])
    decreases k
  {
    hide StackTransients, IsMain, Restackable, MeetsBeside, Precedes, IsGroupTransient, GroupAncestors, ClimbStops;
    var a := c.stack[k - 1];
    GroupAt(c, x, sibling, k);
    if !IsMain(c, a, x) {
      MainsInOrder(c, x, sibling, k - 1, i, j);
    } else {
      var others := StackTransients(c, a, x, sibling).list;
      var rest := GroupAncestors(c, x, sibling, k - 1);
      MainNotCollected(c, x, sibling, a, c.stack[i]);
      MainNotCollected(c, x, sibling, a, c.stack[j]);
      assert c.stack[j] != a;
      var own := if c.wins[a].wtype == Desktop || !Restackable(c, a) then [] else [a];
      if i == k - 1 {
        if a in rest {
          MainBelow(c, x, sibling, k, a);
        }
      } else {
        MainsInOrder(c, x, sibling, k - 1, i, j);
      }
      assert others + [] == others;
      PrecedesConcat(others + own, rest, c.stack[i], c.stack[j]);
    }
  }

  /** The list of the ancestors, whatever groups the climb comes to. */
  lemma {:induction false} AncestorsBefore(c: Scene, w: Window, sibling: Window)
    requires c.Valid() && w in c.wins && !Within(c, sibling, w)
    ensures DescendantsBefore(c, StackAncestors(c, w, sibling))
    decreases RankOf(c.Links())(w)
  {
    hide StackTransients, IsGroupTransient, Restackable, MeetsBeside, Under, DescendantsBefore, ClimbStops;
    hide GroupAncestors;
    NothingBefore(c);
    var a := c.wins[w].transientFor;
    if a in c.wins {
      ParentRank(c, w);
      ClimbAt(c, w, sibling);
      var others := StackTransients(c, a, w, sibling).list;
      OwnBefore(c, a, w, sibling, []);
      assert others + [] == others;
      if a != sibling && !ClimbStops(c, w, a) && !MeetsBeside(c, a, w, sibling) {
        NotFromSibling(c, a, w, sibling);
        AncestorsBefore(c, a, sibling);
        var own := if Restackable(c, a) then [a] else [];
        OwnBefore(c, a, w, sibling, own);
        AncestorsRest(c, w, sibling, own);
        BeforeConcat(c, others + own, StackAncestors(c, a, sibling));
      }
    } else if IsGroupTransient(c.wins[w], c.wins[w].clientLeader, c.root) {
      GroupBefore(c, w, sibling, |c.stack|);
    }
  }

  lemma AncestorsRest(c: Scene, w: Window, sibling: Window, own: seq<Window>)
    requires c.Valid() && w in c.wins && c.wins[w].transientFor in c.wins && own <= [c.wins[w].transientFor]
    ensures var a := c.wins[w].transientFor;
            var others := StackTransients(c, a, w, sibling).list;
            forall u, y :: u in others + own && y in StackAncestors(c, a, sibling) && y !in others + own ==>
                             !Under(c, y, u)
  {
    hide StackTransients, StackAncestors, IsAncestorTo;
    var a := c.wins[w].transientFor;
    var others := StackTransients(c, a, w, sibling).list;
    forall u, y | u in others + own && y in StackAncestors(c, a, sibling) && y !in others + own
      ensures !Under(c, y, u)
    {
      AncestorsOutside(c, a, sibling, y);
      AncestorShown(c, a, sibling, y);
      if Under(c, y, u) && u in others {
        if Within(c, y, w) {
          AboveParent(c, y, w);
        }
        WalkClosed(c, a, w, sibling, y, u);
      }
    }
  }

  /** A window that is left out between what is collected for `a` and `a` or above: it is where the walk fails at
      the sibling, or above the windows that go along with `a`. */
  lemma MissedAround(c: Scene, a: Window, avoid: Window, sibling: Window, x: Window, y: Window)
    requires c.Valid() && a in c.wins && x in StackTransients(c, a, avoid, sibling).list && !Within(c, x, avoid)
    requires Shown(c, y) && Under(c, x, y) && y !in StackTransients(c, a, avoid, sibling).list
    ensures Within(c, sibling, y) || y == a || Under(c, a, y)
    ensures !Within(c, sibling, y) ==> Under(c, x, a) || c.wins[a].transientFor == NONE
  {
    hide IsAncestorTo, Follows, Restackable;
    var i := CollectedVia(c, a, avoid, sibling, x);
    var t := c.stack[i];
    if x != t {
      OneChain(c, x, y, t);
    }
    if Within(c, y, t) {
      TransientsMiss(c, a, avoid, sibling, |c.stack|, x, y, i);
    } else {
      AboveFollower(c, a, t, y);
      UnderTop(c, a, t, y);
      if x != t && Under(c, t, a) {
        UnderTransitive(c, x, t, a);
      }
    }
  }

  lemma UnderTop(c: Scene, a: Window, t: Window, y: Window)
    requires c.Valid() && a in c.wins && t in c.wins && y in c.wins && Follows(c, t, a) && Under(c, t, y)
    ensures Under(c, t, a)
  {
    UnderStep(c, t, y);
    UnderStep(c, t, a);
    UnderStep(c, c.wins[t].transientFor, y);
  }

  /** The climb leaves out an ancestor that can be restacked only where it comes to the sibling, or leaves it
      behind. */
  lemma {:induction false} ClimbMiss(c: Scene, w: Window, sibling: Window, y: Window)
    requires c.Valid() && w in c.wins && !Within(c, sibling, w)
    requires Shown(c, y) && Under(c, w, y) && y !in StackAncestors(c, w, sibling)
    ensures Within(c, sibling, y) || LeftBehind(c, w, sibling, y)
    decreases RankOf(c.Links())(w)
  {
    hide StackTransients, MeetsBeside, IsAncestorTo, Restackable, IsGroupTransient, ClimbStops;
    var a := c.wins[w].transientFor;
    UnderStep(c, w, y);
    UnderListed(c, a, y);
    ClimbAt(c, w, sibling);
    ParentRank(c, w);
    if a != sibling && !ClimbStops(c, w, a) && !MeetsBeside(c, a, w, sibling) {
      NotFromSibling(c, a, w, sibling);
      ClimbMiss(c, a, sibling, y);
    }
  }

  lemma UnderListed(c: Scene, a: Window, y: Window)
    requires c.Valid() && y in c.wins && (a == y || Under(c, a, y))
    ensures a in c.wins
  {
  }

  /** The list of a group leaves out what one of its windows is under only there. */
  lemma {:induction false} GroupMiss(c: Scene, w: Window, sibling: Window, k: nat, x: Window, y: Window)
    requires c.Valid() && w in c.wins && k <= |c.stack| && !Within(c, sibling, w)
    requires IsGroupTransient(c.wins[w], c.wins[w].clientLeader, c.root)
    requires x in GroupAncestors(c, w, sibling, k) && y !in GroupAncestors(c, w, sibling, k)
    requires Shown(c, y) && Under(c, x, y)
    ensures Within(c, sibling, y) || GroupLeft(c, w, sibling, k, y)
    decreases k
  {
    hide StackTransients, IsMain, Restackable, MeetsBeside, IsAncestorTo, IsGroupTransient;
    var a := c.stack[k - 1];
    GroupOutside(c, w, sibling, k, x);
    GroupAt(c, w, sibling, k);
    if IsMain(c, a, w) {
      MainFollowed(c, a, w);
      if x in StackTransients(c, a, w, sibling).list {
        MissedAround(c, a, w, sibling, x, y);
        assert y == a ==> TakesAny(c, a, w, sibling);
      } else if x != a {
        GroupMiss(c, w, sibling, k - 1, x, y);
      }
    } else {
      GroupMiss(c, w, sibling, k - 1, x, y);
    }
  }

  /** And so does the list of the ancestors. */
  lemma {:induction false} AncestorsMiss(c: Scene, w: Window, sibling: Window, x: Window, y: Window)
    requires c.Valid() && w in c.wins && !Within(c, sibling, w)
    requires x in StackAncestors(c, w, sibling) && y !in StackAncestors(c, w, sibling)
    requires Shown(c, y) && Under(c, x, y)
    ensures Within(c, sibling, y) || LeftBehind(c, w, sibling, y)
    decreases RankOf(c.Links())(w)
  {
    hide StackTransients, MeetsBeside, IsAncestorTo, Restackable, IsGroupTransient, GroupAncestors, GroupLeft;
    hide ClimbStops;
    var a := c.wins[w].transientFor;
    ParentRank(c, w);
    UnderStep(c, w, y);
    if a in c.wins {
      ClimbAt(c, w, sibling);
      AncestorsOutside(c, w, sibling, x);
      if Under(c, w, y) {
        ClimbMiss(c, w, sibling, y);
      } else if x in StackTransients(c, a, w, sibling).list {
        MissedAround(c, a, w, sibling, x, y);
      } else {
        NotFromSibling(c, a, w, sibling);
        AncestorsMiss(c, a, sibling, x, y);
      }
    } else {
      GroupMiss(c, w, sibling, |c.stack|, x, y);
    }
  }

  /** A main window that is left behind is not on the list of the group, but a window under it is. */
  lemma {:induction false} GroupLeftOut(c: Scene, x: Window, sibling: Window, k: nat, z: Window)
    requires c.Valid() && x in c.wins && k <= |c.stack| && !Within(c, sibling, x)
    requires IsGroupTransient(c.wins[x], c.wins[x].clientLeader, c.root) && GroupLeft(c, x, sibling, k, z)
    ensures z !in GroupAncestors(c, x, sibling, k) && exists u :: u in GroupAncestors(c, x, sibling, k) && Under(c, u, z)
    ensures exists i :: 0 <= i < k && c.stack[i] == z && IsMain(c, z, x)
    decreases k
  {
    hide StackTransients, IsMain, Restackable, MeetsBeside, Under, IsGroupTransient, GroupAncestors;
    var a := c.stack[k - 1];
    GroupAt(c, x, sibling, k);
    if !IsMain(c, a, x) {
      GroupLeftOut(c, x, sibling, k - 1, z);
    } else {
      MainNotCollected(c, x, sibling, a, z);
      if z == a && (MeetsBeside(c, a, x, sibling) || ClimbStops(c, x, a)) && TakesAny(c, a, x, sibling) {
        if z in GroupAncestors(c, x, sibling, k - 1) {
          MainBelow(c, x, sibling, k, z);
        }
        var u :| u in StackTransients(c, a, x, sibling).list && Under(c, u, a);
        assert u in GroupAncestors(c, x, sibling, k);
      } else {
        GroupLeftOut(c, x, sibling, k - 1, z);
      }
    }
  }

  lemma MainNotCollected(c: Scene, x: Window, sibling: Window, a: Window, z: Window)
    requires c.Valid() && x in c.wins && a in c.wins && IsMain(c, a, x)
    requires IsGroupTransient(c.wins[x], c.wins[x].clientLeader, c.root)
    ensures z in c.wins && IsMain(c, z, x) ==> z !in StackTransients(c, a, x, sibling).list
  {
    hide StackTransients, IsMain, IsGroupTransient;
    if z in StackTransients(c, a, x, sibling).list {
      var i := CollectedNoMain(c, x, sibling, a, z);
    }
  }

  /** What the climb leaves behind is a window that is above it in the forest, or one that has no parent, left
      behind by a window that is no main window itself. */
  lemma {:induction false} LeftBehindAbove(c: Scene, w: Window, sibling: Window, z: Window)
    requires c.Valid() && w in c.wins && !Within(c, sibling, w) && z in c.wins && LeftBehind(c, w, sibling, z)
    ensures z !in StackAncestors(c, w, sibling)
    ensures Under(c, w, z) || (GroupOf(c, w) == NONE && c.wins[z].transientFor == NONE && z != w
                               && exists u :: u in StackAncestors(c, w, sibling) && Under(c, u, z))
    decreases RankOf(c.Links())(w)
  {
    hide StackTransients, IsMain, Restackable, MeetsBeside, IsAncestorTo, ClimbStops, GroupAncestors, GroupLeft;
    var a := c.wins[w].transientFor;
    if a in c.wins {
      ParentRank(c, w);
      UnderStep(c, w, z);
      ClimbAt(c, w, sibling);
      if !ClimbStops(c, w, a) && !MeetsBeside(c, a, w, sibling) {
        NotFromSibling(c, a, w, sibling);
        LeftBehindAbove(c, a, sibling, z);
      }
      NotAmong(c, a, w, sibling, z);
    } else {
      GroupLeftOut(c, w, sibling, |c.stack|, z);
      MainFollowed(c, z, w);
    }
  }

  /** What `a` is under, or is, or what is apart from it and has no parent, is not collected for `a`. */
  lemma NotAmong(c: Scene, a: Window, avoid: Window, sibling: Window, z: Window)
    requires c.Valid() && a in c.wins && z in c.wins
    requires Within(c, a, z) || (GroupOf(c, a) == NONE && c.wins[z].transientFor == NONE)
    ensures z !in StackTransients(c, a, avoid, sibling).list
  {
    hide StackTransients, IsAncestorTo;
    if z in StackTransients(c, a, avoid, sibling).list {
      CollectedNotAbove(c, a, avoid, sibling, z);
      AroundUnder(c, a, avoid, sibling, z);
      UnderStep(c, z, a);
    }
  }
}
