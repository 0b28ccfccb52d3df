/** What a restack does to the stack where there are window groups: a window that is collected for several main
    windows moves several times, and ends where its last move takes it. */
module GroupBlocks {
  import opened Sequences
  import opened TransientForest
  import opened Windows
  import opened Stacking
  import opened RestackProofs
  import opened ReplayProofs
  import opened RestackTheorems
  import opened GroupWalks
  import opened GroupClashes
  import opened RestackGroups
  import opened WalkOrder

  /** A list with only the last occurrence of each element. */
  function LastOnly(list: seq<Window>): (r: seq<Window>)
    ensures forall x :: x in r <==> x in list
  {
    if list == [] then []
    else if list[0] in list[1..] then LastOnly(list[1..])
    else [list[0]] + LastOnly(list[1..])
  }

  lemma {:induction false} LastOnlyDistinct(list: seq<Window>)
    ensures Distinct(LastOnly(list))
  {
    if list != [] {
      LastOnlyDistinct(list[1..]);
    }
  }

  /** A list that repeats nothing is left as it is. */
  lemma {:induction false} LastOnlyAll(list: seq<Window>)
    requires Distinct(list)
    ensures LastOnly(list) == list
  {
    if list != [] {
      LastOnlyAll(list[1..]);
      assert list == [list[0]] + list[1..];
    }
  }

  /** The moved windows end up in one block, each in the place of its last move, where the first one was to go. */
  lemma {:induction false} ReplayLast(pre: seq<Window>, sibling: Window, post: seq<Window>, list: seq<Window>)
    requires Distinct(pre + [sibling] + post) && NoneTwice([sibling] + list)
    requires forall x :: x in list ==> x in pre + [sibling] + post
    ensures Replay(pre + [sibling] + post, sibling, list)
         == Without(pre + [sibling], Elements(list)) + LastOnly(list) + Without(post, Elements(list))
    decreases |list|
  {
    hide Without, LastOnly, Distinct, Remove, MoveAbove, NoneTwice;
    if list == [] {
      assert Elements(list) == {};
      WithoutNothing(pre + [sibling]);
      WithoutNothing(post);
      LastOnlyAll([]);
    } else {
      var x, more := list[0], list[1..];
      assert list == [x] + more;
      NoneTwiceConcat([sibling], [x] + more);
      var pre1, post1 := Remove(pre, x), Remove(post, x);
      MoveSplits(pre, sibling, post, x);
      assert pre1 + [sibling, x] + post1 == (pre1 + [sibling]) + [x] + post1;
      ReplayLast(pre1 + [sibling], x, post1, more);
      AfterMove(pre, sibling, post, x, more);
    }
  }

  lemma Sides(pre: seq<Window>, sibling: Window, post: seq<Window>)
    requires Distinct(pre + [sibling] + post)
    ensures Distinct(pre) && Distinct(post) && sibling !in pre && sibling !in post
    ensures forall x :: x in pre ==> x !in post
  {
    var stack := pre + [sibling] + post;
    assert forall i :: 0 <= i < |pre| ==> pre[i] == stack[i];
    assert stack[|pre|] == sibling;
    assert forall i :: 0 <= i < |post| ==> post[i] == stack[|pre| + 1 + i];
  }

  /** What the first move makes of the two sides of the sibling. */
  lemma MoveSplits(pre: seq<Window>, sibling: Window, post: seq<Window>, x: Window)
    requires Distinct(pre + [sibling] + post) && x in pre + [sibling] + post && x != sibling
    ensures var pre1, post1 := Remove(pre, x), Remove(post, x);
            && MoveAbove(pre + [sibling] + post, x, sibling) == pre1 + [sibling, x] + post1
            && Distinct(pre1 + [sibling, x] + post1)
            && forall y :: y in pre + [sibling] + post <==> y in pre1 + [sibling, x] + post1
  {
    hide Remove, Distinct, IndexOf, InsertAt;
    var stack := pre + [sibling] + post;
    var pre1, post1 := Remove(pre, x), Remove(post, x);
    RemoveSplits(pre, sibling, post, x);
    RemoveDistinct(stack, x);
    Sides(pre, sibling, post);
    var rest := pre1 + [sibling] + post1;
    InsertedBetween(pre1, sibling, post1, x);
    DistinctInsert(rest, |pre1| + 1, x);
    assert forall y :: y in pre1 + [sibling, x] + post1 <==> y in rest || y == x;
  }

  lemma InsertedBetween(a: seq<Window>, sibling: Window, b: seq<Window>, x: Window)
    requires sibling !in a
    ensures sibling in a + [sibling] + b && IndexOf(a + [sibling] + b, sibling) == |a|
    ensures InsertAt(a + [sibling] + b, |a| + 1, x) == a + [sibling, x] + b
  {
    hide IndexOf;
    IndexBetween(a, sibling, b);
  }

  lemma RemoveSplits(pre: seq<Window>, sibling: Window, post: seq<Window>, x: Window)
    requires Distinct(pre + [sibling] + post) && x != sibling
    ensures Remove(pre + [sibling] + post, x) == Remove(pre, x) + [sibling] + Remove(post, x)
  {
    hide Distinct;
    Sides(pre, sibling, post);
    RemoveConcat(pre + [sibling], post, x);
    RemoveConcat(pre, [sibling], x);
  }

  lemma {:induction false} RemoveConcat(a: seq<Window>, b: seq<Window>, x: Window)
    ensures Remove(a + b, x) == if x in a then Remove(a, x) + b else a + Remove(b, x)
  {
    if a == [] {
      assert a + b == b;
    } else {
      var first, more := a[0], a[1..];
      assert a == [first] + more;
      RemoveStep(first, more, x);
      RemoveStep(first, more + b, x);
      Regroup([first], more, b, []);
      if first != x {
        RemoveConcat(more, b, x);
        Regroup([first], Remove(more, x), b, []);
        Regroup([first], more, Remove(b, x), []);
      }
    }
  }

  lemma RemoveStep(first: Window, more: seq<Window>, x: Window)
    ensures Remove([first] + more, x) == if first == x then more else [first] + Remove(more, x)
  {
    assert ([first] + more)[1..] == more;
  }

  lemma Regroup(a: seq<Window>, b: seq<Window>, c: seq<Window>, d: seq<Window>)
    ensures (a + b) + c + d == a + (b + c) + d
    ensures a + [] == a && [] + a == a && (a + b) + c == a + (b + c)
  {
  }

  lemma AfterMove(pre: seq<Window>, sibling: Window, post: seq<Window>, x: Window, more: seq<Window>)
    requires Distinct(pre + [sibling] + post) && x != sibling
    ensures Without((Remove(pre, x) + [sibling]) + [x], Elements(more)) + LastOnly(more)
              + Without(Remove(post, x), Elements(more))
         == Without(pre + [sibling], Elements([x] + more)) + LastOnly([x] + more) + Without(post, Elements([x] + more))
  {
    hide Remove, Without, LastOnly, Distinct;
    var all, moved := Elements([x] + more), Elements(more);
    assert all == {x} + moved;
    Sides(pre, sibling, post);
    BeforeMove(pre, sibling, x, moved, all);
    WithoutTwice(post, x, moved);
    WithoutConcat(Remove(pre, x) + [sibling], [x], moved);
    OneOf(x, moved);
    LastOnlyStep(x, more);
    var p, l := Without(pre + [sibling], all), LastOnly(more);
    var own := if x in moved then [] else [x];
    Regroup(p, own, l, Without(post, all));
    Regroup(l, [], [], []);
  }

  lemma BeforeMove(pre: seq<Window>, sibling: Window, x: Window, moved: set<Window>, all: set<Window>)
    requires Distinct(pre) && x != sibling && all == {x} + moved
    ensures Without(Remove(pre, x) + [sibling], moved) == Without(pre + [sibling], all)
  {
    hide Remove, Without, Distinct;
    WithoutTwice(pre, x, moved);
    WithoutConcat(pre, [sibling], all);
    WithoutConcat(Remove(pre, x), [sibling], moved);
    OneOf(sibling, all);
    OneOf(sibling, moved);
  }

  lemma OneOf(x: Window, moved: set<Window>)
    ensures Without([x], moved) == if x in moved then [] else [x]
  {
  }

  lemma LastOnlyStep(x: Window, more: seq<Window>)
    ensures LastOnly([x] + more) == if x in more then LastOnly(more) else [x] + LastOnly(more)
  {
    assert ([x] + more)[1..] == more;
  }

  /** What occurs for the last time before another one does keeps its place before it. */
  lemma {:induction false} LastBefore(a: seq<Window>, b: seq<Window>, x: Window, y: Window)
    requires x in a && x !in b && y in b
    ensures var l := LastOnly(a + b);
            x in l && y in l && IndexOf(l, x) < IndexOf(l, y)
    decreases |a|
  {
    hide IndexOf;
    var list := a + b;
    var l, more := LastOnly(list), list[1..];
    assert more == a[1..] + b && list == [a[0]] + more;
    assert x in list && y in list;
    LastOnlyDistinct(list);
    if a[0] in more {
      LastBefore(a[1..], b, x, y);
    } else if a[0] == x {
      assert l[0] == x;
      FirstIndex(l);
      assert l[IndexOf(l, y)] == y;
    } else {
      LastBefore(a[1..], b, x, y);
      IndexOfNext(a[0], LastOnly(more), x);
      IndexOfNext(a[0], LastOnly(more), y);
    }
  }

  lemma FirstIndex(l: seq<Window>)
    requires l != []
    ensures IndexOf(l, l[0]) == 0
  {
  }

  /** Of two windows that were collected one after the other, and the first only there, the first one ends above. */
  lemma LastReversed(list: seq<Window>, a: seq<Window>, b: seq<Window>, x: Window, y: Window)
    requires list == a + b && x in a && y in b && y !in a
    ensures var l := LastOnly(Reverse(list));
            x in l && y in l && IndexOf(l, y) < IndexOf(l, x)
  {
    ReverseConcat(a, b);
    InReverse(a, x);
    InReverse(a, y);
    InReverse(b, y);
    LastBefore(Reverse(b), Reverse(a), y, x);
  }

  /** In a list that may repeat windows, whatever is under a window occurs after it does. */
  ghost predicate DescendantsAfter(c: Scene, list: seq<Window>)
    requires c.Valid()
  {
    forall x, j | 0 <= j < |list| && x in list :: Under(c, x, list[j]) ==> x in list[j + 1..]
  }

  lemma ReversedAfter(c: Scene, l: seq<Window>)
    requires c.Valid() && DescendantsBefore(c, l)
    ensures DescendantsAfter(c, Reverse(l))
  {
    hide Under, Reverse;
    var r, n := Reverse(l), |l|;
    forall x, j | 0 <= j < n && x in r && Under(c, x, r[j])
      ensures x in r[j + 1..]
    {
      InReverse(l, x);
      assert l[n - 1 - j] == r[j];
      LaterReversed(l, x, n - 1 - j);
    }
  }

  /** What occurs before an index occurs in the reversed list after it. */
  lemma LaterReversed(l: seq<Window>, x: Window, k: nat)
    requires k < |l| && x in l[..k]
    ensures x in Reverse(l)[|l| - k..]
  {
    hide Reverse;
    var i :| 0 <= i < k && l[..k][i] == x;
    assert Reverse(l)[|l| - k..][k - 1 - i] == Reverse(l)[|l| - 1 - i];
  }

  /** In the places of their last moves all windows are above those that they are under in the forest. */
  lemma {:induction false} LastOnlyOrdered(c: Scene, list: seq<Window>)
    requires c.Valid() && DescendantsAfter(c, list)
    ensures AncestorsBelow(c, LastOnly(list))
  {
    hide Under;
    if list != [] {
      var x, more := list[0], list[1..];
      AfterRest(c, list);
      LastOnlyOrdered(c, more);
      if x !in more {
        var r := LastOnly(list);
        NotUnderSelf(c, x);
        FirstAbove(c, list);
        forall i, j | 0 <= i < |r| && 0 <= j < |r| && Under(c, r[i], r[j])
          ensures j < i
        {
          assert j > 0 ==> r[j] in LastOnly(more);
        }
      }
    }
  }

  /** The lowest window of a block, where it is not moved again, is under none of the others. */
  lemma FirstAbove(c: Scene, list: seq<Window>)
    requires c.Valid() && list != [] && DescendantsAfter(c, list) && list[0] !in list[1..]
    ensures forall y :: y in list[1..] ==> !Under(c, list[0], y)
  {
    hide Under;
    forall y | y in list[1..]
      ensures !Under(c, list[0], y)
    {
      var m :| 0 <= m < |list| - 1 && list[1..][m] == y;
      assert list[m + 1] == y && list[0] in list;
      assert list[m + 1 + 1..] == list[1..][m + 1..];
    }
  }

  lemma AfterRest(c: Scene, list: seq<Window>)
    requires c.Valid() && list != [] && DescendantsAfter(c, list)
    ensures DescendantsAfter(c, list[1..])
  {
    hide Under;
    var more := list[1..];
    forall x, j | 0 <= j < |more| && x in more && Under(c, x, more[j])
      ensures x in more[j + 1..]
    {
      assert list[j + 1] == more[j] && x in list && Under(c, x, list[j + 1]);
      assert list[j + 1 + 1..] == more[j + 1..];
    }
  }

  lemma NotAlong(c: Scene, w: Window, sibling: Window)
    requires c.Valid() && w in c.wins && w != sibling && !GoesAlong(c, sibling, w)
    ensures !Within(c, sibling, w)
  {
    if Under(c, sibling, w) {
      var i := TowardChild(c, sibling, w);
      ParentRank(c, c.stack[i]);
      NothingUnderNone(c, sibling);
      assert Via(c, w, NONE, sibling, i);
    }
  }

  /** All that moves with `w`, from the top to the bottom. */
  lemma FollowersBefore(c: Scene, w: Window, sibling: Window)
    requires c.Valid() && w in c.wins && !Within(c, sibling, w)
    ensures DescendantsBefore(c, Followers(c, w, sibling))
  {
    hide StackTransients, StackAncestors, IsAncestorTo, DescendantsBefore;
    var t, a := StackTransients(c, w, NONE, sibling).list, StackAncestors(c, w, sibling);
    OwnBefore(c, w, NONE, sibling, [w]);
    AncestorsBefore(c, w, sibling);
    forall u, y | u in t + [w] && y in a && y !in t + [w]
      ensures !Under(c, y, u)
    {
      AncestorsOutside(c, w, sibling, y);
      AncestorShown(c, w, sibling, y);
      NothingUnderNone(c, y);
      if Under(c, y, u) && u in t {
        WalkClosed(c, w, NONE, sibling, y, u);
      }
    }
    BeforeConcat(c, t + [w], a);
    assert Followers(c, w, sibling) == t + [w] + a;
  }

  /** What moves, from the bottom to the top, each window once. */
  function Moved(c: Scene, w: Window, sibling: Window): seq<Window>
    requires c.Sound() && w in c.wins
  {
    LastOnly(Block(c, w, sibling))
  }

  /** What a restack does with any groups, where no two main windows clash: the window, all that goes along and
      its ancestors form one block just above the sibling, every one of them above the windows that it is
      transient for at any depth; the others keep their order. */
  lemma GroupMovesBlock(c: Scene, w: Window, sibling: Window)
    requires c.Valid() && w in c.wins && sibling in c.wins && w != sibling
    requires !GoesAlong(c, sibling, w) && !Clash(c, w, sibling)
    ensures var block := Moved(c, w, sibling);
            && w in block && sibling !in block && Distinct(block) && AncestorsBelow(c, block)
            && (forall x :: x in block ==> x in c.wins)
            && Restack(c, w, sibling) == Spliced(Without(c.stack, Elements(block)), sibling, block)
  {
    hide StackTransients, StackAncestors, Clash, GoesAlong, Within, NoneTwice, DescendantsBefore, DescendantsAfter;
    hide AncestorsBelow, Replay;
    var list := Block(c, w, sibling);
    NotAlong(c, w, sibling);
    FollowersBefore(c, w, sibling);
    BlockIsReversed(c, w, sibling);
    ReversedAfter(c, Followers(c, w, sibling));
    LastOnlyOrdered(c, list);
    LastOnlyDistinct(list);
    BlockListed(c, w, sibling);
    BlockOnce(c, w, sibling);
    NoneTwiceNext(sibling, list);
    WalkEndsIff(c, w, sibling);
    SplitReplay(c.stack, sibling, list);
  }

  lemma SplitReplay(stack: seq<Window>, sibling: Window, list: seq<Window>)
    requires Distinct(stack) && sibling in stack && sibling !in list && NoneTwice([sibling] + list)
    requires forall x :: x in list ==> x in stack
    ensures Replay(stack, sibling, list)
         == Spliced(Without(stack, Elements(LastOnly(list))), sibling, LastOnly(list))
  {
    hide Replay, NoneTwice, LastOnly, Without;
    var k := IndexOf(stack, sibling);
    var pre, post := stack[..k], stack[k + 1..];
    assert stack == pre + [sibling] + post;
    ReplayLast(pre, sibling, post, list);
    var all := Elements(list);
    assert Elements(LastOnly(list)) == all;
    WithoutConcat(pre, [sibling], all);
    OneOf(sibling, all);
    WithoutConcat(pre + [sibling], post, all);
    Sides(pre, sibling, post);
    SplicedBetween(Without(pre, all), sibling, Without(post, all), LastOnly(list));
  }
}
