/** What a restack does to the stack, and that it loses no window. */
module RestackTheorems {
  import opened Sequences
  import opened Windows
  import opened Stacking
  import opened RestackProofs
  import opened ReplayProofs
  import opened GroupWalks

  /** In a list of windows from the bottom up, every window is above the windows it is under in the
      forest. */
  ghost predicate AncestorsBelow(c: Scene, list: seq<Window>)
    requires c.Valid()
  {
    forall i, j | 0 <= i < |list| && 0 <= j < |list| :: Under(c, list[i], list[j]) ==> j < i
  }

  /** The windows of a restack from the top to the bottom. */
  function Followers(c: Scene, w: Window, sibling: Window): seq<Window>
    requires c.Valid() && w in c.wins
  {
    StackTransients(c, w, NONE, sibling).list + ([w] + StackAncestors(c, w, sibling))
  }

  lemma {:induction false} ReverseConcat<T>(a: seq<T>, b: seq<T>)
    ensures Reverse(a + b) == Reverse(b) + Reverse(a)
  {
    if a == [] {
      assert a + b == b;
    } else {
      assert (a + b)[1..] == a[1..] + b;
      ReverseConcat(a[1..], b);
    }
  }

  lemma BlockIsReversed(c: Scene, w: Window, sibling: Window)
    requires c.Valid() && w in c.wins
    ensures Block(c, w, sibling) == Reverse(Followers(c, w, sibling))
  {
    var t, a := StackTransients(c, w, NONE, sibling).list, StackAncestors(c, w, sibling);
    ReverseConcat(t, [w] + a);
    ReverseConcat([w], a);
    assert Reverse([w]) == [w];
  }

  lemma FollowersOrdered(c: Scene, w: Window, sibling: Window)
    requires c.Valid() && NoGroups(c) && w in c.wins && w != sibling
    ensures var l := Followers(c, w, sibling);
            && Distinct(l) && DescendantsFirst(c, l)
            && (forall x :: x in l ==> x in c.wins && x != sibling)
  {
    var t, a := StackTransients(c, w, NONE, sibling).list, StackAncestors(c, w, sibling);
    TransientsOrdered(c, w, NONE, sibling, |c.stack|);
    AncestorsOrdered(c, w, sibling);
    forall x | x in t
      ensures x in c.wins && x != sibling && Under(c, x, w)
    {
      TransientsSound(c, w, NONE, sibling, |c.stack|, x);
    }
    SubtreeOrdered(c, w, t);
    forall y | y in a
      ensures y in c.wins && y != sibling && !Within(c, y, w)
    {
      AncestorsSound(c, w, sibling, y);
    }
    forall x, y | x in t + [w] && y in a
      ensures x != y && !Under(c, y, x)
    {
      OutsideSubtree(c, x, y, w);
    }
    DistinctConcat(t + [w], a);
    DescendantsFirstConcat(c, t + [w], a);
    assert Followers(c, w, sibling) == t + [w] + a;
  }

  lemma ReversedOrder(c: Scene, l: seq<Window>)
    requires c.Valid() && Distinct(l) && DescendantsFirst(c, l)
    ensures Distinct(Reverse(l)) && AncestorsBelow(c, Reverse(l))
    ensures forall x :: x in Reverse(l) <==> x in l
  {
    var r, n := Reverse(l), |l|;
    forall x
      ensures x in r <==> x in l
    {
      InReverse(l, x);
    }
    forall i, j | 0 <= i < j < n
      ensures r[i] != r[j]
    {
      assert l[n - 1 - j] != l[n - 1 - i];
    }
    hide Under;
    forall i, j | 0 <= i < n && 0 <= j < n && Under(c, r[i], r[j])
      ensures j < i
    {
      assert l[n - 1 - i] == r[i] && l[n - 1 - j] == r[j];
    }
  }

  /** What a restack does: the window, its transients and its ancestors form one block just above the
      sibling, every one of them above the windows it is transient for at any depth; the others keep their
      order. */
  lemma RestackMovesBlock(c: Scene, w: Window, sibling: Window)
    requires c.Valid() && NoGroups(c) && w in c.wins && sibling in c.wins && w != sibling
    requires !Under(c, sibling, w)
    ensures var block := Block(c, w, sibling);
            && w in block && sibling !in block && Distinct(block) && AncestorsBelow(c, block)
            && (forall x :: x in block ==> x in c.wins)
            && Restack(c, w, sibling) == Spliced(Without(c.stack, Elements(block)), sibling, block)
  {
    var block := Block(c, w, sibling);
    BlockIsReversed(c, w, sibling);
    FollowersOrdered(c, w, sibling);
    ReversedOrder(c, Followers(c, w, sibling));
    assert w in Followers(c, w, sibling);
    ReplayBlock(c.stack, sibling, block);
    PlainWalkEndsIff(c, w, sibling);
  }

  /** No window is lost and none appears twice. */
  lemma RestackPermutes(c: Scene, w: Window, sibling: Window)
    requires c.Valid() && NoGroups(c) && w in c.wins && sibling in c.wins && w != sibling
    ensures Distinct(Restack(c, w, sibling))
    ensures forall x :: x in Restack(c, w, sibling) <==> x in c.stack
  {
    PlainWalkEndsIff(c, w, sibling);
    if StackTransients(c, w, NONE, sibling).ok {
      RestackMovesBlock(c, w, sibling);
      var block := Block(c, w, sibling);
      var rest := Without(c.stack, Elements(block));
      WithoutDistinct(c.stack, Elements(block));
      SplicedDistinct(rest, sibling, block);
    }
  }

  lemma {:induction false} WithoutDistinct<T(!new)>(s: seq<T>, moved: set<T>)
    requires Distinct(s)
    ensures Distinct(Without(s, moved))
  {
    if s != [] {
      WithoutDistinct(s[1..], moved);
    }
  }

  lemma SplicedDistinct(rest: seq<Window>, sibling: Window, list: seq<Window>)
    requires Distinct(rest) && Distinct(list) && sibling in rest && forall x :: x in list ==> x !in rest
    ensures Distinct(Spliced(rest, sibling, list))
    ensures forall x :: x in Spliced(rest, sibling, list) <==> x in rest || x in list
  {
    var k := IndexOf(rest, sibling) + 1;
    assert rest == rest[..k] + rest[k..];
    DistinctConcat(rest[..k], list);
    DistinctConcat(rest[..k] + list, rest[k..]);
  }

  lemma FollowersMove(c: Scene, w: Window, sibling: Window, x: Window)
    requires c.Valid() && w in c.wins
    ensures x in Block(c, w, sibling) <==> x in Followers(c, w, sibling)
  {
    BlockIsReversed(c, w, sibling);
    InReverse(Followers(c, w, sibling), x);
  }

  lemma InReverse<T>(s: seq<T>, x: T)
    ensures x in Reverse(s) <==> x in s
  {
    if x in s {
      var i :| 0 <= i < |s| && s[i] == x;
      assert Reverse(s)[|s| - 1 - i] == x;
    }
  }

  /** Two elements that stay behind keep their order. */
  lemma {:induction false} WithoutKeepsOrder(s: seq<Window>, moved: set<Window>, x: Window, y: Window)
    requires x in s && y in s && x !in moved && y !in moved && IndexOf(s, x) < IndexOf(s, y)
    ensures x in Without(s, moved) && y in Without(s, moved)
    ensures IndexOf(Without(s, moved), x) < IndexOf(Without(s, moved), y)
  {
    var t := s[1..];
    var r := Without(t, moved);
    assert s == [s[0]] + t;
    if s[0] == x {
      assert Without(s, moved)[0] == x;
    } else {
      IndexOfNext(s[0], t, x);
      IndexOfNext(s[0], t, y);
      WithoutKeepsOrder(t, moved, x, y);
      WithoutNext(s, moved, x);
      WithoutNext(s, moved, y);
    }
  }

  lemma WithoutNext(s: seq<Window>, moved: set<Window>, x: Window)
    requires s != [] && x in s[1..] && x != s[0] && x !in moved
    ensures IndexOf(Without(s, moved), x) == IndexOf(Without(s[1..], moved), x) + if s[0] in moved then 0 else 1
  {
    if s[0] !in moved {
      IndexOfNext(s[0], Without(s[1..], moved), x);
    }
  }

  lemma IndexOfNext(first: Window, s: seq<Window>, x: Window)
    requires x in s && x != first
    ensures IndexOf([first] + s, x) == IndexOf(s, x) + 1
  {
    assert ([first] + s)[1..] == s;
  }
}
