/** What a restack does to the stack: the windows that move form one block just above the sibling,
    with every transient above its parent, and nothing else changes order. */
module RestackProofs {
  import opened Sequences
  import opened TransientForest
  import opened Windows
  import opened Stacking

  /** Whether `x` is, through any number of steps, transient for `y`. */
  ghost predicate Under(c: Scene, x: Window, y: Window)
    requires c.Valid()
  {
    x in c.wins && IsAncestorTo(c.Links(), x, y)
  }

  /** No window is transient for a whole group. */
  ghost predicate NoGroups(c: Scene) {
    forall x :: x in c.wins ==> !IsGroupTransient(c.wins[x], c.wins[x].clientLeader, c.root)
  }

  lemma UnderStep(c: Scene, x: Window, y: Window)
    requires c.Valid() && x in c.wins
    ensures Under(c, x, y) <==>
              var up := c.wins[x].transientFor;
              up != NONE && (up == y || Under(c, up, y))
  {
  }

  lemma {:induction false} UnderRank(c: Scene, x: Window, y: Window)
    requires c.Valid() && Under(c, x, y)
    ensures RankOf(c.Links())(y) < RankOf(c.Links())(x)
    decreases RankOf(c.Links())(x)
  {
    var up := c.Links()[x];
    assert RankOf(c.Links())(up) < RankOf(c.Links())(x);
    if up != y {
      UnderRank(c, up, y);
    }
  }

  lemma ParentRank(c: Scene, x: Window)
    requires c.Valid() && x in c.wins
    ensures c.wins[x].transientFor != NONE ==>
              RankOf(c.Links())(c.wins[x].transientFor) < RankOf(c.Links())(x)
  {
    assert x in c.Links() && c.Links()[x] == c.wins[x].transientFor;
  }

  lemma {:induction false} UnderTransitive(c: Scene, x: Window, y: Window, z: Window)
    requires c.Valid() && Under(c, x, y) && Under(c, y, z)
    ensures Under(c, x, z)
    decreases RankOf(c.Links())(x)
  {
    var up := c.Links()[x];
    assert RankOf(c.Links())(up) < RankOf(c.Links())(x);
    if up != y {
      UnderTransitive(c, up, y, z);
    }
  }

  /** Of two windows that one window is under, one is under the other. */
  lemma {:induction false} OneChain(c: Scene, x: Window, y: Window, z: Window)
    requires c.Valid() && Under(c, x, y) && Under(c, x, z)
    ensures y == z || Under(c, y, z) || Under(c, z, y)
    decreases RankOf(c.Links())(x)
  {
    UnderStep(c, x, y);
    UnderStep(c, x, z);
    var up := c.wins[x].transientFor;
    if up != y && up != z {
      ParentRank(c, x);
      OneChain(c, up, y, z);
    }
  }

  /** `x` belongs to the subtree of `t`. */
  ghost predicate Within(c: Scene, x: Window, t: Window)
    requires c.Valid()
  {
    x in c.wins && (x == t || Under(c, x, t))
  }

  /** The transient of `w` through which `x` is under it. */
  lemma {:induction false} TowardChild(c: Scene, x: Window, w: Window) returns (i: nat)
    requires c.Valid() && Under(c, x, w)
    ensures i < |c.stack| && c.wins[c.stack[i]].transientFor == w && Within(c, x, c.stack[i])
    decreases RankOf(c.Links())(x)
  {
    var up := c.wins[x].transientFor;
    UnderStep(c, x, w);
    if up == w {
      i := IndexOf(c.stack, x);
    } else {
      ParentRank(c, x);
      i := TowardChild(c, up, w);
      UnderStep(c, x, c.stack[i]);
    }
  }

  lemma {:induction false} NothingUnderNone(c: Scene, x: Window)
    requires c.Valid() && x in c.wins
    ensures !Within(c, x, NONE)
    decreases RankOf(c.Links())(x)
  {
    UnderStep(c, x, NONE);
    var up := c.wins[x].transientFor;
    if up in c.wins {
      ParentRank(c, x);
      NothingUnderNone(c, up);
    }
  }

  /** The subtrees of two different transients of one window have nothing in common. */
  lemma {:induction false} SubtreesApart(c: Scene, x: Window, t: Window, u: Window, w: Window)
    requires c.Valid() && t in c.wins && u in c.wins && t != u && w != NONE
    requires c.wins[t].transientFor == w && c.wins[u].transientFor == w
    requires Within(c, x, t) && Within(c, x, u)
    ensures false
    decreases RankOf(c.Links())(x)
  {
    var rank := RankOf(c.Links());
    assert rank(w) < rank(t) && rank(w) < rank(u) by {
      assert t in c.Links() && c.Links()[t] == w;
      assert u in c.Links() && c.Links()[u] == w;
    }
    if x == t || x == u {
      var o := if x == t then u else t;
      assert Under(c, x, o);
      UnderStep(c, x, o);
      if w != o {
        UnderRank(c, w, o);
      }
    } else {
      var up := c.Links()[x];
      assert rank(up) < rank(x);
      SubtreesApart(c, up, t, u, w);
    }
  }

  lemma FollowsIsTransient(c: Scene, t: Window, w: Window)
    requires c.Valid() && NoGroups(c) && t in c.wins && w in c.wins
    ensures Follows(c, t, w) <==> c.wins[t].transientFor == w
  {
  }

  /** What the walk collects below index `k`: listed windows other than the sibling and the avoided
      window, each in the subtree of a transient of `w` that stands below `k`. */
  lemma {:induction false} TransientsSound(c: Scene, w: Window, avoid: Window, sibling: Window, k: nat, x: Window)
    requires c.Valid() && NoGroups(c) && w in c.wins && k <= |c.stack|
    requires x in TransientsBelow(c, w, avoid, sibling, k).list
    ensures x in c.wins && Restackable(c, x) && x != sibling && Under(c, x, w)
    ensures exists i :: 0 <= i < k && c.wins[c.stack[i]].transientFor == w && Within(c, x, c.stack[i])
    ensures x != avoid
    ensures Under(c, x, avoid) ==> w == avoid || Under(c, w, avoid)
    decreases GroupOf(c, w) != NONE, Levels(c, w), k
  {
    var t := c.stack[k - 1];
    if t == w || t == avoid || !Follows(c, t, w) {
      TransientsSound(c, w, avoid, sibling, k - 1, x);
    } else {
      Deeper(c, t, w);
      FollowsIsTransient(c, t, w);
      UnderStep(c, t, w);
      var above := StackTransients(c, t, avoid, sibling);
      if x in above.list {
        TransientsSound(c, t, avoid, sibling, |c.stack|, x);
        UnderTransitive(c, x, t, w);
        UnderStep(c, t, avoid);
        assert Within(c, x, c.stack[k - 1]);
      } else if x == t && Restackable(c, t) {
        assert Within(c, x, c.stack[k - 1]);
        UnderStep(c, t, avoid);
      } else {
        TransientsSound(c, w, avoid, sibling, k - 1, x);
      }
    }
  }

  lemma DistinctConcat<T>(a: seq<T>, b: seq<T>)
    requires Distinct(a) && Distinct(b) && forall x :: x in a ==> x !in b
    ensures Distinct(a + b)
  {
    var l := a + b;
    forall i, j | 0 <= i < j < |l|
      ensures l[i] != l[j]
    {
      if i < |a| <= j {
        assert l[i] in a && l[j] in b;
      }
    }
  }

  /** In a list of windows, each comes before all windows that it is under. */
  ghost predicate DescendantsFirst(c: Scene, list: seq<Window>)
    requires c.Valid()
  {
    forall i, j | 0 <= i < |list| && 0 <= j < |list| :: Under(c, list[i], list[j]) ==> i < j
  }

  lemma DescendantsFirstConcat(c: Scene, a: seq<Window>, b: seq<Window>)
    requires c.Valid() && DescendantsFirst(c, a) && DescendantsFirst(c, b)
    requires forall x, y :: x in a && y in b ==> !Under(c, y, x)
    ensures DescendantsFirst(c, a + b)
  {
    hide Under;
    var l := a + b;
    forall i, j | |a| <= i < |l| && 0 <= j < |a|
      ensures !Under(c, l[i], l[j])
    {
      assert l[i] in b && l[j] in a;
    }
  }

  /** Nothing outside the subtree of `t` is under a window of the subtree. */
  lemma OutsideSubtree(c: Scene, x: Window, y: Window, t: Window)
    requires c.Valid() && Within(c, x, t) && y in c.wins && !Within(c, y, t)
    ensures !Under(c, y, x) && y != x
  {
    if Under(c, y, x) && x != t {
      UnderTransitive(c, y, x, t);
    }
  }

  /** What the walk collects around a transient `t` of `w` is apart from what it collects below it. */
  lemma RestApart(c: Scene, w: Window, avoid: Window, sibling: Window, k: nat, x: Window)
    requires c.Valid() && NoGroups(c) && w in c.wins && 0 < k <= |c.stack|
    requires c.wins[c.stack[k - 1]].transientFor == w
    requires x in TransientsBelow(c, w, avoid, sibling, k - 1).list
    ensures !Within(c, x, c.stack[k - 1])
  {
    if Within(c, x, c.stack[k - 1]) {
      TransientsSound(c, w, avoid, sibling, k - 1, x);
      var i :| 0 <= i < k - 1 && c.wins[c.stack[i]].transientFor == w && Within(c, x, c.stack[i]);
      SubtreesApart(c, x, c.stack[k - 1], c.stack[i], w);
    }
  }

  /** No window is collected twice, and each comes before the windows it is under. */
  lemma {:induction false} TransientsOrdered(c: Scene, w: Window, avoid: Window, sibling: Window, k: nat)
    requires c.Valid() && NoGroups(c) && w in c.wins && k <= |c.stack|
    ensures var list := TransientsBelow(c, w, avoid, sibling, k).list;
            Distinct(list) && DescendantsFirst(c, list)
    decreases GroupOf(c, w) != NONE, Levels(c, w), k
  {
    if k > 0 {
      var t := c.stack[k - 1];
      if t == w || t == avoid || !Follows(c, t, w) {
        TransientsOrdered(c, w, avoid, sibling, k - 1);
      } else {
        Deeper(c, t, w);
        FollowsIsTransient(c, t, w);
        TransientsOrdered(c, t, avoid, sibling, |c.stack|);
        TransientsOrdered(c, w, avoid, sibling, k - 1);
        var above := StackTransients(c, t, avoid, sibling);
        if above.ok && t != sibling {
          var rest := TransientsBelow(c, w, avoid, sibling, k - 1);
          var first := above.list + (if Restackable(c, t) then [t] else []);
          forall x | x in above.list
            ensures Under(c, x, t)
          {
            TransientsSound(c, t, avoid, sibling, |c.stack|, x);
          }
          SubtreeOrdered(c, t, above.list);
          forall x, y | x in first && y in rest.list
            ensures x != y && !Under(c, y, x)
          {
            TransientsSound(c, w, avoid, sibling, k - 1, y);
            RestApart(c, w, avoid, sibling, k, y);
            OutsideSubtree(c, x, y, t);
          }
          DistinctConcat(first, rest.list);
          DescendantsFirstConcat(c, first, rest.list);
        }
      }
    }
  }

  /** A window put after windows of its own subtree. */
  lemma SubtreeOrdered(c: Scene, t: Window, list: seq<Window>)
    requires c.Valid() && t in c.wins && Distinct(list) && DescendantsFirst(c, list)
    requires forall x :: x in list ==> Under(c, x, t)
    ensures Distinct(list + [t]) && DescendantsFirst(c, list + [t])
  {
    forall x | x in list
      ensures x != t && !Under(c, t, x)
    {
      UnderRank(c, x, t);
      if Under(c, t, x) {
        UnderRank(c, t, x);
      }
    }
    if Under(c, t, t) {
      UnderRank(c, t, t);
    }
    DistinctConcat(list, [t]);
    DescendantsFirstConcat(c, list, [t]);
  }

  /** The walk can only fail because the sibling is itself somewhere under `w`. */
  lemma {:induction false} TransientsFail(c: Scene, w: Window, avoid: Window, sibling: Window, k: nat)
    requires c.Valid() && NoGroups(c) && w in c.wins && k <= |c.stack|
    requires !TransientsBelow(c, w, avoid, sibling, k).ok
    ensures Under(c, sibling, w)
    decreases GroupOf(c, w) != NONE, Levels(c, w), k
  {
    var t := c.stack[k - 1];
    if t == w || t == avoid || !Follows(c, t, w) {
      TransientsFail(c, w, avoid, sibling, k - 1);
    } else {
      Deeper(c, t, w);
      FollowsIsTransient(c, t, w);
      UnderStep(c, t, w);
      if !StackTransients(c, t, avoid, sibling).ok {
        TransientsFail(c, t, avoid, sibling, |c.stack|);
        UnderTransitive(c, sibling, t, w);
      } else if t != sibling {
        TransientsFail(c, w, avoid, sibling, k - 1);
      }
    }
  }

  lemma {:induction false} AncestorsSound(c: Scene, w: Window, sibling: Window, x: Window)
    requires c.Valid() && NoGroups(c) && w in c.wins
    requires x in StackAncestors(c, w, sibling)
    ensures x in c.wins && Restackable(c, x) && x != sibling && !Within(c, x, w)
    decreases RankOf(c.Links())(w)
  {
    var a := c.wins[w].transientFor;
    ParentRank(c, w);
    UnderStep(c, w, a);
    if x in StackTransients(c, a, w, sibling).list {
      TransientsSound(c, a, w, sibling, |c.stack|, x);
      if Under(c, a, w) {
        UnderRank(c, a, w);
      }
    } else {
      if x in StackAncestors(c, a, sibling) {
        AncestorsSound(c, a, sibling, x);
      }
      if Under(c, x, w) {
        UnderTransitive(c, x, w, a);
        if x == a {
          UnderRank(c, a, a);
        }
      }
    }
  }

  /** No ancestor, and no window collected around one, is collected twice; each comes before the
      windows it is under. */
  lemma {:induction false} AncestorsOrdered(c: Scene, w: Window, sibling: Window)
    requires c.Valid() && NoGroups(c) && w in c.wins
    ensures Distinct(StackAncestors(c, w, sibling)) && DescendantsFirst(c, StackAncestors(c, w, sibling))
    decreases RankOf(c.Links())(w)
  {
    var a := c.wins[w].transientFor;
    if a in c.wins && a != sibling {
      ParentRank(c, w);
      var others := StackTransients(c, a, w, sibling);
      TransientsOrdered(c, a, w, sibling, |c.stack|);
      AncestorsOrdered(c, a, sibling);
      forall x | x in others.list
        ensures Under(c, x, a)
      {
        TransientsSound(c, a, w, sibling, |c.stack|, x);
      }
      SubtreeOrdered(c, a, others.list);
      var first := others.list + (if Restackable(c, a) then [a] else []);
      var rest := StackAncestors(c, a, sibling);
      forall x, y | x in first && y in rest
        ensures x != y && !Under(c, y, x)
      {
        AncestorsSound(c, a, sibling, y);
        OutsideSubtree(c, x, y, a);
      }
      DistinctConcat(first, rest);
      DescendantsFirstConcat(c, first, rest);
    }
  }
}
