/** The walks of a restack where there are window groups. */
module GroupWalks {
  import opened Sequences
  import opened Windows
  import opened Stacking
  import opened RestackProofs

  /** Two windows that are restacked along with `w` have no transients in common, and `w` is no transient of
      theirs. */
  lemma FollowersApart(c: Scene, w: Window, t: Window, u: Window, x: Window)
    requires c.Valid() && w in c.wins && t in c.wins && u in c.wins && t != u && t != w && u != w
    requires Follows(c, t, w) && Follows(c, u, w) && Within(c, x, t)
    ensures !Within(c, x, u)
  {
    if Within(c, x, u) {
      UnderStep(c, t, u);
      UnderStep(c, u, t);
      UnderStep(c, w, t);
      UnderStep(c, w, u);
      if x != t && x != u {
        OneChain(c, x, t, u);
      }
      if c.wins[t].transientFor == w && c.wins[u].transientFor == w {
        SubtreesApart(c, x, t, u, w);
      }
    }
  }

  lemma FollowerNotAbove(c: Scene, w: Window, t: Window)
    requires c.Valid() && w in c.wins && t in c.wins && t != w && Follows(c, t, w)
    ensures !Within(c, w, t)
  {
    if Under(c, w, t) {
      UnderStep(c, w, t);
      UnderStep(c, t, w);
      UnderRank(c, w, t);
      UnderRank(c, t, w);
    }
  }

  /** Through which window `x` has been collected for `w`. */
  ghost predicate Via(c: Scene, w: Window, avoid: Window, x: Window, i: nat)
    requires c.Valid() && w in c.wins && i < |c.stack|
  {
    var t := c.stack[i];
    t != w && t != avoid && Follows(c, t, w) && Within(c, x, t)
  }

  /** What the walk collects below index `k` belongs to the windows that are restacked along with `w`. */
  lemma {:induction false} Collects(c: Scene, w: Window, avoid: Window, sibling: Window, k: nat, x: Window)
    requires c.Valid() && w in c.wins && k <= |c.stack|
    requires x in TransientsBelow(c, w, avoid, sibling, k).list
    ensures x in c.wins && Restackable(c, x)
    ensures exists i :: 0 <= i < k && Via(c, w, avoid, x, i)
    decreases GroupOf(c, w) != NONE, Levels(c, w), k
  {
    var t := c.stack[k - 1];
    if t == w || t == avoid || !Follows(c, t, w) {
      Collects(c, w, avoid, sibling, k - 1, x);
    } else {
      Deeper(c, t, w);
      if x in StackTransients(c, t, avoid, sibling).list {
        Collects(c, t, avoid, sibling, |c.stack|, x);
        var i :| 0 <= i < |c.stack| && Via(c, t, avoid, x, i);
        UnderChild(c, x, c.stack[i], t);
        assert Via(c, w, avoid, x, k - 1);
      } else if x == t && Restackable(c, t) {
        assert Via(c, w, avoid, x, k - 1);
      } else {
        Collects(c, w, avoid, sibling, k - 1, x);
      }
    }
  }

  lemma UnderChild(c: Scene, x: Window, u: Window, t: Window)
    requires c.Valid() && u in c.wins && t in c.wins && GroupOf(c, t) == NONE && Follows(c, u, t) && Within(c, x, u)
    ensures Under(c, x, t) && x != t
  {
    UnderStep(c, u, t);
    if x != u {
      UnderTransitive(c, x, u, t);
    }
    UnderRank(c, x, t);
  }

  /** What has been collected around one window that goes along is under it. */
  lemma AroundUnder(c: Scene, t: Window, avoid: Window, sibling: Window, x: Window)
    requires c.Valid() && t in c.wins && GroupOf(c, t) == NONE
    requires x in StackTransients(c, t, avoid, sibling).list
    ensures Under(c, x, t) && x != t
  {
    Collects(c, t, avoid, sibling, |c.stack|, x);
    var i :| 0 <= i < |c.stack| && Via(c, t, avoid, x, i);
    UnderChild(c, x, c.stack[i], t);
  }

  /** No walk collects a window twice. */
  lemma {:induction false} CollectsOnce(c: Scene, w: Window, avoid: Window, sibling: Window, k: nat)
    requires c.Valid() && w in c.wins && k <= |c.stack|
    ensures Distinct(TransientsBelow(c, w, avoid, sibling, k).list)
    decreases GroupOf(c, w) != NONE, Levels(c, w), k
  {
    if k > 0 {
      var t := c.stack[k - 1];
      CollectsOnce(c, w, avoid, sibling, k - 1);
      if t != w && t != avoid && Follows(c, t, w) {
        Deeper(c, t, w);
        CollectsOnce(c, t, avoid, sibling, |c.stack|);
        var above := StackTransients(c, t, avoid, sibling);
        var rest := TransientsBelow(c, w, avoid, sibling, k - 1);
        forall x | x in above.list
          ensures Under(c, x, t) && x != t
        {
          AroundUnder(c, t, avoid, sibling, x);
        }
        forall y | y in rest.list
          ensures !Within(c, y, t)
        {
          CollectedBelow(c, w, avoid, sibling, k, y);
        }
        var own := if Restackable(c, t) then [t] else [];
        DistinctConcat(above.list, own);
        DistinctConcat(above.list + own, rest.list);
      }
    }
  }

  lemma CollectedOnce(c: Scene, w: Window, avoid: Window, sibling: Window)
    requires c.Valid() && w in c.wins
    ensures Distinct(StackTransients(c, w, avoid, sibling).list)
  {
    CollectsOnce(c, w, avoid, sibling, |c.stack|);
  }

  lemma CollectedBelow(c: Scene, w: Window, avoid: Window, sibling: Window, k: nat, y: Window)
    requires c.Valid() && w in c.wins && 0 < k <= |c.stack|
    requires c.stack[k - 1] != w && Follows(c, c.stack[k - 1], w)
    requires y in TransientsBelow(c, w, avoid, sibling, k - 1).list
    ensures !Within(c, y, c.stack[k - 1])
  {
    Collects(c, w, avoid, sibling, k - 1, y);
    var i :| 0 <= i < k - 1 && Via(c, w, avoid, y, i);
    FollowersApart(c, w, c.stack[i], c.stack[k - 1], y);
  }

  /** A walk that comes to its end has collected all that goes along and can be restacked. */
  lemma {:induction false} CollectsAll(c: Scene, w: Window, avoid: Window, sibling: Window, k: nat, i: nat, x: Window)
    requires c.Valid() && w in c.wins && i < k <= |c.stack|
    requires TransientsBelow(c, w, avoid, sibling, k).ok
    requires Via(c, w, avoid, x, i) && Restackable(c, x) && !Within(c, x, avoid)
    ensures x in TransientsBelow(c, w, avoid, sibling, k).list
    decreases GroupOf(c, w) != NONE, Levels(c, w), k
  {
    var t := c.stack[k - 1];
    if t == w || t == avoid || !Follows(c, t, w) {
      CollectsAll(c, w, avoid, sibling, k - 1, i, x);
    } else {
      Deeper(c, t, w);
      if i < k - 1 {
        CollectsAll(c, w, avoid, sibling, k - 1, i, x);
      } else if x != t {
        var j := TowardChild(c, x, t);
        ParentRank(c, c.stack[j]);
        assert Via(c, t, avoid, x, j);
        CollectsAll(c, t, avoid, sibling, |c.stack|, j, x);
      }
    }
  }

  /** `x` goes along with `w`, or belongs to a window that does. */
  ghost predicate GoesAlong(c: Scene, x: Window, w: Window)
    requires c.Valid() && w in c.wins
  {
    exists i :: 0 <= i < |c.stack| && Via(c, w, NONE, x, i)
  }

  /** The walk fails where the sibling belongs to a window that goes along. */
  lemma {:induction false} WalkMeets(c: Scene, w: Window, avoid: Window, sibling: Window, k: nat, i: nat)
    requires c.Valid() && w in c.wins && i < k <= |c.stack|
    requires Via(c, w, avoid, sibling, i) && !Within(c, sibling, avoid)
    ensures !TransientsBelow(c, w, avoid, sibling, k).ok
    decreases GroupOf(c, w) != NONE, Levels(c, w), k
  {
    var t := c.stack[k - 1];
    if t == w || t == avoid || !Follows(c, t, w) {
      WalkMeets(c, w, avoid, sibling, k - 1, i);
    } else {
      Deeper(c, t, w);
      if i < k - 1 {
        WalkMeets(c, w, avoid, sibling, k - 1, i);
      } else if sibling != t {
        var j := TowardChild(c, sibling, t);
        ParentRank(c, c.stack[j]);
        assert Via(c, t, avoid, sibling, j);
        WalkMeets(c, t, avoid, sibling, |c.stack|, j);
      }
    }
  }

  /** And only there. */
  lemma {:induction false} WalkFails(c: Scene, w: Window, avoid: Window, sibling: Window, k: nat)
    requires c.Valid() && w in c.wins && k <= |c.stack| && !TransientsBelow(c, w, avoid, sibling, k).ok
    ensures exists i :: 0 <= i < k && Via(c, w, avoid, sibling, i)
    decreases GroupOf(c, w) != NONE, Levels(c, w), k
  {
    var t := c.stack[k - 1];
    if t == w || t == avoid || !Follows(c, t, w) {
      WalkFails(c, w, avoid, sibling, k - 1);
    } else {
      Deeper(c, t, w);
      if !StackTransients(c, t, avoid, sibling).ok {
        WalkFails(c, t, avoid, sibling, |c.stack|);
        var i :| 0 <= i < |c.stack| && Via(c, t, avoid, sibling, i);
        UnderChild(c, sibling, c.stack[i], t);
        assert Via(c, w, avoid, sibling, k - 1);
      } else if t == sibling {
        assert Via(c, w, avoid, sibling, k - 1);
      } else {
        WalkFails(c, w, avoid, sibling, k - 1);
      }
    }
  }

  /** The walk over what goes along with `w` comes to its end if and only if the sibling is none of it. */
  lemma WalkEndsIff(c: Scene, w: Window, sibling: Window)
    requires c.Valid() && w in c.wins
    ensures StackTransients(c, w, NONE, sibling).ok <==> !GoesAlong(c, sibling, w)
  {
    if GoesAlong(c, sibling, w) {
      var i :| 0 <= i < |c.stack| && Via(c, w, NONE, sibling, i);
      NothingUnderNone(c, sibling);
      WalkMeets(c, w, NONE, sibling, |c.stack|, i);
    }
    if !StackTransients(c, w, NONE, sibling).ok {
      WalkFails(c, w, NONE, sibling, |c.stack|);
    }
  }

  /** Without group transients, only transients go along. */
  lemma PlainWalkEndsIff(c: Scene, w: Window, sibling: Window)
    requires c.Valid() && NoGroups(c) && w in c.wins
    ensures StackTransients(c, w, NONE, sibling).ok <==> !Under(c, sibling, w)
  {
    WalkEndsIff(c, w, sibling);
    if GoesAlong(c, sibling, w) {
      var i :| 0 <= i < |c.stack| && Via(c, w, NONE, sibling, i);
      FollowsIsTransient(c, c.stack[i], w);
      UnderStep(c, c.stack[i], w);
      if sibling != c.stack[i] {
        UnderTransitive(c, sibling, c.stack[i], w);
      }
    }
    if Under(c, sibling, w) {
      var i := TowardChild(c, sibling, w);
      ParentRank(c, c.stack[i]);
      NothingUnderNone(c, sibling);
      assert Via(c, w, NONE, sibling, i);
    }
  }

  lemma PlainGoesAlong(c: Scene, w: Window, x: Window)
    requires c.Valid() && NoGroups(c) && w in c.wins
    ensures GoesAlong(c, x, w) <==> Under(c, x, w)
  {
    WalkEndsIff(c, w, x);
    PlainWalkEndsIff(c, w, x);
  }
}
