/** When a restack collects a window twice in a row: two main windows of a group share it. */
module GroupClashes {
  import opened Sequences
  import opened TransientForest
  import opened Windows
  import opened Stacking
  import opened RestackProofs
  import opened GroupWalks
  import RestackTheorems

  /** No element follows itself. */
  ghost predicate NoneTwice<T>(s: seq<T>) {
    forall i :: 1 <= i < |s| ==> s[i] != s[i - 1]
  }

  /** `t` begins with what `s` ends with. */
  predicate Meets(s: seq<Window>, t: seq<Window>) {
    s != [] && t != [] && s[|s| - 1] == t[0]
  }

  lemma NoneTwiceConcat(s: seq<Window>, t: seq<Window>)
    ensures NoneTwice(s + t) <==> NoneTwice(s) && NoneTwice(t) && !Meets(s, t)
  {
    var l := s + t;
    if NoneTwice(l) {
      forall i | 1 <= i < |s|
        ensures s[i] != s[i - 1]
      {
        assert l[i] == s[i] && l[i - 1] == s[i - 1];
      }
      forall i | 1 <= i < |t|
        ensures t[i] != t[i - 1]
      {
        assert l[|s| + i] == t[i] && l[|s| + i - 1] == t[i - 1];
      }
      if s != [] && t != [] {
        assert l[|s|] == t[0] && l[|s| - 1] == s[|s| - 1];
      }
    }
  }

  lemma NoneTwiceReversed(s: seq<Window>)
    ensures NoneTwice(Reverse(s)) <==> NoneTwice(s)
  {
    var r, n := Reverse(s), |s|;
    if NoneTwice(s) {
      forall i | 1 <= i < n
        ensures r[i] != r[i - 1]
      {
        assert s[n - i] != s[n - i - 1];
      }
    }
    if NoneTwice(r) {
      forall i | 1 <= i < n
        ensures s[i] != s[i - 1]
      {
        assert r[n - i] != r[n - i - 1];
      }
    }
  }

  lemma DistinctNoneTwice(s: seq<Window>)
    requires Distinct(s)
    ensures NoneTwice(s)
  {
  }

  /** Whether `a` is a main window of the group that `x` is transient for. */
  predicate IsMain(c: Scene, a: Window, x: Window)
    requires a in c.wins && x in c.wins
  {
    var p, leader := c.wins[a], c.wins[x].clientLeader;
    p.clientLeader == leader && p.transientFor == NONE && !IsGroupTransient(p, leader, c.root)
  }

  /** Whether a main window that the climb passes is put on the list. */
  predicate PutOn(c: Scene, a: Window)
    requires a in c.wins
  {
    Restackable(c, a) && c.wins[a].wtype != Desktop
  }

  /** Whether the climb of the group transient `x` goes on below its main window `a`. */
  predicate GoesOn(c: Scene, x: Window, sibling: Window, a: Window)
    requires c.Sound() && x in c.wins && a in c.wins
  {
    && a != sibling && StackTransients(c, a, x, sibling).ok
    && (c.wins[a].wtype == Dock ==> c.wins[x].wtype == Dock)
  }

  /** What is collected around the topmost main window below index `k`. */
  function NextTransients(c: Scene, x: Window, sibling: Window, k: nat): seq<Window>
    requires c.Sound() && x in c.wins && k <= |c.stack|
  {
    if k == 0 then []
    else
      var a := c.stack[k - 1];
      if !IsMain(c, a, x) then NextTransients(c, x, sibling, k - 1)
      else if a == sibling then []
      else StackTransients(c, a, x, sibling).list
  }

  /** Of two main windows, one after the other, below index `k`, the upper one is not put on the list, and the
      last window collected around it is the first one collected around the lower one. */
  predicate GroupClash(c: Scene, x: Window, sibling: Window, k: nat)
    requires c.Sound() && x in c.wins && k <= |c.stack|
  {
    k > 0 &&
    var a := c.stack[k - 1];
    if !IsMain(c, a, x) then GroupClash(c, x, sibling, k - 1)
    else
      GoesOn(c, x, sibling, a) &&
      ((!PutOn(c, a) && Meets(StackTransients(c, a, x, sibling).list, NextTransients(c, x, sibling, k - 1)))
       || GroupClash(c, x, sibling, k - 1))
  }

  /** The climb from `w` comes to a window that is transient for a group where this happens. */
  predicate Clash(c: Scene, w: Window, sibling: Window)
    requires c.Sound() && w in c.wins
    decreases RankOf(c.Links())(w)
  {
    var a := c.wins[w].transientFor;
    if a in c.wins && a != sibling then
      assert c.Links()[w] == a;
      && StackTransients(c, a, w, sibling).ok && c.wins[a].wtype != Desktop
      && (c.wins[a].wtype == Dock ==> c.wins[w].wtype == Dock) && Clash(c, a, sibling)
    else IsGroupTransient(c.wins[w], c.wins[w].clientLeader, c.root) && GroupClash(c, w, sibling, |c.stack|)
  }

  lemma MainFollowed(c: Scene, a: Window, x: Window)
    requires c.Valid() && a in c.wins && x in c.wins && IsMain(c, a, x)
    requires IsGroupTransient(c.wins[x], c.wins[x].clientLeader, c.root)
    ensures a != x && Follows(c, x, a) && !Within(c, a, x)
    ensures forall y :: !Under(c, a, y)
  {
    forall y
      ensures !Under(c, a, y)
    {
      UnderStep(c, a, y);
    }
  }

  /** A window that goes along with one main window either goes along with all, or belongs to that one. */
  lemma SharedFollower(c: Scene, x: Window, a: Window, b: Window, i: nat, j: nat, z: Window)
    requires c.Valid() && x in c.wins && a in c.wins && b in c.wins && a != b && i < |c.stack| && j < |c.stack|
    requires IsMain(c, a, x) && IsMain(c, b, x) && IsGroupTransient(c.wins[x], c.wins[x].clientLeader, c.root)
    requires Via(c, a, x, z, i) && Via(c, b, x, z, j)
    ensures i == j && forall m :: m in c.wins && IsMain(c, m, x) ==> Via(c, m, x, z, i)
  {
    var t, u := c.stack[i], c.stack[j];
    MainFollowed(c, a, x);
    MainFollowed(c, b, x);
    UnderStep(c, t, u);
    UnderStep(c, u, t);
    if t != u && z != t && z != u {
      OneChain(c, z, t, u);
    }
  }

  /** What is collected for a main window is no main window. */
  lemma CollectedNoMain(c: Scene, x: Window, sibling: Window, a: Window, z: Window) returns (i: nat)
    requires c.Valid() && x in c.wins && a in c.wins && IsMain(c, a, x)
    requires IsGroupTransient(c.wins[x], c.wins[x].clientLeader, c.root)
    requires z in StackTransients(c, a, x, sibling).list
    ensures z in c.wins && Restackable(c, z) && !IsMain(c, z, x) && !Within(c, z, x)
    ensures i < |c.stack| && Via(c, a, x, z, i)
  {
    Collects(c, a, x, sibling, |c.stack|, z);
    i :| 0 <= i < |c.stack| && Via(c, a, x, z, i);
    MainFollowed(c, a, x);
    FollowersApart(c, a, c.stack[i], x, z);
    if z != c.stack[i] {
      UnderStep(c, z, c.stack[i]);
    }
  }

  /** The list for a group transient holds main windows below index `k` and what is collected for them. */
  lemma {:induction false} GroupFrom(c: Scene, x: Window, sibling: Window, k: nat, z: Window) returns (j: nat)
    requires c.Valid() && x in c.wins && k <= |c.stack| && z in GroupAncestors(c, x, sibling, k)
    ensures j < k && IsMain(c, c.stack[j], x)
    ensures z == c.stack[j] || z in StackTransients(c, c.stack[j], x, sibling).list
    decreases k
  {
    hide StackTransients, IsGroupTransient;
    var a := c.stack[k - 1];
    if IsMain(c, a, x) && (z == a || z in StackTransients(c, a, x, sibling).list) {
      j := k - 1;
    } else {
      j := GroupFrom(c, x, sibling, k - 1, z);
    }
  }

  /** What is collected for two main windows is collected for every one whose walk comes to its end. */
  lemma SharedByAll(c: Scene, x: Window, sibling: Window, a: Window, b: Window, m: Window, z: Window)
    requires c.Valid() && x in c.wins && a in c.wins && b in c.wins && m in c.wins && a != b
    requires IsMain(c, a, x) && IsMain(c, b, x) && IsMain(c, m, x)
    requires IsGroupTransient(c.wins[x], c.wins[x].clientLeader, c.root)
    requires z in StackTransients(c, a, x, sibling).list && z in StackTransients(c, b, x, sibling).list
    requires StackTransients(c, m, x, sibling).ok
    ensures z in StackTransients(c, m, x, sibling).list
  {
    hide IsMain, Via, IsGroupTransient;
    var i := CollectedNoMain(c, x, sibling, a, z);
    var j := CollectedNoMain(c, x, sibling, b, z);
    SharedFollower(c, x, a, b, i, j, z);
    CollectsAll(c, m, x, sibling, |c.stack|, i, z);
  }

  lemma FirstOf(s: seq<Window>, t: seq<Window>)
    ensures s != [] ==> s + t != [] && (s + t)[0] == s[0]
    ensures s == [] ==> s + t == t
  {
  }

  /** How the list for a group transient begins at index `k`. */
  lemma GroupStep(c: Scene, x: Window, sibling: Window, k: nat)
    requires c.Valid() && x in c.wins && 0 < k <= |c.stack|
    ensures var a, rest := c.stack[k - 1], GroupAncestors(c, x, sibling, k - 1);
            var own := if PutOn(c, a) then [a] else [];
            GroupAncestors(c, x, sibling, k)
            == if !IsMain(c, a, x) then rest
               else if a == sibling then []
               else if GoesOn(c, x, sibling, a) then
                 StackTransients(c, a, x, sibling).list + (own + rest)
               else StackTransients(c, a, x, sibling).list
  {
    hide StackTransients, IsGroupTransient, Restackable;
  }

  /** What follows in the list meets what was collected for a main window above only at its beginning. */
  lemma {:induction false} MeetsNext(c: Scene, x: Window, sibling: Window, n: nat, k: nat)
    requires c.Valid() && x in c.wins && k <= n < |c.stack| && IsMain(c, c.stack[n], x)
    requires IsGroupTransient(c.wins[x], c.wins[x].clientLeader, c.root)
    ensures var list := StackTransients(c, c.stack[n], x, sibling).list;
            Meets(list, GroupAncestors(c, x, sibling, k)) <==> Meets(list, NextTransients(c, x, sibling, k))
    decreases k
  {
    hide StackTransients, IsGroupTransient, IsMain, Via, PutOn;
    var list := StackTransients(c, c.stack[n], x, sibling).list;
    if k > 0 {
      var a := c.stack[k - 1];
      GroupStep(c, x, sibling, k);
      if !IsMain(c, a, x) {
        MeetsNext(c, x, sibling, n, k - 1);
      } else if a != sibling {
        var others := StackTransients(c, a, x, sibling);
        var rest := GroupAncestors(c, x, sibling, k - 1);
        var own := if PutOn(c, a) then [a] else [];
        FirstOf(others.list, own + rest);
        FirstOf(own, rest);
        if others == Collected(true, []) && list != [] {
          LastNotBelow(c, x, sibling, n, k);
          assert list[|list| - 1] in list;
          assert rest != [] ==> rest[0] in rest;
        }
      }
    }
  }

  lemma LastNotBelow(c: Scene, x: Window, sibling: Window, n: nat, k: nat)
    requires c.Valid() && x in c.wins && 0 < k <= n < |c.stack|
    requires IsMain(c, c.stack[n], x) && IsMain(c, c.stack[k - 1], x)
    requires IsGroupTransient(c.wins[x], c.wins[x].clientLeader, c.root)
    requires StackTransients(c, c.stack[k - 1], x, sibling) == Collected(true, [])
    ensures forall z :: z in StackTransients(c, c.stack[n], x, sibling).list ==>
                          z != c.stack[k - 1] && z !in GroupAncestors(c, x, sibling, k - 1)
  {
    hide StackTransients, IsGroupTransient, IsMain, GroupAncestors, Via;
    forall z | z in StackTransients(c, c.stack[n], x, sibling).list
      ensures z != c.stack[k - 1] && z !in GroupAncestors(c, x, sibling, k - 1)
    {
      var i := CollectedNoMain(c, x, sibling, c.stack[n], z);
      if z in GroupAncestors(c, x, sibling, k - 1) {
        var j := GroupFrom(c, x, sibling, k - 1, z);
        SharedByAll(c, x, sibling, c.stack[n], c.stack[j], c.stack[k - 1], z);
      }
    }
  }

  /** No window is twice in a row in the list for a group transient, unless two main windows clash. */
  lemma {:induction false} GroupOnce(c: Scene, x: Window, sibling: Window, k: nat)
    requires c.Valid() && x in c.wins && k <= |c.stack|
    requires IsGroupTransient(c.wins[x], c.wins[x].clientLeader, c.root)
    ensures NoneTwice(GroupAncestors(c, x, sibling, k)) <==> !GroupClash(c, x, sibling, k)
    decreases k
  {
    hide StackTransients, IsGroupTransient, IsMain, Via, PutOn, NoneTwice, Meets;
    if k == 0 {
      DistinctNoneTwice([]);
    } else {
      var a := c.stack[k - 1];
      GroupStep(c, x, sibling, k);
      GroupOnce(c, x, sibling, k - 1);
      if IsMain(c, a, x) {
        var others, rest := StackTransients(c, a, x, sibling).list, GroupAncestors(c, x, sibling, k - 1);
        CollectedOnce(c, a, x, sibling);
        DistinctNoneTwice(others);
        MeetsNext(c, x, sibling, k - 1, k - 1);
        MainOnce(c, x, sibling, k);
        DistinctNoneTwice([]);
      }
    }
  }

  /** The part of the list for one main window, and what follows it. */
  lemma MainOnce(c: Scene, x: Window, sibling: Window, k: nat)
    requires c.Valid() && x in c.wins && 0 < k <= |c.stack| && IsMain(c, c.stack[k - 1], x)
    requires IsGroupTransient(c.wins[x], c.wins[x].clientLeader, c.root)
    ensures var a, rest := c.stack[k - 1], GroupAncestors(c, x, sibling, k - 1);
            var others, own := StackTransients(c, a, x, sibling).list, if PutOn(c, a) then [a] else [];
            NoneTwice(others + (own + rest)) <==> NoneTwice(rest) && (PutOn(c, a) || !Meets(others, rest))
  {
    hide StackTransients, IsGroupTransient, IsMain, Via, PutOn, NoneTwice, GroupAncestors;
    var a, rest := c.stack[k - 1], GroupAncestors(c, x, sibling, k - 1);
    var others, own := StackTransients(c, a, x, sibling).list, if PutOn(c, a) then [a] else [];
    CollectedOnce(c, a, x, sibling);
    DistinctNoneTwice(others);
    DistinctNoneTwice(own);
    NoneTwiceConcat(own, rest);
    NoneTwiceConcat(others, own + rest);
    if rest != [] {
      MainBelow(c, x, sibling, k, rest[0]);
    }
    if others != [] {
      var i := CollectedNoMain(c, x, sibling, a, others[|others| - 1]);
    }
    FirstOf(own, rest);
  }

  lemma MainBelow(c: Scene, x: Window, sibling: Window, k: nat, z: Window)
    requires c.Valid() && x in c.wins && 0 < k <= |c.stack| && IsMain(c, c.stack[k - 1], x)
    requires IsGroupTransient(c.wins[x], c.wins[x].clientLeader, c.root)
    requires z in GroupAncestors(c, x, sibling, k - 1)
    ensures z != c.stack[k - 1]
  {
    hide StackTransients, IsGroupTransient, IsMain, Via, GroupAncestors;
    var j := GroupFrom(c, x, sibling, k - 1, z);
    if z != c.stack[j] {
      var i := CollectedNoMain(c, x, sibling, c.stack[j], z);
    }
  }

  /** Nothing in the list of the ancestors of `w` is `w` or under it. */
  lemma {:induction false} AncestorsOutside(c: Scene, w: Window, sibling: Window, x: Window)
    requires c.Valid() && w in c.wins && x in StackAncestors(c, w, sibling)
    ensures x in c.wins && !Within(c, x, w)
    decreases RankOf(c.Links())(w)
  {
    hide StackTransients, IsGroupTransient, IsMain, Via, GroupAncestors;
    var a := c.wins[w].transientFor;
    if a in c.wins && a != sibling {
      ParentRank(c, w);
      UnderStep(c, w, a);
      if x in StackTransients(c, a, w, sibling).list {
        BesideChild(c, a, w, sibling, x);
      } else {
        if x != a {
          AncestorsOutside(c, a, sibling, x);
        }
        if Within(c, x, w) {
          AboveParent(c, x, w);
        }
      }
    } else {
      var j := GroupFrom(c, w, sibling, |c.stack|, x);
      MainFollowed(c, c.stack[j], w);
      if x != c.stack[j] {
        var i := CollectedNoMain(c, w, sibling, c.stack[j], x);
      }
    }
  }

  lemma AboveParent(c: Scene, x: Window, w: Window)
    requires c.Valid() && w in c.wins && c.wins[w].transientFor in c.wins && Within(c, x, w)
    ensures Under(c, x, c.wins[w].transientFor) && x != c.wins[w].transientFor
  {
    UnderStep(c, w, c.wins[w].transientFor);
    if x != w {
      UnderTransitive(c, x, w, c.wins[w].transientFor);
    }
    UnderRank(c, x, c.wins[w].transientFor);
  }

  /** What is collected for the parent of `w` without `w` is not in the subtree of `w`. */
  lemma BesideChild(c: Scene, a: Window, w: Window, sibling: Window, x: Window)
    requires c.Valid() && a in c.wins && w in c.wins && c.wins[w].transientFor == a
    requires x in StackTransients(c, a, w, sibling).list
    ensures x in c.wins && !Within(c, x, w)
  {
    Collects(c, a, w, sibling, |c.stack|, x);
    var i :| 0 <= i < |c.stack| && Via(c, a, w, x, i);
    ParentRank(c, w);
    FollowersApart(c, a, c.stack[i], w, x);
  }

  lemma CollectedNotSelf(c: Scene, w: Window, avoid: Window, sibling: Window)
    requires c.Valid() && w in c.wins
    ensures w !in StackTransients(c, w, avoid, sibling).list
  {
    if w in StackTransients(c, w, avoid, sibling).list {
      Collects(c, w, avoid, sibling, |c.stack|, w);
      var i :| 0 <= i < |c.stack| && Via(c, w, avoid, w, i);
      FollowerNotAbove(c, w, c.stack[i]);
    }
  }

  /** What follows the parent of `w` in the list has nothing to do with what is collected for the parent. */
  lemma ClimbApart(c: Scene, a: Window, w: Window, sibling: Window, x: Window)
    requires c.Valid() && a in c.wins && w in c.wins
    requires x in StackTransients(c, a, w, sibling).list || x == a
    ensures x !in StackAncestors(c, a, sibling)
  {
    hide StackTransients;
    if x in StackAncestors(c, a, sibling) {
      AncestorsOutside(c, a, sibling, x);
      if GroupOf(c, a) == NONE && x != a {
        AroundUnder(c, a, w, sibling, x);
      }
    }
  }

  /** No window is twice in a row in the list of the ancestors, unless there is a clash. */
  lemma {:induction false} AncestorsOnce(c: Scene, w: Window, sibling: Window)
    requires c.Valid() && w in c.wins
    ensures NoneTwice(StackAncestors(c, w, sibling)) <==> !Clash(c, w, sibling)
    decreases RankOf(c.Links())(w)
  {
    hide StackTransients, IsGroupTransient, GroupAncestors, GroupClash, NoneTwice, Restackable;
    var a := c.wins[w].transientFor;
    if a in c.wins && a != sibling {
      ParentRank(c, w);
      AncestorsOnce(c, a, sibling);
      CollectedOnce(c, a, w, sibling);
      CollectedNotSelf(c, a, w, sibling);
      var others := StackTransients(c, a, w, sibling).list;
      var own := others + (if Restackable(c, a) then [a] else []);
      var rest := StackAncestors(c, a, sibling);
      DistinctNoneTwice(others);
      DistinctNoneTwice(own);
      forall x | x in own
        ensures x !in rest
      {
        ClimbApart(c, a, w, sibling, x);
      }
      NoneTwiceConcat(own, rest);
      assert own != [] ==> own[|own| - 1] in own;
    } else {
      DistinctNoneTwice([]);
      if IsGroupTransient(c.wins[w], c.wins[w].clientLeader, c.root) {
        GroupOnce(c, w, sibling, |c.stack|);
      }
    }
  }

  /** A restack moves no window twice in a row, unless there is a clash. */
  lemma BlockOnce(c: Scene, w: Window, sibling: Window)
    requires c.Valid() && w in c.wins
    ensures NoneTwice(Block(c, w, sibling)) <==> !Clash(c, w, sibling)
  {
    hide StackTransients, StackAncestors, NoneTwice;
    var t, a := StackTransients(c, w, NONE, sibling).list, StackAncestors(c, w, sibling);
    RestackTheorems.BlockIsReversed(c, w, sibling);
    NoneTwiceReversed(RestackTheorems.Followers(c, w, sibling));
    CollectedOnce(c, w, NONE, sibling);
    CollectedNotSelf(c, w, NONE, sibling);
    DistinctNoneTwice(t + [w]);
    if a != [] {
      AncestorsOutside(c, w, sibling, a[0]);
    }
    NoneTwiceConcat(t + [w], a);
    assert t + ([w] + a) == t + [w] + a;
    AncestorsOnce(c, w, sibling);
  }

  /** Where every main window of the group can be restacked and none is a desktop window, nothing clashes. */
  lemma {:induction false} NoGroupClash(c: Scene, x: Window, sibling: Window, k: nat)
    requires c.Sound() && x in c.wins && k <= |c.stack|
    requires forall i :: 0 <= i < k && IsMain(c, c.stack[i], x) ==> PutOn(c, c.stack[i])
    ensures !GroupClash(c, x, sibling, k)
  {
    if k > 0 {
      NoGroupClash(c, x, sibling, k - 1);
    }
  }

  /** The last window on the way from `w` up to a window that is transient for no listed one. */
  function Top(c: Scene, w: Window): (t: Window)
    requires c.Sound() && w in c.wins
    ensures t in c.wins
    decreases RankOf(c.Links())(w)
  {
    var a := c.wins[w].transientFor;
    if a in c.wins then
      assert c.Links()[w] == a;
      Top(c, a)
    else w
  }

  lemma {:induction false} NoClash(c: Scene, w: Window, sibling: Window)
    requires c.Sound() && w in c.wins
    requires forall a :: a in c.wins && IsMain(c, a, Top(c, w)) ==> PutOn(c, a)
    ensures !Clash(c, w, sibling)
    decreases RankOf(c.Links())(w)
  {
    hide StackTransients, IsMain, PutOn;
    var a := c.wins[w].transientFor;
    if a in c.wins {
      assert c.Links()[w] == a;
      if a != sibling {
        NoClash(c, a, sibling);
      }
    } else {
      NoGroupClash(c, w, sibling, |c.stack|);
    }
  }

  /** Without group transients nothing clashes. */
  lemma {:induction false} PlainNoClash(c: Scene, w: Window, sibling: Window)
    requires c.Sound() && NoGroups(c) && w in c.wins
    ensures !Clash(c, w, sibling)
    decreases RankOf(c.Links())(w)
  {
    hide StackTransients;
    var a := c.wins[w].transientFor;
    if a in c.wins {
      assert c.Links()[w] == a;
      PlainNoClash(c, a, sibling);
    }
  }
}
