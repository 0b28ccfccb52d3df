/** Restacking when there are window groups: exactly when no window gets lost. */
module RestackGroups {
  import opened Sequences
  import opened TransientForest
  import opened Windows
  import opened Stacking
  import opened GroupWalks
  import opened GroupClashes
  import RestackTheorems
  import WalkOrder

  ghost predicate SameWindows(a: seq<Window>, b: seq<Window>) {
    Distinct(a) && forall x :: x in a <==> x in b
  }

  lemma MoveKeeps(stack: seq<Window>, w: Window, sibling: Window)
    requires Distinct(stack) && w in stack && sibling in stack && sibling != w
    ensures SameWindows(MoveAbove(stack, w, sibling), stack)
  {
    RemoveDistinct(stack, w);
    var rest := Remove(stack, w);
    var k := IndexOf(rest, sibling) + 1;
    DistinctInsert(rest, k, w);
    assert rest == rest[..k] + rest[k..];
  }

  lemma MoveLoses(stack: seq<Window>, w: Window, sibling: Window, anchor: Window)
    requires Distinct(stack) && anchor in stack && anchor != w && (sibling !in stack || sibling == w)
    ensures MoveAbove(stack, w, sibling) == Remove(stack, w)
    ensures Distinct(Remove(stack, w)) && forall x :: x in Remove(stack, w) <==> x in stack && x != w
  {
    RemoveDistinct(stack, w);
    assert anchor in Remove(stack, w);
  }

  /** Once a window is to go above one that is not there, it is lost, and so are all after it. */
  lemma {:induction false} ReplayLoses(stack: seq<Window>, sibling: Window, list: seq<Window>, anchor: Window)
    requires Distinct(stack) && anchor in stack && anchor !in list && sibling !in stack
    ensures (if list == [] then sibling else list[|list| - 1]) !in Replay(stack, sibling, list)
    decreases |list|
  {
    hide MoveAbove, Remove;
    if list != [] {
      MoveLoses(stack, list[0], sibling, anchor);
      ReplayLoses(MoveAbove(stack, list[0], sibling), list[0], list[1..], anchor);
    }
  }

  /** A replay keeps all windows if and only if none is put above itself. */
  lemma {:induction false} ReplayKeepsIff(stack: seq<Window>, sibling: Window, list: seq<Window>, anchor: Window)
    requires Distinct(stack) && anchor in stack && anchor !in list && sibling in stack
    requires forall x :: x in list ==> x in stack
    ensures SameWindows(Replay(stack, sibling, list), stack) <==> NoneTwice([sibling] + list)
    decreases |list|
  {
    hide MoveAbove, Remove, Distinct;
    if list != [] {
      var w, r := list[0], list[1..];
      assert ([sibling] + list)[1] == w && ([sibling] + list)[0] == sibling;
      if w == sibling {
        MoveLoses(stack, w, sibling, anchor);
        ReplayLoses(MoveAbove(stack, w, sibling), w, r, anchor);
      } else {
        MoveKeeps(stack, w, sibling);
        ReplayKeepsIff(MoveAbove(stack, w, sibling), w, r, anchor);
        assert [w] + r == list;
        NoneTwiceNext(sibling, list);
      }
    }
  }

  lemma NoneTwiceNext(sibling: Window, list: seq<Window>)
    requires list != [] && list[0] != sibling
    ensures NoneTwice([sibling] + list) <==> NoneTwice(list)
  {
    var s := [sibling] + list;
    assert forall i :: 1 <= i < |s| ==> s[i] == list[i - 1];
    if NoneTwice(s) {
      forall i | 1 <= i < |list|
        ensures list[i] != list[i - 1]
      {
        assert s[i + 1] != s[i];
      }
    }
  }

  ghost predicate ListedApart(c: Scene, list: seq<Window>, sibling: Window) {
    forall x :: x in list ==> x in c.wins && x != sibling
  }

  /** The walks collect windows of the stack, and never the one that the stack is to be put above. */
  lemma {:induction false} TransientsListed(c: Scene, w: Window, avoid: Window, sibling: Window, k: nat)
    requires c.Sound() && w in c.wins && k <= |c.stack|
    ensures ListedApart(c, TransientsBelow(c, w, avoid, sibling, k).list, sibling)
    decreases GroupOf(c, w) != NONE, Levels(c, w), k
  {
    if k > 0 {
      var t := c.stack[k - 1];
      if t == w || t == avoid || !Follows(c, t, w) {
        TransientsListed(c, w, avoid, sibling, k - 1);
      } else {
        Deeper(c, t, w);
        TransientsListed(c, t, avoid, sibling, |c.stack|);
        TransientsListed(c, w, avoid, sibling, k - 1);
      }
    }
  }

  lemma {:induction false} GroupListed(c: Scene, w: Window, sibling: Window, k: nat)
    requires c.Sound() && w in c.wins && k <= |c.stack|
    ensures ListedApart(c, GroupAncestors(c, w, sibling, k), sibling)
    decreases k
  {
    hide IsGroupTransient, TransientsBelow;
    if k > 0 {
      TransientsListed(c, c.stack[k - 1], w, sibling, |c.stack|);
      GroupListed(c, w, sibling, k - 1);
    }
  }

  lemma {:induction false} AncestorsListed(c: Scene, w: Window, sibling: Window)
    requires c.Sound() && w in c.wins
    ensures ListedApart(c, StackAncestors(c, w, sibling), sibling)
    decreases RankOf(c.Links())(w)
  {
    hide IsGroupTransient, TransientsBelow, GroupAncestors;
    var up := c.wins[w].transientFor;
    if up in c.wins && up != sibling {
      TransientsListed(c, up, w, sibling, |c.stack|);
      assert c.Links()[w] == up;
      AncestorsListed(c, up, sibling);
    } else {
      GroupListed(c, w, sibling, |c.stack|);
    }
  }

  lemma BlockListed(c: Scene, w: Window, sibling: Window)
    requires c.Sound() && w in c.wins
    ensures forall x :: x in Block(c, w, sibling) ==> x in c.wins && (x == w || x != sibling)
  {
    hide StackAncestors, TransientsBelow;
    TransientsListed(c, w, NONE, sibling, |c.stack|);
    AncestorsListed(c, w, sibling);
    forall x | x in Block(c, w, sibling)
      ensures x in c.wins && (x == w || x != sibling)
    {
      RestackTheorems.InReverse(StackAncestors(c, w, sibling), x);
      RestackTheorems.InReverse(StackTransients(c, w, NONE, sibling).list, x);
    }
  }

  /** Besides the window itself, only windows move that are mapped, or about to be, and known to the server. */
  lemma MovedAreMapped(c: Scene, w: Window, sibling: Window, x: Window)
    requires c.Valid() && w in c.wins && x in Block(c, w, sibling) && x != w
    ensures x in c.wins && (c.wins[x].mapNum != 0 || c.wins[x].pendingMaps != 0) && c.wins[x].onServer
  {
    hide StackAncestors, StackTransients;
    RestackTheorems.InReverse(StackAncestors(c, w, sibling), x);
    RestackTheorems.InReverse(StackTransients(c, w, NONE, sibling).list, x);
    if x in StackTransients(c, w, NONE, sibling).list {
      var i := WalkOrder.CollectedVia(c, w, NONE, sibling, x);
    } else {
      WalkOrder.AncestorShown(c, w, sibling, x);
    }
  }

  /** A stack of windows without repetition. */
  ghost predicate Stacked(wins: Wins, stack: seq<Window>) {
    Distinct(stack) && forall x :: x in stack ==> x in wins
  }

  lemma MoveStacked(wins: Wins, stack: seq<Window>, w: Window, sibling: Window)
    requires Stacked(wins, stack) && w in wins
    ensures Stacked(wins, MoveAbove(stack, w, sibling))
  {
    RemoveDistinct(stack, w);
    var rest := Remove(stack, w);
    if sibling in rest {
      var k := IndexOf(rest, sibling) + 1;
      DistinctInsert(rest, k, w);
      assert rest == rest[..k] + rest[k..];
    }
  }

  lemma {:induction false} ReplayStacked(wins: Wins, stack: seq<Window>, sibling: Window, list: seq<Window>)
    requires Stacked(wins, stack) && forall x :: x in list ==> x in wins
    ensures Stacked(wins, Replay(stack, sibling, list))
    decreases |list|
  {
    hide MoveAbove, Stacked;
    if list != [] {
      MoveStacked(wins, stack, list[0], sibling);
      ReplayStacked(wins, MoveAbove(stack, list[0], sibling), list[0], list[1..]);
    }
  }

  lemma StackedSound(c: Scene, stack: seq<Window>)
    requires c.Sound() && Stacked(c.wins, stack)
    ensures c.(stack := stack).Sound()
  {
    assert c.(stack := stack).Links() == c.Links();
  }

  lemma AlreadyStacked(c: Scene)
    requires c.Sound()
    ensures Stacked(c.wins, c.stack)
  {
  }

  lemma BottomStacked(wins: Wins, stack: seq<Window>, w: Window)
    requires Stacked(wins, stack) && w in wins
    ensures Stacked(wins, [w] + Remove(stack, w))
  {
    RemoveDistinct(stack, w);
    DistinctInsert(Remove(stack, w), 0, w);
    assert InsertAt(Remove(stack, w), 0, w) == [w] + Remove(stack, w);
  }

  /** Even a restack that loses windows leaves a stack of windows without repetition. */
  lemma RestackStacked(c: Scene, w: Window, sibling: Window)
    requires c.Sound() && w in c.wins
    ensures Stacked(c.wins, Restack(c, w, sibling))
  {
    hide Replay, Block, StackTransients;
    if StackTransients(c, w, NONE, sibling).ok {
      BlockListed(c, w, sibling);
      ReplayStacked(c.wins, c.stack, sibling, Block(c, w, sibling));
    }
  }

  /** Whatever groups there are, a restack above a listed sibling that does not go along keeps every window,
      and none twice, if and only if no two main windows clash. */
  lemma RestackKeepsAllIff(c: Scene, w: Window, sibling: Window)
    requires c.Valid() && w in c.wins && sibling in c.wins && w != sibling && !GoesAlong(c, sibling, w)
    ensures SameWindows(Restack(c, w, sibling), c.stack) <==> !Clash(c, w, sibling)
  {
    hide StackAncestors, StackTransients, Replay, NoneTwice, Clash, GoesAlong;
    WalkEndsIff(c, w, sibling);
    BlockListed(c, w, sibling);
    BlockOnce(c, w, sibling);
    var b := Block(c, w, sibling);
    ReplayKeepsIff(c.stack, sibling, b, sibling);
    NoneTwiceNext(sibling, b);
  }

  /** So a restack loses nothing where all main windows of the group can be restacked and none is a desktop
      window. */
  lemma RestackKeepsAll(c: Scene, w: Window, sibling: Window)
    requires c.Valid() && w in c.wins && sibling in c.wins && w != sibling
    requires forall a :: a in c.wins && IsMain(c, a, Top(c, w)) ==> PutOn(c, a)
    ensures SameWindows(Restack(c, w, sibling), c.stack)
  {
    hide StackTransients, Clash, GoesAlong;
    WalkEndsIff(c, w, sibling);
    if !GoesAlong(c, sibling, w) {
      NoClash(c, w, sibling);
      RestackKeepsAllIff(c, w, sibling);
    }
  }

  const MAIN := NO_PROPS.(wtype := Normal, clientLeader := 5, mapNum := 1)
  const UNMAPPED := NO_PROPS.(wtype := Normal, clientLeader := 5)
  const DIALOG := NO_PROPS.(wtype := Dialog, clientLeader := 5, mapNum := 1)
  const OTHER := NO_PROPS.(wtype := Normal, clientLeader := 6, mapNum := 1)

  /** A group of two main windows, the upper one not mapped, with two dialogs, below a foreign window. */
  const GROUP := Scene(map[10 := MAIN, 11 := UNMAPPED, 12 := DIALOG, 13 := DIALOG, 14 := OTHER], 1, [10, 11, 12, 13, 14])

  lemma GroupValid()
    ensures GROUP.Valid() && GROUP.Sound()
  {
    hide Acyclic, Scene.Links;
    GroupAcyclic();
  }

  lemma GroupAcyclic()
    ensures Acyclic(GROUP.Links())
  {
    assert Ranked(GROUP.Links(), (_: Window) => 0);
  }

  lemma {:induction false} NoFollowers(c: Scene, w: Window, avoid: Window, sibling: Window, k: nat)
    requires c.Sound() && w in c.wins && k <= |c.stack|
    requires forall i :: 0 <= i < k ==> c.stack[i] == w || c.stack[i] == avoid || !Follows(c, c.stack[i], w)
    ensures TransientsBelow(c, w, avoid, sibling, k) == Collected(true, [])
    decreases k
  {
    if k > 0 {
      NoFollowers(c, w, avoid, sibling, k - 1);
    }
  }

  /** Each main window has the other dialog collected. */
  lemma DialogFollows(main: Window)
    requires main in {10, 11} && GROUP.Sound()
    ensures StackTransients(GROUP, main, 13, 14) == Collected(true, [12])
  {
    hide Scene.Sound, TransientsBelow;
    DialogAlone(12, 13);
    NoFollowers(GROUP, main, 13, 14, 2);
    WalkStep(GROUP, main, 13, 14, 5);
    WalkStep(GROUP, main, 13, 14, 4);
    WalkStep(GROUP, main, 13, 14, 3);
  }

  lemma WalkStep(c: Scene, w: Window, avoid: Window, sibling: Window, k: nat)
    requires c.Sound() && w in c.wins && 0 < k <= |c.stack|
    ensures var t := c.stack[k - 1];
            var rest := TransientsBelow(c, w, avoid, sibling, k - 1);
            && (t == w || t == avoid || !Follows(c, t, w) ==> TransientsBelow(c, w, avoid, sibling, k) == rest)
            && (t != w && t != avoid && t != sibling && Follows(c, t, w) && Restackable(c, t)
                && StackTransients(c, t, avoid, sibling) == Collected(true, []) ==>
                  TransientsBelow(c, w, avoid, sibling, k) == Collected(rest.ok, [t] + rest.list))
  {
    hide Follows, StackTransients, Restackable;
  }

  lemma DialogAlone(w: Window, avoid: Window)
    requires w in {12, 13} && GROUP.Sound()
    ensures StackTransients(GROUP, w, avoid, 14) == Collected(true, [])
  {
    hide Scene.Sound;
    NoFollowers(GROUP, w, avoid, 14, 5);
  }

  lemma MainsClash()
    requires GROUP.Sound()
    ensures Clash(GROUP, 13, 14)
  {
    hide Scene.Sound, StackTransients;
    DialogFollows(10);
    DialogFollows(11);
    assert NextTransients(GROUP, 13, 14, 1) == [12];
    assert GroupClash(GROUP, 13, 14, 2);
    assert GroupClash(GROUP, 13, 14, 3);
    assert GroupClash(GROUP, 13, 14, 4);
    assert GroupClash(GROUP, 13, 14, 5);
  }

  /** Groups can make the manager lose windows from its list: the dialog that two main windows share
      is collected for both, with no window in between when the first of them is not mapped. */
  lemma GroupsCanLoseWindows()
    ensures exists c: Scene, w, sibling ::
              && c.Valid() && w in c.wins && sibling in c.wins && w != sibling && !GoesAlong(c, sibling, w)
              && !SameWindows(Restack(c, w, sibling), c.stack)
  {
    hide Scene.Valid, Restack, StackTransients, Clash, SameWindows, GoesAlong;
    GroupValid();
    DialogAlone(13, NONE);
    WalkEndsIff(GROUP, 13, 14);
    MainsClash();
    RestackKeepsAllIff(GROUP, 13, 14);
  }
}
