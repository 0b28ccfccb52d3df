/** Where the input focus goes that is offered to a window (WM_TAKE_FOCUS and the input hint, section 4.1.7
    of the Inter-Client Communication Conventions Manual), and whether it ever comes to rest. */
module InputFocus {
  import opened Sequences
  import opened TransientForest
  import opened Values
  import opened Windows
  import opened Stacking
  import opened ModalTransients

  /** Whether a window takes the focus that it is given. */
  predicate Takes(p: Props) {
    p.shaded || p.inputHint || p.takeFocus
  }

  /** The lowest ancestor among the windows from index `k` up. */
  function LowestAncestor(c: Scene, order: seq<Window>, w: Window, k: nat): (r: Option<Window>)
    requires Ordered(c, order) && w in c.wins && k <= |order|
    ensures r.Some? ==> exists i :: k <= i < |order| && order[i] == r.value && IsAncestorTo(c.Links(), w, r.value)
                                    && forall j :: k <= j < i ==> !IsAncestorTo(c.Links(), w, order[j])
    ensures r.None? ==> forall j :: k <= j < |order| ==> !IsAncestorTo(c.Links(), w, order[j])
    decreases |order| - k
  {
    if k == |order| then None
    else if IsAncestorTo(c.Links(), w, order[k]) then Some(order[k])
    else LowestAncestor(c, order, w, k + 1)
  }

  /** To which window the focus is handed on: to a modal dialog, or, by a window that does not take it, to the
      lowest of its ancestors. */
  function Next(c: Scene, order: seq<Window>, w: Window): (r: Option<Window>)
    requires Ordered(c, order) && w in c.wins
    ensures r.Some? ==> r.value in c.wins
  {
    ModalFound(c, order, w);
    match ModalTransient(c, order, w)
    case Some(m) => Some(m)
    case None => if Takes(c.wins[w]) then None else LowestAncestor(c, order, w, 0)
  }

  /** Within `n` steps the focus is not handed on any more. */
  predicate EndsWithin(c: Scene, order: seq<Window>, w: Window, n: nat)
    requires Ordered(c, order) && w in c.wins
    decreases n
  {
    match Next(c, order, w)
    case None => true
    case Some(x) => n > 0 && EndsWithin(c, order, x, n - 1)
  }

  ghost predicate Ends(c: Scene, order: seq<Window>, w: Window)
    requires Ordered(c, order) && w in c.wins
  {
    exists n :: EndsWithin(c, order, w, n)
  }

  /** The chain of modal dialogs of modal dialogs, to its end. */
  function Rest(c: Scene, order: seq<Window>, w: Window): (r: Window)
    requires Ordered(c, order) && w in c.wins
    ensures r in c.wins && ModalTransient(c, order, r) == None
    decreases if c.wins[w].modal then 0 else 1, LevelsAbove(c, order, w)
  {
    match ModalTransient(c, order, w)
    case None => w
    case Some(m) =>
      ModalHigher(c, order, w);
      Rest(c, order, m)
  }

  lemma ModalHigher(c: Scene, order: seq<Window>, w: Window)
    requires Ordered(c, order) && w in c.wins && ModalTransient(c, order, w).Some?
    ensures var m := ModalTransient(c, order, w).value;
            m in c.wins && m != w && c.wins[m].modal
            && (c.wins[w].modal ==> LevelsAbove(c, order, m) < LevelsAbove(c, order, w))
  {
    ModalFound(c, order, w);
    if c.wins[w].modal {
      DialogOfDialog(c, order, w);
      ClimbsHigher(c, order, w, ModalTransient(c, order, w).value);
    }
  }

  lemma {:induction false} ClimbsHigher(c: Scene, order: seq<Window>, m: Window, r: Window)
    requires Ordered(c, order) && m in c.wins && r in c.wins && Climbs(c, m, r)
    ensures r != m ==> LevelsAbove(c, order, r) < LevelsAbove(c, order, m) && IsAncestorTo(c.Links(), r, m)
    decreases RankOf(c.Links())(r)
  {
    if r != m {
      var up := c.wins[r].transientFor;
      assert c.Links()[r] == up;
      ChildHigher(c, order, r, up);
      ClimbsHigher(c, order, m, up);
    }
  }

  /** A dialog that does not take the focus, and that its lowest ancestor hands the focus back to. */
  ghost predicate Trap(c: Scene, order: seq<Window>, d: Window)
    requires Ordered(c, order) && d in c.wins
  {
    && ModalTransient(c, order, d) == None && !Takes(c.wins[d])
    && LowestAncestor(c, order, d, 0).Some? && Rest(c, order, LowestAncestor(c, order, d, 0).value) == d
  }

  lemma {:induction false} LongerEnds(c: Scene, order: seq<Window>, w: Window, n: nat, more: nat)
    requires Ordered(c, order) && w in c.wins && EndsWithin(c, order, w, n) && n <= more
    ensures EndsWithin(c, order, w, more)
    decreases n
  {
    match Next(c, order, w)
    case None =>
    case Some(x) => LongerEnds(c, order, x, n - 1, more - 1);
  }

  lemma {:induction false} RestEndsWithin(c: Scene, order: seq<Window>, w: Window, n: nat)
    requires Ordered(c, order) && w in c.wins && EndsWithin(c, order, w, n)
    ensures EndsWithin(c, order, Rest(c, order, w), n)
    decreases n
  {
    hide ModalTransient, LowestAncestor;
    match ModalTransient(c, order, w)
    case None =>
    case Some(m) =>
      ModalHigher(c, order, w);
      RestEndsWithin(c, order, m, n - 1);
      LongerEnds(c, order, Rest(c, order, m), n - 1, n);
  }

  /** The focus never comes out of a trap. */
  lemma {:induction false} TrapNeverEnds(c: Scene, order: seq<Window>, d: Window, n: nat)
    requires Ordered(c, order) && d in c.wins && Trap(c, order, d)
    ensures !EndsWithin(c, order, d, n)
  {
    hide ModalTransient, LowestAncestor, Rest;
    if n > 0 && EndsWithin(c, order, d, n) {
      var a := LowestAncestor(c, order, d, 0).value;
      RestEndsWithin(c, order, a, n - 1);
      TrapNeverEnds(c, order, d, n - 1);
    }
  }

  lemma {:induction false} RestEnds(c: Scene, order: seq<Window>, w: Window)
    requires Ordered(c, order) && w in c.wins && Ends(c, order, Rest(c, order, w))
    ensures Ends(c, order, w)
    decreases if c.wins[w].modal then 0 else 1, LevelsAbove(c, order, w)
  {
    hide ModalTransient, LowestAncestor;
    match ModalTransient(c, order, w)
    case None =>
    case Some(m) =>
      ModalHigher(c, order, w);
      RestEnds(c, order, m);
      NextEnds(c, order, w);
  }

  lemma NextEnds(c: Scene, order: seq<Window>, w: Window)
    requires Ordered(c, order) && w in c.wins
    requires Next(c, order, w).Some? ==> Ends(c, order, Next(c, order, w).value)
    ensures Ends(c, order, w)
  {
    hide Next;
    match Next(c, order, w)
    case None => assert EndsWithin(c, order, w, 0);
    case Some(x) =>
      var n: nat :| EndsWithin(c, order, x, n);
      assert EndsWithin(c, order, w, n + 1);
  }

  /** No ancestor of `a` is lower. */
  ghost predicate Lowest(c: Scene, order: seq<Window>, a: Window)
    requires Ordered(c, order) && a in c.wins
  {
    forall z :: z in c.wins && IsAncestorTo(c.Links(), a, z) ==> IndexOf(order, a) < IndexOf(order, z)
  }

  lemma {:induction false} AncestorTransitive(c: Scene, x: Window, y: Window, z: Window)
    requires c.Sound() && x in c.wins && y in c.wins && IsAncestorTo(c.Links(), x, y) && IsAncestorTo(c.Links(), y, z)
    ensures IsAncestorTo(c.Links(), x, z)
    decreases RankOf(c.Links())(x)
  {
    var up := c.Links()[x];
    if up != y {
      AncestorTransitive(c, up, y, z);
    }
  }

  lemma {:induction false} AncestorRank(c: Scene, x: Window, y: Window)
    requires c.Sound() && x in c.wins && IsAncestorTo(c.Links(), x, y)
    ensures RankOf(c.Links())(y) < RankOf(c.Links())(x)
    decreases RankOf(c.Links())(x)
  {
    var up := c.Links()[x];
    if up != y {
      AncestorRank(c, up, y);
    }
  }

  /** Of two ancestors of a window one is an ancestor of the other. */
  lemma {:induction false} AncestorChain(c: Scene, x: Window, y: Window, z: Window)
    requires c.Sound() && x in c.wins && IsAncestorTo(c.Links(), x, y) && IsAncestorTo(c.Links(), x, z)
    ensures y == z || (y in c.wins && IsAncestorTo(c.Links(), y, z)) || (z in c.wins && IsAncestorTo(c.Links(), z, y))
    decreases RankOf(c.Links())(x)
  {
    var up := c.Links()[x];
    if up != y && up != z {
      AncestorChain(c, up, y, z);
    }
  }

  /** The ancestor that gets the focus is lower than all its own. */
  lemma FoundLowest(c: Scene, order: seq<Window>, d: Window)
    requires Ordered(c, order) && d in c.wins && LowestAncestor(c, order, d, 0).Some?
    ensures var a := LowestAncestor(c, order, d, 0).value;
            && a in c.wins && IsAncestorTo(c.Links(), d, a) && Lowest(c, order, a)
            && forall z :: z in c.wins && IsAncestorTo(c.Links(), d, z) ==> IndexOf(order, a) <= IndexOf(order, z)
  {
    hide LowestAncestor, IsAncestorTo, IndexOf;
    var a := LowestAncestor(c, order, d, 0).value;
    var i :| 0 <= i < |order| && order[i] == a && IsAncestorTo(c.Links(), d, a)
             && forall j :: 0 <= j < i ==> !IsAncestorTo(c.Links(), d, order[j]);
    forall z | z in c.wins && IsAncestorTo(c.Links(), d, z)
      ensures IndexOf(order, a) <= IndexOf(order, z) && order[IndexOf(order, z)] == z
    {
      assert order[IndexOf(order, z)] == z && order[IndexOf(order, a)] == a;
    }
    forall z | z in c.wins && IsAncestorTo(c.Links(), a, z)
      ensures IndexOf(order, a) < IndexOf(order, z)
    {
      AncestorTransitive(c, d, a, z);
      AncestorRank(c, a, z);
    }
  }

  ghost predicate HasModalChild(c: Scene, m: Window)
    requires c.Sound()
  {
    exists t :: t in c.wins && ModalChild(c, t, m)
  }

  /** A window with a modal dialog hands the focus up a chain of modal dialogs. */
  lemma HandsUp(c: Scene, order: seq<Window>, a: Window)
    requires Ordered(c, order) && a in c.wins && HasModalChild(c, a)
    ensures ModalTransient(c, order, a).Some?
    ensures var m := ModalTransient(c, order, a).value;
            m in c.wins && m != a && c.wins[m].modal && Climbs(c, a, m)
  {
    hide Search, Climbs, GroupModal;
    SearchEnds(c, order, a, |order|);
    ModalFound(c, order, a);
    var t :| t in c.wins && ModalChild(c, t, a);
    assert order[IndexOf(order, t)] == t;
  }

  lemma {:induction false} ClimbsTransitive(c: Scene, a: Window, m: Window, r: Window)
    requires c.Sound() && a in c.wins && m in c.wins && r in c.wins && Climbs(c, a, m) && Climbs(c, m, r)
    ensures Climbs(c, a, r)
    decreases RankOf(c.Links())(r)
  {
    if r != m {
      assert c.Links()[r] == c.wins[r].transientFor;
      ClimbsTransitive(c, a, m, c.wins[r].transientFor);
    }
  }

  lemma {:induction false} RestClimbs(c: Scene, order: seq<Window>, a: Window)
    requires Ordered(c, order) && a in c.wins && (c.wins[a].modal || HasModalChild(c, a))
    ensures Climbs(c, a, Rest(c, order, a))
    ensures HasModalChild(c, a) ==> Rest(c, order, a) != a
    decreases if c.wins[a].modal then 0 else 1, LevelsAbove(c, order, a)
  {
    hide ModalTransient, Climbs;
    ClimbsSelf(c, a);
    match ModalTransient(c, order, a)
    case None =>
      if HasModalChild(c, a) {
        HandsUp(c, order, a);
      }
    case Some(m) =>
      ModalHigher(c, order, a);
      StepClimbs(c, order, a);
      RestClimbs(c, order, m);
      ClimbsTransitive(c, a, m, Rest(c, order, m));
      ClimbsHigher(c, order, a, m);
      ClimbsHigher(c, order, m, Rest(c, order, m));
  }

  lemma StepClimbs(c: Scene, order: seq<Window>, a: Window)
    requires Ordered(c, order) && a in c.wins && (c.wins[a].modal || HasModalChild(c, a))
    requires ModalTransient(c, order, a).Some?
    ensures var m := ModalTransient(c, order, a).value; m in c.wins && Climbs(c, a, m)
  {
    hide ModalTransient, Climbs;
    ModalFound(c, order, a);
    if HasModalChild(c, a) {
      HandsUp(c, order, a);
    } else {
      DialogOfDialog(c, order, a);
    }
  }

  /** Every window on a chain of modal dialogs but the last has a modal dialog. */
  lemma {:induction false} ClimbsThrough(c: Scene, a: Window, b: Window, d: Window)
    requires c.Sound() && a in c.wins && b in c.wins && d in c.wins && Climbs(c, a, d)
    requires IsAncestorTo(c.Links(), d, b) && (b == a || IsAncestorTo(c.Links(), b, a))
    ensures HasModalChild(c, b)
    decreases RankOf(c.Links())(d)
  {
    var up := c.wins[d].transientFor;
    assert c.Links()[d] == up;
    if d == a {
      AncestorRank(c, d, b);
      if b != a {
        AncestorRank(c, b, a);
      }
      assert false;
    } else if up == b {
      assert ModalChild(c, d, b);
    } else {
      ClimbsThrough(c, a, b, up);
    }
  }

  /** Who has the focus after `n` steps, none when it has come to rest before. */
  function Handed(c: Scene, order: seq<Window>, w: Window, n: nat): (r: Option<Window>)
    requires Ordered(c, order) && w in c.wins
    ensures r.Some? ==> r.value in c.wins
    decreases n
  {
    if n == 0 then Some(w)
    else
      match Next(c, order, w)
      case None => None
      case Some(x) => Handed(c, order, x, n - 1)
  }

  /** The focus that is offered to `w` never comes to a trap. */
  ghost predicate Free(c: Scene, order: seq<Window>, w: Window)
    requires Ordered(c, order) && w in c.wins
  {
    forall n: nat :: Handed(c, order, w, n).Some? ==> !Trap(c, order, Handed(c, order, w, n).value)
  }

  lemma FreeNext(c: Scene, order: seq<Window>, w: Window)
    requires Ordered(c, order) && w in c.wins && Free(c, order, w)
    ensures !Trap(c, order, w)
    ensures Next(c, order, w).Some? ==> Free(c, order, Next(c, order, w).value)
  {
    hide Next, Trap;
    assert Handed(c, order, w, 0) == Some(w);
    if Next(c, order, w).Some? {
      var x := Next(c, order, w).value;
      forall n: nat | Handed(c, order, x, n).Some?
        ensures !Trap(c, order, Handed(c, order, x, n).value)
      {
        assert Handed(c, order, w, n + 1) == Handed(c, order, x, n);
      }
    }
  }

  lemma {:induction false} FreeRest(c: Scene, order: seq<Window>, w: Window)
    requires Ordered(c, order) && w in c.wins && Free(c, order, w)
    ensures Free(c, order, Rest(c, order, w))
    decreases if c.wins[w].modal then 0 else 1, LevelsAbove(c, order, w)
  {
    hide ModalTransient, LowestAncestor, Free;
    if ModalTransient(c, order, w).Some? {
      FreeNext(c, order, w);
      ModalHigher(c, order, w);
      FreeRest(c, order, ModalTransient(c, order, w).value);
    }
  }

  /** A resting window that does not take the focus hands it to an ancestor from which there is no way into a
      trap either. */
  lemma FreeAncestor(c: Scene, order: seq<Window>, d: Window)
    requires Ordered(c, order) && d in c.wins && ModalTransient(c, order, d) == None && Free(c, order, d)
    requires !Takes(c.wins[d]) && LowestAncestor(c, order, d, 0).Some?
    ensures var a := LowestAncestor(c, order, d, 0).value;
            a in c.wins && Free(c, order, a) && Rest(c, order, a) != d
  {
    hide ModalTransient, LowestAncestor, Free, Rest;
    FreeNext(c, order, d);
  }

  /** A resting window ends the walk, or hands the focus to its lowest ancestor. */
  lemma RestingEnds(c: Scene, order: seq<Window>, d: Window)
    requires Ordered(c, order) && d in c.wins && ModalTransient(c, order, d) == None
    requires !Takes(c.wins[d]) ==> match LowestAncestor(c, order, d, 0)
                                   case None => true
                                   case Some(a) => a in c.wins && Ends(c, order, a)
    ensures Ends(c, order, d)
  {
    hide ModalTransient, LowestAncestor, Ends;
    NextEnds(c, order, d);
  }

  /** Of two ancestors of a window, the lower one is the higher up in the forest only if it is not lower than
      its own. */
  lemma FurtherUp(c: Scene, order: seq<Window>, d: Window, a: Window, b: Window)
    requires Ordered(c, order) && d in c.wins && a in c.wins && b in c.wins && a != b
    requires IsAncestorTo(c.Links(), d, a) && IsAncestorTo(c.Links(), d, b)
    requires Lowest(c, order, a) && IndexOf(order, b) <= IndexOf(order, a)
    ensures IsAncestorTo(c.Links(), b, a)
  {
    AncestorChain(c, d, a, b);
  }

  /** From a window with a modal dialog the focus goes ever further up the chain, until it is taken. */
  lemma {:induction false} ChainEnds(c: Scene, order: seq<Window>, a: Window)
    requires Ordered(c, order) && a in c.wins && Free(c, order, a)
    requires Lowest(c, order, a) && HasModalChild(c, a)
    ensures Ends(c, order, a)
    decreases LevelsAbove(c, order, a)
  {
    hide ModalTransient, LowestAncestor, Rest, Ends, Climbs, LevelsAbove, IsAncestorTo, Lowest, IndexOf, HasModalChild;
    hide Free;
    var d := Rest(c, order, a);
    FreeRest(c, order, a);
    RestClimbs(c, order, a);
    ClimbsHigher(c, order, a, d);
    if !Takes(c.wins[d]) && LowestAncestor(c, order, d, 0).Some? {
      FreeAncestor(c, order, d);
      FoundLowest(c, order, d);
      var b := LowestAncestor(c, order, d, 0).value;
      assert b != a;
      FurtherUp(c, order, d, a, b);
      ClimbsThrough(c, a, b, d);
      AncestorHigher(c, order, b, a);
      ChainEnds(c, order, b);
    }
    RestingEnds(c, order, d);
    RestEnds(c, order, a);
  }

  lemma {:induction false} AncestorHigher(c: Scene, order: seq<Window>, x: Window, y: Window)
    requires Ordered(c, order) && x in c.wins && y in c.wins && IsAncestorTo(c.Links(), x, y)
    ensures LevelsAbove(c, order, x) < LevelsAbove(c, order, y)
  {
    AncestorRank(c, x, y);
    assert RankOf(c.Links())(x) <= Height(RankOf(c.Links()), order);
  }

  /** From the lowest of several ancestors the focus comes to rest. */
  lemma {:induction false} LowestEnds(c: Scene, order: seq<Window>, a: Window)
    requires Ordered(c, order) && a in c.wins && Free(c, order, a) && Lowest(c, order, a)
    ensures Ends(c, order, a)
    decreases RankOf(c.Links())(a)
  {
    hide ModalTransient, LowestAncestor, Rest, Ends, Climbs, IsAncestorTo, Lowest, IndexOf, HasModalChild, Free;
    if HasModalChild(c, a) {
      ChainEnds(c, order, a);
    } else if ModalTransient(c, order, a).Some? {
      GroupEnds(c, order, a);
    } else {
      if !Takes(c.wins[a]) && LowestAncestor(c, order, a, 0).Some? {
        FreeAncestor(c, order, a);
        FoundLowest(c, order, a);
        AncestorRank(c, a, LowestAncestor(c, order, a, 0).value);
        LowestEnds(c, order, LowestAncestor(c, order, a, 0).value);
      }
      RestingEnds(c, order, a);
    }
  }

  /** So it does from a window whose group has a modal dialog. */
  lemma GroupEnds(c: Scene, order: seq<Window>, a: Window)
    requires Ordered(c, order) && a in c.wins && Free(c, order, a)
    requires !HasModalChild(c, a) && ModalTransient(c, order, a).Some?
    ensures Ends(c, order, a)
  {
    hide ModalTransient, LowestAncestor, Rest, Ends, Climbs, IsAncestorTo, Lowest, IndexOf, HasModalChild, Free;
    hide GroupModalChild;
    var t := GroupBegins(c, order, a);
    var d := Rest(c, order, a);
    FreeRest(c, order, a);
    if !Takes(c.wins[d]) && LowestAncestor(c, order, d, 0).Some? {
      FreeAncestor(c, order, d);
      FoundLowest(c, order, d);
      var b := LowestAncestor(c, order, d, 0).value;
      OnChain(c, t, b, d);
      ClimbsThrough(c, t, b, d);
      ChainEnds(c, order, b);
    }
    RestingEnds(c, order, d);
    RestEnds(c, order, a);
  }

  /** Where the chain begins that a group dialog leads to. */
  lemma GroupBegins(c: Scene, order: seq<Window>, a: Window) returns (t: Window)
    requires Ordered(c, order) && a in c.wins && !HasModalChild(c, a) && ModalTransient(c, order, a).Some?
    ensures t in c.wins && c.wins[t].transientFor !in c.wins && Climbs(c, t, Rest(c, order, a))
  {
    hide ModalTransient, Climbs, GroupModalChild;
    ModalFound(c, order, a);
    var m := ModalTransient(c, order, a).value;
    if Climbs(c, a, m) {
      FirstOfClimb(c, a, m);
      assert false;
    }
    t :| t in c.wins && GroupModalChild(c, t, a) && Climbs(c, t, m);
    GroupIsRoot(c, t, a);
    RestClimbs(c, order, m);
    ClimbsTransitive(c, t, m, Rest(c, order, m));
  }

  lemma GroupIsRoot(c: Scene, t: Window, a: Window)
    requires c.Sound() && t in c.wins && a in c.wins && GroupModalChild(c, t, a)
    ensures c.wins[t].transientFor !in c.wins
  {
  }

  lemma {:induction false} FirstOfClimb(c: Scene, a: Window, r: Window)
    requires c.Sound() && a in c.wins && r in c.wins && r != a && Climbs(c, a, r)
    ensures HasModalChild(c, a)
    decreases RankOf(c.Links())(r)
  {
    var up := c.wins[r].transientFor;
    assert c.Links()[r] == up;
    if up != a {
      FirstOfClimb(c, a, up);
    } else {
      assert ModalChild(c, r, a);
    }
  }

  /** The ancestors of a window on a chain that begins with a window that has none are on the chain. */
  lemma {:induction false} OnChain(c: Scene, t: Window, b: Window, d: Window)
    requires c.Sound() && t in c.wins && b in c.wins && d in c.wins && c.wins[t].transientFor !in c.wins
    requires Climbs(c, t, d) && IsAncestorTo(c.Links(), d, b)
    ensures b == t || IsAncestorTo(c.Links(), b, t)
    decreases RankOf(c.Links())(d)
  {
    var up := c.wins[d].transientFor;
    assert c.Links()[d] == up;
    if up == b {
      ClimbsIsAncestor(c, t, b);
    } else {
      OnChain(c, t, b, up);
    }
  }

  lemma {:induction false} ClimbsIsAncestor(c: Scene, t: Window, d: Window)
    requires c.Sound() && t in c.wins && d in c.wins && Climbs(c, t, d)
    ensures d == t || IsAncestorTo(c.Links(), d, t)
    decreases RankOf(c.Links())(d)
  {
    if d != t {
      var up := c.wins[d].transientFor;
      assert c.Links()[d] == up;
      ClimbsIsAncestor(c, t, up);
    }
  }

  /** The focus offered to a window comes to rest if and only if it never comes to a trap. */
  lemma EndsIff(c: Scene, order: seq<Window>, w: Window)
    requires Ordered(c, order) && w in c.wins
    ensures Ends(c, order, w) <==> Free(c, order, w)
  {
    hide Trap, EndsWithin, Scene.Sound, Handed, Next;
    if Free(c, order, w) {
      FreeEnds(c, order, w);
    } else {
      var n: nat :| Handed(c, order, w, n).Some? && Trap(c, order, Handed(c, order, w, n).value);
      forall k: nat
        ensures !EndsWithin(c, order, w, k)
      {
        if EndsWithin(c, order, w, k) {
          HandedEnds(c, order, w, n, k);
          TrapNeverEnds(c, order, Handed(c, order, w, n).value, k);
        }
      }
    }
  }

  lemma {:induction false} HandedEnds(c: Scene, order: seq<Window>, w: Window, n: nat, k: nat)
    requires Ordered(c, order) && w in c.wins && EndsWithin(c, order, w, k) && Handed(c, order, w, n).Some?
    ensures EndsWithin(c, order, Handed(c, order, w, n).value, k)
    decreases n
  {
    hide Next;
    if n > 0 {
      var x := Next(c, order, w).value;
      HandedEnds(c, order, x, n - 1, k - 1);
      LongerEnds(c, order, Handed(c, order, x, n - 1).value, k - 1, k);
    }
  }

  lemma FreeEnds(c: Scene, order: seq<Window>, w: Window)
    requires Ordered(c, order) && w in c.wins && Free(c, order, w)
    ensures Ends(c, order, w)
  {
    hide ModalTransient, LowestAncestor, Rest, Ends, IsAncestorTo, Lowest, Free;
    var d := Rest(c, order, w);
    FreeRest(c, order, w);
    if !Takes(c.wins[d]) && LowestAncestor(c, order, d, 0).Some? {
      FreeAncestor(c, order, d);
      FoundLowest(c, order, d);
      LowestEnds(c, order, LowestAncestor(c, order, d, 0).value);
    }
    RestingEnds(c, order, d);
    RestEnds(c, order, w);
  }

  /** So it comes to rest whatever window it is offered to if and only if there is no trap. */
  lemma AlwaysEndsIff(c: Scene, order: seq<Window>)
    requires Ordered(c, order)
    ensures (forall w :: w in c.wins ==> Ends(c, order, w)) <==> forall d :: d in c.wins ==> !Trap(c, order, d)
  {
    hide Trap, Ends, Scene.Sound, Handed;
    forall w | w in c.wins
      ensures Ends(c, order, w) <==> Free(c, order, w)
      ensures Trap(c, order, w) ==> !Free(c, order, w)
    {
      EndsIff(c, order, w);
      if Free(c, order, w) {
        FreeNext(c, order, w);
      }
    }
  }

  /** Where the focus stays: at a window without a modal dialog that is shaded, takes the focus from the manager or
      asks for it itself, or that has no ancestor. */
  lemma StaysIff(c: Scene, order: seq<Window>, w: Window)
    requires Ordered(c, order) && w in c.wins
    ensures var p := c.wins[w];
            Next(c, order, w) == None <==>
              && ModalTransient(c, order, w) == None
              && (p.shaded || p.inputHint || p.takeFocus || forall z :: z in c.wins ==> !IsAncestorTo(c.Links(), w, z))
  {
    hide ModalTransient, IsAncestorTo, LowestAncestor, Scene.Sound;
    assert forall z :: z in c.wins ==> z in order;
    assert forall i :: 0 <= i < |order| ==> order[i] in c.wins;
  }

  /** A modal dialog is never sought among the ancestors of a window. */
  lemma NeverAnAncestor(c: Scene, order: seq<Window>, w: Window)
    requires Ordered(c, order) && w in c.wins
    ensures ModalTransient(c, order, w).Some? ==> !IsAncestorTo(c.Links(), w, ModalTransient(c, order, w).value)
  {
    hide ModalTransient, Climbs, IsAncestorTo, GroupModalChild;
    ModalFound(c, order, w);
    if ModalTransient(c, order, w).Some? {
      var r := ModalTransient(c, order, w).value;
      if IsAncestorTo(c.Links(), w, r) {
        if Climbs(c, w, r) {
          ClimbsIsAncestor(c, w, r);
          AncestorRank(c, w, r);
          AncestorRank(c, r, w);
        } else {
          var t :| t in c.wins && GroupModalChild(c, t, w) && Climbs(c, t, r);
          ClimbsIsAncestor(c, t, r);
          if t != r {
            AncestorTransitive(c, w, r, t);
          }
          IsNoAncestor(c, t, w);
        }
      }
    }
  }

  lemma IsNoAncestor(c: Scene, t: Window, w: Window)
    requires c.Sound() && t in c.wins && w in c.wins && GroupModalChild(c, t, w)
    ensures !IsAncestorTo(c.Links(), w, t)
  {
  }

  const BARE := NO_PROPS.(wtype := Normal, mapNum := 1, inputHint := false)

  /** A window with a modal dialog, neither of which takes the focus. */
  const BARE_DIALOG := Scene(map[10 := BARE, 11 := BARE.(transientFor := 10, modal := true)], 1, [10, 11])

  /** A modal dialog that does not take the focus hands it to its window, which hands it back. */
  lemma FocusCanGoInCircles()
    ensures exists c: Scene, order, w :: Ordered(c, order) && w in c.wins && !Ends(c, order, w)
  {
    hide Ordered, Ends, Trap;
    BareOrdered();
    BareTrap();
    AlwaysEndsIff(BARE_DIALOG, BARE_DIALOG.stack);
  }

  lemma BareOrdered()
    ensures Ordered(BARE_DIALOG, BARE_DIALOG.stack) && 11 in BARE_DIALOG.wins
  {
    hide Acyclic, Scene.Links;
    BareAcyclic();
  }

  lemma BareAcyclic()
    ensures Acyclic(BARE_DIALOG.Links())
  {
    assert Ranked(BARE_DIALOG.Links(), (x: Window) => x);
  }

  lemma BareTrap()
    requires Ordered(BARE_DIALOG, BARE_DIALOG.stack)
    ensures 11 in BARE_DIALOG.wins && Trap(BARE_DIALOG, BARE_DIALOG.stack, 11)
  {
    hide Scene.Sound, Search, LowestAncestor, IsAncestorTo, LevelsAbove;
    var c, order := BARE_DIALOG, BARE_DIALOG.stack;
    BareLinks();
    SearchStays(c, order, 11, 2);
    SearchStays(c, order, 11, 1);
    SearchStep(c, order, 10, 2);
    BareAncestor();
    assert Rest(c, order, 11) == 11;
  }

  lemma BareLinks()
    requires Ordered(BARE_DIALOG, BARE_DIALOG.stack)
    ensures |BARE_DIALOG.stack| == 2 && 10 in BARE_DIALOG.wins && 11 in BARE_DIALOG.wins
    ensures ModalChild(BARE_DIALOG, 11, 10)
    ensures !ModalChild(BARE_DIALOG, 10, 11) && !ModalChild(BARE_DIALOG, 11, 11)
  {
  }

  lemma BareAncestor()
    requires Ordered(BARE_DIALOG, BARE_DIALOG.stack) && 11 in BARE_DIALOG.wins
    ensures LowestAncestor(BARE_DIALOG, BARE_DIALOG.stack, 11, 0) == Some(10)
  {
    assert BARE_DIALOG.Links()[11] == 10;
  }
}
