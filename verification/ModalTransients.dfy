/** The modal dialog that a window gives its focus to. */
module ModalTransients {
  import opened Sequences
  import opened TransientForest
  import opened Values
  import opened Windows
  import opened Stacking

  /** The ids of all windows, from the bottom to the top. */
  ghost predicate Ordered(c: Scene, order: seq<Window>) {
    c.Sound() && order != [] && Distinct(order) && forall x :: x in order <==> x in c.wins
  }

  predicate ModalChild(c: Scene, t: Window, m: Window)
    requires t in c.wins
  {
    t != m && c.wins[t].mapNum != 0 && c.wins[t].transientFor == m && c.wins[t].modal
  }

  /** How many levels of transients there can be above a window. */
  ghost function LevelsAbove(c: Scene, order: seq<Window>, m: Window): nat
    requires Ordered(c, order)
  {
    var rank := RankOf(c.Links());
    var h := Height(rank, order);
    if rank(m) <= h then h - rank(m) else 0
  }

  lemma ChildHigher(c: Scene, order: seq<Window>, t: Window, m: Window)
    requires Ordered(c, order) && t in c.wins && m in c.wins && ModalChild(c, t, m)
    ensures LevelsAbove(c, order, t) < LevelsAbove(c, order, m)
  {
    var rank := RankOf(c.Links());
    assert t in c.Links() && c.Links()[t] == m;
    assert rank(m) < rank(t) <= Height(rank, order);
  }

  /** The walk from the window below index `k` down. Where it finds a modal transient of `m`, it begins
      anew for that one, but not with the topmost window: it begins with the one below. */
  function Search(c: Scene, order: seq<Window>, m: Window, k: nat): (r: Window)
    requires Ordered(c, order) && m in c.wins && k <= |order|
    ensures r in c.wins
    decreases LevelsAbove(c, order, m), k
  {
    if k == 0 then m
    else
      var t := order[k - 1];
      if ModalChild(c, t, m) then
        ChildHigher(c, order, t, m);
        Search(c, order, t, |order| - 1)
      else Search(c, order, m, k - 1)
  }

  /** The modal dialog of a window: the end of a chain of modal transients, or else a modal transient of
      its group, with the chain that begins there. */
  function ModalTransient(c: Scene, order: seq<Window>, w: Window): Option<Window>
    requires Ordered(c, order) && w in c.wins
    decreases if c.wins[w].modal then 0 else 1, |order| + 1
  {
    var m := Search(c, order, w, |order|);
    if m != w then Some(m)
    else if c.wins[w].modal then None
    else GroupModal(c, order, w, |order|)
  }

  /** The walk for a modal transient of the group of `w`, from the window below index `k` down. */
  function GroupModal(c: Scene, order: seq<Window>, w: Window, k: nat): Option<Window>
    requires Ordered(c, order) && w in c.wins && !c.wins[w].modal && k <= |order|
    decreases 1, k
  {
    if k == 0 then None
    else
      var t := order[k - 1];
      if GroupModalChild(c, t, w) then
        match ModalTransient(c, order, t)
        case None => Some(t)
        case Some(further) => Some(further)
      else GroupModal(c, order, w, k - 1)
  }

  predicate GroupModalChild(c: Scene, t: Window, w: Window)
    requires c.Sound() && t in c.wins && w in c.wins
  {
    && t != w && c.wins[t].mapNum != 0 && !IsAncestorTo(c.Links(), w, t)
    && IsGroupTransient(c.wins[t], c.wins[w].clientLeader, c.root) && c.wins[t].modal
  }

  /** A chain of modal transients from `m` up to `r`. */
  ghost predicate Climbs(c: Scene, m: Window, r: Window)
    requires c.Sound() && m in c.wins && r in c.wins
    decreases RankOf(c.Links())(r)
  {
    r == m || (var up := c.wins[r].transientFor;
               assert c.Links()[r] == up;
               up in c.wins && ModalChild(c, r, up) && Climbs(c, m, up))
  }

  lemma {:induction false} ClimbsOn(c: Scene, m: Window, t: Window, r: Window)
    requires c.Sound() && m in c.wins && t in c.wins && r in c.wins && ModalChild(c, t, m) && Climbs(c, t, r)
    ensures Climbs(c, m, r)
    decreases RankOf(c.Links())(r)
  {
    if r != t {
      assert c.Links()[r] == c.wins[r].transientFor;
      ClimbsOn(c, m, t, c.wins[r].transientFor);
    } else {
      assert Climbs(c, m, m);
    }
  }

  /** The walk climbs a chain of modal transients, to one that has none itself below the topmost window. */
  lemma {:induction false} SearchEnds(c: Scene, order: seq<Window>, m: Window, k: nat)
    requires Ordered(c, order) && m in c.wins && k <= |order|
    requires forall i :: k <= i < |order| - 1 ==> !ModalChild(c, order[i], m)
    ensures Climbs(c, m, Search(c, order, m, k))
    ensures forall i :: 0 <= i < |order| - 1 ==> !ModalChild(c, order[i], Search(c, order, m, k))
    ensures k == |order| && Search(c, order, m, k) == m ==> !ModalChild(c, order[|order| - 1], m)
    decreases LevelsAbove(c, order, m), k
  {
    hide LevelsAbove, Climbs, ModalChild;
    if k == 0 {
      assert Climbs(c, m, m) by { ClimbsSelf(c, m); }
    } else {
      var t := order[k - 1];
      if ModalChild(c, t, m) {
        ChildHigher(c, order, t, m);
        SearchEnds(c, order, t, |order| - 1);
        ClimbsOn(c, m, t, Search(c, order, t, |order| - 1));
        ClimbsUp(c, t, Search(c, order, t, |order| - 1), m);
      } else {
        SearchEnds(c, order, m, k - 1);
      }
    }
  }

  lemma ClimbsSelf(c: Scene, m: Window)
    requires c.Sound() && m in c.wins
    ensures Climbs(c, m, m)
  {
  }

  /** A climb never comes back below its beginning. */
  lemma {:induction false} ClimbsUp(c: Scene, t: Window, r: Window, m: Window)
    requires c.Sound() && t in c.wins && r in c.wins && m in c.wins && ModalChild(c, t, m) && Climbs(c, t, r)
    ensures r != m && RankOf(c.Links())(m) < RankOf(c.Links())(r)
    decreases RankOf(c.Links())(r)
  {
    assert c.Links()[t] == m && c.Links()[r] == c.wins[r].transientFor;
    if r != t {
      ClimbsUp(c, t, c.wins[r].transientFor, m);
    }
  }

  lemma SearchNone(c: Scene, order: seq<Window>, m: Window)
    requires Ordered(c, order) && m in c.wins
    ensures Search(c, order, m, 0) == m
  {
  }

  lemma SearchStep(c: Scene, order: seq<Window>, m: Window, k: nat)
    requires Ordered(c, order) && m in c.wins && 0 < k <= |order|
    ensures Search(c, order, m, k)
         == if ModalChild(c, order[k - 1], m) then Search(c, order, order[k - 1], |order| - 1) else Search(c, order, m, k - 1)
    ensures ModalChild(c, order[k - 1], m) ==> LevelsAbove(c, order, order[k - 1]) < LevelsAbove(c, order, m)
  {
    hide LevelsAbove, ModalChild;
    if ModalChild(c, order[k - 1], m) {
      ChildHigher(c, order, order[k - 1], m);
    }
  }

  /** The windows that the walk from `w` looks at in search of a modal transient of `m`: all for `w` itself,
      but not the topmost one for any other. */
  function LookedAt(order: seq<Window>, w: Window, m: Window): (l: seq<Window>)
    requires order != []
    ensures l <= order
  {
    if m == w then order else order[..|order| - 1]
  }

  /** In a list from the bottom up, `t` is the topmost modal transient of `m`. */
  ghost predicate TopmostChild(c: Scene, list: seq<Window>, t: Window, m: Window)
    requires forall x :: x in list ==> x in c.wins
  {
    exists i :: 0 <= i < |list| && list[i] == t && ModalChild(c, t, m)
                && forall j :: i < j < |list| ==> !ModalChild(c, list[j], m)
  }

  /** On the climb from `p` to `w` each window is the topmost modal transient of its parent, among those that
      are looked at. */
  ghost predicate Leads(c: Scene, order: seq<Window>, w: Window, p: Window)
    requires Ordered(c, order) && w in c.wins && p in c.wins
    decreases RankOf(c.Links())(p)
  {
    var up := c.wins[p].transientFor;
    assert c.Links()[p] == up;
    p == w || (up in c.wins && TopmostChild(c, LookedAt(order, w, up), p, up) && Leads(c, order, w, up))
  }

  lemma {:induction false} LeadsUp(c: Scene, order: seq<Window>, w: Window, p: Window)
    requires Ordered(c, order) && w in c.wins && p in c.wins && Leads(c, order, w, p)
    ensures p == w || RankOf(c.Links())(w) < RankOf(c.Links())(p)
    decreases RankOf(c.Links())(p)
  {
    hide TopmostChild;
    var up := c.wins[p].transientFor;
    if p != w {
      assert c.Links()[p] == up;
      LeadsUp(c, order, w, up);
    }
  }

  lemma LeadsOn(c: Scene, order: seq<Window>, w: Window, m: Window, t: Window)
    requires Ordered(c, order) && w in c.wins && m in c.wins && t in c.wins && Leads(c, order, w, m)
    requires c.wins[t].transientFor == m && TopmostChild(c, LookedAt(order, w, m), t, m)
    ensures Leads(c, order, w, t) && t != w
  {
    hide TopmostChild;
    assert c.Links()[t] == m;
    LeadsUp(c, order, w, m);
  }

  /** Wherever the walk from `w` comes to, such a climb leads back. */
  lemma {:induction false} SearchLeads(c: Scene, order: seq<Window>, w: Window, m: Window, k: nat)
    requires Ordered(c, order) && w in c.wins && m in c.wins && Leads(c, order, w, m)
    requires k <= |LookedAt(order, w, m)|
    requires forall i :: k <= i < |LookedAt(order, w, m)| ==> !ModalChild(c, order[i], m)
    ensures Leads(c, order, w, Search(c, order, m, k))
    decreases LevelsAbove(c, order, m), k
  {
    hide Leads, LevelsAbove;
    if k > 0 {
      SearchStep(c, order, m, k);
      var t := order[k - 1];
      if ModalChild(c, t, m) {
        assert LookedAt(order, w, m)[k - 1] == t;
        LeadsOn(c, order, w, m, t);
        SearchLeads(c, order, w, t, |order| - 1);
      } else {
        SearchLeads(c, order, w, m, k - 1);
      }
    }
  }

  lemma {:induction false} SearchDown(c: Scene, order: seq<Window>, m: Window, k: nat, i: nat)
    requires Ordered(c, order) && m in c.wins && i < k <= |order| && ModalChild(c, order[i], m)
    requires forall j :: i < j < k ==> !ModalChild(c, order[j], m)
    ensures Search(c, order, m, k) == Search(c, order, order[i], |order| - 1)
    decreases k
  {
    hide Search, ModalChild;
    SearchStep(c, order, m, k);
    if i < k - 1 {
      SearchDown(c, order, m, k - 1, i);
    }
  }

  /** The walk from `w` goes on from every window that such a climb leads from. */
  lemma {:induction false} LeadsThere(c: Scene, order: seq<Window>, w: Window, p: Window)
    requires Ordered(c, order) && w in c.wins && p in c.wins && Leads(c, order, w, p) && p != w
    ensures Search(c, order, w, |order|) == Search(c, order, p, |order| - 1)
    decreases RankOf(c.Links())(p)
  {
    hide Search, ModalChild;
    var up := c.wins[p].transientFor;
    assert c.Links()[p] == up;
    var list := LookedAt(order, w, up);
    var i :| 0 <= i < |list| && list[i] == p && ModalChild(c, p, up)
             && forall j :: i < j < |list| ==> !ModalChild(c, list[j], up);
    SearchDown(c, order, up, |list|, i);
    if up != w {
      LeadsThere(c, order, w, up);
    }
  }

  lemma {:induction false} SearchStays(c: Scene, order: seq<Window>, m: Window, k: nat)
    requires Ordered(c, order) && m in c.wins && k <= |order|
    requires forall i :: 0 <= i < k ==> !ModalChild(c, order[i], m)
    ensures Search(c, order, m, k) == m
    decreases k
  {
    hide Search, ModalChild;
    if k > 0 {
      SearchStep(c, order, m, k);
      SearchStays(c, order, m, k - 1);
    } else {
      SearchNone(c, order, m);
    }
  }

  lemma LeadsSelf(c: Scene, order: seq<Window>, w: Window)
    requires Ordered(c, order) && w in c.wins
    ensures Leads(c, order, w, w)
  {
  }

  /** No window that the walk from `w` looks at is a modal transient of `r`. */
  ghost predicate Childless(c: Scene, order: seq<Window>, w: Window, r: Window)
    requires Ordered(c, order)
  {
    forall i :: 0 <= i < |LookedAt(order, w, r)| ==> !ModalChild(c, order[i], r)
  }

  /** What the walk from `w` finds: the one childless window that such a climb leads from. */
  lemma SearchIff(c: Scene, order: seq<Window>, w: Window, r: Window)
    requires Ordered(c, order) && w in c.wins && r in c.wins
    ensures Search(c, order, w, |order|) == r <==> Leads(c, order, w, r) && Childless(c, order, w, r)
  {
    hide Search, Climbs, Scene.Sound, Leads, ModalChild;
    LeadsSelf(c, order, w);
    SearchLeads(c, order, w, w, |order|);
    SearchEnds(c, order, w, |order|);
    if Leads(c, order, w, r) && Childless(c, order, w, r) {
      if r != w {
        LeadsThere(c, order, w, r);
      }
      SearchStays(c, order, r, |LookedAt(order, w, r)|);
    }
  }

  /** The dialog found has itself a modal dialog if and only if the topmost window is one, its parent is not
      `w` and has no other, and every window on the climb from that parent to `w` is the one that the walk
      takes. */
  lemma ModalMissedIff(c: Scene, order: seq<Window>, w: Window)
    requires Ordered(c, order) && w in c.wins
    ensures var top := order[|order| - 1];
            var p := c.wins[top].transientFor;
            (exists t :: t in c.wins && ModalChild(c, t, Search(c, order, w, |order|)))
            <==> p in c.wins && p != w && ModalChild(c, top, p) && Childless(c, order, w, p) && Leads(c, order, w, p)
  {
    hide Search, Scene.Sound, Leads;
    var r, top := Search(c, order, w, |order|), order[|order| - 1];
    var p := c.wins[top].transientFor;
    SearchIff(c, order, w, r);
    if p in c.wins {
      SearchIff(c, order, w, p);
    }
    if t :| t in c.wins && ModalChild(c, t, r) {
      var i :| 0 <= i < |order| && order[i] == t;
    }
  }

  /** A window that is modal, mapped and not `w`. */
  ghost predicate OtherModal(c: Scene, w: Window, r: Window) {
    r in c.wins && r != w && c.wins[r].modal && c.wins[r].mapNum != 0
  }

  /** What is found is another window, modal and mapped, at the end of a chain of modal transients that begins
      with the window itself or with a modal transient of its group. */
  lemma {:induction false} ModalFound(c: Scene, order: seq<Window>, w: Window)
    requires Ordered(c, order) && w in c.wins
    ensures var r := ModalTransient(c, order, w);
            r.Some? ==> OtherModal(c, w, r.value)
                        && (Climbs(c, w, r.value)
                            || exists t :: t in c.wins && GroupModalChild(c, t, w) && Climbs(c, t, r.value))
    decreases if c.wins[w].modal then 0 else 1, |order| + 1
  {
    hide Search, GroupModalChild, IsAncestorTo, GroupModal;
    SearchEnds(c, order, w, |order|);
    var m := Search(c, order, w, |order|);
    if m == w && !c.wins[w].modal {
      GroupModalFound(c, order, w, |order|);
    }
  }

  lemma {:induction false} GroupModalFound(c: Scene, order: seq<Window>, w: Window, k: nat)
    requires Ordered(c, order) && w in c.wins && !c.wins[w].modal && k <= |order|
    ensures var r := GroupModal(c, order, w, k);
            r.Some? ==> OtherModal(c, w, r.value)
                        && exists t :: t in c.wins && GroupModalChild(c, t, w) && Climbs(c, t, r.value)
    decreases 1, k
  {
    hide ModalTransient, Climbs;
    if k > 0 {
      var t := order[k - 1];
      if GroupModalChild(c, t, w) {
        ClimbsSelf(c, t);
        DialogOfDialog(c, order, t);
      } else {
        GroupModalFound(c, order, w, k - 1);
      }
    }
  }

  /** A modal window has only its own chain searched. */
  lemma DialogOfDialog(c: Scene, order: seq<Window>, t: Window)
    requires Ordered(c, order) && t in c.wins && c.wins[t].modal
    ensures var r := ModalTransient(c, order, t);
            r.Some? ==> OtherModal(c, t, r.value) && Climbs(c, t, r.value)
  {
    hide Search;
    SearchEnds(c, order, t, |order|);
  }

  /** The topmost modal transient of the group of `w`. */
  ghost predicate TopmostGroupChild(c: Scene, order: seq<Window>, t: Window, w: Window)
    requires Ordered(c, order) && w in c.wins
  {
    exists i :: 0 <= i < |order| && order[i] == t && GroupModalChild(c, t, w)
                && forall j :: i < j < |order| ==> !GroupModalChild(c, order[j], w)
  }

  /** The walk for a modal transient of the group finds the topmost one, and searches on from there. */
  lemma {:induction false} GroupModalFrom(c: Scene, order: seq<Window>, w: Window, k: nat)
    requires Ordered(c, order) && w in c.wins && !c.wins[w].modal && k <= |order|
    requires forall j :: k <= j < |order| ==> !GroupModalChild(c, order[j], w)
    ensures GroupModal(c, order, w, k) == None <==> forall t :: t in c.wins ==> !GroupModalChild(c, t, w)
    ensures GroupModal(c, order, w, k).Some? ==>
              exists t :: t in c.wins && TopmostGroupChild(c, order, t, w)
                          && GroupModal(c, order, w, k) == Some(Search(c, order, t, |order|))
    decreases k
  {
    hide Search, IsAncestorTo, GroupModalChild, Scene.Sound;
    if k == 0 {
      forall t | t in c.wins
        ensures !GroupModalChild(c, t, w)
      {
        assert order[IndexOf(order, t)] == t;
      }
    } else {
      var t := order[k - 1];
      if GroupModalChild(c, t, w) {
        FromModal(c, order, t, w);
      } else {
        GroupModalFrom(c, order, w, k - 1);
      }
    }
  }

  lemma FromModal(c: Scene, order: seq<Window>, t: Window, w: Window)
    requires Ordered(c, order) && t in c.wins && w in c.wins && GroupModalChild(c, t, w)
    ensures c.wins[t].modal
    ensures ModalTransient(c, order, t)
         == if Search(c, order, t, |order|) == t then None else Some(Search(c, order, t, |order|))
  {
    hide Search;
  }

  lemma OneTopmost(c: Scene, order: seq<Window>, t: Window, u: Window, w: Window)
    requires Ordered(c, order) && w in c.wins && TopmostGroupChild(c, order, t, w) && TopmostGroupChild(c, order, u, w)
    ensures t == u && t in c.wins && GroupModalChild(c, t, w)
  {
    hide GroupModalChild, Scene.Sound;
  }

  /** The chain of modal transients that `w` leads to ends at `r`. */
  ghost predicate ChainTo(c: Scene, order: seq<Window>, w: Window, r: Window)
    requires Ordered(c, order) && w in c.wins && r in c.wins
  {
    Leads(c, order, w, r) && Childless(c, order, w, r)
  }

  /** Exactly when a window has a modal dialog, and which it is: the end of the chain that begins with the
      window itself, or, where it has no modal transient and is not modal itself, of the one that begins with
      the topmost modal transient of its group. */
  lemma ModalTransientIff(c: Scene, order: seq<Window>, w: Window, r: Window)
    requires Ordered(c, order) && w in c.wins && r in c.wins
    ensures ModalTransient(c, order, w) == None <==>
              Childless(c, order, w, w) && (c.wins[w].modal || forall t :: t in c.wins ==> !GroupModalChild(c, t, w))
    ensures ModalTransient(c, order, w) == Some(r) <==>
              if !Childless(c, order, w, w) then ChainTo(c, order, w, r)
              else && !c.wins[w].modal
                   && exists t :: t in c.wins && TopmostGroupChild(c, order, t, w) && ChainTo(c, order, t, r)
  {
    hide Search, Leads, Childless, GroupModalChild, GroupModal, TopmostGroupChild, Scene.Sound;
    LeadsSelf(c, order, w);
    SearchIff(c, order, w, w);
    SearchIff(c, order, w, r);
    if !c.wins[w].modal && Childless(c, order, w, w) {
      GroupModalFrom(c, order, w, |order|);
      forall t | t in c.wins && TopmostGroupChild(c, order, t, w)
        ensures Search(c, order, t, |order|) == r <==> ChainTo(c, order, t, r)
        ensures GroupModal(c, order, w, |order|) == Some(Search(c, order, t, |order|))
      {
        SearchIff(c, order, t, r);
        OneTopmost(c, order, t, t, w);
        var u :| u in c.wins && TopmostGroupChild(c, order, u, w)
                 && GroupModal(c, order, w, |order|) == Some(Search(c, order, u, |order|));
        OneTopmost(c, order, t, u, w);
      }
    }
  }

  const PLAIN_WINDOW := NO_PROPS.(wtype := Normal, mapNum := 1)
  const DIALOG := NO_PROPS.(wtype := Dialog, mapNum := 1, modal := true)

  /** A window with a modal dialog, which has a modal dialog on top. */
  const DIALOGS := Scene(map[10 := PLAIN_WINDOW, 11 := DIALOG.(transientFor := 10), 12 := DIALOG.(transientFor := 11)],
                         1, [10, 11, 12])

  lemma DialogsOrdered()
    ensures Ordered(DIALOGS, DIALOGS.stack)
  {
    hide Acyclic, Scene.Links;
    DialogsAcyclic();
  }

  lemma DialogsAcyclic()
    ensures Acyclic(DIALOGS.Links())
  {
    assert Ranked(DIALOGS.Links(), (x: Window) => x);
  }

  lemma DialogsFound()
    requires Ordered(DIALOGS, DIALOGS.stack)
    ensures 10 in DIALOGS.wins && 12 in DIALOGS.wins && |DIALOGS.stack| == 3
    ensures Search(DIALOGS, DIALOGS.stack, 10, |DIALOGS.stack|) == 11 && ModalChild(DIALOGS, 12, 11)
  {
    hide Scene.Sound, Search;
    SearchStep(DIALOGS, DIALOGS.stack, 10, 3);
    SearchStep(DIALOGS, DIALOGS.stack, 10, 2);
    SearchStep(DIALOGS, DIALOGS.stack, 11, 2);
    SearchStep(DIALOGS, DIALOGS.stack, 11, 1);
    SearchNone(DIALOGS, DIALOGS.stack, 11);
  }

  /** The dialog found may be one that waits itself for a dialog on top. */
  lemma ModalCanBeMissed()
    ensures exists c: Scene, order, w, t ::
              Ordered(c, order) && w in c.wins && t in c.wins && ModalChild(c, t, Search(c, order, w, |order|))
  {
    hide Ordered, Search, ModalChild;
    DialogsOrdered();
    DialogsFound();
    var c := DIALOGS;
    var order := c.stack;
    assert Ordered(c, order) && ModalChild(c, 12, Search(c, order, 10, |order|));
  }
}
