/** The client leader that a window inherits from its ancestors. */
module ClientLeaders {
  import opened TransientForest
  import opened Windows
  import opened WindowLists
  import opened Stacking
  import opened Restacking

  /** The leader of the nearest ancestor that has one. */
  function LeaderOfAncestor(c: Scene, w: Window): Window
    requires c.Sound() && w in c.wins
    decreases RankOf(c.Links())(w)
  {
    var up := c.wins[w].transientFor;
    if up in c.wins then
      assert c.Links()[w] == up;
      if c.wins[up].clientLeader != NONE then c.wins[up].clientLeader else LeaderOfAncestor(c, up)
    else NONE
  }

  /** A leader found is that of an ancestor, and none is found only where no ancestor has one. */
  lemma {:induction false} LeaderFound(c: Scene, w: Window)
    requires c.Sound() && w in c.wins
    ensures var leader := LeaderOfAncestor(c, w);
            if leader == NONE then
              forall a :: a in c.wins && TransientForest.IsAncestorTo(c.Links(), w, a) ==> c.wins[a].clientLeader == NONE
            else
              exists a :: a in c.wins && TransientForest.IsAncestorTo(c.Links(), w, a)
                          && c.wins[a].clientLeader == leader
    decreases RankOf(c.Links())(w)
  {
    var up := c.wins[w].transientFor;
    assert c.Links()[w] == up;
    if up in c.wins {
      assert TransientForest.IsAncestorTo(c.Links(), w, up);
      if c.wins[up].clientLeader == NONE {
        LeaderFound(c, up);
        forall a | a in c.wins
          ensures TransientForest.IsAncestorTo(c.Links(), w, a) <==>
                    a == up || TransientForest.IsAncestorTo(c.Links(), up, a)
        {
        }
      }
    }
  }

  method GetClientLeaderOfAncestor(wm: WindowManager, w: CompWindow, ghost c: Scene) returns (leader: Window)
    requires Ready(wm, c) && w in wm.Known()
    modifies wm`lastFoundWindow
    ensures Ready(wm, c) && w.id in c.wins && leader == LeaderOfAncestor(c, w.id)
    decreases RankOf(c.Links())(w.id)
  {
    hide Ready;
    WindowShown(wm, c, w);
    NoneListed(c);
    leader := NONE;
    if w.props.transientFor != NONE {
      assert c.Links()[w.id] == w.props.transientFor;
      var t := Lookup(wm, c, w.props.transientFor);
      if t != null {
        WindowShown(wm, c, t);
        if t.props.clientLeader != NONE {
          return t.props.clientLeader;
        }
        leader := GetClientLeaderOfAncestor(wm, t, c);
      }
    }
  }
}
