/** The windows and the windows they are transient for (WM_TRANSIENT_FOR, section 4.1.2.6 of the
    Inter-Client Communication Conventions Manual).

    A link goes from the id of a listed window to the id it was last told to be transient for, or
    to NONE. The target need not be listed: its window may have been destroyed, and its id may come
    back for another window. */
module TransientForest {
  import opened Values
  import opened Windows

  type Links = map<Window, Window>

  /** A chain of at least one link. */
  ghost predicate Chain(l: Links, p: seq<Window>) {
    && |p| >= 2
    && p[0] in l && l[p[0]] == p[1] && p[1] != NONE
    && (|p| > 2 ==> Chain(l, p[1..]))
  }

  ghost predicate Reaches(l: Links, x: Window, y: Window) {
    exists p :: Chain(l, p) && p[0] == x && p[|p| - 1] == y
  }

  ghost predicate CycleFree(l: Links) {
    forall x :: !Reaches(l, x, x)
  }

  /** Every link leads to a smaller rank. */
  ghost predicate Ranked(l: Links, rank: Window -> nat) {
    forall x :: x in l && l[x] != NONE ==> rank(l[x]) < rank(x)
  }

  ghost predicate Acyclic(l: Links) {
    exists rank :: Ranked(l, rank)
  }

  ghost function RankOf(l: Links): (rank: Window -> nat)
    requires Acyclic(l)
    ensures Ranked(l, rank)
  {
    var rank :| Ranked(l, rank);
    rank
  }

  /** The climb from `transient` in search of `ancestor`, both listed. */
  function IsAncestorTo(l: Links, transient: Window, ancestor: Window): bool
    requires Acyclic(l) && transient in l
    decreases RankOf(l)(transient)
  {
    var up := l[transient];
    up != NONE && (up == ancestor || (up in l && IsAncestorTo(l, up, ancestor)))
  }

  /** The climb finds exactly the transitive targets of the links. */
  lemma {:induction false} IsAncestorToReaches(l: Links, transient: Window, ancestor: Window)
    requires Acyclic(l) && transient in l
    ensures IsAncestorTo(l, transient, ancestor) <==> Reaches(l, transient, ancestor)
    decreases RankOf(l)(transient)
  {
    var up := l[transient];
    if up != NONE && up in l {
      IsAncestorToReaches(l, up, ancestor);
      if Reaches(l, up, ancestor) {
        var p :| Chain(l, p) && p[0] == up && p[|p| - 1] == ancestor;
        var q := [transient] + p;
        assert q[1..] == p;
        assert Chain(l, q) && q[0] == transient && q[|q| - 1] == ancestor;
      }
    }
    if up != NONE && up == ancestor {
      assert Chain(l, [transient, up]) && [transient, up][1] == ancestor;
    }
    if Reaches(l, transient, ancestor) {
      var p :| Chain(l, p) && p[0] == transient && p[|p| - 1] == ancestor;
      assert p[1] == up;
      if |p| > 2 {
        assert Chain(l, p[1..]) && p[1..][0] == up && p[1..][|p[1..]| - 1] == ancestor;
      }
    }
  }

  lemma {:induction false} ChainDescends(l: Links, rank: Window -> nat, p: seq<Window>)
    requires Ranked(l, rank) && Chain(l, p)
    ensures rank(p[|p| - 1]) < rank(p[0])
  {
    if |p| > 2 {
      ChainDescends(l, rank, p[1..]);
    }
  }

  lemma AcyclicIsCycleFree(l: Links)
    requires Acyclic(l)
    ensures CycleFree(l)
  {
    forall x
      ensures !Reaches(l, x, x)
    {
      if p :| Chain(l, p) && p[0] == x && p[|p| - 1] == x {
        ChainDescends(l, RankOf(l), p);
      }
    }
  }

  /** What a window is transient for after its hint has been read, as a new set of links. */
  function UpdateTransientHint(l: Links, x: Window, hint: Option<Window>): (r: Links)
    requires Acyclic(l) && x in l
    ensures Acyclic(r) && r.Keys == l.Keys
  {
    var cleared := l[x := NONE];
    ClearedAcyclic(l, x);
    if hint.None? || hint.value !in cleared then cleared
    else if hint.value == x || IsAncestorTo(cleared, hint.value, x) then cleared
    else
      LinkedAcyclic(cleared, x, hint.value);
      cleared[x := hint.value]
  }

  lemma ClearedAcyclic(l: Links, x: Window)
    requires Acyclic(l)
    ensures Acyclic(l[x := NONE])
  {
    assert Ranked(l[x := NONE], RankOf(l));
  }

  /** A link to a window that does not lead back closes no cycle: all that leads to its source, and
      the source itself, can be ranked above its target. */
  lemma LinkedAcyclic(l: Links, x: Window, y: Window)
    requires Acyclic(l) && x in l && l[x] == NONE && y in l && y != x && !IsAncestorTo(l, y, x)
    ensures Acyclic(l[x := y])
  {
    var rank := RankOf(l);
    var raised: Window -> nat := z =>
      if z == x || (z in l && IsAncestorTo(l, z, x)) then rank(z) + rank(y) + 1 else rank(z);
    var r := l[x := y];
    forall z | z in r && r[z] != NONE
      ensures raised(r[z]) < raised(z)
    {
      if z != x {
        assert rank(l[z]) < rank(z);
      }
    }
    assert Ranked(r, raised);
  }

  lemma {:induction false} ChainKept(l: Links, x: Window, y: Window, p: seq<Window>)
    requires x in l && l[x] == NONE && Chain(l, p)
    ensures Chain(l[x := y], p)
  {
    if |p| > 2 {
      ChainKept(l, x, y, p[1..]);
    }
  }

  /** The check of a hint is exact: the link is made if and only if it closes no cycle. */
  lemma HintTakenIffNoCycle(l: Links, x: Window, y: Window)
    requires Acyclic(l) && x in l && y in l && y != NONE
    ensures UpdateTransientHint(l, x, Some(y)) == if CycleFree(l[x := y]) then l[x := y] else l[x := NONE]
  {
    var cleared := l[x := NONE];
    ClearedAcyclic(l, x);
    var linked := l[x := y];
    assert cleared[x := y] == linked;
    if y == x {
      assert Chain(linked, [x, x]) && [x, x][1] == x;
      assert Reaches(linked, x, x);
    } else {
      IsAncestorToReaches(cleared, y, x);
      if IsAncestorTo(cleared, y, x) {
        var p :| Chain(cleared, p) && p[0] == y && p[|p| - 1] == x;
        var q := [x] + p;
        ChainKept(cleared, x, y, p);
        assert q[1..] == p;
        assert Chain(linked, q) && q[0] == x && q[|q| - 1] == x;
        assert Reaches(linked, x, x);
      } else {
        LinkedAcyclic(cleared, x, y);
        AcyclicIsCycleFree(linked);
      }
    }
  }

  datatype Event =
    | Create(id: Window)
    | Destroy(id: Window)
    | ReadHint(id: Window, hint: Option<Window>)

  /** An event, which changes nothing when it concerns an id that is taken, or none. */
  function Step(l: Links, e: Event): (r: Links)
    requires Acyclic(l)
    ensures Acyclic(r)
  {
    match e
    case Create(id) =>
      if id in l then l else
        ClearedAcyclic(l, id);
        l[id := NONE]
    case Destroy(id) =>
      assert Ranked(l - {id}, RankOf(l));
      l - {id}
    case ReadHint(id, hint) =>
      if id in l then UpdateTransientHint(l, id, hint) else l
  }

  /** The links after a whole run that starts without any window. */
  function Run(events: seq<Event>): (l: Links)
    ensures Acyclic(l)
  {
    if events == [] then
      assert Ranked(map[], (_: Window) => 0);
      map[]
    else Step(Run(events[..|events| - 1]), events[|events| - 1])
  }

  /** No run ever closes a cycle, though destroyed windows leave links behind and ids come back. */
  lemma RunsAreCycleFree(events: seq<Event>)
    ensures CycleFree(Run(events))
  {
    AcyclicIsCycleFree(Run(events));
  }
}
