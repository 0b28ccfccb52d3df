/** Minimizing a window together with all that is transient for it, and bringing it back. */
module Minimize {
  import opened Sequences
  import opened Windows
  import Stacking

  /** A way along the edges that only visits elements of `open`. */
  ghost predicate Path<T>(edges: set<(T, T)>, open: set<T>, older p: seq<T>) {
    && p != []
    && p[0] in open
    && (|p| > 1 ==> (p[0], p[1]) in edges && Path(edges, open, p[1..]))
  }

  ghost predicate Reaches<T>(edges: set<(T, T)>, open: set<T>, x: T, y: T) {
    exists p :: Path(edges, open, p) && p[0] == x && p[|p| - 1] == y
  }

  /** What a depth-first walk from `x` visits. */
  ghost function Reach<T>(edges: set<(T, T)>, open: set<T>, x: T): set<T> {
    set y | y in open && Reaches(edges, open, x, y)
  }

  lemma {:induction false} PathWider<T>(edges: set<(T, T)>, open: set<T>, wider: set<T>, p: seq<T>)
    requires Path(edges, open, p) && open <= wider
    ensures Path(edges, wider, p)
  {
    if |p| > 1 {
      PathWider(edges, open, wider, p[1..]);
    }
  }

  lemma {:induction false} PathEnds<T>(edges: set<(T, T)>, open: set<T>, p: seq<T>)
    requires Path(edges, open, p)
    ensures p[|p| - 1] in open
  {
    if |p| > 1 {
      PathEnds(edges, open, p[1..]);
    }
  }

  lemma {:induction false} PathOneMore<T>(edges: set<(T, T)>, open: set<T>, p: seq<T>, y: T)
    requires Path(edges, open, p) && (p[|p| - 1], y) in edges && y in open
    ensures Path(edges, open, p + [y])
  {
    if |p| > 1 {
      PathOneMore(edges, open, p[1..], y);
      assert (p + [y])[1..] == p[1..] + [y];
    } else {
      assert (p + [y])[1..] == [y];
    }
  }

  lemma ReachesItself<T>(edges: set<(T, T)>, open: set<T>, x: T)
    requires x in open
    ensures Reaches(edges, open, x, x)
  {
    assert Path(edges, open, [x]) && [x][|[x]| - 1] == x;
  }

  lemma ReachesNext<T>(edges: set<(T, T)>, open: set<T>, x: T, y: T, z: T)
    requires Reaches(edges, open, x, y) && (y, z) in edges && z in open
    ensures Reaches(edges, open, x, z)
  {
    var p :| Path(edges, open, p) && p[0] == x && p[|p| - 1] == y;
    PathOneMore(edges, open, p, z);
    assert (p + [z])[0] == x && (p + [z])[|p + [z]| - 1] == z;
  }

  lemma ReachesAfter<T>(edges: set<(T, T)>, open: set<T>, wider: set<T>, w: T, x: T, y: T)
    requires Reaches(edges, open, x, y) && open <= wider && w in wider && (w, x) in edges
    ensures Reaches(edges, wider, w, y)
  {
    var p :| Path(edges, open, p) && p[0] == x && p[|p| - 1] == y;
    PathWider(edges, open, wider, p);
    assert ([w] + p)[1..] == p;
    assert Path(edges, wider, [w] + p) && ([w] + p)[|[w] + p| - 1] == y;
  }

  /** A set that a way along the edges cannot leave. */
  lemma {:induction false} PathStays<T>(edges: set<(T, T)>, open: set<T>, home: set<T>, p: seq<T>)
    requires Path(edges, open, p) && p[0] in home
    requires forall x, y :: x in home && (x, y) in edges && y in open ==> y in home
    ensures p[|p| - 1] in home
  {
    if |p| > 1 {
      PathStays(edges, open, home, p[1..]);
    }
  }

  /** What the walk from `w` has visited so far: only what can be reached, and with every element
      but `w` itself all that follows it. */
  ghost predicate Partial<T>(edges: set<(T, T)>, start: set<T>, open: set<T>, w: T) {
    && open <= start && w in start && w !in open
    && (forall x :: x in start && x !in open ==> Reaches(edges, start, w, x))
    && (forall x, y :: x in start && x !in open && x != w && (x, y) in edges ==> y !in open)
  }

  lemma PartialBegins<T>(edges: set<(T, T)>, start: set<T>, w: T)
    requires w in start
    ensures Partial(edges, start, start - {w}, w)
  {
    ReachesItself(edges, start, w);
  }

  /** A walk from a follower of `w` keeps what the walk from `w` needs. */
  lemma PartialGoesOn<T>(edges: set<(T, T)>, start: set<T>, open: set<T>, w: T, y: T)
    requires Partial(edges, start, open, w) && (w, y) in edges
    ensures Partial(edges, start, open - Reach(edges, open, y), w)
    ensures y !in open - Reach(edges, open, y)
  {
    var next := open - Reach(edges, open, y);
    forall x | x in start && x !in next
      ensures Reaches(edges, start, w, x)
    {
      if x in open {
        ReachesAfter(edges, open, start, w, y, x);
      }
    }
    forall x, z | x in start && x !in next && x != w && (x, z) in edges
      ensures z !in next
    {
      if x in open && z in open {
        ReachesNext(edges, open, y, x, z);
      }
    }
    if y in open {
      ReachesItself(edges, open, y);
    }
  }

  /** A walk that has dealt with all followers of `w` has visited exactly what can be reached. */
  lemma PartialEnds<T>(edges: set<(T, T)>, start: set<T>, open: set<T>, w: T)
    requires Partial(edges, start, open, w)
    requires forall y :: (w, y) in edges ==> y !in open
    ensures open == start - Reach(edges, start, w)
  {
    forall x | x in start && Reaches(edges, start, w, x)
      ensures x !in open
    {
      var p :| Path(edges, start, p) && p[0] == w && p[|p| - 1] == x;
      PathStays(edges, start, start - open, p);
    }
  }

  lemma NothingReached<T>(edges: set<(T, T)>, open: set<T>, w: T)
    requires w !in open
    ensures Reach(edges, open, w) == {}
  {
  }

  /** Whether `w` goes along with `ancestor`: it is transient for it, or for its group. */
  predicate GoesAlong(w: CompWindow, ancestor: CompWindow, root: Window)
    reads w`props, ancestor`props, ancestor`id
  {
    w.props.transientFor == ancestor.id || Stacking.IsGroupTransient(w.props, ancestor.props.clientLeader, root)
  }

  /** The edges of the walk, as a set of pairs. */
  ghost predicate EdgesOf(edges: set<(CompWindow, CompWindow)>, all: set<CompWindow>, root: Window)
    reads all`props, all`id
  {
    && (forall e :: e in edges ==> e.0 in all && e.1 in all)
    && (forall a, w :: a in all && w in all ==> ((a, w) in edges <==> GoesAlong(w, a, root)))
  }

  ghost function Minimized(all: set<CompWindow>): set<CompWindow>
    reads all`minimized
  {
    set x | x in all && x.minimized
  }

  ghost function Managed(all: set<CompWindow>): set<CompWindow>
    reads all`props
  {
    set x | x in all && x.props.managed
  }

  /** The windows that minimizing can still change. */
  ghost function Open(all: set<CompWindow>): set<CompWindow>
    reads all`props, all`minimized
  {
    Managed(all) - Minimized(all)
  }

  /** Minimizes `w` and everything that goes along with it: all managed windows that can be reached
      from it through managed windows that were not minimized. */
  method MinimizeWindow(windows: seq<CompWindow>, w: CompWindow, root: Window,
                        ghost all: set<CompWindow>, ghost edges: set<(CompWindow, CompWindow)>)
    requires Elements(windows) == all && w in all && EdgesOf(edges, all, root)
    modifies all`minimized
    ensures Minimized(all) == old(Minimized(all)) + Reach(edges, old(Open(all)), w)
    decreases |Open(all)|, 0
  {
    hide Partial, Reach, EdgesOf, Elements;
    ghost var start := Open(all);
    if !w.props.managed || w.minimized {
      NothingReached(edges, start, w);
      return;
    }
    Mark(w, true, all);
    PartialBegins(edges, start, w);
    assert Open(all) == start - {w};
    ForEachWindow(windows, w, root, all, edges, start);
    PartialEnds(edges, start, Open(all), w);
    ReachIsOpen(edges, start, w);
  }

  lemma ReachIsOpen<T>(edges: set<(T, T)>, open: set<T>, w: T)
    ensures Reach(edges, open, w) <= open
  {
  }

  method Mark(w: CompWindow, minimized: bool, ghost all: set<CompWindow>)
    requires w in all
    modifies w`minimized
    ensures Minimized(all) == if minimized then old(Minimized(all)) + {w} else old(Minimized(all)) - {w}
  {
    w.minimized := minimized;
  }

  /** What is done for each window: it is minimized too if it goes along with `ancestor`. */
  method MinimizeTransients(windows: seq<CompWindow>, w: CompWindow, ancestor: CompWindow, root: Window,
                            ghost all: set<CompWindow>, ghost edges: set<(CompWindow, CompWindow)>,
                            ghost start: set<CompWindow>)
    requires Elements(windows) == all && w in all && ancestor in all && EdgesOf(edges, all, root)
    requires Partial(edges, start, Open(all), ancestor) && Open(all) <= start
    modifies all`minimized
    ensures Partial(edges, start, Open(all), ancestor)
    ensures (ancestor, w) in edges ==> w !in Open(all)
    ensures old(Minimized(all)) <= Minimized(all) <= old(Minimized(all)) + start
    ensures Open(all) <= old(Open(all))
    decreases |Open(all)|, 1
  {
    hide Partial, Reach, Elements;
    if GoesAlong(w, ancestor, root) {
      ghost var open := Open(all);
      PartialGoesOn(edges, start, open, ancestor, w);
      ReachIsOpen(edges, open, w);
      MinimizeWindow(windows, w, root, all, edges);
      assert Open(all) == open - Reach(edges, open, w);
    }
  }

  method ForEachWindow(windows: seq<CompWindow>, ancestor: CompWindow, root: Window,
                       ghost all: set<CompWindow>, ghost edges: set<(CompWindow, CompWindow)>,
                       ghost start: set<CompWindow>)
    requires Elements(windows) == all && ancestor in all && EdgesOf(edges, all, root)
    requires Partial(edges, start, Open(all), ancestor) && Open(all) <= start
    modifies all`minimized
    ensures Partial(edges, start, Open(all), ancestor)
    ensures forall y :: (ancestor, y) in edges ==> y !in Open(all)
    ensures old(Minimized(all)) <= Minimized(all) <= old(Minimized(all)) + start
    ensures Open(all) <= old(Open(all))
    decreases |Open(all)|, 2
  {
    hide Partial, Reach, EdgesOf, Open, Minimized;
    for i := 0 to |windows|
      invariant Partial(edges, start, Open(all), ancestor)
      invariant forall j :: 0 <= j < i && (ancestor, windows[j]) in edges ==> windows[j] !in Open(all)
      invariant old(Minimized(all)) <= Minimized(all) <= old(Minimized(all)) + start
      invariant Open(all) <= old(Open(all))
    {
      Cardinality(Open(all), old(Open(all)));
      assert windows[i] in Elements(windows);
      MinimizeTransients(windows, windows[i], ancestor, root, all, edges, start);
    }
    EdgesInside(edges, all, root);
  }

  lemma EdgesInside(edges: set<(CompWindow, CompWindow)>, all: set<CompWindow>, root: Window)
    requires EdgesOf(edges, all, root)
    ensures forall e :: e in edges ==> e.0 in all && e.1 in all
  {
  }

  lemma {:induction false} Cardinality<T>(a: set<T>, b: set<T>)
    requires a <= b
    ensures |a| <= |b|
    decreases a
  {
    if a != {} {
      var x :| x in a;
      Cardinality(a - {x}, b - {x});
    }
  }

  /** Brings `w` back with everything that goes along with it: all windows that can be reached from
      it through minimized windows. */
  method UnminimizeWindow(windows: seq<CompWindow>, w: CompWindow, root: Window,
                          ghost all: set<CompWindow>, ghost edges: set<(CompWindow, CompWindow)>)
    requires Elements(windows) == all && w in all && EdgesOf(edges, all, root)
    modifies all`minimized
    ensures Minimized(all) == old(Minimized(all)) - Reach(edges, old(Minimized(all)), w)
    decreases |Minimized(all)|, 0
  {
    hide Partial, Reach, EdgesOf, Elements;
    ghost var start := Minimized(all);
    if !w.minimized {
      NothingReached(edges, start, w);
      return;
    }
    Mark(w, false, all);
    PartialBegins(edges, start, w);
    UnminimizeEach(windows, w, root, all, edges, start);
    PartialEnds(edges, start, Minimized(all), w);
  }

  method UnminimizeTransients(windows: seq<CompWindow>, w: CompWindow, ancestor: CompWindow, root: Window,
                              ghost all: set<CompWindow>, ghost edges: set<(CompWindow, CompWindow)>,
                              ghost start: set<CompWindow>)
    requires Elements(windows) == all && w in all && ancestor in all && EdgesOf(edges, all, root)
    requires Partial(edges, start, Minimized(all), ancestor)
    modifies all`minimized
    ensures Partial(edges, start, Minimized(all), ancestor)
    ensures (ancestor, w) in edges ==> w !in Minimized(all)
    ensures Minimized(all) <= old(Minimized(all))
    decreases |Minimized(all)|, 1
  {
    hide Partial, Reach, Elements;
    if GoesAlong(w, ancestor, root) {
      PartialGoesOn(edges, start, Minimized(all), ancestor, w);
      UnminimizeWindow(windows, w, root, all, edges);
    }
  }

  method UnminimizeEach(windows: seq<CompWindow>, ancestor: CompWindow, root: Window,
                        ghost all: set<CompWindow>, ghost edges: set<(CompWindow, CompWindow)>,
                        ghost start: set<CompWindow>)
    requires Elements(windows) == all && ancestor in all && EdgesOf(edges, all, root)
    requires Partial(edges, start, Minimized(all), ancestor)
    modifies all`minimized
    ensures Partial(edges, start, Minimized(all), ancestor)
    ensures forall y :: (ancestor, y) in edges ==> y !in Minimized(all)
    ensures Minimized(all) <= old(Minimized(all))
    decreases |Minimized(all)|, 2
  {
    hide Partial, Reach, EdgesOf;
    for i := 0 to |windows|
      invariant Partial(edges, start, Minimized(all), ancestor)
      invariant forall j :: 0 <= j < i && (ancestor, windows[j]) in edges ==> windows[j] !in Minimized(all)
      invariant Minimized(all) <= old(Minimized(all))
    {
      Cardinality(Minimized(all), old(Minimized(all)));
      assert windows[i] in Elements(windows);
      UnminimizeTransients(windows, windows[i], ancestor, root, all, edges, start);
    }
    EdgesInside(edges, all, root);
  }

  /** The minimized windows after `w` has been minimized, and after it has been brought back. */
  ghost function AfterMinimize<T>(edges: set<(T, T)>, managed: set<T>, minimized: set<T>, w: T): set<T> {
    minimized + Reach(edges, managed - minimized, w)
  }

  ghost function AfterUnminimize<T>(edges: set<(T, T)>, minimized: set<T>, w: T): set<T> {
    minimized - Reach(edges, minimized, w)
  }

  /** Bringing a window back undoes that it was minimized exactly when it was not minimized before and
      nothing that was minimized before goes along with it or with a window minimized with it. */
  lemma UnminimizeUndoesMinimize<T>(edges: set<(T, T)>, managed: set<T>, minimized: set<T>, w: T)
    ensures AfterUnminimize(edges, AfterMinimize(edges, managed, minimized, w), w) == minimized
            <==> && w !in minimized
                 && forall r, m :: r in Reach(edges, managed - minimized, w) && m in minimized ==> (r, m) !in edges
  {
    var taken := Reach(edges, managed - minimized, w);
    var after := AfterMinimize(edges, managed, minimized, w);
    if w in minimized {
      NothingReached(edges, managed - minimized, w);
      ReachesItself(edges, minimized, w);
      assert after == minimized;
    } else if r, m :| r in taken && m in minimized && (r, m) in edges {
      TakenReached(edges, managed - minimized, after, w, r);
      ReachesNext(edges, after, w, r, m);
    } else {
      forall x
        ensures x in Reach(edges, after, w) <==> x in taken
      {
        if x in taken {
          TakenReached(edges, managed - minimized, after, w, x);
        }
        if x in Reach(edges, after, w) {
          OnlyTaken(edges, managed, minimized, w, x);
        }
      }
    }
  }

  /** What a walk visits, it can visit again among the visited elements only. */
  lemma TakenReached<T>(edges: set<(T, T)>, open: set<T>, after: set<T>, w: T, x: T)
    requires x in Reach(edges, open, w) && Reach(edges, open, w) <= after
    ensures x in Reach(edges, after, w)
  {
    var p :| Path(edges, open, p) && p[0] == w && p[|p| - 1] == x;
    ReachesItself(edges, open, w);
    PathTaken(edges, open, w, p);
    PathWider(edges, Reach(edges, open, w), after, p);
    PathEnds(edges, after, p);
  }

  lemma {:induction false} PathTaken<T>(edges: set<(T, T)>, open: set<T>, w: T, p: seq<T>)
    requires Path(edges, open, p) && Reaches(edges, open, w, p[0])
    ensures Path(edges, Reach(edges, open, w), p)
  {
    if |p| > 1 {
      ReachesNext(edges, open, w, p[0], p[1]);
      PathTaken(edges, open, w, p[1..]);
    }
  }

  lemma OnlyTaken<T>(edges: set<(T, T)>, managed: set<T>, minimized: set<T>, w: T, x: T)
    requires w !in minimized && x in Reach(edges, AfterMinimize(edges, managed, minimized, w), w)
    requires forall r, m :: r in Reach(edges, managed - minimized, w) && m in minimized ==> (r, m) !in edges
    ensures x in Reach(edges, managed - minimized, w)
  {
    var open := managed - minimized;
    var taken := Reach(edges, open, w);
    var after := AfterMinimize(edges, managed, minimized, w);
    var p :| Path(edges, after, p) && p[0] == w && p[|p| - 1] == x;
    PathStays(edges, after, taken, p);
  }
}
