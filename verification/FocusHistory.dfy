/** The record of the windows that had the focus on a viewport, the latest first. */
module FocusHistory {
  import opened Sequences
  import opened Windows

  const ACTIVE_WINDOW_HISTORY_SIZE: nat := 64

  /** The distinct windows of a row of focus events, the one focused last at the front. */
  function Recent(events: seq<Window>): (r: seq<Window>)
    ensures forall x :: x in r <==> x in events
  {
    if events == [] then []
    else
      var n := |events| - 1;
      assert events == events[..n] + [events[n]];
      RemoveRest(Recent(events[..n]), events[n]);
      [events[n]] + Remove(Recent(events[..n]), events[n])
  }

  lemma {:induction false} RemoveRest(s: seq<Window>, x: Window)
    ensures forall y :: y in s && y != x ==> y in Remove(s, x)
  {
    if s != [] {
      RemoveRest(s[1..], x);
    }
  }

  /** The index of the last event of a window. */
  function LastFocus(events: seq<Window>, x: Window): (k: nat)
    requires x in events
    ensures k < |events| && events[k] == x && forall i :: k < i < |events| ==> events[i] != x
  {
    var n := |events| - 1;
    if events[n] == x then n
    else
      assert events == events[..n] + [events[n]];
      LastFocus(events[..n], x)
  }

  lemma {:induction false} RecentDistinct(events: seq<Window>)
    ensures Distinct(Recent(events))
  {
    if events != [] {
      var n := |events| - 1;
      RecentDistinct(events[..n]);
      RemoveDistinct(Recent(events[..n]), events[n]);
    }
  }

  lemma {:induction false} RemoveKeepsOrder(s: seq<Window>, z: Window, x: Window, y: Window)
    requires x in s && y in s && x != z && y != z
    ensures x in Remove(s, z) && y in Remove(s, z)
    ensures IndexOf(Remove(s, z), x) < IndexOf(Remove(s, z), y) <==> IndexOf(s, x) < IndexOf(s, y)
  {
    RemoveRest(s, z);
    if s[0] != z && s[0] != x && s[0] != y {
      RemoveKeepsOrder(s[1..], z, x, y);
    }
    if s[0] == z {
      assert IndexOf(s, x) == IndexOf(s[1..], x) + 1 && IndexOf(s, y) == IndexOf(s[1..], y) + 1;
    } else {
      assert Remove(s, z) == [s[0]] + Remove(s[1..], z);
      assert Remove(s, z)[1..] == Remove(s[1..], z);
    }
  }

  /** A window comes before another exactly when it had the focus later. */
  lemma {:induction false} RecentOrder(events: seq<Window>, x: Window, y: Window)
    requires x in events && y in events && x != y
    ensures IndexOf(Recent(events), x) < IndexOf(Recent(events), y) <==> LastFocus(events, y) < LastFocus(events, x)
  {
    var n := |events| - 1;
    var z, before := events[n], events[..n];
    assert events == before + [z];
    var r := Remove(Recent(before), z);
    assert Recent(events) == [z] + r && Recent(events)[1..] == r;
    if x != z && y != z {
      RecentOrder(before, x, y);
      RemoveKeepsOrder(Recent(before), z, x, y);
    }
  }

  /** The first `n` elements of a list, with zeros behind them where it is shorter. */
  function Shown(list: seq<Window>, n: nat): (s: seq<Window>)
    ensures |s| == n
  {
    if n == 0 then [] else if list == [] then [NONE] + Shown([], n - 1) else [list[0]] + Shown(list[1..], n - 1)
  }

  lemma {:induction false} ShownAt(list: seq<Window>, n: nat, i: nat)
    requires i < n
    ensures Shown(list, n)[i] == if i < |list| then list[i] else NONE
  {
    if i > 0 {
      ShownAt(if list == [] then [] else list[1..], n - 1, i - 1);
    }
  }

  /** What the walk leaves that moves the entries on, the first of them `next`, until it finds an old
      entry of `id` or an empty one. */
  function Moved(s: seq<Window>, next: Window, id: Window): seq<Window> {
    if s == [] then []
    else [next] + if s[0] == id || s[0] == NONE then s[1..] else Moved(s[1..], s[0], id)
  }

  lemma {:induction false} MovedShown(list: seq<Window>, n: nat, next: Window, id: Window)
    requires NONE !in list
    ensures Moved(Shown(list, n), next, id) == Shown([next] + Remove(list, id), n)
  {
    if n > 0 {
      var s := Shown(list, n);
      if list == [] {
        assert s[1..] == Shown([], n - 1);
      } else {
        assert s[1..] == Shown(list[1..], n - 1);
        if list[0] != id {
          MovedShown(list[1..], n - 1, list[0], id);
          assert Remove(list, id) == [list[0]] + Remove(list[1..], id);
        }
      }
      assert ([next] + Remove(list, id))[1..] == Remove(list, id);
    }
  }

  class History {
    var id: array<Window>

    /** All focus events so far. */
    ghost var events: seq<Window>

    constructor ()
      ensures Valid() && events == [] && fresh(id)
    {
      id := new Window[ACTIVE_WINDOW_HISTORY_SIZE](_ => NONE);
      events := [];
      new;
      forall i | 0 <= i < id.Length
        ensures id[i] == Shown([], id.Length)[i]
      {
        ShownAt([], id.Length, i);
      }
      assert id[..] == Shown([], id.Length);
    }

    /** The entries are the windows that had the focus last, the latest first. */
    ghost predicate Valid()
      reads this, id
    {
      id.Length == ACTIVE_WINDOW_HISTORY_SIZE && NONE !in events && id[..] == Shown(Recent(events), id.Length)
    }

    method AddToCurrentActiveWindowHistory(window: Window)
      requires Valid() && window != NONE
      modifies this`events, id
      ensures Valid() && events == old(events) + [window] && id == old(id)
    {
      ghost var s := id[..];
      Walk(window);
      MovedShown(Recent(events), id.Length, window, window);
      events := events + [window];
      assert events[..|events| - 1] == old(events);
    }

    method Walk(window: Window)
      modifies id
      ensures id[..] == Moved(old(id[..]), window, window)
    {
      hide Moved;
      ghost var s, done: seq<Window> := id[..], [];
      var next := window;
      var i := 0;
      while i < id.Length
        invariant 0 <= i == |done| <= id.Length == |s|
        invariant forall j :: 0 <= j < i ==> id[j] == done[j]
        invariant forall j :: i <= j < |s| ==> id[j] == s[j]
        invariant Moved(s, window, window) == done + Moved(s[i..], next, window)
      {
        var tmp := id[i];
        MovedOne(s, i, next, window, done);
        id[i] := next;
        done := done + [next];
        if tmp == window || tmp == NONE {
          Joined(id[..], done, s);
          return;
        }
        next := tmp;
        i := i + 1;
      }
      MovedNone(s[i..], next, window);
      Joined(id[..], done, s);
    }

    /** Which of two windows was active later: positive for the first, negative for the second. Where the
        record tells nothing, the numbers of their last activations decide. A window that is on record
        compares as later than itself. */
    method CompareWindowActiveness(w1: Window, w2: Window, activeNum1: nat, activeNum2: nat) returns (r: int)
      requires Valid() && w1 != NONE && w2 != NONE
      ensures w1 != w2 && (w1 in id[..] || w2 in id[..]) ==>
                (r > 0 <==> w1 in events && (w2 in events ==> LastFocus(events, w2) < LastFocus(events, w1))) && r != 0
      ensures w1 == w2 && w1 in id[..] ==> r > 0
      ensures w1 !in id[..] && w2 !in id[..] ==> r == activeNum1 - activeNum2
    {
      var i := 0;
      while i < ACTIVE_WINDOW_HISTORY_SIZE
        invariant 0 <= i <= id.Length && forall j :: 0 <= j < i ==> id[j] != w1 && id[j] != w2 && id[j] != NONE
      {
        if id[i] == w1 {
          if w1 != w2 {
            FoundFirst(events, id.Length, i, w1, w2);
          }
          return 1;
        }
        if id[i] == w2 {
          FoundFirst(events, id.Length, i, w2, w1);
          return -1;
        }
        if id[i] == NONE {
          EmptyFrom(Recent(events), id.Length, i);
          break;
        }
        i := i + 1;
      }
      return activeNum1 - activeNum2;
    }
  }

  lemma MovedOne(s: seq<Window>, i: nat, next: Window, id: Window, done: seq<Window>)
    requires i < |s|
    ensures done + Moved(s[i..], next, id) == done + [next] + MovedBehind(s, i, id)
  {
    MovedFront(s, i, next, id);
    Reassociate(done, [next], MovedBehind(s, i, id));
  }

  /** What the walk leaves behind the entry that it has just written at `i`. */
  function MovedBehind(s: seq<Window>, i: nat, id: Window): seq<Window>
    requires i < |s|
  {
    if s[i] == id || s[i] == NONE then s[i + 1..] else Moved(s[i + 1..], s[i], id)
  }

  lemma MovedFront(s: seq<Window>, i: nat, next: Window, id: Window)
    requires i < |s|
    ensures Moved(s[i..], next, id) == [next] + MovedBehind(s, i, id)
  {
    assert s[i..][1..] == s[i + 1..];
  }

  lemma Reassociate(a: seq<Window>, b: seq<Window>, c: seq<Window>)
    ensures a + (b + c) == a + b + c
  {
  }

  lemma Joined(a: seq<Window>, done: seq<Window>, s: seq<Window>)
    requires |done| <= |s| == |a|
    requires forall j :: 0 <= j < |done| ==> a[j] == done[j]
    requires forall j :: |done| <= j < |s| ==> a[j] == s[j]
    ensures a == done + s[|done|..]
  {
  }

  lemma MovedNone(s: seq<Window>, next: Window, id: Window)
    requires s == []
    ensures Moved(s, next, id) == []
  {
  }

  /** A window that is found in the record before another has had the focus, and later than the other. */
  lemma FoundFirst(events: seq<Window>, n: nat, i: nat, x: Window, y: Window)
    requires NONE !in events && x != NONE && x != y && i < n && Shown(Recent(events), n)[i] == x
    requires forall j :: 0 <= j < i ==> Shown(Recent(events), n)[j] != y
    ensures x in events && (y in events ==> LastFocus(events, y) < LastFocus(events, x))
  {
    hide Shown, Recent, LastFocus, IndexOf;
    var r := Recent(events);
    ShownAt(r, n, i);
    assert r[i] == x;
    if y in events {
      AtIndex(events, i, x);
      NotBefore(r, n, i, y);
      RecentOrder(events, x, y);
    }
  }

  lemma AtIndex(events: seq<Window>, i: nat, x: Window)
    requires i < |Recent(events)| && Recent(events)[i] == x
    ensures IndexOf(Recent(events), x) == i
  {
    hide Recent;
    RecentDistinct(events);
  }

  lemma NotBefore(r: seq<Window>, n: nat, i: nat, y: Window)
    requires y in r && i < n && i < |r| && r[i] != y && forall j :: 0 <= j < i ==> Shown(r, n)[j] != y
    ensures i < IndexOf(r, y)
  {
    hide Shown;
    forall k | 0 <= k < i
      ensures r[k] != y
    {
      ShownAt(r, n, k);
    }
  }

  lemma EmptyFrom(list: seq<Window>, n: nat, i: nat)
    requires NONE !in list && i < n && Shown(list, n)[i] == NONE
    ensures forall j :: i <= j < n ==> Shown(list, n)[j] == NONE
  {
    ShownAt(list, n, i);
    forall j | i <= j < n
      ensures Shown(list, n)[j] == NONE
    {
      ShownAt(list, n, j);
    }
  }
}
