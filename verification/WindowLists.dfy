/** The two stacking lists, the index over them and the windows that wait to be deleted. */
module WindowLists {
  import opened Sequences
  import opened Windows

  /** Whether `sibling` names this window in the given list: by its id or by the frame that the
      list goes by. */
  predicate Named(w: CompWindow, server: bool, sibling: Window)
    reads w`id, w`frame, w`props
  {
    Names(w.id, if server then w.props.serverFrame else w.frame, sibling)
  }

  /** Where a window that asks to be above `aboveId` goes: at the bottom when no id is given or
      there is no window, just above the first window named so, and nowhere (-1) otherwise. */
  function InsertionPoint(list: seq<CompWindow>, server: bool, aboveId: Window): (k: int)
    reads list`id, list`frame, list`props
    ensures -1 <= k <= |list|
  {
    if aboveId == NONE || list == [] then 0
    else
      var k := FirstNamed(list, server, aboveId);
      if k < 0 then k else k + 1
  }

  /** A list with a window put in, or left out for want of a place. */
  function Inserted(list: seq<CompWindow>, k: int, w: CompWindow): seq<CompWindow>
    requires -1 <= k <= |list|
  {
    if k < 0 then list else InsertAt(list, k, w)
  }

  /** A list with a window taken out and put back where it asks to be. */
  function Moved(list: seq<CompWindow>, server: bool, w: CompWindow, aboveId: Window): seq<CompWindow>
    reads list`id, list`frame, list`props
  {
    var rest := Remove(list, w);
    assert forall i :: 0 <= i < |rest| ==> rest[i] in list;
    Inserted(rest, InsertionPoint(rest, server, aboveId), w)
  }

  function FirstNamed(list: seq<CompWindow>, server: bool, sibling: Window): (k: int)
    reads list`id, list`frame, list`props
    ensures -1 <= k < |list|
    ensures k == -1 ==> forall i :: 0 <= i < |list| ==> !Named(list[i], server, sibling)
    ensures k != -1 ==> Named(list[k], server, sibling)
    ensures forall i :: 0 <= i < k ==> !Named(list[i], server, sibling)
  {
    if list == [] then -1
    else if Named(list[0], server, sibling) then 0
    else
      var k := FirstNamed(list[1..], server, sibling);
      if k < 0 then k else k + 1
  }

  /** The walk of an insertion up the list in search of the window named `aboveId`. */
  method FindPlace(list: seq<CompWindow>, server: bool, aboveId: Window) returns (k: int)
    ensures k == InsertionPoint(list, server, aboveId)
  {
    if aboveId == NONE || list == [] {
      return 0;
    }
    var it := 0;
    while it < |list| && !Named(list[it], server, aboveId)
      invariant 0 <= it <= |list|
      invariant forall i :: 0 <= i < it ==> !Named(list[i], server, aboveId)
    {
      it := it + 1;
    }
    k := if it < |list| then it + 1 else -1;
  }

  /** The map holds exactly the listed windows, each under its own id, which is neither 0 nor 1. */
  ghost predicate IndexedBy(listed: set<CompWindow>, index: map<Window, CompWindow>)
    reads listed`id
  {
    && (forall w :: w in listed ==> w.id > 1 && w.id in index && index[w.id] == w)
    && (forall id :: id in index ==> index[id] in listed && index[id].id == id)
  }

  /** A window has lost its id just when it is destroyed; of the destroyed ones, some only wait for
      their deletion. */
  ghost predicate Staged(alive: set<CompWindow>, kept: set<CompWindow>, pending: set<CompWindow>)
    reads alive`id, alive`destroyed, kept`id, kept`destroyed
  {
    && (forall w :: w in alive ==> w.id != NONE && !w.destroyed)
    && (forall d :: d in kept ==> d.id == NONE && (d.destroyed <==> d in pending))
    && pending <= kept
  }

  lemma StagedWithout(alive: set<CompWindow>, kept: set<CompWindow>, pending: set<CompWindow>, w: CompWindow)
    requires Staged(alive, kept, pending)
    ensures Staged(alive - {w}, kept - {w}, pending - {w})
  {
  }

  lemma IndexInsert(listed: set<CompWindow>, index: map<Window, CompWindow>, w: CompWindow)
    requires IndexedBy(listed, index) && w.id > 1 && w.id !in index
    ensures IndexedBy(listed + {w}, index[w.id := w])
  {
  }

  /** Once a window is out of the map, its id is free. */
  lemma IdFree(listed: set<CompWindow>, index: map<Window, CompWindow>, w: CompWindow, after: map<Window, CompWindow>)
    requires IndexedBy(listed, index) && IndexedBy(listed - {w}, after)
    requires w in listed || (w.id > 1 && w.id !in index)
    ensures w.id > 1 && w.id !in after
  {
  }

  lemma IndexRemove(listed: set<CompWindow>, index: map<Window, CompWindow>, w: CompWindow)
    requires IndexedBy(listed, index) && w in listed
    ensures IndexedBy(listed - {w}, index - {w.id})
  {
  }

  /** A link that the destroyed window `d` may hold: to nothing, to a window that is still alive, or
      to one destroyed after `d` and not yet deleted. */
  ghost predicate Leads(alive: set<CompWindow>, stamp: map<CompWindow, nat>, d: CompWindow, x: CompWindow?) {
    x == null || x in alive || (x in stamp && d in stamp && stamp[d] < stamp[x])
  }

  /** A link to `w` still leads on once `w` is destroyed, after every other. */
  lemma LeadsLater(alive: set<CompWindow>, stamp: map<CompWindow, nat>, clock: nat,
                   w: CompWindow, d: CompWindow, x: CompWindow?)
    requires Leads(alive + {w}, stamp, d, x) && d in stamp && stamp[d] < clock && w !in stamp
    ensures Leads(alive, stamp[w := clock], d, x)
  {
  }

  /** A link that skips a window which goes away still leads on. */
  lemma LeadsPast(alive: set<CompWindow>, stamp: map<CompWindow, nat>,
                  d: CompWindow, x: CompWindow?, w: CompWindow, beyond: CompWindow?)
    requires alive !! stamp.Keys && d in stamp && d != w && Leads(alive, stamp, d, x)
    requires if w in alive then beyond == null || beyond in alive - {w} else w in stamp && Leads(alive, stamp, w, beyond)
    ensures Leads(alive - {w}, stamp - {w}, d, Past(x, w, beyond))
  {
  }

  lemma LeadsAlive(alive: set<CompWindow>, stamp: map<CompWindow, nat>, d: CompWindow)
    ensures forall x :: x == null || x in alive ==> Leads(alive, stamp, d, x)
  {
  }

  /** Whether a window that is moved stays in the list. */
  lemma StaysListed(list: seq<CompWindow>, w: CompWindow, aboveId: Window)
    requires Distinct(list) && (aboveId == NONE || Remove(list, w) != [])
    ensures w in Moved(list, false, w, aboveId) <==>
              aboveId == NONE || exists x :: x in list && x != w && Named(x, false, aboveId)
  {
    RemoveDistinct(list, w);
    var rest := Remove(list, w);
    var k := InsertionPoint(rest, false, aboveId);
    if k >= 0 {
      assert InsertAt(rest, k, w)[k] == w;
    }
  }

  lemma TakenOut<T>(s: seq<T>, k: nat)
    requires Distinct(s) && k < |s|
    ensures Elements(s[..k] + s[k + 1..]) == Elements(s) - {s[k]}
    ensures s[k] in Elements(s) && (k > 0 ==> s[k - 1] in Elements(s)) && (k + 1 < |s| ==> s[k + 1] in Elements(s))
  {
    RemoveAt(s, k);
    ElementsRemove(s, s[k]);
  }

  lemma NotIn<T>(s: seq<T>, x: T)
    requires x !in Elements(s)
    ensures x !in s
  {
  }

  class WindowManager {
    var windows: seq<CompWindow>
    var serverWindows: seq<CompWindow>
    var windowsMap: map<Window, CompWindow>
    var lastFoundWindow: CompWindow?

    var destroyedWindows: seq<CompWindow>
    var pendingDestroys: int

    /** The windows created and not yet destroyed, those that are destroyed and only wait for their
        deletion, and the deleted ones. */
    ghost var alive: set<CompWindow>
    ghost var pending: set<CompWindow>
    ghost var deleted: set<CompWindow>

    /** For each window destroyed and not yet deleted, how many were destroyed before it. */
    ghost var stamp: map<CompWindow, nat>
    ghost var clock: nat

    constructor ()
      ensures windows == [] && serverWindows == [] && windowsMap == map[] && alive == {} && Valid()
    {
      windows, serverWindows, windowsMap, lastFoundWindow := [], [], map[], null;
      destroyedWindows, pendingDestroys := [], 0;
      alive, pending, deleted, stamp, clock := {}, {}, {}, map[], 0;
    }

    /** The links of the listed windows spell out the list, in both directions; those of the others lead
        nowhere. */
    ghost predicate Linked()
      reads this`windows, this`alive, alive`prev, alive`next
    {
      && (forall i :: 0 <= i < |windows| ==> windows[i] in alive)
      && Distinct(windows)
      && (|windows| > 0 ==> windows[0].prev == null && windows[|windows| - 1].next == null)
      && (forall i {:trigger windows[i].next} :: 0 <= i < |windows| - 1 ==> windows[i].next == windows[i + 1])
      && (forall i {:trigger windows[i].prev} :: 1 <= i < |windows| ==> windows[i].prev == windows[i - 1])
      && Unlinked()
    }

    /** The windows that are not listed have no neighbours. */
    ghost predicate Unlinked()
      reads this`windows, this`alive, alive`prev, alive`next
    {
      forall w :: w in alive - Elements(windows) ==> w.prev == null && w.next == null
    }

    ghost predicate ServerUnlinked()
      reads this`serverWindows, this`alive, alive`serverPrev, alive`serverNext
    {
      forall w :: w in alive - Elements(serverWindows) ==> w.serverPrev == null && w.serverNext == null
    }

    ghost predicate ServerLinked()
      reads this`serverWindows, this`alive, alive`serverPrev, alive`serverNext
    {
      && (forall i :: 0 <= i < |serverWindows| ==> serverWindows[i] in alive)
      && Distinct(serverWindows)
      && (|serverWindows| > 0 ==>
            serverWindows[0].serverPrev == null && serverWindows[|serverWindows| - 1].serverNext == null)
      && (forall i {:trigger serverWindows[i].serverNext} :: 0 <= i < |serverWindows| - 1 ==>
           serverWindows[i].serverNext == serverWindows[i + 1])
      && (forall i {:trigger serverWindows[i].serverPrev} :: 1 <= i < |serverWindows| ==>
           serverWindows[i].serverPrev == serverWindows[i - 1])
      && ServerUnlinked()
    }

    ghost predicate Indexed()
      reads this`windows, this`windowsMap, this`lastFoundWindow, Elements(windows)`id
    {
      IndexedBy(Elements(windows), windowsMap) && (lastFoundWindow == null || lastFoundWindow in Elements(windows))
    }

    /** The windows that can be found. */
    ghost function Known(): set<CompWindow>
      reads this`windows
    {
      Elements(windows)
    }

    method FindWindow(id: Window) returns (w: CompWindow?)
      requires Indexed()
      modifies this`lastFoundWindow
      ensures Indexed()
      ensures w == null <==> forall x :: x in windows ==> x.id != id
      ensures w != null ==> w in windows && w.id == id
    {
      if lastFoundWindow != null && lastFoundWindow.id == id {
        return lastFoundWindow;
      } else if id in windowsMap {
        lastFoundWindow := windowsMap[id];
        return lastFoundWindow;
      }
      return null;
    }

    method InsertWindow(w: CompWindow, aboveId: Window)
      requires Linked() && w in alive && w !in windows
      requires Indexed() && w.id > 1 && w.id !in windowsMap
      modifies this`windows, this`windowsMap, alive`prev, alive`next
      ensures Linked() && Indexed()
      ensures var k := old(InsertionPoint(windows, false, aboveId));
              if k < 0 then windows == old(windows) && w.prev == null && w.next == null
              else windows == InsertAt(old(windows), k, w)
    {
      hide Linked;
      ghost var before := windows;
      var k := ListWindow(w, aboveId);
      if k >= 0 {
        ElementsInsert(before, k, w);
        IndexInsert(Elements(before), windowsMap, w);
        windowsMap := windowsMap[w.id := w];
      }
    }

    /** The part of an insertion that concerns the list and its links. */
    method ListWindow(w: CompWindow, aboveId: Window) returns (k: int)
      requires Linked() && w in alive && w !in windows
      modifies this`windows, alive`prev, alive`next
      ensures Linked()
      ensures k == old(InsertionPoint(windows, false, aboveId))
      ensures if k < 0 then windows == old(windows) && w.prev == null && w.next == null
              else windows == InsertAt(old(windows), k, w)
    {
      hide Linked;
      k := FindPlace(windows, false, aboveId);
      ClearLinks(w);
      if k == 0 {
        LinkBottom(w);
      } else if k > 0 {
        LinkAbove(w, k - 1);
      }
    }

    method ClearLinks(w: CompWindow)
      requires Linked() && w !in windows
      modifies w`prev, w`next
      ensures Linked() && w.prev == null && w.next == null
    {
      w.prev, w.next := null, null;
    }

    method LinkBottom(w: CompWindow)
      requires Linked() && w in alive && w !in windows && w.prev == null && w.next == null
      modifies this`windows, alive`prev, alive`next
      ensures Linked()
      ensures windows == InsertAt(old(windows), 0, w)
    {
      ElementsInsert(windows, 0, w);
      if windows != [] {
        windows[0].prev := w;
        w.next := windows[0];
      }
      windows := InsertAt(windows, 0, w);
    }

    method LinkAbove(w: CompWindow, it: nat)
      requires Linked() && w in alive && w !in windows && it < |windows|
      modifies this`windows, alive`prev, alive`next
      ensures Linked()
      ensures windows == InsertAt(old(windows), it + 1, w)
    {
      hide Linked;
      ghost var s := windows;
      Splice(w, it);
      windows := InsertAt(windows, it + 1, w);
      Spliced(s, w, it);
    }

    lemma Spliced(s: seq<CompWindow>, w: CompWindow, it: nat)
      requires Distinct(s) && (forall i :: 0 <= i < |s| ==> s[i] in alive) && w in alive && w !in s && it < |s|
      requires windows == InsertAt(s, it + 1, w)
      requires forall x :: x in alive - Elements(s) - {w} ==> x.prev == null && x.next == null
      requires w.prev == s[it] && s[it].next == w
      requires if it + 1 < |s| then w.next == s[it + 1] && s[it + 1].prev == w else w.next == null
      requires forall i {:trigger s[i].next} :: 0 <= i < |s| - 1 && i != it ==> s[i].next == s[i + 1]
      requires forall i {:trigger s[i].prev} :: 1 <= i < |s| && i != it + 1 ==> s[i].prev == s[i - 1]
      requires s[0].prev == null && (it + 1 < |s| ==> s[|s| - 1].next == null)
      ensures Linked()
    {
      hide InsertAt, Distinct, Unlinked;
      DistinctInsert(s, it + 1, w);
      ElementsInsert(s, it + 1, w);
      SplicedEnds(s, w, it);
      forall i | 0 <= i < |windows| - 1
        ensures windows[i].next == windows[i + 1] && windows[i + 1].prev == windows[i]
      {
        SplicedAt(s, w, it, i);
      }
    }

    lemma SplicedEnds(s: seq<CompWindow>, w: CompWindow, it: nat)
      requires (forall i :: 0 <= i < |s| ==> s[i] in alive) && w in alive && it < |s|
      requires windows == InsertAt(s, it + 1, w) && Elements(windows) == Elements(s) + {w}
      requires forall x :: x in alive - Elements(s) - {w} ==> x.prev == null && x.next == null
      requires s[0].prev == null && if it + 1 < |s| then s[|s| - 1].next == null else w.next == null
      ensures |windows| == |s| + 1 && Unlinked() && forall i :: 0 <= i < |windows| ==> windows[i] in alive
      ensures |windows| > 0 && windows[0].prev == null && windows[|windows| - 1].next == null
    {
      hide Elements;
      InsertedAt(s, it + 1, w, 0);
      InsertedAt(s, it + 1, w, |s|);
      forall i | 0 <= i < |windows|
        ensures windows[i] in alive
      {
        InsertedAt(s, it + 1, w, i);
      }
    }

    lemma SplicedAt(s: seq<CompWindow>, w: CompWindow, it: nat, i: nat)
      requires it < |s| && windows == InsertAt(s, it + 1, w) && i < |s| && |windows| == |s| + 1
      requires w.prev == s[it] && s[it].next == w
      requires if it + 1 < |s| then w.next == s[it + 1] && s[it + 1].prev == w else w.next == null
      requires forall i {:trigger s[i].next} :: 0 <= i < |s| - 1 && i != it ==> s[i].next == s[i + 1]
      requires forall i {:trigger s[i].prev} :: 1 <= i < |s| && i != it + 1 ==> s[i].prev == s[i - 1]
      ensures windows[i].next == windows[i + 1] && windows[i + 1].prev == windows[i]
    {
      hide InsertAt;
      InsertedAt(s, it + 1, w, i);
      InsertedAt(s, it + 1, w, i + 1);
    }

    /** The four link updates that put a window above the one at `it`. */
    method Splice(w: CompWindow, it: nat)
      requires Linked() && w in alive && w !in windows && it < |windows|
      modifies alive`prev, alive`next
      ensures Distinct(windows) && forall i :: 0 <= i < |windows| ==> windows[i] in alive
      ensures forall x :: x in alive - Elements(windows) - {w} ==> x.prev == null && x.next == null
      ensures w.prev == windows[it] && windows[it].next == w
      ensures if it + 1 < |windows| then w.next == windows[it + 1] && windows[it + 1].prev == w else w.next == null
      ensures windows[0].prev == null && (it + 1 < |windows| ==> windows[|windows| - 1].next == null)
      ensures forall i {:trigger windows[i].next} :: 0 <= i < |windows| - 1 && i != it ==>
                windows[i].next == windows[i + 1]
      ensures forall i {:trigger windows[i].prev} :: 1 <= i < |windows| && i != it + 1 ==>
                windows[i].prev == windows[i - 1]
    {
      var below := windows[it];
      assert it + 1 < |windows| ==> below.next == windows[it + 1];
      w.next := below.next;
      w.prev := below;
      below.next := w;
      if w.next != null {
        w.next.prev := w;
      }
    }

    method UnhookWindow(w: CompWindow)
      requires Linked() && Indexed()
      modifies this`windows, this`windowsMap, this`lastFoundWindow, alive`prev, alive`next
      ensures Linked() && Indexed()
      ensures windows == Remove(old(windows), w) && Elements(windows) == old(Elements(windows)) - {w}
      ensures w in old(windows) ==> w.prev == null && w.next == null
    {
      hide Linked, IndexedBy;
      ghost var before := windows;
      var it := 0;
      while it < |windows| && windows[it] != w
        invariant 0 <= it <= |windows|
        invariant forall i :: 0 <= i < it ==> windows[i] != w
      {
        it := it + 1;
      }
      if it == |windows| {
        return;
      }
      UnlinkWindow(w, it);
      RemoveAt(before, it);
      ElementsRemove(before, w);
      IndexRemove(Elements(before), windowsMap, w);
      windowsMap := windowsMap - {w.id};
      if w == lastFoundWindow {
        lastFoundWindow := null;
      }
    }

    /** The end of a removal of the window at `it`: the list, the neighbours, the window itself. */
    method UnlinkWindow(w: CompWindow, it: nat)
      requires Linked() && it < |windows| && windows[it] == w
      modifies this`windows, alive`prev, alive`next
      ensures Linked()
      ensures Distinct(old(windows)) && windows == old(windows)[..it] + old(windows)[it + 1..]
      ensures w.prev == null && w.next == null
    {
      hide Elements, Unlinked;
      ghost var off, was := alive - Elements(windows), windows;
      UnlinkedBefore();
      TakenOut(windows, it);
      ListedNot(it);
      assert it + 1 < |windows| ==> w.next == windows[it + 1];
      assert it > 0 ==> w.prev == windows[it - 1];
      windows := windows[..it] + windows[it + 1..];
      if w.next != null {
        w.next.prev := w.prev;
      }
      if w.prev != null {
        w.prev.next := w.next;
      }
      w.next, w.prev := null, null;
      UnlinkedAfter(off, w);
      LinkedWithout(was, it);
    }

    /** The list closes up over the place of a window taken out. */
    lemma LinkedWithout(s: seq<CompWindow>, it: nat)
      requires it < |s| && Distinct(s) && (forall i :: 0 <= i < |s| ==> s[i] in alive)
      requires windows == s[..it] + s[it + 1..] && Unlinked()
      requires if it == 0 then |s| > 1 ==> s[1].prev == null else s[0].prev == null
      requires if it + 1 == |s| then it > 0 ==> s[it - 1].next == null else s[|s| - 1].next == null
      requires 0 < it < |s| - 1 ==> s[it - 1].next == s[it + 1] && s[it + 1].prev == s[it - 1]
      requires forall i {:trigger s[i].next} :: 0 <= i < |s| - 1 && i != it - 1 && i != it ==> s[i].next == s[i + 1]
      requires forall i {:trigger s[i].prev} :: 1 <= i < |s| && i != it && i != it + 1 ==> s[i].prev == s[i - 1]
      ensures Linked()
    {
    }

    lemma UnlinkedBefore()
      requires Unlinked()
      ensures forall x :: x in alive - Elements(windows) ==> x.prev == null && x.next == null
    {
    }

    lemma ListedNot(it: nat)
      requires it < |windows|
      ensures windows[it] !in alive - Elements(windows)
      ensures it > 0 ==> windows[it - 1] !in alive - Elements(windows)
      ensures it + 1 < |windows| ==> windows[it + 1] !in alive - Elements(windows)
    {
    }

    lemma UnlinkedAfter(off: set<CompWindow>, w: CompWindow)
      requires forall x :: x in off ==> x.prev == null && x.next == null
      requires w.prev == null && w.next == null && alive - Elements(windows) <= off + {w}
      ensures Unlinked()
    {
    }

    method InsertServerWindow(w: CompWindow, aboveId: Window)
      requires ServerLinked() && w in alive && w !in serverWindows
      modifies this`serverWindows, alive`serverPrev, alive`serverNext
      ensures ServerLinked()
      ensures var k := old(InsertionPoint(serverWindows, true, aboveId));
              if k < 0 then serverWindows == old(serverWindows) && w.serverPrev == null && w.serverNext == null
              else serverWindows == InsertAt(old(serverWindows), k, w)
    {
      hide ServerLinked;
      var k := FindPlace(serverWindows, true, aboveId);
      ClearServerLinks(w);
      if k < 0 {
        return;
      }
      if k == 0 {
        LinkServerBottom(w);
      } else {
        LinkServerAbove(w, k - 1);
      }
    }

    method ClearServerLinks(w: CompWindow)
      requires ServerLinked() && w !in serverWindows
      modifies w`serverPrev, w`serverNext
      ensures ServerLinked() && w.serverPrev == null && w.serverNext == null
    {
      w.serverPrev, w.serverNext := null, null;
    }

    method LinkServerBottom(w: CompWindow)
      requires ServerLinked() && w in alive && w !in serverWindows && w.serverPrev == null && w.serverNext == null
      modifies this`serverWindows, alive`serverPrev, alive`serverNext
      ensures ServerLinked()
      ensures serverWindows == InsertAt(old(serverWindows), 0, w)
    {
      ElementsInsert(serverWindows, 0, w);
      if serverWindows != [] {
        serverWindows[0].serverPrev := w;
        w.serverNext := serverWindows[0];
      }
      serverWindows := InsertAt(serverWindows, 0, w);
    }

    method LinkServerAbove(w: CompWindow, it: nat)
      requires ServerLinked() && w in alive && w !in serverWindows && it < |serverWindows|
      modifies this`serverWindows, alive`serverPrev, alive`serverNext
      ensures ServerLinked()
      ensures serverWindows == InsertAt(old(serverWindows), it + 1, w)
    {
      hide ServerLinked;
      ghost var s := serverWindows;
      SpliceServer(w, it);
      serverWindows := InsertAt(serverWindows, it + 1, w);
      SplicedServer(s, w, it);
    }

    lemma SplicedServer(s: seq<CompWindow>, w: CompWindow, it: nat)
      requires Distinct(s) && (forall i :: 0 <= i < |s| ==> s[i] in alive) && w in alive && w !in s && it < |s|
      requires serverWindows == InsertAt(s, it + 1, w)
      requires forall x :: x in alive - Elements(s) - {w} ==> x.serverPrev == null && x.serverNext == null
      requires w.serverPrev == s[it] && s[it].serverNext == w
      requires if it + 1 < |s| then w.serverNext == s[it + 1] && s[it + 1].serverPrev == w else w.serverNext == null
      requires forall i {:trigger s[i].serverNext} :: 0 <= i < |s| - 1 && i != it ==> s[i].serverNext == s[i + 1]
      requires forall i {:trigger s[i].serverPrev} :: 1 <= i < |s| && i != it + 1 ==> s[i].serverPrev == s[i - 1]
      requires s[0].serverPrev == null && (it + 1 < |s| ==> s[|s| - 1].serverNext == null)
      ensures ServerLinked()
    {
      hide InsertAt, Distinct, ServerUnlinked;
      DistinctInsert(s, it + 1, w);
      ElementsInsert(s, it + 1, w);
      SplicedEndsServer(s, w, it);
      forall i | 0 <= i < |serverWindows| - 1
        ensures serverWindows[i].serverNext == serverWindows[i + 1] && serverWindows[i + 1].serverPrev == serverWindows[i]
      {
        SplicedAtServer(s, w, it, i);
      }
    }

    lemma SplicedEndsServer(s: seq<CompWindow>, w: CompWindow, it: nat)
      requires (forall i :: 0 <= i < |s| ==> s[i] in alive) && w in alive && it < |s|
      requires serverWindows == InsertAt(s, it + 1, w) && Elements(serverWindows) == Elements(s) + {w}
      requires forall x :: x in alive - Elements(s) - {w} ==> x.serverPrev == null && x.serverNext == null
      requires s[0].serverPrev == null && if it + 1 < |s| then s[|s| - 1].serverNext == null else w.serverNext == null
      ensures |serverWindows| == |s| + 1 && ServerUnlinked()
      ensures forall i :: 0 <= i < |serverWindows| ==> serverWindows[i] in alive
      ensures |serverWindows| > 0 && serverWindows[0].serverPrev == null
      ensures serverWindows[|serverWindows| - 1].serverNext == null
    {
      hide Elements;
      InsertedAt(s, it + 1, w, 0);
      InsertedAt(s, it + 1, w, |s|);
      forall i | 0 <= i < |serverWindows|
        ensures serverWindows[i] in alive
      {
        InsertedAt(s, it + 1, w, i);
      }
    }

    lemma SplicedAtServer(s: seq<CompWindow>, w: CompWindow, it: nat, i: nat)
      requires it < |s| && serverWindows == InsertAt(s, it + 1, w) && i < |s| && |serverWindows| == |s| + 1
      requires w.serverPrev == s[it] && s[it].serverNext == w
      requires if it + 1 < |s| then w.serverNext == s[it + 1] && s[it + 1].serverPrev == w else w.serverNext == null
      requires forall i {:trigger s[i].serverNext} :: 0 <= i < |s| - 1 && i != it ==> s[i].serverNext == s[i + 1]
      requires forall i {:trigger s[i].serverPrev} :: 1 <= i < |s| && i != it + 1 ==> s[i].serverPrev == s[i - 1]
      ensures serverWindows[i].serverNext == serverWindows[i + 1] && serverWindows[i + 1].serverPrev == serverWindows[i]
    {
      hide InsertAt;
      InsertedAt(s, it + 1, w, i);
      InsertedAt(s, it + 1, w, i + 1);
    }

    /** The four link updates that put a window above the one at `it`. */
    method SpliceServer(w: CompWindow, it: nat)
      requires ServerLinked() && w in alive && w !in serverWindows && it < |serverWindows|
      modifies alive`serverPrev, alive`serverNext
      ensures Distinct(serverWindows) && forall i :: 0 <= i < |serverWindows| ==> serverWindows[i] in alive
      ensures forall x :: x in alive - Elements(serverWindows) - {w} ==> x.serverPrev == null && x.serverNext == null
      ensures w.serverPrev == serverWindows[it] && serverWindows[it].serverNext == w
      ensures if it + 1 < |serverWindows|
              then w.serverNext == serverWindows[it + 1] && serverWindows[it + 1].serverPrev == w
              else w.serverNext == null
      ensures serverWindows[0].serverPrev == null && (it + 1 < |serverWindows| ==>
                serverWindows[|serverWindows| - 1].serverNext == null)
      ensures forall i {:trigger serverWindows[i].serverNext} :: 0 <= i < |serverWindows| - 1 && i != it ==>
                serverWindows[i].serverNext == serverWindows[i + 1]
      ensures forall i {:trigger serverWindows[i].serverPrev} :: 1 <= i < |serverWindows| && i != it + 1 ==>
                serverWindows[i].serverPrev == serverWindows[i - 1]
    {
      var below := serverWindows[it];
      assert it + 1 < |serverWindows| ==> below.serverNext == serverWindows[it + 1];
      w.serverNext := below.serverNext;
      w.serverPrev := below;
      below.serverNext := w;
      if w.serverNext != null {
        w.serverNext.serverPrev := w;
      }
    }

    method UnhookServerWindow(w: CompWindow)
      requires ServerLinked()
      modifies this`serverWindows, alive`serverPrev, alive`serverNext
      ensures ServerLinked()
      ensures serverWindows == Remove(old(serverWindows), w) && Elements(serverWindows) == old(Elements(serverWindows)) - {w}
      ensures w in old(serverWindows) ==> w.serverPrev == null && w.serverNext == null
    {
      hide ServerLinked;
      ghost var before := serverWindows;
      var it := 0;
      while it < |serverWindows| && serverWindows[it] != w
        invariant 0 <= it <= |serverWindows|
        invariant forall i :: 0 <= i < it ==> serverWindows[i] != w
      {
        it := it + 1;
      }
      if it == |serverWindows| {
        return;
      }
      UnlinkServerWindow(w, it);
      RemoveAt(before, it);
      ElementsRemove(before, w);
    }

    /** The end of a removal of the window at `it`: the list, the neighbours, the window itself. */
    method UnlinkServerWindow(w: CompWindow, it: nat)
      requires ServerLinked() && it < |serverWindows| && serverWindows[it] == w
      modifies this`serverWindows, alive`serverPrev, alive`serverNext
      ensures ServerLinked()
      ensures Distinct(old(serverWindows)) && serverWindows == old(serverWindows)[..it] + old(serverWindows)[it + 1..]
      ensures w.serverPrev == null && w.serverNext == null
    {
      hide Elements, ServerUnlinked;
      ghost var off, was := alive - Elements(serverWindows), serverWindows;
      ServerUnlinkedBefore();
      TakenOut(serverWindows, it);
      ListedNotServer(it);
      assert it + 1 < |serverWindows| ==> w.serverNext == serverWindows[it + 1];
      assert it > 0 ==> w.serverPrev == serverWindows[it - 1];
      serverWindows := serverWindows[..it] + serverWindows[it + 1..];
      if w.serverNext != null {
        w.serverNext.serverPrev := w.serverPrev;
      }
      if w.serverPrev != null {
        w.serverPrev.serverNext := w.serverNext;
      }
      w.serverNext, w.serverPrev := null, null;
      ServerUnlinkedAfter(off, w);
      ServerLinkedWithout(was, it);
    }

    lemma ServerLinkedWithout(s: seq<CompWindow>, it: nat)
      requires it < |s| && Distinct(s) && (forall i :: 0 <= i < |s| ==> s[i] in alive)
      requires serverWindows == s[..it] + s[it + 1..] && ServerUnlinked()
      requires if it == 0 then |s| > 1 ==> s[1].serverPrev == null else s[0].serverPrev == null
      requires if it + 1 == |s| then it > 0 ==> s[it - 1].serverNext == null else s[|s| - 1].serverNext == null
      requires 0 < it < |s| - 1 ==> s[it - 1].serverNext == s[it + 1] && s[it + 1].serverPrev == s[it - 1]
      requires forall i {:trigger s[i].serverNext} :: 0 <= i < |s| - 1 && i != it - 1 && i != it ==>
                 s[i].serverNext == s[i + 1]
      requires forall i {:trigger s[i].serverPrev} :: 1 <= i < |s| && i != it && i != it + 1 ==>
                 s[i].serverPrev == s[i - 1]
      ensures ServerLinked()
    {
    }

    lemma ServerUnlinkedBefore()
      requires ServerUnlinked()
      ensures forall x :: x in alive - Elements(serverWindows) ==> x.serverPrev == null && x.serverNext == null
    {
    }

    lemma ListedNotServer(it: nat)
      requires it < |serverWindows|
      ensures serverWindows[it] !in alive - Elements(serverWindows)
      ensures it > 0 ==> serverWindows[it - 1] !in alive - Elements(serverWindows)
      ensures it + 1 < |serverWindows| ==> serverWindows[it + 1] !in alive - Elements(serverWindows)
    {
    }

    lemma ServerUnlinkedAfter(off: set<CompWindow>, w: CompWindow)
      requires forall x :: x in off ==> x.serverPrev == null && x.serverNext == null
      requires w.serverPrev == null && w.serverNext == null && alive - Elements(serverWindows) <= off + {w}
      ensures ServerUnlinked()
    {
    }

    /** The destroyed windows that are not yet deleted are those on the list kept for them. */
    ghost predicate Roster()
      reads this`destroyedWindows, this`stamp
    {
      Distinct(destroyedWindows) && Elements(destroyedWindows) == stamp.Keys
    }

    /** No window is in two stages of its life, and the links of a destroyed window lead on. */
    ghost predicate LinksLead(alive: set<CompWindow>)
      reads this`deleted, this`stamp, this`clock
      reads stamp.Keys`prev, stamp.Keys`next, stamp.Keys`serverPrev, stamp.Keys`serverNext
    {
      && alive !! stamp.Keys && (alive + stamp.Keys) !! deleted
      && (forall d :: d in stamp ==> stamp[d] < clock)
      && (forall d :: d in stamp ==> Leads(alive, stamp, d, d.prev) && Leads(alive, stamp, d, d.next))
      && (forall d :: d in stamp ==> Leads(alive, stamp, d, d.serverPrev) && Leads(alive, stamp, d, d.serverNext))
    }

    /** Both lists are in order and hold only windows that are alive. A window that is alive may be missing
        from either: an insertion above a window that is not listed leaves it out. */
    ghost predicate Listed()
      reads this`windows, this`serverWindows, this`windowsMap, this`lastFoundWindow, this`alive
      reads alive`prev, alive`next, alive`serverPrev, alive`serverNext, alive`id
    {
      Linked() && ServerLinked() && Indexed()
    }

    ghost predicate Consistent()
      reads this, alive, stamp.Keys
    {
      Listed() && Roster() && LinksLead(alive) && Staged(alive, stamp.Keys, pending)
    }

    /** What holds between any two events: besides, the counter counts the windows to delete. */
    ghost predicate Valid()
      reads this, alive, stamp.Keys
    {
      Consistent() && pendingDestroys == |pending|
    }

    /** A window appears in each list above the window it is said to be above, and stays out of a list in
        which that window is not found. */
    method CreateCompWindow(id: Window, aboveId: Window, aboveServerId: Window) returns (w: CompWindow)
      requires Valid() && id > 1 && id !in windowsMap
      modifies this`windows, this`serverWindows, this`windowsMap, this`alive
      modifies alive`prev, alive`next, alive`serverPrev, alive`serverNext
      ensures Valid() && fresh(w) && w.id == id && w.frame == NONE && w.props == NO_PROPS
      ensures windows == Inserted(old(windows), old(InsertionPoint(windows, false, aboveId)), w)
      ensures serverWindows
              == Inserted(old(serverWindows), old(InsertionPoint(serverWindows, true, aboveServerId)), w)
      ensures alive == old(alive) + {w} && stamp == old(stamp)
    {
      hide Listed, LinksLead, Staged, Roster, InsertionPoint, InsertAt;
      w := new CompWindow(id);
      Enroll(w, aboveId, aboveServerId);
    }

    method Enroll(w: CompWindow, aboveId: Window, aboveServerId: Window)
      requires Valid() && w !in alive && w !in stamp && w !in deleted
      requires w.id > 1 && w.id !in windowsMap && !w.destroyed
      requires w.prev == null && w.next == null && w.serverPrev == null && w.serverNext == null
      modifies this`windows, this`serverWindows, this`windowsMap, this`alive
      modifies alive`prev, alive`next, alive`serverPrev, alive`serverNext
      modifies w`prev, w`next, w`serverPrev, w`serverNext
      ensures Valid() && alive == old(alive) + {w}
      ensures windows == Inserted(old(windows), old(InsertionPoint(windows, false, aboveId)), w)
      ensures serverWindows
              == Inserted(old(serverWindows), old(InsertionPoint(serverWindows, true, aboveServerId)), w)
    {
      hide Linked, ServerLinked, IndexedBy, LinksLead, Staged, Roster, InsertionPoint, InsertAt, Elements;
      ListedAlive();
      Admit(w);
      Apart();
      Enlist(w, aboveId, aboveServerId);
    }

    lemma ListedAlive()
      requires Linked() && ServerLinked()
      ensures Elements(windows) <= alive && Elements(serverWindows) <= alive
    {
    }

    method Enlist(w: CompWindow, aboveId: Window, aboveServerId: Window)
      requires Linked() && ServerLinked() && Indexed() && w in alive
      requires w !in Elements(windows) && w !in Elements(serverWindows) && w.id > 1 && w.id !in windowsMap
      modifies this`windows, this`serverWindows, this`windowsMap
      modifies alive`prev, alive`next, alive`serverPrev, alive`serverNext
      ensures Linked() && ServerLinked() && Indexed()
      ensures windows == Inserted(old(windows), old(InsertionPoint(windows, false, aboveId)), w)
      ensures serverWindows
              == Inserted(old(serverWindows), old(InsertionPoint(serverWindows, true, aboveServerId)), w)
    {
      hide Linked, ServerLinked, IndexedBy, InsertionPoint, InsertAt;
      InsertWindow(w, aboveId);
      InsertServerWindow(w, aboveServerId);
    }

    ghost method Admit(w: CompWindow)
      requires Linked() && ServerLinked() && Indexed()
      requires LinksLead(alive) && Staged(alive, stamp.Keys, pending)
      requires w !in alive && w !in stamp && w !in deleted && w.id != NONE && !w.destroyed
      requires w.prev == null && w.next == null && w.serverPrev == null && w.serverNext == null
      modifies this`alive
      ensures Linked() && ServerLinked() && Indexed()
      ensures LinksLead(alive) && Staged(alive, stamp.Keys, pending) && alive == old(alive) + {w}
    {
      alive := alive + {w};
    }

    /** The window with this id, or else the first one whose frame on the server has it. */
    method FindTopLevelWindow(id: Window) returns (w: CompWindow?)
      requires Indexed()
      modifies this`lastFoundWindow
      ensures Indexed()
      ensures w == null <==> forall x :: x in windows ==> x.id != id && x.props.serverFrame != id
      ensures w != null ==> w in windows && (w.id == id || w.props.serverFrame == id)
    {
      w := FindWindow(id);
      if w != null {
        return;
      }
      var i := 0;
      while i < |windows|
        invariant 0 <= i <= |windows|
        invariant forall j :: 0 <= j < i ==> windows[j].props.serverFrame != id
      {
        if windows[i].props.serverFrame == id {
          return windows[i];
        }
        i := i + 1;
      }
    }

    /** Whether a notification that `w` is now above `aboveId` is acted on: not when it names the window itself
        or the one below it, nor when it names none that is listed. */
    ghost predicate Restacks(w: CompWindow, aboveId: Window)
      reads this`windows, w, w.prev, windows`id, windows`props
    {
      && (aboveId != NONE ==> aboveId != w.id && aboveId != w.props.serverFrame)
      && (if w.prev != null then aboveId != NONE ==> aboveId != w.prev.id && aboveId != w.prev.frame
          else aboveId != NONE || w.next != null)
      && (aboveId != NONE ==> exists x :: x in windows && (x.id == aboveId || x.props.serverFrame == aboveId))
    }

    method ActsOn(w: CompWindow, aboveId: Window) returns (acts: bool)
      requires Indexed()
      modifies this`lastFoundWindow
      ensures Indexed() && acts == Restacks(w, aboveId)
    {
      if aboveId != NONE && (aboveId == w.id || aboveId == w.props.serverFrame) {
        return false;
      } else if w.prev != null {
        if aboveId != NONE && (aboveId == w.prev.id || aboveId == w.prev.frame) {
          return false;
        }
      } else if aboveId == NONE && w.next == null {
        return false;
      }
      if aboveId != NONE {
        var above := FindTopLevelWindow(aboveId);
        if above == null {
          return false;
        }
      }
      return true;
    }

    /** The server has put `w` above another window. The window is found by its id or by its frame on the server,
        but the place in the list by id or frame, so that a window can get lost from the list; it stays listed
        just when another one goes by that id there. */
    method Restack(w: CompWindow, aboveId: Window) returns (restacked: bool)
      requires Valid() && w in alive && (w in windows || (w.id > 1 && w.id !in windowsMap))
      modifies this`windows, this`serverWindows, this`windowsMap, this`lastFoundWindow
      modifies alive`prev, alive`next, alive`serverPrev, alive`serverNext
      ensures Valid()
      ensures restacked == old(Restacks(w, aboveId))
      ensures windows == if restacked then old(Moved(windows, false, w, aboveId)) else old(windows)
      ensures serverWindows == if restacked && w.props.overrideRedirect then old(Moved(serverWindows, true, w, aboveId))
                               else old(serverWindows)
      ensures restacked ==>
                (w in windows <==> aboveId == NONE || exists x :: x in old(windows) && x != w && Named(x, false, aboveId))
    {
      hide Listed, Roster, LinksLead, Staged, Restacks, Moved, Elements;
      Apart();
      restacked := RestackLists(w, aboveId);
    }

    /** The part of a restack that concerns the lists. */
    method RestackLists(w: CompWindow, aboveId: Window) returns (restacked: bool)
      requires Listed() && w in alive && (w in windows || (w.id > 1 && w.id !in windowsMap))
      modifies this`windows, this`serverWindows, this`windowsMap, this`lastFoundWindow
      modifies alive`prev, alive`next, alive`serverPrev, alive`serverNext
      ensures Listed()
      ensures restacked == old(Restacks(w, aboveId))
      ensures windows == if restacked then old(Moved(windows, false, w, aboveId)) else old(windows)
      ensures serverWindows == if restacked && w.props.overrideRedirect then old(Moved(serverWindows, true, w, aboveId))
                               else old(serverWindows)
      ensures restacked ==>
                (w in windows <==> aboveId == NONE || exists x :: x in old(windows) && x != w && Named(x, false, aboveId))
    {
      hide Linked, ServerLinked, IndexedBy, Restacks, Moved;
      restacked := ActsOn(w, aboveId);
      if restacked {
        NamesAnother(w, aboveId);
        StaysListed(windows, w, aboveId);
        Rehook(w, aboveId);
        if w.props.overrideRedirect {
          RehookServer(w, aboveId);
        }
      }
    }

    lemma NamesAnother(w: CompWindow, aboveId: Window)
      requires Restacks(w, aboveId) && Linked()
      ensures Distinct(windows) && (aboveId == NONE || Remove(windows, w) != [])
    {
      RemoveDistinct(windows, w);
      if aboveId != NONE {
        var x :| x in windows && (x.id == aboveId || x.props.serverFrame == aboveId);
        assert x in Remove(windows, w);
      }
    }

    method Rehook(w: CompWindow, aboveId: Window)
      requires Linked() && Indexed() && w in alive && (w in windows || (w.id > 1 && w.id !in windowsMap))
      modifies this`windows, this`windowsMap, this`lastFoundWindow, alive`prev, alive`next
      ensures Linked() && Indexed() && windows == old(Moved(windows, false, w, aboveId))
    {
      hide Linked, IndexedBy, InsertionPoint;
      ghost var listed, index := Elements(windows), windowsMap;
      ghost var k := InsertionPoint(Remove(windows, w), false, aboveId);
      UnhookWindow(w);
      IdFree(listed, index, w, windowsMap);
      assert InsertionPoint(windows, false, aboveId) == k;
      InsertWindow(w, aboveId);
      assert windows == Inserted(old(Remove(windows, w)), k, w);
    }

    method RehookServer(w: CompWindow, aboveId: Window)
      requires ServerLinked() && w in alive
      modifies this`serverWindows, alive`serverPrev, alive`serverNext
      ensures ServerLinked() && serverWindows == old(Moved(serverWindows, true, w, aboveId))
    {
      hide ServerLinked, InsertionPoint;
      ghost var k := InsertionPoint(Remove(serverWindows, w), true, aboveId);
      UnhookServerWindow(w);
      NotIn(serverWindows, w);
      assert InsertionPoint(serverWindows, true, aboveId) == k;
      InsertServerWindow(w, aboveId);
    }

    /** The window is taken out of both lists at once, but keeps the links it had, so that plugins
        can tell where it was. */
    method Destroy(w: CompWindow)
      requires Valid() && (w in alive || w in stamp)
      modifies this, alive, w
      ensures Valid()
      ensures if old(w.id) != NONE
              then windows == Remove(old(windows), w) && serverWindows == Remove(old(serverWindows), w)
                   && destroyedWindows == old(destroyedWindows) + [w]
              else windows == old(windows) && serverWindows == old(serverWindows)
                   && destroyedWindows == old(destroyedWindows)
      ensures w.id == NONE && w.next == old(w.next) && w.prev == old(w.prev)
      ensures w.serverNext == old(w.serverNext) && w.serverPrev == old(w.serverPrev)
      ensures w.destroyRefCnt == old(w.destroyRefCnt) - 1
      ensures w.destroyed <==> old(w.destroyed) || w.destroyRefCnt == 0
    {
      hide Listed, Roster, LinksLead;
      if w.id != NONE {
        Retire(w);
      }
      Release(w);
    }

    method Release(w: CompWindow)
      requires Valid() && w in stamp
      modifies this`pendingDestroys, this`pending, w`destroyRefCnt, w`destroyed
      ensures Valid()
      ensures w.destroyRefCnt == old(w.destroyRefCnt) - 1
      ensures w.destroyed <==> old(w.destroyed) || w.destroyRefCnt == 0
    {
      hide Listed, Roster, LinksLead;
      w.destroyRefCnt := w.destroyRefCnt - 1;
      if w.destroyRefCnt == 0 && !w.destroyed {
        w.destroyed := true;
        pendingDestroys := pendingDestroys + 1;
        pending := pending + {w};
      }
    }

    /** The part of a destruction that is done once: the window leaves both lists, but keeps its links. */
    method Retire(w: CompWindow)
      requires Valid() && w in alive
      modifies this`windows, this`serverWindows, this`windowsMap, this`lastFoundWindow
      modifies this`destroyedWindows, this`alive, this`stamp, this`clock
      modifies alive`prev, alive`next, alive`serverPrev, alive`serverNext
      modifies w`id, w`frame, w`props
      ensures Valid() && w in stamp
      ensures windows == Remove(old(windows), w) && serverWindows == Remove(old(serverWindows), w)
      ensures destroyedWindows == old(destroyedWindows) + [w]
      ensures w.id == NONE && w.next == old(w.next) && w.prev == old(w.prev)
      ensures w.serverNext == old(w.serverNext) && w.serverPrev == old(w.serverPrev)
    {
      hide Listed, Roster, LinksLead, Staged;
      Neighbours(w);
      Apart();
      var oldServerNext, oldServerPrev, oldNext, oldPrev := w.serverNext, w.serverPrev, w.next, w.prev;
      LeaveLists(w);
      assert alive + {w} == old(alive);
      Restore(w, oldNext, oldPrev, oldServerNext, oldServerPrev);
      Keep(w);
    }

    /** The window gets back the links that it had in the lists. */
    method Restore(w: CompWindow, oldNext: CompWindow?, oldPrev: CompWindow?, oldServerNext: CompWindow?,
                   oldServerPrev: CompWindow?)
      requires Listed() && w !in alive && LinksLead(alive + {w})
      modifies w`next, w`prev, w`serverNext, w`serverPrev
      ensures Listed() && LinksLead(alive + {w})
      ensures w.next == oldNext && w.prev == oldPrev && w.serverNext == oldServerNext && w.serverPrev == oldServerPrev
    {
      assert w !in stamp;
      w.next, w.prev, w.serverNext, w.serverPrev := oldNext, oldPrev, oldServerNext, oldServerPrev;
    }

    lemma Apart()
      requires LinksLead(alive)
      ensures alive !! stamp.Keys
    {
    }

    /** The window joins the destroyed ones, after all of them. */
    method Keep(w: CompWindow)
      requires Listed() && w !in alive
      requires Roster() && LinksLead(alive + {w}) && Staged(alive + {w}, stamp.Keys, pending) && w !in stamp
      requires w.prev == null || w.prev in alive
      requires w.next == null || w.next in alive
      requires w.serverPrev == null || w.serverPrev in alive
      requires w.serverNext == null || w.serverNext in alive
      modifies this`destroyedWindows, this`stamp, this`clock
      modifies w`id, w`frame, w`props
      ensures Listed() && Roster() && LinksLead(alive) && Staged(alive, stamp.Keys, pending)
      ensures stamp == old(stamp)[w := old(clock)] && w.id == NONE
      ensures destroyedWindows == old(destroyedWindows) + [w]
    {
      hide Listed, LinksLead, Distinct, Elements;
      NotIn(destroyedWindows, w);
      Append(destroyedWindows, w);
      destroyedWindows := destroyedWindows + [w];
      w.id, w.frame := NONE, NONE;
      w.props := w.props.(serverFrame := NONE, managed := false, mapNum := 0);
      Stamp(w);
    }

    ghost method Stamp(w: CompWindow)
      requires w !in alive && LinksLead(alive + {w}) && w !in stamp
      requires w.prev == null || w.prev in alive
      requires w.next == null || w.next in alive
      requires w.serverPrev == null || w.serverPrev in alive
      requires w.serverNext == null || w.serverNext in alive
      modifies this`stamp, this`clock
      ensures LinksLead(alive) && stamp == old(stamp)[w := old(clock)]
    {
      hide Leads;
      forall d, x | d in stamp && Leads(alive + {w}, stamp, d, x)
        ensures Leads(alive, stamp[w := clock], d, x)
      {
        LeadsLater(alive, stamp, clock, w, d, x);
      }
      LeadsAlive(alive, stamp[w := clock], w);
      stamp, clock := stamp[w := clock], clock + 1;
    }

    method LeaveLists(w: CompWindow)
      requires Listed()
      modifies this`windows, this`serverWindows, this`windowsMap, this`lastFoundWindow, this`alive
      modifies alive`prev, alive`next, alive`serverPrev, alive`serverNext
      ensures Listed() && alive == old(alive) - {w}
      ensures windows == Remove(old(windows), w) && serverWindows == Remove(old(serverWindows), w)
    {
      hide Linked, ServerLinked, IndexedBy;
      UnhookWindow(w);
      UnhookServerWindow(w);
      Discard(w);
    }

    /** The neighbours of a window are other listed windows. */
    lemma Neighbours(w: CompWindow)
      requires Listed() && w in alive
      ensures w.next == null || w.next in alive - {w}
      ensures w.prev == null || w.prev in alive - {w}
      ensures w.serverNext == null || w.serverNext in alive - {w}
      ensures w.serverPrev == null || w.serverPrev in alive - {w}
    {
      if w in Elements(windows) {
        var i :| 0 <= i < |windows| && windows[i] == w;
      }
      if w in Elements(serverWindows) {
        var j :| 0 <= j < |serverWindows| && serverWindows[j] == w;
      }
    }

    ghost method Discard(w: CompWindow)
      requires Linked() && ServerLinked() && Indexed() && w !in Elements(windows) && w !in Elements(serverWindows)
      modifies this`alive
      ensures Linked() && ServerLinked() && Indexed() && alive == old(alive) - {w}
    {
      alive := alive - {w};
    }

    /** The destroyed windows that link to `w` are made to link past it, and `w` is gone. */
    method Delete(w: CompWindow)
      requires Consistent() && (w in alive || w in stamp)
      modifies this, alive, stamp.Keys
      ensures Consistent()
      ensures alive == old(alive) - {w} && stamp == old(stamp) - {w}
      ensures pending == old(pending) - {w} && pendingDestroys == old(pendingDestroys)
      ensures windows == Remove(old(windows), w) && serverWindows == Remove(old(serverWindows), w)
      ensures w !in old(alive) ==> windows == old(windows) && serverWindows == old(serverWindows)
      ensures destroyedWindows == Remove(old(destroyedWindows), w)
      ensures deleted == old(deleted) + {w}
    {
      hide Listed, Roster, LinksLead, Staged;
      Apart();
      Stages(w);
      if w in alive {
        Neighbours(w);
      }
      assert w !in alive ==> alive - {w} == alive;
      Bypass(w);
      assert stamp.Keys !! alive;
      if !w.destroyed {
        LeaveLists(w);
      }
    }

    /** Where the links of a window lead at the moment it goes away. */
    lemma Stages(w: CompWindow)
      requires LinksLead(alive) && Staged(alive, stamp.Keys, pending) && Listed()
      ensures w in alive ==> !w.destroyed
      ensures w !in alive ==> w !in windows && w !in serverWindows
    {
    }

    /** The part of a deletion that concerns the destroyed windows. */
    method Bypass(w: CompWindow)
      requires Roster() && LinksLead(alive) && Staged(alive, stamp.Keys, pending)
      requires w in alive || w in stamp
      requires w in alive ==> w.next == null || w.next in alive - {w}
      requires w in alive ==> w.prev == null || w.prev in alive - {w}
      requires w in alive ==> w.serverNext == null || w.serverNext in alive - {w}
      requires w in alive ==> w.serverPrev == null || w.serverPrev in alive - {w}
      modifies this`destroyedWindows, this`stamp, this`deleted, this`pending
      modifies stamp.Keys`next, stamp.Keys`prev, stamp.Keys`serverNext, stamp.Keys`serverPrev
      ensures Roster() && LinksLead(alive - {w}) && Staged(alive - {w}, stamp.Keys, pending)
      ensures destroyedWindows == Remove(old(destroyedWindows), w)
      ensures stamp == old(stamp) - {w} && pending == old(pending) - {w} && deleted == old(deleted) + {w}
    {
      hide Leads, Distinct, Elements, Staged, Remove;
      StagedWithout(alive, stamp.Keys, pending, w);
      StrikeOff(w);
      LinkPast(w, stamp.Keys - {w});
      assert (stamp - {w}).Keys == stamp.Keys - {w};
      forall d | d in stamp && d != w
        ensures Leads(alive - {w}, stamp - {w}, d, d.next) && Leads(alive - {w}, stamp - {w}, d, d.prev)
        ensures Leads(alive - {w}, stamp - {w}, d, d.serverNext) && Leads(alive - {w}, stamp - {w}, d, d.serverPrev)
      {
        LeadsPast(alive, stamp, d, old(d.next), w, w.next);
        LeadsPast(alive, stamp, d, old(d.prev), w, w.prev);
        LeadsPast(alive, stamp, d, old(d.serverNext), w, w.serverNext);
        LeadsPast(alive, stamp, d, old(d.serverPrev), w, w.serverPrev);
      }
      Drop(w);
    }

    ghost method Drop(w: CompWindow)
      requires alive !! stamp.Keys && (alive + stamp.Keys) !! deleted && (w in alive || w in stamp)
      requires forall d :: d in stamp ==> stamp[d] < clock
      requires forall d :: d in stamp && d != w ==>
                 Leads(alive - {w}, stamp - {w}, d, d.next) && Leads(alive - {w}, stamp - {w}, d, d.prev)
      requires forall d :: d in stamp && d != w ==>
                 Leads(alive - {w}, stamp - {w}, d, d.serverNext) && Leads(alive - {w}, stamp - {w}, d, d.serverPrev)
      modifies this`stamp, this`deleted, this`pending
      ensures stamp == old(stamp) - {w} && pending == old(pending) - {w} && deleted == old(deleted) + {w}
      ensures LinksLead(alive - {w})
    {
      hide Leads;
      stamp, deleted, pending := stamp - {w}, deleted + {w}, pending - {w};
    }

    /** The destroyed windows that wait for their deletion are all deleted, and only they. */
    method RemoveDestroyed()
      requires Valid()
      modifies this, alive, stamp.Keys
      ensures Valid() && pendingDestroys == 0
      ensures windows == old(windows) && serverWindows == old(serverWindows) && alive == old(alive)
      ensures stamp.Keys == old(stamp.Keys) - old(pending) && deleted == old(deleted) + old(pending)
    {
      hide Listed, LinksLead, Roster, Staged;
      while pendingDestroys != 0
        invariant Valid() && pendingDestroys >= 0
        invariant windows == old(windows) && serverWindows == old(serverWindows) && alive == old(alive)
        invariant pending <= old(pending) && stamp.Keys == old(stamp.Keys) - (old(pending) - pending)
        invariant deleted == old(deleted) + (old(pending) - pending)
        decreases pendingDestroys
      {
        var w := FirstDestroyed();
        Apart();
        DeleteNext(w);
      }
    }

    method DeleteNext(w: CompWindow)
      requires Valid() && w in pending && w in stamp && w !in alive
      modifies this, alive, stamp.Keys
      ensures Valid() && pendingDestroys == old(pendingDestroys) - 1
      ensures windows == old(windows) && serverWindows == old(serverWindows) && alive == old(alive)
      ensures stamp == old(stamp) - {w} && deleted == old(deleted) + {w} && pending == old(pending) - {w}
    {
      hide Listed, LinksLead, Roster, Staged;
      Delete(w);
      pendingDestroys := pendingDestroys - 1;
    }

    /** The walk over the destroyed windows for one that only waits for its deletion. */
    method FirstDestroyed() returns (w: CompWindow)
      requires Roster() && Staged(alive, stamp.Keys, pending) && |pending| > 0
      ensures w in pending && w in stamp
    {
      var i := 0;
      assert exists d :: d in pending && d in destroyedWindows by {
        var d :| d in pending;
        assert d in Elements(destroyedWindows);
      }
      while !destroyedWindows[i].destroyed
        invariant 0 <= i < |destroyedWindows|
        invariant exists d :: d in pending && d in destroyedWindows[i..]
        decreases |destroyedWindows| - i
      {
        assert destroyedWindows[i..] == [destroyedWindows[i]] + destroyedWindows[i + 1..];
        i := i + 1;
      }
      w := destroyedWindows[i];
    }

    method StrikeOff(w: CompWindow)
      requires Distinct(destroyedWindows)
      modifies this`destroyedWindows
      ensures destroyedWindows == Remove(old(destroyedWindows), w) && Distinct(destroyedWindows)
      ensures Elements(destroyedWindows) == Elements(old(destroyedWindows)) - {w}
    {
      RemoveDistinct(destroyedWindows, w);
      ElementsRemove(destroyedWindows, w);
      destroyedWindows := Remove(destroyedWindows, w);
    }

    method LinkPast(w: CompWindow, ghost others: set<CompWindow>)
      requires Distinct(destroyedWindows) && Elements(destroyedWindows) == others && w !in others
      modifies others`next, others`prev, others`serverNext, others`serverPrev
      ensures forall d :: d in others ==>
                && d.next == Past(old(d.next), w, w.next)
                && d.prev == Past(old(d.prev), w, w.prev)
                && d.serverNext == Past(old(d.serverNext), w, w.serverNext)
                && d.serverPrev == Past(old(d.serverPrev), w, w.serverPrev)
    {
      ghost var done: set<CompWindow> := {};
      for i := 0 to |destroyedWindows|
        invariant done == Elements(destroyedWindows[..i])
        invariant forall d :: d in done ==>
                    && d.next == Past(old(d.next), w, w.next)
                    && d.prev == Past(old(d.prev), w, w.prev)
                    && d.serverNext == Past(old(d.serverNext), w, w.serverNext)
                    && d.serverPrev == Past(old(d.serverPrev), w, w.serverPrev)
        invariant forall d :: d in others && d !in done ==>
                    && d.next == old(d.next) && d.prev == old(d.prev)
                    && d.serverNext == old(d.serverNext) && d.serverPrev == old(d.serverPrev)
      {
        var dw := destroyedWindows[i];
        assert dw in Elements(destroyedWindows);
        assert destroyedWindows[..i + 1] == destroyedWindows[..i] + [dw];
        LinkOnePast(dw, w);
        done := done + {dw};
      }
      assert destroyedWindows[..|destroyedWindows|] == destroyedWindows;
    }
  }

  method LinkOnePast(dw: CompWindow, w: CompWindow)
    requires dw != w
    modifies dw`next, dw`prev, dw`serverNext, dw`serverPrev
    ensures dw.next == Past(old(dw.next), w, w.next) && dw.prev == Past(old(dw.prev), w, w.prev)
    ensures dw.serverNext == Past(old(dw.serverNext), w, w.serverNext)
    ensures dw.serverPrev == Past(old(dw.serverPrev), w, w.serverPrev)
  {
    if dw.next == w {
      dw.next := w.next;
    }
    if dw.prev == w {
      dw.prev := w.prev;
    }
    if dw.serverNext == w {
      dw.serverNext := w.serverNext;
    }
    if dw.serverPrev == w {
      dw.serverPrev := w.serverPrev;
    }
  }

  /** What becomes of a link when `w` goes away. */
  function Past(x: CompWindow?, w: CompWindow, beyond: CompWindow?): CompWindow? {
    if x == w then beyond else x
  }

  /** A run in which a window that was listed gets lost: the other one has a frame on the server that the list
      does not go by yet, and is named by it. */
  method RestackCanLoseAWindow() returns (wm: WindowManager, w: CompWindow, ghost before: seq<CompWindow>)
    ensures wm.Valid() && w in wm.alive && w in before && w !in wm.windows
  {
    hide WindowManager.Consistent, WindowManager.Listed;
    var other;
    wm, w, other := TwoWindows();
    GiveServerFrame(wm, other, 4);
    before := wm.windows;
    assert wm.Restacks(w, 4);
    var restacked := wm.Restack(w, 4);
  }

  method TwoWindows() returns (wm: WindowManager, w: CompWindow, other: CompWindow)
    ensures wm.Valid() && wm.windows == [w, other] && wm.alive == {w, other} && w != other
    ensures fresh(wm) && fresh(w) && fresh(other)
    ensures w.id == 2 && w.frame == NONE && w.props.serverFrame == NONE && w.prev == null && w.next != null
    ensures other.id == 3 && other.frame == NONE
  {
    hide WindowManager.Consistent, WindowManager.Listed;
    wm := new WindowManager();
    w := wm.CreateCompWindow(2, NONE, NONE);
    assert wm.windows == [w];
    IdNotTaken(wm, w, 3);
    other := wm.CreateCompWindow(3, 2, NONE);
    assert wm.windows == [w, other];
    BottomLinks(wm);
  }

  lemma IdNotTaken(wm: WindowManager, w: CompWindow, id: Window)
    requires wm.Valid() && wm.windows == [w] && w.id != id
    ensures id !in wm.windowsMap
  {
    forall x | x in Elements(wm.windows)
      ensures x == w
    {
    }
  }

  lemma BottomLinks(wm: WindowManager)
    requires wm.Valid() && |wm.windows| == 2
    ensures wm.windows[0].prev == null && wm.windows[0].next == wm.windows[1]
  {
  }

  method GiveServerFrame(wm: WindowManager, w: CompWindow, frame: Window)
    requires wm.Valid() && w in wm.alive
    modifies w`props
    ensures wm.Valid() && w.props == old(w.props).(serverFrame := frame)
  {
    hide Leads, Distinct;
    w.props := w.props.(serverFrame := frame);
  }
}
