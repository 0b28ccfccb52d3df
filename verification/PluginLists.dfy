/** The list of plugins that is asked for, and what becomes of it when some of them fail. */
module PluginLists {
  import opened Sequences

  const CORE := "core"

  /** What is asked for: the core, the plugins named at the start, and the others; but nothing that has
      failed before. */
  ghost function Merged(initial: seq<string>, blacklist: set<string>, extra: seq<string>): seq<string> {
    [CORE] + Without(initial, blacklist + {CORE}) + Without(extra, blacklist + {CORE} + Elements(initial))
  }

  /** The entries of a list that have been placed. */
  function Placed(s: seq<string>, placed: seq<bool>): seq<string>
    requires |placed| == |s|
  {
    if s == [] then []
    else (if placed[0] then [s[0]] else []) + Placed(s[1..], placed[1..])
  }

  /** The names of the entries that have not been placed. */
  ghost function Failed(s: seq<string>, placed: seq<bool>): set<string>
    requires |placed| == |s|
  {
    set i | 0 <= i < |s| && !placed[i] :: s[i]
  }

  lemma {:induction false} WithoutBoth(s: seq<string>, a: set<string>, b: set<string>)
    ensures Without(Without(s, a), b) == Without(s, a + b)
  {
    if s != [] {
      WithoutBoth(s[1..], a, b);
      if s[0] !in a {
        assert Without(s, a)[1..] == Without(s[1..], a);
      }
    }
  }

  lemma {:induction false} WithoutNone(s: seq<string>, drop: set<string>)
    requires forall x :: x in s ==> x !in drop
    ensures Without(s, drop) == s
  {
    if s != [] {
      WithoutNone(s[1..], drop);
    }
  }

  lemma {:induction false} WithoutAll(s: seq<string>, drop: set<string>)
    requires forall x :: x in s ==> x in drop
    ensures Without(s, drop) == []
  {
    if s != [] {
      WithoutAll(s[1..], drop);
    }
  }

  /** An entry has been placed whose name is asked for a second time. */
  ghost predicate PlacesRepeated(s: seq<string>, placed: seq<bool>)
    requires |placed| == |s|
  {
    exists i, j :: 0 <= i < |s| && 0 <= j < |s| && i != j && s[i] == s[j] && placed[i]
  }

  /** Where the placed entries are just those whose names are not in a set. */
  lemma {:induction false} PlacedIsWithout(s: seq<string>, placed: seq<bool>, failed: set<string>)
    requires |placed| == |s| && forall i :: 0 <= i < |s| ==> (placed[i] <==> s[i] !in failed)
    ensures Placed(s, placed) == Without(s, failed)
  {
    if s != [] {
      PlacedIsWithout(s[1..], placed[1..], failed);
    }
  }

  /** The placed entries are those whose names have not failed, unless a repeated one has been placed. */
  lemma PlacedIsWithoutFailed(s: seq<string>, placed: seq<bool>)
    requires |placed| == |s| && !PlacesRepeated(s, placed)
    ensures Placed(s, placed) == Without(s, Failed(s, placed))
  {
    PlacedIsWithout(s, placed, Failed(s, placed));
  }

  /** What has been placed is what is asked for the next time, whether the same is asked for again or what
      has been placed, if no name that is asked for twice has been placed. */
  lemma MergedAgain(initial: seq<string>, blacklist: set<string>, extra: seq<string>, placed: seq<bool>)
    requires |placed| == |Merged(initial, blacklist, extra)| && placed[0]
    requires !PlacesRepeated(Merged(initial, blacklist, extra), placed)
    ensures var desired := Merged(initial, blacklist, extra);
            var list, after := Placed(desired, placed), blacklist + Failed(desired, placed);
            Merged(initial, after, extra) == list && Merged(initial, after, list) == list
  {
    hide Merged;
    var desired := Merged(initial, blacklist, extra);
    var failed := Failed(desired, placed);
    PlacedIsWithoutFailed(desired, placed);
    CorePlaced(initial, blacklist, extra, placed);
    MergedWithout(initial, blacklist, extra, failed);
    MergedFed(initial, blacklist + failed, extra);
  }

  lemma CorePlaced(initial: seq<string>, blacklist: set<string>, extra: seq<string>, placed: seq<bool>)
    requires |placed| == |Merged(initial, blacklist, extra)| && placed[0]
    ensures CORE !in Failed(Merged(initial, blacklist, extra), placed)
  {
    var desired := Merged(initial, blacklist, extra);
    forall i | 0 <= i < |desired| && !placed[i]
      ensures desired[i] != CORE
    {
      OnlyFirstIsCore(initial, blacklist, extra, i);
    }
  }

  lemma MergedWithout(initial: seq<string>, blacklist: set<string>, extra: seq<string>, failed: set<string>)
    requires CORE !in failed
    ensures Without(Merged(initial, blacklist, extra), failed) == Merged(initial, blacklist + failed, extra)
  {
    hide Without;
    var a, b := Without(initial, blacklist + {CORE}), Without(extra, blacklist + {CORE} + Elements(initial));
    WithoutConcat([CORE] + a, b, failed);
    WithoutConcat([CORE], a, failed);
    WithoutNone([CORE], failed);
    WithoutBoth(initial, blacklist + {CORE}, failed);
    WithoutBoth(extra, blacklist + {CORE} + Elements(initial), failed);
    assert blacklist + {CORE} + failed == blacklist + failed + {CORE};
    assert blacklist + {CORE} + Elements(initial) + failed == blacklist + failed + {CORE} + Elements(initial);
  }

  lemma MergedFed(initial: seq<string>, blacklist: set<string>, extra: seq<string>)
    ensures Merged(initial, blacklist, Merged(initial, blacklist, extra)) == Merged(initial, blacklist, extra)
  {
    hide Without;
    var drop := blacklist + {CORE} + Elements(initial);
    var a, b := Without(initial, blacklist + {CORE}), Without(extra, drop);
    WithoutConcat([CORE] + a, b, drop);
    WithoutConcat([CORE], a, drop);
    WithoutAll([CORE], drop);
    WithoutAll(a, drop);
    WithoutNone(b, drop);
  }

  /** A name asked for twice is placed once at most, and so it has failed. */
  lemma DuplicateFails(s: seq<string>, placed: seq<bool>, i: nat, j: nat)
    requires |placed| == |s| && i < j < |s| && s[i] == s[j] && Distinct(Placed(s, placed))
    ensures !placed[i] || !placed[j]
    ensures s[i] in Failed(s, placed)
  {
    if placed[i] && placed[j] {
      PlacedTwice(s, placed, i, j);
    }
    assert !placed[i] ==> s[i] in Failed(s, placed);
  }

  /** A plugin that is asked for twice is not asked for the next time, even where it runs. */
  lemma DuplicateDropped(initial: seq<string>, blacklist: set<string>, extra: seq<string>, placed: seq<bool>, i: nat,
                         j: nat,
                         again: seq<string>)
    requires |placed| == |Merged(initial, blacklist, extra)| && i < j < |placed|
    requires Merged(initial, blacklist, extra)[i] == Merged(initial, blacklist, extra)[j]
    requires Distinct(Placed(Merged(initial, blacklist, extra), placed))
    ensures var desired := Merged(initial, blacklist, extra);
            desired[i] !in Merged(initial, blacklist + Failed(desired, placed), again)
  {
    hide Distinct, Placed, Failed, Merged, Without;
    var desired := Merged(initial, blacklist, extra);
    DuplicateFails(desired, placed, i, j);
    OnlyFirstIsCore(initial, blacklist, extra, j);
    BlacklistedNotMerged(initial, blacklist + Failed(desired, placed), again, desired[i]);
  }

  lemma OnlyFirstIsCore(initial: seq<string>, blacklist: set<string>, extra: seq<string>, j: nat)
    requires 0 < j < |Merged(initial, blacklist, extra)|
    ensures Merged(initial, blacklist, extra)[j] != CORE
  {
    var a, b := Without(initial, blacklist + {CORE}), Without(extra, blacklist + {CORE} + Elements(initial));
    assert [CORE] + a + b == [CORE] + (a + b);
    assert ([CORE] + (a + b))[j] == (a + b)[j - 1];
  }

  /** If it has been placed, it is listed now and will not be the next time. */
  lemma RepeatedDropped(initial: seq<string>, blacklist: set<string>, extra: seq<string>, placed: seq<bool>,
                        again: seq<string>)
    returns (name: string)
    requires |placed| == |Merged(initial, blacklist, extra)|
    requires PlacesRepeated(Merged(initial, blacklist, extra), placed)
    requires Distinct(Placed(Merged(initial, blacklist, extra), placed))
    ensures var desired := Merged(initial, blacklist, extra);
            name in Placed(desired, placed) && name !in Merged(initial, blacklist + Failed(desired, placed), again)
  {
    hide Distinct, Placed, Failed, Merged;
    var desired := Merged(initial, blacklist, extra);
    var i, j :| 0 <= i < |desired| && 0 <= j < |desired| && i != j && desired[i] == desired[j] && placed[i];
    name := desired[i];
    InPlaced(desired, placed, i);
    DuplicateDropped(initial, blacklist, extra, placed, if i < j then i else j, if i < j then j else i, again);
  }

  lemma {:induction false} PlacedFrom(s: seq<string>, placed: seq<bool>)
    requires |placed| == |s|
    ensures forall x :: x in Placed(s, placed) ==> x in s
  {
    if s != [] {
      PlacedFrom(s[1..], placed[1..]);
    }
  }

  lemma BlacklistedNotMerged(initial: seq<string>, blacklist: set<string>, extra: seq<string>, name: string)
    requires name in blacklist && name != CORE
    ensures name !in Merged(initial, blacklist, extra)
  {
  }

  lemma {:induction false} PlacedTwice(s: seq<string>, placed: seq<bool>, i: nat, j: nat)
    requires |placed| == |s| && i < j < |s| && s[i] == s[j] && placed[i] && placed[j]
    ensures !Distinct(Placed(s, placed))
  {
    hide Distinct;
    var r := Placed(s[1..], placed[1..]);
    if i == 0 {
      InPlaced(s[1..], placed[1..], j - 1);
      Repeated(s[0], r);
    } else {
      PlacedTwice(s[1..], placed[1..], i - 1, j - 1);
      assert [] + r == r;
      if placed[0] {
        Repeated(s[0], r);
      }
    }
  }

  lemma Repeated(x: string, r: seq<string>)
    requires x in r || !Distinct(r)
    ensures !Distinct([x] + r)
  {
    var s := [x] + r;
    if x in r {
      var k :| 0 <= k < |r| && r[k] == x;
      assert s[0] == s[k + 1];
    } else {
      var k, l :| 0 <= k < l < |r| && r[k] == r[l];
      assert s[k + 1] == s[l + 1];
    }
  }

  lemma {:induction false} InPlaced(s: seq<string>, placed: seq<bool>, j: nat)
    requires |placed| == |s| && j < |s| && placed[j]
    ensures s[j] in Placed(s, placed)
  {
    if j > 0 {
      InPlaced(s[1..], placed[1..], j - 1);
    }
  }

  lemma {:induction false} PlacedConcat(a: seq<string>, p: seq<bool>, b: seq<string>, q: seq<bool>)
    requires |p| == |a| && |q| == |b|
    ensures Placed(a + b, p + q) == Placed(a, p) + Placed(b, q)
  {
    if a == [] {
      assert a + b == b && p + q == q;
    } else {
      assert (a + b)[1..] == a[1..] + b && (p + q)[1..] == p[1..] + q;
      PlacedConcat(a[1..], p[1..], b, q);
    }
  }

  lemma {:induction false} AllPlaced(s: seq<string>, placed: seq<bool>)
    requires |placed| == |s| && forall i :: 0 <= i < |s| ==> placed[i]
    ensures Placed(s, placed) == s && Failed(s, placed) == {}
  {
    if s != [] {
      AllPlaced(s[1..], placed[1..]);
    }
  }

  /** One more entry of a list is dealt with. */
  lemma OneMore(s: seq<string>, i: nat, placed: seq<bool>, ok: bool)
    requires i < |s| && |placed| == i
    ensures Placed(s[..i + 1], placed + [ok]) == Placed(s[..i], placed) + if ok then [s[i]] else []
    ensures Failed(s[..i + 1], placed + [ok]) == Failed(s[..i], placed) + if ok then {} else {s[i]}
  {
    assert s[..i + 1] == s[..i] + [s[i]];
    PlacedConcat(s[..i], placed, [s[i]], [ok]);
    assert Placed([s[i]], [ok]) == if ok then [s[i]] else [];
    FailedMore(s, i, placed, ok);
  }

  lemma FailedMore(s: seq<string>, i: nat, placed: seq<bool>, ok: bool)
    requires i < |s| && |placed| == i
    ensures Failed(s[..i + 1], placed + [ok]) == Failed(s[..i], placed) + if ok then {} else {s[i]}
  {
    var t, p := s[..i + 1], placed + [ok];
    forall x
      ensures x in Failed(t, p) <==> x in Failed(s[..i], placed) || (!ok && x == s[i])
    {
      if x in Failed(s[..i], placed) {
        var j :| 0 <= j < i && !placed[j] && s[..i][j] == x;
        assert t[j] == x && !p[j];
      }
      if !ok && x == s[i] {
        assert t[i] == x && !p[i];
      }
    }
  }
}
