/** The plugins: how they are started and stopped, and how the running ones are brought in line with
    those that are asked for. Loading and starting a plugin may fail at any time. */
module Plugins {
  import opened Sequences
  import opened PluginLists

  class CompPlugin {
    const name: string

    constructor (name: string)
      ensures this.name == name
    {
      this.name := name;
    }
  }

  /** The names of a stack of plugins, which is kept from the top down, from the bottom up. */
  ghost predicate Spells(plugins: seq<CompPlugin>, list: seq<string>) {
    |plugins| == |list| && forall i :: 0 <= i < |list| ==> list[i] == plugins[|plugins| - 1 - i].name
  }

  /** The map holds exactly these plugins, each under its name. */
  ghost predicate Mapped(plugins: seq<CompPlugin>, m: map<string, CompPlugin>) {
    && (forall i :: 0 <= i < |plugins| ==> plugins[i].name in m && m[plugins[i].name] == plugins[i])
    && (forall name :: name in m ==> m[name] in plugins && m[name].name == name)
    && Distinct(plugins)
  }

  lemma MappedPush(plugins: seq<CompPlugin>, m: map<string, CompPlugin>, p: CompPlugin)
    requires Mapped(plugins, m) && p.name !in m
    ensures Mapped([p] + plugins, m[p.name := p])
  {
    var r := [p] + plugins;
    assert p !in plugins;
    assert forall q :: q in r <==> q == p || q in plugins;
    assert r[0] == p;
  }

  lemma MappedPop(plugins: seq<CompPlugin>, m: map<string, CompPlugin>)
    requires Mapped(plugins, m) && plugins != []
    ensures Mapped(plugins[1..], m - {plugins[0].name})
  {
    assert forall q :: q in plugins <==> q == plugins[0] || q in plugins[1..];
  }

  /** Names in a map are not repeated. */
  lemma MappedDistinct(plugins: seq<CompPlugin>, m: map<string, CompPlugin>, list: seq<string>)
    requires Mapped(plugins, m) && Spells(plugins, list)
    ensures Distinct(list)
    ensures forall name :: name in list <==> name in m
  {
    var n := |plugins|;
    forall i, j | 0 <= i < j < n
      ensures list[i] != list[j]
    {
      assert plugins[n - 1 - i] != plugins[n - 1 - j];
    }
    forall name | name in m
      ensures name in list
    {
      var k :| 0 <= k < n && plugins[k] == m[name];
      assert list[n - 1 - k] == name;
    }
  }

  class PluginManager {
    var plugins: seq<CompPlugin>
    var pluginsMap: map<string, CompPlugin>
    var list: seq<string>
    var blacklist: set<string>
    var initialPlugins: seq<string>

    /** The plugins that have been loaded and not yet unloaded. */
    ghost var loaded: set<CompPlugin>

    constructor (initialPlugins: seq<string>)
      ensures Valid() && list == [CORE] && blacklist == {} && this.initialPlugins == initialPlugins
    {
      var core := new CompPlugin(CORE);
      plugins, pluginsMap, list, blacklist := [core], map[CORE := core], [CORE], {};
      this.initialPlugins := initialPlugins;
      loaded := {core};
    }

    /** The stack and the map agree. */
    ghost predicate Stacked()
      reads this`plugins, this`pluginsMap
    {
      Mapped(plugins, pluginsMap)
    }

    /** The stack, the map and the list of names agree, the core is the first, and just the plugins on
        the stack are loaded. */
    ghost predicate Valid()
      reads this
    {
      && Stacked() && Spells(plugins, list) && Distinct(list)
      && list != [] && list[0] == CORE
      && loaded == Elements(plugins)
    }

    method Load(name: string) returns (p: CompPlugin?)
      modifies this`loaded
      ensures p == null ==> loaded == old(loaded)
      ensures p != null ==> fresh(p) && p.name == name && loaded == old(loaded) + {p}
    {
      var found := *;
      if !found {
        return null;
      }
      p := new CompPlugin(name);
      loaded := loaded + {p};
    }

    /** What is unloaded has been loaded, and has not been unloaded before. */
    method Unload(p: CompPlugin)
      requires p in loaded && p !in plugins
      modifies this`loaded
      ensures loaded == old(loaded) - {p}
    {
      loaded := loaded - {p};
    }

    /** A plugin is started, unless one of this name is running; the start may fail. */
    method Push(p: CompPlugin) returns (started: bool)
      requires Stacked()
      modifies this`plugins, this`pluginsMap
      ensures Stacked()
      ensures p.name in old(pluginsMap) ==> !started
      ensures if started then plugins == [p] + old(plugins) else plugins == old(plugins) && pluginsMap == old(pluginsMap)
    {
      hide Mapped;
      if p.name in pluginsMap {
        return false;
      }
      MappedPush(plugins, pluginsMap, p);
      ghost var before := pluginsMap;
      pluginsMap := pluginsMap[p.name := p];
      plugins := [p] + plugins;
      var initialized := *;
      if !initialized {
        pluginsMap := pluginsMap - {p.name};
        assert pluginsMap == before;
        plugins := plugins[1..];
        return false;
      }
      return true;
    }

    method Pop() returns (p: CompPlugin)
      requires Stacked() && plugins != []
      modifies this`plugins, this`pluginsMap
      ensures Stacked()
      ensures [p] + plugins == old(plugins)
    {
      hide Mapped;
      p := plugins[0];
      MappedPop(plugins, pluginsMap);
      pluginsMap := pluginsMap - {p.name};
      plugins := plugins[1..];
    }

    /** The plugins that are asked for. */
    method MergedPluginList(extra: seq<string>) returns (result: seq<string>)
      ensures result == Merged(initialPlugins, blacklist, extra)
    {
      hide Without;
      result := AddInitial([CORE]);
      result := AddExtra(result, extra);
    }

    method AddInitial(base: seq<string>) returns (result: seq<string>)
      ensures result == base + Without(initialPlugins, blacklist + {CORE})
    {
      ghost var drop := blacklist + {CORE};
      result := base;
      var i := 0;
      assert initialPlugins[0..] == initialPlugins;
      while i < |initialPlugins|
        invariant i <= |initialPlugins| && base + Without(initialPlugins, drop) == result + Without(initialPlugins[i..], drop)
      {
        var p := initialPlugins[i];
        assert initialPlugins[i..][1..] == initialPlugins[i + 1..];
        i := i + 1;
        if p == CORE {
          continue;
        }
        if p in blacklist {
          continue;
        }
        result := result + [p];
      }
      assert Without(initialPlugins[i..], drop) == [];
    }

    method AddExtra(base: seq<string>, extra: seq<string>) returns (result: seq<string>)
      ensures result == base + Without(extra, blacklist + {CORE} + Elements(initialPlugins))
    {
      ghost var drop := blacklist + {CORE} + Elements(initialPlugins);
      result := base;
      var i := 0;
      assert extra[0..] == extra;
      while i < |extra|
        invariant i <= |extra| && base + Without(extra, drop) == result + Without(extra[i..], drop)
      {
        var opt := extra[i];
        assert extra[i..][1..] == extra[i + 1..];
        i := i + 1;
        if opt == CORE {
          continue;
        }
        if opt in blacklist {
          continue;
        }
        var skip := IsInitial(opt);
        if !skip {
          result := result + [opt];
        }
      }
      assert Without(extra[i..], drop) == [];
    }

    method IsInitial(opt: string) returns (skip: bool)
      ensures skip <==> opt in initialPlugins
    {
      skip := false;
      var it := 0;
      while it < |initialPlugins|
        invariant it <= |initialPlugins| && opt !in initialPlugins[..it]
      {
        if initialPlugins[it] == opt {
          return true;
        }
        it := it + 1;
      }
    }

    /** The list of names up to the first that differs from what is asked for; the core is not compared. */
    method CommonPrefix(desired: seq<string>) returns (k: nat)
      requires list != [] && desired != [] && list[0] == desired[0]
      ensures 1 <= k <= |list| && k <= |desired| && list[..k] == desired[..k]
      ensures k == |list| || k == |desired| || list[k] != desired[k]
    {
      k := 1;
      while k < |list| && k < |desired|
        invariant 1 <= k <= |list| && k <= |desired| && list[..k] == desired[..k]
      {
        if list[k] != desired[k] {
          return;
        }
        k := k + 1;
      }
    }

    /** All plugins above the first `k` are stopped, the uppermost first. */
    method PopTo(k: nat) returns (alreadyLoaded: seq<CompPlugin>)
      requires Stacked() && Spells(plugins, list) && k <= |list|
      modifies this`plugins, this`pluginsMap, this`list
      ensures Stacked() && Spells(plugins, list)
      ensures alreadyLoaded + plugins == old(plugins) && list == old(list)[..k]
    {
      hide Mapped, Spells;
      SpellsLength(plugins, list);
      alreadyLoaded := [];
      var nPop := |list| - k;
      var i := 0;
      while i < nPop
        invariant 0 <= i <= nPop && Stacked() && |plugins| == |old(plugins)| - i
        invariant alreadyLoaded + plugins == old(plugins) && list == old(list)[..|old(list)| - i]
      {
        var p := Pop();
        assert alreadyLoaded + ([p] + plugins) == alreadyLoaded + [p] + plugins;
        alreadyLoaded := alreadyLoaded + [p];
        list := list[..|list| - 1];
        i := i + 1;
      }
      SpellsPrefix(old(plugins), old(list), k);
      EndOf(alreadyLoaded, plugins);
    }

    /** Where plugins are, while those asked for are started: the stopped ones are still loaded. */
    ghost predicate Sorting(alreadyLoaded: seq<CompPlugin>)
      reads this`plugins, this`pluginsMap, this`list, this`loaded
    {
      && Stacked() && Spells(plugins, list)
      && Apart(alreadyLoaded, plugins, loaded)
    }

    /** The first of the stopped plugins that has this name, or -1. */
    method FindLoaded(name: string, alreadyLoaded: seq<CompPlugin>) returns (k: int)
      ensures -1 <= k < |alreadyLoaded|
      ensures k == -1 ==> forall q :: q in alreadyLoaded ==> q.name != name
      ensures k != -1 ==> alreadyLoaded[k].name == name
    {
      k := 0;
      while k < |alreadyLoaded|
        invariant 0 <= k <= |alreadyLoaded| && forall j :: 0 <= j < k ==> alreadyLoaded[j].name != name
      {
        if alreadyLoaded[k].name == name {
          return;
        }
        k := k + 1;
      }
      k := -1;
    }

    /** A loaded plugin is started, or unloaded when it does not start. */
    method Start(p: CompPlugin, ghost stopped: seq<CompPlugin>) returns (started: bool)
      requires Stacked() && p in loaded && p !in stopped && p !in plugins && Apart(stopped, plugins, loaded - {p})
      modifies this`plugins, this`pluginsMap, this`loaded
      ensures Stacked() && Apart(stopped, plugins, loaded)
      ensures if started then plugins == [p] + old(plugins) else plugins == old(plugins)
    {
      hide Mapped, Apart;
      ApartPush(stopped, plugins, loaded - {p}, p);
      started := Push(p);
      if !started {
        Unload(p);
      } else {
        assert loaded - {p} + {p} == loaded;
      }
    }

    /** A plugin that is asked for is started, one that was running or else one newly loaded. */
    method Place(name: string, alreadyLoaded: seq<CompPlugin>) returns (rest: seq<CompPlugin>, placed: bool)
      requires Sorting(alreadyLoaded)
      modifies this`plugins, this`pluginsMap, this`list, this`loaded, this`blacklist
      ensures Sorting(rest) && (forall q :: q in alreadyLoaded && q.name != name ==> q in rest)
      ensures forall q :: q in rest ==> q in alreadyLoaded
      ensures blacklist == if placed then old(blacklist) else old(blacklist) + {name}
      ensures list == if placed then old(list) + [name] else old(list)
      ensures placed ==> |plugins| > 0 && plugins[1..] == old(plugins) && plugins[0].name == name
      ensures placed ==> plugins[0] in alreadyLoaded
                         || (fresh(plugins[0]) && forall q :: q in alreadyLoaded ==> q.name != name)
      ensures !placed ==> plugins == old(plugins)
    {
      hide Mapped, Spells, Apart;
      rest, placed := alreadyLoaded, false;
      var k := FindLoaded(name, alreadyLoaded);
      if k != -1 {
        ApartTake(alreadyLoaded, plugins, loaded, k);
        rest := alreadyLoaded[..k] + alreadyLoaded[k + 1..];
        placed := Start(alreadyLoaded[k], rest);
      } else {
        ApartLoaded(alreadyLoaded, plugins, loaded);
        ghost var before := loaded;
        var p := Load(name);
        if p != null {
          assert loaded - {p} == before;
          placed := Start(p, rest);
        }
      }
      if placed {
        SpellsPush(plugins, list);
        list := list + [name];
      } else {
        blacklist := blacklist + {name};
      }
    }

    /** The running plugins are brought in line with those asked for: each that is asked for is either
        placed, in the order asked for, or blacklisted. The plugins up to the first difference run on,
        one that was running is not loaded again, and what is left over is unloaded. */
    method UpdatePlugins(extra: seq<string>) returns (ghost placed: seq<bool>)
      requires Valid()
      modifies this`plugins, this`pluginsMap, this`list, this`loaded, this`blacklist
      ensures Valid()
      ensures |placed| == |old(Merged(initialPlugins, blacklist, extra))| && placed[0]
      ensures list == Placed(old(Merged(initialPlugins, blacklist, extra)), placed)
      ensures blacklist == old(blacklist) + Failed(old(Merged(initialPlugins, blacklist, extra)), placed)
      ensures old(list) == old(Merged(initialPlugins, blacklist, extra)) ==>
                plugins == old(plugins) && pluginsMap == old(pluginsMap) && list == old(list) && blacklist == old(blacklist)
      ensures Distinct(old(Merged(initialPlugins, blacklist, extra))) ==> OnlyNew(plugins, old(plugins))
    {
      hide Mapped, Spells, Apart, Placed, Failed, Merged, Distinct, Elements, OnlyNew, Kept;
      var desiredPlugins := MergedPluginList(extra);
      StartsWithCore(initialPlugins, blacklist, extra);
      var common := CommonPrefix(desiredPlugins);
      Settled();
      var alreadyLoaded := PopTo(common);
      ApartSplit(alreadyLoaded, plugins, loaded);
      SpellsLength(plugins, list);
      SpellsLength(old(plugins), old(list));
      placed := seq(common, _ => true);
      AllPlaced(desiredPlugins[..common], placed);
      ghost var prefix := plugins;
      placed := PlaceAll(desiredPlugins, common, alreadyLoaded, placed);
      NewOnly(plugins, pluginsMap, prefix, alreadyLoaded);
      assert desiredPlugins[..|desiredPlugins|] == desiredPlugins;
      CoreStays(desiredPlugins, placed);
      SettledAgain();
      SameMap(old(plugins), old(pluginsMap), plugins, pluginsMap);
      SameNames(old(plugins), old(list), plugins, list);
    }

    /** Two updates in a row, the second for the same plugins or for those that the first has placed. The
        second changes nothing if and only if the first has placed no plugin that is asked for twice. */
    method UpdateAgain(extra: seq<string>, fed: bool)
      returns (plugins1: seq<CompPlugin>, pluginsMap1: map<string, CompPlugin>, list1: seq<string>, blacklist1: set<string>,
               ghost placed: seq<bool>)
      requires Valid()
      modifies this`plugins, this`pluginsMap, this`list, this`loaded, this`blacklist
      ensures Valid()
      ensures |placed| == |old(Merged(initialPlugins, blacklist, extra))|
      ensures list1 == Placed(old(Merged(initialPlugins, blacklist, extra)), placed)
      ensures (plugins == plugins1 && pluginsMap == pluginsMap1 && list == list1 && blacklist == blacklist1)
              <==> !PlacesRepeated(old(Merged(initialPlugins, blacklist, extra)), placed)
    {
      hide Mapped, Spells, Placed, Failed, Merged, Distinct, PlacesRepeated;
      ghost var blacklist0 := blacklist;
      placed := UpdatePlugins(extra);
      plugins1, pluginsMap1, list1, blacklist1 := plugins, pluginsMap, list, blacklist;
      var again := if fed then list else extra;
      ghost var placed2 := UpdatePlugins(again);
      if PlacesRepeated(Merged(initialPlugins, blacklist0, extra), placed) {
        ghost var name := RepeatedDropped(initialPlugins, blacklist0, extra, placed, again);
        PlacedFrom(Merged(initialPlugins, blacklist1, again), placed2);
      } else {
        MergedAgain(initialPlugins, blacklist0, extra, placed);
      }
    }

    /** The plugins asked for from index `common` on are started, and the stopped ones that are left over
        are unloaded. */
    method PlaceAll(desiredPlugins: seq<string>, common: nat, stopped: seq<CompPlugin>, ghost sofar: seq<bool>)
      returns (ghost placed: seq<bool>)
      requires Sorting(stopped) && 0 < common <= |desiredPlugins| && |sofar| == common && sofar[0]
      requires list == Placed(desiredPlugins[..common], sofar) && Failed(desiredPlugins[..common], sofar) == {}
      modifies this`plugins, this`pluginsMap, this`list, this`loaded, this`blacklist
      ensures Sorting([]) && |placed| == |desiredPlugins| && placed[0]
      ensures list == Placed(desiredPlugins[..|desiredPlugins|], placed)
      ensures blacklist == old(blacklist) + Failed(desiredPlugins[..|desiredPlugins|], placed)
      ensures common == |desiredPlugins| ==> plugins == old(plugins) && blacklist == old(blacklist)
      ensures Distinct(desiredPlugins) ==> Kept(plugins, old(plugins), stopped)
    {
      hide Mapped, Spells, Apart, Elements, Kept, Waiting, Distinct, Dealt, Placed, Failed;
      KeptSelf(plugins, stopped);
      assert desiredPlugins[common..common] == [];
      placed := sofar;
      var desireIndex, alreadyLoaded := common, stopped;
      DealtFirst(desiredPlugins, common, placed, list, blacklist);
      while desireIndex < |desiredPlugins|
        invariant common <= desireIndex <= |desiredPlugins| && Sorting(alreadyLoaded)
        invariant Dealt(desiredPlugins, desireIndex, placed, list, blacklist, old(blacklist))
        invariant desireIndex == common ==> plugins == old(plugins) && blacklist == old(blacklist)
        invariant Waiting(stopped, alreadyLoaded, desiredPlugins[common..desireIndex])
        invariant Distinct(desiredPlugins) ==> Kept(plugins, old(plugins), stopped)
      {
        var ok;
        ghost var running, waiting, list0, blacklist0 := plugins, alreadyLoaded, list, blacklist;
        alreadyLoaded, ok := Place(desiredPlugins[desireIndex], alreadyLoaded);
        DealtOne(desiredPlugins, desireIndex, placed, list0, blacklist0, old(blacklist), ok);
        if Distinct(desiredPlugins) {
          KeptOneMore(running, old(plugins), stopped, waiting, desiredPlugins, common, desireIndex, plugins);
        }
        WaitingOneMore(stopped, waiting, alreadyLoaded, desiredPlugins, common, desireIndex);
        placed := placed + [ok];
        desireIndex := desireIndex + 1;
      }
      UnloadAll(alreadyLoaded);
      DealtAll(desiredPlugins, placed, list, blacklist, old(blacklist));
    }

    lemma Settled()
      requires Valid()
      ensures Stacked() && Spells(plugins, list) && Apart([], plugins, loaded) && list != [] && list[0] == CORE
    {
      assert [] + plugins == plugins;
      hide Spells, Distinct;
    }

    lemma SettledAgain()
      requires Sorting([]) && list != [] && list[0] == CORE
      ensures Valid()
    {
      assert [] + plugins == plugins;
      hide Mapped, Spells, Distinct, Elements;
      MappedDistinct(plugins, pluginsMap, list);
    }

    /** The plugins that were stopped and are not asked for any more. */
    method UnloadAll(stopped: seq<CompPlugin>)
      requires Sorting(stopped)
      modifies this`loaded
      ensures Sorting([])
    {
      hide Mapped, Spells, Apart;
      var i := 0;
      assert stopped[0..] == stopped;
      while i < |stopped|
        invariant i <= |stopped| && Sorting(stopped[i..])
      {
        ApartTake(stopped[i..], plugins, loaded, 0);
        assert stopped[i..][..0] + stopped[i..][1..] == stopped[i + 1..];
        Unload(stopped[i]);
        i := i + 1;
      }
      assert stopped[i..] == [];
    }
  }

  lemma ApartSplit(stopped: seq<CompPlugin>, plugins: seq<CompPlugin>, loaded: set<CompPlugin>)
    requires Apart([], stopped + plugins, loaded)
    ensures Apart(stopped, plugins, loaded)
  {
    assert [] + (stopped + plugins) == stopped + plugins;
  }

  lemma EndOf(a: seq<CompPlugin>, b: seq<CompPlugin>)
    ensures (a + b)[|a + b| - |b|..] == b
  {
  }

  lemma SpellsLength(plugins: seq<CompPlugin>, list: seq<string>)
    requires Spells(plugins, list)
    ensures |plugins| == |list|
  {
  }

  lemma SameNames(plugins: seq<CompPlugin>, list: seq<string>, others: seq<CompPlugin>, names: seq<string>)
    requires Spells(plugins, list) && Spells(others, names)
    ensures plugins == others ==> list == names
  {
  }

  lemma CoreStays(desired: seq<string>, placed: seq<bool>)
    requires |placed| == |desired| > 0 && placed[0]
    ensures Placed(desired, placed) != [] && Placed(desired, placed)[0] == desired[0]
  {
  }

  /** A stack determines its map. */
  lemma SameMap(plugins: seq<CompPlugin>, m: map<string, CompPlugin>, others: seq<CompPlugin>,
                o: map<string, CompPlugin>)
    requires Mapped(plugins, m) && Mapped(others, o)
    ensures plugins == others ==> m == o
  {
    if plugins == others {
      forall name
        ensures name in m <==> name in o
      {
      }
    }
  }

  lemma StartsWithCore(initial: seq<string>, blacklist: set<string>, extra: seq<string>)
    ensures Merged(initial, blacklist, extra) != [] && Merged(initial, blacklist, extra)[0] == CORE
  {
  }

  /** The first `i` entries have been dealt with: list and blacklist say which have been placed. */
  ghost predicate Dealt(desired: seq<string>, i: nat, placed: seq<bool>, list: seq<string>, blacklist: set<string>,
                        before: set<string>)
  {
    && 0 < i <= |desired| && |placed| == i && placed[0]
    && list == Placed(desired[..i], placed) && blacklist == before + Failed(desired[..i], placed)
  }

  lemma DealtFirst(desired: seq<string>, i: nat, placed: seq<bool>, list: seq<string>, blacklist: set<string>)
    requires 0 < i <= |desired| && |placed| == i && placed[0]
    requires list == Placed(desired[..i], placed) && Failed(desired[..i], placed) == {}
    ensures Dealt(desired, i, placed, list, blacklist, blacklist)
  {
  }

  lemma DealtOne(desired: seq<string>, i: nat, placed: seq<bool>, list: seq<string>, blacklist: set<string>,
                 before: set<string>, ok: bool)
    requires i < |desired| && Dealt(desired, i, placed, list, blacklist, before)
    ensures Dealt(desired, i + 1, placed + [ok], if ok then list + [desired[i]] else list,
                  if ok then blacklist else blacklist + {desired[i]}, before)
  {
    hide Placed, Failed;
    OneMore(desired, i, placed, ok);
  }

  lemma DealtAll(desired: seq<string>, placed: seq<bool>, list: seq<string>, blacklist: set<string>, before: set<string>)
    requires Dealt(desired, |desired|, placed, list, blacklist, before)
    ensures |placed| == |desired| && placed[0]
    ensures list == Placed(desired[..|desired|], placed) && blacklist == before + Failed(desired[..|desired|], placed)
  {
  }

  /** Each plugin either ran before or has a name that none had that ran before. */
  ghost predicate OnlyNew(plugins: seq<CompPlugin>, before: seq<CompPlugin>) {
    forall p :: p in plugins ==> p in before || forall q :: q in before ==> q.name != p.name
  }

  /** What runs is what ran at the bottom, what was stopped, and what has a name of none that was stopped. */
  ghost predicate Kept(plugins: seq<CompPlugin>, prefix: seq<CompPlugin>, stopped: seq<CompPlugin>) {
    && (forall q :: q in prefix ==> q in plugins)
    && (forall p :: p in plugins ==> p in prefix || p in stopped || forall q :: q in stopped ==> q.name != p.name)
  }

  /** The stopped plugins that have not been asked for yet are still waiting. */
  ghost predicate Waiting(stopped: seq<CompPlugin>, waiting: seq<CompPlugin>, done: seq<string>) {
    && (forall q :: q in waiting ==> q in stopped)
    && (forall q :: q in stopped && q.name !in done ==> q in waiting)
  }

  lemma KeptSelf(plugins: seq<CompPlugin>, stopped: seq<CompPlugin>)
    ensures Kept(plugins, plugins, stopped) && Waiting(stopped, stopped, [])
  {
  }

  lemma WaitingOneMore(stopped: seq<CompPlugin>, waiting: seq<CompPlugin>, rest: seq<CompPlugin>,
                       desired: seq<string>, common: nat, i: nat)
    requires common <= i < |desired| && Waiting(stopped, waiting, desired[common..i])
    requires forall q :: q in waiting && q.name != desired[i] ==> q in rest
    requires forall q :: q in rest ==> q in waiting
    ensures Waiting(stopped, rest, desired[common..i + 1])
  {
    assert desired[common..i + 1] == desired[common..i] + [desired[i]];
  }

  lemma KeptOneMore(running: seq<CompPlugin>, prefix: seq<CompPlugin>, stopped: seq<CompPlugin>,
                    waiting: seq<CompPlugin>,
                    desired: seq<string>, common: nat, i: nat, plugins: seq<CompPlugin>)
    requires Kept(running, prefix, stopped) && common <= i < |desired| && Distinct(desired)
    requires Waiting(stopped, waiting, desired[common..i])
    requires plugins == running || (|plugins| > 0 && plugins[1..] == running && plugins[0].name == desired[i]
                                    && (plugins[0] in waiting || forall q :: q in waiting ==> q.name != desired[i]))
    ensures Kept(plugins, prefix, stopped)
  {
    assert desired[i] !in desired[common..i];
    if plugins != running {
      assert plugins == [plugins[0]] + running;
      assert forall p :: p in plugins <==> p == plugins[0] || p in running;
    }
  }

  lemma NewOnly(plugins: seq<CompPlugin>, m: map<string, CompPlugin>, prefix: seq<CompPlugin>, stopped: seq<CompPlugin>)
    requires Mapped(plugins, m)
    ensures Kept(plugins, prefix, stopped) ==> OnlyNew(plugins, stopped + prefix)
  {
    if Kept(plugins, prefix, stopped) {
      forall p, q | p in plugins && p !in stopped + prefix && q in stopped + prefix
        ensures q.name != p.name
      {
        if q in prefix {
          assert m[q.name] == q;
        }
      }
    }
  }

  /** The stopped plugins and those on the stack are different ones, and just these are loaded. */
  ghost predicate Apart(stopped: seq<CompPlugin>, plugins: seq<CompPlugin>, loaded: set<CompPlugin>) {
    Distinct(stopped + plugins) && loaded == Elements(stopped + plugins)
  }

  lemma ApartLoaded(stopped: seq<CompPlugin>, plugins: seq<CompPlugin>, loaded: set<CompPlugin>)
    requires Apart(stopped, plugins, loaded)
    ensures forall p :: p in stopped || p in plugins <==> p in loaded
  {
  }

  lemma ApartPush(stopped: seq<CompPlugin>, plugins: seq<CompPlugin>, loaded: set<CompPlugin>, p: CompPlugin)
    requires Apart(stopped, plugins, loaded) && p !in stopped && p !in plugins
    ensures Apart(stopped, [p] + plugins, loaded + {p})
  {
    DistinctInsert(stopped + plugins, |stopped|, p);
    ElementsInsert(stopped + plugins, |stopped|, p);
    assert InsertAt(stopped + plugins, |stopped|, p) == stopped + ([p] + plugins);
  }

  lemma ApartTake(stopped: seq<CompPlugin>, plugins: seq<CompPlugin>, loaded: set<CompPlugin>, k: nat)
    requires Apart(stopped, plugins, loaded) && k < |stopped|
    ensures stopped[k] in loaded && stopped[k] !in plugins
    ensures var rest := stopped[..k] + stopped[k + 1..];
            && stopped[k] !in rest && Apart(rest, plugins, loaded - {stopped[k]})
            && forall q :: q in stopped && q != stopped[k] ==> q in rest
  {
    var all, rest := stopped + plugins, stopped[..k] + stopped[k + 1..];
    assert all[k] == stopped[k];
    RemoveAt(all, k);
    assert all[..k] + all[k + 1..] == rest + plugins;
    RemoveDistinct(all, stopped[k]);
    ElementsRemove(all, stopped[k]);
    assert forall q :: q in all <==> q in stopped || q in plugins;
    assert forall q :: q in rest + plugins <==> q in rest || q in plugins;
    assert forall j :: 0 <= j < |plugins| ==> plugins[j] == all[|stopped| + j];
  }

  lemma SpellsPush(plugins: seq<CompPlugin>, list: seq<string>)
    requires plugins != [] && Spells(plugins[1..], list)
    ensures Spells(plugins, list + [plugins[0].name])
  {
  }

  lemma SpellsPrefix(plugins: seq<CompPlugin>, list: seq<string>, k: nat)
    requires Spells(plugins, list) && k <= |list|
    ensures Spells(plugins[|plugins| - k..], list[..k])
  {
  }
}
