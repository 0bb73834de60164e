module ModsManagers {
  import opened Text
  import opened ModTrace
  import opened ModsState

  class ModsManager {
    var mods: map<string, Mod>
    var nextInstance: nat
    ghost var trace: seq<Event>

    ghost predicate Sane()
      reads this
    {
      Distinct(mods) && Below(mods, nextInstance)
    }

    ghost function Snapshot(): State
      reads this
    {
      State(mods, nextInstance, trace)
    }

    /** Every instance is ready, as its entry says, or gone. */
    ghost predicate Settled()
      reads this
    {
      Tidy(mods, nextInstance, trace)
    }

    constructor Empty()
      ensures mods == map[] && nextInstance == 0 && trace == []
    {
      mods, nextInstance, trace := map[], 0, [];
    }

    /** `Mod::Load` on the entry of that name; exceptions are logged by the callers. */
    method LoadOne(name: string, r: LoadRead) returns (ghost seg: seq<Event>)
      requires name in mods && Sane()
      modifies this
      ensures Sane()
      ensures mods == old(mods)[name := LoadMod(old(mods)[name], r, old(nextInstance))]
      ensures nextInstance == old(nextInstance) + if Constructs(old(mods)[name], r) then 1 else 0
      ensures trace == old(trace) + seg
      ensures seg == LoadCalls(old(mods)[name], r, old(nextInstance))
    {
      seg := [];
      var mod := mods[name];
      if mod.loaded.Some? || r.libraryFileName.None? { return; }
      mods := mods[name := mods[name].(libraryFileName := r.libraryFileName.value)];
      if r.libraryFileName.value == "" || r.settingsChangeTime.None? { return; }
      mods := mods[name := mods[name].(settingsChangeTime := r.settingsChangeTime.value)];
      if !r.otherValues || !r.libraryLoads { return; }
      var inst := nextInstance;
      nextInstance := nextInstance + 1;
      if r.initResult {
        seg := [Call(inst, InitTrue)];
        mods := mods[name := mods[name].(loaded := Some(inst))];
      } else {
        seg := [Call(inst, InitFalse), Call(inst, Release)];
      }
      trace := trace + seg;
    }

    /** Calls one function of every loaded instance among these names, in any order. */
    method TellEach(names: set<string>, kind: Kind) returns (ghost seg: seq<Event>)
      requires Sane() && names <= mods.Keys
      modifies this`trace
      ensures trace == old(trace) + seg && Each(seg, Instances(mods, names), kind)
    {
      seg := [];
      var todo := names;
      ghost var done: set<string> := {};
      assert trace + seg == trace;
      while todo != {}
        invariant todo <= names && done == names - todo
        invariant trace == old(trace) + seg && Each(seg, Instances(mods, done), kind)
      {
        var name :| name in todo;
        if mods[name].loaded.Some? {
          var inst := mods[name].loaded.value;
          ToldOneMore(mods, done, name, seg, kind);
          trace := trace + [Call(inst, kind)];
          seg := seg + [Call(inst, kind)];
        } else {
          assert Instances(mods, done + {name}) == Instances(mods, done);
        }
        todo := todo - {name};
        done := done + {name};
      }
      assert done == names;
    }

    /** `Mod::ApplyChangedSettings` on the entry of that name. */
    method ApplyOne(name: string, r: ApplyRead) returns (result: Applied, ghost seg: seq<Event>)
      requires name in mods
      modifies this`mods, this`trace
      ensures result == AppliedResult(old(mods)[name], r)
      ensures mods == old(mods)[name := AppliedMod(old(mods)[name], r)]
      ensures trace == old(trace) + seg
      ensures seg == if CallsSettingsChanged(old(mods)[name], r)
                     then [Call(old(mods)[name].loaded.value, SettingsChanged)] else []
    {
      seg := [];
      if r.libraryFileName.None? { return Threw, seg; }
      if r.libraryFileName.value != mods[name].libraryFileName { return Reload, seg; }
      if r.settingsChangeTime.None? { return Threw, seg; }
      var oldSettingsChangeTime := mods[name].settingsChangeTime;
      mods := mods[name := mods[name].(settingsChangeTime := r.settingsChangeTime.value)];
      var reload := false;
      if mods[name].settingsChangeTime != oldSettingsChangeTime {
        if mods[name].loaded.None? { return Reload, seg; }
        seg := [Call(mods[name].loaded.value, SettingsChanged)];
        trace := trace + seg;
        reload := r.wantsReload;
        if !r.accepted { return Unload, seg; }
      }
      if mods[name].loaded.Some? && !r.loggingValues { return Threw, seg; }
      return if reload then Reload else Keep, seg;
    }

    /** What the reload does with one enumerated name. */
    method SortOne(env: Env, modName: string) returns (decision: Decision, ghost seg: seq<Event>)
      requires Sane() && modName in env.enumerated
      modifies this`mods, this`trace
      ensures Sane()
      ensures decision == Decide(old(mods), env, modName)
      ensures mods == if Asked(old(mods), env, modName)
                      then old(mods)[modName := AppliedMod(old(mods)[modName], env.apply(modName))] else old(mods)
      ensures trace == old(trace) + seg
      ensures seg == if modName in Called(old(mods), env)
                     then [Call(old(mods)[modName].loaded.value, SettingsChanged)] else []
    {
      seg := [];
      if env.shouldLoad(modName) != Some(true) { return Drop, seg; }
      if modName !in mods { return Load, seg; }
      var result;
      result, seg := ApplyOne(modName, env.apply(modName));
      match result
      case Threw => decision := Drop;
      case Unload => decision := KeepUnloaded;
      case Reload => decision := Load;
      case Keep => decision := KeepLoaded;
    }

    /** The first loop of a reload: asks the mods in the map, and sorts the names. */
    method SortNames(env: Env) returns (plan: Plan, ghost seg: seq<Event>)
      requires Sane() && UniqueNames(env.enumerated)
      modifies this`mods, this`trace
      ensures Sane() && mods == Asking(old(mods), env, env.enumerated)
      ensures Follows(plan, old(mods), env, env.enumerated)
      ensures trace == old(trace) + seg
      ensures Each(seg, Instances(old(mods), Called(old(mods), env)), SettingsChanged)
    {
      plan, seg := Plan({}, {}, []), [];
      ghost var before := mods;
      assert trace + seg == trace && env.enumerated[..0] == [];
      for k := 0 to |env.enumerated|
        invariant Sane() && trace == old(trace) + seg
        invariant SortedSoFar(before, env, env.enumerated[..k], mods, plan, seg)
      {
        assert env.enumerated[..k + 1] == env.enumerated[..k] + [env.enumerated[k]];
        SortOneMore(before, env, env.enumerated[..k], env.enumerated[k], mods, plan, seg);
        var decision, more := SortOne(env, env.enumerated[k]);
        plan := Add(plan, decision, env.enumerated[k]);
        seg := seg + more;
      }
      SortedAll(before, env, env.enumerated[..|env.enumerated|], mods, plan, seg);
    }

    /** Unloads the entry of that name, or erases it. */
    method RemoveOne(name: string, unloadOnly: bool) returns (ghost seg: seq<Event>)
      requires name in mods
      modifies this`mods, this`trace
      ensures mods == if unloadOnly then old(mods)[name := old(mods)[name].(loaded := None)] else old(mods) - {name}
      ensures trace == old(trace) + seg
      ensures seg == if old(mods)[name].loaded.Some? then [Call(old(mods)[name].loaded.value, Release)] else []
    {
      seg := if mods[name].loaded.Some? then [Call(mods[name].loaded.value, Release)] else [];
      trace := trace + seg;
      if unloadOnly {
        mods := mods[name := mods[name].(loaded := None)];
      } else {
        mods := mods - {name};
      }
    }

    /** The loop that erases the leaving mods, or only unloads them. */
    method RemoveLeaving(keepLoaded: set<string>, keepUnloaded: set<string>) returns (ghost seg: seq<Event>)
      requires Sane() && keepLoaded <= mods.Keys && keepUnloaded <= mods.Keys && keepLoaded !! keepUnloaded
      modifies this`mods, this`trace
      ensures Sane() && mods == Removing(old(mods), old(mods).Keys - keepLoaded, keepUnloaded)
      ensures trace == old(trace) + seg
      ensures Each(seg, Instances(old(mods), old(mods).Keys - keepLoaded), Release)
    {
      seg := [];
      ghost var before := mods;
      var todo := mods.Keys;
      ghost var done: set<string> := {};
      assert trace + seg == trace;
      while todo != {}
        invariant done == before.Keys - keepLoaded - todo && todo <= before.Keys
        invariant mods == Removing(before, done, keepUnloaded)
        invariant trace == old(trace) + seg && Each(seg, Instances(before, done), Release)
      {
        var name :| name in todo;
        todo := todo - {name};
        if name !in keepLoaded {
          RemovingOneMore(before, done, keepUnloaded, name);
          ghost var more := RemoveOne(name, name in keepUnloaded);
          if before[name].loaded.Some? {
            ToldOneMore(before, done, name, seg, Release);
            seg := seg + more;
          } else {
            assert Instances(before, done + {name}) == Instances(before, done);
          }
          done := done + {name};
        }
      }
      assert done == before.Keys - keepLoaded;
    }

    /** Adds a fresh entry for each name. */
    method Emplace(toLoad: seq<string>)
      requires Sane() && Names(toLoad) !! mods.Keys
      modifies this`mods
      ensures Sane() && mods.Keys == old(mods).Keys + Names(toLoad)
      ensures forall n :: n in old(mods) ==> mods[n] == old(mods)[n]
      ensures forall n :: n in toLoad ==> mods[n] == FreshMod
    {
      for k := 0 to |toLoad|
        invariant Sane() && mods.Keys == old(mods).Keys + Names(toLoad[..k])
        invariant forall n :: n in old(mods) ==> mods[n] == old(mods)[n]
        invariant forall n :: n in toLoad[..k] ==> mods[n] == FreshMod
      {
        mods := mods[toLoad[k] := FreshMod];
      }
      assert toLoad[..|toLoad|] == toLoad;
    }

    /** Loads the fresh entries one after the other. */
    method LoadNew(env: Env, toLoad: seq<string>) returns (ghost inits: seq<Event>)
      requires Sane() && UniqueNames(toLoad)
      requires forall n :: n in toLoad ==> n in mods && mods[n] == FreshMod
      modifies this
      ensures Sane() && trace == old(trace) + inits
      ensures Loaded(State(old(mods), old(nextInstance), []), State(mods, nextInstance, inits), env, toLoad)
    {
      inits := [];
      ghost var s := State(mods, nextInstance, []);
      assert trace + inits == trace;
      for k := 0 to |toLoad|
        invariant Sane() && trace == old(trace) + inits
        invariant State(mods, nextInstance, inits) == LoadAll(s, env, toLoad[..k])
      {
        assert toLoad[..k + 1][..k] == toLoad[..k];
        var i := toLoad[k];
        if i in mods {
          ghost var more := LoadOne(i, env.load(i));
          assert (old(trace) + inits) + more == old(trace) + (inits + more);
          inits := inits + more;
        }
      }
      assert toLoad[..|toLoad|] == toLoad;
      LoadAllLoads(s, env, toLoad);
    }

    /** The second half of a reload: the new mods. */
    method BringIn(env: Env, toLoad: seq<string>, ghost s: State) returns (ghost inits: seq<Event>, ghost after: seq<Event>)
      requires Sane() && UniqueNames(toLoad) && Distinct(s.mods) && nextInstance == s.next
      requires mods == Thinned(s.mods, env) && Names(toLoad) == Sorted(s.mods, env, env.enumerated, Load)
      modifies this
      ensures trace == old(trace) + inits + [HooksApplied] + after
      ensures OnlyInits(inits, s.next) && nextInstance >= s.next && Outcome(s, env, Snapshot())
      ensures PhasesOfNew([], inits, s.next, nextInstance, Instances(mods, Names(toLoad)))
      ensures Each(after, Instances(mods, Names(toLoad)), AfterInit)
      ensures (forall n :: n in Names(toLoad) ==> !Constructs(FreshMod, env.load(n))) ==> inits == []
    {
      ThinnedEntries(s.mods, env);
      Emplace(toLoad);
      ghost var filled := mods;
      inits := LoadNew(env, toLoad);
      trace := trace + [HooksApplied];
      OutcomeOf(s, env, toLoad, filled, Snapshot());
      after := TellEach(Names(toLoad), AfterInit);
    }

    /** The first half: the leaving mods. */
    method SendOff(keepLoaded: set<string>, keepUnloaded: set<string>)
      returns (ghost before: seq<Event>, ghost uninit: seq<Event>, ghost released: seq<Event>)
      requires Sane() && keepLoaded <= mods.Keys && keepUnloaded <= mods.Keys && keepLoaded !! keepUnloaded
      modifies this`mods, this`trace
      ensures Sane() && mods == Removing(old(mods), old(mods).Keys - keepLoaded, keepUnloaded)
      ensures trace == old(trace) + before + [HooksApplied] + uninit + released
      ensures Each(before, Instances(old(mods), old(mods).Keys - keepLoaded), BeforeUninit)
      ensures Each(uninit, Instances(old(mods), old(mods).Keys - keepLoaded), Uninit)
      ensures Each(released, Instances(old(mods), old(mods).Keys - keepLoaded), Release)
    {
      before := TellEach(mods.Keys - keepLoaded, BeforeUninit);
      trace := trace + [HooksApplied];
      uninit := TellEach(mods.Keys - keepLoaded, Uninit);
      released := RemoveLeaving(keepLoaded, keepUnloaded);
    }

    /** `ReloadModsAndSettings`. An exception of the enumeration leaves it before any mod leaves. */
    method ReloadModsAndSettings(env: Env) returns (ghost g: Stages)
      requires Settled() && UniqueNames(env.enumerated)
      modifies this
      ensures Settled()
      ensures !env.enumThrows ==> Reloads(old(Snapshot()), env, Snapshot(), g)
      ensures env.enumThrows ==>
        && mods == Asking(old(mods), env, env.enumerated) && trace == old(trace) + g.asked
        && Each(g.asked, Instances(old(mods), Called(old(mods), env)), SettingsChanged)
    {
      ghost var s := Snapshot();
      var plan, asked := SortNames(env);
      g := Stages(asked, [], [], [], [], []);
      if env.enumThrows {
        AskingKeepsTidy(s, env, asked);
        return;
      }
      PlanFits(s.mods, env, plan);
      ghost var before, uninit, released := SendOff(plan.keepLoaded, plan.keepUnloaded);
      ghost var inits, after := BringIn(env, plan.toLoad, s);
      g := Stages(asked, before, uninit, released, inits, after);
      ReloadKeepsTidy(s, env, Snapshot(), g);
    }

    /** The constructor's first half: an entry for every mod that should be loaded. */
    method EnumerateInto(env: Env)
      requires mods == map[] && UniqueNames(env.enumerated)
      modifies this`mods
      ensures mods.Keys == Wanted(env) && forall n :: n in mods ==> mods[n] == FreshMod
    {
      for k := 0 to |env.enumerated|
        invariant forall n :: n in mods <==> n in env.enumerated[..k] && env.shouldLoad(n) == Some(true)
        invariant forall n :: n in mods ==> mods[n] == FreshMod
      {
        var modName := env.enumerated[k];
        assert forall n :: n in env.enumerated[..k + 1] <==> n in env.enumerated[..k] || n == modName;
        if env.shouldLoad(modName) == Some(true) && modName !in mods {
          mods := mods[modName := FreshMod];
        }
      }
      assert env.enumerated[..|env.enumerated|] == env.enumerated;
    }

    /** The constructor's second half: loads what was found, in any order. */
    method LoadEnumerated(env: Env) returns (ghost inits: seq<Event>)
      requires Sane() && nextInstance == 0 && trace == [] && forall n :: n in mods ==> mods[n] == FreshMod
      modifies this
      ensures Sane() && mods.Keys == old(mods).Keys && trace == inits && OnlyInits(inits, 0)
      ensures forall n :: n in mods ==> SameEntry(mods[n], LoadMod(FreshMod, env.load(n), 0))
      ensures PhasesOfNew([], inits, 0, nextInstance, Instances(mods, mods.Keys))
    {
      var order := InAnyOrder(mods.Keys);
      assert forall n :: n in order <==> n in Names(order);
      inits := LoadNew(env, order);
    }

    /** The manager's destructor, and that of its map, when the session around it was never finished. */
    method TakeDown(ghost inits: seq<Event>)
      requires Sane() && trace == inits && OnlyInits(inits, 0)
      requires PhasesOfNew([], inits, 0, nextInstance, Instances(mods, mods.Keys))
      modifies this`mods, this`trace
      ensures mods == map[] && forall inst: nat :: inst < nextInstance ==> CutShort(CallsOf(trace, inst))
      ensures forall inst: nat :: inst >= nextInstance ==> CallsOf(trace, inst) == []
      ensures HooksApplied !in trace
    {
      ghost var started := Instances(mods, mods.Keys);
      ghost var uninit := TellEach(mods.Keys, Uninit);
      assert mods.Keys - {} == mods.Keys;
      ghost var released := RemoveLeaving({}, {});
      CutShortBuild(inits, uninit, released, nextInstance, started);
    }

    /**
      Building the manager and the session around it. `injectorFails` is an exception from the
      session's next member, which takes the finished manager down again.
     */
    method Build(env: Env, injectorFails: bool) returns (ok: bool)
      requires mods == map[] && nextInstance == 0 && trace == [] && UniqueNames(env.enumerated)
      modifies this
      ensures ok == (!env.enumThrows && !injectorFails)
      ensures ok ==>
        && Settled() && mods.Keys == Wanted(env)
        && forall n :: n in mods ==> SameEntry(mods[n], LoadMod(FreshMod, env.load(n), 0))
      ensures !ok ==> mods == map[] && forall inst: nat :: inst < nextInstance ==> CutShort(CallsOf(trace, inst))
      ensures !ok ==> forall inst: nat :: inst >= nextInstance ==> CallsOf(trace, inst) == []
      ensures !ok ==> HooksApplied !in trace
    {
      EnumerateInto(env);
      if env.enumThrows {
        mods := map[];
        return false;
      }
      ghost var inits := LoadEnumerated(env);
      if injectorFails {
        TakeDown(inits);
        return false;
      }
      trace := trace + [HooksApplied];
      ghost var after := TellEach(mods.Keys, AfterInit);
      BuiltTidy(mods, nextInstance, inits, after);
      ok := true;
    }

    /** The session's destructor: every mod is told, the hooks go, then every mod is uninitialized and released. */
    method TearDown() returns (ghost before: seq<Event>, ghost uninit: seq<Event>, ghost released: seq<Event>)
      requires Settled()
      modifies this`mods, this`trace
      ensures mods == map[] && Settled()
      ensures trace == old(trace) + before + [HooksDisabled] + uninit + released
      ensures Each(before, Instances(old(mods), old(mods).Keys), BeforeUninit)
      ensures Each(uninit, Instances(old(mods), old(mods).Keys), Uninit)
      ensures Each(released, Instances(old(mods), old(mods).Keys), Release)
    {
      ghost var s := Snapshot();
      before := TellEach(mods.Keys, BeforeUninit);
      trace := trace + [HooksDisabled];
      uninit := TellEach(mods.Keys, Uninit);
      assert mods.Keys - {} == mods.Keys;
      released := RemoveLeaving({}, {});
      TornDownTidy(s, before, uninit, released);
    }

    /** A whole session, with any number of reloads. */
    method Life(env: Env, injectorFails: bool, reloads: seq<Env>) returns (ok: bool)
      requires mods == map[] && nextInstance == 0 && trace == [] && UniqueNames(env.enumerated)
      requires forall k :: 0 <= k < |reloads| ==> UniqueNames(reloads[k].enumerated)
      modifies this
      ensures mods == map[] && ok == (!env.enumThrows && !injectorFails)
      ensures forall inst: nat ::
        if inst >= nextInstance then CallsOf(trace, inst) == []
        else if ok then FullLife(CallsOf(trace, inst))
        else CutShort(CallsOf(trace, inst))
    {
      ok := Build(env, injectorFails);
      if !ok { return; }
      for k := 0 to |reloads|
        invariant Settled()
      {
        ghost var g := ReloadModsAndSettings(reloads[k]);
      }
      ghost var before, uninit, released := TearDown();
      AllGone(nextInstance, trace);
    }
  }

  method InAnyOrder(names: set<string>) returns (order: seq<string>)
    ensures Names(order) == names && UniqueNames(order)
  {
    order := [];
    var todo := names;
    while todo != {}
      invariant todo <= names && Names(order) == names - todo && UniqueNames(order)
    {
      var name :| name in todo;
      assert name !in Names(order) && Names(order + [name]) == Names(order) + {name};
      order := order + [name];
      todo := todo - {name};
    }
  }
}
