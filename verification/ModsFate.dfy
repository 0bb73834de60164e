/**
  What a reload does to each single mod: told from what storage and the mod itself answer, case by
  case, in terms of the entry that is left and of the calls that the instance has seen.
 */
module ModsFate {
  import opened Text
  import opened ModTrace
  import opened ModsState

  /** A whole reload, from a state between operations. */
  ghost predicate Reload(s: State, env: Env, t: State, g: Stages) {
    Tidy(s.mods, s.next, s.trace) && Reloads(s, env, t, g)
  }

  const Farewell: seq<Kind> := [BeforeUninit, Uninit, Release]

  // ---------------------------------------------------------------- the calls of one instance

  lemma CallsAfterOther(trace: seq<Event>, e: Event, inst: nat)
    requires !e.Call?
    ensures CallsOf(trace + [e], inst) == CallsOf(trace, inst)
  {
    assert (trace + [e])[..|trace|] == trace;
  }

  lemma {:induction false} CallsConcat(a: seq<Event>, b: seq<Event>, inst: nat)
    ensures CallsOf(a + b, inst) == CallsOf(a, inst) + CallsOf(b, inst)
  {
    if b == [] {
      assert a + b == a;
    } else {
      assert (a + b)[..|a + b| - 1] == a + b[..|b| - 1];
      CallsConcat(a, b[..|b| - 1], inst);
    }
  }

  lemma {:induction false} CallsOfEach(seg: seq<Event>, insts: set<nat>, kind: Kind, inst: nat)
    requires Each(seg, insts, kind)
    ensures CallsOf(seg, inst) == if inst in insts then [kind] else []
  {
    CallsAfterEach([], seg, insts, kind, inst);
    assert [] + seg == seg;
  }

  lemma {:induction false} CallsOfInits(inits: seq<Event>, from: nat, inst: nat)
    requires OnlyInits(inits, from) && inst < from
    ensures CallsOf(inits, inst) == []
  {
    if inits != [] { CallsOfInits(inits[..|inits| - 1], from, inst); }
  }

  lemma CallsUpToRelease(trace: seq<Event>, g: Stages, asked: set<nat>, leaving: set<nat>, inst: nat)
    requires Each(g.asked, asked, SettingsChanged) && Each(g.before, leaving, BeforeUninit)
    requires Each(g.uninit, leaving, Uninit) && Each(g.released, leaving, Release)
    ensures CallsOf(trace + g.asked + g.before + [HooksApplied] + g.uninit + g.released, inst)
      == CallsOf(trace, inst) + (if inst in asked then [SettingsChanged] else [])
         + (if inst in leaving then Farewell else [])
  {
    var t1 := trace + g.asked;
    var t3 := t1 + g.before + [HooksApplied];
    CallsAfterEach(trace, g.asked, asked, SettingsChanged, inst);
    CallsAfterEach(t1, g.before, leaving, BeforeUninit, inst);
    CallsAfterOther(t1 + g.before, HooksApplied, inst);
    CallsAfterEach(t3, g.uninit, leaving, Uninit, inst);
    CallsAfterEach(t3 + g.uninit, g.released, leaving, Release, inst);
  }

  lemma CallsFromInits(trace: seq<Event>, inits: seq<Event>, after: seq<Event>, created: set<nat>, inst: nat)
    requires Each(after, created, AfterInit)
    ensures CallsOf(trace + inits + [HooksApplied] + after, inst)
      == CallsOf(trace, inst) + CallsOf(inits, inst) + if inst in created then [AfterInit] else []
  {
    CallsConcat(trace, inits, inst);
    CallsAfterOther(trace + inits, HooksApplied, inst);
    CallsAfterEach(trace + inits + [HooksApplied], after, created, AfterInit, inst);
  }

  /** An instance belongs to one name only. */
  lemma InstanceOf(mods: map<string, Mod>, names: set<string>, n: string)
    requires Distinct(mods) && n in mods && mods[n].loaded.Some?
    ensures mods[n].loaded.value in Instances(mods, names) <==> n in names
  {
  }

  /** What the instance of an entry is told in a reload. */
  lemma OldCalls(s: State, env: Env, t: State, g: Stages, n: string)
    requires Reload(s, env, t, g) && n in s.mods && s.mods[n].loaded.Some?
    ensures
      var inst := s.mods[n].loaded.value;
      CallsOf(t.trace, inst)
      == CallsOf(s.trace, inst) + (if n in Called(s.mods, env) then [SettingsChanged] else [])
         + (if Decide(s.mods, env, n) != KeepLoaded then Farewell else [])
  {
    var inst := s.mods[n].loaded.value;
    var asked, leaving := Instances(s.mods, Called(s.mods, env)), Instances(s.mods, ModsState.Leaving(s.mods, env));
    var created := Instances(t.mods, Sorted(s.mods, env, env.enumerated, Load));
    InstanceOf(s.mods, Called(s.mods, env), n);
    InstanceOf(s.mods, ModsState.Leaving(s.mods, env), n);
    InstanceOf(s.mods, s.mods.Keys, n);
    WhoIsThere(s, env, t, inst);
    CallsUpToRelease(s.trace, g, asked, leaving, inst);
    CallsOfInits(g.inits, s.next, inst);
    CallsFromInits(s.trace + g.asked + g.before + [HooksApplied] + g.uninit + g.released, g.inits, g.after, created, inst);
  }

  /** What a new instance that stays is told: its initialization, and that it is over. */
  lemma NewCalls(s: State, env: Env, t: State, g: Stages, n: string)
    requires Reload(s, env, t, g) && n in t.mods && t.mods[n].loaded.Some? && t.mods[n].loaded.value >= s.next
    ensures CallsOf(t.trace, t.mods[n].loaded.value) == [InitTrue, AfterInit]
  {
    var inst := t.mods[n].loaded.value;
    var created := Instances(t.mods, Sorted(s.mods, env, env.enumerated, Load));
    var released := s.trace + g.asked + g.before + [HooksApplied] + g.uninit + g.released;
    WhoIsThere(s, env, t, inst);
    InstanceOf(t.mods, t.mods.Keys, n);
    var called, leaving := Instances(s.mods, Called(s.mods, env)), Instances(s.mods, ModsState.Leaving(s.mods, env));
    CallsUpToRelease(s.trace, g, called, leaving, inst);
    AbsentIsUncalled(s.trace, inst);
    CallsFromInits(released, g.inits, g.after, created, inst);
    assert PhaseOf([], inst) == Absent;
    assert PhaseOf(g.inits, inst) == Started;
    PhaseOfCalls(g.inits, inst);
    LifeOfPhase(CallsOf(g.inits, inst));
  }

  // ---------------------------------------------------------------- the cases

  /** The mod is enumerated, and storage says that it should be loaded. */
  predicate IsWanted(env: Env, n: string) { n in env.enumerated && env.shouldLoad(n) == Some(true) }

  /** The entry is new, and says what loading it came to; an instance of it has just been initialized. */
  ghost predicate LoadedAnew(s: State, env: Env, t: State, n: string) {
    var r := env.load(n);
    && n in t.mods
    && (t.mods[n].loaded.Some? <==>
          && r.libraryFileName.Some? && r.libraryFileName.value != "" && r.settingsChangeTime.Some?
          && r.otherValues && r.libraryLoads && r.initResult)
    && t.mods[n].libraryFileName == (if r.libraryFileName.Some? then r.libraryFileName.value else "")
    && t.mods[n].settingsChangeTime
       == (if r.libraryFileName.Some? && r.libraryFileName.value != "" && r.settingsChangeTime.Some?
           then r.settingsChangeTime.value else 0)
    && (t.mods[n].loaded.Some? ==>
          t.mods[n].loaded.value >= s.next && CallsOf(t.trace, t.mods[n].loaded.value) == [InitTrue, AfterInit])
  }

  /** The instance of this name, if it has one, has seen these calls more. */
  ghost predicate Saw(s: State, t: State, n: string, more: seq<Kind>) {
    n in s.mods && s.mods[n].loaded.Some? ==>
      CallsOf(t.trace, s.mods[n].loaded.value) == CallsOf(s.trace, s.mods[n].loaded.value) + more
  }

  lemma AnewIfDecided(s: State, env: Env, t: State, g: Stages, n: string)
    requires Reload(s, env, t, g) && Decide(s.mods, env, n) == Load
    ensures LoadedAnew(s, env, t, n)
  {
    assert n in Staying(s.mods, env);
    assert SameEntry(t.mods[n], Entry(s.mods, env, n, 0));
    if t.mods[n].loaded.Some? { NewCalls(s, env, t, g, n); }
  }

  /** A mod that is not to be loaded is told goodbye and erased; if it has no entry it gets none. */
  lemma UnwantedModLeaves(s: State, env: Env, t: State, g: Stages, n: string)
    requires Reload(s, env, t, g) && !IsWanted(env, n)
    ensures n !in t.mods && Saw(s, t, n, [BeforeUninit, Uninit, Release])
  {
    if n in s.mods && s.mods[n].loaded.Some? { OldCalls(s, env, t, g, n); }
  }

  /** A wanted mod without an entry is loaded. */
  lemma NewModIsLoaded(s: State, env: Env, t: State, g: Stages, n: string)
    requires Reload(s, env, t, g) && IsWanted(env, n) && n !in s.mods
    ensures LoadedAnew(s, env, t, n)
  {
    AnewIfDecided(s, env, t, g, n);
  }

  /** With another library the old instance leaves without being asked, and the mod is loaded anew. */
  lemma OtherLibraryIsLoadedAnew(s: State, env: Env, t: State, g: Stages, n: string)
    requires Reload(s, env, t, g) && IsWanted(env, n) && n in s.mods
    requires env.apply(n).libraryFileName.Some? && env.apply(n).libraryFileName.value != s.mods[n].libraryFileName
    ensures LoadedAnew(s, env, t, n) && Saw(s, t, n, [BeforeUninit, Uninit, Release])
  {
    AnewIfDecided(s, env, t, g, n);
    if s.mods[n].loaded.Some? { OldCalls(s, env, t, g, n); }
  }

  /** A mod whose configuration cannot be read is told goodbye and erased. */
  lemma UnreadableModLeaves(s: State, env: Env, t: State, g: Stages, n: string)
    requires Reload(s, env, t, g) && IsWanted(env, n) && n in s.mods
    requires env.apply(n).libraryFileName.None?
      || (env.apply(n).libraryFileName == Some(s.mods[n].libraryFileName) && env.apply(n).settingsChangeTime.None?)
    ensures n !in t.mods && Saw(s, t, n, [BeforeUninit, Uninit, Release])
  {
    if s.mods[n].loaded.Some? { OldCalls(s, env, t, g, n); }
  }

  /** Nothing changed: the entry stays, the same instance stays, and it is told nothing. */
  lemma UnchangedModStays(s: State, env: Env, t: State, g: Stages, n: string)
    requires Reload(s, env, t, g) && IsWanted(env, n) && n in s.mods
    requires env.apply(n).libraryFileName == Some(s.mods[n].libraryFileName)
    requires env.apply(n).settingsChangeTime == Some(s.mods[n].settingsChangeTime)
    requires s.mods[n].loaded.Some? ==> env.apply(n).loggingValues
    ensures n in t.mods && t.mods[n] == s.mods[n] && Saw(s, t, n, [])
  {
    assert Decide(s.mods, env, n) == KeepLoaded;
    assert SameEntry(t.mods[n], Entry(s.mods, env, n, 0));
    if s.mods[n].loaded.Some? { OldCalls(s, env, t, g, n); }
  }

  /** The library is the same and the change time is another one. */
  predicate SettingsMoved(mod: Mod, env: Env, n: string) {
    && env.apply(n).libraryFileName == Some(mod.libraryFileName)
    && env.apply(n).settingsChangeTime.Some? && env.apply(n).settingsChangeTime.value != mod.settingsChangeTime
  }

  /** A mod without an instance is tried again when its settings change. */
  lemma UnloadedModIsTriedAgain(s: State, env: Env, t: State, g: Stages, n: string)
    requires Reload(s, env, t, g) && IsWanted(env, n) && n in s.mods && s.mods[n].loaded.None?
    requires SettingsMoved(s.mods[n], env, n)
    ensures LoadedAnew(s, env, t, n)
  {
    AnewIfDecided(s, env, t, g, n);
  }

  /** A mod that refuses its new settings is unloaded; its entry stays, without an instance and with the new time. */
  lemma RefusingModIsUnloaded(s: State, env: Env, t: State, g: Stages, n: string)
    requires Reload(s, env, t, g) && IsWanted(env, n) && n in s.mods && s.mods[n].loaded.Some?
    requires SettingsMoved(s.mods[n], env, n) && !env.apply(n).accepted
    ensures n in t.mods && t.mods[n].loaded == None
    ensures t.mods[n].libraryFileName == s.mods[n].libraryFileName
    ensures Some(t.mods[n].settingsChangeTime) == env.apply(n).settingsChangeTime
    ensures Saw(s, t, n, [SettingsChanged, BeforeUninit, Uninit, Release])
  {
    assert Decide(s.mods, env, n) == KeepUnloaded;
    assert SameEntry(t.mods[n], Entry(s.mods, env, n, 0));
    OldCalls(s, env, t, g, n);
  }

  /** A mod that accepts them keeps its instance, which is told nothing else, and the new time is recorded. */
  lemma AcceptingModStays(s: State, env: Env, t: State, g: Stages, n: string)
    requires Reload(s, env, t, g) && IsWanted(env, n) && n in s.mods && s.mods[n].loaded.Some?
    requires SettingsMoved(s.mods[n], env, n)
    requires env.apply(n).accepted && !env.apply(n).wantsReload && env.apply(n).loggingValues
    ensures n in t.mods && t.mods[n].loaded == s.mods[n].loaded
    ensures t.mods[n].libraryFileName == s.mods[n].libraryFileName
    ensures Some(t.mods[n].settingsChangeTime) == env.apply(n).settingsChangeTime
    ensures Saw(s, t, n, [SettingsChanged])
  {
    assert Decide(s.mods, env, n) == KeepLoaded;
    assert SameEntry(t.mods[n], Entry(s.mods, env, n, 0));
    OldCalls(s, env, t, g, n);
  }

  /** A mod that asks for it is reloaded: the old instance leaves, and a new one is made. */
  lemma ModThatAsksIsReloaded(s: State, env: Env, t: State, g: Stages, n: string)
    requires Reload(s, env, t, g) && IsWanted(env, n) && n in s.mods && s.mods[n].loaded.Some?
    requires SettingsMoved(s.mods[n], env, n)
    requires env.apply(n).accepted && env.apply(n).wantsReload && env.apply(n).loggingValues
    ensures LoadedAnew(s, env, t, n) && Saw(s, t, n, [SettingsChanged, BeforeUninit, Uninit, Release])
  {
    AnewIfDecided(s, env, t, g, n);
    OldCalls(s, env, t, g, n);
  }

  /** If the logging values cannot be read, a mod that was not unloaded already leaves, asked or not. */
  lemma UnreadableLoggingLeaves(s: State, env: Env, t: State, g: Stages, n: string)
    requires Reload(s, env, t, g) && IsWanted(env, n) && n in s.mods && s.mods[n].loaded.Some?
    requires env.apply(n).libraryFileName == Some(s.mods[n].libraryFileName)
    requires env.apply(n).settingsChangeTime.Some? && !env.apply(n).loggingValues
    requires SettingsMoved(s.mods[n], env, n) ==> env.apply(n).accepted
    ensures n !in t.mods
    ensures Saw(s, t, n, (if SettingsMoved(s.mods[n], env, n) then [SettingsChanged] else [])
                         + [BeforeUninit, Uninit, Release])
  {
    OldCalls(s, env, t, g, n);
  }
}
