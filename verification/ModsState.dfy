/**
  The mods of one process: which are in the map, which of these have a loaded instance, and what
  the instances are told while the manager is built, reloads and is torn down. What configuration
  storage, library loading and the mods' own callbacks answer is given from outside and may be
  anything, a storage exception included.
 */
module ModsState {
  import opened Text
  import opened ModTrace

  /** `loaded` names the instance; the library name and the change time are those last read. */
  datatype Mod = Mod(libraryFileName: string, settingsChangeTime: int, loaded: Option<nat>)

  const FreshMod := Mod("", 0, None)

  /** What `Mod::Load` meets; None stands for a storage exception. */
  datatype LoadRead = LoadRead(
    libraryFileName: Option<string>, settingsChangeTime: Option<int>, otherValues: bool,
    libraryLoads: bool, initResult: bool)

  predicate Constructs(mod: Mod, r: LoadRead) {
    && mod.loaded.None?
    && r.libraryFileName.Some? && r.libraryFileName.value != ""
    && r.settingsChangeTime.Some? && r.otherValues && r.libraryLoads
  }

  function LoadMod(mod: Mod, r: LoadRead, inst: nat): Mod {
    if mod.loaded.Some? || r.libraryFileName.None? then mod
    else
      var named := mod.(libraryFileName := r.libraryFileName.value);
      if r.libraryFileName.value == "" || r.settingsChangeTime.None? then named
      else
        var timed := named.(settingsChangeTime := r.settingsChangeTime.value);
        if Constructs(mod, r) && r.initResult then timed.(loaded := Some(inst)) else timed
  }

  /** What `Mod::ApplyChangedSettings` meets, the answer of the mod's callback included. */
  datatype ApplyRead = ApplyRead(
    libraryFileName: Option<string>, settingsChangeTime: Option<int>, loggingValues: bool,
    accepted: bool, wantsReload: bool)

  datatype Applied = Threw | Unload | Reload | Keep

  predicate CallsSettingsChanged(mod: Mod, r: ApplyRead) {
    && r.libraryFileName == Some(mod.libraryFileName)
    && r.settingsChangeTime.Some? && r.settingsChangeTime.value != mod.settingsChangeTime
    && mod.loaded.Some?
  }

  function AppliedResult(mod: Mod, r: ApplyRead): Applied {
    if r.libraryFileName.None? then Threw
    else if r.libraryFileName.value != mod.libraryFileName then Reload
    else if r.settingsChangeTime.None? then Threw
    else if r.settingsChangeTime.value != mod.settingsChangeTime && mod.loaded.None? then Reload
    else if CallsSettingsChanged(mod, r) && !r.accepted then Unload
    else if mod.loaded.Some? && !r.loggingValues then Threw
    else if CallsSettingsChanged(mod, r) && r.wantsReload then Reload
    else Keep
  }

  function AppliedMod(mod: Mod, r: ApplyRead): Mod {
    if r.libraryFileName == Some(mod.libraryFileName) && r.settingsChangeTime.Some?
    then mod.(settingsChangeTime := r.settingsChangeTime.value)
    else mod
  }

  /** Everything a build or a reload meets, by mod name. `EnumMods` gives unique names. */
  datatype Env = Env(
    enumerated: seq<string>,
    enumThrows: bool,
    shouldLoad: string -> Option<bool>,
    apply: string -> ApplyRead,
    load: string -> LoadRead)

  predicate UniqueNames(names: seq<string>) {
    forall i, j :: 0 <= i < j < |names| ==> names[i] != names[j]
  }

  /** What a reload decides for a name. */
  datatype Decision = Drop | KeepLoaded | KeepUnloaded | Load

  function Decide(mods: map<string, Mod>, env: Env, name: string): Decision {
    if name !in env.enumerated || env.shouldLoad(name) != Some(true) then Drop
    else if name !in mods then Load
    else match AppliedResult(mods[name], env.apply(name))
      case Threw => Drop
      case Unload => KeepUnloaded
      case Reload => Load
      case Keep => KeepLoaded
  }

  /** Whether the reload asks the mod at all whether its settings changed. */
  predicate Asked(mods: map<string, Mod>, env: Env, name: string) {
    name in env.enumerated && env.shouldLoad(name) == Some(true) && name in mods
  }

  /** The entry that a reload leaves, up to the identity of a new instance. */
  function Entry(mods: map<string, Mod>, env: Env, name: string, inst: nat): Mod
    requires Decide(mods, env, name) != Drop
  {
    match Decide(mods, env, name)
    case KeepLoaded => AppliedMod(mods[name], env.apply(name))
    case KeepUnloaded => AppliedMod(mods[name], env.apply(name)).(loaded := None)
    case _ => LoadMod(FreshMod, env.load(name), inst)
  }

  predicate SameEntry(a: Mod, b: Mod) {
    && a.libraryFileName == b.libraryFileName && a.settingsChangeTime == b.settingsChangeTime
    && a.loaded.Some? == b.loaded.Some?
  }

  // ---------------------------------------------------------------- instances

  ghost function Instances(mods: map<string, Mod>, names: set<string>): set<nat> {
    set n | n in mods && n in names && mods[n].loaded.Some? :: mods[n].loaded.value
  }

  ghost predicate Distinct(mods: map<string, Mod>) {
    forall a, b :: a in mods && b in mods && a != b && mods[a].loaded.Some? ==> mods[a].loaded != mods[b].loaded
  }

  ghost predicate Below(mods: map<string, Mod>, next: nat) {
    forall n :: n in mods && mods[n].loaded.Some? ==> mods[n].loaded.value < next
  }

  /** Between operations every instance is ready or gone. */
  ghost predicate Tidy(mods: map<string, Mod>, next: nat, trace: seq<Event>) {
    && Distinct(mods) && Below(mods, next)
    && forall inst: nat :: PhaseOf(trace, inst)
         == if inst in Instances(mods, mods.Keys) then Ready else if inst < next then Gone else Absent
  }

  /** The mods of the map whose callback a reload calls. */
  ghost function Called(mods: map<string, Mod>, env: Env): set<string> {
    set n | n in mods && Asked(mods, env, n) && CallsSettingsChanged(mods[n], env.apply(n))
  }

  /** The map after these names have been asked about changed settings. */
  ghost function Asking(mods: map<string, Mod>, env: Env, names: seq<string>): map<string, Mod> {
    map n | n in mods ::
      if n in names && Asked(mods, env, n) then AppliedMod(mods[n], env.apply(n)) else mods[n]
  }

  /** The callbacks that this takes. */
  ghost function AskingCalls(mods: map<string, Mod>, env: Env, names: seq<string>): seq<Event> {
    if names == [] then []
    else
      var n := names[|names| - 1];
      AskingCalls(mods, env, names[..|names| - 1])
      + if n in Called(mods, env) then [Call(mods[n].loaded.value, SettingsChanged)] else []
  }

  lemma {:induction false} AskingCallsEach(mods: map<string, Mod>, env: Env, names: seq<string>)
    requires Distinct(mods) && UniqueNames(names)
    ensures Each(AskingCalls(mods, env, names), Instances(mods, Called(mods, env) * Names(names)), SettingsChanged)
    ensures Names(names) >= Called(mods, env) ==> Called(mods, env) * Names(names) == Called(mods, env)
  {
    if names != [] {
      var n, rest := names[|names| - 1], names[..|names| - 1];
      AskingCallsEach(mods, env, rest);
      var told := Called(mods, env) * Names(rest);
      if n in Called(mods, env) {
        assert Called(mods, env) * Names(names) == told + {n};
        ToldOneMore(mods, told, n, AskingCalls(mods, env, rest), SettingsChanged);
      } else {
        assert Called(mods, env) * Names(names) == told;
        assert AskingCalls(mods, env, names) == AskingCalls(mods, env, rest);
      }
    }
  }

  ghost function Sorted(mods: map<string, Mod>, env: Env, names: seq<string>, d: Decision): set<string> {
    set n | n in names && Decide(mods, env, n) == d
  }

  /** The map after these names have left; some of them stay as entries without an instance. */
  ghost function Removing(mods: map<string, Mod>, leaving: set<string>, keepUnloaded: set<string>): map<string, Mod> {
    map n | n in mods && (n in leaving ==> n in keepUnloaded) ::
      if n in leaving then mods[n].(loaded := None) else mods[n]
  }

  lemma RemovingOneMore(mods: map<string, Mod>, leaving: set<string>, keepUnloaded: set<string>, name: string)
    requires name in mods && name !in leaving
    ensures
      var r := Removing(mods, leaving, keepUnloaded);
      && name in r && r[name] == mods[name]
      && Removing(mods, leaving + {name}, keepUnloaded)
         == if name in keepUnloaded then r[name := mods[name].(loaded := None)] else r - {name}
  {
  }

  lemma AskingOneMore(mods: map<string, Mod>, env: Env, names: seq<string>, name: string)
    requires name !in names
    ensures
      var r := Asking(mods, env, names);
      Asking(mods, env, names + [name])
      == if Asked(mods, env, name) then r[name := AppliedMod(mods[name], env.apply(name))] else r
  {
  }

  /** The three collections that the first loop of a reload fills. */
  datatype Plan = Plan(keepLoaded: set<string>, keepUnloaded: set<string>, toLoad: seq<string>)

  function Add(plan: Plan, d: Decision, name: string): Plan {
    match d
    case Drop => plan
    case KeepLoaded => plan.(keepLoaded := plan.keepLoaded + {name})
    case KeepUnloaded => plan.(keepUnloaded := plan.keepUnloaded + {name})
    case Load => plan.(toLoad := plan.toLoad + [name])
  }

  function Names(names: seq<string>): set<string> { set n | n in names }

  ghost predicate Follows(plan: Plan, mods: map<string, Mod>, env: Env, names: seq<string>) {
    && plan.keepLoaded == Sorted(mods, env, names, KeepLoaded)
    && plan.keepUnloaded == Sorted(mods, env, names, KeepUnloaded)
    && Names(plan.toLoad) == Sorted(mods, env, names, Load)
    && UniqueNames(plan.toLoad)
  }

  lemma PlanOneMore(plan: Plan, mods: map<string, Mod>, env: Env, names: seq<string>, name: string)
    requires Follows(plan, mods, env, names) && name !in names
    ensures Follows(Add(plan, Decide(mods, env, name), name), mods, env, names + [name])
  {
    forall d ensures Sorted(mods, env, names + [name], d)
                  == Sorted(mods, env, names, d) + if Decide(mods, env, name) == d then {name} else {}
    {
    }
    assert name !in Names(plan.toLoad);
    assert Names(plan.toLoad + [name]) == Names(plan.toLoad) + {name};
  }

  /** Of the instances created in between, these are started and the others are gone again. */
  ghost predicate PhasesOfNew(before: seq<Event>, trace: seq<Event>, from: nat, next: nat, started: set<nat>) {
    forall inst: nat :: PhaseOf(trace, inst) ==
      if from <= inst < next then (if inst in started then Started else Gone) else PhaseOf(before, inst)
  }

  /** The calls that loading takes. */
  function LoadCalls(mod: Mod, r: LoadRead, inst: nat): seq<Event> {
    if !Constructs(mod, r) then []
    else if r.initResult then [Call(inst, InitTrue)]
    else [Call(inst, InitFalse), Call(inst, Release)]
  }

  lemma PhaseAfterLoad(trace: seq<Event>, r: LoadRead, next: nat, inst: nat)
    requires PhaseOf(trace, next) == Absent
    ensures PhaseOf(trace + LoadCalls(FreshMod, r, next), inst) ==
      if inst == next && Constructs(FreshMod, r) then (if r.initResult then Started else Gone)
      else PhaseOf(trace, inst)
  {
    if !Constructs(FreshMod, r) {
      assert trace + LoadCalls(FreshMod, r, next) == trace;
    } else if r.initResult {
      PhaseAfterOther(trace, Call(next, InitTrue), inst);
    } else {
      var first := trace + [Call(next, InitFalse)];
      PhaseAfterOther(trace, Call(next, InitFalse), inst);
      PhaseAfterOther(first, Call(next, Release), inst);
      assert trace + LoadCalls(FreshMod, r, next) == first + [Call(next, Release)];
    }
  }

  lemma InstancesOneMore(mods: map<string, Mod>, names: seq<string>, name: string, mod: Mod)
    requires name in mods && name !in names
    ensures Instances(mods[name := mod], Names(names + [name]))
         == Instances(mods, Names(names)) + if mod.loaded.Some? then {mod.loaded.value} else {}
  {
    var mods' := mods[name := mod];
    assert Names(names + [name]) == Names(names) + {name};
    forall i | i in Instances(mods, Names(names)) ensures i in Instances(mods', Names(names + [name])) {
      var n :| n in mods && n in Names(names) && mods[n].loaded.Some? && mods[n].loaded.value == i;
      assert mods'[n] == mods[n];
    }
    assert mods'[name] == mod;
  }

  lemma PhasesOneMore(
    before: seq<Event>, trace: seq<Event>, from: nat, mods: map<string, Mod>, names: seq<string>, name: string,
    r: LoadRead, next: nat)
    requires Below(mods, next) && from <= next
    requires PhasesOfNew(before, trace, from, next, Instances(mods, Names(names)))
    requires PhaseOf(before, next) == Absent
    requires name in mods && name !in names && mods[name] == FreshMod
    ensures
      var mods' := mods[name := LoadMod(FreshMod, r, next)];
      PhasesOfNew(before, trace + LoadCalls(FreshMod, r, next), from, next + (if Constructs(FreshMod, r) then 1 else 0),
                  Instances(mods', Names(names + [name])))
  {
    var mods' := mods[name := LoadMod(FreshMod, r, next)];
    InstancesOneMore(mods, names, name, mods'[name]);
    assert Instances(mods', Names(names + [name]))
        == Instances(mods, Names(names)) + if Constructs(FreshMod, r) && r.initResult then {next} else {};
    forall inst: nat { PhaseAfterLoad(trace, r, next, inst); }
  }

  // ---------------------------------------------------------------- loading

  /** The map, the number of instances so far, and what these were told. */
  datatype State = State(mods: map<string, Mod>, next: nat, trace: seq<Event>)

  function LoadStep(s: State, env: Env, name: string): State {
    if name !in s.mods then s
    else
      var r := env.load(name);
      State(s.mods[name := LoadMod(s.mods[name], r, s.next)],
            s.next + (if Constructs(s.mods[name], r) then 1 else 0),
            s.trace + LoadCalls(s.mods[name], r, s.next))
  }

  /** Loads these mods one after the other. */
  function LoadAll(s: State, env: Env, names: seq<string>): State {
    if names == [] then s
    else LoadStep(LoadAll(s, env, names[..|names| - 1]), env, names[|names| - 1])
  }

  /** Every name has an entry as `Mod::Load` leaves it, the others are as before. */
  ghost predicate LoadedFresh(before: map<string, Mod>, mods: map<string, Mod>, env: Env, names: seq<string>, from: nat) {
    && mods.Keys == before.Keys
    && (forall n :: n in before && n !in names ==> mods[n] == before[n])
    && (forall n :: n in names ==>
          && n in mods
          && SameEntry(mods[n], LoadMod(FreshMod, env.load(n), 0))
          && (mods[n].loaded.Some? ==> mods[n].loaded.value >= from))
  }

  /** Only a new instance's initialization and, if that failed, its release. */
  predicate OnlyInits(calls: seq<Event>, from: nat) {
    forall k :: 0 <= k < |calls| ==>
      calls[k].Call? && calls[k].inst >= from && calls[k].kind in {InitTrue, InitFalse, Release}
  }

  /** What loading a list of fresh entries amounts to. */
  ghost predicate Loaded(s: State, t: State, env: Env, names: seq<string>) {
    && t.next >= s.next && Distinct(t.mods) && Below(t.mods, t.next)
    && LoadedFresh(s.mods, t.mods, env, names, s.next)
    && PhasesOfNew([], t.trace, s.next, t.next, Instances(t.mods, Names(names)))
    && OnlyInits(t.trace, s.next)
    && ((forall n :: n in names ==> !Constructs(FreshMod, env.load(n))) ==> t.trace == [])
  }

  lemma LoadedOneMore(
    before: map<string, Mod>, mods: map<string, Mod>, env: Env, names: seq<string>, from: nat, name: string, inst: nat)
    requires LoadedFresh(before, mods, env, names, from)
    requires name in before && name !in names && inst >= from
    ensures LoadedFresh(before, mods[name := LoadMod(FreshMod, env.load(name), inst)], env, names + [name], from)
  {
  }

  lemma StillDistinct(mods: map<string, Mod>, next: nat, name: string, mod: Mod, made: nat)
    requires Distinct(mods) && Below(mods, next) && (mod.loaded.None? || (mod.loaded == Some(next) && made == 1))
    ensures Distinct(mods[name := mod]) && Below(mods[name := mod], next + made)
  {
  }

  lemma LoadStepLoads(s: State, t: State, env: Env, names: seq<string>, name: string)
    requires name !in names && name in s.mods && s.mods[name] == FreshMod
    requires Loaded(s, t, env, names)
    ensures Loaded(s, LoadStep(t, env, name), env, names + [name])
  {
    var r := env.load(name);
    assert t.mods[name] == FreshMod;
    PhasesOneMore([], t.trace, s.next, t.mods, names, name, r, t.next);
    LoadedOneMore(s.mods, t.mods, env, names, s.next, name, t.next);
    StillDistinct(t.mods, t.next, name, LoadMod(FreshMod, r, t.next), if Constructs(FreshMod, r) then 1 else 0);
    OnlyInitsMore(t.trace, r, t.next, s.next);
    assert forall n :: n in names + [name] <==> n in names || n == name;
  }

  lemma OnlyInitsMore(trace: seq<Event>, r: LoadRead, inst: nat, from: nat)
    requires OnlyInits(trace, from) && inst >= from
    ensures OnlyInits(trace + LoadCalls(FreshMod, r, inst), from)
  {
  }

  lemma {:induction false} LoadAllLoads(s: State, env: Env, names: seq<string>)
    requires UniqueNames(names) && Distinct(s.mods) && Below(s.mods, s.next) && s.trace == []
    requires forall n :: n in names ==> n in s.mods && s.mods[n] == FreshMod
    ensures Loaded(s, LoadAll(s, env, names), env, names)
  {
    if names != [] {
      var before, name := names[..|names| - 1], names[|names| - 1];
      assert names == before + [name];
      LoadAllLoads(s, env, before);
      LoadStepLoads(s, LoadAll(s, env, before), env, before, name);
    }
  }

  lemma DecideSame(mods: map<string, Mod>, before: map<string, Mod>, env: Env, name: string)
    requires name in mods <==> name in before
    requires name in mods ==> mods[name] == before[name]
    ensures Decide(mods, env, name) == Decide(before, env, name)
    ensures Asked(mods, env, name) <==> Asked(before, env, name)
    ensures name in Called(mods, env) <==> name in Called(before, env)
  {
  }

  /** What the first loop of a reload has come to when it has seen these names. */
  ghost predicate SortedSoFar(
    before: map<string, Mod>, env: Env, seen: seq<string>, mods: map<string, Mod>, plan: Plan, seg: seq<Event>)
  {
    mods == Asking(before, env, seen) && Follows(plan, before, env, seen) && seg == AskingCalls(before, env, seen)
  }

  lemma SortOneMore(
    before: map<string, Mod>, env: Env, seen: seq<string>, name: string, mods: map<string, Mod>, plan: Plan, seg: seq<Event>)
    requires name !in seen && SortedSoFar(before, env, seen, mods, plan, seg)
    ensures
      var asked := if Asked(mods, env, name) then mods[name := AppliedMod(mods[name], env.apply(name))] else mods;
      var more := if name in Called(mods, env) then [Call(mods[name].loaded.value, SettingsChanged)] else [];
      SortedSoFar(before, env, seen + [name], asked, Add(plan, Decide(mods, env, name), name), seg + more)
  {
    DecideSame(mods, before, env, name);
    AskingOneMore(before, env, seen, name);
    PlanOneMore(plan, before, env, seen, name);
    assert (seen + [name])[..|seen|] == seen;
  }

  lemma SortedAll(before: map<string, Mod>, env: Env, names: seq<string>, mods: map<string, Mod>, plan: Plan, seg: seq<Event>)
    requires SortedSoFar(before, env, names, mods, plan, seg) && names == env.enumerated
    requires Distinct(before) && UniqueNames(env.enumerated)
    ensures mods == Asking(before, env, env.enumerated) && Follows(plan, before, env, env.enumerated)
    ensures Each(seg, Instances(before, Called(before, env)), SettingsChanged)
  {
    AskingCallsEach(before, env, env.enumerated);
  }

  lemma ToldOneMore(mods: map<string, Mod>, done: set<string>, name: string, seg: seq<Event>, kind: Kind)
    requires Distinct(mods) && name in mods && name !in done && mods[name].loaded.Some?
    requires Each(seg, Instances(mods, done), kind)
    ensures Each(seg + [Call(mods[name].loaded.value, kind)], Instances(mods, done + {name}), kind)
  {
    var inst := mods[name].loaded.value;
    assert inst !in Instances(mods, done);
    assert Instances(mods, done + {name}) == Instances(mods, done) + {inst};
    EachOneMore(seg, Instances(mods, done), kind, inst);
  }

  // ---------------------------------------------------------------- a whole reload

  /** What the instances are told in the stages of a reload. */
  datatype Stages = Stages(
    asked: seq<Event>, before: seq<Event>, uninit: seq<Event>, released: seq<Event>, inits: seq<Event>,
    after: seq<Event>)

  ghost function Leaving(mods: map<string, Mod>, env: Env): set<string> {
    set n | n in mods && Decide(mods, env, n) != KeepLoaded
  }

  ghost function Staying(mods: map<string, Mod>, env: Env): set<string> {
    set n | n in env.enumerated && Decide(mods, env, n) != Drop
  }

  function Told(trace: seq<Event>, g: Stages): seq<Event> {
    trace + g.asked + g.before + [HooksApplied] + g.uninit + g.released + g.inits + [HooksApplied] + g.after
  }

  /**
    From `s` to `t`: whose settings changed is asked first; all leaving mods are told, then all hooks
    are applied at once, then all are uninitialized, then all are released; only then new instances
    are made, and these are told once the hooks are applied again.
   */
  ghost predicate Reloads(s: State, env: Env, t: State, g: Stages) {
    var leaving := Leaving(s.mods, env);
    && t.trace == Told(s.trace, g)
    && Each(g.asked, Instances(s.mods, Called(s.mods, env)), SettingsChanged)
    && Each(g.before, Instances(s.mods, leaving), BeforeUninit)
    && Each(g.uninit, Instances(s.mods, leaving), Uninit)
    && Each(g.released, Instances(s.mods, leaving), Release)
    && OnlyInits(g.inits, s.next)
    && Each(g.after, Instances(t.mods, Sorted(s.mods, env, env.enumerated, Load)), AfterInit)
    && t.next >= s.next
    && PhasesOfNew([], g.inits, s.next, t.next, Instances(t.mods, Sorted(s.mods, env, env.enumerated, Load)))
    && Outcome(s, env, t)
    && ((forall n :: n in Sorted(s.mods, env, env.enumerated, Load) ==> !Constructs(FreshMod, env.load(n)))
        ==> g.inits == [])
  }

  /** The entries that a reload leaves. */
  ghost predicate Outcome(s: State, env: Env, t: State) {
    && t.mods.Keys == Staying(s.mods, env)
    && Distinct(t.mods) && Below(t.mods, t.next)
    && forall n :: n in t.mods ==>
         && SameEntry(t.mods[n], Entry(s.mods, env, n, 0))
         && (Decide(s.mods, env, n) == KeepLoaded ==> t.mods[n].loaded == s.mods[n].loaded)
         && (Decide(s.mods, env, n) == Load && t.mods[n].loaded.Some? ==> t.mods[n].loaded.value >= s.next)
  }

  lemma {:induction false} PhaseConcat(a: seq<Event>, b: seq<Event>, inst: nat)
    ensures PhaseOf(a, inst) == Absent ==> PhaseOf(a + b, inst) == PhaseOf(b, inst)
    ensures PhaseOf(b, inst) == Absent ==> PhaseOf(a + b, inst) == PhaseOf(a, inst)
  {
    if b == [] {
      assert a + b == a;
    } else {
      assert (a + b)[..|a + b| - 1] == a + b[..|b| - 1];
      PhaseConcat(a, b[..|b| - 1], inst);
    }
  }

  function AdvanceIf(p: Phase, k: Kind, c: bool): Phase { if c then Advance(p, k) else p }

  /** What becomes of an instance that was there before. */
  function LeavingPhase(p: Phase, asked: bool, leaving: bool): Phase {
    var q := AdvanceIf(p, SettingsChanged, asked);
    AdvanceIf(AdvanceIf(AdvanceIf(q, BeforeUninit, leaving), Uninit, leaving), Release, leaving)
  }

  lemma PhaseWhenReleased(trace: seq<Event>, g: Stages, asked: set<nat>, leaving: set<nat>, inst: nat)
    requires Each(g.asked, asked, SettingsChanged)
    requires Each(g.before, leaving, BeforeUninit)
    requires Each(g.uninit, leaving, Uninit)
    requires Each(g.released, leaving, Release)
    ensures PhaseOf(trace + g.asked + g.before + [HooksApplied] + g.uninit + g.released, inst)
         == LeavingPhase(PhaseOf(trace, inst), inst in asked, inst in leaving)
  {
    var t1 := trace + g.asked;
    var t2 := t1 + g.before;
    var t3 := t2 + [HooksApplied];
    PhaseAfterEach(trace, g.asked, asked, SettingsChanged, inst);
    PhaseAfterEach(t1, g.before, leaving, BeforeUninit, inst);
    PhaseAfterOther(t2, HooksApplied, inst);
    PhaseAfterEach(t3, g.uninit, leaving, Uninit, inst);
    PhaseAfterEach(t3 + g.uninit, g.released, leaving, Release, inst);
  }

  lemma PhaseWhenTold(trace: seq<Event>, inits: seq<Event>, after: seq<Event>, created: set<nat>, inst: nat)
    requires Each(after, created, AfterInit)
    requires PhaseOf(trace, inst) == Absent || PhaseOf(inits, inst) == Absent
    ensures PhaseOf(trace + inits + [HooksApplied] + after, inst)
         == AdvanceIf(if PhaseOf(inits, inst) == Absent then PhaseOf(trace, inst) else PhaseOf(inits, inst),
                      AfterInit, inst in created)
  {
    PhaseConcat(trace, inits, inst);
    PhaseAfterOther(trace + inits, HooksApplied, inst);
    PhaseAfterEach(trace + inits + [HooksApplied], after, created, AfterInit, inst);
  }

  /** What the two lemmas above come to. */
  lemma PhaseByCases(
    p: Phase, made: Phase, was: bool, asked: bool, leaving: bool, created: bool, below: bool, recent: bool)
    requires p == (if was then Ready else if below then Gone else Absent)
    requires made == if recent then (if created then Started else Gone) else Absent
    requires (leaving || asked ==> was) && (was ==> below) && (created ==> recent) && !(recent && below)
    ensures AdvanceIf(if made == Absent then LeavingPhase(p, asked, leaving) else made, AfterInit, created)
         == if (was && !leaving) || created then Ready else if below || recent then Gone else Absent
  {
  }

  lemma ReloadStages(s: State, env: Env, t: State, g: Stages, inst: nat)
    requires Distinct(s.mods) && Below(s.mods, s.next) && Reloads(s, env, t, g)
    requires inst < s.next || PhaseOf(s.trace, inst) == Absent
    ensures
      var created := inst in Instances(t.mods, Sorted(s.mods, env, env.enumerated, Load));
      var asked := inst in Instances(s.mods, Called(s.mods, env));
      var leaving := inst in Instances(s.mods, Leaving(s.mods, env));
      var made := if s.next <= inst < t.next then (if created then Started else Gone) else Absent;
      PhaseOf(t.trace, inst)
      == AdvanceIf(if made == Absent then LeavingPhase(PhaseOf(s.trace, inst), asked, leaving) else made,
                   AfterInit, created)
  {
    var created := Instances(t.mods, Sorted(s.mods, env, env.enumerated, Load));
    var asked, leaving := Instances(s.mods, Called(s.mods, env)), Instances(s.mods, Leaving(s.mods, env));
    var released := s.trace + g.asked + g.before + [HooksApplied] + g.uninit + g.released;
    assert PhaseOf([], inst) == Absent;
    assert PhaseOf(g.inits, inst)
        == if s.next <= inst < t.next then (if inst in created then Started else Gone) else Absent;
    PhaseWhenReleased(s.trace, g, asked, leaving, inst);
    assert PhaseOf(released, inst) == Absent || PhaseOf(g.inits, inst) == Absent by {
      WhoIsThere(s, env, t, inst);
    }
    PhaseWhenTold(released, g.inits, g.after, created, inst);
  }

  lemma ReloadPhase(s: State, env: Env, t: State, g: Stages, inst: nat)
    requires Tidy(s.mods, s.next, s.trace) && Reloads(s, env, t, g)
    ensures PhaseOf(t.trace, inst)
         == if inst in Instances(t.mods, t.mods.Keys) then Ready else if inst < t.next then Gone else Absent
  {
    var created := inst in Instances(t.mods, Sorted(s.mods, env, env.enumerated, Load));
    var asked := inst in Instances(s.mods, Called(s.mods, env));
    var leaving := inst in Instances(s.mods, Leaving(s.mods, env));
    var was := inst in Instances(s.mods, s.mods.Keys);
    var recent := s.next <= inst < t.next;
    WhoIsThere(s, env, t, inst);
    ReloadStages(s, env, t, g, inst);
    PhaseByCases(PhaseOf(s.trace, inst), if recent then (if created then Started else Gone) else Absent,
                 was, asked, leaving, created, inst < s.next, recent);
  }

  /** After a reload, too, every instance is ready or gone. */
  lemma ReloadKeepsTidy(s: State, env: Env, t: State, g: Stages)
    requires Tidy(s.mods, s.next, s.trace) && Reloads(s, env, t, g)
    ensures Tidy(t.mods, t.next, t.trace)
  {
    forall inst: nat { ReloadPhase(s, env, t, g, inst); }
  }

  /** An instance of the map after a reload is a kept one or a new one, and never both. */
  lemma WhoIsThere(s: State, env: Env, t: State, inst: nat)
    requires Distinct(s.mods) && Below(s.mods, s.next) && t.next >= s.next && Outcome(s, env, t)
    ensures inst in Instances(t.mods, t.mods.Keys) <==>
      || (inst in Instances(s.mods, s.mods.Keys) && inst !in Instances(s.mods, Leaving(s.mods, env)))
      || inst in Instances(t.mods, Sorted(s.mods, env, env.enumerated, Load))
    ensures inst in Instances(t.mods, Sorted(s.mods, env, env.enumerated, Load)) ==> s.next <= inst < t.next
    ensures inst in Instances(s.mods, s.mods.Keys) ==> inst < s.next
    ensures inst in Instances(s.mods, Leaving(s.mods, env)) ==> inst in Instances(s.mods, s.mods.Keys)
    ensures inst in Instances(s.mods, Called(s.mods, env)) ==> inst in Instances(s.mods, s.mods.Keys)
  {
    if inst in Instances(t.mods, t.mods.Keys) {
      var n :| n in t.mods && t.mods[n].loaded == Some(inst);
      assert Decide(s.mods, env, n) == KeepLoaded || Decide(s.mods, env, n) == Load;
      if Decide(s.mods, env, n) == KeepLoaded { assert s.mods[n].loaded == Some(inst); }
    }
    if inst in Instances(s.mods, s.mods.Keys) && inst !in Instances(s.mods, Leaving(s.mods, env)) {
      var n :| n in s.mods && s.mods[n].loaded == Some(inst);
      assert n !in Leaving(s.mods, env) && n in t.mods && t.mods[n].loaded == Some(inst);
    }
  }

  /** The map when all leaving mods have been erased or unloaded. */
  ghost function Thinned(mods: map<string, Mod>, env: Env): map<string, Mod> {
    Removing(Asking(mods, env, env.enumerated), Leaving(mods, env), Sorted(mods, env, env.enumerated, KeepUnloaded))
  }

  lemma AskingKeepsInstances(mods: map<string, Mod>, env: Env, names: set<string>)
    ensures Instances(Asking(mods, env, env.enumerated), names) == Instances(mods, names)
  {
    var asking := Asking(mods, env, env.enumerated);
    assert forall n :: n in mods ==> asking[n].loaded == mods[n].loaded;
    assert forall i :: i in Instances(mods, names) ==> exists n :: n in mods && n in names && mods[n].loaded == Some(i);
  }

  lemma ThinnedEntries(mods: map<string, Mod>, env: Env)
    ensures forall n :: n in Thinned(mods, env) <==> Decide(mods, env, n) in {KeepLoaded, KeepUnloaded}
    ensures forall n :: n in Thinned(mods, env) ==> Thinned(mods, env)[n] == Entry(mods, env, n, 0)
    ensures forall n :: Decide(mods, env, n) == KeepLoaded ==> Thinned(mods, env)[n].loaded == mods[n].loaded
    ensures Distinct(mods) ==> Distinct(Thinned(mods, env))
  {
  }

  lemma OutcomeOf(s: State, env: Env, toLoad: seq<string>, filled: map<string, Mod>, t: State)
    requires Names(toLoad) == Sorted(s.mods, env, env.enumerated, Load)
    requires filled.Keys == Thinned(s.mods, env).Keys + Names(toLoad)
    requires forall n :: n in Thinned(s.mods, env) ==> filled[n] == Thinned(s.mods, env)[n]
    requires LoadedFresh(filled, t.mods, env, toLoad, s.next) && Distinct(t.mods) && Below(t.mods, t.next)
    ensures Outcome(s, env, t)
  {
    ThinnedEntries(s.mods, env);
    assert forall n :: n in toLoad <==> n in Names(toLoad);
    forall n ensures n in t.mods <==> n in Staying(s.mods, env) {
      assert n in t.mods <==> Decide(s.mods, env, n) in {KeepLoaded, KeepUnloaded, Load};
    }
  }

  lemma PlanFits(mods: map<string, Mod>, env: Env, plan: Plan)
    requires Follows(plan, mods, env, env.enumerated)
    ensures
      var asking := Asking(mods, env, env.enumerated);
      && asking.Keys - plan.keepLoaded == Leaving(mods, env)
      && plan.keepLoaded <= asking.Keys && plan.keepUnloaded <= asking.Keys && plan.keepLoaded !! plan.keepUnloaded
      && Removing(asking, Leaving(mods, env), plan.keepUnloaded) == Thinned(mods, env)
      && Instances(asking, Leaving(mods, env)) == Instances(mods, Leaving(mods, env))
  {
    AskingKeepsInstances(mods, env, Leaving(mods, env));
    assert forall n :: n in plan.keepLoaded <==> Decide(mods, env, n) == KeepLoaded;
    assert forall n :: n in plan.keepUnloaded <==> Decide(mods, env, n) == KeepUnloaded;
  }

  lemma AskingKeepsTidy(s: State, env: Env, asked: seq<Event>)
    requires Tidy(s.mods, s.next, s.trace) && Each(asked, Instances(s.mods, Called(s.mods, env)), SettingsChanged)
    ensures Tidy(Asking(s.mods, env, env.enumerated), s.next, s.trace + asked)
  {
    AskingKeepsInstances(s.mods, env, s.mods.Keys);
    var asking := Asking(s.mods, env, env.enumerated);
    assert asking.Keys == s.mods.Keys;
    assert forall n :: n in s.mods ==> asking[n].loaded == s.mods[n].loaded;
    assert forall i :: i in Instances(s.mods, Called(s.mods, env)) ==> i in Instances(s.mods, s.mods.Keys);
    forall inst: nat
      ensures PhaseOf(s.trace + asked, inst) == PhaseOf(s.trace, inst)
    {
      PhaseAfterEach(s.trace, asked, Instances(s.mods, Called(s.mods, env)), SettingsChanged, inst);
    }
  }

  // ---------------------------------------------------------------- building and tearing down

  function Wanted(env: Env): set<string> {
    set n | n in env.enumerated && env.shouldLoad(n) == Some(true)
  }

  /** What an instance has seen when the session's construction failed after the mods were loaded. */
  predicate CutShort(calls: seq<Kind>) {
    calls == [InitTrue, Uninit, Release] || calls == [InitFalse, Release]
  }

  lemma BuiltTidy(mods: map<string, Mod>, next: nat, inits: seq<Event>, after: seq<Event>)
    requires Distinct(mods) && Below(mods, next)
    requires PhasesOfNew([], inits, 0, next, Instances(mods, mods.Keys))
    requires Each(after, Instances(mods, mods.Keys), AfterInit)
    ensures Tidy(mods, next, inits + [HooksApplied] + after)
  {
    forall inst: nat
      ensures PhaseOf(inits + [HooksApplied] + after, inst)
           == if inst in Instances(mods, mods.Keys) then Ready else if inst < next then Gone else Absent
    {
      PhaseAfterOther(inits, HooksApplied, inst);
      PhaseAfterEach(inits + [HooksApplied], after, Instances(mods, mods.Keys), AfterInit, inst);
      assert PhaseOf([], inst) == Absent;
    }
  }

  lemma PhaseAfterTearDown(
    trace: seq<Event>, before: seq<Event>, uninit: seq<Event>, released: seq<Event>, all: set<nat>, inst: nat)
    requires Each(before, all, BeforeUninit) && Each(uninit, all, Uninit) && Each(released, all, Release)
    ensures PhaseOf(trace + before + [HooksDisabled] + uninit + released, inst)
      == LeavingPhase(PhaseOf(trace, inst), false, inst in all)
  {
    var t2 := trace + before + [HooksDisabled];
    PhaseAfterEach(trace, before, all, BeforeUninit, inst);
    PhaseAfterOther(trace + before, HooksDisabled, inst);
    PhaseAfterEach(t2, uninit, all, Uninit, inst);
    PhaseAfterEach(t2 + uninit, released, all, Release, inst);
  }

  lemma TornDownTidy(s: State, before: seq<Event>, uninit: seq<Event>, released: seq<Event>)
    requires Tidy(s.mods, s.next, s.trace)
    requires Each(before, Instances(s.mods, s.mods.Keys), BeforeUninit)
    requires Each(uninit, Instances(s.mods, s.mods.Keys), Uninit)
    requires Each(released, Instances(s.mods, s.mods.Keys), Release)
    ensures Tidy(map[], s.next, s.trace + before + [HooksDisabled] + uninit + released)
  {
    var all := Instances(s.mods, s.mods.Keys);
    forall inst: nat
      ensures PhaseOf(s.trace + before + [HooksDisabled] + uninit + released, inst)
           == if inst < s.next then Gone else Absent
    {
      PhaseAfterTearDown(s.trace, before, uninit, released, all, inst);
    }
  }

  lemma AllGone(next: nat, trace: seq<Event>)
    requires Tidy(map[], next, trace)
    ensures forall inst: nat :: if inst >= next then CallsOf(trace, inst) == [] else FullLife(CallsOf(trace, inst))
  {
    forall inst: nat
      ensures if inst >= next then CallsOf(trace, inst) == [] else FullLife(CallsOf(trace, inst))
    {
      if inst < next {
        GoneIsFullLife(trace, inst);
      } else {
        AbsentIsUncalled(trace, inst);
      }
    }
  }

  lemma AbsentIsUncalled(trace: seq<Event>, inst: nat)
    ensures PhaseOf(trace, inst) == Absent ==> CallsOf(trace, inst) == []
  {
    PhaseOfCalls(trace, inst);
    LifeOfPhase(CallsOf(trace, inst));
  }

  lemma {:induction false} CallsAfterEach(trace: seq<Event>, seg: seq<Event>, insts: set<nat>, kind: Kind, inst: nat)
    requires Each(seg, insts, kind)
    ensures CallsOf(trace + seg, inst) == CallsOf(trace, inst) + if inst in insts then [kind] else []
  {
    if seg == [] {
      assert trace + seg == trace;
    } else {
      var e := seg[|seg| - 1];
      assert (trace + seg)[..|trace + seg| - 1] == trace + seg[..|seg| - 1];
      CallsAfterEach(trace, seg[..|seg| - 1], insts - {e.inst}, kind, inst);
    }
  }

  lemma CutShortBuild(inits: seq<Event>, uninit: seq<Event>, released: seq<Event>, next: nat, started: set<nat>)
    requires PhasesOfNew([], inits, 0, next, started) && (forall i :: i in started ==> i < next)
    requires Each(uninit, started, Uninit) && Each(released, started, Release)
    requires OnlyInits(inits, 0)
    ensures forall inst: nat :: inst < next ==> CutShort(CallsOf(inits + uninit + released, inst))
    ensures forall inst: nat :: inst >= next ==> CallsOf(inits + uninit + released, inst) == []
    ensures HooksApplied !in inits + uninit + released
  {
    forall inst: nat
      ensures inst < next ==> CutShort(CallsOf(inits + uninit + released, inst))
      ensures inst >= next ==> CallsOf(inits + uninit + released, inst) == []
    {
      CallsAfterEach(inits, uninit, started, Uninit, inst);
      CallsAfterEach(inits + uninit, released, started, Release, inst);
      PhaseOfCalls(inits, inst);
      LifeOfPhase(CallsOf(inits, inst));
      assert PhaseOf([], inst) == Absent;
      InitsOnly(inits, inst);
    }
    EachCalls(uninit, started, Uninit);
    EachCalls(released, started, Release);
  }

  lemma {:induction false} EachCalls(seg: seq<Event>, insts: set<nat>, kind: Kind)
    requires Each(seg, insts, kind)
    ensures HooksApplied !in seg
  {
    if seg != [] {
      EachCalls(seg[..|seg| - 1], insts - {seg[|seg| - 1].inst}, kind);
    }
  }

  lemma {:induction false} InitsOnly(inits: seq<Event>, inst: nat)
    requires OnlyInits(inits, 0)
    ensures AfterInit !in CallsOf(inits, inst)
    ensures FullLife(CallsOf(inits, inst)) ==> CallsOf(inits, inst) == [InitFalse, Release]
  {
    if inits != [] {
      InitsOnly(inits[..|inits| - 1], inst);
    }
    if FullLife(CallsOf(inits, inst)) { FullLifeIsAnnounced(CallsOf(inits, inst)); }
  }

  lemma FullLifeIsAnnounced(calls: seq<Kind>)
    requires FullLife(calls)
    ensures calls == [InitFalse, Release] || AfterInit in calls
  {
    if calls != [InitFalse, Release] { assert calls[1] == AfterInit; }
  }

  // ---------------------------------------------------------------- convergence

  /** Storage answers, and every read of a mod's configuration sees these values. The mods may still answer anything. */
  ghost predicate Reads(env: Env, library: string -> string, time: string -> int) {
    && !env.enumThrows && UniqueNames(env.enumerated)
    && forall n :: n in env.enumerated ==>
         && env.shouldLoad(n).Some?
         && env.apply(n).libraryFileName == Some(library(n)) && env.load(n).libraryFileName == Some(library(n))
         && env.apply(n).settingsChangeTime == Some(time(n)) && env.load(n).settingsChangeTime == Some(time(n))
         && env.apply(n).loggingValues && env.load(n).otherValues
  }

  /** After one reload the map has exactly the mods that should load, with what the configuration says of them. */
  lemma ReloadConverges(s: State, env: Env, t: State, g: Stages, library: string -> string, time: string -> int)
    requires Reads(env, library, time) && Reloads(s, env, t, g)
    ensures t.mods.Keys == Wanted(env)
    ensures forall n :: n in t.mods ==> t.mods[n].libraryFileName == library(n)
    ensures forall n :: n in t.mods ==>
      (t.mods[n].settingsChangeTime == time(n)
       <==> library(n) != "" || time(n) == 0 || Decide(s.mods, env, n) != Load)
    ensures forall n :: n in t.mods && t.mods[n].loaded.Some? ==> t.mods[n].settingsChangeTime == time(n)
  {
    forall n ensures Decide(s.mods, env, n) != Drop <==> n in Wanted(env) {
    }
    forall n | n in t.mods
      ensures t.mods[n].libraryFileName == library(n)
      ensures t.mods[n].settingsChangeTime == time(n)
        <==> library(n) != "" || time(n) == 0 || Decide(s.mods, env, n) != Load
      ensures t.mods[n].loaded.Some? ==> t.mods[n].settingsChangeTime == time(n)
    {
      EntryRecords(s.mods, env, n, library(n), time(n));
      assert SameEntry(t.mods[n], Entry(s.mods, env, n, 0));
    }
  }

  lemma EntryRecords(mods: map<string, Mod>, env: Env, n: string, library: string, time: int)
    requires env.apply(n).libraryFileName == Some(library) && env.load(n).libraryFileName == Some(library)
    requires env.apply(n).settingsChangeTime == Some(time) && env.load(n).settingsChangeTime == Some(time)
    requires Decide(mods, env, n) != Drop
    ensures
      var e := Entry(mods, env, n, 0);
      && e.libraryFileName == library && (e.loaded.Some? ==> e.settingsChangeTime == time)
      && (e.settingsChangeTime == time <==> library != "" || time == 0 || Decide(mods, env, n) != Load)
  {
  }

  lemma EachOfNone(seg: seq<Event>, insts: set<nat>, kind: Kind)
    requires Each(seg, insts, kind)
    ensures insts == {} ==> seg == []
  {
  }

  /** The next reload of the same configuration calls nothing at all, and no instance changes. */
  lemma SecondReloadIsQuiet(
    s: State, env: Env, t: State, g: Stages, env': Env, u: State, g': Stages,
    library: string -> string, time: string -> int)
    requires Reads(env, library, time) && Reads(env', library, time) && Wanted(env') == Wanted(env)
    requires Reloads(s, env, t, g) && Reloads(t, env', u, g')
    ensures g' == Stages([], [], [], [], [], [])
    ensures u.trace == t.trace + [HooksApplied, HooksApplied] && u.next == t.next
    ensures u.mods.Keys == t.mods.Keys && forall n :: n in u.mods ==> u.mods[n].loaded == t.mods[n].loaded
  {
    ReloadConverges(s, env, t, g, library, time);
    ReloadConverges(t, env', u, g', library, time);
    QuietDecisions(t, env', library, time);
    EachOfNone(g'.asked, Instances(t.mods, Called(t.mods, env')), SettingsChanged);
    EachOfNone(g'.before, Instances(t.mods, Leaving(t.mods, env')), BeforeUninit);
    EachOfNone(g'.uninit, Instances(t.mods, Leaving(t.mods, env')), Uninit);
    EachOfNone(g'.released, Instances(t.mods, Leaving(t.mods, env')), Release);
    assert g'.inits == [];
    QuietEntries(t, env', u, g');
    EachOfNone(g'.after, Instances(u.mods, Sorted(t.mods, env', env'.enumerated, Load)), AfterInit);
  }

  /** With the configuration already recorded, only mods without an instance and without a library are loaded again. */
  lemma QuietDecisions(t: State, env: Env, library: string -> string, time: string -> int)
    requires Reads(env, library, time) && t.mods.Keys == Wanted(env)
    requires forall n :: n in t.mods ==> t.mods[n].libraryFileName == library(n)
    requires forall n :: n in t.mods && (t.mods[n].loaded.Some? || library(n) != "") ==>
      t.mods[n].settingsChangeTime == time(n)
    ensures Called(t.mods, env) == {} && Instances(t.mods, Leaving(t.mods, env)) == {}
    ensures forall n :: n in t.mods ==> Decide(t.mods, env, n) == KeepLoaded || Decide(t.mods, env, n) == Load
    ensures forall n :: n in t.mods && t.mods[n].loaded.Some? ==> Decide(t.mods, env, n) == KeepLoaded
    ensures forall n :: Decide(t.mods, env, n) == Load ==> !Constructs(FreshMod, env.load(n))
  {
    forall n | n in t.mods
      ensures n !in Called(t.mods, env)
      ensures Decide(t.mods, env, n) == KeepLoaded || Decide(t.mods, env, n) == Load
      ensures t.mods[n].loaded.Some? || library(n) != "" ==> Decide(t.mods, env, n) == KeepLoaded
    {
      assert n in Wanted(env);
    }
    forall n | Decide(t.mods, env, n) == Load ensures !Constructs(FreshMod, env.load(n)) {
      assert n in Wanted(env);
    }
    assert forall n :: n in t.mods && n in Leaving(t.mods, env) ==> t.mods[n].loaded.None?;
  }

  lemma QuietEntries(t: State, env: Env, u: State, g: Stages)
    requires Reloads(t, env, u, g) && g.inits == [] && u.mods.Keys == t.mods.Keys
    requires forall n :: n in t.mods ==> Decide(t.mods, env, n) == KeepLoaded || Decide(t.mods, env, n) == Load
    requires forall n :: n in t.mods && t.mods[n].loaded.Some? ==> Decide(t.mods, env, n) == KeepLoaded
    requires forall n :: Decide(t.mods, env, n) == Load ==> !Constructs(FreshMod, env.load(n))
    ensures forall n :: n in u.mods ==> u.mods[n].loaded == t.mods[n].loaded
    ensures u.next == t.next && Instances(u.mods, Sorted(t.mods, env, env.enumerated, Load)) == {}
  {
    forall n | n in u.mods ensures u.mods[n].loaded == t.mods[n].loaded {
      assert SameEntry(u.mods[n], Entry(t.mods, env, n, 0));
    }
    assert PhaseOf([], t.next) == Absent;
    assert PhaseOf(g.inits, t.next) == Absent;
  }
}
