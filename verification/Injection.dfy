/**
  Two parties inject into a newly created process: the hook in the parent that creates it, and the
  scanner of the session manager that finds it by enumeration. Both steps and the new process's
  main thread interleave freely. The process is created suspended, has one thread until that thread
  has started, and keeps its copy of the mutex handle while an injection is queued or alive.
 */
module Injection {

  /** How the hook's handling of the new process ended. */
  datatype Outcome = Skipped | CreateFailed | WaitFailed | Waited | Injected | InjectFailed

  datatype Parent =
    | Created                     // the original call has returned, nothing is handled yet
    | Waiting                     // the mutex was there; waiting for it
    | Holding                     // got it, about to release it
    | Injecting                   // created the mutex itself
    | Closing(outcome: Outcome)   // about to close the mutex handle
    | Resuming(outcome: Outcome)  // about to resume the main thread, if the creator wants that
    | Finished(outcome: Outcome)

  datatype Scanner =
    | Idle                        // has not come to this process yet
    | OneThread                   // saw exactly one thread
    | Undoing                     // suspended a thread that was running
    | Suspended                   // suspended a thread that was suspended already
    | LettingGo                   // ... which turned out to have started
    | NotStarted                  // ... which has not started yet
    | Exists                      // the mutex was there
    | Owning                      // created the mutex and owns it; about to inject
    | Owned                       // has injected, or failed to
    | Released
    | Resuming                    // about to give back its own suspension
    | Opening                     // about to look for the mutex
    | Opened                      // found it
    | Remote                      // did not; about to inject with a new thread
    | Done

  datatype Owner = Nobody | TheParent | TheScanner

  datatype State = State(
    keepSuspended: bool,          // the creator asked for a suspended process
    lifted: bool,                 // ... and has resumed it since
    suspendCount: int,
    others: nat,                  // suspensions by third parties
    started: bool,
    owner: Owner,
    parentHandle: bool,
    scannerHandle: bool,
    targetHandles: nat,
    queued: nat,                  // injections waiting for the main thread to start
    live: nat,                    // injections by the main thread that are alive
    remote: nat,                  // injections by a new thread that are alive
    parent: Parent,
    scanner: Scanner)

  function Initial(keepSuspended: bool): State {
    State(keepSuspended, false, 1, 0, false, Nobody, false, false, 0, 0, 0, 0, Created, Idle)
  }

  predicate MutexExists(s: State) { s.parentHandle || s.scannerHandle || s.targetHandles > 0 }

  datatype Step =
    // the hook in the parent
    | PSkip | PCreateFail | PCreate | PWaitFail | PAcquire | PRelease | PInject(ok: bool) | PClose | PResume
    // the scanner
    | SGiveUp | SCount(many: bool) | SSuspend | SUndo | SCheck | SLetGo | SCreateFail | SCreate
    | SInject(ok: bool) | SRelease | SClose | SResume | SOpen | SCloseOpened | SRemote(ok: bool)
    // the rest of the world
    | Start | Lift | OtherSuspend | OtherResume | EndSession | EndRemote

  predicate Enabled(s: State, step: Step) {
    match step
    case PSkip => s.parent.Created?
    case PCreateFail => s.parent.Created?
    case PCreate => s.parent.Created?
    case PWaitFail => s.parent.Waiting?
    case PAcquire => s.parent.Waiting? && s.owner == Nobody
    case PRelease => s.parent.Holding?
    case PInject(_) => s.parent.Injecting?
    case PClose => s.parent.Closing?
    case PResume => s.parent.Resuming?
    case SGiveUp => (s.scanner.Idle? || s.scanner.OneThread? || s.scanner.Suspended?)
    case SCount(many) => s.scanner.Idle? && (many ==> s.started)
    case SSuspend => s.scanner.OneThread?
    case SUndo => s.scanner.Undoing?
    case SCheck => s.scanner.Suspended?
    case SLetGo => s.scanner.LettingGo?
    case SCreateFail => s.scanner.NotStarted?
    case SCreate => s.scanner.NotStarted?
    case SInject(_) => s.scanner.Owning?
    case SRelease => s.scanner.Owned?
    case SClose => (s.scanner.Released? || s.scanner.Exists?)
    case SResume => s.scanner == Scanner.Resuming
    case SOpen => s.scanner.Opening?
    case SCloseOpened => s.scanner.Opened?
    case SRemote(_) => s.scanner.Remote?
    case Start => s.suspendCount == 0 && !s.started
    case Lift => s.parent.Finished? && s.keepSuspended && !s.lifted
    case OtherSuspend => true
    case OtherResume => s.others > 0
    case EndSession => s.live > 0 && s.targetHandles > 0
    case EndRemote => s.remote > 0
  }

  /** CreateProcessInternalW_Hook and HandleCreatedProcess. */
  function ParentStep(s: State, step: Step): State
    requires Enabled(s, step)
  {
    match step
    case PSkip => s.(parent := Parent.Resuming(Skipped))
    case PCreateFail => s.(parent := Parent.Resuming(CreateFailed))
    case PCreate => s.(parentHandle := true, parent := if MutexExists(s) then Waiting else Injecting)
    case PWaitFail => s.(parent := Closing(WaitFailed))
    case PAcquire => s.(owner := TheParent, parent := Holding)
    case PRelease => s.(owner := Nobody, parent := Closing(Waited))
    case PInject(ok) =>
      if ok then s.(queued := s.queued + 1, targetHandles := s.targetHandles + 1, parent := Closing(Injected))
      else s.(parent := Closing(InjectFailed))
    case PClose => s.(parentHandle := false, parent := Parent.Resuming(s.parent.outcome))
    case PResume =>
      s.(suspendCount := if s.keepSuspended then s.suspendCount else s.suspendCount - 1,
         parent := Finished(s.parent.outcome))
    case _ => s
  }

  /** InjectIntoNewProcess. */
  function ScannerStep(s: State, step: Step): State
    requires Enabled(s, step)
  {
    match step
    case SGiveUp => s.(scanner := if s.scanner.Suspended? then Scanner.Resuming else Done)
    case SCount(many) => s.(scanner := if many then Opening else OneThread)
    case SSuspend =>
      s.(suspendCount := s.suspendCount + 1, scanner := if s.suspendCount == 0 then Undoing else Suspended)
    case SUndo => s.(suspendCount := s.suspendCount - 1, scanner := Opening)
    case SCheck => s.(scanner := if s.started then LettingGo else NotStarted)
    case SLetGo => s.(suspendCount := s.suspendCount - 1, scanner := Opening)
    case SCreateFail => s.(scanner := Scanner.Resuming)
    case SCreate =>
      if MutexExists(s) then s.(scannerHandle := true, scanner := Exists)
      else s.(scannerHandle := true, owner := TheScanner, scanner := Owning)
    case SInject(ok) =>
      if ok then s.(queued := s.queued + 1, targetHandles := s.targetHandles + 1, scanner := Owned)
      else s.(scanner := Owned)
    case SRelease => s.(owner := Nobody, scanner := Released)
    case SClose => s.(scannerHandle := false, scanner := Scanner.Resuming)
    case SResume => s.(suspendCount := s.suspendCount - 1, scanner := Done)
    case SOpen =>
      if MutexExists(s) then s.(scannerHandle := true, scanner := Opened) else s.(scanner := Remote)
    case SCloseOpened => s.(scannerHandle := false, scanner := Done)
    case SRemote(ok) => s.(remote := if ok then s.remote + 1 else s.remote, scanner := Done)
    case _ => s
  }

  function WorldStep(s: State, step: Step): State
    requires Enabled(s, step)
  {
    match step
    case Start => s.(started := true, live := s.live + s.queued, queued := 0)
    case Lift => s.(lifted := true, suspendCount := s.suspendCount - 1)
    case OtherSuspend => s.(others := s.others + 1, suspendCount := s.suspendCount + 1)
    case OtherResume => s.(others := s.others - 1, suspendCount := s.suspendCount - 1)
    case EndSession => s.(live := s.live - 1, targetHandles := s.targetHandles - 1)
    case EndRemote => s.(remote := s.remote - 1)
    case _ => s
  }

  predicate IsParentStep(step: Step) {
    step.PSkip? || step.PCreateFail? || step.PCreate? || step.PWaitFail? || step.PAcquire? || step.PRelease?
    || step.PInject? || step.PClose? || step.PResume?
  }

  predicate IsWorldStep(step: Step) {
    step.Start? || step.Lift? || step.OtherSuspend? || step.OtherResume? || step.EndSession? || step.EndRemote?
  }

  function Do(s: State, step: Step): State
    requires Enabled(s, step)
  {
    if IsParentStep(step) then ParentStep(s, step)
    else if IsWorldStep(step) then WorldStep(s, step)
    else ScannerStep(s, step)
  }

  predicate CanRun(s: State, steps: seq<Step>)
    decreases |steps|
  {
    steps == [] || (Enabled(s, steps[0]) && CanRun(Do(s, steps[0]), steps[1..]))
  }

  function RunAll(s: State, steps: seq<Step>): State
    requires CanRun(s, steps)
    decreases |steps|
  {
    if steps == [] then s else RunAll(Do(s, steps[0]), steps[1..])
  }

  // ---------------------------------------------------------------- the invariant

  /** The suspension that the process was created with, until the hook or the creator lifts it. */
  predicate CreationHold(s: State) {
    if s.keepSuspended then !s.lifted else !s.parent.Finished?
  }

  /** Between creating or finding the mutex, on the way with the suspended thread, and closing it. */
  predicate HasMutex(x: Scanner) { x.Exists? || x.Owning? || x.Owned? || x.Released? }

  predicate PastCreate(x: Scanner) { HasMutex(x) || x.Resuming? || x.Done? }

  /** Only a thread that has run, or is allowed to, brings the scanner here. */
  predicate SawRunning(x: Scanner) {
    x.Undoing? || x.LettingGo? || x.Opening? || x.Opened? || x.Remote?
  }

  predicate ScannerHold(s: State) {
    || s.scanner.Undoing? || s.scanner.Suspended? || s.scanner.LettingGo? || s.scanner.NotStarted?
    || HasMutex(s.scanner) || s.scanner.Resuming?
  }

  function One(b: bool): int { if b then 1 else 0 }

  predicate CountsAgree(s: State) {
    && s.suspendCount == One(CreationHold(s)) + One(ScannerHold(s)) + s.others
    && s.targetHandles == s.queued + s.live
    && (s.lifted ==> s.keepSuspended && s.parent.Finished?)
  }

  predicate HandlesAgree(s: State) {
    && (s.parentHandle <==> (s.parent.Waiting? || s.parent.Holding? || s.parent.Injecting?) || s.parent.Closing?)
    && (s.scannerHandle <==> HasMutex(s.scanner) || s.scanner.Opened?)
    && (s.owner == TheParent <==> s.parent.Holding?)
    && (s.owner == TheScanner <==> (s.scanner.Owning? || s.scanner.Owned?))
  }

  predicate StartAgrees(s: State) {
    && (CreationHold(s) ==> !s.started)
    && (s.started ==> s.queued == 0)
    && (!s.started ==> s.live == 0)
    && (s.scanner.NotStarted? || HasMutex(s.scanner) ==> !s.started)
    && (SawRunning(s.scanner) || s.remote > 0 ==> !CreationHold(s))
    && (s.scanner.LettingGo? ==> s.started)
  }

  predicate HasOutcome(p: Parent, o: Outcome) {
    (p.Closing? || p.Resuming? || p.Finished?) && p.outcome == o
  }

  predicate FoundMutex(p: Parent) {
    p.Waiting? || p.Holding? || HasOutcome(p, Waited) || HasOutcome(p, WaitFailed)
  }

  predicate OneInjection(s: State) {
    && s.queued + s.live + s.remote <= 1
    && (s.scanner.Owning? || s.scanner.Remote? || s.parent.Injecting? ==> s.queued + s.live + s.remote == 0)
    && (s.remote > 0 ==> s.scanner.Done?)
    && (s.scanner.Owning? || s.scanner.Owned? ==>
          !s.parent.Injecting? && !HasOutcome(s.parent, Injected) && !HasOutcome(s.parent, Waited))
    && (HasOutcome(s.parent, Injected) && !s.started ==> s.queued == 1)
    && (FoundMutex(s.parent) ==> PastCreate(s.scanner))
    && (s.parent.Created? && s.targetHandles > 0 ==>
          (s.scanner.Owned? || s.scanner.Released? || s.scanner.Resuming? || s.scanner.Done?))
  }

  predicate Inv(s: State) {
    CountsAgree(s) && HandlesAgree(s) && StartAgrees(s) && OneInjection(s)
  }

  lemma ParentKeeps(s: State, step: Step)
    requires Inv(s) && Enabled(s, step) && IsParentStep(step)
    ensures Inv(ParentStep(s, step))
  {
  }

  lemma ScannerKeepsCounts(s: State, step: Step)
    requires Inv(s) && Enabled(s, step) && !IsParentStep(step) && !IsWorldStep(step)
    ensures CountsAgree(ScannerStep(s, step))
  {
  }

  lemma ScannerKeepsHandles(s: State, step: Step)
    requires Inv(s) && Enabled(s, step) && !IsParentStep(step) && !IsWorldStep(step)
    ensures HandlesAgree(ScannerStep(s, step))
  {
  }

  lemma ScannerKeepsOne(s: State, step: Step)
    requires Inv(s) && Enabled(s, step) && !IsParentStep(step) && !IsWorldStep(step)
    ensures StartAgrees(ScannerStep(s, step)) && OneInjection(ScannerStep(s, step))
  {
  }

  lemma ScannerKeeps(s: State, step: Step)
    requires Inv(s) && Enabled(s, step) && !IsParentStep(step) && !IsWorldStep(step)
    ensures Inv(ScannerStep(s, step))
  {
    ScannerKeepsCounts(s, step);
    ScannerKeepsHandles(s, step);
    ScannerKeepsOne(s, step);
  }

  lemma WorldKeeps(s: State, step: Step)
    requires Inv(s) && Enabled(s, step) && IsWorldStep(step)
    ensures Inv(WorldStep(s, step))
  {
  }

  lemma {:induction false} RunKeepsInv(s: State, steps: seq<Step>)
    requires Inv(s) && CanRun(s, steps)
    ensures Inv(RunAll(s, steps)) && RunAll(s, steps).keepSuspended == s.keepSuspended
    decreases |steps|
  {
    if steps != [] {
      StepKeepsInv(s, steps[0]);
      RunKeepsInv(Do(s, steps[0]), steps[1..]);
    }
  }

  lemma StepKeepsInv(s: State, step: Step)
    requires Inv(s) && Enabled(s, step)
    ensures Inv(Do(s, step)) && Do(s, step).keepSuspended == s.keepSuspended
  {
    if IsParentStep(step) { ParentKeeps(s, step); }
    else if IsWorldStep(step) { WorldKeeps(s, step); }
    else { ScannerKeeps(s, step); }
  }

  /** What some interleaving leads to. */
  ghost predicate Reachable(keepSuspended: bool, s: State) {
    exists steps :: Leads(keepSuspended, steps, s)
  }

  predicate Leads(keepSuspended: bool, steps: seq<Step>, s: State) {
    CanRun(Initial(keepSuspended), steps) && RunAll(Initial(keepSuspended), steps) == s
  }

  lemma ReachableInv(keepSuspended: bool, s: State)
    requires Reachable(keepSuspended, s)
    ensures Inv(s) && s.keepSuspended == keepSuspended
  {
    var steps :| Leads(keepSuspended, steps, s);
    InitialInv(keepSuspended);
    RunKeepsInv(Initial(keepSuspended), steps);
  }

  /** As the process is created, nothing has happened yet. */
  predicate Untouched(s: State) {
    && s.parent.Created? && s.scanner.Idle? && s.suspendCount == 1 && s.others == 0
    && !s.lifted && !s.started && s.owner.Nobody? && !s.parentHandle && !s.scannerHandle
    && s.targetHandles == 0 && s.queued == 0 && s.live == 0 && s.remote == 0
  }

  lemma UntouchedCounts(s: State)
    requires Untouched(s)
    ensures CountsAgree(s)
  {
  }

  lemma UntouchedHandles(s: State)
    requires Untouched(s)
    ensures HandlesAgree(s)
  {
  }

  lemma UntouchedStart(s: State)
    requires Untouched(s)
    ensures StartAgrees(s)
  {
  }

  lemma UntouchedInjection(s: State)
    requires Untouched(s)
    ensures OneInjection(s)
  {
  }

  lemma InitialInv(keepSuspended: bool)
    ensures Inv(Initial(keepSuspended))
  {
    UntouchedCounts(Initial(keepSuspended));
    UntouchedHandles(Initial(keepSuspended));
    UntouchedStart(Initial(keepSuspended));
    UntouchedInjection(Initial(keepSuspended));
  }

  // ---------------------------------------------------------------- what it means

  /** In no interleaving does the process have two injections queued or alive at once. */
  lemma NeverTwoInjections(keepSuspended: bool, s: State)
    requires Reachable(keepSuspended, s)
    ensures s.queued + s.live + s.remote <= 1
  {
    ReachableInv(keepSuspended, s);
  }

  /**
    Suspend-count conservation: when both parties are done, on whatever path, the thread is suspended
    as often as the creator asked, less what the creator has resumed, plus what others hold.
   */
  lemma SuspendCountConserved(keepSuspended: bool, s: State)
    requires Reachable(keepSuspended, s)
    requires s.parent.Finished? && s.scanner.Done?
    ensures s.suspendCount == One(keepSuspended && !s.lifted) + s.others
  {
    ReachableInv(keepSuspended, s);
  }

  /**
    From taking the mutex until its injection attempt is over and the mutex is released, the main
    thread is suspended and has not started, whoever resumes it.
   */
  lemma ThreadWaitsForScanner(keepSuspended: bool, s: State)
    requires Reachable(keepSuspended, s) && s.owner == TheScanner
    ensures s.suspendCount > 0 && !s.started && !Enabled(s, Start)
  {
    ReachableInv(keepSuspended, s);
  }

  /** A waiting parent waits only for the scanner, which can then always move on by itself. */
  lemma WaitEnds(keepSuspended: bool, s: State)
    requires Reachable(keepSuspended, s) && s.parent.Waiting?
    ensures
      || Enabled(s, PAcquire)
      || (Enabled(s, SRelease) && Enabled(Do(s, SRelease), PAcquire))
      || (forall ok :: Enabled(s, SInject(ok)) && Enabled(Do(s, SInject(ok)), SRelease))
  {
    ReachableInv(keepSuspended, s);
  }

  /** A run in which the hook resumes the thread, with this outcome, while the scanner owns the mutex. */
  ghost predicate ResumesUnderScanner(o: Outcome) {
    exists s :: Reachable(false, s) && s.owner == TheScanner && s.parent == Parent.Resuming(o)
  }

  lemma {:induction false} RunFurther(s: State, a: seq<Step>, b: seq<Step>)
    requires CanRun(s, a) && CanRun(RunAll(s, a), b)
    ensures CanRun(s, a + b) && RunAll(s, a + b) == RunAll(RunAll(s, a), b)
    decreases |a|
  {
    if a == [] {
      assert a + b == b;
    } else {
      assert (a + b)[1..] == a[1..] + b;
      RunFurther(Do(s, a[0]), a[1..], b);
    }
  }

  lemma OneStep(s: State, steps: seq<Step>, step: Step)
    requires CanRun(s, steps) && Enabled(RunAll(s, steps), step)
    ensures CanRun(s, steps + [step]) && RunAll(s, steps + [step]) == Do(RunAll(s, steps), step)
  {
    assert [step][1..] == [];
    assert RunAll(RunAll(s, steps), [step]) == RunAll(Do(RunAll(s, steps), step), []);
    RunFurther(s, steps, [step]);
  }

  /** Takes the scanner from where it has not looked yet to owning the mutex. */
  lemma ScannerTakesMutex(steps: seq<Step>) returns (all: seq<Step>)
    requires CanRun(Initial(false), steps)
    requires
      var s := RunAll(Initial(false), steps);
      s.scanner.Idle? && s.suspendCount == 1 && !s.started && !MutexExists(s)
    ensures CanRun(Initial(false), all)
    ensures
      var s := RunAll(Initial(false), steps);
      RunAll(Initial(false), all)
      == s.(suspendCount := 2, scannerHandle := true, owner := TheScanner, scanner := Owning)
  {
    all := steps;
    OneStep(Initial(false), all, SCount(false));
    all := all + [SCount(false)];
    OneStep(Initial(false), all, SSuspend);
    all := all + [SSuspend];
    OneStep(Initial(false), all, SCheck);
    all := all + [SCheck];
    OneStep(Initial(false), all, SCreate);
    all := all + [SCreate];
  }

  lemma ResumeWitness(o: Outcome)
    requires o !in {Waited, Injected}
    ensures ResumesUnderScanner(o)
  {
    var s0 := Initial(false);
    var steps: seq<Step> := [];
    match o {
      case Skipped =>
        steps := ScannerTakesMutex(steps);
        OneStep(s0, steps, PSkip);
        steps := steps + [PSkip];
      case CreateFailed =>
        steps := ScannerTakesMutex(steps);
        OneStep(s0, steps, PCreateFail);
        steps := steps + [PCreateFail];
      case WaitFailed =>
        steps := ScannerTakesMutex(steps);
        OneStep(s0, steps, PCreate);
        steps := steps + [PCreate];
        OneStep(s0, steps, PWaitFail);
        steps := steps + [PWaitFail];
        OneStep(s0, steps, PClose);
        steps := steps + [PClose];
      case InjectFailed =>
        OneStep(s0, steps, PCreate);
        steps := steps + [PCreate];
        OneStep(s0, steps, PInject(false));
        steps := steps + [PInject(false)];
        OneStep(s0, steps, PClose);
        steps := steps + [PClose];
        steps := ScannerTakesMutex(steps);
    }
    assert Leads(false, steps, RunAll(s0, steps));
  }

  /**
    The hook does not always hold the thread back until the scanner is done with the mutex: it
    resumes it earlier exactly when its own handling ended without an injection and without having
    waited. It is the scanner's own suspension that keeps the thread from starting then.
   */
  lemma ParentResumesUnderScannerExactly(o: Outcome)
    ensures ResumesUnderScanner(o) <==> o !in {Waited, Injected}
  {
    if o !in {Waited, Injected} {
      ResumeWitness(o);
    } else {
      forall s | Reachable(false, s) && s.owner == TheScanner ensures s.parent != Parent.Resuming(o) {
        ReachableInv(false, s);
      }
    }
  }

  // ---------------------------------------------------------------- every process gets its injection

  predicate Injects(step: Step) { step == PInject(true) || step == SInject(true) || step == SRemote(true) }

  /** A party gives up, or a call of it fails. */
  predicate Fails(step: Step) {
    || step.PSkip? || step.PCreateFail? || step.PWaitFail? || step == PInject(false)
    || step.SGiveUp? || step.SCreateFail? || step == SInject(false) || step == SRemote(false)
  }

  function Injections(steps: seq<Step>): nat {
    if steps == [] then 0 else (if Injects(steps[0]) then 1 else 0) + Injections(steps[1..])
  }

  function Endings(steps: seq<Step>): nat {
    if steps == [] then 0
    else (if steps[0].EndSession? || steps[0].EndRemote? then 1 else 0) + Endings(steps[1..])
  }

  function InProcess(s: State): nat { s.queued + s.live + s.remote }

  lemma ParentConserves(s: State, step: Step)
    requires Enabled(s, step) && IsParentStep(step)
    ensures InProcess(ParentStep(s, step)) == InProcess(s) + if step == PInject(true) then 1 else 0
  {
  }

  lemma ScannerConserves(s: State, step: Step)
    requires Enabled(s, step) && !IsParentStep(step) && !IsWorldStep(step)
    ensures InProcess(ScannerStep(s, step)) == InProcess(s) + if step == SInject(true) || step == SRemote(true) then 1 else 0
  {
  }

  lemma WorldConserves(s: State, step: Step)
    requires Enabled(s, step) && IsWorldStep(step)
    ensures InProcess(WorldStep(s, step)) + (if step.EndSession? || step.EndRemote? then 1 else 0) == InProcess(s)
  {
  }

  lemma StepConserves(s: State, step: Step)
    requires Enabled(s, step)
    ensures InProcess(Do(s, step)) + (if step.EndSession? || step.EndRemote? then 1 else 0)
      == InProcess(s) + if Injects(step) then 1 else 0
  {
    if IsParentStep(step) { ParentConserves(s, step); }
    else if IsWorldStep(step) { WorldConserves(s, step); }
    else { ScannerConserves(s, step); }
  }

  /** In every run, what was injected is queued, alive, or has ended. */
  lemma {:induction false} InjectionsConserved(s: State, steps: seq<Step>)
    requires CanRun(s, steps)
    ensures
      var t := RunAll(s, steps);
      t.queued + t.live + t.remote + Endings(steps) == s.queued + s.live + s.remote + Injections(steps)
    decreases |steps|
  {
    if steps != [] {
      StepConserves(s, steps[0]);
      InjectionsConserved(Do(s, steps[0]), steps[1..]);
    }
  }

  /** While nothing fails, a party that left it to the other is right: the other has injected, or is about to. */
  predicate Covered(s: State, injected: bool) {
    && (s.queued + s.live + s.remote > 0 || s.targetHandles > 0 ==> injected)
    && (HasOutcome(s.parent, Injected) || s.scanner.Owned? || s.scanner.Released? ==> injected)
    && (s.parent.Closing? || s.parent.Resuming? || s.parent.Finished? ==>
          s.parent.outcome == Injected || s.parent.outcome == Waited)
    && (s.scanner.Exists? || s.scanner.Opened? || s.scanner.Resuming? || s.scanner.Done? ==>
          injected || s.parent.Injecting?)
    && (s.parent.Waiting? || s.parent.Holding? || HasOutcome(s.parent, Waited) ==> injected || s.scanner.Owning?)
  }

  lemma ParentCovers(s: State, step: Step, injected: bool)
    requires Inv(s) && Enabled(s, step) && IsParentStep(step) && !Fails(step) && Covered(s, injected)
    ensures Covered(ParentStep(s, step), injected || Injects(step))
  {
  }

  lemma ScannerCovers(s: State, step: Step, injected: bool)
    requires Inv(s) && Enabled(s, step) && !IsParentStep(step) && !IsWorldStep(step) && !Fails(step)
    requires Covered(s, injected)
    ensures Covered(ScannerStep(s, step), injected || Injects(step))
  {
  }

  lemma WorldCovers(s: State, step: Step, injected: bool)
    requires s.targetHandles == s.queued + s.live
    requires Enabled(s, step) && IsWorldStep(step) && Covered(s, injected)
    ensures Covered(WorldStep(s, step), injected)
  {
  }

  lemma NothingInjectedYet(s: State)
    requires Untouched(s)
    ensures Covered(s, false) && InProcess(s) == 0
  {
  }

  /** The last step of a run. */
  lemma {:induction false} LastStep(s: State, steps: seq<Step>)
    requires CanRun(s, steps) && steps != []
    ensures
      var before, last := steps[..|steps| - 1], steps[|steps| - 1];
      && CanRun(s, before) && Enabled(RunAll(s, before), last) && RunAll(s, steps) == Do(RunAll(s, before), last)
      && Injections(steps) == Injections(before) + if Injects(last) then 1 else 0
    decreases |steps|
  {
    var before := steps[..|steps| - 1];
    if |steps| > 1 {
      LastStep(Do(s, steps[0]), steps[1..]);
      assert steps[1..][..|steps| - 2] == before[1..];
    } else {
      assert steps[1..] == [];
    }
  }

  lemma CoversOneMore(keepSuspended: bool, s: State, step: Step, injected: bool)
    requires Reachable(keepSuspended, s) && Enabled(s, step) && !Fails(step) && Covered(s, injected)
    ensures Covered(Do(s, step), injected || Injects(step))
  {
    ReachableInv(keepSuspended, s);
    if IsParentStep(step) { ParentCovers(s, step, injected); }
    else if IsWorldStep(step) { WorldCovers(s, step, injected); }
    else { ScannerCovers(s, step, injected); }
  }

  /** The parties' positions after a run without a failure, and whether there was an injection. */
  ghost predicate CoveredAfter(keepSuspended: bool, steps: seq<Step>) {
    exists s :: Leads(keepSuspended, steps, s) && Covered(s, Injections(steps) > 0)
  }

  lemma CoveredAtStart(s: State, keepSuspended: bool)
    requires s == Initial(keepSuspended)
    ensures Covered(s, false)
  {
    NothingInjectedYet(s);
  }

  lemma NoStepLeads(s: State, keepSuspended: bool)
    requires s == Initial(keepSuspended)
    ensures Leads(keepSuspended, [], s) && Injections([]) == 0
  {
  }

  lemma CoveredAtFirst(keepSuspended: bool)
    ensures CoveredAfter(keepSuspended, [])
  {
    var s := Initial(keepSuspended);
    CoveredAtStart(s, keepSuspended);
    NoStepLeads(s, keepSuspended);
  }

  lemma {:induction false} RunCovers(keepSuspended: bool, steps: seq<Step>)
    requires CanRun(Initial(keepSuspended), steps) && forall k :: 0 <= k < |steps| ==> !Fails(steps[k])
    ensures CoveredAfter(keepSuspended, steps)
    decreases |steps|
  {
    if steps == [] {
      CoveredAtFirst(keepSuspended);
    } else {
      var before, last := steps[..|steps| - 1], steps[|steps| - 1];
      LastStep(Initial(keepSuspended), steps);
      RunCovers(keepSuspended, before);
      var s :| Leads(keepSuspended, before, s) && Covered(s, Injections(before) > 0);
      CoversOneMore(keepSuspended, s, last, Injections(before) > 0);
      assert Leads(keepSuspended, steps, Do(s, last));
    }
  }

  lemma AllAccountedFor(keepSuspended: bool, steps: seq<Step>)
    requires CanRun(Initial(keepSuspended), steps)
    ensures
      var s := RunAll(Initial(keepSuspended), steps);
      InProcess(s) + Endings(steps) == Injections(steps) && InProcess(s) <= 1
  {
    var s := RunAll(Initial(keepSuspended), steps);
    InjectionsConserved(Initial(keepSuspended), steps);
    assert Leads(keepSuspended, steps, s);
    NeverTwoInjections(keepSuspended, s);
  }

  /**
    If neither party skips the process or fails, then in every interleaving, when both are done, the
    process has had an injection; and as long as none has ended, it has exactly one.
   */
  lemma ExactlyOneInjection(keepSuspended: bool, steps: seq<Step>)
    requires CanRun(Initial(keepSuspended), steps) && forall k :: 0 <= k < |steps| ==> !Fails(steps[k])
    requires RunAll(Initial(keepSuspended), steps).parent.Finished? && RunAll(Initial(keepSuspended), steps).scanner.Done?
    ensures Injections(steps) >= 1
    ensures
      var s := RunAll(Initial(keepSuspended), steps);
      Endings(steps) == 0 ==> Injections(steps) == 1 && s.queued + s.live + s.remote == 1
  {
    RunCovers(keepSuspended, steps);
    AllAccountedFor(keepSuspended, steps);
  }
}
