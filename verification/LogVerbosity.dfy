/**
  The log filter: each thread may have a verbosity of its own while it is inside a scope, and one
  shared value, read without a lock, says whether any thread could want a line. Setting the thread's
  own value and registering it under the mutex are two steps, between which other threads run.
 */
module LogVerbosity {
  import opened Text

  type Verbosity = nat

  datatype Scope = Scope(verbosity: Verbosity, inUse: bool)

  datatype Pc = Idle | Registering | Unregistering

  /** A thread's own verbosity, the scopes it is in, outermost first, and what it is in the middle of. */
  datatype Thread = Thread(local: Option<Verbosity>, scopes: seq<Scope>, pc: Pc)

  datatype Logger = Logger(initial: Verbosity, shared: Verbosity, count: int, threads: map<nat, Thread>)

  const Outside := Thread(None, [], Idle)

  function Of(l: Logger, t: nat): Thread { if t in l.threads then l.threads[t] else Outside }

  datatype Step = Enter(t: nat, verbosity: Verbosity) | Register(t: nat) | Leave(t: nat) | Unregister(t: nat)

  predicate Enabled(l: Logger, s: Step) {
    match s
    case Enter(t, _) => Of(l, t).pc.Idle?
    case Register(t) => Of(l, t).pc.Registering?
    case Leave(t) => Of(l, t).pc.Idle? && Of(l, t).scopes != []
    case Unregister(t) => Of(l, t).pc.Unregistering?
  }

  function Do(l: Logger, s: Step): Logger
    requires Enabled(l, s)
  {
    match s
    case Enter(t, v) =>
      var thread := Of(l, t);
      if thread.local.Some? then
        l.(threads := l.threads[t := thread.(scopes := thread.scopes + [Scope(v, false)])])
      else
        l.(threads := l.threads[t := Thread(Some(v), thread.scopes + [Scope(v, true)], Registering)])
    case Register(t) =>
      var v := if Of(l, t).local.Some? then Of(l, t).local.value else 0;
      l.(threads := l.threads[t := Of(l, t).(pc := Idle)], count := l.count + 1,
         shared := if l.shared < v then v else l.shared)
    case Leave(t) =>
      var thread, n := Of(l, t), |Of(l, t).scopes| - 1;
      if thread.scopes[n].inUse then
        l.(threads := l.threads[t := Thread(None, thread.scopes[..n], Unregistering)])
      else
        l.(threads := l.threads[t := thread.(scopes := thread.scopes[..n])])
    case Unregister(t) =>
      l.(threads := l.threads[t := Of(l, t).(pc := Idle)], count := l.count - 1,
         shared := if l.count - 1 == 0 then l.initial else l.shared)
  }

  /** `ShouldLog`, and the check before it that saves the thread-local lookup. */
  predicate ShouldLog(l: Logger, t: nat, v: Verbosity) {
    (if Of(l, t).local.Some? then Of(l, t).local.value else l.initial) >= v
  }

  predicate QuickCheck(l: Logger, v: Verbosity) { l.shared >= v }

  // ---------------------------------------------------------------- the invariant

  /** The outermost scope is in use and sets the verbosity, the others do nothing. */
  predicate ProperThread(t: Thread) {
    && (t.pc.Registering? ==> t.local.Some?)
    && (t.pc.Unregistering? ==> t.local.None?)
    && (t.local.None? ==> t.scopes == [])
    && (t.local.Some? ==> t.scopes != [] && t.local == Some(t.scopes[0].verbosity) && t.scopes[0].inUse)
    && (t.pc.Registering? ==> |t.scopes| == 1)
    && forall k :: 1 <= k < |t.scopes| ==> !t.scopes[k].inUse
  }

  /** The thread is in the count. */
  predicate Registered(t: Thread) { (t.pc.Idle? && t.local.Some?) || t.pc.Unregistering? }

  function RegisteredThreads(l: Logger): set<nat> {
    set t | t in l.threads && Registered(l.threads[t])
  }

  ghost predicate Inv(l: Logger) {
    && (forall t :: t in l.threads ==> ProperThread(l.threads[t]))
    && l.count == |RegisteredThreads(l)|
    && l.shared >= l.initial
    && (forall t :: t in l.threads && Registered(l.threads[t]) && l.threads[t].local.Some? ==>
          l.shared >= l.threads[t].local.value)
    && (l.count == 0 ==> l.shared == l.initial)
  }

  /** Replacing one thread: the count must follow, and the shared verbosity must stay high enough. */
  lemma ThreadChanged(l: Logger, t: nat, thread: Thread, count: int, shared: Verbosity)
    requires Inv(l) && ProperThread(thread)
    requires count == l.count + (if Registered(thread) then 1 else 0) - (if Registered(Of(l, t)) then 1 else 0)
    requires shared >= l.initial
    requires count == 0 ==> shared == l.initial
    requires count > 0 ==> shared >= l.shared
    requires Registered(thread) && thread.local.Some? ==> shared >= thread.local.value
    ensures Inv(Logger(l.initial, shared, count, l.threads[t := thread]))
  {
    var l' := Logger(l.initial, shared, count, l.threads[t := thread]);
    CountChanged(l, l', t, thread);
    if count == 0 { assert RegisteredThreads(l') == {}; }
    forall u | u in l'.threads && Registered(l'.threads[u]) && l'.threads[u].local.Some?
      ensures shared >= l'.threads[u].local.value
    {
      assert u in RegisteredThreads(l');
    }
  }

  lemma CountChanged(l: Logger, l': Logger, t: nat, thread: Thread)
    requires l'.threads == l.threads[t := thread]
    ensures |RegisteredThreads(l')|
      == |RegisteredThreads(l)| + (if Registered(thread) then 1 else 0) - (if Registered(Of(l, t)) then 1 else 0)
  {
    var before, after := RegisteredThreads(l), RegisteredThreads(l');
    assert t in before <==> Registered(Of(l, t));
    assert t in after <==> Registered(thread);
    assert forall u :: u != t ==> (u in after <==> u in before);
    SetsDifferAt(before, after, t);
  }

  lemma SetsDifferAt(a: set<nat>, b: set<nat>, t: nat)
    requires forall u :: u != t ==> (u in b <==> u in a)
    ensures |b| == |a| + (if t in b then 1 else 0) - (if t in a then 1 else 0)
  {
    var both := a - {t};
    assert both == b - {t};
    assert a == if t in a then both + {t} else both;
    assert b == if t in b then both + {t} else both;
  }

  lemma StepIsProper(l: Logger, s: Step)
    requires Inv(l) && Enabled(l, s)
    ensures ProperThread(Of(Do(l, s), s.t))
  {
    assert ProperThread(Of(l, s.t));
  }

  lemma StepKeepsInv(l: Logger, s: Step)
    requires Inv(l) && Enabled(l, s)
    ensures Inv(Do(l, s))
  {
    var l' := Do(l, s);
    assert ProperThread(Of(l, s.t));
    StepIsProper(l, s);
    assert Registered(Of(l, s.t)) ==> s.t in RegisteredThreads(l);
    ThreadChanged(l, s.t, Of(l', s.t), l'.count, l'.shared);
  }

  ghost predicate AllEnabled(l: Logger, steps: seq<Step>)
    decreases |steps|
  {
    steps != [] ==> Enabled(l, steps[0]) && AllEnabled(Do(l, steps[0]), steps[1..])
  }

  function Run(l: Logger, steps: seq<Step>): Logger
    requires AllEnabled(l, steps)
    decreases |steps|
  {
    if steps == [] then l else Run(Do(l, steps[0]), steps[1..])
  }

  ghost predicate Reachable(l: Logger) {
    exists steps :: AllEnabled(Logger(l.initial, l.initial, 0, map[]), steps)
      && l == Run(Logger(l.initial, l.initial, 0, map[]), steps)
  }

  lemma {:induction false} RunKeepsInv(l: Logger, steps: seq<Step>)
    requires Inv(l) && AllEnabled(l, steps)
    ensures Inv(Run(l, steps))
    decreases |steps|
  {
    if steps != [] {
      StepKeepsInv(l, steps[0]);
      RunKeepsInv(Do(l, steps[0]), steps[1..]);
    }
  }

  lemma ReachableInv(l: Logger)
    requires Reachable(l)
    ensures Inv(l)
  {
    var start := Logger(l.initial, l.initial, 0, map[]);
    var steps :| AllEnabled(start, steps) && l == Run(start, steps);
    RunKeepsInv(start, steps);
  }

  /** A thread that runs code of its own never loses a line to the quick check. */
  lemma QuickCheckNeverSuppresses(l: Logger, t: nat, v: Verbosity)
    requires Reachable(l) && Of(l, t).pc.Idle?
    ensures ShouldLog(l, t, v) ==> QuickCheck(l, v)
  {
    ReachableInv(l);
  }

  /** In nested scopes the outermost one sets the verbosity, and outside of all it is the initial one. */
  lemma OutermostScopeDecides(l: Logger, t: nat, v: Verbosity)
    requires Reachable(l) && Of(l, t).pc.Idle?
    ensures ShouldLog(l, t, v) <==> v <= if Of(l, t).scopes == [] then l.initial else Of(l, t).scopes[0].verbosity
  {
    ReachableInv(l);
  }

  /** Once every thread has left its scopes, the shared verbosity is the initial one again, and so it is at count 0. */
  lemma ReturnsToInitial(l: Logger)
    requires Reachable(l)
    ensures l.count >= 0 && l.shared >= l.initial && (l.count == 0 ==> l.shared == l.initial)
    ensures (forall t :: t in l.threads ==> l.threads[t].scopes == [] && l.threads[t].pc.Idle?) ==>
      l.count == 0 && l.shared == l.initial && forall v: Verbosity :: QuickCheck(l, v) <==> v <= l.initial
  {
    ReachableInv(l);
    if forall t :: t in l.threads ==> l.threads[t].scopes == [] && l.threads[t].pc.Idle? {
      assert RegisteredThreads(l) == {};
    }
  }
}
