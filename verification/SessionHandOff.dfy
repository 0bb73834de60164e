/**
  The life of customization sessions in one process: threads that start one, pass it on to threads
  they create, run its loop, and delete it. Every step that can interleave is one step here; which
  thread moves, and what the system answers it, is left open.
 */
module SessionHandOff {
  import opened Text

  /** What a new thread was created for. */
  datatype Routine = FirstLoop(threadAttachExempt: bool) | ReloadAndLoop | OnlyDelete

  /** Where a thread is; `sid` is the session that its `this` points to. */
  datatype Pc =
    | Arriving(apc: bool, exempt: bool)
    | Starting(apc: bool, exempt: bool)
    | Constructed(apc: bool, exempt: bool, sid: nat)
    | Bumped(routine: Routine, sid: nat)
    | Entered(routine: Routine, sid: nat)
    | Watching(sid: nat)
    | Looping(sid: nat)
    | Deleting(sid: nat)
    | Told(sid: nat)
    | Unhooked(sid: nat)
    | Uninitialized(sid: nat)
    | Releasing(sid: nat)
    | Leaving
    | Exited

  datatype Kind =
    | Construct | Touch | Reload | HandOver(to: nat)
    | BeforeUninit | HooksDisabled | Uninit | Destroyed | SemaphoreReleased

  datatype Event = Event(sid: nat, thread: nat, kind: Kind)

  /** `session` is the optional singleton, `runner` whether its main loop runner is there, `refs` the module's count. */
  datatype World = World(
    semaphore: bool, session: Option<nat>, runner: bool, refs: int, threads: seq<Pc>, created: nat,
    clashes: nat, log: seq<Event>)

  const Start := World(true, None, false, 0, [], 0, 0, [])

  /**
    A thread arrives with the module loaded for it, or thread `t` goes on. `ok` is the answer of the
    call that the step makes, or whether the configuration changed; `across` whether the
    configuration monitor survives a change of thread.
   */
  datatype Step = Arrive(apc: bool, exempt: bool) | Go(t: nat, ok: bool, across: bool)

  predicate Enabled(w: World, s: Step) {
    s.Go? ==> s.t < |w.threads| && !w.threads[s.t].Exited? && (w.threads[s.t].Arriving? ==> w.semaphore)
  }

  /** What a step of one thread changes: its position, perhaps a new thread, and the shared state. */
  datatype Effect = Effect(
    pc: Pc, child: Option<Pc>, said: Option<Said>,
    semaphore: bool, session: Option<nat>, runner: bool, refs: int, created: nat, clashes: nat)

  datatype Said = Said(sid: nat, kind: Kind)

  /** The thread is somewhere else, and nothing else is. */
  function Moves(w: World, pc: Pc): Effect {
    Effect(pc, None, None, w.semaphore, w.session, w.runner, w.refs, w.created, w.clashes)
  }

  function MovesSaying(w: World, pc: Pc, sid: nat, kind: Kind): Effect {
    Moves(w, pc).(said := Some(Said(sid, kind)))
  }

  function EffectOf(w: World, pc: Pc, ok: bool, across: bool): Effect {
    match pc
    case Arriving(apc, exempt) => Moves(w, Starting(apc, exempt)).(semaphore := false)
    case Starting(apc, exempt) =>
      if w.session.Some? then Moves(w, Leaving).(semaphore := true, clashes := w.clashes + 1)
      else if !ok then Moves(w, Leaving).(semaphore := true)
      else MovesSaying(w, Constructed(apc, exempt, w.created), w.created, Construct)
           .(session := Some(w.created), created := w.created + 1)
    case Constructed(apc, exempt, sid) =>
      if apc then MovesSaying(w, Bumped(FirstLoop(exempt), sid), sid, Touch).(runner := across, refs := w.refs + 1)
      else MovesSaying(w, Looping(sid), sid, Touch).(runner := true)
    case Bumped(routine, sid) =>
      if ok then MovesSaying(w, Leaving, sid, HandOver(|w.threads|)).(child := Some(Entered(routine, sid)))
      else Moves(w, Deleting(sid)).(refs := w.refs - 1)
    case Entered(FirstLoop(exempt), sid) =>
      MovesSaying(w, if exempt then Looping(sid) else Watching(sid), sid, Touch).(runner := true)
    case Entered(ReloadAndLoop, sid) => MovesSaying(w, Looping(sid), sid, Reload).(runner := true)
    case Entered(OnlyDelete, sid) => Moves(w, Deleting(sid))
    case Watching(sid) =>
      MovesSaying(w, Bumped(if ok then ReloadAndLoop else OnlyDelete, sid), sid, Touch)
      .(runner := across, refs := w.refs + 1)
    case Looping(sid) =>
      if ok then MovesSaying(w, Looping(sid), sid, Reload) else MovesSaying(w, Deleting(sid), sid, Touch)
    case Deleting(sid) => MovesSaying(w, Told(sid), sid, BeforeUninit)
    case Told(sid) => MovesSaying(w, Unhooked(sid), sid, HooksDisabled)
    case Unhooked(sid) => MovesSaying(w, Uninitialized(sid), sid, Uninit)
    case Uninitialized(sid) => MovesSaying(w, Releasing(sid), sid, Destroyed).(session := None, runner := false)
    case Releasing(sid) => MovesSaying(w, Leaving, sid, SemaphoreReleased).(semaphore := true)
    case Leaving => Moves(w, Exited).(refs := w.refs - 1)
    case Exited => Moves(w, Exited)
  }

  function Apply(w: World, t: nat, e: Effect): World
    requires t < |w.threads|
  {
    World(e.semaphore, e.session, e.runner, e.refs,
          w.threads[t := e.pc] + (if e.child.Some? then [e.child.value] else []), e.created, e.clashes,
          w.log + (if e.said.Some? then [Event(e.said.value.sid, t, e.said.value.kind)] else []))
  }

  function Do(w: World, s: Step): World
    requires Enabled(w, s)
  {
    match s
    case Arrive(apc, exempt) => w.(threads := w.threads + [Arriving(apc, exempt)], refs := w.refs + 1)
    case Go(t, ok, across) => Apply(w, t, EffectOf(w, w.threads[t], ok, across))
  }

  // ---------------------------------------------------------------- the life of a session

  datatype Life =
    | Unborn | Alive(owner: nat) | BeingTold(owner: nat) | HooksOff(owner: nat) | ModsOff(owner: nat)
    | Freed(owner: nat) | Over | Broken

  /** Only the owner may do anything with a session, and its end is in this order. */
  function Advance(l: Life, e: Event): Life {
    match (l, e.kind)
    case (Unborn, Construct) => Alive(e.thread)
    case (Alive(t), Touch) => if t == e.thread then l else Broken
    case (Alive(t), Reload) => if t == e.thread then l else Broken
    case (Alive(t), HandOver(u)) => if t == e.thread then Alive(u) else Broken
    case (Alive(t), BeforeUninit) => if t == e.thread then BeingTold(t) else Broken
    case (BeingTold(t), HooksDisabled) => if t == e.thread then HooksOff(t) else Broken
    case (HooksOff(t), Uninit) => if t == e.thread then ModsOff(t) else Broken
    case (ModsOff(t), Destroyed) => if t == e.thread then Freed(t) else Broken
    case (Freed(t), SemaphoreReleased) => if t == e.thread then Over else Broken
    case _ => Broken
  }

  function LifeOf(log: seq<Event>, sid: nat): Life {
    if log == [] then Unborn
    else
      var l := LifeOf(log[..|log| - 1], sid);
      if log[|log| - 1].sid == sid then Advance(l, log[|log| - 1]) else l
  }

  lemma LifeAfter(log: seq<Event>, e: Event, sid: nat)
    ensures LifeOf(log + [e], sid) == if e.sid == sid then Advance(LifeOf(log, sid), e) else LifeOf(log, sid)
  {
    assert (log + [e])[..|log|] == log;
  }

  // ---------------------------------------------------------------- the invariant

  /** The thread that holds the semaphore, itself or through the session. */
  predicate Owning(pc: Pc) {
    !pc.Arriving? && !pc.Leaving? && !pc.Exited?
  }

  predicate HasSession(pc: Pc) { Owning(pc) && !pc.Starting? && !pc.Releasing? }

  /** The session that a thread at this position answers for, until the semaphore is released. */
  function Hands(pc: Pc): Option<nat> {
    if HasSession(pc) || pc.Releasing? then Some(pc.sid) else None
  }

  predicate NeedsRunner(pc: Pc) { pc.Watching? || pc.Looping? }

  function LifeAt(pc: Pc, t: nat): Life
    requires Hands(pc).Some?
  {
    match pc
    case Told(_) => BeingTold(t)
    case Unhooked(_) => HooksOff(t)
    case Uninitialized(_) => ModsOff(t)
    case Releasing(_) => Freed(t)
    case _ => Alive(t)
  }

  function Weight(pc: Pc): nat {
    match pc
    case Exited => 0
    case Bumped(_, _) => 2
    case _ => 1
  }

  function Weights(threads: seq<Pc>): nat {
    if threads == [] then 0 else Weights(threads[..|threads| - 1]) + Weight(threads[|threads| - 1])
  }

  /** `h` is the one thread that holds the semaphore, if any does. */
  ghost predicate OneOwner(w: World, h: Option<nat>) {
    && (h.Some? ==> h.value < |w.threads|)
    && (forall t :: 0 <= t < |w.threads| ==> (Owning(w.threads[t]) <==> h == Some(t)))
    && (w.semaphore <==> h.None?)
  }

  /** What the owner's position says about the session. */
  ghost predicate OwnerKnows(w: World, h: Option<nat>)
    requires h.Some? ==> h.value < |w.threads|
  {
    if h.None? then w.session.None?
    else
      var pc := w.threads[h.value];
      && w.session == (if HasSession(pc) then Some(pc.sid) else None)
      && (Hands(pc).Some? ==> Hands(pc).value + 1 == w.created)
      && (NeedsRunner(pc) ==> w.runner)
  }

  function ExpectedLife(w: World, h: Option<nat>, sid: nat): Life
    requires h.Some? ==> h.value < |w.threads|
  {
    if sid >= w.created then Unborn
    else if h.Some? && Hands(w.threads[h.value]) == Some(sid) then
      LifeAt(w.threads[h.value], h.value)
    else Over
  }

  ghost predicate LivesAre(w: World, h: Option<nat>)
    requires h.Some? ==> h.value < |w.threads|
  {
    forall sid: nat :: LifeOf(w.log, sid) == ExpectedLife(w, h, sid)
  }

  ghost predicate Inv(w: World, h: Option<nat>) {
    && OneOwner(w, h) && OwnerKnows(w, h) && LivesAre(w, h)
    && w.refs == Weights(w.threads) && w.clashes == 0
  }

  lemma {:induction false} WeightsUpdate(threads: seq<Pc>, t: nat, pc: Pc)
    requires t < |threads|
    ensures Weights(threads[t := pc]) == Weights(threads) - Weight(threads[t]) + Weight(pc)
  {
    var n := |threads| - 1;
    if t < n {
      assert threads[t := pc][..n] == threads[..n][t := pc];
      WeightsUpdate(threads[..n], t, pc);
    } else {
      assert threads[t := pc][..n] == threads[..n];
    }
  }

  lemma WeightsMore(threads: seq<Pc>, pc: Pc)
    ensures Weights(threads + [pc]) == Weights(threads) + Weight(pc)
  {
    assert (threads + [pc])[..|threads|] == threads;
  }

  function NextHolder(w: World, h: Option<nat>, t: nat, e: Effect): Option<nat>
    requires t < |w.threads|
  {
    if h.Some? && h != Some(t) then h
    else if Owning(e.pc) then Some(t)
    else if e.child.Some? then Some(|w.threads|)
    else None
  }

  /** What every step keeps, whatever its thread was doing. */
  predicate Proper(w: World, pc: Pc, e: Effect) {
    && (e.child.Some? ==> Owning(pc) && !Owning(e.pc) && Owning(e.child.value))
    && (Owning(e.pc) ==> Owning(pc) || pc.Arriving?)
    && (e.semaphore <==> !Owning(e.pc) && e.child.None? && (Owning(pc) || pc.Arriving? || w.semaphore))
    && e.refs == w.refs - Weight(pc) + Weight(e.pc) + (if e.child.Some? then Weight(e.child.value) else 0)
    && e.clashes == w.clashes
    && (!Owning(pc) && !pc.Arriving? ==> e.session == w.session && e.created == w.created && e.said.None?)
    && (!Owning(pc) && !pc.Arriving? ==> e.runner == w.runner && e.semaphore == w.semaphore)
  }

  /** Where the work of the step's thread goes on: in the thread it created, or in itself. */
  function Now(e: Effect): Pc { if e.child.Some? then e.child.value else e.pc }

  /** What a step of the owner, or of a thread that becomes the owner, does to the session in its hands. */
  predicate OwnerProper(w: World, pc: Pc, t: nat, e: Effect) {
    var now, who := Now(e), if e.child.Some? then |w.threads| else t;
    && e.session == (if HasSession(now) then Some(now.sid) else None)
    && (Hands(now).Some? ==> Hands(now).value + 1 == e.created)
    && (NeedsRunner(now) ==> e.runner)
    && if e.said.None? then
         e.created == w.created && Hands(now) == Hands(pc) && (Hands(pc).Some? ==> LifeAt(now, who) == LifeAt(pc, t))
       else if Hands(pc).None? then
         && e.said.value == Said(w.created, Construct) && e.created == w.created + 1
         && Hands(now) == Some(w.created) && LifeAt(now, who) == Alive(t)
       else
         && e.created == w.created && e.said.value.sid == Hands(pc).value
         && (Hands(now) == Hands(pc) || Hands(now).None?)
         && Advance(LifeAt(pc, t), Event(e.said.value.sid, t, e.said.value.kind))
            == if Hands(now).None? then Over else LifeAt(now, who)
  }

  lemma EffectIsProper(w: World, pc: Pc, ok: bool, across: bool)
    requires !pc.Exited? && (pc.Arriving? ==> w.semaphore) && (Owning(pc) ==> !w.semaphore)
    requires pc.Starting? ==> w.session.None?
    ensures Proper(w, pc, EffectOf(w, pc, ok, across))
  {
  }

  /** Up to the hand-over to a thread, and from there on. */
  predicate Early(pc: Pc) { pc.Arriving? || pc.Starting? || pc.Constructed? || pc.Bumped? || pc.Entered? }

  predicate Placed(w: World, pc: Pc) {
    && (Owning(pc) || pc.Arriving?)
    && w.session == (if HasSession(pc) then Some(pc.sid) else None)
    && (Hands(pc).Some? ==> Hands(pc).value + 1 == w.created)
    && (NeedsRunner(pc) ==> w.runner)
  }

  lemma EarlyEffectIsProper(w: World, pc: Pc, t: nat, ok: bool, across: bool)
    requires Placed(w, pc) && Early(pc)
    ensures OwnerProper(w, pc, t, EffectOf(w, pc, ok, across))
  {
  }

  lemma LateEffectIsProper(w: World, pc: Pc, t: nat, ok: bool, across: bool)
    requires Placed(w, pc) && !Early(pc)
    ensures OwnerProper(w, pc, t, EffectOf(w, pc, ok, across))
  {
  }

  lemma OwnersEffectIsProper(w: World, pc: Pc, t: nat, ok: bool, across: bool)
    requires Placed(w, pc)
    ensures OwnerProper(w, pc, t, EffectOf(w, pc, ok, across))
  {
    if Early(pc) { EarlyEffectIsProper(w, pc, t, ok, across); } else { LateEffectIsProper(w, pc, t, ok, across); }
  }

  lemma ApplyKeepsOwner(w: World, h: Option<nat>, t: nat, e: Effect)
    requires t < |w.threads| && OneOwner(w, h) && Proper(w, w.threads[t], e)
    requires w.threads[t].Arriving? ==> h.None?
    ensures OneOwner(Apply(w, t, e), NextHolder(w, h, t, e))
  {
    var w', h' := Apply(w, t, e), NextHolder(w, h, t, e);
    forall u | 0 <= u < |w'.threads| ensures Owning(w'.threads[u]) <==> h' == Some(u) {
      if u < |w.threads| && u != t { assert w'.threads[u] == w.threads[u]; }
    }
  }

  lemma ApplyKeepsRefs(w: World, t: nat, e: Effect)
    requires t < |w.threads| && Proper(w, w.threads[t], e) && w.refs == Weights(w.threads)
    ensures Apply(w, t, e).refs == Weights(Apply(w, t, e).threads)
  {
    var changed := w.threads[t := e.pc];
    WeightsUpdate(w.threads, t, e.pc);
    if e.child.Some? {
      WeightsMore(changed, e.child.value);
    } else {
      assert changed + [] == changed;
    }
  }

  /** The thread that has the session in hand after an owner's step. */
  lemma NowInHand(w: World, h: Option<nat>, t: nat, e: Effect)
    requires t < |w.threads| && OneOwner(w, h) && Proper(w, w.threads[t], e)
    requires if Owning(w.threads[t]) then h == Some(t) else h.None?
    ensures
      var w', h' := Apply(w, t, e), NextHolder(w, h, t, e);
      if h'.Some? then h'.value == (if e.child.Some? then |w.threads| else t) && w'.threads[h'.value] == Now(e)
      else !Owning(Now(e))
  {
  }

  /** The life of one session after an owner's step that says nothing, and what it should be. */
  lemma LifeStays(w: World, h: Option<nat>, t: nat, e: Effect, sid: nat)
    requires t < |w.threads| && OneOwner(w, h) && Proper(w, w.threads[t], e) && OwnerProper(w, w.threads[t], t, e)
    requires OneOwner(Apply(w, t, e), NextHolder(w, h, t, e)) && e.said.None?
    requires if Owning(w.threads[t]) then h == Some(t) else h.None?
    ensures ExpectedLife(Apply(w, t, e), NextHolder(w, h, t, e), sid) == ExpectedLife(w, h, sid)
  {
    NowInHand(w, h, t, e);
  }

  /** And after one that says something. */
  lemma LifeMoves(w: World, h: Option<nat>, t: nat, e: Effect, sid: nat)
    requires t < |w.threads| && OneOwner(w, h) && Proper(w, w.threads[t], e) && OwnerProper(w, w.threads[t], t, e)
    requires OneOwner(Apply(w, t, e), NextHolder(w, h, t, e)) && e.said.Some? && OwnerKnows(w, h)
    requires if Owning(w.threads[t]) then h == Some(t) else h.None?
    ensures
      var event := Event(e.said.value.sid, t, e.said.value.kind);
      ExpectedLife(Apply(w, t, e), NextHolder(w, h, t, e), sid)
      == if event.sid == sid then Advance(ExpectedLife(w, h, sid), event) else ExpectedLife(w, h, sid)
  {
    NowInHand(w, h, t, e);
  }

  lemma LifeFollows(w: World, h: Option<nat>, t: nat, e: Effect, sid: nat)
    requires t < |w.threads| && OneOwner(w, h) && Proper(w, w.threads[t], e) && OwnerProper(w, w.threads[t], t, e)
    requires OneOwner(Apply(w, t, e), NextHolder(w, h, t, e))
    requires if Owning(w.threads[t]) then h == Some(t) else h.None?
    requires OwnerKnows(w, h) && LifeOf(w.log, sid) == ExpectedLife(w, h, sid)
    ensures LifeOf(Apply(w, t, e).log, sid) == ExpectedLife(Apply(w, t, e), NextHolder(w, h, t, e), sid)
  {
    if e.said.Some? {
      LifeMoves(w, h, t, e, sid);
      LifeAfter(w.log, Event(e.said.value.sid, t, e.said.value.kind), sid);
    } else {
      LifeStays(w, h, t, e, sid);
      assert Apply(w, t, e).log == w.log;
    }
  }

  lemma ApplyKeepsLives(w: World, h: Option<nat>, t: nat, e: Effect)
    requires t < |w.threads| && OneOwner(w, h) && Proper(w, w.threads[t], e) && OwnerProper(w, w.threads[t], t, e)
    requires OneOwner(Apply(w, t, e), NextHolder(w, h, t, e))
    requires if Owning(w.threads[t]) then h == Some(t) else h.None?
    requires OwnerKnows(w, h) && LivesAre(w, h)
    ensures LivesAre(Apply(w, t, e), NextHolder(w, h, t, e))
  {
    forall sid: nat
      ensures LifeOf(Apply(w, t, e).log, sid) == ExpectedLife(Apply(w, t, e), NextHolder(w, h, t, e), sid)
    {
      LifeFollows(w, h, t, e, sid);
    }
  }

  lemma ApplyKeepsKnowledge(w: World, h: Option<nat>, t: nat, e: Effect)
    requires t < |w.threads| && OneOwner(w, h) && Proper(w, w.threads[t], e) && OwnerProper(w, w.threads[t], t, e)
    requires OneOwner(Apply(w, t, e), NextHolder(w, h, t, e))
    requires if Owning(w.threads[t]) then h == Some(t) else h.None?
    ensures OwnerKnows(Apply(w, t, e), NextHolder(w, h, t, e))
  {
    NowInHand(w, h, t, e);
  }

  lemma ArriveKeepsInv(w: World, h: Option<nat>, s: Step)
    requires Inv(w, h) && s.Arrive?
    ensures Inv(Do(w, s), h)
  {
    WeightsMore(w.threads, Arriving(s.apc, s.exempt));
  }

  /** Every step keeps the invariant. */
  lemma StepKeepsInv(w: World, h: Option<nat>, s: Step) returns (h': Option<nat>)
    requires Inv(w, h) && Enabled(w, s)
    ensures Inv(Do(w, s), h')
  {
    if s.Arrive? {
      ArriveKeepsInv(w, h, s);
      return h;
    }
    var pc, e := w.threads[s.t], EffectOf(w, w.threads[s.t], s.ok, s.across);
    h' := NextHolder(w, h, s.t, e);
    EffectIsProper(w, pc, s.ok, s.across);
    ApplyKeepsOwner(w, h, s.t, e);
    ApplyKeepsRefs(w, s.t, e);
    if Owning(pc) || pc.Arriving? {
      OwnersEffectIsProper(w, pc, s.t, s.ok, s.across);
      ApplyKeepsKnowledge(w, h, s.t, e);
      ApplyKeepsLives(w, h, s.t, e);
    } else {
      OthersKeepLives(w, h, s.t, e);
    }
  }

  lemma OthersKeepLives(w: World, h: Option<nat>, t: nat, e: Effect)
    requires t < |w.threads| && Inv(w, h) && Proper(w, w.threads[t], e)
    requires !Owning(w.threads[t]) && !w.threads[t].Arriving?
    ensures NextHolder(w, h, t, e) == h
    ensures OwnerKnows(Apply(w, t, e), h) && LivesAre(Apply(w, t, e), h)
  {
    var w' := Apply(w, t, e);
    assert w'.log == w.log;
    forall sid: nat ensures LifeOf(w'.log, sid) == ExpectedLife(w', h, sid) {
      assert LifeOf(w.log, sid) == ExpectedLife(w, h, sid);
    }
  }

  // ---------------------------------------------------------------- runs

  ghost predicate AllEnabled(w: World, steps: seq<Step>)
    decreases |steps|
  {
    steps != [] ==> Enabled(w, steps[0]) && AllEnabled(Do(w, steps[0]), steps[1..])
  }

  function Run(w: World, steps: seq<Step>): World
    requires AllEnabled(w, steps)
    decreases |steps|
  {
    if steps == [] then w else Run(Do(w, steps[0]), steps[1..])
  }

  ghost predicate Reachable(w: World) {
    exists steps :: AllEnabled(Start, steps) && w == Run(Start, steps)
  }

  lemma {:induction false} RunKeepsInv(w: World, h: Option<nat>, steps: seq<Step>) returns (h': Option<nat>)
    requires Inv(w, h) && AllEnabled(w, steps)
    ensures Inv(Run(w, steps), h')
    decreases |steps|
  {
    h' := h;
    if steps != [] {
      h' := StepKeepsInv(w, h, steps[0]);
      h' := RunKeepsInv(Do(w, steps[0]), h', steps[1..]);
    }
  }

  lemma ReachableInv(w: World) returns (h: Option<nat>)
    requires Reachable(w)
    ensures Inv(w, h)
  {
    var steps :| AllEnabled(Start, steps) && w == Run(Start, steps);
    h := RunKeepsInv(Start, None, steps);
  }

  /** No session is ever used out of order, by a thread that passed it on, or after it was destroyed. */
  lemma NeverMisused(w: World, sid: nat)
    requires Reachable(w)
    ensures LifeOf(w.log, sid) != Broken
  {
    var h := ReachableInv(w);
    assert LifeOf(w.log, sid) == ExpectedLife(w, h, sid);
  }

  /** The only thread that may use the session is the one that holds it, and the session is there. */
  lemma UsersHoldTheSession(w: World, t: nat)
    requires Reachable(w) && t < |w.threads|
    ensures HasSession(w.threads[t]) ==> w.session == Some(w.threads[t].sid) && !w.semaphore
    ensures NeedsRunner(w.threads[t]) ==> w.runner
    ensures forall u :: 0 <= u < |w.threads| && Owning(w.threads[t]) && Owning(w.threads[u]) ==> t == u
  {
    var h := ReachableInv(w);
  }

  /** The check for a second session never finds one. */
  lemma SecondSessionNeverFound(w: World, t: nat)
    requires Reachable(w) && t < |w.threads|
    ensures w.clashes == 0 && (w.threads[t].Starting? ==> w.session.None?)
  {
    var h := ReachableInv(w);
  }

  lemma {:induction false} WeightIsPositive(threads: seq<Pc>, t: nat)
    requires t < |threads| && !threads[t].Exited?
    ensures Weights(threads) >= 1
  {
    if t < |threads| - 1 { WeightIsPositive(threads[..|threads| - 1], t); }
  }

  lemma {:induction false} NoWeight(threads: seq<Pc>)
    requires forall t :: 0 <= t < |threads| ==> threads[t].Exited?
    ensures Weights(threads) == 0
  {
    if threads != [] { NoWeight(threads[..|threads| - 1]); }
  }

  /** The module is loaded as long as one of the threads runs in it. */
  lemma ModuleOutlivesThreads(w: World)
    requires Reachable(w)
    ensures w.refs >= 0
    ensures (exists t :: 0 <= t < |w.threads| && !w.threads[t].Exited?) <==> w.refs > 0
  {
    var h := ReachableInv(w);
    if t :| 0 <= t < |w.threads| && !w.threads[t].Exited? {
      WeightIsPositive(w.threads, t);
    } else {
      NoWeight(w.threads);
    }
  }

  /** When all threads are gone, every session has had its whole life, and a new one could start. */
  lemma AllOverInTheEnd(w: World)
    requires Reachable(w) && forall t :: 0 <= t < |w.threads| ==> w.threads[t].Exited?
    ensures w.semaphore && w.session.None? && w.refs == 0
    ensures forall sid: nat :: LifeOf(w.log, sid) == if sid < w.created then Over else Unborn
  {
    var h := ReachableInv(w);
    NoWeight(w.threads);
    assert h.None?;
    forall sid: nat ensures LifeOf(w.log, sid) == if sid < w.created then Over else Unborn {
      assert LifeOf(w.log, sid) == ExpectedLife(w, h, sid);
    }
  }

  /** The threads never wait for each other in a circle: while one is left, some thread can move. */
  lemma SomeThreadCanMove(w: World)
    requires Reachable(w) && w.refs > 0
    ensures exists t: nat :: Enabled(w, Go(t, true, true))
  {
    var h := ReachableInv(w);
    ModuleOutlivesThreads(w);
    var t :| 0 <= t < |w.threads| && !w.threads[t].Exited?;
    if w.semaphore {
      assert Enabled(w, Go(t, true, true));
    } else {
      assert Enabled(w, Go(h.value, true, true));
    }
  }

  // ---------------------------------------------------------------- the life, spelled out

  function EventsOf(log: seq<Event>, sid: nat): seq<Event> {
    if log == [] then []
    else
      var before := EventsOf(log[..|log| - 1], sid);
      if log[|log| - 1].sid == sid then before + [log[|log| - 1]] else before
  }

  function LifeAfterAll(events: seq<Event>): Life {
    if events == [] then Unborn else Advance(LifeAfterAll(events[..|events| - 1]), events[|events| - 1])
  }

  lemma {:induction false} LifeOfEvents(log: seq<Event>, sid: nat)
    ensures LifeOf(log, sid) == LifeAfterAll(EventsOf(log, sid))
  {
    if log != [] {
      var before := EventsOf(log[..|log| - 1], sid);
      LifeOfEvents(log[..|log| - 1], sid);
      assert (before + [log[|log| - 1]])[..|before|] == before;
    }
  }

  predicate Use(k: Kind) { k.Touch? || k.Reload? || k.HandOver? }

  const ENDING: seq<Kind> := [BeforeUninit, HooksDisabled, Uninit, Destroyed, SemaphoreReleased]

  /** Construction first, then uses, and then so many of the five last steps, all by one thread. */
  ghost predicate LifeSoFar(events: seq<Event>, done: nat, owner: nat)
    requires done <= 5
  {
    && |events| > done && events[0].kind == Construct
    && (forall k :: 1 <= k < |events| - done ==> Use(events[k].kind))
    && (forall k :: |events| - done <= k < |events| ==>
          events[k].kind == ENDING[k - (|events| - done)] && events[k].thread == owner)
  }

  ghost predicate LifeShape(events: seq<Event>, l: Life) {
    match l
    case Unborn => events == []
    case Alive(t) => LifeSoFar(events, 0, t)
    case BeingTold(t) => LifeSoFar(events, 1, t)
    case HooksOff(t) => LifeSoFar(events, 2, t)
    case ModsOff(t) => LifeSoFar(events, 3, t)
    case Freed(t) => LifeSoFar(events, 4, t)
    case Over => events != [] && LifeSoFar(events, 5, events[|events| - 1].thread)
    case Broken => true
  }

  lemma LifeGrows(events: seq<Event>, done: nat, owner: nat, e: Event)
    requires done < 5 && LifeSoFar(events, done, owner) && e.thread == owner
    requires e.kind == ENDING[done]
    ensures LifeSoFar(events + [e], done + 1, owner)
  {
  }

  lemma {:induction false} LifeHasShape(events: seq<Event>)
    ensures LifeShape(events, LifeAfterAll(events))
  {
    if events != [] {
      var before, e := events[..|events| - 1], events[|events| - 1];
      LifeHasShape(before);
      assert events == before + [e];
      match LifeAfterAll(before) {
        case Alive(t) => if e.kind.BeforeUninit? && e.thread == t { LifeGrows(before, 0, t, e); }
        case BeingTold(t) => if e.kind.HooksDisabled? && e.thread == t { LifeGrows(before, 1, t, e); }
        case HooksOff(t) => if e.kind.Uninit? && e.thread == t { LifeGrows(before, 2, t, e); }
        case ModsOff(t) => if e.kind.Destroyed? && e.thread == t { LifeGrows(before, 3, t, e); }
        case Freed(t) => if e.kind.SemaphoreReleased? && e.thread == t { LifeGrows(before, 4, t, e); }
        case _ =>
      }
    }
  }

  /**
    In the end every session was constructed once, then used, then its mods were told, its hooks
    disabled, its mods uninitialized, itself destroyed, and the semaphore released: each once, in
    this order, by one thread, and nothing after that.
   */
  lemma EverySessionEndsOnce(w: World, sid: nat)
    requires Reachable(w) && sid < w.created
    requires forall t :: 0 <= t < |w.threads| ==> w.threads[t].Exited?
    ensures
      var events := EventsOf(w.log, sid);
      events != [] && LifeSoFar(events, 5, events[|events| - 1].thread)
  {
    AllOverInTheEnd(w);
    LifeOfEvents(w.log, sid);
    LifeHasShape(EventsOf(w.log, sid));
  }

  // ---------------------------------------------------------------- what happens in time

  /** A changed configuration is reloaded by the thread that saw it, in its loop. */
  lemma LoopReloads(w: World, t: nat, across: bool)
    requires t < |w.threads| && w.threads[t].Looping?
    ensures Enabled(w, Go(t, true, across))
    ensures
      var w' := Do(w, Go(t, true, across));
      w'.log == w.log + [Event(w.threads[t].sid, t, Reload)] && w'.threads == w.threads
  {
  }

  /** Or by the thread that is created because of it; if none can be created, the session is deleted instead. */
  lemma WatcherReloads(w: World, t: nat, a: bool, b: bool, c: bool)
    requires t < |w.threads| && w.threads[t].Watching?
    ensures
      var n, sid := |w.threads|, w.threads[t].sid;
      var w1 := Do(w, Go(t, true, a));
      && Enabled(w1, Go(t, true, b)) && Enabled(w1, Go(t, false, b))
      && Do(w1, Go(t, false, b)).threads[t] == Deleting(sid)
      && var w2 := Do(w1, Go(t, true, b));
         && Enabled(w2, Go(n, true, c))
         && Do(w2, Go(n, true, c)).log
            == w.log + [Event(sid, t, Touch)] + [Event(sid, t, HandOver(n))] + [Event(sid, n, Reload)]
         && Do(w2, Go(n, true, c)).threads[n] == Looping(sid)
  {
  }

  /** A dedicated thread that arrives at a free semaphore runs the loop of its session itself. */
  lemma DedicatedThreadLoops(w: World, t: nat, exempt: bool)
    requires Reachable(w) && t < |w.threads| && w.threads[t] == Arriving(false, exempt) && w.semaphore
    ensures
      var w1 := Do(w, Go(t, true, true));
      Enabled(w1, Go(t, true, true))
      && var w2 := Do(w1, Go(t, true, true));
         Enabled(w2, Go(t, true, true)) && Do(w2, Go(t, true, true)).threads[t] == Looping(w.created)
         && Do(w2, Go(t, true, true)).session == Some(w.created)
  {
    var h := ReachableInv(w);
  }

  /** From an APC a thread is created that runs the loop, or first only watches if attaching threads is to be noticed. */
  lemma ApcThreadHandsOver(w: World, t: nat, exempt: bool, across: bool)
    requires Reachable(w) && t < |w.threads| && w.threads[t] == Arriving(true, exempt) && w.semaphore
    ensures
      var n, sid := |w.threads|, w.created;
      var w1 := Do(w, Go(t, true, true));
      Enabled(w1, Go(t, true, true))
      && var w2 := Do(w1, Go(t, true, true));
         Enabled(w2, Go(t, true, across))
         && var w3 := Do(w2, Go(t, true, across));
            Enabled(w3, Go(t, true, true))
            && var w4 := Do(w3, Go(t, true, true));
               && Enabled(w4, Go(n, true, true)) && w4.session == Some(sid) && w4.threads[t] == Leaving
               && Do(w4, Go(n, true, true)).threads[n] == if exempt then Looping(sid) else Watching(sid)
  {
    var h := ReachableInv(w);
  }

  /** How far the holder of a session is from having released it, if no call succeeds any more. */
  function Distance(pc: Pc): nat {
    match pc
    case Constructed(_, _, _) => 9
    case Entered(_, _) => 9
    case Watching(_) => 8
    case Bumped(_, _) => 7
    case Looping(_) => 7
    case Deleting(_) => 6
    case Told(_) => 5
    case Unhooked(_) => 4
    case Uninitialized(_) => 3
    case Releasing(_) => 2
    case _ => 0
  }

  lemma OneStepCloser(w: World, h: Option<nat>, t: nat)
    requires Inv(w, h) && t < |w.threads| && Hands(w.threads[t]).Some?
    ensures
      var w' := Do(w, Go(t, false, false));
      && Distance(w'.threads[t]) < Distance(w.threads[t]) && |w'.threads| == |w.threads|
      && if w.threads[t].Releasing? then !Owning(w'.threads[t]) && w'.semaphore
         else Hands(w'.threads[t]) == Hands(w.threads[t])
  {
  }

  /** From wherever its holder is, and even if every call fails, a session comes to its end. */
  lemma {:induction false} SessionComesToItsEnd(w: World, h: Option<nat>, t: nat) returns (steps: seq<Step>)
    requires Inv(w, h) && t < |w.threads| && Hands(w.threads[t]).Some?
    ensures |steps| <= 9 && AllEnabled(w, steps)
    ensures LifeOf(Run(w, steps).log, Hands(w.threads[t]).value) == Over && Run(w, steps).semaphore
    ensures |steps| <= Distance(w.threads[t])
    decreases Distance(w.threads[t])
  {
    var s := Go(t, false, false);
    var sid := Hands(w.threads[t]).value;
    OneStepCloser(w, h, t);
    var w' := Do(w, s);
    var h' := StepKeepsInv(w, h, s);
    if w.threads[t].Releasing? {
      steps := [s];
      assert AllEnabled(w', []) && Run(w', []) == w';
      assert LifeOf(w'.log, sid) == ExpectedLife(w', h', sid);
    } else {
      var more := SessionComesToItsEnd(w', h', t);
      steps := [s] + more;
      assert steps[1..] == more;
    }
  }

  lemma EverySessionCanEnd(w: World, t: nat) returns (steps: seq<Step>)
    requires Reachable(w) && t < |w.threads| && Hands(w.threads[t]).Some?
    ensures |steps| <= 9 && AllEnabled(w, steps)
    ensures LifeOf(Run(w, steps).log, Hands(w.threads[t]).value) == Over && Run(w, steps).semaphore
  {
    var h := ReachableInv(w);
    steps := SessionComesToItsEnd(w, h, t);
  }
}
