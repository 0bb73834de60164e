/**
  One run of `LoadedMod::HookSymbols`: the stored cache, the stored cache again, the online cache, and
  the enumeration of the module's symbols, as far as they are needed.
 */
module SymbolRuns {
  import opened Text
  import opened SymbolSession
  import opened HookSymbolsSessions

  datatype Source = LocalCache | OnlineCache | Enumeration

  /** Where a run has got to; the session is the history `ops` so far. */
  datatype Proc =
    | Starting
    | LocalMissed(ops: seq<Op>)
    | SecondMissed(ops: seq<Op>)
    | OnlineMissed(ops: seq<Op>)
    | Storing(ops: seq<Op>, source: Source)
    | Returned(ops: seq<Op>, source: Source)
    | Failed

  function SessionOf(hooks: seq<Hook>, image: Image, ops: seq<Op>): Session {
    Run(hooks, image, ops).session
  }

  function Done(hooks: seq<Hook>, image: Image, ops: seq<Op>): bool {
    Complete(hooks, SessionOf(hooks, image, ops))
  }

  /** The stored cache, or nothing if it is not there or cannot be read. */
  function AfterLocal(hooks: seq<Hook>, image: Image, text: string): Proc {
    if text == "" then LocalMissed([])
    else if Run(hooks, image, [Cache(text)]).threw then Failed
    else if Done(hooks, image, [Cache(text)]) then Returned([Cache(text)], LocalCache)
    else LocalMissed([Cache(text)])
  }

  /** The second try, under the mutex that the processes take before they go online. */
  function AfterSecond(hooks: seq<Hook>, image: Image, ops: seq<Op>, text: string): Proc {
    var more := ops + [Cache(text)];
    if text == "" then SecondMissed(ops)
    else if Run(hooks, image, more).threw then Failed
    else if Done(hooks, image, more) then Returned(more, LocalCache)
    else SecondMissed(more)
  }

  function AfterOnline(hooks: seq<Hook>, image: Image, ops: seq<Op>, content: string): Proc {
    var more := ops + [Cache(content)];
    if content == "" then OnlineMissed(ops)
    else if Run(hooks, image, more).threw then Failed
    else if Done(hooks, image, more) then Storing(more, OnlineCache)
    else OnlineMissed(more)
  }

  /** One enumerated symbol; its name may be absent. */
  datatype Found = Found(name: Option<string>, address: nat)

  /** The history after one enumerated symbol, and whether it resolved the last hook. */
  function AfterFound(hooks: seq<Hook>, image: Image, ops: seq<Op>, f: Found): (seq<Op>, bool) {
    if f.name.None? then (ops, false)
    else
      var more := ops + [Symbol(f.name.value, f.address)];
      (more, Claimant(hooks, Gone(SessionOf(hooks, image, ops)), f.name.value, 0) < |hooks| && Done(hooks, image, more))
  }

  /** The enumeration stops at the symbol that resolves the last hook. */
  function EnumerationOps(hooks: seq<Hook>, image: Image, ops: seq<Op>, symbols: seq<Found>): seq<Op>
    decreases |symbols|
  {
    if symbols == [] then ops
    else
      var next := AfterFound(hooks, image, ops, symbols[0]);
      if next.1 then next.0 else EnumerationOps(hooks, image, next.0, symbols[1..])
  }

  function AfterEnumeration(hooks: seq<Hook>, image: Image, ops: seq<Op>, symbols: Option<seq<Found>>): Proc {
    if symbols.None? then Failed
    else
      var all := EnumerationOps(hooks, image, ops, symbols.value);
      var marked := all + [Missing];
      if Done(hooks, image, all) then Storing(all, Enumeration)
      else if Done(hooks, image, marked) then Storing(marked, Enumeration)
      else Failed
  }

  /** What a process writes, as it arrives through a NUL-terminated interface. */
  function Written(hooks: seq<Hook>, image: Image, ops: seq<Op>): string {
    UpToNul(Render(image, SessionOf(hooks, image, ops).entries))
  }

  // ---------------------------------------------------------------- one run, as a method

  /** What one run meets: store contents, online answer, symbols; None stands for not asked. */
  datatype Surroundings = Surroundings(
    local: string, online: bool, second: string, content: string, symbols: Option<seq<Found>>)

  /** The run's last state, given everything it meets. */
  function WholeRun(hooks: seq<Hook>, image: Image, env: Surroundings): Proc {
    var p := AfterLocal(hooks, image, env.local);
    if p.LocalMissed? then WithoutLocal(hooks, image, p.ops, env) else p
  }

  function WithoutLocal(hooks: seq<Hook>, image: Image, ops: seq<Op>, env: Surroundings): Proc {
    if !env.online then AfterEnumeration(hooks, image, ops, env.symbols)
    else
      var p := AfterSecond(hooks, image, ops, env.second);
      if p.SecondMissed? then WithoutStore(hooks, image, p.ops, env) else p
  }

  function WithoutStore(hooks: seq<Hook>, image: Image, ops: seq<Op>, env: Surroundings): Proc {
    var p := AfterOnline(hooks, image, ops, env.content);
    if p.OnlineMissed? then AfterEnumeration(hooks, image, p.ops, env.symbols) else p
  }

  /** For a hybrid module on a processor other than ARM64: give up, go on, or do nothing. */
  datatype HybridMode = Supported | Unsupported | DoNothing

  lemma RunOp(hooks: seq<Hook>, image: Image, ops: seq<Op>, op: Op)
    ensures !Run(hooks, image, ops).threw ==>
      Run(hooks, image, ops + [op]) == Step(hooks, image, SessionOf(hooks, image, ops), op)
    ensures Run(hooks, image, ops).threw ==> Run(hooks, image, ops + [op]) == Run(hooks, image, ops)
  {
    assert (ops + [op])[..|ops|] == ops;
  }

  /** How the code leaves a stage: go on, give up, or return with or without storing. */
  datatype Verdict = GoOn | GiveUp | Return(store: bool)

  function VerdictOf(p: Proc): Verdict {
    match p
    case Failed => GiveUp
    case Returned(_, _) => Return(false)
    case Storing(_, _) => Return(true)
    case _ => GoOn
  }

  /** The object is where the specification says the run is. */
  ghost predicate At(session: HookSymbolsSession, p: Proc)
    reads session
  {
    && session.Valid() && !session.applied
    && (p.Starting? ==> session.session == EmptySession)
    && (!p.Starting? && !p.Failed? ==>
          Run(session.hooks, session.image, p.ops) == Outcome(session.session, false))
  }

  method TryCache(session: HookSymbolsSession, ghost ops: seq<Op>, cache: string)
    returns (threw: bool, all: bool)
    requires session.Valid() && !session.applied
    requires Run(session.hooks, session.image, ops) == Outcome(session.session, false)
    modifies session
    ensures session.Valid() && !session.applied
    ensures Run(session.hooks, session.image, ops + [Cache(cache)]) == Outcome(session.session, threw)
    ensures all <==> Done(session.hooks, session.image, ops + [Cache(cache)])
  {
    RunOp(session.hooks, session.image, ops, Cache(cache));
    threw := session.ResolveSymbolsFromCache(cache);
    all := session.AreAllSymbolsResolved();
  }

  method Local(session: HookSymbolsSession, text: string) returns (v: Verdict, ghost p: Proc)
    requires At(session, Starting)
    modifies session
    ensures p == AfterLocal(session.hooks, session.image, text) && v == VerdictOf(p) && At(session, p)
  {
    p := AfterLocal(session.hooks, session.image, text);
    if text == "" { return GoOn, p; }
    assert [] + [Cache(text)] == [Cache(text)];
    var threw, all := TryCache(session, [], text);
    return if threw then GiveUp else if all then Return(false) else GoOn, p;
  }

  method Second(session: HookSymbolsSession, ghost ops: seq<Op>, text: string) returns (v: Verdict, ghost p: Proc)
    requires At(session, LocalMissed(ops))
    modifies session
    ensures p == AfterSecond(session.hooks, session.image, ops, text) && v == VerdictOf(p) && At(session, p)
  {
    p := AfterSecond(session.hooks, session.image, ops, text);
    if text == "" { return GoOn, p; }
    var threw, all := TryCache(session, ops, text);
    return if threw then GiveUp else if all then Return(false) else GoOn, p;
  }

  method Online(session: HookSymbolsSession, ghost ops: seq<Op>, content: string) returns (v: Verdict, ghost p: Proc)
    requires At(session, SecondMissed(ops))
    modifies session
    ensures p == AfterOnline(session.hooks, session.image, ops, content) && v == VerdictOf(p) && At(session, p)
  {
    p := AfterOnline(session.hooks, session.image, ops, content);
    if content == "" { return GoOn, p; }
    var threw, all := TryCache(session, ops, content);
    return if threw then GiveUp else if all then Return(true) else GoOn, p;
  }

  method TrySymbol(session: HookSymbolsSession, ghost ops: seq<Op>, symbol: string, address: nat)
    returns (found: bool, all: bool)
    requires session.Valid() && !session.applied
    requires Run(session.hooks, session.image, ops) == Outcome(session.session, false)
    modifies session
    ensures session.Valid() && !session.applied
    ensures Run(session.hooks, session.image, ops + [Symbol(symbol, address)]) == Outcome(session.session, false)
    ensures found <==>
      Claimant(session.hooks, Gone(SessionOf(session.hooks, session.image, ops)), symbol, 0) < |session.hooks|
    ensures all <==> Done(session.hooks, session.image, ops + [Symbol(symbol, address)])
  {
    RunOp(session.hooks, session.image, ops, Symbol(symbol, address));
    found := session.OnSymbolResolved(symbol, address);
    all := session.AreAllSymbolsResolved();
  }

  /** One turn of the enumeration; a symbol without a name is passed over. */
  method TryFound(session: HookSymbolsSession, ghost ops: seq<Op>, f: Found) returns (stop: bool, ghost more: seq<Op>)
    requires session.Valid() && !session.applied
    requires Run(session.hooks, session.image, ops) == Outcome(session.session, false)
    modifies session
    ensures session.Valid() && !session.applied
    ensures (more, stop) == AfterFound(session.hooks, session.image, ops, f)
    ensures Run(session.hooks, session.image, more) == Outcome(session.session, false)
  {
    ghost var next := AfterFound(session.hooks, session.image, ops, f);
    more := next.0;
    if f.name.None? { return false, more; }
    var found, complete := TrySymbol(session, ops, f.name.value, f.address);
    assert next.1 == (found && complete);
    stop := found && complete;
  }

  method Enumerate(session: HookSymbolsSession, ghost ops: seq<Op>, symbols: seq<Found>)
    returns (ghost all: seq<Op>)
    requires session.Valid() && !session.applied
    requires Run(session.hooks, session.image, ops) == Outcome(session.session, false)
    modifies session
    ensures session.Valid() && !session.applied
    ensures all == EnumerationOps(session.hooks, session.image, ops, symbols)
    ensures Run(session.hooks, session.image, all) == Outcome(session.session, false)
  {
    all := ops;
    var k := 0;
    assert symbols[0..] == symbols;
    while k < |symbols|
      invariant k <= |symbols| && session.Valid() && !session.applied
      invariant Run(session.hooks, session.image, all) == Outcome(session.session, false)
      invariant EnumerationOps(session.hooks, session.image, ops, symbols)
             == EnumerationOps(session.hooks, session.image, all, symbols[k..])
    {
      assert symbols[k..][0] == symbols[k] && symbols[k..][1..] == symbols[k + 1..];
      var stop;
      stop, all := TryFound(session, all, symbols[k]);
      if stop { return; }
      k := k + 1;
    }
  }

  method Finish(session: HookSymbolsSession, ghost ops: seq<Op>, symbols: Option<seq<Found>>)
    returns (v: Verdict, ghost p: Proc)
    requires At(session, OnlineMissed(ops))
    modifies session
    ensures p == AfterEnumeration(session.hooks, session.image, ops, symbols) && v == VerdictOf(p) && At(session, p)
  {
    p := AfterEnumeration(session.hooks, session.image, ops, symbols);
    if symbols.None? { return GiveUp, p; }
    ghost var seen := Enumerate(session, ops, symbols.value);
    var all := session.AreAllSymbolsResolved();
    if !all {
      RunOp(session.hooks, session.image, seen, Missing);
      session.MarkUnresolvedSymbolsAsMissing();
      all := session.AreAllSymbolsResolved();
      if !all { return GiveUp, p; }
    }
    return Return(true), p;
  }

  method ResolveWithoutStore(session: HookSymbolsSession, ghost ops: seq<Op>, env: Surroundings)
    returns (v: Verdict, ghost p: Proc)
    requires At(session, SecondMissed(ops))
    modifies session
    ensures p == WithoutStore(session.hooks, session.image, ops, env) && v == VerdictOf(p) && At(session, p)
  {
    v, p := Online(session, ops, env.content);
    if v == GoOn { v, p := Finish(session, p.ops, env.symbols); }
  }

  method ResolveWithoutLocal(session: HookSymbolsSession, ghost ops: seq<Op>, env: Surroundings)
    returns (v: Verdict, ghost p: Proc)
    requires At(session, LocalMissed(ops))
    modifies session
    ensures p == WithoutLocal(session.hooks, session.image, ops, env) && v == VerdictOf(p) && At(session, p)
  {
    if env.online {
      v, p := Second(session, ops, env.second);
      if v == GoOn { v, p := ResolveWithoutStore(session, p.ops, env); }
    } else {
      v, p := Finish(session, ops, env.symbols);
    }
  }

  method Resolve(session: HookSymbolsSession, env: Surroundings) returns (v: Verdict, ghost p: Proc)
    requires At(session, Starting)
    modifies session
    ensures p == WholeRun(session.hooks, session.image, env) && v == VerdictOf(p) && At(session, p)
  {
    v, p := Local(session, env.local);
    if v == GoOn { v, p := ResolveWithoutLocal(session, p.ops, env); }
  }

  // ---------------------------------------------------------------- what a run comes to

  function IfAny(text: string): seq<Op> { if text == "" then [] else [Cache(text)] }

  /** The caches a run has read when it has looked at the store once, twice, and at the online cache. */
  function ReadOnce(env: Surroundings): seq<Op> { IfAny(env.local) }
  function ReadTwice(env: Surroundings): seq<Op> { ReadOnce(env) + if env.online then IfAny(env.second) else [] }
  function ReadAll(env: Surroundings): seq<Op> { ReadTwice(env) + if env.online then IfAny(env.content) else [] }

  /** No exception on the way, and no hook left unresolved. */
  predicate Succeeds(hooks: seq<Hook>, image: Image, ops: seq<Op>) {
    !Run(hooks, image, ops).threw && Complete(hooks, Run(hooks, image, ops).session)
  }

  ghost function Left(hooks: seq<Hook>, s: Session): set<nat> {
    set i: nat | i < |hooks| && i !in s.resolved && i !in s.dropped
  }

  /** One enumerated symbol goes to the first of the hooks still left that list it. */
  ghost function Claimed(hooks: seq<Hook>, left: set<nat>, f: Found): set<nat>
    requires forall i :: i in left ==> i < |hooks|
  {
    if f.name.None? || forall i :: i in left ==> f.name.value !in hooks[i].symbols then {}
    else
      set i | i in left && f.name.value in hooks[i].symbols
              && forall j :: j in left && f.name.value in hooks[j].symbols ==> i <= j
  }

  /** The hooks that no symbol of the enumeration has reached. */
  ghost function Unclaimed(hooks: seq<Hook>, left: set<nat>, symbols: seq<Found>): (u: set<nat>)
    requires forall i :: i in left ==> i < |hooks|
    ensures u <= left
    decreases |symbols|
  {
    if symbols == [] then left else Unclaimed(hooks, left - Claimed(hooks, left, symbols[0]), symbols[1..])
  }

  lemma ClaimedIsClaimant(hooks: seq<Hook>, s: Session, name: string, address: nat)
    ensures
      var k := Claimant(hooks, Gone(s), name, 0);
      Claimed(hooks, Left(hooks, s), Found(Some(name), address)) == if k < |hooks| then {k} else {}
  {
    var k := Claimant(hooks, Gone(s), name, 0);
    var left := Left(hooks, s);
    assert forall i :: i in left && name in hooks[i].symbols ==> k <= i;
    if k < |hooks| { assert k in left; }
  }

  lemma OnSymbolLeaves(hooks: seq<Hook>, image: Image, s: Session, name: string, address: nat)
    ensures Left(hooks, OnSymbol(hooks, image, s, name, address))
      == Left(hooks, s) - Claimed(hooks, Left(hooks, s), Found(Some(name), address))
  {
    ClaimedIsClaimant(hooks, s, name, address);
    var k := Claimant(hooks, Gone(s), name, 0);
    if k < |hooks| {
      assert OnSymbol(hooks, image, s, name, address).resolved.Keys == s.resolved.Keys + {k};
    }
  }

  lemma {:induction false} UnclaimedOfNone(hooks: seq<Hook>, symbols: seq<Found>)
    ensures Unclaimed(hooks, {}, symbols) == {}
    decreases |symbols|
  {
    if symbols != [] {
      assert {} - Claimed(hooks, {}, symbols[0]) == {};
      UnclaimedOfNone(hooks, symbols[1..]);
    }
  }

  lemma CompleteIsNothingLeft(hooks: seq<Hook>, s: Session)
    ensures Complete(hooks, s) <==> Left(hooks, s) == {}
  {
    var r := Remaining(|hooks|, Gone(s));
    if r != [] { assert r[0] in Left(hooks, s); }
    forall i | i in Left(hooks, s) ensures r != [] { assert i in r; }
  }

  /** The enumeration, though it stops early, leaves exactly the hooks that no symbol would reach. */
  lemma {:induction false} EnumerationLeaves(hooks: seq<Hook>, image: Image, ops: seq<Op>, symbols: seq<Found>)
    requires !Run(hooks, image, ops).threw
    ensures
      var all := EnumerationOps(hooks, image, ops, symbols);
      && !Run(hooks, image, all).threw && ops <= all
      && SessionOf(hooks, image, all).dropped == SessionOf(hooks, image, ops).dropped
      && Left(hooks, SessionOf(hooks, image, all))
         == Unclaimed(hooks, Left(hooks, SessionOf(hooks, image, ops)), symbols)
    decreases |symbols|
  {
    if symbols != [] {
      var f, s := symbols[0], SessionOf(hooks, image, ops);
      var next := AfterFound(hooks, image, ops, f);
      if f.name.None? {
        assert Left(hooks, s) - Claimed(hooks, Left(hooks, s), f) == Left(hooks, s);
      } else {
        RunOp(hooks, image, ops, Symbol(f.name.value, f.address));
        OnSymbolLeaves(hooks, image, s, f.name.value, f.address);
      }
      if next.1 {
        CompleteIsNothingLeft(hooks, SessionOf(hooks, image, next.0));
        UnclaimedOfNone(hooks, symbols[1..]);
      } else {
        EnumerationLeaves(hooks, image, next.0, symbols[1..]);
      }
    }
  }

  /** The required hooks are all reached, by the caches or by the symbols that follow. */
  ghost predicate RequiredReached(hooks: seq<Hook>, image: Image, ops: seq<Op>, symbols: seq<Found>) {
    forall i :: i in Unclaimed(hooks, Left(hooks, Run(hooks, image, ops).session), symbols) ==> hooks[i].optional
  }

  lemma MissingAreLeft(hooks: seq<Hook>, s: Session)
    ensures MarkMissing(hooks, s).dropped == s.dropped + set i | i in Left(hooks, s) && hooks[i].optional
  {
    forall i: nat ensures i in Remaining(|hooks|, Gone(s)) <==> i in Left(hooks, s) {
    }
  }

  lemma MarkMissingLeaves(hooks: seq<Hook>, s: Session)
    ensures Complete(hooks, MarkMissing(hooks, s)) <==> forall i :: i in Left(hooks, s) ==> hooks[i].optional
    ensures MarkMissing(hooks, s).dropped == s.dropped + set i | i in Left(hooks, s) && hooks[i].optional
    ensures MarkMissing(hooks, s).resolved == s.resolved
  {
    var t := MarkMissing(hooks, s);
    CompleteIsNothingLeft(hooks, t);
    MissingAreLeft(hooks, s);
    forall i ensures i in Left(hooks, t) <==> i in Left(hooks, s) && !hooks[i].optional {
    }
  }

  /** How an enumeration ends that starts from a history without an exception and with hooks left. */
  lemma EnumerationComesTo(hooks: seq<Hook>, image: Image, ops: seq<Op>, symbols: seq<Found>)
    requires !Run(hooks, image, ops).threw
    ensures
      var p := AfterEnumeration(hooks, image, ops, Some(symbols));
      && (p.Storing? <==> RequiredReached(hooks, image, ops, symbols)) && (p.Storing? || p.Failed?)
      && (p.Storing? ==>
            && Succeeds(hooks, image, p.ops)
            && SessionOf(hooks, image, p.ops).dropped
               == SessionOf(hooks, image, ops).dropped + Unclaimed(hooks, Left(hooks, SessionOf(hooks, image, ops)), symbols))
  {
    var all := EnumerationOps(hooks, image, ops, symbols);
    EnumerationLeaves(hooks, image, ops, symbols);
    CompleteIsNothingLeft(hooks, SessionOf(hooks, image, all));
    RunOp(hooks, image, all, Missing);
    MarkMissingLeaves(hooks, SessionOf(hooks, image, all));
  }

  ghost predicate CachesSucceed(hooks: seq<Hook>, image: Image, env: Surroundings) {
    Succeeds(hooks, image, ReadOnce(env)) || Succeeds(hooks, image, ReadTwice(env)) || Succeeds(hooks, image, ReadAll(env))
  }

  lemma NothingReadLeaves(hooks: seq<Hook>, image: Image)
    requires hooks != []
    ensures !Succeeds(hooks, image, [])
  {
    CompleteIsNothingLeft(hooks, EmptySession);
    assert 0 in Left(hooks, EmptySession);
  }

  lemma ThrownStays(hooks: seq<Hook>, image: Image, a: seq<Op>, b: seq<Op>)
    requires |b| <= 1 && Run(hooks, image, a).threw
    ensures Run(hooks, image, a + b).threw
  {
    if b == [] { assert a + b == a; } else { RunOp(hooks, image, a, b[0]); assert b == [b[0]]; }
  }

  /** The local try, and all that follows only if it does not finish the run. */
  lemma LocalComesTo(hooks: seq<Hook>, image: Image, text: string)
    requires hooks != []
    ensures
      var p, ops := AfterLocal(hooks, image, text), IfAny(text);
      if Run(hooks, image, ops).threw then p == Failed
      else if Succeeds(hooks, image, ops) then p == Returned(ops, LocalCache)
      else p == LocalMissed(ops)
  {
    NothingReadLeaves(hooks, image);
  }

  lemma SecondComesTo(hooks: seq<Hook>, image: Image, ops: seq<Op>, text: string)
    requires !Run(hooks, image, ops).threw && !Succeeds(hooks, image, ops)
    ensures
      var p, more := AfterSecond(hooks, image, ops, text), ops + IfAny(text);
      if Run(hooks, image, more).threw then p == Failed
      else if Succeeds(hooks, image, more) then p == Returned(more, LocalCache)
      else p == SecondMissed(more)
  {
    assert ops + [] == ops;
  }

  lemma OnlineComesTo(hooks: seq<Hook>, image: Image, ops: seq<Op>, text: string)
    requires !Run(hooks, image, ops).threw && !Succeeds(hooks, image, ops)
    ensures
      var p, more := AfterOnline(hooks, image, ops, text), ops + IfAny(text);
      if Run(hooks, image, more).threw then p == Failed
      else if Succeeds(hooks, image, more) then p == Storing(more, OnlineCache)
      else p == OnlineMissed(more)
  {
    assert ops + [] == ops;
  }

  /**
    Where a run ends, from what it meets: in success exactly if the caches resolve everything, or
    none of them throws and the enumeration reaches every required hook.
   */
  lemma RunComesTo(hooks: seq<Hook>, image: Image, env: Surroundings)
    requires hooks != []
    ensures
      var p := WholeRun(hooks, image, env);
      && (p.Returned? || p.Storing? || p.Failed?)
      && (p.Returned? <==> Succeeds(hooks, image, ReadOnce(env)) || Succeeds(hooks, image, ReadTwice(env)))
      && (p.Failed? <==> !CachesSucceed(hooks, image, env)
                         && (Run(hooks, image, ReadAll(env)).threw || env.symbols.None?
                             || !RequiredReached(hooks, image, ReadAll(env), env.symbols.value)))
      && (p.Returned? || p.Storing? ==> Succeeds(hooks, image, p.ops))
      && (p.Storing? && !CachesSucceed(hooks, image, env) ==>
            var s := Run(hooks, image, ReadAll(env)).session;
            SessionOf(hooks, image, p.ops).dropped
            == s.dropped + Unclaimed(hooks, Left(hooks, s), env.symbols.value))
  {
    var a, b, c := ReadOnce(env), ReadTwice(env), ReadAll(env);
    var b' := if env.online then IfAny(env.second) else [];
    var c' := if env.online then IfAny(env.content) else [];
    LocalComesTo(hooks, image, env.local);
    if Run(hooks, image, a).threw {
      ThrownStays(hooks, image, a, b');
      ThrownStays(hooks, image, b, c');
    } else if !Succeeds(hooks, image, a) {
      WithoutLocalComesTo(hooks, image, env);
    }
  }

  lemma WithoutLocalComesTo(hooks: seq<Hook>, image: Image, env: Surroundings)
    requires !Run(hooks, image, ReadOnce(env)).threw && !Succeeds(hooks, image, ReadOnce(env))
    ensures
      var p := WithoutLocal(hooks, image, ReadOnce(env), env);
      && (p.Returned? || p.Storing? || p.Failed?)
      && (p.Returned? <==> Succeeds(hooks, image, ReadTwice(env)))
      && (p.Failed? <==> !CachesSucceed(hooks, image, env)
                         && (Run(hooks, image, ReadAll(env)).threw || env.symbols.None?
                             || !RequiredReached(hooks, image, ReadAll(env), env.symbols.value)))
      && (p.Returned? || p.Storing? ==> Succeeds(hooks, image, p.ops))
      && (p.Storing? && !CachesSucceed(hooks, image, env) ==>
            var s := Run(hooks, image, ReadAll(env)).session;
            SessionOf(hooks, image, p.ops).dropped
            == s.dropped + Unclaimed(hooks, Left(hooks, s), env.symbols.value))
  {
    var a, b, c := ReadOnce(env), ReadTwice(env), ReadAll(env);
    if !env.online {
      assert a == b == c;
      if env.symbols.Some? { EnumerationComesTo(hooks, image, a, env.symbols.value); }
    } else {
      SecondComesTo(hooks, image, a, env.second);
      if Run(hooks, image, b).threw {
        ThrownStays(hooks, image, b, IfAny(env.content));
      } else if !Succeeds(hooks, image, b) {
        OnlineComesTo(hooks, image, b, env.content);
        if !Run(hooks, image, c).threw && !Succeeds(hooks, image, c) && env.symbols.Some? {
          EnumerationComesTo(hooks, image, c, env.symbols.value);
        }
      }
    }
  }

  // ---------------------------------------------------------------- where the hooked addresses came from

  /** Addresses are machine words. */
  predicate ValidFound(image: Image, symbols: Option<seq<Found>>) {
    symbols.Some? ==> forall k :: 0 <= k < |symbols.value| ==> FitsWord(image, symbols.value[k].address)
  }

  /** The run met this name with this address: in a cache that it read, or in the enumeration. */
  ghost predicate Met(image: Image, env: Surroundings, name: string, address: nat) {
    || (exists op :: op in ReadAll(env) && Offers(image, op, name, address))
    || (env.symbols.Some? && Found(Some(name), address) in env.symbols.value)
  }

  /** An operation of this run. */
  predicate OfThisRun(env: Surroundings, op: Op) {
    || op in ReadAll(env) || op.Missing?
    || (op.Symbol? && env.symbols.Some? && Found(Some(op.symbol), op.address) in env.symbols.value)
  }

  lemma FoundIsMet(hooks: seq<Hook>, image: Image, ops: seq<Op>, f: Found, env: Surroundings)
    requires env.symbols.Some? && f in env.symbols.value
    requires forall op :: op in ops ==> OfThisRun(env, op)
    ensures forall op :: op in AfterFound(hooks, image, ops, f).0 ==> OfThisRun(env, op)
  {
  }

  lemma {:induction false} EnumerationIsMet(
    hooks: seq<Hook>, image: Image, ops: seq<Op>, symbols: seq<Found>, env: Surroundings)
    requires env.symbols.Some? && forall f :: f in symbols ==> f in env.symbols.value
    requires forall op :: op in ops ==> OfThisRun(env, op)
    ensures forall op :: op in EnumerationOps(hooks, image, ops, symbols) ==> OfThisRun(env, op)
    decreases |symbols|
  {
    if symbols != [] {
      var next := AfterFound(hooks, image, ops, symbols[0]);
      FoundIsMet(hooks, image, ops, symbols[0], env);
      if !next.1 { EnumerationIsMet(hooks, image, next.0, symbols[1..], env); }
    }
  }

  lemma AfterEnumerationIsMet(hooks: seq<Hook>, image: Image, env: Surroundings)
    ensures
      var p := AfterEnumeration(hooks, image, ReadAll(env), env.symbols);
      p.Storing? ==> forall op :: op in p.ops ==> OfThisRun(env, op)
  {
    if env.symbols.Some? { EnumerationIsMet(hooks, image, ReadAll(env), env.symbols.value, env); }
  }

  lemma WithoutLocalIsMet(hooks: seq<Hook>, image: Image, env: Surroundings)
    requires !Run(hooks, image, ReadOnce(env)).threw && !Succeeds(hooks, image, ReadOnce(env))
    ensures
      var p := WithoutLocal(hooks, image, ReadOnce(env), env);
      p.Returned? || p.Storing? ==> forall op :: op in p.ops ==> OfThisRun(env, op)
  {
    AfterEnumerationIsMet(hooks, image, env);
    if !env.online {
      assert ReadOnce(env) == ReadAll(env);
    } else {
      SecondComesTo(hooks, image, ReadOnce(env), env.second);
      if !Run(hooks, image, ReadTwice(env)).threw && !Succeeds(hooks, image, ReadTwice(env)) {
        OnlineComesTo(hooks, image, ReadTwice(env), env.content);
      }
    }
  }

  lemma HistoryIsMet(hooks: seq<Hook>, image: Image, env: Surroundings)
    requires hooks != []
    ensures
      var p := WholeRun(hooks, image, env);
      p.Returned? || p.Storing? ==> forall op :: op in p.ops ==> OfThisRun(env, op)
  {
    LocalComesTo(hooks, image, env.local);
    if !Run(hooks, image, ReadOnce(env)).threw && !Succeeds(hooks, image, ReadOnce(env)) {
      WithoutLocalIsMet(hooks, image, env);
    }
  }

  /** Every hook that is set, is set at an address that the run met together with one of the hook's own symbols. */
  lemma PendingWereMet(hooks: seq<Hook>, image: Image, env: Surroundings, ops: seq<Op>, c: PendingHook)
    requires ValidFound(image, env.symbols) && forall op :: op in ops ==> OfThisRun(env, op)
    requires c in Run(hooks, image, ops).session.pending
    ensures c.hook < |hooks| && hooks[c.hook].hasHookFunction
    ensures exists name :: name in hooks[c.hook].symbols && Met(image, env, name, c.target)
  {
    var s := Run(hooks, image, ops).session;
    forall k | 0 <= k < |ops| ensures ValidOp(image, ops[k]) {
      assert OfThisRun(env, ops[k]);
    }
    HistoryPartitionsHooks(hooks, image, ops);
    AddressesWereOffered(hooks, image, ops, c.hook);
    var k :| 0 <= k < |ops| && Offers(image, ops[k], s.resolved[c.hook].symbol, s.resolved[c.hook].address);
    assert OfThisRun(env, ops[k]);
    assert Met(image, env, s.resolved[c.hook].symbol, c.target);
  }

  // ---------------------------------------------------------------- the method

  predicate PairwiseDisjoint(hooks: seq<Hook>) {
    forall i, j, k :: 0 <= i < |hooks| && 0 <= j < |hooks| && i != j && 0 <= k < |hooks[i].symbols| ==>
      hooks[i].symbols[k] !in hooks[j].symbols
  }

  /** With disjoint lists, a symbol reaches exactly the hook that lists it. */
  lemma {:induction false} DisjointUnclaimed(hooks: seq<Hook>, left: set<nat>, symbols: seq<Found>, i: nat)
    requires PairwiseDisjoint(hooks) && i in left && forall j :: j in left ==> j < |hooks|
    ensures i in Unclaimed(hooks, left, symbols) <==>
      forall k :: 0 <= k < |symbols| && symbols[k].name.Some? ==> symbols[k].name.value !in hooks[i].symbols
    decreases |symbols|
  {
    if symbols != [] {
      var f := symbols[0];
      var claimed := Claimed(hooks, left, f);
      if f.name.Some? && f.name.value in hooks[i].symbols {
        forall j | j in left && f.name.value in hooks[j].symbols ensures j == i {
          var k :| 0 <= k < |hooks[i].symbols| && hooks[i].symbols[k] == f.name.value;
        }
        assert i in claimed;
      } else {
        assert i !in claimed;
        DisjointUnclaimed(hooks, left - claimed, symbols[1..], i);
        assert forall k :: 1 <= k < |symbols| ==> symbols[k] == symbols[1..][k - 1];
        assert forall k :: 0 <= k < |symbols| - 1 ==> symbols[1..][k] == symbols[k + 1];
      }
    }
  }

  /** No cache text at all: nothing stored, and nothing online or no try there. */
  predicate NoTexts(env: Surroundings) {
    env.local == "" && (env.online ==> env.second == "" && env.content == "")
  }

  lemma WithoutTexts(hooks: seq<Hook>, image: Image, env: Surroundings)
    requires hooks != [] && NoTexts(env) && env.symbols.Some?
    ensures ReadAll(env) == [] && !CachesSucceed(hooks, image, env) && Run(hooks, image, []) == Outcome(EmptySession, false)
    ensures PairwiseDisjoint(hooks) ==>
      forall i: nat :: i < |hooks| ==>
        (i in Unclaimed(hooks, Left(hooks, EmptySession), env.symbols.value) <==>
         forall k :: 0 <= k < |env.symbols.value| && env.symbols.value[k].name.Some? ==>
           env.symbols.value[k].name.value !in hooks[i].symbols)
  {
    NothingReadLeaves(hooks, image);
    if PairwiseDisjoint(hooks) {
      forall i: nat | i < |hooks|
        ensures i in Unclaimed(hooks, Left(hooks, EmptySession), env.symbols.value) <==>
          forall k :: 0 <= k < |env.symbols.value| && env.symbols.value[k].name.Some? ==>
            env.symbols.value[k].name.value !in hooks[i].symbols
      {
        DisjointUnclaimed(hooks, Left(hooks, EmptySession), env.symbols.value, i);
      }
    }
  }

  /** The enumeration has a name that the hook lists. */
  predicate Enumerated(hook: Hook, symbols: seq<Found>) {
    exists k :: 0 <= k < |symbols| && symbols[k].name.Some? && symbols[k].name.value in hook.symbols
  }

  lemma DisjointOutcome(hooks: seq<Hook>, image: Image, env: Surroundings)
    requires hooks != [] && NoTexts(env) && env.symbols.Some? && PairwiseDisjoint(hooks)
    ensures RequiredReached(hooks, image, ReadAll(env), env.symbols.value) <==>
      forall i :: 0 <= i < |hooks| && !hooks[i].optional ==> Enumerated(hooks[i], env.symbols.value)
    ensures forall i: nat :: i in Unclaimed(hooks, Left(hooks, EmptySession), env.symbols.value) <==>
      i < |hooks| && !Enumerated(hooks[i], env.symbols.value)
  {
    WithoutTexts(hooks, image, env);
  }

  /**
    The run's result, the hooks it set, and the text that it asked to be stored; `history` is what its
    session went through. It succeeds exactly if the caches it reads resolve every hook, or none of
    them throws and the caches and the enumerated symbols together reach every required hook. Then all
    pending hooks are set, at addresses met with their own symbols, and the printed cache is stored
    unless the local store sufficed. In every other case nothing is set and nothing stored.
   */
  method HookSymbols(hooks: seq<Hook>, image: Image, mode: HybridMode, env: Surroundings)
    returns (result: bool, calls: seq<PendingHook>, stored: Option<string>, ghost history: seq<Op>)
    requires ValidImage(image) && ValidFound(image, env.symbols)
    ensures hooks == [] ==> result && calls == [] && stored == None
    ensures hooks != [] && image.separator == ';' && mode != Supported ==>
              (result <==> mode == DoNothing) && calls == [] && stored == None
    ensures hooks != [] && (image.separator != ';' || mode == Supported) ==>
      (result <==>
       || CachesSucceed(hooks, image, env)
       || (!Run(hooks, image, ReadAll(env)).threw && env.symbols.Some?
           && RequiredReached(hooks, image, ReadAll(env), env.symbols.value)))
    ensures hooks != [] && (image.separator != ';' || mode == Supported) && result ==>
      && Succeeds(hooks, image, history) && calls == SessionOf(hooks, image, history).pending
      && (stored.None? <==> Succeeds(hooks, image, ReadOnce(env)) || Succeeds(hooks, image, ReadTwice(env)))
      && (stored.Some? ==> stored.value == Render(image, SessionOf(hooks, image, history).entries))
      && (!CachesSucceed(hooks, image, env) ==>
            var s := Run(hooks, image, ReadAll(env)).session;
            SessionOf(hooks, image, history).dropped == s.dropped + Unclaimed(hooks, Left(hooks, s), env.symbols.value))
    ensures forall c :: c in calls ==>
      c.hook < |hooks| && exists name :: name in hooks[c.hook].symbols && Met(image, env, name, c.target)
    ensures hooks != [] && (image.separator != ';' || mode == Supported)
            && NoTexts(env) && env.symbols.Some? && PairwiseDisjoint(hooks) ==>
      && (result <==> forall i :: 0 <= i < |hooks| && !hooks[i].optional ==>
            exists k :: 0 <= k < |env.symbols.value| && env.symbols.value[k].name.Some?
                     && env.symbols.value[k].name.value in hooks[i].symbols)
      && (result ==> stored.Some? && forall i: nat :: i in SessionOf(hooks, image, history).dropped <==>
            i < |hooks| && hooks[i].optional && !Enumerated(hooks[i], env.symbols.value))
    ensures !result ==> calls == [] && stored == None
  {
    history := [];
    if hooks == [] { return true, [], None, history; }
    if image.separator == ';' && mode != Supported { return mode == DoNothing, [], None, history; }
    var session := new HookSymbolsSession(hooks, image);
    var v, p := Resolve(session, env);
    RunComesTo(hooks, image, env);
    if NoTexts(env) && env.symbols.Some? {
      WithoutTexts(hooks, image, env);
      if PairwiseDisjoint(hooks) { DisjointOutcome(hooks, image, env); }
    }
    if !v.Return? { return false, [], None, history; }
    history := p.ops;
    HistoryIsMet(hooks, image, env);
    calls := session.ApplyPendingHooks();
    forall c | c in calls
      ensures c.hook < |hooks| && exists name :: name in hooks[c.hook].symbols && Met(image, env, name, c.target)
    {
      PendingWereMet(hooks, image, env, history, c);
    }
    return true, calls, if v.store then Some(session.newSystemCacheStr) else None, history;
  }
}
