/** What a mod is told over its life, and the only order in which it may be told. */
module ModTrace {

  datatype Kind = InitTrue | InitFalse | AfterInit | SettingsChanged | BeforeUninit | Uninit | Release

  /** A call into one loaded instance of a mod, or a change to all hooks at once. */
  datatype Event = Call(inst: nat, kind: Kind) | HooksApplied | HooksDisabled

  datatype Phase = Absent | Started | Ready | Leaving | Uninitialized | Refused | Gone | Broken

  function Advance(p: Phase, k: Kind): Phase {
    match (p, k)
    case (Absent, InitTrue) => Started
    case (Absent, InitFalse) => Refused
    case (Refused, Release) => Gone
    case (Started, AfterInit) => Ready
    case (Ready, SettingsChanged) => Ready
    case (Ready, BeforeUninit) => Leaving
    case (Leaving, Uninit) => Uninitialized
    case (Uninitialized, Release) => Gone
    case _ => Broken
  }

  function PhaseOf(trace: seq<Event>, inst: nat): Phase {
    if trace == [] then Absent
    else
      var p := PhaseOf(trace[..|trace| - 1], inst);
      var e := trace[|trace| - 1];
      if e.Call? && e.inst == inst then Advance(p, e.kind) else p
  }

  /** The calls that one instance has seen. */
  function CallsOf(trace: seq<Event>, inst: nat): seq<Kind> {
    if trace == [] then []
    else
      var e := trace[|trace| - 1];
      CallsOf(trace[..|trace| - 1], inst) + if e.Call? && e.inst == inst then [e.kind] else []
  }

  predicate AllSettingsChanged(calls: seq<Kind>) {
    forall k :: 0 <= k < |calls| ==> calls[k] == SettingsChanged
  }

  /** Init and AfterInit, any number of SettingsChanged, then the three leaving calls; or a refusal. */
  ghost predicate FullLife(calls: seq<Kind>) {
    || calls == [InitFalse, Release]
    || exists changes :: AllSettingsChanged(changes)
         && calls == [InitTrue, AfterInit] + changes + [BeforeUninit, Uninit, Release]
  }

  function PhaseAfter(calls: seq<Kind>): Phase {
    if calls == [] then Absent else Advance(PhaseAfter(calls[..|calls| - 1]), calls[|calls| - 1])
  }

  lemma {:induction false} PhaseOfCalls(trace: seq<Event>, inst: nat)
    ensures PhaseOf(trace, inst) == PhaseAfter(CallsOf(trace, inst))
  {
    if trace != [] {
      var before := CallsOf(trace[..|trace| - 1], inst);
      PhaseOfCalls(trace[..|trace| - 1], inst);
      var e := trace[|trace| - 1];
      if e.Call? && e.inst == inst {
        assert CallsOf(trace, inst)[..|before|] == before;
      } else {
        assert CallsOf(trace, inst) == before;
      }
    }
  }

  ghost predicate LifeUpTo(calls: seq<Kind>, p: Phase) {
    match p
    case Absent => calls == []
    case Started => calls == [InitTrue]
    case Refused => calls == [InitFalse]
    case Ready => ReadyLife(calls)
    case Leaving => |calls| >= 1 && calls[|calls| - 1] == BeforeUninit && ReadyLife(calls[..|calls| - 1])
    case Uninitialized =>
      && |calls| >= 2 && calls[|calls| - 1] == Uninit && calls[|calls| - 2] == BeforeUninit
      && ReadyLife(calls[..|calls| - 2])
    case Gone => FullLife(calls)
    case Broken => true
  }

  predicate ReadyLife(calls: seq<Kind>) {
    |calls| >= 2 && calls[..2] == [InitTrue, AfterInit] && AllSettingsChanged(calls[2..])
  }

  lemma {:induction false} LifeOfPhase(calls: seq<Kind>)
    ensures LifeUpTo(calls, PhaseAfter(calls))
  {
    if calls != [] {
      var n := |calls| - 1;
      var before := calls[..n];
      LifeOfPhase(before);
      match PhaseAfter(calls) {
        case Ready =>
          if n >= 2 { assert calls[..2] == before[..2] && calls[2..] == before[2..] + [calls[n]]; }
          else { assert calls == [InitTrue, AfterInit] && calls[2..] == []; }
        case Uninitialized => assert calls[..n - 1] == before[..n - 1];
        case Gone =>
          if PhaseAfter(before) == Uninitialized {
            var ready := before[..n - 2];
            assert calls == [InitTrue, AfterInit] + ready[2..] + [BeforeUninit, Uninit, Release];
          }
        case _ =>
      }
    }
  }

  lemma {:induction false} PhaseThrough(a: seq<Kind>, changes: seq<Kind>)
    requires PhaseAfter(a) == Ready && AllSettingsChanged(changes)
    ensures PhaseAfter(a + changes) == Ready
  {
    if changes == [] {
      assert a + changes == a;
    } else {
      var n := |changes| - 1;
      PhaseThrough(a, changes[..n]);
      assert (a + changes)[..|a| + n] == a + changes[..n];
    }
  }

  lemma PhaseSnoc(calls: seq<Kind>, k: Kind)
    ensures PhaseAfter(calls + [k]) == Advance(PhaseAfter(calls), k)
  {
    assert (calls + [k])[..|calls|] == calls;
  }

  lemma TwoCalls(a: Kind, b: Kind)
    ensures PhaseAfter([a, b]) == Advance(Advance(Absent, a), b)
  {
    assert [a][..0] == [];
    assert PhaseAfter([a]) == Advance(Absent, a);
    assert [a, b][..1] == [a];
  }

  lemma LeavingLife(ready: seq<Kind>)
    requires PhaseAfter(ready) == Ready
    ensures PhaseAfter(ready + [BeforeUninit, Uninit, Release]) == Gone
  {
    PhaseSnoc(ready, BeforeUninit);
    PhaseSnoc(ready + [BeforeUninit], Uninit);
    PhaseSnoc(ready + [BeforeUninit] + [Uninit], Release);
    assert ready + [BeforeUninit] + [Uninit] + [Release] == ready + [BeforeUninit, Uninit, Release];
  }

  lemma FullLifeIsGone(calls: seq<Kind>)
    requires FullLife(calls)
    ensures PhaseAfter(calls) == Gone
  {
    TwoCalls(InitFalse, Release);
    TwoCalls(InitTrue, AfterInit);
    if calls != [InitFalse, Release] {
      var changes :| AllSettingsChanged(changes)
                     && calls == [InitTrue, AfterInit] + changes + [BeforeUninit, Uninit, Release];
      PhaseThrough([InitTrue, AfterInit], changes);
      LeavingLife([InitTrue, AfterInit] + changes);
    }
  }

  /** An instance has gone through the whole automaton exactly if its calls are a full life. */
  lemma GoneIsFullLife(trace: seq<Event>, inst: nat)
    ensures PhaseOf(trace, inst) == Gone <==> FullLife(CallsOf(trace, inst))
  {
    var calls := CallsOf(trace, inst);
    PhaseOfCalls(trace, inst);
    LifeOfPhase(calls);
    if FullLife(calls) { FullLifeIsGone(calls); }
  }

  // ---------------------------------------------------------------- one call for each of a set

  /** Exactly one call of this kind for each of these instances, in some order. */
  predicate Each(seg: seq<Event>, insts: set<nat>, kind: Kind) {
    if seg == [] then insts == {}
    else
      var e := seg[|seg| - 1];
      e.Call? && e.kind == kind && e.inst in insts && Each(seg[..|seg| - 1], insts - {e.inst}, kind)
  }

  lemma EachOneMore(seg: seq<Event>, insts: set<nat>, kind: Kind, inst: nat)
    requires Each(seg, insts, kind) && inst !in insts
    ensures Each(seg + [Call(inst, kind)], insts + {inst}, kind)
  {
    assert (seg + [Call(inst, kind)])[..|seg|] == seg;
    assert insts + {inst} - {inst} == insts;
  }

  lemma {:induction false} PhaseAfterEach(trace: seq<Event>, seg: seq<Event>, insts: set<nat>, kind: Kind, inst: nat)
    requires Each(seg, insts, kind)
    ensures PhaseOf(trace + seg, inst)
         == if inst in insts then Advance(PhaseOf(trace, inst), kind) else PhaseOf(trace, inst)
  {
    if seg == [] {
      assert trace + seg == trace;
    } else {
      var e := seg[|seg| - 1];
      assert (trace + seg)[..|trace + seg| - 1] == trace + seg[..|seg| - 1];
      PhaseAfterEach(trace, seg[..|seg| - 1], insts - {e.inst}, kind, inst);
    }
  }

  lemma PhaseAfterOther(trace: seq<Event>, e: Event, inst: nat)
    ensures PhaseOf(trace + [e], inst)
         == if e.Call? && e.inst == inst then Advance(PhaseOf(trace, inst), e.kind) else PhaseOf(trace, inst)
  {
    assert (trace + [e])[..|trace|] == trace;
  }
}
