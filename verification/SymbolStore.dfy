/**
  `LoadedMod::HookSymbols`, run by any number of processes that share the stored cache of one mod
  and one module. Reads and writes of the store interleave; each process has the module at its own
  base and may reach or miss the store and the online cache.
 */
module SymbolStore {
  import opened Text
  import opened SymbolSession
  import opened SymbolReplay
  import opened SymbolReplayExact
  import opened HookSymbolsSessions
  import opened SymbolRuns

  // ---------------------------------------------------------------- many runs at once

  datatype Process = Process(image: Image, state: Proc)

  datatype World = World(store: string, procs: map<nat, Process>)

  /** What a step of a process brings with it; a read may fail and then gives nothing. */
  datatype Action =
    | ReadLocal(readable: bool)
    | ReadSecond(readable: bool)
    | StayOffline
    | Fetch(content: string)
    | Enumerated(symbols: Option<seq<Found>>)
    | Write(works: bool)

  predicate Enabled(p: Process, a: Action) {
    match p.state
    case Starting => a.ReadLocal?
    case LocalMissed(_) => a.ReadSecond? || a.StayOffline?
    case SecondMissed(_) => a.Fetch?
    case OnlineMissed(_) => a.Enumerated? && ValidFound(p.image, a.symbols)
    case Storing(_, _) => a.Write?
    case _ => false
  }

  function Act(hooks: seq<Hook>, w: World, p: Process, a: Action): (Proc, string)
    requires Enabled(p, a)
  {
    match p.state
    case Starting => (AfterLocal(hooks, p.image, if a.readable then w.store else ""), w.store)
    case LocalMissed(ops) =>
      (if a.StayOffline? then OnlineMissed(ops)
       else AfterSecond(hooks, p.image, ops, if a.readable then w.store else ""), w.store)
    case SecondMissed(ops) => (AfterOnline(hooks, p.image, ops, a.content), w.store)
    case OnlineMissed(ops) => (AfterEnumeration(hooks, p.image, ops, a.symbols), w.store)
    case Storing(ops, source) =>
      (Returned(ops, source), if a.works then Written(hooks, p.image, ops) else w.store)
  }

  /** The names also contain no NUL, which the store could not hold. */
  predicate GoodNames(hooks: seq<Hook>, image: Image) {
    && SafeNames(hooks, image)
    && '\0' !in image.fileName && '\0' !in image.stamp
    && forall i, k :: 0 <= i < |hooks| && 0 <= k < |hooks[i].symbols| ==> '\0' !in hooks[i].symbols[k]
  }

  /** A process of the same mod, with the same module, joins in, or one of the processes moves. */
  ghost predicate Next(hooks: seq<Hook>, module0: Image, w: World, w': World) {
    || (exists pid: nat, image ::
          && pid !in w.procs && ValidImage(image) && SameModule(module0, image) && GoodNames(hooks, image)
          && w' == World(w.store, w.procs[pid := Process(image, Starting)]))
    || (exists pid, a ::
          && pid in w.procs && Enabled(w.procs[pid], a)
          && var r := Act(hooks, w, w.procs[pid], a);
             w' == World(r.1, w.procs[pid := w.procs[pid].(state := r.0)]))
  }

  ghost predicate Execution(hooks: seq<Hook>, module0: Image, ws: seq<World>) {
    && ws != [] && ws[0] == World("", map[])
    && forall i :: 0 <= i < |ws| - 1 ==> Next(hooks, module0, ws[i], ws[i + 1])
  }

  // ---------------------------------------------------------------- what every execution keeps

  ghost predicate Stored(hooks: seq<Hook>, module0: Image, store: string) {
    store == "" || exists image, ops ::
      && ValidImage(image) && SameModule(module0, image) && GoodNames(hooks, image)
      && Finishes(hooks, image, ops)
      && store == Render(image, SessionOf(hooks, image, ops).entries)
  }

  /** Every live session is a valid history, finished if it is to be stored. */
  ghost predicate GoodProc(hooks: seq<Hook>, module0: Image, p: Process) {
    && ValidImage(p.image) && SameModule(module0, p.image) && GoodNames(hooks, p.image)
    && match p.state
       case Starting => true
       case LocalMissed(ops) => ops == []
       case SecondMissed(ops) => ops == []
       case OnlineMissed(ops) => ValidOps(p.image, ops) && !Run(hooks, p.image, ops).threw
       case Storing(ops, _) => Finishes(hooks, p.image, ops)
       case Returned(ops, _) => Finishes(hooks, p.image, ops)
       case Failed => true
  }

  ghost predicate Good(hooks: seq<Hook>, module0: Image, w: World) {
    && Stored(hooks, module0, w.store)
    && forall pid :: pid in w.procs ==> GoodProc(hooks, module0, w.procs[pid])
  }

  /** A stored text resolves every hook of a fresh session. */
  lemma StoredResolves(hooks: seq<Hook>, module0: Image, store: string, image: Image)
    requires NoOptionalSharesLater(hooks)
    requires Stored(hooks, module0, store) && store != ""
    requires ValidImage(image) && SameModule(module0, image)
    ensures Finishes(hooks, image, [Cache(store)])
  {
    var writer, ops :| && ValidImage(writer) && SameModule(module0, writer) && GoodNames(hooks, writer)
                       && Finishes(hooks, writer, ops)
                       && store == Render(writer, SessionOf(hooks, writer, ops).entries);
    FinishedSessionReplays(hooks, writer, ops, image);
    RunOp(hooks, image, [], Cache(store));
    assert [] + [Cache(store)] == [Cache(store)];
  }

  lemma {:induction false} EnumerationRuns(hooks: seq<Hook>, image: Image, ops: seq<Op>, symbols: seq<Found>)
    requires ValidOps(image, ops) && !Run(hooks, image, ops).threw
    requires forall k :: 0 <= k < |symbols| ==> FitsWord(image, symbols[k].address)
    ensures
      var all := EnumerationOps(hooks, image, ops, symbols);
      ValidOps(image, all) && !Run(hooks, image, all).threw
    decreases |symbols|
  {
    if symbols != [] {
      if symbols[0].name.None? {
        EnumerationRuns(hooks, image, ops, symbols[1..]);
      } else {
        var op := Symbol(symbols[0].name.value, symbols[0].address);
        RunOp(hooks, image, ops, op);
        EnumerationRuns(hooks, image, ops + [op], symbols[1..]);
      }
    }
  }

  lemma WrittenIsRendered(hooks: seq<Hook>, image: Image, ops: seq<Op>)
    requires ValidImage(image) && GoodNames(hooks, image)
    ensures Written(hooks, image, ops) == Render(image, SessionOf(hooks, image, ops).entries)
  {
    RunPrintsGood(hooks, image, ops);
    var entries := SessionOf(hooks, image, ops).entries;
    EntryPartsNoNul(hooks, image, entries);
    JoinAfterNoNul(EntryParts(entries), image.separator);
    UpToNulOfPlain(Render(image, entries));
  }

  lemma {:induction false} EntryPartsNoNul(hooks: seq<Hook>, image: Image, entries: seq<Entry>)
    requires GoodNames(hooks, image) && GoodEntries(hooks, image, entries)
    ensures forall p :: 0 <= p < |EntryParts(entries)| ==> '\0' !in EntryParts(entries)[p]
  {
    if entries != [] {
      EntryPartsNoNul(hooks, image, entries[1..]);
      var e := entries[0];
      var i :| 0 <= i < |hooks| && e.symbol in hooks[i].symbols;
      if e.offset.Some? { assert AllDigits(Decimal(e.offset.value)); }
    }
  }

  lemma {:induction false} JoinAfterNoNul(parts: seq<string>, sep: char)
    requires sep != '\0'
    requires forall p :: 0 <= p < |parts| ==> '\0' !in parts[p]
    ensures '\0' !in JoinAfter(parts, sep)
  {
    if parts != [] { JoinAfterNoNul(parts[1..], sep); }
  }

  lemma ActGood(hooks: seq<Hook>, module0: Image, w: World, pid: nat, a: Action)
    requires NoOptionalSharesLater(hooks) && Good(hooks, module0, w)
    requires pid in w.procs && Enabled(w.procs[pid], a)
    ensures
      var r := Act(hooks, w, w.procs[pid], a);
      GoodProc(hooks, module0, w.procs[pid].(state := r.0)) && Stored(hooks, module0, r.1)
  {
    var p := w.procs[pid];
    match p.state {
      case Starting =>
        if a.readable && w.store != "" { StoredResolves(hooks, module0, w.store, p.image); }
      case LocalMissed(ops) =>
        if a.ReadSecond? && a.readable && w.store != "" {
          StoredResolves(hooks, module0, w.store, p.image);
          assert ops + [Cache(w.store)] == [Cache(w.store)];
        }
      case SecondMissed(ops) =>
        RunOp(hooks, p.image, ops, Cache(a.content));
      case OnlineMissed(ops) =>
        if a.symbols.Some? {
          EnumerationRuns(hooks, p.image, ops, a.symbols.value);
          RunOp(hooks, p.image, EnumerationOps(hooks, p.image, ops, a.symbols.value), Missing);
        }
      case Storing(ops, _) =>
        WrittenIsRendered(hooks, p.image, ops);
    }
  }

  lemma NextGood(hooks: seq<Hook>, module0: Image, w: World, w': World)
    requires NoOptionalSharesLater(hooks) && Good(hooks, module0, w) && Next(hooks, module0, w, w')
    ensures Good(hooks, module0, w')
    ensures w.store != "" ==> w'.store != ""
  {
    if pid, a :| && pid in w.procs && Enabled(w.procs[pid], a)
                 && var r := Act(hooks, w, w.procs[pid], a);
                    w' == World(r.1, w.procs[pid := w.procs[pid].(state := r.0)]) {
      ActGood(hooks, module0, w, pid, a);
      var p := w.procs[pid];
      if p.state.Storing? { WrittenIsRendered(hooks, p.image, p.state.ops); }
    }
  }

  /**
    In every execution, at every moment, the store holds nothing or the cache of a finished session,
    and once it holds something it always does.
   */
  lemma {:induction false} StoreStaysReplayable(hooks: seq<Hook>, module0: Image, ws: seq<World>)
    requires NoOptionalSharesLater(hooks) && Execution(hooks, module0, ws)
    ensures forall i :: 0 <= i < |ws| ==> Good(hooks, module0, ws[i])
    ensures forall i, j :: 0 <= i <= j < |ws| && ws[i].store != "" ==> ws[j].store != ""
  {
    if |ws| > 1 {
      var before := ws[..|ws| - 1];
      StoreStaysReplayable(hooks, module0, before);
      assert ws[|ws| - 2] == before[|before| - 1];
      NextGood(hooks, module0, ws[|ws| - 2], ws[|ws| - 1]);
      forall i | 0 <= i < |ws| ensures Good(hooks, module0, ws[i]) {
        if i < |ws| - 1 { assert ws[i] == before[i]; }
      }
      forall i, j | 0 <= i <= j < |ws| && ws[i].store != "" ensures ws[j].store != "" {
        if i < |ws| - 1 { assert ws[i] == before[i] && before[|before| - 1].store != ""; }
        if j < |ws| - 1 { assert ws[j] == before[j]; }
      }
    }
  }

  /**
    Once any run has stored its cache, every process that manages to read the store, at its first or
    at its second try, finishes there: it does not go online and it does not enumerate symbols.
   */
  lemma LaterRunsUseTheStore(hooks: seq<Hook>, module0: Image, ws: seq<World>, i: nat, j: nat, pid: nat, a: Action)
    requires NoOptionalSharesLater(hooks) && Execution(hooks, module0, ws)
    requires i <= j < |ws| && ws[i].store != ""
    requires pid in ws[j].procs && Enabled(ws[j].procs[pid], a)
    requires (a.ReadLocal? || a.ReadSecond?) && a.readable
    ensures Act(hooks, ws[j], ws[j].procs[pid], a).0 == Returned([Cache(ws[j].store)], LocalCache)
  {
    StoreStaysReplayable(hooks, module0, ws);
    var p := ws[j].procs[pid];
    assert Good(hooks, module0, ws[j]) && GoodProc(hooks, module0, p);
    StoredResolves(hooks, module0, ws[j].store, p.image);
    assert [] + [Cache(ws[j].store)] == [Cache(ws[j].store)];
  }

  /** A run that is about to store fills the store, if the write works, and what it writes is a finished session's cache. */
  lemma WritingFillsTheStore(hooks: seq<Hook>, module0: Image, ws: seq<World>, i: nat, pid: nat)
    requires NoOptionalSharesLater(hooks) && Execution(hooks, module0, ws) && i < |ws|
    requires pid in ws[i].procs && ws[i].procs[pid].state.Storing?
    ensures
      var p := ws[i].procs[pid];
      var stored := Act(hooks, ws[i], p, Write(true)).1;
      && stored != "" && stored == Render(p.image, Run(hooks, p.image, p.state.ops).session.entries)
      && Finishes(hooks, p.image, p.state.ops)
      && Act(hooks, ws[i], p, Write(false)).1 == ws[i].store
  {
    StoreStaysReplayable(hooks, module0, ws);
    var p := ws[i].procs[pid];
    assert Good(hooks, module0, ws[i]) && GoodProc(hooks, module0, p);
    WrittenIsRendered(hooks, p.image, p.state.ops);
  }
}
