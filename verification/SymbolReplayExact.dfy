/** Exactly which arrays of hooks have a replayable cache after every history. */
module SymbolReplayExact {
  import opened Text
  import opened SymbolSession
  import opened SymbolReplay

  ghost predicate ReplaysAnywhere(hooks: seq<Hook>, image: Image, s: Session)
  {
    forall image' | ValidImage(image') && SameModule(image, image') :: Replays(hooks, image, s, image')
  }

  /** A history that ran to its end without an exception and left no hook unresolved. */
  predicate Finishes(hooks: seq<Hook>, image: Image, ops: seq<Op>) {
    && ValidOps(image, ops)
    && !Run(hooks, image, ops).threw
    && Complete(hooks, Run(hooks, image, ops).session)
  }

  ghost predicate AlwaysReplays(hooks: seq<Hook>, image: Image)
  {
    forall ops :: Finishes(hooks, image, ops) ==>
      ReplaysAnywhere(hooks, image, Run(hooks, image, ops).session)
  }

  /** Otherwise no history finishes at all. */
  predicate Resolvable(hooks: seq<Hook>) {
    forall i :: 0 <= i < |hooks| && !hooks[i].optional ==> hooks[i].symbols != []
  }

  // ---------------------------------------------------------------- every history can be finished

  predicate Extends(s: Session, t: Session) {
    s.entries <= t.entries && s.dropped <= t.dropped && s.resolved.Keys <= t.resolved.Keys
  }

  lemma {:induction false} RemainingShrinks(n: nat, gone: set<nat>, k: nat)
    ensures |Remaining(n, gone + {k})| == |Remaining(n, gone)| - if k < n && k !in gone then 1 else 0
  {
    if n > 0 { RemainingShrinks(n - 1, gone, k); }
  }

  lemma RunOneMore(hooks: seq<Hook>, image: Image, ops: seq<Op>, op: Op)
    requires !Run(hooks, image, ops).threw
    ensures Run(hooks, image, ops + [op]) == Step(hooks, image, Run(hooks, image, ops).session, op)
  {
    assert (ops + [op])[..|ops|] == ops;
  }

  /** Symbols for the required hooks, and then the missing mark, finish any session. */
  lemma {:induction false} Finish(hooks: seq<Hook>, image: Image, ops: seq<Op>) returns (all: seq<Op>)
    requires ValidImage(image) && Resolvable(hooks)
    requires ValidOps(image, ops) && !Run(hooks, image, ops).threw
    ensures Finishes(hooks, image, all)
    ensures Extends(Run(hooks, image, ops).session, Run(hooks, image, all).session)
    decreases |Remaining(|hooks|, Gone(Run(hooks, image, ops).session))|
  {
    var s := Run(hooks, image, ops).session;
    if i: nat :| i < |hooks| && i !in Gone(s) && !hooks[i].optional {
      var symbol := hooks[i].symbols[0];
      var k := Claimant(hooks, Gone(s), symbol, 0);
      assert k <= i;
      RunOneMore(hooks, image, ops, Symbol(symbol, 0));
      var t := OnSymbol(hooks, image, s, symbol, 0);
      RemainingShrinks(|hooks|, Gone(s), k);
      assert Gone(t) == Gone(s) + {k};
      all := Finish(hooks, image, ops + [Symbol(symbol, 0)]);
    } else {
      all := ops + [Missing];
      RunOneMore(hooks, image, ops, Missing);
      RemainingEmpty(|hooks|, Gone(MarkMissing(hooks, s)));
    }
  }

  // ---------------------------------------------------------------- two dropped hooks share a symbol

  /** A cache text that says that these symbols do not exist. */
  function MissingText(image: Image, symbols: seq<string>): string {
    Render(image, MissingEntries(symbols))
  }

  lemma MissingTextDrops(hooks: seq<Hook>, image: Image, s: Session, h: nat)
    requires ValidImage(image) && SafeNames(hooks, image)
    requires h < |hooks| && hooks[h].optional && h !in s.resolved
    ensures
      var o := OnCache(hooks, image, s, MissingText(image, hooks[h].symbols));
      && !o.threw && h in o.session.dropped && Extends(s, o.session)
      && o.session.resolved == s.resolved
      && forall e :: |s.entries| <= e < |o.session.entries| ==> o.session.entries[e].offset.None?
  {
    var entries := MissingEntries(hooks[h].symbols);
    MissingEntriesGood(hooks, image, h, hooks[h].symbols);
    CacheReplay(hooks, image, entries, image, s);
    assert [] + entries == entries;
    ReplayMissing(hooks, image, s, [], entries);
    CountAll(hooks[h].symbols, hooks[h].symbols);
    assert h in MarkedByEntries(hooks, entries);
    DropEntriesGood(hooks, image, Remaining(|hooks|, Gone(s)), MarkedByEntries(hooks, entries));
  }

  lemma {:induction false} TallyAtLeast(hooks: seq<Hook>, n: nat, dropped: set<nat>, a: nat, b: nat, symbols: seq<string>)
    requires n <= |hooks| && a != b
    ensures Tally(hooks, n, dropped, symbols)
         >= (if a in dropped && a < n then Overlap(hooks[a], symbols) else 0)
          + (if b in dropped && b < n then Overlap(hooks[b], symbols) else 0)
  {
    if n > 0 { TallyAtLeast(hooks, n - 1, dropped, a, b, symbols); }
  }

  lemma {:induction false} CountSome(symbols: seq<string>, others: seq<string>, k: nat)
    requires k < |symbols| && symbols[k] in others
    ensures MissingCount(MissingEntries(symbols), others) >= 1
  {
    if k > 0 { CountSome(symbols[1..], others, k - 1); }
  }

  lemma BothOptionalFails(hooks: seq<Hook>, image: Image, i: nat, j: nat, symbol: string) returns (ops: seq<Op>)
    requires ValidImage(image) && SafeNames(hooks, image) && Resolvable(hooks)
    requires i < j < |hooks| && hooks[i].optional && hooks[j].optional
    requires symbol in hooks[i].symbols && symbol in hooks[j].symbols
    ensures Finishes(hooks, image, ops) && !Replays(hooks, image, Run(hooks, image, ops).session, image)
  {
    var dropI, dropJ := Cache(MissingText(image, hooks[i].symbols)), Cache(MissingText(image, hooks[j].symbols));
    RunOneMore(hooks, image, [], dropI);
    assert [] + [dropI] == [dropI];
    MissingTextDrops(hooks, image, EmptySession, i);
    RunOneMore(hooks, image, [dropI], dropJ);
    MissingTextDrops(hooks, image, Run(hooks, image, [dropI]).session, j);
    ops := Finish(hooks, image, [dropI] + [dropJ]);
    DroppedTwiceStays(hooks, image, ops, i, j, symbol);
  }

  lemma DroppedTwiceStays(hooks: seq<Hook>, image: Image, ops: seq<Op>, i: nat, j: nat, symbol: string)
    requires ValidImage(image) && SafeNames(hooks, image) && Finishes(hooks, image, ops)
    requires i < j < |hooks| && symbol in hooks[i].symbols && symbol in hooks[j].symbols
    requires {i, j} <= Run(hooks, image, ops).session.dropped
    ensures !Replays(hooks, image, Run(hooks, image, ops).session, image)
  {
    var f := Run(hooks, image, ops).session;
    RunTallied(hooks, image, ops);
    TallyAtLeast(hooks, |hooks|, f.dropped, i, j, hooks[i].symbols);
    CountAll(hooks[i].symbols, hooks[i].symbols);
    var k :| 0 <= k < |hooks[j].symbols| && hooks[j].symbols[k] == symbol;
    CountSome(hooks[j].symbols, hooks[i].symbols, k);
    assert i !in MarkedByEntries(hooks, f.entries);
    RunPrintsGood(hooks, image, ops);
    CacheReplay(hooks, image, f.entries, image, EmptySession);
    ReplayDropsNone(hooks, image, EmptySession, f.entries);
  }

  lemma {:induction false} ReplayDropsNone(hooks: seq<Hook>, image: Image, s: Session, entries: seq<Entry>)
    ensures Replay(hooks, image, s, entries).dropped == s.dropped
  {
    if entries != [] { ReplayDropsNone(hooks, image, s, entries[..|entries| - 1]); }
  }

  /** Every history prints only symbols of the hooks, at offsets that fit a word. */
  lemma {:induction false} RunPrintsGood(hooks: seq<Hook>, image: Image, ops: seq<Op>)
    requires ValidImage(image)
    ensures GoodEntries(hooks, image, Run(hooks, image, ops).session.entries)
  {
    if ops != [] {
      var before := Run(hooks, image, ops[..|ops| - 1]);
      RunPrintsGood(hooks, image, ops[..|ops| - 1]);
      if !before.threw {
        match ops[|ops| - 1]
        case Symbol(symbol, address) =>
        case Missing =>
          DropEntriesGood(hooks, image, Remaining(|hooks|, Gone(before.session)), OptionalHooks(hooks));
        case Cache(text) =>
          var parts := SplitToViews(text, image.separator);
          ResolvePartsPrintsGood(hooks, image, before.session, parts, 3);
          var o := ResolveParts(hooks, image, before.session, parts, 3);
          DropEntriesGood(hooks, image, Remaining(|hooks|, Gone(o.session)), MarkedByCache(hooks, parts));
      }
    }
  }

  lemma {:induction false} ResolvePartsPrintsGood(hooks: seq<Hook>, image: Image, s: Session, parts: seq<string>, i: nat)
    requires ValidImage(image) && GoodEntries(hooks, image, s.entries)
    ensures GoodEntries(hooks, image, ResolveParts(hooks, image, s, parts, i).session.entries)
    decreases |parts| - i
  {
    if i + 1 < |parts| {
      if parts[i + 1] == "" {
        ResolvePartsPrintsGood(hooks, image, s, parts, i + 2);
      } else if ParseULL(parts[i + 1]).Some? {
        var address := AtOffset(image, ParseULL(parts[i + 1]).value);
        var t := OnSymbol(hooks, image, s, parts[i], address);
        ResolvePartsPrintsGood(hooks, image, t, parts, i + 2);
      }
    }
  }

  // ---------------------------------------------------------------- a dropped hook takes a symbol back

  /** Hook `d` was dropped, and so far the session and its replay resolved the same hooks before it. */
  ghost predicate Chasing(hooks: seq<Hook>, image: Image, s: Session, d: nat, j: nat, symbol: string) {
    var r := Replay(hooks, image, EmptySession, s.entries);
    && d < j < |hooks| && symbol in hooks[d].symbols && symbol in hooks[j].symbols
    && d in s.dropped && j !in s.dropped
    && (forall x :: x in s.dropped && x < d ==> symbol !in hooks[x].symbols)
    && r.dropped == {} && r.resolved.Keys == s.resolved.Keys
    && (forall x :: x in s.resolved ==> x < d)
    && GoodEntries(hooks, image, s.entries)
  }

  /** The hooks that claim the symbol in the session and in its replay. */
  lemma ChaseClaimants(hooks: seq<Hook>, image: Image, s: Session, d: nat, j: nat, symbol: string)
    requires ValidImage(image) && Chasing(hooks, image, s, d, j, symbol)
    ensures
      var k := Claimant(hooks, Gone(s), symbol, 0);
      var r := Replay(hooks, image, EmptySession, s.entries);
      && k < |hooks| && k !in Gone(s) && k != d
      && Claimant(hooks, Gone(r), symbol, 0) == if k < d then k else d
  {
    var k := Claimant(hooks, Gone(s), symbol, 0);
    var r := Replay(hooks, image, EmptySession, s.entries);
    assert j !in Gone(s);
    assert Gone(r) == s.resolved.Keys;
    var k' := Claimant(hooks, Gone(r), symbol, 0);
    assert d !in Gone(r);
    assert k' <= d && k' !in s.resolved;
    assert k' < d ==> k' !in s.dropped;
  }

  lemma ChasingGrows(
    hooks: seq<Hook>, image: Image, s: Session, t: Session, r': Session, d: nat, j: nat, symbol: string, k: nat)
    requires Chasing(hooks, image, s, d, j, symbol) && k < d
    requires t.dropped == s.dropped && t.resolved.Keys == s.resolved.Keys + {k} && GoodEntries(hooks, image, t.entries)
    requires r' == Replay(hooks, image, EmptySession, t.entries)
    requires r'.dropped == {} && r'.resolved.Keys == s.resolved.Keys + {k}
    ensures Chasing(hooks, image, t, d, j, symbol)
  {
  }

  /** What one more symbol does to the replay of what was printed. */
  lemma ReplayClaims(hooks: seq<Hook>, image: Image, s: Session, t: Session, symbol: string, address: nat, k: nat)
    requires var r := Replay(hooks, image, EmptySession, s.entries);
      k == Claimant(hooks, Gone(r), symbol, 0) && k < |hooks|
    requires t.entries == s.entries + [Entry(symbol, Some(Offset(image, address)))]
    ensures var r, r' := Replay(hooks, image, EmptySession, s.entries), Replay(hooks, image, EmptySession, t.entries);
      r'.dropped == r.dropped && r'.resolved.Keys == r.resolved.Keys + {k}
  {
    var r := Replay(hooks, image, EmptySession, s.entries);
    ReplayOneMore(hooks, image, EmptySession, s.entries, symbol, Offset(image, address));
    Claims(hooks, image, r, symbol, AtOffset(image, Offset(image, address)), k);
  }

  /** One more symbol goes to a hook before `d` in both, or shows the replay giving it to `d`. */
  lemma ChaseOnce(hooks: seq<Hook>, image: Image, s: Session, d: nat, j: nat, symbol: string)
    requires ValidImage(image) && Chasing(hooks, image, s, d, j, symbol)
    ensures
      var k := Claimant(hooks, Gone(s), symbol, 0);
      var t := OnSymbol(hooks, image, s, symbol, 0);
      && k < |hooks| && k !in Gone(s) && Gone(t) == Gone(s) + {k} && t.dropped == s.dropped
      && if k < d then Chasing(hooks, image, t, d, j, symbol)
         else d in Replay(hooks, image, EmptySession, t.entries).resolved
  {
    var k := Claimant(hooks, Gone(s), symbol, 0);
    var t := OnSymbol(hooks, image, s, symbol, 0);
    ChaseClaimants(hooks, image, s, d, j, symbol);
    Claims(hooks, image, s, symbol, 0, k);
    ReplayClaims(hooks, image, s, t, symbol, 0, if k < d then k else d);
    if k < d {
      OneMoreGoodEntry(hooks, image, s.entries, symbol, 0, k);
      ChasingGrows(hooks, image, s, t, Replay(hooks, image, EmptySession, t.entries), d, j, symbol, k);
    }
  }

  lemma {:induction false} Chase(hooks: seq<Hook>, image: Image, ops: seq<Op>, d: nat, j: nat, symbol: string)
    returns (all: seq<Op>)
    requires ValidImage(image) && ValidOps(image, ops) && !Run(hooks, image, ops).threw
    requires Chasing(hooks, image, Run(hooks, image, ops).session, d, j, symbol)
    ensures ValidOps(image, all) && !Run(hooks, image, all).threw
    ensures d in Run(hooks, image, all).session.dropped
    ensures d in Replay(hooks, image, EmptySession, Run(hooks, image, all).session.entries).resolved
    decreases |Remaining(|hooks|, Gone(Run(hooks, image, ops).session))|
  {
    var s := Run(hooks, image, ops).session;
    var k := Claimant(hooks, Gone(s), symbol, 0);
    all := ops + [Symbol(symbol, 0)];
    RunOneMore(hooks, image, ops, Symbol(symbol, 0));
    ChaseOnce(hooks, image, s, d, j, symbol);
    if k < d {
      RemainingShrinks(|hooks|, Gone(s), k);
      all := Chase(hooks, image, all, d, j, symbol);
    }
  }

  lemma {:induction false} ReplayKeeps(hooks: seq<Hook>, image: Image, s: Session, a: seq<Entry>, all: seq<Entry>)
    requires a <= all
    ensures Replay(hooks, image, s, a).resolved.Keys <= Replay(hooks, image, s, all).resolved.Keys
  {
    if |a| < |all| { ReplayKeeps(hooks, image, s, a, all[..|all| - 1]); }
    else { assert a == all; }
  }

  /** The first dropped hook that lists the symbol. */
  lemma FirstDropped(hooks: seq<Hook>, dropped: set<nat>, symbol: string, i: nat) returns (d: nat)
    requires i in dropped && i < |hooks| && symbol in hooks[i].symbols
    ensures d <= i && d in dropped && symbol in hooks[d].symbols
    ensures forall x :: x in dropped && x < d ==> symbol !in hooks[x].symbols
  {
    d := i;
    if x :| x in dropped && x < i && symbol in hooks[x].symbols {
      d := FirstDropped(hooks, dropped, symbol, x);
    }
  }

  lemma RequiredLaterFails(hooks: seq<Hook>, image: Image, i: nat, j: nat, symbol: string) returns (ops: seq<Op>)
    requires ValidImage(image) && SafeNames(hooks, image) && Resolvable(hooks)
    requires i < j < |hooks| && hooks[i].optional && !hooks[j].optional
    requires symbol in hooks[i].symbols && symbol in hooks[j].symbols
    ensures Finishes(hooks, image, ops) && !Replays(hooks, image, Run(hooks, image, ops).session, image)
  {
    var first := [Cache(MissingText(image, hooks[i].symbols))];
    RunOneMore(hooks, image, [], first[0]);
    assert [] + first == first;
    MissingTextDrops(hooks, image, EmptySession, i);
    var s := Run(hooks, image, first).session;
    HistoryPartitionsHooks(hooks, image, first);
    RunPrintsGood(hooks, image, first);
    assert [] + s.entries == s.entries;
    ReplayMissing(hooks, image, EmptySession, [], s.entries);
    var d := FirstDropped(hooks, s.dropped, symbol, i);
    var chased := Chase(hooks, image, first, d, j, symbol);
    ops := Finish(hooks, image, chased);
    TakenBackFails(hooks, image, ops, Run(hooks, image, chased).session.entries, d);
  }

  lemma TakenBackFails(hooks: seq<Hook>, image: Image, ops: seq<Op>, a: seq<Entry>, d: nat)
    requires ValidImage(image) && SafeNames(hooks, image) && Finishes(hooks, image, ops)
    requires d in Run(hooks, image, ops).session.dropped
    requires a <= Run(hooks, image, ops).session.entries && d in Replay(hooks, image, EmptySession, a).resolved
    ensures !Replays(hooks, image, Run(hooks, image, ops).session, image)
  {
    var f := Run(hooks, image, ops).session;
    HistoryPartitionsHooks(hooks, image, ops);
    RunPrintsGood(hooks, image, ops);
    ReplayKeeps(hooks, image, EmptySession, a, f.entries);
    CacheReplay(hooks, image, f.entries, image, EmptySession);
  }

  /**
    The exact condition. The printed cache is faithfully replayable after every history if and only
    if no optional hook shares a symbol with a later hook of the array. Two required hooks may share
    symbols, and so may a required hook and a later optional one.
   */
  lemma CacheReplayExactly(hooks: seq<Hook>, image: Image)
    requires ValidImage(image) && SafeNames(hooks, image) && Resolvable(hooks)
    ensures AlwaysReplays(hooks, image) <==> NoOptionalSharesLater(hooks)
  {
    if NoOptionalSharesLater(hooks) {
      forall ops, image' | Finishes(hooks, image, ops) && ValidImage(image') && SameModule(image, image')
        ensures Replays(hooks, image, Run(hooks, image, ops).session, image')
      {
        FinishedSessionReplays(hooks, image, ops, image');
      }
    } else {
      var i, j, symbol :| 0 <= i < j < |hooks| && hooks[i].optional
                          && symbol in hooks[i].symbols && symbol in hooks[j].symbols;
      var ops;
      if hooks[j].optional {
        ops := BothOptionalFails(hooks, image, i, j, symbol);
      } else {
        ops := RequiredLaterFails(hooks, image, i, j, symbol);
      }
      assert !ReplaysAnywhere(hooks, image, Run(hooks, image, ops).session);
    }
  }

  /**
    Why the names must not contain the separator: one in the module's file name shifts every line of
    the cache, a symbol is read as an address, and unless it is empty or starts like a number the
    replay stops with an exception.
   */
  lemma SeparatorInFileNameFails(hooks: seq<Hook>, image: Image, entries: seq<Entry>, a: string, b: string, s: Session)
    requires ValidImage(image) && GoodEntries(hooks, image, entries) && entries != []
    requires image.fileName == a + [image.separator] + b
    requires SafeNames(hooks, image.(fileName := a)) && SafeNames(hooks, image.(fileName := b))
    requires entries[0].symbol != "" && ParseULL(entries[0].symbol) == None
    ensures OnCache(hooks, image, s, Render(image, entries)) == Outcome(s, true)
  {
    var sep := image.separator;
    EntryPartsPlain(hooks, image.(fileName := a), entries);
    var names := [a, b, image.stamp];
    var parts := names + EntryParts(entries);
    JoinAfterConcat(names, EntryParts(entries), sep);
    assert names[1..] == [b, image.stamp] && names[1..][1..] == [image.stamp];
    assert JoinAfter([image.stamp], sep) == [sep] + image.stamp;
    assert Render(image, entries) == CACHE_VERSION + JoinAfter(parts, sep);
    PiecesOfJoinAfter(CACHE_VERSION, parts, sep);
    var all := [CACHE_VERSION] + parts;
    assert all[3] == image.stamp && all[4] == EntryParts(entries)[0] == entries[0].symbol;
  }
}
