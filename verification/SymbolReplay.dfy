/**
  The cache that a finished session printed, replayed by a fresh session of the same hooks with the
  module loaded elsewhere. The replay is faithful for every history exactly when no optional hook
  shares a symbol with a later hook of the array.
 */
module SymbolReplay {
  import opened Text
  import opened SymbolSession

  ghost predicate NoOptionalSharesLater(hooks: seq<Hook>) {
    forall i, j, symbol :: 0 <= i < j < |hooks| && hooks[i].optional && symbol in hooks[i].symbols ==>
      symbol !in hooks[j].symbols
  }

  /** The separator was chosen so that no symbol and no module name contains it. */
  predicate SafeNames(hooks: seq<Hook>, image: Image) {
    && image.separator !in image.fileName
    && image.separator !in image.stamp
    && (forall i, k :: 0 <= i < |hooks| && 0 <= k < |hooks[i].symbols| ==>
          image.separator !in hooks[i].symbols[k])
  }

  /** The same module in another process: anywhere in memory, and its file may have another name. */
  predicate SameModule(a: Image, b: Image) {
    a.wide == b.wide && a.separator == b.separator
  }

  /**
    The address moved with the module, in the arithmetic of its machine words: the same distance from
    either base, modulo the width. `a` is the address in the module at `base`, `r` the one at `base'`.
   */
  predicate SameDistance(wide: bool, a: nat, base: nat, r: nat, base': nat) {
    if wide then
      r < 0x1_0000_0000_0000_0000 && (r + base) % 0x1_0000_0000_0000_0000 == (a + base') % 0x1_0000_0000_0000_0000
    else
      r < 0x1_0000_0000 && (r + base) % 0x1_0000_0000 == (a + base') % 0x1_0000_0000
  }

  ghost predicate SameOutcome(hooks: seq<Hook>, image: Image, s: Session, image': Image, r: Session)
  {
    && Complete(hooks, r)
    && r.dropped == s.dropped
    && r.resolved.Keys == s.resolved.Keys
    && (forall i :: i in s.resolved ==>
          && r.resolved[i].symbol == s.resolved[i].symbol
          && SameDistance(image.wide, s.resolved[i].address, image.base, r.resolved[i].address, image'.base))
    && AtSum(image, s, image', r)
  }

  /** The address lies behind the module's base, and moving the module takes it to no wrap-around. */
  predicate PlainSum(image: Image, a: nat, image': Image) {
    && image.base <= a
    && a - image.base + image'.base < if image.wide then 0x1_0000_0000_0000_0000 else 0x1_0000_0000
  }

  /** Where nothing wraps around, each replayed address is the old one, moved by the difference of the bases. */
  ghost predicate AtSum(image: Image, s: Session, image': Image, r: Session) {
    forall i :: i in s.resolved && i in r.resolved && PlainSum(image, s.resolved[i].address, image') ==>
      r.resolved[i].address == s.resolved[i].address - image.base + image'.base
  }

  ghost predicate Replays(hooks: seq<Hook>, image: Image, s: Session, image': Image)
  {
    var o := OnCache(hooks, image', EmptySession, Render(image, s.entries));
    !o.threw && SameOutcome(hooks, image, s, image', o.session)
  }

  // ---------------------------------------------------------------- the cache text, cut up again

  ghost predicate Listed(hooks: seq<Hook>, symbol: string) {
    exists i :: 0 <= i < |hooks| && symbol in hooks[i].symbols
  }

  ghost predicate GoodEntries(hooks: seq<Hook>, image: Image, entries: seq<Entry>) {
    forall e :: 0 <= e < |entries| ==>
      && Listed(hooks, entries[e].symbol)
      && (entries[e].offset.Some? ==> FitsWord(image, entries[e].offset.value))
  }

  lemma {:induction false} EntryPartsPlain(hooks: seq<Hook>, image: Image, entries: seq<Entry>)
    requires ValidImage(image) && SafeNames(hooks, image) && GoodEntries(hooks, image, entries)
    ensures forall p :: 0 <= p < |EntryParts(entries)| ==> image.separator !in EntryParts(entries)[p]
  {
    if entries != [] {
      assert forall e :: 0 <= e < |entries[1..]| ==> entries[1..][e] == entries[e + 1];
      EntryPartsPlain(hooks, image, entries[1..]);
      var e := entries[0];
      var i :| 0 <= i < |hooks| && e.symbol in hooks[i].symbols;
      assert image.separator !in e.symbol;
      if e.offset.Some? { assert AllDigits(Decimal(e.offset.value)); }
    }
  }

  lemma RenderCutUp(hooks: seq<Hook>, image: Image, entries: seq<Entry>)
    requires ValidImage(image) && SafeNames(hooks, image) && GoodEntries(hooks, image, entries)
    ensures SplitToViews(Render(image, entries), image.separator)
         == [CACHE_VERSION, image.fileName, image.stamp] + EntryParts(entries)
  {
    EntryPartsPlain(hooks, image, entries);
    var sep := image.separator;
    var names := [image.fileName, image.stamp];
    var parts := EntryParts(entries);
    assert JoinAfter(names, sep) == [sep] + image.fileName + [sep] + image.stamp by {
      assert names[1..] == [image.stamp];
      assert JoinAfter([image.stamp], sep) == [sep] + image.stamp;
    }
    JoinAfterConcat(names, parts, sep);
    assert Render(image, entries) == CACHE_VERSION + JoinAfter(names + parts, sep);
    PiecesOfJoinAfter(CACHE_VERSION, names + parts, sep);
  }

  // ---------------------------------------------------------------- replaying entries

  function Replay(hooks: seq<Hook>, image: Image, s: Session, entries: seq<Entry>): Session
  {
    if entries == [] then s
    else
      var e := entries[|entries| - 1];
      var before := Replay(hooks, image, s, entries[..|entries| - 1]);
      if e.offset.None? then before
      else OnSymbol(hooks, image, before, e.symbol, AtOffset(image, e.offset.value))
  }

  lemma {:induction false} ReplayFirst(hooks: seq<Hook>, image: Image, s: Session, e: Entry, rest: seq<Entry>)
    requires ValidImage(image)
    ensures Replay(hooks, image, s, [e] + rest)
         == Replay(hooks, image, Replay(hooks, image, s, [e]), rest)
  {
    if rest == [] {
      assert [e] + rest == [e];
    } else {
      var n := |rest| - 1;
      assert ([e] + rest)[..|rest|] == [e] + rest[..n];
      ReplayFirst(hooks, image, s, e, rest[..n]);
    }
  }

  lemma {:induction false} PartsReplay(
    hooks: seq<Hook>, image: Image, s: Session, parts: seq<string>, i: nat, entries: seq<Entry>)
    requires ValidImage(image) && GoodEntries(hooks, image, entries)
    requires i <= |parts| && parts[i..] == EntryParts(entries)
    ensures ResolveParts(hooks, image, s, parts, i) == Outcome(Replay(hooks, image, s, entries), false)
    decreases |entries|
  {
    if entries == [] {
      assert |parts| == i;
    } else {
      var e := entries[0];
      assert parts[i..][0] == e.symbol;
      assert parts[i..][1] == parts[i + 1];
      assert parts[i..][2..] == parts[i + 2..] == EntryParts(entries[1..]);
      var s' := Replay(hooks, image, s, [e]);
      assert [e][..|[e]| - 1] == [];
      assert Replay(hooks, image, s, []) == s;
      if e.offset.Some? { ParseOfDecimal(e.offset.value); }
      assert ResolveParts(hooks, image, s, parts, i) == ResolveParts(hooks, image, s', parts, i + 2);
      assert GoodEntries(hooks, image, entries[1..]);
      PartsReplay(hooks, image, s', parts, i + 2, entries[1..]);
      assert entries == [e] + entries[1..];
      ReplayFirst(hooks, image, s, e, entries[1..]);
    }
  }

  /** How many entries say that one of these symbols is missing. */
  function MissingCount(entries: seq<Entry>, symbols: seq<string>): nat {
    if entries == [] then 0
    else
      (if entries[0].offset.None? && entries[0].symbol in symbols then 1 else 0)
      + MissingCount(entries[1..], symbols)
  }

  lemma {:induction false} MissingCountConcat(a: seq<Entry>, b: seq<Entry>, symbols: seq<string>)
    ensures MissingCount(a + b, symbols) == MissingCount(a, symbols) + MissingCount(b, symbols)
  {
    if a == [] {
      assert a + b == b;
    } else {
      assert (a + b)[1..] == a[1..] + b;
      MissingCountConcat(a[1..], b, symbols);
    }
  }

  lemma {:induction false} PartsCount(parts: seq<string>, i: nat, entries: seq<Entry>, symbols: seq<string>)
    requires i <= |parts| && parts[i..] == EntryParts(entries)
    ensures NoAddressMatches(parts, symbols, i) == MissingCount(entries, symbols)
    decreases |entries|
  {
    if entries == [] {
      assert |parts| == i;
    } else {
      assert parts[i..][0] == entries[0].symbol;
      assert parts[i..][1] == parts[i + 1];
      assert parts[i..][2..] == parts[i + 2..];
      PartsCount(parts, i + 2, entries[1..], symbols);
    }
  }

  function MarkedByEntries(hooks: seq<Hook>, entries: seq<Entry>): set<nat> {
    set i: nat | i < |hooks| && hooks[i].optional
                 && MissingCount(entries, hooks[i].symbols) == |hooks[i].symbols|
  }

  /** Reading a printed cache is replaying its entries and then dropping what they say is missing. */
  lemma CacheReplay(hooks: seq<Hook>, image: Image, entries: seq<Entry>, image': Image, s: Session)
    requires ValidImage(image) && ValidImage(image') && SameModule(image, image')
    requires SafeNames(hooks, image) && GoodEntries(hooks, image, entries)
    ensures
      OnCache(hooks, image', s, Render(image, entries))
      == Outcome(Drop(hooks, Replay(hooks, image', s, entries), MarkedByEntries(hooks, entries)), false)
  {
    var parts := SplitToViews(Render(image, entries), image'.separator);
    RenderCutUp(hooks, image, entries);
    assert parts[3..] == EntryParts(entries);
    assert GoodEntries(hooks, image', entries);
    PartsReplay(hooks, image', s, parts, 3, entries);
    forall i: nat | i < |hooks|
      ensures NoAddressMatches(parts, hooks[i].symbols, 3) == MissingCount(entries, hooks[i].symbols)
    {
      PartsCount(parts, 3, entries, hooks[i].symbols);
    }
    assert MarkedByCache(hooks, parts) == MarkedByEntries(hooks, entries);
  }

  // ---------------------------------------------------------------- what a session prints

  lemma {:induction false} MissingEntriesGood(hooks: seq<Hook>, image: Image, h: nat, symbols: seq<string>)
    requires h < |hooks| && forall k :: 0 <= k < |symbols| ==> symbols[k] in hooks[h].symbols
    ensures GoodEntries(hooks, image, MissingEntries(symbols))
    ensures forall e :: 0 <= e < |MissingEntries(symbols)| ==> MissingEntries(symbols)[e].offset.None?
  {
    if symbols != [] { MissingEntriesGood(hooks, image, h, symbols[1..]); }
  }

  lemma {:induction false} DropEntriesGood(hooks: seq<Hook>, image: Image, todo: seq<nat>, marked: set<nat>)
    requires forall k :: 0 <= k < |todo| ==> todo[k] < |hooks|
    ensures GoodEntries(hooks, image, DropEntries(hooks, todo, marked))
    ensures forall e :: 0 <= e < |DropEntries(hooks, todo, marked)| ==>
              DropEntries(hooks, todo, marked)[e].offset.None?
  {
    if todo != [] {
      DropEntriesGood(hooks, image, todo[..|todo| - 1], marked);
      var h := todo[|todo| - 1];
      MissingEntriesGood(hooks, image, h, hooks[h].symbols);
    }
  }

  lemma {:induction false} ReplayMissing(hooks: seq<Hook>, image: Image, s: Session, a: seq<Entry>, b: seq<Entry>)
    requires ValidImage(image)
    requires forall e :: 0 <= e < |b| ==> b[e].offset.None?
    ensures Replay(hooks, image, s, a + b) == Replay(hooks, image, s, a)
  {
    if b == [] {
      assert a + b == a;
    } else {
      assert (a + b)[..|a + b| - 1] == a + b[..|b| - 1];
      assert (a + b)[|a + b| - 1] == b[|b| - 1];
      ReplayMissing(hooks, image, s, a, b[..|b| - 1]);
    }
  }

  /** A printed offset, read at another base, keeps the distance; without wrap-around it is plain addition. */
  lemma OffsetMoves(image: Image, image': Image, address: nat)
    requires ValidImage(image) && ValidImage(image') && SameModule(image, image')
    ensures
      var r := AtOffset(image', Offset(image, address));
      && SameDistance(image.wide, address, image.base, r, image'.base)
      && (image.base <= address && address - image.base + image'.base
                                   < (if image.wide then 0x1_0000_0000_0000_0000 else 0x1_0000_0000)
          ==> r == address - image.base + image'.base)
  {
    if image.wide { WideMoves(address, image.base, image'.base); } else { NarrowMoves(address, image.base, image'.base); }
  }

  lemma WideMoves(a: nat, base: nat, base': nat)
    requires base < 0x1_0000_0000_0000_0000 && base' < 0x1_0000_0000_0000_0000
    ensures
      var r := Wrap(true, Wrap(true, a - base) + base');
      && SameDistance(true, a, base, r, base')
      && (base <= a && a - base + base' < 0x1_0000_0000_0000_0000 ==> r == a - base + base')
  {
  }

  lemma NarrowMoves(a: nat, base: nat, base': nat)
    requires base < 0x1_0000_0000 && base' < 0x1_0000_0000
    ensures
      var r := Wrap(false, Wrap(false, a - base) + base');
      && SameDistance(false, a, base, r, base')
      && (base <= a && a - base + base' < 0x1_0000_0000 ==> r == a - base + base')
  {
  }

  /**
    The tie between a session and the replay of what it has printed so far: the replay has resolved
    the same hooks at the same offsets, and has dropped none yet.
   */
  ghost predicate Tracked(hooks: seq<Hook>, image: Image, s: Session, image': Image)
  {
    var r := Replay(hooks, image', EmptySession, s.entries);
    && GoodEntries(hooks, image, s.entries)
    && s.resolved.Keys !! s.dropped
    && r.dropped == {}
    && r.resolved.Keys == s.resolved.Keys
    && (forall i :: i in s.resolved ==>
          && i < |hooks| && s.resolved[i].symbol in hooks[i].symbols
          && r.resolved[i].symbol == s.resolved[i].symbol
          && r.resolved[i].address == AtOffset(image', Offset(image, s.resolved[i].address)))
    && (forall i :: i in s.dropped ==> i < |hooks| && hooks[i].optional)
  }

  /** What makes the replay choose the hook that the session chose. */
  lemma ClaimantSame(hooks: seq<Hook>, gone: set<nat>, dropped: set<nat>, symbol: string)
    requires NoOptionalSharesLater(hooks)
    requires forall i :: i in dropped ==> i < |hooks| && hooks[i].optional
    requires Claimant(hooks, gone + dropped, symbol, 0) < |hooks|
    ensures Claimant(hooks, gone, symbol, 0) == Claimant(hooks, gone + dropped, symbol, 0)
  {
    var k, k' := Claimant(hooks, gone + dropped, symbol, 0), Claimant(hooks, gone, symbol, 0);
    assert k' < k ==> k' in dropped;
  }

  lemma ReplayOneMore(hooks: seq<Hook>, image: Image, s: Session, entries: seq<Entry>, symbol: string, offset: nat)
    ensures Replay(hooks, image, s, entries + [Entry(symbol, Some(offset))])
         == OnSymbol(hooks, image, Replay(hooks, image, s, entries), symbol, AtOffset(image, offset))
  {
    assert (entries + [Entry(symbol, Some(offset))])[..|entries|] == entries;
  }

  lemma OneMoreGoodEntry(hooks: seq<Hook>, image: Image, entries: seq<Entry>, symbol: string, address: nat, k: nat)
    requires GoodEntries(hooks, image, entries) && k < |hooks| && symbol in hooks[k].symbols && ValidImage(image)
    ensures GoodEntries(hooks, image, entries + [Entry(symbol, Some(Offset(image, address)))])
  {
    assert Listed(hooks, symbol);
  }

  lemma Claims(hooks: seq<Hook>, image: Image, s: Session, symbol: string, address: nat, k: nat)
    requires k == Claimant(hooks, Gone(s), symbol, 0) && k < |hooks|
    ensures var t := OnSymbol(hooks, image, s, symbol, address);
      && Gone(t) == Gone(s) + {k} && t.dropped == s.dropped && t.resolved.Keys == s.resolved.Keys + {k}
      && t.entries == s.entries + [Entry(symbol, Some(Offset(image, address)))]
  {
  }

  lemma OnSymbolTracked(hooks: seq<Hook>, image: Image, s: Session, image': Image, symbol: string, address: nat)
    requires ValidImage(image) && ValidImage(image') && SameModule(image, image')
    requires NoOptionalSharesLater(hooks) && Tracked(hooks, image, s, image')
    ensures Tracked(hooks, image, OnSymbol(hooks, image, s, symbol, address), image')
  {
    var k := Claimant(hooks, Gone(s), symbol, 0);
    if k < |hooks| {
      var r := Replay(hooks, image', EmptySession, s.entries);
      var offset := Offset(image, address);
      assert Gone(s) == Gone(r) + s.dropped;
      ClaimantSame(hooks, Gone(r), s.dropped, symbol);
      Claims(hooks, image, s, symbol, address, k);
      OneMoreGoodEntry(hooks, image, s.entries, symbol, address, k);
      ReplayOneMore(hooks, image', EmptySession, s.entries, symbol, offset);
      Claims(hooks, image', r, symbol, AtOffset(image', offset), k);
    }
  }

  lemma DropTracked(hooks: seq<Hook>, image: Image, s: Session, image': Image, marked: set<nat>)
    requires ValidImage(image) && ValidImage(image')
    requires Tracked(hooks, image, s, image')
    requires forall i :: i in marked && i < |hooks| ==> hooks[i].optional
    ensures Tracked(hooks, image, Drop(hooks, s, marked), image')
  {
    var todo := Remaining(|hooks|, Gone(s));
    DropEntriesGood(hooks, image, todo, marked);
    ReplayMissing(hooks, image', EmptySession, s.entries, DropEntries(hooks, todo, marked));
  }

  // ---------------------------------------------------------------- counting missing symbols

  /** How many of the hook's own lines count towards these symbols when it is dropped. */
  function Overlap(hook: Hook, symbols: seq<string>): nat {
    MissingCount(MissingEntries(hook.symbols), symbols)
  }

  /** What the dropped hooks below `n` add up to. */
  function Tally(hooks: seq<Hook>, n: nat, dropped: set<nat>, symbols: seq<string>): nat
    requires n <= |hooks|
  {
    if n == 0 then 0
    else (if n - 1 in dropped then Overlap(hooks[n - 1], symbols) else 0) + Tally(hooks, n - 1, dropped, symbols)
  }

  ghost predicate Tallied(hooks: seq<Hook>, s: Session) {
    forall h :: 0 <= h < |hooks| ==>
      MissingCount(s.entries, hooks[h].symbols) == Tally(hooks, |hooks|, s.dropped, hooks[h].symbols)
  }

  lemma {:induction false} DropTally(hooks: seq<Hook>, n: nat, gone: set<nat>, marked: set<nat>, symbols: seq<string>)
    requires n <= |hooks|
    ensures MissingCount(DropEntries(hooks, Remaining(n, gone), marked), symbols)
         == Tally(hooks, n, marked - gone, symbols)
  {
    if n > 0 {
      DropTally(hooks, n - 1, gone, marked, symbols);
      if n - 1 !in gone {
        DropEntriesLast(hooks, Remaining(n - 1, gone), n - 1, marked);
        MissingCountConcat(DropEntries(hooks, Remaining(n - 1, gone), marked),
                           MissingEntries(hooks[n - 1].symbols), symbols);
      }
    }
  }

  lemma DropEntriesLast(hooks: seq<Hook>, todo: seq<nat>, i: nat, marked: set<nat>)
    requires i < |hooks| && forall k :: 0 <= k < |todo| ==> todo[k] < |hooks|
    ensures DropEntries(hooks, todo + [i], marked)
         == DropEntries(hooks, todo, marked) + if i in marked then MissingEntries(hooks[i].symbols) else []
  {
    assert (todo + [i])[..|todo|] == todo;
  }

  lemma {:induction false} TallyUnion(hooks: seq<Hook>, n: nat, a: set<nat>, b: set<nat>, c: set<nat>, symbols: seq<string>)
    requires n <= |hooks| && a !! b
    requires forall i: nat :: i < n ==> (i in c <==> i in a || i in b)
    ensures Tally(hooks, n, c, symbols) == Tally(hooks, n, a, symbols) + Tally(hooks, n, b, symbols)
  {
    if n > 0 { TallyUnion(hooks, n - 1, a, b, c, symbols); }
  }

  lemma DropTallied(hooks: seq<Hook>, s: Session, marked: set<nat>)
    requires Tallied(hooks, s)
    ensures Tallied(hooks, Drop(hooks, s, marked))
  {
    var todo := Remaining(|hooks|, Gone(s));
    var t := Drop(hooks, s, marked);
    forall h | 0 <= h < |hooks|
      ensures MissingCount(t.entries, hooks[h].symbols) == Tally(hooks, |hooks|, t.dropped, hooks[h].symbols)
    {
      var symbols := hooks[h].symbols;
      MissingCountConcat(s.entries, DropEntries(hooks, todo, marked), symbols);
      DropTally(hooks, |hooks|, Gone(s), marked, symbols);
      TallyUnion(hooks, |hooks|, s.dropped, marked - Gone(s), t.dropped, symbols);
    }
  }

  lemma OnSymbolTallied(hooks: seq<Hook>, image: Image, s: Session, symbol: string, address: nat)
    requires Tallied(hooks, s)
    ensures Tallied(hooks, OnSymbol(hooks, image, s, symbol, address))
  {
    var e := Entry(symbol, Some(Offset(image, address)));
    forall h | 0 <= h < |hooks|
      ensures MissingCount(s.entries + [e], hooks[h].symbols) == MissingCount(s.entries, hooks[h].symbols)
    {
      MissingCountConcat(s.entries, [e], hooks[h].symbols);
    }
  }

  lemma {:induction false} ResolvePartsTallied(hooks: seq<Hook>, image: Image, s: Session, parts: seq<string>, i: nat)
    requires Tallied(hooks, s)
    ensures Tallied(hooks, ResolveParts(hooks, image, s, parts, i).session)
    decreases |parts| - i
  {
    if i + 1 < |parts| {
      if parts[i + 1] == "" {
        ResolvePartsTallied(hooks, image, s, parts, i + 2);
      } else if ParseULL(parts[i + 1]).Some? {
        var address := AtOffset(image, ParseULL(parts[i + 1]).value);
        OnSymbolTallied(hooks, image, s, parts[i], address);
        ResolvePartsTallied(hooks, image, OnSymbol(hooks, image, s, parts[i], address), parts, i + 2);
      }
    }
  }

  /** In every history each dropped hook has printed each of its symbols as missing, once. */
  lemma {:induction false} RunTallied(hooks: seq<Hook>, image: Image, ops: seq<Op>)
    ensures Tallied(hooks, Run(hooks, image, ops).session)
  {
    if ops == [] {
      forall h | 0 <= h < |hooks| ensures Tally(hooks, |hooks|, {}, hooks[h].symbols) == 0 {
        TallyUnion(hooks, |hooks|, {}, {}, {}, hooks[h].symbols);
      }
    } else {
      var before := Run(hooks, image, ops[..|ops| - 1]);
      RunTallied(hooks, image, ops[..|ops| - 1]);
      if !before.threw {
        match ops[|ops| - 1]
        case Symbol(symbol, address) => OnSymbolTallied(hooks, image, before.session, symbol, address);
        case Missing => DropTallied(hooks, before.session, OptionalHooks(hooks));
        case Cache(text) =>
          var parts := SplitToViews(text, image.separator);
          ResolvePartsTallied(hooks, image, before.session, parts, 3);
          var o := ResolveParts(hooks, image, before.session, parts, 3);
          DropTallied(hooks, o.session, MarkedByCache(hooks, parts));
      }
    }
  }

  lemma {:induction false} CountAll(symbols: seq<string>, all: seq<string>)
    requires forall k :: 0 <= k < |symbols| ==> symbols[k] in all
    ensures MissingCount(MissingEntries(symbols), all) == |symbols|
  {
    if symbols != [] { CountAll(symbols[1..], all); }
  }

  lemma {:induction false} CountNone(symbols: seq<string>, others: seq<string>)
    requires forall k :: 0 <= k < |symbols| ==> symbols[k] !in others
    ensures MissingCount(MissingEntries(symbols), others) == 0
  {
    if symbols != [] { CountNone(symbols[1..], others); }
  }

  /** A dropped hook that shares no symbol with another dropped one is counted exactly. */
  lemma {:induction false} TallyAlone(hooks: seq<Hook>, n: nat, dropped: set<nat>, h: nat)
    requires NoOptionalSharesLater(hooks)
    requires n <= |hooks| && h < |hooks| && hooks[h].optional
    requires forall i :: i in dropped && i < |hooks| ==> hooks[i].optional
    ensures Tally(hooks, n, dropped, hooks[h].symbols) == if h in dropped && h < n then |hooks[h].symbols| else 0
  {
    if n > 0 {
      TallyAlone(hooks, n - 1, dropped, h);
      if n - 1 in dropped {
        if n - 1 == h {
          CountAll(hooks[h].symbols, hooks[h].symbols);
        } else {
          CountNone(hooks[n - 1].symbols, hooks[h].symbols);
        }
      }
    }
  }

  // ---------------------------------------------------------------- histories

  lemma {:induction false} ResolvePartsTracked(
    hooks: seq<Hook>, image: Image, s: Session, image': Image, parts: seq<string>, i: nat)
    requires ValidImage(image) && ValidImage(image') && SameModule(image, image')
    requires NoOptionalSharesLater(hooks) && Tracked(hooks, image, s, image')
    ensures Tracked(hooks, image, ResolveParts(hooks, image, s, parts, i).session, image')
    decreases |parts| - i
  {
    if i + 1 < |parts| {
      if parts[i + 1] == "" {
        ResolvePartsTracked(hooks, image, s, image', parts, i + 2);
      } else if ParseULL(parts[i + 1]).Some? {
        var address := AtOffset(image, ParseULL(parts[i + 1]).value);
        OnSymbolTracked(hooks, image, s, image', parts[i], address);
        ResolvePartsTracked(hooks, image, OnSymbol(hooks, image, s, parts[i], address), image', parts, i + 2);
      }
    }
  }

  lemma {:induction false} RunTracked(hooks: seq<Hook>, image: Image, ops: seq<Op>, image': Image)
    requires ValidImage(image) && ValidImage(image') && SameModule(image, image')
    requires NoOptionalSharesLater(hooks)
    ensures Tracked(hooks, image, Run(hooks, image, ops).session, image')
  {
    if ops != [] {
      var before := Run(hooks, image, ops[..|ops| - 1]);
      RunTracked(hooks, image, ops[..|ops| - 1], image');
      if !before.threw {
        match ops[|ops| - 1]
        case Symbol(symbol, address) => OnSymbolTracked(hooks, image, before.session, image', symbol, address);
        case Missing => DropTracked(hooks, image, before.session, image', OptionalHooks(hooks));
        case Cache(text) =>
          var parts := SplitToViews(text, image.separator);
          ResolvePartsTracked(hooks, image, before.session, image', parts, 3);
          var o := ResolveParts(hooks, image, before.session, parts, 3);
          DropTracked(hooks, image, o.session, image', MarkedByCache(hooks, parts));
      }
    }
  }

  lemma {:induction false} RemainingEmpty(n: nat, gone: set<nat>)
    requires forall i: nat :: i < n ==> i in gone
    ensures Remaining(n, gone) == []
  {
    if n > 0 { RemainingEmpty(n - 1, gone); }
  }

  lemma MarkedAreDropped(hooks: seq<Hook>, s: Session)
    requires NoOptionalSharesLater(hooks) && Tallied(hooks, s)
    requires forall i :: i in s.dropped ==> i < |hooks| && hooks[i].optional
    ensures s.dropped <= MarkedByEntries(hooks, s.entries)
  {
    forall h | h in s.dropped ensures h in MarkedByEntries(hooks, s.entries) {
      TallyAlone(hooks, |hooks|, s.dropped, h);
    }
  }

  lemma CompleteReplays(hooks: seq<Hook>, image: Image, s: Session, image': Image)
    requires ValidImage(image) && ValidImage(image') && SameModule(image, image')
    requires SafeNames(hooks, image) && NoOptionalSharesLater(hooks)
    requires Tracked(hooks, image, s, image') && Tallied(hooks, s) && Complete(hooks, s)
    ensures Replays(hooks, image, s, image')
  {
    CacheReplay(hooks, image, s.entries, image', EmptySession);
    MarkedAreDropped(hooks, s);
    var r := Replay(hooks, image', EmptySession, s.entries);
    DropTheRest(hooks, s, r, MarkedByEntries(hooks, s.entries));
    forall i | i in s.resolved
      ensures SameDistance(image.wide, s.resolved[i].address, image.base, r.resolved[i].address, image'.base)
    {
      OffsetMoves(image, image', s.resolved[i].address);
    }
    forall i | i in s.resolved && PlainSum(image, s.resolved[i].address, image')
      ensures r.resolved[i].address == s.resolved[i].address - image.base + image'.base
    {
      OffsetMoves(image, image', s.resolved[i].address);
    }
  }

  lemma DropTheRest(hooks: seq<Hook>, s: Session, r: Session, marked: set<nat>)
    requires Complete(hooks, s) && s.dropped <= marked && s.resolved.Keys !! s.dropped
    requires r.resolved.Keys == s.resolved.Keys && r.dropped == {}
    requires forall i :: i in s.dropped ==> i < |hooks|
    ensures Complete(hooks, Drop(hooks, r, marked)) && Drop(hooks, r, marked).dropped == s.dropped
  {
    forall h: nat | h < |hooks| ensures h in Gone(s) {
      assert h !in Remaining(|hooks|, Gone(s));
    }
    assert Drop(hooks, r, marked).dropped == s.dropped;
    RemainingEmpty(|hooks|, Gone(Drop(hooks, r, marked)));
  }

  /**
    Cache replay. A session that has resolved or dropped every hook, after any mixture of caches,
    symbols and missing marks, prints a cache that a fresh session of the same hooks replays
    faithfully at any module base.
   */
  lemma FinishedSessionReplays(hooks: seq<Hook>, image: Image, ops: seq<Op>, image': Image)
    requires ValidImage(image) && ValidImage(image') && SameModule(image, image')
    requires SafeNames(hooks, image) && NoOptionalSharesLater(hooks)
    requires Complete(hooks, Run(hooks, image, ops).session)
    ensures Replays(hooks, image, Run(hooks, image, ops).session, image')
  {
    RunTracked(hooks, image, ops, image');
    RunTallied(hooks, image, ops);
    CompleteReplays(hooks, image, Run(hooks, image, ops).session, image');
  }

  /** What the two predicates say, in numbers. */
  lemma InNumbers(image: Image, a: nat, image': Image, a': nat)
    requires SameDistance(image.wide, a, image.base, a', image'.base)
    requires PlainSum(image, a, image') ==> a' == a - image.base + image'.base
    ensures image.wide ==> (a' + image.base) % 0x1_0000_0000_0000_0000 == (a + image'.base) % 0x1_0000_0000_0000_0000
    ensures !image.wide ==> (a' + image.base) % 0x1_0000_0000 == (a + image'.base) % 0x1_0000_0000
    ensures
      && image.base <= a
      && a - image.base + image'.base < (if image.wide then 0x1_0000_0000_0000_0000 else 0x1_0000_0000)
      ==> a' == a - image.base + image'.base
  {
  }

  lemma AddressInNumbers(hooks: seq<Hook>, image: Image, s: Session, image': Image, r: Session, i: nat)
    requires SameOutcome(hooks, image, s, image', r) && i in s.resolved
    ensures i in r.resolved
    ensures image.wide ==>
      (r.resolved[i].address + image.base) % 0x1_0000_0000_0000_0000
      == (s.resolved[i].address + image'.base) % 0x1_0000_0000_0000_0000
    ensures !image.wide ==>
      (r.resolved[i].address + image.base) % 0x1_0000_0000 == (s.resolved[i].address + image'.base) % 0x1_0000_0000
    ensures
      && image.base <= s.resolved[i].address
      && s.resolved[i].address - image.base + image'.base
         < (if image.wide then 0x1_0000_0000_0000_0000 else 0x1_0000_0000)
      ==> r.resolved[i].address == s.resolved[i].address - image.base + image'.base
  {
    InNumbers(image, s.resolved[i].address, image', r.resolved[i].address);
  }

  /**
    Where a replay finds the hooks: at the addresses of the session that printed the cache, moved by
    the difference of the two bases. In general this is so modulo the machine word, and exactly where
    neither the distance nor the new address wraps around.
   */
  lemma ReplayedAddresses(hooks: seq<Hook>, image: Image, ops: seq<Op>, image': Image) returns (s: Session, r: Session)
    requires ValidImage(image) && ValidImage(image') && SameModule(image, image')
    requires SafeNames(hooks, image) && NoOptionalSharesLater(hooks)
    requires Complete(hooks, Run(hooks, image, ops).session)
    ensures s == Run(hooks, image, ops).session
    ensures OnCache(hooks, image', EmptySession, Render(image, s.entries)) == Outcome(r, false)
    ensures r.resolved.Keys == s.resolved.Keys
    ensures image.wide ==> forall i :: i in s.resolved ==>
      (r.resolved[i].address + image.base) % 0x1_0000_0000_0000_0000
      == (s.resolved[i].address + image'.base) % 0x1_0000_0000_0000_0000
    ensures !image.wide ==> forall i :: i in s.resolved ==>
      (r.resolved[i].address + image.base) % 0x1_0000_0000 == (s.resolved[i].address + image'.base) % 0x1_0000_0000
    ensures forall i :: i in s.resolved ==>
      (image.base <= s.resolved[i].address
       && s.resolved[i].address - image.base + image'.base
          < (if image.wide then 0x1_0000_0000_0000_0000 else 0x1_0000_0000)
       ==> r.resolved[i].address == s.resolved[i].address - image.base + image'.base)
  {
    FinishedSessionReplays(hooks, image, ops, image');
    s := Run(hooks, image, ops).session;
    r := OnCache(hooks, image', EmptySession, Render(image, s.entries)).session;
    forall i | i in s.resolved { AddressInNumbers(hooks, image, s, image', r, i); }
  }
}
