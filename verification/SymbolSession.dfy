/**
  One symbol-hook session: which hooks of a mod are still unresolved, and the cache text that the
  session prints while symbols are found. This module is the specification: a session is a value
  and each operation a function on it. Hooks are named by their index in the mod's array, as the
  engine names them by address.
 */
module SymbolSession {
  import opened Text

  datatype Hook = Hook(symbols: seq<string>, hasHookFunction: bool, storesOriginal: bool, optional: bool)

  /** What the session needs to know of the loaded module; a machine word is 32 or 64 bits. */
  datatype Image = Image(base: nat, wide: bool, fileName: string, stamp: string, separator: char)

  /** Machine arithmetic wraps around. */
  function Wrap(wide: bool, x: int): nat {
    if wide then x % 0x1_0000_0000_0000_0000 else x % 0x1_0000_0000
  }

  predicate FitsWord(image: Image, x: nat) {
    x < if image.wide then 0x1_0000_0000_0000_0000 else 0x1_0000_0000
  }

  predicate ValidImage(image: Image) {
    FitsWord(image, image.base) && image.separator in {'#', ';'}
  }

  /** A line of the printed cache: where a symbol was found, or that it does not exist. */
  datatype Entry = Entry(symbol: string, offset: Option<nat>)

  datatype Resolution = Resolution(symbol: string, address: nat)

  datatype PendingHook = PendingHook(target: nat, hook: nat)

  datatype Session = Session(
    resolved: map<nat, Resolution>,
    dropped: set<nat>,
    pending: seq<PendingHook>,
    originals: map<nat, nat>,
    entries: seq<Entry>)

  const EmptySession := Session(map[], {}, [], map[], [])

  function Gone(s: Session): set<nat> { s.resolved.Keys + s.dropped }

  /** The indices below `n` that are not gone, in array order. */
  function Remaining(n: nat, gone: set<nat>): (r: seq<nat>)
    ensures forall i: nat {:trigger i in r} :: i in r <==> i < n && i !in gone
    ensures forall k :: 0 <= k < |r| ==> r[k] < n && r[k] !in gone
  {
    if n == 0 then []
    else if n - 1 in gone then Remaining(n - 1, gone)
    else Remaining(n - 1, gone) + [n - 1]
  }

  predicate Complete(hooks: seq<Hook>, s: Session) { Remaining(|hooks|, Gone(s)) == [] }

  // ---------------------------------------------------------------- the operations

  /** The first hook, from index `from` on, that is not gone and lists the symbol. */
  function Claimant(hooks: seq<Hook>, gone: set<nat>, symbol: string, from: nat): (k: nat)
    requires from <= |hooks|
    ensures from <= k <= |hooks|
    ensures k < |hooks| ==> k !in gone && symbol in hooks[k].symbols
    ensures forall i :: from <= i < k && i !in gone ==> symbol !in hooks[i].symbols
    decreases |hooks| - from
  {
    if from == |hooks| then from
    else if from !in gone && symbol in hooks[from].symbols then from
    else Claimant(hooks, gone, symbol, from + 1)
  }

  function Offset(image: Image, address: nat): nat { Wrap(image.wide, address - image.base) }

  function AtOffset(image: Image, offset: nat): nat { Wrap(image.wide, offset + image.base) }

  /** A symbol and its address turned up; the first unresolved hook that lists it takes it. */
  function OnSymbol(hooks: seq<Hook>, image: Image, s: Session, symbol: string, address: nat): Session
  {
    var k := Claimant(hooks, Gone(s), symbol, 0);
    if k == |hooks| then s
    else s.(
      resolved := s.resolved[k := Resolution(symbol, address)],
      pending := if hooks[k].hasHookFunction then s.pending + [PendingHook(address, k)] else s.pending,
      originals := if !hooks[k].hasHookFunction && hooks[k].storesOriginal
                   then s.originals[k := address] else s.originals,
      entries := s.entries + [Entry(symbol, Some(Offset(image, address)))])
  }

  function MissingEntries(symbols: seq<string>): seq<Entry> {
    if symbols == [] then [] else [Entry(symbols[0], None)] + MissingEntries(symbols[1..])
  }

  /** The lines printed for the hooks of `todo` that are marked for removal. */
  function DropEntries(hooks: seq<Hook>, todo: seq<nat>, marked: set<nat>): seq<Entry>
    requires forall k :: 0 <= k < |todo| ==> todo[k] < |hooks|
  {
    if todo == [] then []
    else
      var rest := DropEntries(hooks, todo[..|todo| - 1], marked);
      var i := todo[|todo| - 1];
      if i in marked then rest + MissingEntries(hooks[i].symbols) else rest
  }

  /** Removes the marked hooks from the unresolved ones. */
  function Drop(hooks: seq<Hook>, s: Session, marked: set<nat>): Session {
    var todo := Remaining(|hooks|, Gone(s));
    s.(
      dropped := s.dropped + (set i | i in todo && i in marked),
      entries := s.entries + DropEntries(hooks, todo, marked))
  }

  function OptionalHooks(hooks: seq<Hook>): set<nat> {
    set i: nat | i < |hooks| && hooks[i].optional
  }

  function MarkMissing(hooks: seq<Hook>, s: Session): Session {
    Drop(hooks, s, OptionalHooks(hooks))
  }

  /** How many cache lines, from part `j` on, say that one of these symbols does not exist. */
  function NoAddressMatches(parts: seq<string>, symbols: seq<string>, j: nat): nat
    decreases |parts| - j
  {
    if j + 1 >= |parts| then 0
    else
      (if parts[j + 1] == "" && parts[j] in symbols then 1 else 0)
      + NoAddressMatches(parts, symbols, j + 2)
  }

  function MarkedByCache(hooks: seq<Hook>, parts: seq<string>): set<nat> {
    set i: nat | i < |hooks| && hooks[i].optional
                 && NoAddressMatches(parts, hooks[i].symbols, 3) == |hooks[i].symbols|
  }

  /** The session after an operation, and whether an exception left it half done. */
  datatype Outcome = Outcome(session: Session, threw: bool)

  function ResolveParts(hooks: seq<Hook>, image: Image, s: Session, parts: seq<string>, i: nat): Outcome
    decreases |parts| - i
  {
    if i + 1 >= |parts| then Outcome(s, false)
    else if parts[i + 1] == "" then ResolveParts(hooks, image, s, parts, i + 2)
    else match ParseULL(parts[i + 1])
      case None => Outcome(s, true)
      case Some(v) =>
        ResolveParts(hooks, image, OnSymbol(hooks, image, s, parts[i], AtOffset(image, v)),
                     parts, i + 2)
  }

  const CACHE_VERSION: string := "1"

  function OnCache(hooks: seq<Hook>, image: Image, s: Session, cache: string): Outcome
  {
    var parts := SplitToViews(cache, image.separator);
    if |parts| < 3 || parts[0] != CACHE_VERSION then Outcome(s, false)
    else
      var o := ResolveParts(hooks, image, s, parts, 3);
      if o.threw then o else Outcome(Drop(hooks, o.session, MarkedByCache(hooks, parts)), false)
  }

  // ---------------------------------------------------------------- the printed cache

  function EntryParts(entries: seq<Entry>): seq<string> {
    if entries == [] then []
    else
      var e := entries[0];
      [e.symbol, if e.offset.Some? then Decimal(e.offset.value) else ""] + EntryParts(entries[1..])
  }

  function Header(image: Image): string {
    CACHE_VERSION + [image.separator] + image.fileName + [image.separator] + image.stamp
  }

  /** `m_newSystemCacheStr`. */
  function Render(image: Image, entries: seq<Entry>): string {
    Header(image) + JoinAfter(EntryParts(entries), image.separator)
  }

  // ---------------------------------------------------------------- histories

  datatype Op = Symbol(symbol: string, address: nat) | Cache(text: string) | Missing

  predicate ValidOp(image: Image, op: Op) { op.Symbol? ==> FitsWord(image, op.address) }

  function Step(hooks: seq<Hook>, image: Image, s: Session, op: Op): Outcome
  {
    match op
    case Symbol(symbol, address) => Outcome(OnSymbol(hooks, image, s, symbol, address), false)
    case Cache(text) => OnCache(hooks, image, s, text)
    case Missing => Outcome(MarkMissing(hooks, s), false)
  }

  /** A session's whole history; it ends early when an operation throws. */
  function Run(hooks: seq<Hook>, image: Image, ops: seq<Op>): Outcome
  {
    if ops == [] then Outcome(EmptySession, false)
    else
      var before := Run(hooks, image, ops[..|ops| - 1]);
      if before.threw then before else Step(hooks, image, before.session, ops[|ops| - 1])
  }

  predicate ValidOps(image: Image, ops: seq<Op>) {
    forall i :: 0 <= i < |ops| ==> ValidOp(image, ops[i])
  }

  // ---------------------------------------------------------------- what every history keeps

  /** Exactly the resolved hooks with a hook function are pending, each once and with its address. */
  ghost predicate PendingMatches(hooks: seq<Hook>, s: Session) {
    && (forall p :: 0 <= p < |s.pending| ==>
          && s.pending[p].hook in s.resolved
          && s.pending[p].hook < |hooks| && hooks[s.pending[p].hook].hasHookFunction
          && s.pending[p].target == s.resolved[s.pending[p].hook].address)
    && (forall p, q :: 0 <= p < q < |s.pending| ==> s.pending[p].hook != s.pending[q].hook)
    && (forall i :: i in s.resolved && i < |hooks| && hooks[i].hasHookFunction ==>
          PendingHook(s.resolved[i].address, i) in s.pending)
  }

  ghost predicate Sound(hooks: seq<Hook>, image: Image, s: Session) {
    && s.resolved.Keys !! s.dropped
    && (forall i :: i in s.resolved ==>
          && i < |hooks|
          && s.resolved[i].symbol in hooks[i].symbols
          && FitsWord(image, s.resolved[i].address))
    && (forall i :: i in s.dropped ==> i < |hooks| && hooks[i].optional)
    && (forall i :: i in s.originals <==>
          i in s.resolved && i < |hooks| && !hooks[i].hasHookFunction && hooks[i].storesOriginal)
    && (forall i :: i in s.originals && i in s.resolved ==> s.originals[i] == s.resolved[i].address)
    && PendingMatches(hooks, s)
  }

  lemma OnSymbolSound(hooks: seq<Hook>, image: Image, s: Session, symbol: string, address: nat)
    requires Sound(hooks, image, s) && FitsWord(image, address)
    ensures Sound(hooks, image, OnSymbol(hooks, image, s, symbol, address))
  {
    var k := Claimant(hooks, Gone(s), symbol, 0);
    var t := OnSymbol(hooks, image, s, symbol, address);
    if k < |hooks| {
      assert k !in s.resolved;
      forall i | i in t.resolved && i < |hooks| && hooks[i].hasHookFunction
        ensures PendingHook(t.resolved[i].address, i) in t.pending
      {
        if i == k {
          assert t.pending[|s.pending|] == PendingHook(address, k);
        } else {
          assert PendingHook(s.resolved[i].address, i) in s.pending;
        }
      }
    }
  }

  lemma DropSound(hooks: seq<Hook>, image: Image, s: Session, marked: set<nat>)
    requires Sound(hooks, image, s)
    requires forall i :: i in marked && i < |hooks| ==> hooks[i].optional
    ensures Sound(hooks, image, Drop(hooks, s, marked))
  {
  }

  lemma {:induction false} ResolvePartsSound(hooks: seq<Hook>, image: Image, s: Session, parts: seq<string>, i: nat)
    requires Sound(hooks, image, s)
    ensures Sound(hooks, image, ResolveParts(hooks, image, s, parts, i).session)
    decreases |parts| - i
  {
    if i + 1 < |parts| {
      if parts[i + 1] == "" {
        ResolvePartsSound(hooks, image, s, parts, i + 2);
      } else if ParseULL(parts[i + 1]).Some? {
        var address := AtOffset(image, ParseULL(parts[i + 1]).value);
        OnSymbolSound(hooks, image, s, parts[i], address);
        ResolvePartsSound(hooks, image, OnSymbol(hooks, image, s, parts[i], address), parts, i + 2);
      }
    }
  }

  lemma StepSound(hooks: seq<Hook>, image: Image, s: Session, op: Op)
    requires ValidOp(image, op) && Sound(hooks, image, s)
    ensures Sound(hooks, image, Step(hooks, image, s, op).session)
  {
    match op
    case Symbol(symbol, address) => OnSymbolSound(hooks, image, s, symbol, address);
    case Missing => DropSound(hooks, image, s, OptionalHooks(hooks));
    case Cache(text) =>
      var parts := SplitToViews(text, image.separator);
      ResolvePartsSound(hooks, image, s, parts, 3);
      var o := ResolveParts(hooks, image, s, parts, 3);
      DropSound(hooks, image, o.session, MarkedByCache(hooks, parts));
  }

  /**
    Whatever cache texts and symbols a session meets, and wherever an exception stops it: every hook
    is unresolved, resolved or dropped, and only one of these; only optional hooks are dropped; and
    every address came with a symbol of the hook that took it.
   */
  lemma {:induction false} HistoryPartitionsHooks(hooks: seq<Hook>, image: Image, ops: seq<Op>)
    requires ValidOps(image, ops)
    ensures
      var s := Run(hooks, image, ops).session;
      && Sound(hooks, image, s)
      && (forall i: nat :: i < |hooks| <==>
            i in Remaining(|hooks|, Gone(s)) || i in s.resolved || i in s.dropped)
  {
    if ops != [] {
      var before := Run(hooks, image, ops[..|ops| - 1]);
      HistoryPartitionsHooks(hooks, image, ops[..|ops| - 1]);
      if !before.threw {
        StepSound(hooks, image, before.session, ops[|ops| - 1]);
      }
    }
  }

  // ---------------------------------------------------------------- where every address came from

  /** A line of the cut-up cache with this symbol, and the address that its number means at this base. */
  ghost predicate LineSays(image: Image, parts: seq<string>, k: nat, symbol: string, address: nat) {
    && 3 <= k && k % 2 == 1 && k + 1 < |parts| && parts[k] == symbol && parts[k + 1] != ""
    && ParseULL(parts[k + 1]).Some?
    && address == (ParseULL(parts[k + 1]).value + image.base)
                  % (if image.wide then 0x1_0000_0000_0000_0000 else 0x1_0000_0000)
  }

  /** The operation brought this symbol with this address: as an event, or as a line of a cache of this version. */
  ghost predicate Offers(image: Image, op: Op, symbol: string, address: nat) {
    match op
    case Symbol(x, a) => x == symbol && a == address
    case Cache(text) =>
      var parts := Pieces(text, image.separator);
      text != "" && parts[0] == "1" && exists k :: LineSays(image, parts, k, symbol, address)
    case Missing => false
  }

  lemma {:induction false} ResolvePartsOffers(hooks: seq<Hook>, image: Image, s: Session, parts: seq<string>, i: nat, h: nat)
    requires 3 <= i && i % 2 == 1
    requires h in ResolveParts(hooks, image, s, parts, i).session.resolved
    ensures
      var r := ResolveParts(hooks, image, s, parts, i).session.resolved[h];
      || (h in s.resolved && s.resolved[h] == r)
      || exists k :: LineSays(image, parts, k, r.symbol, r.address)
    decreases |parts| - i
  {
    if i + 1 < |parts| {
      if parts[i + 1] == "" {
        ResolvePartsOffers(hooks, image, s, parts, i + 2, h);
      } else if ParseULL(parts[i + 1]).Some? {
        var address := AtOffset(image, ParseULL(parts[i + 1]).value);
        assert LineSays(image, parts, i, parts[i], address);
        ResolvePartsOffers(hooks, image, OnSymbol(hooks, image, s, parts[i], address), parts, i + 2, h);
      }
    }
  }

  lemma StepOffers(hooks: seq<Hook>, image: Image, s: Session, op: Op, h: nat)
    requires h in Step(hooks, image, s, op).session.resolved
    ensures
      var r := Step(hooks, image, s, op).session.resolved[h];
      (h in s.resolved && s.resolved[h] == r) || Offers(image, op, r.symbol, r.address)
  {
    match op
    case Symbol(symbol, address) =>
    case Missing =>
    case Cache(text) =>
      var parts := SplitToViews(text, image.separator);
      if |parts| >= 3 && parts[0] == CACHE_VERSION {
        ResolvePartsOffers(hooks, image, s, parts, 3, h);
      }
  }

  /**
    Every resolved hook has an address that some operation of the history brought together with the
    symbol it was resolved by: a symbol event with exactly that address, or a cache line whose number
    is the distance from the module's base.
   */
  lemma {:induction false} AddressesWereOffered(hooks: seq<Hook>, image: Image, ops: seq<Op>, h: nat)
    requires h in Run(hooks, image, ops).session.resolved
    ensures
      var r := Run(hooks, image, ops).session.resolved[h];
      exists k :: 0 <= k < |ops| && Offers(image, ops[k], r.symbol, r.address)
  {
    if ops != [] {
      var n := |ops| - 1;
      var before := Run(hooks, image, ops[..n]);
      var r := Run(hooks, image, ops).session.resolved[h];
      if !before.threw { StepOffers(hooks, image, before.session, ops[n], h); }
      if h in before.session.resolved && before.session.resolved[h] == r {
        AddressesWereOffered(hooks, image, ops[..n], h);
        var k :| 0 <= k < n && Offers(image, ops[..n][k], r.symbol, r.address);
        assert Offers(image, ops[k], r.symbol, r.address);
      }
    }
  }
}
