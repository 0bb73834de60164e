/** The session object of the engine, field by field, against its specification. */
module HookSymbolsSessions {
  import opened Text
  import opened SymbolSession

  // ---------------------------------------------------------------- the list of unresolved hooks

  lemma {:induction false} RemainingOrdered(n: nat, gone: set<nat>)
    ensures forall k, l :: 0 <= k < l < |Remaining(n, gone)| ==> Remaining(n, gone)[k] < Remaining(n, gone)[l]
  {
    if n > 0 { RemainingOrdered(n - 1, gone); }
  }

  lemma EraseBeforeLast(r: seq<nat>, x: nat, k: nat)
    requires k < |r|
    ensures (r + [x])[..k] + (r + [x])[k + 1..] == (r[..k] + r[k + 1..]) + [x] && (r + [x])[k] == r[k]
  {
  }

  lemma EraseLast(r: seq<nat>, x: nat)
    ensures (r + [x])[..|r|] + (r + [x])[|r| + 1..] == r && (r + [x])[|r|] == x
  {
  }

  lemma {:induction false} RemainingErase(n: nat, gone: set<nat>, k: nat)
    requires k < |Remaining(n, gone)|
    ensures
      var r := Remaining(n, gone);
      Remaining(n, gone + {r[k]}) == r[..k] + r[k + 1..]
  {
    if n - 1 in gone {
      RemainingErase(n - 1, gone, k);
    } else if k == |Remaining(n - 1, gone)| {
      EraseLast(Remaining(n - 1, gone), n - 1);
      RemainingAgree(n - 1, gone + {n - 1}, gone);
    } else {
      RemainingErase(n - 1, gone, k);
      EraseBeforeLast(Remaining(n - 1, gone), n - 1, k);
    }
  }

  lemma {:induction false} RemainingAll(n: nat)
    ensures Remaining(n, {}) == seq(n, i => i)
  {
    if n > 0 { RemainingAll(n - 1); }
  }

  /** `std::erase_if`: what is left of a list, in order. */
  function Keep(todo: seq<nat>, marked: set<nat>): seq<nat> {
    if todo == [] then []
    else
      var rest := Keep(todo[..|todo| - 1], marked);
      if todo[|todo| - 1] in marked then rest else rest + [todo[|todo| - 1]]
  }

  lemma KeepOneMore(todo: seq<nat>, x: nat, marked: set<nat>)
    ensures Keep(todo + [x], marked) == Keep(todo, marked) + if x in marked then [] else [x]
  {
    assert (todo + [x])[..|todo|] == todo;
  }

  lemma {:induction false} KeepRemaining(n: nat, gone: set<nat>, marked: set<nat>)
    ensures Keep(Remaining(n, gone), marked) == Remaining(n, gone + marked)
  {
    if n > 0 {
      KeepRemaining(n - 1, gone, marked);
      if n - 1 !in gone { KeepOneMore(Remaining(n - 1, gone), n - 1, marked); }
    }
  }

  lemma {:induction false} RemainingAgree(n: nat, a: set<nat>, b: set<nat>)
    requires forall i: nat :: i < n ==> (i in a <==> i in b)
    ensures Remaining(n, a) == Remaining(n, b)
  {
    if n > 0 { RemainingAgree(n - 1, a, b); }
  }

  /** Erasing by a mark and printing what is erased is a drop. */
  lemma KeepIsDrop(hooks: seq<Hook>, s: Session, marked: set<nat>)
    ensures Keep(Remaining(|hooks|, Gone(s)), marked) == Remaining(|hooks|, Gone(Drop(hooks, s, marked)))
    ensures Drop(hooks, s, marked).entries == s.entries + DropEntries(hooks, Remaining(|hooks|, Gone(s)), marked)
    ensures Drop(hooks, s, marked).pending == s.pending && Drop(hooks, s, marked).originals == s.originals
  {
    KeepRemaining(|hooks|, Gone(s), marked);
    DropGone(hooks, s, marked);
    RemainingAgree(|hooks|, Gone(s) + marked, Gone(Drop(hooks, s, marked)));
  }

  lemma DropGone(hooks: seq<Hook>, s: Session, marked: set<nat>)
    ensures forall i: nat :: i < |hooks| ==> (i in Gone(s) + marked <==> i in Gone(Drop(hooks, s, marked)))
  {
  }

  /** The list's first element that lists the symbol is the claimant. */
  lemma FirstIsClaimant(hooks: seq<Hook>, gone: set<nat>, symbol: string, k: nat)
    requires k <= |Remaining(|hooks|, gone)|
    requires forall l :: 0 <= l < k ==> symbol !in hooks[Remaining(|hooks|, gone)[l]].symbols
    requires k < |Remaining(|hooks|, gone)| ==> symbol in hooks[Remaining(|hooks|, gone)[k]].symbols
    ensures Claimant(hooks, gone, symbol, 0)
         == if k < |Remaining(|hooks|, gone)| then Remaining(|hooks|, gone)[k] else |hooks|
  {
    RemainingOrdered(|hooks|, gone);
    var r := Remaining(|hooks|, gone);
    var c := Claimant(hooks, gone, symbol, 0);
    if c < |hooks| {
      assert c in r;
      var l :| 0 <= l < |r| && r[l] == c;
    }
  }

  /** Taking a symbol is erasing one element of the list. */
  lemma OnSymbolErases(hooks: seq<Hook>, image: Image, s: Session, symbol: string, address: nat, it: nat)
    requires it < |Remaining(|hooks|, Gone(s))|
    requires Claimant(hooks, Gone(s), symbol, 0) == Remaining(|hooks|, Gone(s))[it]
    ensures
      var r := Remaining(|hooks|, Gone(s));
      Remaining(|hooks|, Gone(OnSymbol(hooks, image, s, symbol, address))) == r[..it] + r[it + 1..]
  {
    var k := Remaining(|hooks|, Gone(s))[it];
    RemainingErase(|hooks|, Gone(s), it);
    assert Gone(OnSymbol(hooks, image, s, symbol, address)) == Gone(s) + {k};
  }

  // ---------------------------------------------------------------- the printed text

  lemma {:induction false} EntryPartsConcat(a: seq<Entry>, b: seq<Entry>)
    ensures EntryParts(a + b) == EntryParts(a) + EntryParts(b)
  {
    if a == [] {
      assert a + b == b;
    } else {
      assert (a + b)[1..] == a[1..] + b;
      EntryPartsConcat(a[1..], b);
    }
  }

  lemma JoinAfterTwo(a: string, b: string, sep: char)
    ensures JoinAfter([a, b], sep) == [sep] + a + [sep] + b
  {
    assert [a, b][1..] == [b] && [b][1..] == [];
    assert JoinAfter([b], sep) == [sep] + b + "";
  }

  lemma AppendLine(text: string, more: string, a: string, b: string, sep: char)
    ensures text + (more + ([sep] + a + [sep] + b)) == text + more + [sep] + a + [sep] + b
  {
  }

  lemma RenderAppend(image: Image, entries: seq<Entry>, e: Entry)
    ensures Render(image, entries + [e])
         == Render(image, entries) + [image.separator] + e.symbol + [image.separator]
            + if e.offset.Some? then Decimal(e.offset.value) else ""
  {
    EntryPartsConcat(entries, [e]);
    var address := if e.offset.Some? then Decimal(e.offset.value) else "";
    assert EntryParts([e]) == [e.symbol, address];
    JoinAfterConcat(EntryParts(entries), [e.symbol, address], image.separator);
    JoinAfterTwo(e.symbol, address, image.separator);
    AppendLine(Header(image), JoinAfter(EntryParts(entries), image.separator), e.symbol, address, image.separator);
  }

  lemma {:induction false} MissingEntriesPrefix(symbols: seq<string>, k: nat)
    requires k < |symbols|
    ensures MissingEntries(symbols[..k + 1]) == MissingEntries(symbols[..k]) + [Entry(symbols[k], None)]
  {
    if k > 0 {
      assert symbols[..k + 1][1..] == symbols[1..][..k];
      assert symbols[..k][1..] == symbols[1..][..k - 1];
      MissingEntriesPrefix(symbols[1..], k - 1);
    }
  }

  lemma {:induction false} NoAddressMatchesStep(parts: seq<string>, symbols: seq<string>, i: nat, j: nat)
    requires i <= j && (j - i) % 2 == 0 && j + 1 < |parts|
    ensures NoAddressMatches(parts[..j], symbols, i)
          + (if parts[j + 1] == "" && parts[j] in symbols then 1 else 0)
         == NoAddressMatches(parts[..j + 2], symbols, i)
    decreases j - i
  {
    if i < j { NoAddressMatchesStep(parts, symbols, i + 2, j); }
    else { assert NoAddressMatches(parts[..j + 2], symbols, j + 2) == 0; }
  }

  // ---------------------------------------------------------------- the object

  class HookSymbolsSession {
    const hooks: seq<Hook>
    const image: Image
    var symbolHooksUnresolved: seq<nat>
    var pendingHooks: seq<PendingHook>
    var originals: map<nat, nat>
    var newSystemCacheStr: string
    ghost var session: Session
    ghost var applied: bool

    ghost predicate Valid()
      reads this
    {
      && ValidImage(image)
      && symbolHooksUnresolved == Remaining(|hooks|, Gone(session))
      && pendingHooks == (if applied then [] else session.pending)
      && originals == session.originals
      && newSystemCacheStr == Render(image, session.entries)
    }

    constructor (hooks: seq<Hook>, image: Image)
      requires ValidImage(image)
      ensures Valid() && !applied && session == EmptySession
      ensures this.hooks == hooks && this.image == image
    {
      this.hooks, this.image := hooks, image;
      symbolHooksUnresolved := seq(|hooks|, i => i);
      pendingHooks, originals := [], map[];
      newSystemCacheStr := CACHE_VERSION + [image.separator] + image.fileName + [image.separator] + image.stamp;
      session, applied := EmptySession, false;
      RemainingAll(|hooks|);
      assert Gone(EmptySession) == {};
    }

    static method Lists(symbols: seq<string>, symbol: string) returns (found: bool)
      ensures found <==> symbol in symbols
    {
      for s := 0 to |symbols|
        invariant symbol !in symbols[..s]
      {
        if symbols[s] == symbol { return true; }
      }
      return false;
    }

    /** The position of the first unresolved hook that lists the symbol. */
    method FindUnresolved(symbol: string) returns (it: nat)
      requires Valid()
      ensures it <= |symbolHooksUnresolved|
      ensures Claimant(hooks, Gone(session), symbol, 0)
           == if it < |symbolHooksUnresolved| then symbolHooksUnresolved[it] else |hooks|
    {
      it := 0;
      while it < |symbolHooksUnresolved|
        invariant it <= |symbolHooksUnresolved|
        invariant forall l :: 0 <= l < it ==> symbol !in hooks[symbolHooksUnresolved[l]].symbols
      {
        var listed := Lists(hooks[symbolHooksUnresolved[it]].symbols, symbol);
        if listed { break; }
        it := it + 1;
      }
      FirstIsClaimant(hooks, Gone(session), symbol, it);
    }

    /** Appends the line of a found symbol. */
    method PrintFound(symbol: string, address: nat)
      requires newSystemCacheStr == Render(image, session.entries)
      modifies this`newSystemCacheStr
      ensures newSystemCacheStr
           == Render(image, session.entries + [Entry(symbol, Some(Offset(image, address)))])
    {
      RenderAppend(image, session.entries, Entry(symbol, Some(Offset(image, address))));
      newSystemCacheStr := newSystemCacheStr + [image.separator];
      newSystemCacheStr := newSystemCacheStr + symbol;
      newSystemCacheStr := newSystemCacheStr + [image.separator];
      newSystemCacheStr := newSystemCacheStr + Decimal(Offset(image, address));
    }

    method OnSymbolResolved(symbol: string, address: nat) returns (found: bool)
      requires Valid() && !applied
      modifies this
      ensures Valid() && !applied
      ensures session == OnSymbol(hooks, image, old(session), symbol, address)
      ensures found <==> Claimant(hooks, Gone(old(session)), symbol, 0) < |hooks|
    {
      var it := FindUnresolved(symbol);
      if it == |symbolHooksUnresolved| { return false; }
      OnSymbolErases(hooks, image, session, symbol, address, it);
      ghost var after := OnSymbol(hooks, image, session, symbol, address);
      var symbolHook := symbolHooksUnresolved[it];
      if hooks[symbolHook].hasHookFunction {
        pendingHooks := pendingHooks + [PendingHook(address, symbolHook)];
      } else if hooks[symbolHook].storesOriginal {
        originals := originals[symbolHook := address];
      }
      PrintFound(symbol, address);
      symbolHooksUnresolved := symbolHooksUnresolved[..it] + symbolHooksUnresolved[it + 1..];
      session := after;
      return true;
    }

    /** Prints the lines of one hook that is being removed. */
    method PrintMissing(h: nat, ghost before: seq<Entry>)
      requires h < |hooks| && newSystemCacheStr == Render(image, before)
      modifies this`newSystemCacheStr
      ensures newSystemCacheStr == Render(image, before + MissingEntries(hooks[h].symbols))
    {
      var symbols := hooks[h].symbols;
      assert before + MissingEntries([]) == before;
      for s := 0 to |symbols|
        invariant newSystemCacheStr == Render(image, before + MissingEntries(symbols[..s]))
      {
        MissingEntriesPrefix(symbols, s);
        RenderAppend(image, before + MissingEntries(symbols[..s]), Entry(symbols[s], None));
        assert before + MissingEntries(symbols[..s + 1])
            == (before + MissingEntries(symbols[..s])) + [Entry(symbols[s], None)];
        newSystemCacheStr := newSystemCacheStr + [image.separator];
        newSystemCacheStr := newSystemCacheStr + symbols[s];
        newSystemCacheStr := newSystemCacheStr + [image.separator];
      }
      assert symbols[..|symbols|] == symbols;
    }

    /** How many address-less pairs of the cache name one of the symbols. */
    static method CountNoAddress(parts: seq<string>, symbols: seq<string>) returns (count: nat)
      ensures count == NoAddressMatches(parts, symbols, 3)
    {
      count := 0;
      var j := 3;
      while j + 1 < |parts|
        invariant 3 <= j && (j - 3) % 2 == 0 && j <= |parts| + 3
        invariant j <= |parts| ==> count == NoAddressMatches(parts[..j], symbols, 3)
        invariant j > |parts| ==> |parts| < 3 && count == 0
      {
        NoAddressMatchesStep(parts, symbols, 3, j);
        if |parts[j + 1]| == 0 {
          var listed := Lists(symbols, parts[j]);
          if listed { count := count + 1; }
        }
        j := j + 2;
      }
      if j == |parts| {
        assert parts[..j] == parts;
      } else if j < |parts| {
        NoAddressMatchesTail(parts, symbols, 3, j);
      }
    }

    /** What both predicates of `std::erase_if` decide; only one of them is given cache parts. */
    ghost function Marked(parts: Option<seq<string>>): set<nat> {
      if parts.Some? then MarkedByCache(hooks, parts.value) else OptionalHooks(hooks)
    }

    method ShouldRemove(symbolHook: nat, parts: Option<seq<string>>) returns (remove: bool)
      requires symbolHook < |hooks|
      ensures remove <==> symbolHook in Marked(parts)
    {
      if !hooks[symbolHook].optional { return false; }
      if parts.None? { return true; }
      var noAddressMatchCount := CountNoAddress(parts.value, hooks[symbolHook].symbols);
      return noAddressMatchCount == |hooks[symbolHook].symbols|;
    }

    method EraseIf(todo: seq<nat>, parts: Option<seq<string>>, ghost before: seq<Entry>) returns (kept: seq<nat>)
      requires forall k :: 0 <= k < |todo| ==> todo[k] < |hooks|
      requires newSystemCacheStr == Render(image, before)
      modifies this`newSystemCacheStr
      ensures kept == Keep(todo, Marked(parts))
      ensures newSystemCacheStr == Render(image, before + DropEntries(hooks, todo, Marked(parts)))
    {
      kept := [];
      ghost var printed: seq<Entry> := [];
      assert before + printed == before;
      for k := 0 to |todo|
        invariant kept == Keep(todo[..k], Marked(parts))
        invariant printed == DropEntries(hooks, todo[..k], Marked(parts))
        invariant newSystemCacheStr == Render(image, before + printed)
      {
        assert todo[..k + 1][..k] == todo[..k] && todo[..k + 1][k] == todo[k];
        var remove := ShouldRemove(todo[k], parts);
        if remove {
          PrintMissing(todo[k], before + printed);
          ghost var more := MissingEntries(hooks[todo[k]].symbols);
          assert (before + printed) + more == before + (printed + more);
          printed := printed + more;
        } else {
          kept := kept + [todo[k]];
        }
      }
      assert todo[..|todo|] == todo;
    }

    method EraseMarked(parts: Option<seq<string>>)
      requires Valid() && !applied
      modifies this
      ensures Valid() && !applied && session == Drop(hooks, old(session), Marked(parts))
    {
      ghost var after := Drop(hooks, session, Marked(parts));
      KeepIsDrop(hooks, session, Marked(parts));
      var kept := EraseIf(symbolHooksUnresolved, parts, session.entries);
      symbolHooksUnresolved := kept;
      session := after;
    }

    method MarkUnresolvedSymbolsAsMissing()
      requires Valid() && !applied
      modifies this
      ensures Valid() && !applied && session == MarkMissing(hooks, old(session))
    {
      EraseMarked(None);
    }

    method ResolveSymbolsFromCache(cache: string) returns (threw: bool)
      requires Valid() && !applied
      modifies this
      ensures Valid() && !applied
      ensures Outcome(session, threw) == OnCache(hooks, image, old(session), cache)
    {
      var cacheParts := SplitToViews(cache, image.separator);
      if |cacheParts| < 3 || cacheParts[0] != CACHE_VERSION { return false; }
      var i := 3;
      while i + 1 < |cacheParts|
        invariant 3 <= i && Valid() && !applied
        invariant ResolveParts(hooks, image, old(session), cacheParts, 3)
               == ResolveParts(hooks, image, session, cacheParts, i)
      {
        if |cacheParts[i + 1]| != 0 {
          var value := ParseULL(cacheParts[i + 1]);
          if value.None? { return true; }
          var _ := OnSymbolResolved(cacheParts[i], AtOffset(image, value.value));
        }
        i := i + 2;
      }
      EraseMarked(Some(cacheParts));
      return false;
    }

    method AreAllSymbolsResolved() returns (all: bool)
      requires Valid()
      ensures all <==> Complete(hooks, session)
    {
      return |symbolHooksUnresolved| == 0;
    }

    /** Hands each pending hook to the callback once, in order, and forgets them. */
    method ApplyPendingHooks() returns (calls: seq<PendingHook>)
      requires Valid() && !applied
      modifies this
      ensures Valid() && applied && session == old(session)
      ensures calls == session.pending
    {
      calls := [];
      for k := 0 to |pendingHooks|
        invariant calls == pendingHooks[..k]
      {
        calls := calls + [pendingHooks[k]];
      }
      pendingHooks := [];
      applied := true;
    }
  }

  lemma {:induction false} NoAddressMatchesTail(parts: seq<string>, symbols: seq<string>, i: nat, j: nat)
    requires i <= j && (j - i) % 2 == 0 && j + 1 == |parts|
    ensures NoAddressMatches(parts[..j], symbols, i) == NoAddressMatches(parts, symbols, i)
    decreases j - i
  {
    if i < j { NoAddressMatchesTail(parts, symbols, i + 2, j); }
  }
}
