/** A fork or a new mod: an identifier that is not taken, written into the source of the original. */
module ModFork {
  import opened Text
  import opened ModMetadata

  // ---------------------------------------------------------------- whole blocks

  lemma {:induction false} SegmentEndAtBreak(a: string, b: string)
    ensures SegmentEnd(a + ['\n'] + b) == SegmentEnd(a)
  {
    var t := a + ['\n'] + b;
    if a == "" {
      assert t[0] == '\n';
    } else {
      assert t[0] == a[0] && t[1..] == a[1..] + ['\n'] + b;
      SegmentEndAtBreak(a[1..], b);
    }
  }

  lemma BreakParts(a: string, b: string, n: nat)
    requires n < |a|
    ensures (a + ['\n'] + b)[..n] == a[..n] && (a + ['\n'] + b)[n] == a[n]
    ensures (a + ['\n'] + b)[n + 1..] == a[n + 1..] + ['\n'] + b
  {
  }

  lemma BreakAt(a: string, b: string)
    ensures (a + ['\n'] + b)[..|a|] == a && (a + ['\n'] + b)[|a|] == '\n' && (a + ['\n'] + b)[|a| + 1..] == b
  {
  }

  lemma AppendMore(a: string, b: string, c: string, d: string, e: string)
    ensures a + b + (c + d + e) == (a + b + c) + d + e
  {
  }

  lemma {:induction false} MapAtBreak(a: string, b: string, f: string -> string)
    ensures MapSegments(a + ['\n'] + b, f) == MapSegments(a, f) + ['\n'] + MapSegments(b, f)
    decreases |a|
  {
    SegmentEndAtBreak(a, b);
    var n := SegmentEnd(a);
    if n < |a| {
      BreakParts(a, b, n);
      MapAtBreak(a[n + 1..], b, f);
      AppendMore(f(a[..n]), [a[n]], MapSegments(a[n + 1..], f), ['\n'], MapSegments(b, f));
    } else {
      BreakAt(a, b);
    }
  }

  function Mapped(lines: seq<string>, f: string -> string): seq<string> {
    seq(|lines|, i requires 0 <= i < |lines| => MapSegments(lines[i], f))
  }

  lemma {:induction false} MapLines(lines: seq<string>, f: string -> string)
    requires lines != []
    ensures MapSegments(Join(lines, '\n'), f) == Join(Mapped(lines, f), '\n')
    decreases |lines|
  {
    if |lines| > 1 {
      MapAtBreak(lines[0], Join(lines[1..], '\n'), f);
      MapLines(lines[1..], f);
      assert Mapped(lines, f)[1..] == Mapped(lines[1..], f);
    }
  }

  /** The first line that is to be rewritten, or the number of lines. */
  function FirstWanted(lines: seq<string>, what: What): (i: nat)
    ensures i <= |lines| && (i < |lines| ==> Wanted(ReadLine(lines[i]), what))
    ensures forall k :: 0 <= k < i ==> !Wanted(ReadLine(lines[k]), what)
  {
    if lines == [] || Wanted(ReadLine(lines[0]), what) then 0 else 1 + FirstWanted(lines[1..], what)
  }

  lemma SkipStep(text: string, hit: string -> bool, f: string -> string)
    requires !hit(FirstSegment(text))
    ensures var n := SegmentEnd(text);
      MapFirst(text, hit, f) == if n == |text| then text else text[..n] + [text[n]] + MapFirst(text[n + 1..], hit, f)
  {
  }

  ghost predicate SkipsWhite(hit: string -> bool) {
    forall s :: AllWhite(s) ==> !hit(s)
  }

  predicate Passes(line: string, hit: string -> bool) {
    !hit(FirstSegment(line)) && AllWhite(line[|FirstSegment(line)|..])
  }

  lemma PassesOn(line: string, hit: string -> bool)
    requires Passes(line, hit) && SkipsWhite(hit) && SegmentEnd(line) < |line|
    ensures Passes(line[SegmentEnd(line) + 1..], hit)
  {
    var n := SegmentEnd(line);
    assert line[n..][1..] == line[n + 1..];
    assert AllWhite(line[n + 1..]) && AllWhite(FirstSegment(line[n + 1..]));
  }

  /** The search for the first match goes past a line that has none. */
  lemma {:induction false} SearchGoesPast(a: string, b: string, hit: string -> bool, f: string -> string)
    requires Passes(a, hit) && SkipsWhite(hit)
    ensures MapFirst(a + ['\n'] + b, hit, f) == a + ['\n'] + MapFirst(b, hit, f)
    ensures MapFirst(a, hit, f) == a
    decreases |a|
  {
    SegmentEndAtBreak(a, b);
    var n := SegmentEnd(a);
    if n < |a| {
      BreakParts(a, b, n);
      SkipStep(a + ['\n'] + b, hit, f);
      SkipStep(a, hit, f);
      PassesOn(a, hit);
      SearchGoesPast(a[n + 1..], b, hit, f);
      Glue(a, n);
      AppendMore(a[..n], [a[n]], a[n + 1..], ['\n'], MapFirst(b, hit, f));
    } else {
      BreakAt(a, b);
      assert a[..n] == a;
      SkipStep(a + ['\n'] + b, hit, f);
      SkipStep(a, hit, f);
    }
  }

  lemma HitStep(text: string, hit: string -> bool, f: string -> string)
    requires hit(FirstSegment(text))
    ensures MapFirst(text, hit, f) == f(FirstSegment(text)) + text[|FirstSegment(text)|..]
  {
  }

  lemma BreakAfter(a: string, b: string, n: nat)
    requires n <= |a|
    ensures (a + ['\n'] + b)[..n] == a[..n] && (a + ['\n'] + b)[n..] == a[n..] + ['\n'] + b
  {
  }

  lemma AppendThree(a: string, b: string, c: string, d: string)
    ensures a + (b + c + d) == a + b + c + d
  {
  }

  lemma SearchEndsAtHit(line: string, b: string, hit: string -> bool, f: string -> string)
    requires hit(FirstSegment(line))
    ensures MapFirst(line + ['\n'] + b, hit, f) == MapFirst(line, hit, f) + ['\n'] + b
  {
    SegmentEndAtBreak(line, b);
    BreakAfter(line, b, |FirstSegment(line)|);
    HitStep(line, hit, f);
    HitStep(line + ['\n'] + b, hit, f);
    AppendThree(f(FirstSegment(line)), line[|FirstSegment(line)|..], ['\n'], b);
  }

  lemma UpdateTail(lines: seq<string>, i: nat, line: string)
    requires i < |lines|
    ensures i == 0 ==> lines[i := line][1..] == lines[1..]
    ensures i > 0 ==> lines[i := line][1..] == lines[1..][i - 1 := line] && lines[i := line][0] == lines[0]
  {
  }

  /** The lines with this one mapped, if it is one of them. */
  function WithMapped(lines: seq<string>, i: nat, f: string -> string): seq<string> {
    if i < |lines| then lines[i := f(lines[i])] else lines
  }

  function FirstMapper(hit: string -> bool, f: string -> string): string -> string { s => MapFirst(s, hit, f) }

  lemma {:induction false} MapFirstLines(lines: seq<string>, i: nat, hit: string -> bool, f: string -> string)
    requires lines != [] && i <= |lines| && SkipsWhite(hit)
    requires forall k :: 0 <= k < i ==> Passes(lines[k], hit)
    requires i < |lines| ==> hit(FirstSegment(lines[i]))
    ensures MapFirst(Join(lines, '\n'), hit, f) == Join(WithMapped(lines, i, FirstMapper(hit, f)), '\n')
    decreases |lines|
  {
    var rest := Join(lines[1..], '\n');
    if i < |lines| { UpdateTail(lines, i, MapFirst(lines[i], hit, f)); }
    if i == 0 {
      SearchEndsAtHit(lines[0], rest, hit, f);
    } else {
      SearchGoesPast(lines[0], rest, hit, f);
      if |lines| > 1 { MapFirstLines(lines[1..], i - 1, hit, f); }
    }
  }

  lemma HitSkipsWhite(what: What)
    ensures SkipsWhite(Hit(what))
  {
    forall s | AllWhite(s) ensures !Concerns(ParseHead(s), what) { WhiteHasNoHead(s); }
  }

  lemma WantedIsHit(line: string, what: What, suffix: string)
    requires Wanted(ReadLine(line), what)
    ensures Hit(what)(FirstSegment(line)) && RewriteFirst(line, what, suffix) == RewriteAll(line, what, suffix)
  {
    var upToBlanks, rest := SegmentRewritten(line, what, suffix);
    HitStep(line, Hit(what), Rewriter(what, suffix));
    RewriteAllLine(line, what, suffix);
  }

  lemma UnwantedPasses(line: string, what: What)
    requires !ReadLine(line).Bad? && !Wanted(ReadLine(line), what)
    ensures Passes(line, Hit(what))
  {
    UnwantedSegment(line, what);
    RestIsWhite(line);
  }

  /** The lines with the first wanted one rewritten. */
  function WithRewritten(lines: seq<string>, what: What, suffix: string): seq<string> {
    var i := FirstWanted(lines, what);
    if i < |lines| then lines[i := RewriteAll(lines[i], what, suffix)] else lines
  }

  predicate Readable(lines: seq<string>) {
    forall k :: 0 <= k < |lines| ==> !ReadLine(lines[k]).Bad?
  }

  lemma UpToFirstWanted(lines: seq<string>, what: What, suffix: string) returns (i: nat)
    requires Readable(lines)
    ensures i <= |lines| && forall k :: 0 <= k < i ==> Passes(lines[k], Hit(what))
    ensures i < |lines| ==> Hit(what)(FirstSegment(lines[i]))
    ensures WithMapped(lines, i, FirstMapper(Hit(what), Rewriter(what, suffix))) == WithRewritten(lines, what, suffix)
  {
    i := FirstWanted(lines, what);
    forall k | 0 <= k < i ensures Passes(lines[k], Hit(what)) {
      UnwantedPasses(lines[k], what);
    }
    if i < |lines| {
      WantedIsHit(lines[i], what, suffix);
      assert FirstMapper(Hit(what), Rewriter(what, suffix))(lines[i]) == RewriteFirst(lines[i], what, suffix);
    }
  }

  lemma RewriteFirstLines(lines: seq<string>, what: What, suffix: string)
    requires lines != [] && Readable(lines)
    ensures RewriteFirst(Join(lines, '\n'), what, suffix) == Join(WithRewritten(lines, what, suffix), '\n')
  {
    HitSkipsWhite(what);
    var i := UpToFirstWanted(lines, what, suffix);
    MapFirstLines(lines, i, Hit(what), Rewriter(what, suffix));
  }

  // ---------------------------------------------------------------- what the new source says

  /** What each line reads as after both rewritings. */
  function Expected(lines: seq<string>, appendToId: string, appendToName: string): seq<Line> {
    seq(|lines|, i requires 0 <= i < |lines| =>
      if i == FirstWanted(lines, Id) then Changed(lines[i], Id, appendToId)
      else Changed(lines[i], Name, appendToName))
  }

  lemma {:induction false} ReadJoined(lines: seq<string>)
    requires lines != [] && forall k :: 0 <= k < |lines| ==> '\n' !in lines[k]
    ensures ReadBlock(Join(lines, '\n')) == ReadLines(lines)
  {
    PiecesOfJoin(lines, '\n');
    AllPiecesOfPlain(lines, '\n');
  }

  lemma IdIsNoName(line: string, suffix: string)
    requires Wanted(ReadLine(line), Id)
    ensures !Wanted(Changed(line, Id, suffix), Name) && !Changed(line, Id, suffix).Bad?
  {
  }

  /** The lines after both rewritings. */
  function NewLines(lines: seq<string>, appendToId: string, appendToName: string): seq<string> {
    Mapped(WithRewritten(lines, Id, appendToId), Rewriter(Name, appendToName))
  }

  lemma NewLineReads(lines: seq<string>, appendToId: string, appendToName: string, k: nat)
    requires forall k :: 0 <= k < |lines| ==> !ReadLine(lines[k]).Bad? && '\n' !in lines[k]
    requires GoodSuffix(appendToId) && GoodSuffix(appendToName) && k < |lines|
    ensures ReadLine(NewLines(lines, appendToId, appendToName)[k]) == Expected(lines, appendToId, appendToName)[k]
    ensures '\n' !in NewLines(lines, appendToId, appendToName)[k]
  {
    if k == FirstWanted(lines, Id) {
      LineRewritten(lines[k], Id, appendToId);
      IdIsNoName(lines[k], appendToId);
      var line := RewriteAll(lines[k], Id, appendToId);
      LineRewritten(line, Name, appendToName);
    } else {
      LineRewritten(lines[k], Name, appendToName);
    }
  }

  lemma {:induction false} JoinOfPieces(s: string, sep: char)
    ensures Join(Pieces(s, sep), sep) == s
  {
    if s != "" {
      JoinOfPieces(s[1..], sep);
      var rest := Pieces(s[1..], sep);
      assert [s[0]] + s[1..] == s;
      if s[0] == sep {
        assert ([""] + rest)[1..] == rest;
      } else {
        JoinHead([s[0]], rest, sep);
      }
    }
  }

  lemma JoinHead(a: string, parts: seq<string>, sep: char)
    requires parts != []
    ensures Join([a + parts[0]] + parts[1..], sep) == a + Join(parts, sep)
  {
    var t := [a + parts[0]] + parts[1..];
    assert t[1..] == parts[1..];
    if |parts| > 1 {
      assert a + parts[0] + [sep] + Join(parts[1..], sep) == a + (parts[0] + [sep] + Join(parts[1..], sep));
    }
  }

  lemma NewSourceIs(block: string, appendToId: string, appendToName: string)
    requires forall l :: l in ReadBlock(block) ==> !l.Bad?
    requires appendToId != "" && appendToName != ""
    ensures AppendToIdAndName(block, appendToId, appendToName)
      == Join(NewLines(Pieces(block, '\n'), appendToId, appendToName), '\n')
  {
    var lines := Pieces(block, '\n');
    JoinOfPieces(block, '\n');
    LinesOf(block);
    RewriteFirstLines(lines, Id, appendToId);
    MapLines(WithRewritten(lines, Id, appendToId), Rewriter(Name, appendToName));
  }

  lemma NewLinesRead(lines: seq<string>, appendToId: string, appendToName: string)
    requires forall k :: 0 <= k < |lines| ==> !ReadLine(lines[k]).Bad? && '\n' !in lines[k]
    requires GoodSuffix(appendToId) && GoodSuffix(appendToName)
    ensures ReadLines(NewLines(lines, appendToId, appendToName)) == Expected(lines, appendToId, appendToName)
    ensures forall k :: 0 <= k < |lines| ==> '\n' !in NewLines(lines, appendToId, appendToName)[k]
  {
    forall k | 0 <= k < |lines|
      ensures ReadLine(NewLines(lines, appendToId, appendToName)[k]) == Expected(lines, appendToId, appendToName)[k]
      ensures '\n' !in NewLines(lines, appendToId, appendToName)[k]
    {
      NewLineReads(lines, appendToId, appendToName, k);
    }
  }

  lemma LinesOf(block: string)
    requires forall l :: l in ReadBlock(block) ==> !l.Bad?
    ensures var lines := Pieces(block, '\n');
      forall k :: 0 <= k < |lines| ==> !ReadLine(lines[k]).Bad? && '\n' !in lines[k]
  {
    PieceHasNoSeparator(block, '\n');
    assert forall k :: 0 <= k < |Pieces(block, '\n')| ==> ReadBlock(block)[k] == ReadLine(Pieces(block, '\n')[k]);
  }

  /**
    After a block that could be read gets both suffixes, it can be read, and it says what it said
    before except for the suffix on the identifier and on every name.
   */
  lemma NewSourceReads(block: string, appendToId: string, appendToName: string)
    requires forall l :: l in ReadBlock(block) ==> !l.Bad?
    requires GoodSuffix(appendToId) && GoodSuffix(appendToName)
    ensures ReadBlock(AppendToIdAndName(block, appendToId, appendToName))
      == Expected(Pieces(block, '\n'), appendToId, appendToName)
  {
    var lines := Pieces(block, '\n');
    LinesOf(block);
    NewSourceIs(block, appendToId, appendToName);
    NewLinesRead(lines, appendToId, appendToName);
    ReadJoined(NewLines(lines, appendToId, appendToName));
  }

  /** An `@id` line without a language. */
  predicate IsPlainId(l: Line) { l.Good? && l.item.key == "id" && l.item.language == None }

  /** Between the value and the end of its line there are only spaces and tabs. */
  predicate OnlyBlanksAfter(line: string) {
    forall k :: 0 <= k < |After(line)| ==> Blank(After(line)[k])
  }

  lemma NoResidual(line: string)
    ensures Residual(line) == "" <==> OnlyBlanksAfter(line)
  {
    TrimToNothing(After(line));
  }

  lemma TrimToNothing(s: string)
    ensures TrimEnd(s, Blank) == "" <==> forall k :: 0 <= k < |s| ==> Blank(s[k])
  {
    var r := TrimEnd(s, Blank);
    assert r != "" ==> r[|r| - 1] == s[|r| - 1];
  }

  lemma Between(value: string, residual: string, suffix: string)
    ensures value + (residual + suffix) == value + suffix <==> residual == ""
  {
    assert |value + (residual + suffix)| == |value + suffix| + |residual|;
    assert residual == "" ==> residual + suffix == suffix;
  }

  /** With exactly the suffix added. */
  function WithSuffix(l: Line, suffix: string): Line
    requires l.Good?
  {
    Good(l.item.(value := l.item.value + suffix))
  }

  lemma SuffixedLine(line: string, what: What, suffix: string)
    requires Wanted(ReadLine(line), what)
    ensures Changed(line, what, suffix) == WithSuffix(ReadLine(line), suffix) <==> OnlyBlanksAfter(line)
  {
    NoResidual(line);
    Between(ReadLine(line).item.value, Residual(line), suffix);
  }

  lemma FirstPlainId(lines: seq<string>, k: nat)
    requires k < |lines|
    ensures k == FirstWanted(lines, Id) <==>
      IsPlainId(ReadLine(lines[k])) && forall j :: 0 <= j < k ==> !IsPlainId(ReadLine(lines[j]))
  {
    assert forall j :: 0 <= j < |lines| ==> (IsPlainId(ReadLine(lines[j])) <==> Wanted(ReadLine(lines[j]), Id));
  }

  /** The identifier and the names are exactly the old ones with the suffix, exactly if only blanks follow them. */
  lemma SuffixesAreExactly(block: string, appendToId: string, appendToName: string, k: nat)
    requires forall l :: l in ReadBlock(block) ==> !l.Bad?
    requires GoodSuffix(appendToId) && GoodSuffix(appendToName) && k < |Pieces(block, '\n')|
    ensures
      var lines := Pieces(block, '\n');
      var after := ReadBlock(AppendToIdAndName(block, appendToId, appendToName));
      var l := ReadLine(lines[k]);
      && |after| == |lines|
      && (if IsPlainId(l) && (forall j :: 0 <= j < k ==> !IsPlainId(ReadLine(lines[j]))) then
            (after[k] == Good(l.item.(value := l.item.value + appendToId)) <==> OnlyBlanksAfter(lines[k]))
          else if l.Good? && l.item.key == "name" then
            (after[k] == Good(l.item.(value := l.item.value + appendToName)) <==> OnlyBlanksAfter(lines[k]))
          else after[k] == l)
  {
    var lines := Pieces(block, '\n');
    NewSourceReads(block, appendToId, appendToName);
    FirstPlainId(lines, k);
    if k == FirstWanted(lines, Id) {
      SuffixedLine(lines[k], Id, appendToId);
    } else if Wanted(ReadLine(lines[k]), Name) {
      SuffixedLine(lines[k], Name, appendToName);
    }
  }

  // ---------------------------------------------------------------- identifiers that are not taken

  function LocalId(modId: string): string { "local@" + modId }

  ghost function Tried(base: string, counter: nat): set<string> {
    set c | 2 <= c < counter :: LocalId(base + Decimal(c))
  }

  lemma TriedOneMore(base: string, counter: nat)
    requires counter >= 2
    ensures LocalId(base + Decimal(counter)) !in Tried(base, counter)
    ensures Tried(base, counter + 1) == Tried(base, counter) + {LocalId(base + Decimal(counter))}
  {
    forall c: nat | LocalId(base + Decimal(c)) == LocalId(base + Decimal(counter)) ensures c == counter {
      var n := |LocalId(base)|;
      assert LocalId(base + Decimal(c))[n..] == Decimal(c) && LocalId(base + Decimal(counter))[n..] == Decimal(counter);
      DecimalInjective(c, counter);
    }
  }

  lemma Fewer(all: set<string>, seen: set<string>, s: string)
    requires s in all && s !in seen
    ensures |all - (seen + {s})| < |all - seen|
  {
    assert all - (seen + {s}) == (all - seen) - {s};
  }

  /** The first number from 2 on that gives a free identifier. */
  method FirstFree(base: string, taken: set<string>) returns (counter: nat)
    ensures counter >= 2 && "local@" + (base + Decimal(counter)) !in taken
    ensures forall c :: 2 <= c < counter ==> "local@" + (base + Decimal(c)) in taken
  {
    counter := 2;
    while LocalId(base + Decimal(counter)) in taken
      invariant counter >= 2 && Tried(base, counter) <= taken
      decreases |taken - Tried(base, counter)|
    {
      TriedOneMore(base, counter);
      Fewer(taken, Tried(base, counter), LocalId(base + Decimal(counter)));
      counter := counter + 1;
    }
    assert forall c :: 2 <= c < counter ==> LocalId(base + Decimal(c)) in Tried(base, counter);
  }

  /** The suffixes of the first fork, and of the `n`th. */
  function ForkSuffix(n: nat): string { if n < 2 then "-fork" else "-fork" + Decimal(n) }
  function ForkNameSuffix(n: nat): string { if n < 2 then " - Fork" else " - Fork (" + Decimal(n) + ")" }

  lemma DigitsAreNotWhite(n: nat)
    ensures OneLine(Decimal(n)) && !White(Decimal(n)[|Decimal(n)| - 1])
  {
    var d := Decimal(n);
    assert forall k :: 0 <= k < |d| ==> IsDigit(d[k]);
  }

  lemma ForkSuffixesAreGood(n: nat)
    ensures GoodSuffix(ForkSuffix(n)) && GoodSuffix(ForkNameSuffix(n))
  {
    DigitsAreNotWhite(n);
    assert n >= 2 ==> ForkSuffix(n)[|ForkSuffix(n)| - 1] == Decimal(n)[|Decimal(n)| - 1];
  }

  /**
    `forkMod`: the identifier, and the source that says so. `taken` has the local identifiers that
    have a source or a configuration.
   */
  method ForkMod(block: string, metadataId: string, taken: set<string>)
    returns (forkId: string, source: string, ghost n: nat)
    requires forall l :: l in ReadBlock(block) ==> !l.Bad?
    ensures n >= 1 && "local@" + forkId !in taken
    ensures n == 1 ==> forkId == metadataId + "-fork"
    ensures n >= 2 ==> forkId == metadataId + ("-fork" + Decimal(n)) && "local@" + (metadataId + "-fork") in taken
    ensures forall c :: 2 <= c < n ==> "local@" + (metadataId + ("-fork" + Decimal(c))) in taken
    ensures n == 1 ==> ReadBlock(source) == Expected(Pieces(block, '\n'), "-fork", " - Fork")
    ensures n >= 2 ==>
      ReadBlock(source) == Expected(Pieces(block, '\n'), "-fork" + Decimal(n), " - Fork (" + Decimal(n) + ")")
  {
    n := 1;
    var modIdSuffix, modNameSuffix := "-fork", " - Fork";
    forkId := metadataId + modIdSuffix;
    if LocalId(forkId) in taken {
      var base := metadataId + "-fork";
      var counter := FirstFree(base, taken);
      forall c: nat ensures metadataId + ("-fork" + Decimal(c)) == base + Decimal(c) {
        assert metadataId + ("-fork" + Decimal(c)) == (metadataId + "-fork") + Decimal(c);
      }
      modIdSuffix := "-fork" + Decimal(counter);
      forkId := metadataId + modIdSuffix;
      modNameSuffix := " - Fork (" + Decimal(counter) + ")";
      n := counter;
    }
    ForkSuffixesAreGood(n);
    source := AppendToIdAndName(block, modIdSuffix, modNameSuffix);
    NewSourceReads(block, modIdSuffix, modNameSuffix);
  }

  /**
    A new source says the old identifier with the suffix, if the old one was read from a plain line,
    the first one, and only blanks follow it there.
   */
  lemma ForkNamesItself(block: string, metadataId: string, appendToId: string, appendToName: string, i: nat)
    requires forall l :: l in ReadBlock(block) ==> !l.Bad?
    requires GoodSuffix(appendToId) && GoodSuffix(appendToName) && i < |Pieces(block, '\n')|
    requires ReadLine(Pieces(block, '\n')[i]) == Good(Item("id", None, metadataId)) && OnlyBlanksAfter(Pieces(block, '\n')[i])
    requires forall j :: 0 <= j < i ==> !IsPlainId(ReadLine(Pieces(block, '\n')[j]))
    ensures
      var after := ReadBlock(AppendToIdAndName(block, appendToId, appendToName));
      i < |after| && after[i] == Good(Item("id", None, metadataId + appendToId))
  {
    SuffixesAreExactly(block, appendToId, appendToName, i);
  }

  /** `createNewMod`: the template's own identifier if it is free, and otherwise a numbered one. */
  method NewModId(metadataId: string, taken: set<string>)
    returns (newModId: string, modIdSuffix: string, modNameSuffix: string)
    ensures newModId == metadataId + modIdSuffix && "local@" + newModId !in taken
    ensures "local@" + metadataId !in taken ==> modIdSuffix == "" && modNameSuffix == ""
    ensures "local@" + metadataId in taken ==>
      exists n :: n >= 2 && modIdSuffix == "-" + Decimal(n) && modNameSuffix == " (" + Decimal(n) + ")"
        && (forall c :: 2 <= c < n ==> "local@" + (metadataId + "-" + Decimal(c)) in taken)
        && GoodSuffix(modIdSuffix) && GoodSuffix(modNameSuffix)
  {
    newModId, modIdSuffix, modNameSuffix := metadataId, "", "";
    if LocalId(newModId) in taken {
      var counter := FirstFree(metadataId + "-", taken);
      modIdSuffix := "-" + Decimal(counter);
      newModId := metadataId + modIdSuffix;
      assert newModId == metadataId + "-" + Decimal(counter);
      modNameSuffix := " (" + Decimal(counter) + ")";
      DigitsAreNotWhite(counter);
    }
  }
}
