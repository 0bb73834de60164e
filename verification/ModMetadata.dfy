/**
  The metadata block of a mod's source, line by line: what is read from it, and how a fork's identifier
  and name are written into it.
 */
module ModMetadata {
  import opened Text

  predicate Blank(c: char) { c == ' ' || c == '\t' }

  /** Where `^` and `$` see lines end, and what `.` does not match. */
  predicate Terminator(c: char) { c == '\n' || c == '\r' || c == '\U{2028}' || c == '\U{2029}' }

  /** What `trimEnd` removes. */
  predicate White(c: char) { Blank(c) || Terminator(c) || OtherSpace(c) }

  predicate OtherSpace(c: char) {
    || c == '\U{0B}' || c == '\U{0C}' || c == '\U{A0}' || c == '\U{1680}' || '\U{2000}' <= c <= '\U{200A}'
    || c == '\U{202F}' || c == '\U{205F}' || c == '\U{3000}' || c == '\U{FEFF}'
  }

  predicate Letter(c: char) { Lower(c) || Upper(c) }
  predicate Lower(c: char) { 'a' <= c <= 'z' }
  predicate Upper(c: char) { 'A' <= c <= 'Z' }

  /** The end of the longest run of such characters from `i` on. */
  function Run(s: string, i: nat, p: char -> bool): (j: nat)
    requires i <= |s|
    ensures i <= j <= |s| && (j < |s| ==> !p(s[j])) && forall k :: i <= k < j ==> p(s[k])
    decreases |s| - i
  {
    if i < |s| && p(s[i]) then Run(s, i + 1, p) else i
  }

  /** Without its trailing characters of this kind. */
  function TrimEnd(s: string, p: char -> bool): (r: string)
    ensures r <= s && (r != "" ==> !p(r[|r| - 1])) && forall k :: |r| <= k < |s| ==> p(s[k])
  {
    if s != "" && p(s[|s| - 1]) then TrimEnd(s[..|s| - 1], p) else s
  }

  /** A parameter's key, its language if it has one, and where its value starts. */
  datatype Head = Head(key: string, language: Option<string>, at: nat)

  /** `:xx` or `:xx-YY` at `i`, with its end. */
  function ParseLanguage(s: string, i: nat): Option<(string, nat)> {
    if i + 3 <= |s| && s[i] == ':' && Lower(s[i + 1]) && Lower(s[i + 2]) then
      if i + 6 <= |s| && s[i + 3] == '-' && Upper(s[i + 4]) && Upper(s[i + 5])
      then Some((s[i + 1..i + 6], i + 6))
      else Some((s[i + 1..i + 3], i + 3))
    else None
  }

  function LanguageEnd(s: string, i: nat): nat {
    var language := ParseLanguage(s, i);
    if language.Some? then language.value.1 else i
  }

  /** Where the `@` is that follows two slashes and blanks. */
  function AtSign(s: string): (i: Option<nat>)
    ensures i.Some? ==> i.value < |s|
  {
    if !("//" <= s) then None
    else
      var i := Run(s, 2, Blank);
      if i == 2 || i == |s| || s[i] != '@' then None else Some(i)
  }

  /** The end of the key that starts at `i`: letters, perhaps after an underscore. */
  function KeyEnd(s: string, i: nat): (j: nat)
    requires i <= |s|
    ensures i <= j <= |s|
  {
    var k := if i < |s| && s[i] == '_' then i + 1 else i;
    var end := Run(s, k, Letter);
    if end == k then i else end
  }

  /** Two slashes, blanks, `@`, a key, perhaps a language, and blanks. */
  function ParseHead(s: string): (h: Option<Head>)
    ensures h.Some? ==> h.value.at <= |s|
  {
    if AtSign(s).None? then None
    else
      var i := AtSign(s).value + 1;
      var keyEnd := KeyEnd(s, i);
      var headEnd := LanguageEnd(s, keyEnd);
      var at := Run(s, headEnd, Blank);
      if keyEnd == i || at == headEnd then None
      else
        var language := ParseLanguage(s, keyEnd);
        Some(Head(s[i..keyEnd], if language.Some? then Some(language.value.0) else None, at))
  }

  predicate OneLine(s: string) { forall k :: 0 <= k < |s| ==> !Terminator(s[k]) }

  datatype Item = Item(key: string, language: Option<string>, value: string)

  datatype Line = Nothing | Bad | Good(item: Item)

  /** Keys under which a plain object already has a property, which is no list. */
  const INHERITED: set<string> := {
    "constructor", "hasOwnProperty", "isPrototypeOf", "propertyIsEnumerable", "toString", "valueOf", "toLocaleString"}

  /** What one line gives; Bad stands for an exception. */
  function ReadLine(line: string): Line {
    var trimmed := TrimEnd(line, White);
    if trimmed == "" then Nothing
    else
      var h := ParseHead(trimmed);
      if h.None? || !OneLine(trimmed[h.value.at..]) || h.value.key in INHERITED then Bad
      else Good(Item(h.value.key, h.value.language, trimmed[h.value.at..]))
  }

  function ReadLines(lines: seq<string>): seq<Line> {
    seq(|lines|, i requires 0 <= i < |lines| => ReadLine(lines[i]))
  }

  function ReadBlock(block: string): seq<Line> { ReadLines(Pieces(block, '\n')) }

  // ---------------------------------------------------------------- rewriting

  datatype What = Id | Name

  predicate Concerns(h: Option<Head>, what: What) {
    h.Some? && match what
               case Id => h.value.key == "id" && h.value.language == None
               case Name => h.value.key == "name"
  }

  /** The suffix goes before the trailing blanks. */
  function RewriteSegment(segment: string, what: What, suffix: string): string {
    var h := ParseHead(segment);
    if !Concerns(h, what) then segment
    else
      var v := TrimEnd(segment[h.value.at..], Blank);
      segment[..h.value.at] + v + suffix + segment[h.value.at + |v|..]
  }

  /** Where the line ends that `^` and `$` see: at the first terminator or at the end. */
  function SegmentEnd(text: string): (n: nat)
    ensures n <= |text|
  {
    if text == "" || Terminator(text[0]) then 0 else 1 + SegmentEnd(text[1..])
  }

  function FirstSegment(text: string): string { text[..SegmentEnd(text)] }

  /** All lines of the text, each rewritten, as `replace` with the flags `m` and `g` goes through them. */
  function MapSegments(text: string, f: string -> string): string
    decreases |text|
  {
    var n := SegmentEnd(text);
    if n == |text| then f(text) else f(text[..n]) + [text[n]] + MapSegments(text[n + 1..], f)
  }

  /** Only the first matching line, as without the flag `g`. */
  function MapFirst(text: string, hit: string -> bool, f: string -> string): string
    decreases |text|
  {
    var n := SegmentEnd(text);
    if hit(text[..n]) then f(text[..n]) + text[n..]
    else if n == |text| then text
    else text[..n] + [text[n]] + MapFirst(text[n + 1..], hit, f)
  }

  function Rewriter(what: What, suffix: string): string -> string { s => RewriteSegment(s, what, suffix) }

  function Hit(what: What): string -> bool { s => Concerns(ParseHead(s), what) }

  function RewriteAll(text: string, what: What, suffix: string): string { MapSegments(text, Rewriter(what, suffix)) }

  function RewriteFirst(text: string, what: What, suffix: string): string {
    MapFirst(text, Hit(what), Rewriter(what, suffix))
  }

  function AppendToIdAndName(block: string, appendToId: string, appendToName: string): string {
    var named := if appendToId != "" then RewriteFirst(block, Id, appendToId) else block;
    if appendToName != "" then RewriteAll(named, Name, appendToName) else named
  }

  // ---------------------------------------------------------------- one line

  lemma {:induction false} RunAgrees(s: string, t: string, i: nat, p: char -> bool)
    requires i <= |s| && Run(s, i, p) < |s| && Run(s, i, p) < |t|
    requires s[..Run(s, i, p) + 1] == t[..Run(s, i, p) + 1]
    ensures Run(t, i, p) == Run(s, i, p)
    decreases |s| - i
  {
    var j := Run(s, i, p);
    assert s[i] == s[..j + 1][i] == t[..j + 1][i] == t[i];
    if p(s[i]) { RunAgrees(s, t, i + 1, p); }
  }

  /** Two strings that are the same up to and including this position. */
  predicate Agree(s: string, t: string, i: nat) {
    i < |s| && i < |t| && s[..i + 1] == t[..i + 1]
  }

  lemma AgreeEarlier(s: string, t: string, i: nat, j: nat)
    requires Agree(s, t, j) && i <= j
    ensures Agree(s, t, i) && s[i] == t[i] && s[..i] == t[..i]
  {
    assert s[..i + 1] == s[..j + 1][..i + 1];
    assert t[..i + 1] == t[..j + 1][..i + 1];
    assert s[i] == s[..i + 1][i] && t[i] == t[..i + 1][i];
    assert s[..i] == s[..i + 1][..i] && t[..i] == t[..i + 1][..i];
  }

  lemma LanguageAgrees(s: string, t: string, i: nat)
    requires Agree(s, t, LanguageEnd(s, i)) && Blank(s[LanguageEnd(s, i)]) && i <= LanguageEnd(s, i)
    ensures ParseLanguage(t, i) == ParseLanguage(s, i)
  {
    var e := LanguageEnd(s, i);
    forall k | 0 <= k <= e ensures s[k] == t[k] { AgreeEarlier(s, t, k, e); }
    if i + 3 <= e { assert t[i + 1..i + 3] == s[i + 1..i + 3]; }
    if i + 6 <= e { assert t[i + 1..i + 6] == s[i + 1..i + 6]; }
  }

  lemma AtSignAgrees(s: string, t: string)
    requires AtSign(s).Some? && Agree(s, t, AtSign(s).value)
    ensures AtSign(t) == AtSign(s)
  {
    RunAgrees(s, t, 2, Blank);
    AgreeEarlier(s, t, 0, AtSign(s).value);
    AgreeEarlier(s, t, 1, AtSign(s).value);
    AgreeEarlier(s, t, AtSign(s).value, AtSign(s).value);
  }

  lemma KeyEndAgrees(s: string, t: string, i: nat)
    requires i <= |s| && i < KeyEnd(s, i) && Agree(s, t, KeyEnd(s, i))
    ensures KeyEnd(t, i) == KeyEnd(s, i)
  {
    AgreeEarlier(s, t, i, KeyEnd(s, i));
    RunAgrees(s, t, if s[i] == '_' then i + 1 else i, Letter);
  }

  lemma KeyAgrees(s: string, t: string)
    requires ParseHead(s).Some? && Agree(s, t, ParseHead(s).value.at)
    ensures AtSign(t) == AtSign(s)
    ensures var i := AtSign(s).value + 1;
      KeyEnd(t, i) == KeyEnd(s, i) && s[i..KeyEnd(s, i)] == t[i..KeyEnd(s, i)] && KeyEnd(s, i) <= |t|
  {
    var at, i := ParseHead(s).value.at, AtSign(s).value + 1;
    var keyEnd := KeyEnd(s, i);
    AgreeEarlier(s, t, AtSign(s).value, at);
    AtSignAgrees(s, t);
    AgreeEarlier(s, t, keyEnd, at);
    KeyEndAgrees(s, t, i);
    assert s[i..keyEnd] == s[..keyEnd][i..] && t[i..keyEnd] == t[..keyEnd][i..];
  }

  lemma LanguagesAgree(s: string, t: string, keyEnd: nat, at: nat)
    requires keyEnd <= |s| && LanguageEnd(s, keyEnd) < at && Agree(s, t, at)
    requires LanguageEnd(s, keyEnd) < |s| && Blank(s[LanguageEnd(s, keyEnd)])
    ensures ParseLanguage(t, keyEnd) == ParseLanguage(s, keyEnd)
  {
    AgreeEarlier(s, t, LanguageEnd(s, keyEnd), at);
    LanguageAgrees(s, t, keyEnd);
  }

  lemma BlanksAgree(s: string, t: string, keyEnd: nat)
    requires keyEnd <= |s| && LanguageEnd(s, keyEnd) < Run(s, LanguageEnd(s, keyEnd), Blank)
    requires Agree(s, t, Run(s, LanguageEnd(s, keyEnd), Blank))
    ensures ParseLanguage(t, keyEnd) == ParseLanguage(s, keyEnd)
    ensures LanguageEnd(s, keyEnd) <= |t| && Run(t, LanguageEnd(s, keyEnd), Blank) == Run(s, LanguageEnd(s, keyEnd), Blank)
  {
    var headEnd := LanguageEnd(s, keyEnd);
    LanguagesAgree(s, t, keyEnd, Run(s, headEnd, Blank));
    RunAgrees(s, t, headEnd, Blank);
  }

  /** The head depends only on what comes up to the first character of the value. */
  lemma HeadAgrees(s: string, t: string)
    requires ParseHead(s).Some? && Agree(s, t, ParseHead(s).value.at)
    ensures ParseHead(t) == ParseHead(s)
  {
    var i := AtSign(s).value + 1;
    KeyAgrees(s, t);
    BlanksAgree(s, t, KeyEnd(s, i));
  }

  predicate Unbroken(s: string, i: nat, j: nat)
    requires j <= |s|
  {
    forall k :: i <= k < j ==> !Terminator(s[k])
  }

  lemma KeyIsUnbroken(s: string)
    requires AtSign(s).Some?
    ensures Unbroken(s, 0, AtSign(s).value + 1)
    ensures Unbroken(s, AtSign(s).value + 1, KeyEnd(s, AtSign(s).value + 1))
  {
    var i := AtSign(s).value;
    assert s[0] == '/' && s[1] == '/';
    assert Unbroken(s, 2, i);
  }

  lemma LanguageIsUnbroken(s: string, i: nat)
    requires i <= |s|
    ensures i <= LanguageEnd(s, i) <= |s| && Unbroken(s, i, LanguageEnd(s, i))
  {
  }

  lemma HeadIsOneLine(s: string)
    requires ParseHead(s).Some?
    ensures Unbroken(s, 0, ParseHead(s).value.at)
    ensures ParseHead(s).value.at > 0 && Blank(s[ParseHead(s).value.at - 1])
  {
    var keyEnd := KeyEnd(s, AtSign(s).value + 1);
    KeyIsUnbroken(s);
    LanguageIsUnbroken(s, keyEnd);
    assert Unbroken(s, LanguageEnd(s, keyEnd), ParseHead(s).value.at);
  }

  lemma {:induction false} TrimEndAfter(a: string, b: string, p: char -> bool)
    requires a != "" ==> !p(a[|a| - 1])
    ensures TrimEnd(a + b, p) == a + TrimEnd(b, p)
  {
    if b == "" {
      assert a + b == a;
    } else if p(b[|b| - 1]) {
      assert (a + b)[..|a + b| - 1] == a + b[..|b| - 1];
      TrimEndAfter(a, b[..|b| - 1], p);
    }
  }

  predicate AllWhite(s: string) { forall k :: 0 <= k < |s| ==> White(s[k]) }

  lemma {:induction false} TrimEndOfWhite(s: string)
    requires AllWhite(s)
    ensures TrimEnd(s, White) == ""
  {
    if s != "" { TrimEndOfWhite(s[..|s| - 1]); }
  }

  // ---------------------------------------------------------------- one line

  /** What is between the trimmed line and the end of its first segment. */
  function After(line: string): string {
    var trimmed := TrimEnd(line, White);
    if |trimmed| <= |FirstSegment(line)| then FirstSegment(line)[|trimmed|..] else ""
  }

  /** White space after the value that is neither a blank nor the end of the line, with the blanks before it. */
  function Residual(line: string): string { TrimEnd(After(line), Blank) }

  predicate Wanted(l: Line, what: What) {
    l.Good? && match what
               case Id => l.item.key == "id" && l.item.language == None
               case Name => l.item.key == "name"
  }

  lemma TrimmedIsOneLine(line: string)
    requires ReadLine(line).Good?
    ensures var trimmed := TrimEnd(line, White);
      && OneLine(trimmed) && trimmed != "" && ParseHead(trimmed).Some? && ParseHead(trimmed).value.at < |trimmed|
  {
    var trimmed := TrimEnd(line, White);
    HeadIsOneLine(trimmed);
    var at := ParseHead(trimmed).value.at;
    assert trimmed == trimmed[..at] + trimmed[at..];
    assert White(trimmed[at - 1]) && !White(trimmed[|trimmed| - 1]);
  }

  lemma {:induction false} SegmentEndFar(s: string, n: nat)
    requires n <= |s| && OneLine(s[..n])
    ensures SegmentEnd(s) >= n
  {
    if n > 0 {
      assert s[..n][0] == s[0] && s[..n][1..] == s[1..][..n - 1];
      SegmentEndFar(s[1..], n - 1);
    }
  }

  lemma {:induction false} SegmentIsOneLine(s: string)
    ensures OneLine(FirstSegment(s))
    ensures SegmentEnd(s) < |s| ==> Terminator(s[SegmentEnd(s)])
  {
    if s != "" && !Terminator(s[0]) {
      SegmentIsOneLine(s[1..]);
      assert FirstSegment(s) == [s[0]] + FirstSegment(s[1..]);
    }
  }

  lemma SegmentExtends(line: string, trimmed: string)
    requires trimmed <= line && OneLine(trimmed) && AllWhite(line[|trimmed|..])
    ensures trimmed <= FirstSegment(line) && AllWhite(FirstSegment(line)[|trimmed|..])
  {
    assert line[..|trimmed|] == trimmed;
    SegmentEndFar(line, |trimmed|);
    var n := SegmentEnd(line);
    assert forall k :: |trimmed| <= k < n ==> line[|trimmed|..][k - |trimmed|] == line[k];
  }

  lemma PrefixAgrees(s: string, t: string, i: nat)
    requires s <= t && i < |s|
    ensures Agree(s, t, i)
  {
  }

  lemma TrimmedTail(line: string)
    ensures AllWhite(line[|TrimEnd(line, White)|..])
  {
    var n := |TrimEnd(line, White)|;
    forall k | 0 <= k < |line[n..]| ensures White(line[n..][k]) {
      assert line[n..][k] == line[n + k];
    }
  }

  /** A good line's first segment starts with the trimmed line, and white space follows. */
  lemma GoodSegment(line: string)
    requires ReadLine(line).Good?
    ensures TrimEnd(line, White) <= FirstSegment(line) && AllWhite(After(line))
  {
    TrimmedTail(line);
    TrimmedIsOneLine(line);
    SegmentExtends(line, TrimEnd(line, White));
  }

  lemma SegmentHead(line: string)
    requires ReadLine(line).Good?
    ensures var trimmed := TrimEnd(line, White);
      trimmed <= FirstSegment(line) && ParseHead(FirstSegment(line)) == ParseHead(trimmed)
  {
    var trimmed := TrimEnd(line, White);
    TrimmedIsOneLine(line);
    GoodSegment(line);
    PrefixAgrees(trimmed, FirstSegment(line), ParseHead(trimmed).value.at);
    HeadAgrees(trimmed, FirstSegment(line));
  }

  lemma Rejoin(s: string, t: string)
    requires s <= t
    ensures t == s + t[|s|..]
  {
  }

  lemma LastIsNoBlank(line: string)
    requires TrimEnd(line, White) != ""
    ensures !Blank(TrimEnd(line, White)[|TrimEnd(line, White)| - 1])
  {
  }

  /** A good line: its trimmed form, its first segment, and their common head. */
  lemma GoodLine(line: string) returns (trimmed: string, head: Head)
    requires ReadLine(line).Good?
    ensures trimmed == TrimEnd(line, White) && FirstSegment(line) == trimmed + After(line) && AllWhite(After(line))
    ensures ParseHead(trimmed) == Some(head) && ParseHead(FirstSegment(line)) == Some(head) && head.at < |trimmed|
    ensures !Blank(trimmed[|trimmed| - 1])
  {
    trimmed := TrimEnd(line, White);
    LastIsNoBlank(line);
    TrimmedIsOneLine(line);
    GoodSegment(line);
    Rejoin(trimmed, FirstSegment(line));
    SegmentHead(line);
    head := ParseHead(trimmed).value;
  }

  // ---------------------------------------------------------------- one line rewritten

  /** The suffixes in use: not empty, on one line, and not ending in white space. */
  predicate GoodSuffix(s: string) { s != "" && OneLine(s) && !White(s[|s| - 1]) }

  lemma Splice(t: string, rest: string, at: nat)
    requires at <= |t|
    ensures (t + rest)[..at] + t[at..] == t && (t + rest)[at + |t[at..]|..] == rest
    ensures (t + rest)[at..] == t[at..] + rest
  {
  }

  lemma Append(a: string, b: string, c: string)
    ensures a + (b + c) == a + b + c
  {
  }

  lemma Regroup(a: string, b: string, c: string, d: string)
    ensures a + b + c + d == a + b + (c + d) == a + (b + c) + d
    ensures a + b + c + d == a + (b + c + d)
  {
  }

  /** The same cut, on any strings: a trimmed line with a head, and what follows it. */
  lemma CutAtBlanks(trimmed: string, white: string, at: nat) returns (residual: string, rest: string)
    requires at < |trimmed| && !Blank(trimmed[|trimmed| - 1])
    ensures residual == TrimEnd(white, Blank) && white == residual + rest
    ensures trimmed + white == trimmed + residual + rest
    ensures TrimEnd((trimmed + white)[at..], Blank) == (trimmed + residual)[at..]
  {
    residual := TrimEnd(white, Blank);
    rest := white[|residual|..];
    TrimEndAfter(trimmed[at..], white, Blank);
    Splice(trimmed, white, at);
    Splice(trimmed, residual, at);
    Append(trimmed, residual, rest);
  }

  /** The value with its residual, and the trailing blanks. */
  lemma ValueEnd(segment: string, trimmed: string, after: string, at: nat) returns (upToBlanks: string, rest: string)
    requires segment == trimmed + after && AllWhite(after) && at < |trimmed| && !Blank(trimmed[|trimmed| - 1])
    ensures upToBlanks == trimmed + TrimEnd(after, Blank) && segment == upToBlanks + rest && AllWhite(rest)
    ensures TrimEnd(segment[at..], Blank) == upToBlanks[at..] && at < |upToBlanks|
  {
    var residual;
    residual, rest := CutAtBlanks(trimmed, after, at);
    TailIsWhite(residual, rest);
    upToBlanks := trimmed + residual;
  }

  lemma TailIsWhite(a: string, b: string)
    requires AllWhite(a + b)
    ensures AllWhite(b)
  {
    assert forall k :: 0 <= k < |b| ==> b[k] == (a + b)[|a| + k];
  }

  /** A segment with a head that concerns it, cut at the end of its value, is rewritten there. */
  lemma RewrittenAt(segment: string, what: What, suffix: string, upToBlanks: string, rest: string)
    requires Concerns(ParseHead(segment), what) && segment == upToBlanks + rest
    requires ParseHead(segment).value.at < |upToBlanks|
    requires TrimEnd(segment[ParseHead(segment).value.at..], Blank) == upToBlanks[ParseHead(segment).value.at..]
    ensures RewriteSegment(segment, what, suffix) == upToBlanks + suffix + rest
  {
    Splice(upToBlanks, rest, ParseHead(segment).value.at);
  }

  lemma SegmentRewritten(line: string, what: What, suffix: string) returns (upToBlanks: string, rest: string)
    requires Wanted(ReadLine(line), what)
    ensures upToBlanks == TrimEnd(line, White) + Residual(line) && AllWhite(rest)
    ensures Concerns(ParseHead(FirstSegment(line)), what)
    ensures RewriteSegment(FirstSegment(line), what, suffix) == upToBlanks + suffix + rest
  {
    var trimmed, head := GoodLine(line);
    SameHead(line);
    upToBlanks, rest := ValueEnd(FirstSegment(line), trimmed, After(line), head.at);
    RewrittenAt(FirstSegment(line), what, suffix, upToBlanks, rest);
  }

  lemma SameHead(line: string)
    requires ReadLine(line).Good?
    ensures ParseHead(FirstSegment(line)).Some?
    ensures ParseHead(FirstSegment(line)).value.key == ReadLine(line).item.key
    ensures ParseHead(FirstSegment(line)).value.language == ReadLine(line).item.language
  {
    var trimmed, head := GoodLine(line);
  }

  lemma TrimLonger(t: string, rest: string)
    requires t != "" && !White(t[|t| - 1]) && AllWhite(rest)
    ensures TrimEnd(t + rest, White) == t
  {
    TrimEndAfter(t, rest, White);
    TrimEndOfWhite(rest);
    assert t + "" == t;
  }

  lemma LongerIsOneLine(trimmed: string, more: string)
    requires OneLine(trimmed) && GoodSuffix(more)
    ensures OneLine(trimmed + more) && !White((trimmed + more)[|trimmed + more| - 1])
  {
  }

  /** A trimmed line with a longer value reads as that value. */
  lemma ReadLonger(trimmed: string, more: string, rest: string)
    requires ParseHead(trimmed).Some? && ParseHead(trimmed).value.at < |trimmed| && OneLine(trimmed)
    requires ParseHead(trimmed).value.key !in INHERITED
    requires GoodSuffix(more) && AllWhite(rest)
    ensures var head := ParseHead(trimmed).value;
      ReadLine(trimmed + more + rest) == Good(Item(head.key, head.language, trimmed[head.at..] + more))
  {
    var head := ParseHead(trimmed).value;
    var t := trimmed + more;
    LongerIsOneLine(trimmed, more);
    TrimLonger(t, rest);
    PrefixAgrees(trimmed, t, head.at);
    HeadAgrees(trimmed, t);
    Splice(trimmed, more, head.at);
  }

  lemma WhiteHasNoHead(s: string)
    requires AllWhite(s)
    ensures ParseHead(s).None?
  {
    assert |s| > 0 ==> White(s[0]);
  }

  lemma Glue(s: string, n: nat)
    requires n < |s|
    ensures s[..n] + [s[n]] + s[n + 1..] == s && [s[n]] + s[n + 1..] == s[n..]
  {
  }

  ghost predicate KeepsWhite(f: string -> string) {
    forall s :: AllWhite(s) ==> f(s) == s
  }

  lemma RewriterKeepsWhite(what: What, suffix: string)
    ensures KeepsWhite(Rewriter(what, suffix))
  {
    forall s | AllWhite(s) ensures RewriteSegment(s, what, suffix) == s { WhiteHasNoHead(s); }
  }

  lemma {:induction false} WhiteUntouched(text: string, f: string -> string)
    requires AllWhite(text) && KeepsWhite(f)
    ensures MapSegments(text, f) == text
    decreases |text|
  {
    var n := SegmentEnd(text);
    assert AllWhite(text[..n]);
    if n < |text| {
      assert AllWhite(text[n + 1..]);
      WhiteUntouched(text[n + 1..], f);
      Glue(text, n);
    }
  }

  /** What follows the first segment of a line is white space. */
  lemma RestIsWhite(line: string)
    requires !ReadLine(line).Bad?
    ensures AllWhite(line[|FirstSegment(line)|..])
    ensures ReadLine(line).Nothing? ==> AllWhite(line)
  {
    TrimmedTail(line);
    if ReadLine(line).Good? {
      GoodSegment(line);
      var n, m := |TrimEnd(line, White)|, |FirstSegment(line)|;
      assert line[n..][m - n..] == line[m..];
    }
  }

  lemma RestOfLine(line: string, f: string -> string)
    requires AllWhite(line[|FirstSegment(line)|..]) && KeepsWhite(f)
    ensures MapSegments(line, f) == f(FirstSegment(line)) + line[|FirstSegment(line)|..]
  {
    var n := SegmentEnd(line);
    if n < |line| {
      assert AllWhite(line[n + 1..]) by { assert line[n..][1..] == line[n + 1..]; }
      WhiteUntouched(line[n + 1..], f);
      Glue(line, n);
      Append(f(line[..n]), [line[n]], line[n + 1..]);
    } else {
      assert line[..n] == line && line[n..] == "";
    }
  }

  lemma RewriteAllLine(line: string, what: What, suffix: string)
    requires !ReadLine(line).Bad?
    ensures RewriteAll(line, what, suffix)
      == RewriteSegment(FirstSegment(line), what, suffix) + line[|FirstSegment(line)|..]
  {
    RestIsWhite(line);
    RewriterKeepsWhite(what, suffix);
    RestOfLine(line, Rewriter(what, suffix));
  }

  lemma UnwantedSegment(line: string, what: What)
    requires !ReadLine(line).Bad? && !Wanted(ReadLine(line), what)
    ensures !Concerns(ParseHead(FirstSegment(line)), what)
  {
    if ReadLine(line).Good? {
      SameHead(line);
    } else {
      RestIsWhite(line);
      assert AllWhite(FirstSegment(line));
      WhiteHasNoHead(FirstSegment(line));
    }
  }

  lemma UnwantedUntouched(line: string, what: What, suffix: string)
    requires !ReadLine(line).Bad? && !Wanted(ReadLine(line), what)
    ensures RewriteAll(line, what, suffix) == line
  {
    RewriteAllLine(line, what, suffix);
    UnwantedSegment(line, what);
    Splice(FirstSegment(line), line[|FirstSegment(line)|..], 0);
  }

  /** What a line reads as after it was rewritten. */
  function Changed(line: string, what: What, suffix: string): Line {
    var l := ReadLine(line);
    if Wanted(l, what) then Good(l.item.(value := l.item.value + (Residual(line) + suffix))) else l
  }

  lemma WantedBecomes(line: string, what: What, suffix: string) returns (all: string)
    requires Wanted(ReadLine(line), what)
    ensures RewriteAll(line, what, suffix) == TrimEnd(line, White) + (Residual(line) + suffix) + all && AllWhite(all)
  {
    RestIsWhite(line);
    RewriteAllLine(line, what, suffix);
    var upToBlanks, rest := SegmentRewritten(line, what, suffix);
    var behind := line[|FirstSegment(line)|..];
    all := rest + behind;
    Regroup(upToBlanks, suffix, rest, behind);
    Regroup(TrimEnd(line, White), Residual(line), suffix, all);
  }

  lemma EndsGood(residual: string, suffix: string)
    requires OneLine(residual) && GoodSuffix(suffix)
    ensures GoodSuffix(residual + suffix)
  {
    assert (residual + suffix)[|residual + suffix| - 1] == suffix[|suffix| - 1];
  }

  lemma WantedRewritten(line: string, what: What, suffix: string)
    requires Wanted(ReadLine(line), what) && GoodSuffix(suffix)
    ensures ReadLine(RewriteAll(line, what, suffix)) == Changed(line, what, suffix)
  {
    var all := WantedBecomes(line, what, suffix);
    TrimmedIsOneLine(line);
    var trimmed, more := TrimEnd(line, White), Residual(line) + suffix;
    ResidualIsOneLine(line);
    EndsGood(Residual(line), suffix);
    ReadLonger(trimmed, more, all);
  }

  lemma ResidualIsOneLine(line: string)
    ensures OneLine(Residual(line)) && OneLine(FirstSegment(line))
  {
    SegmentIsOneLine(line);
    assert OneLine(After(line));
  }

  lemma LineRewritten(line: string, what: What, suffix: string)
    requires !ReadLine(line).Bad? && GoodSuffix(suffix) && '\n' !in line
    ensures ReadLine(RewriteAll(line, what, suffix)) == Changed(line, what, suffix)
    ensures '\n' !in RewriteAll(line, what, suffix)
  {
    if Wanted(ReadLine(line), what) {
      WantedRewritten(line, what, suffix);
    } else {
      UnwantedUntouched(line, what, suffix);
    }
    RewriterAddsNoNewLine(what, suffix);
    NoNewLine(line, Rewriter(what, suffix));
  }

  ghost predicate AddsNoNewLine(f: string -> string) {
    forall s :: '\n' !in s ==> '\n' !in f(s)
  }

  lemma RewriterAddsNoNewLine(what: What, suffix: string)
    requires OneLine(suffix)
    ensures AddsNoNewLine(Rewriter(what, suffix))
  {
  }

  lemma {:induction false} NoNewLine(text: string, f: string -> string)
    requires '\n' !in text && AddsNoNewLine(f)
    ensures '\n' !in MapSegments(text, f)
    decreases |text|
  {
    var n := SegmentEnd(text);
    if n < |text| { NoNewLine(text[n + 1..], f); }
  }

  // ---------------------------------------------------------------- exactly these lines are read

  predicate Letters(s: string, i: nat, j: nat)
    requires j <= |s|
  {
    i < j && forall k :: i <= k < j ==> 'a' <= s[k] <= 'z' || 'A' <= s[k] <= 'Z'
  }

  predicate SpacesOrTabs(s: string, i: nat, j: nat)
    requires j <= |s|
  {
    i < j && forall k :: i <= k < j ==> s[k] == ' ' || s[k] == '\t'
  }

  /** `:xx` or `:xx-YY` */
  predicate LanguageIs(s: string, i: nat, j: nat)
    requires i <= j <= |s|
  {
    || (j == i + 3 && s[i] == ':' && 'a' <= s[i + 1] <= 'z' && 'a' <= s[i + 2] <= 'z')
    || (j == i + 6 && s[i] == ':' && 'a' <= s[i + 1] <= 'z' && 'a' <= s[i + 2] <= 'z' && s[i + 3] == '-'
        && 'A' <= s[i + 4] <= 'Z' && 'A' <= s[i + 5] <= 'Z')
  }

  /**
    Two slashes, spaces or tabs up to the `@` at `i`, the key up to `keyEnd`, perhaps a language up to
    `headEnd`, and spaces or tabs up to the value at `at`.
   */
  predicate HeadIs(s: string, i: nat, keyEnd: nat, headEnd: nat, at: nat) {
    && 2 < i < keyEnd <= headEnd < at < |s|
    && s[0] == '/' && s[1] == '/' && SpacesOrTabs(s, 2, i) && s[i] == '@'
    && Letters(s, if s[i + 1] == '_' then i + 2 else i + 1, keyEnd)
    && (headEnd == keyEnd || LanguageIs(s, keyEnd, headEnd))
    && SpacesOrTabs(s, headEnd, at) && s[at] != ' ' && s[at] != '\t'
  }

  lemma {:induction false} RunEndsAt(s: string, i: nat, j: nat, p: char -> bool)
    requires i <= j <= |s| && (forall k :: i <= k < j ==> p(s[k])) && (j < |s| ==> !p(s[j]))
    ensures Run(s, i, p) == j
    decreases j - i
  {
    if i < j { RunEndsAt(s, i + 1, j, p); }
  }

  lemma SignAt(s: string, i: nat, keyEnd: nat, headEnd: nat, at: nat)
    requires HeadIs(s, i, keyEnd, headEnd, at)
    ensures AtSign(s) == Some(i) && KeyEnd(s, i + 1) == keyEnd
  {
    RunEndsAt(s, 2, i, Blank);
    assert s[keyEnd] == ':' || Blank(s[keyEnd]);
    RunEndsAt(s, if s[i + 1] == '_' then i + 2 else i + 1, keyEnd, Letter);
  }

  lemma LanguageAt(s: string, i: nat, keyEnd: nat, headEnd: nat, at: nat)
    requires HeadIs(s, i, keyEnd, headEnd, at)
    ensures ParseLanguage(s, keyEnd) == if headEnd == keyEnd then None else Some((s[keyEnd + 1..headEnd], headEnd))
    ensures Run(s, headEnd, Blank) == at
  {
    RunEndsAt(s, headEnd, at, Blank);
    assert Blank(s[headEnd]);
  }

  /** A line of this form is read so. */
  lemma FormIsRead(s: string, i: nat, keyEnd: nat, headEnd: nat, at: nat)
    requires HeadIs(s, i, keyEnd, headEnd, at)
    ensures ParseHead(s)
      == Some(Head(s[i + 1..keyEnd], if headEnd == keyEnd then None else Some(s[keyEnd + 1..headEnd]), at))
  {
    SignAt(s, i, keyEnd, headEnd, at);
    LanguageAt(s, i, keyEnd, headEnd, at);
  }

  lemma KeyHasForm(s: string, i: nat)
    requires AtSign(s) == Some(i) && KeyEnd(s, i + 1) > i + 1
    ensures 2 < i && s[0] == '/' && s[1] == '/' && SpacesOrTabs(s, 2, i) && s[i] == '@'
    ensures Letters(s, if s[i + 1] == '_' then i + 2 else i + 1, KeyEnd(s, i + 1))
  {
    assert s[0] == "//"[0] && s[1] == "//"[1];
  }

  lemma LanguageHasForm(s: string, i: nat)
    requires i <= |s|
    ensures LanguageEnd(s, i) == i || (i < LanguageEnd(s, i) <= |s| && LanguageIs(s, i, LanguageEnd(s, i)))
  {
  }

  /** And what is read, with something after the head, has this form. */
  lemma ReadHasForm(s: string)
    requires ParseHead(s).Some? && ParseHead(s).value.at < |s|
    ensures
      var i := AtSign(s).value;
      HeadIs(s, i, KeyEnd(s, i + 1), LanguageEnd(s, KeyEnd(s, i + 1)), ParseHead(s).value.at)
  {
    var i := AtSign(s).value;
    KeyHasForm(s, i);
    LanguageHasForm(s, KeyEnd(s, i + 1));
    assert SpacesOrTabs(s, LanguageEnd(s, KeyEnd(s, i + 1)), ParseHead(s).value.at);
  }

  /** The white space that is trimmed is that of the language's definition, and four of these end lines. */
  lemma WhiteExactly(c: char)
    ensures White(c) <==>
      || c as int in {0x09, 0x0A, 0x0B, 0x0C, 0x0D, 0x20, 0xA0, 0x1680, 0x2028, 0x2029, 0x202F, 0x205F, 0x3000, 0xFEFF}
      || 0x2000 <= c as int <= 0x200A
    ensures Terminator(c) <==> c as int in {0x0A, 0x0D, 0x2028, 0x2029}
    ensures Blank(c) <==> c as int in {0x09, 0x20}
  {
  }

  /** The trimmed line is of the form, on one line, with a key that no object is born with; and this is what it says. */
  predicate Says(s: string, i: nat, keyEnd: nat, headEnd: nat, at: nat, item: Item) {
    && HeadIs(s, i, keyEnd, headEnd, at) && OneLine(s[at..]) && s[i + 1..keyEnd] !in INHERITED
    && item == Item(s[i + 1..keyEnd], if headEnd == keyEnd then None else Some(s[keyEnd + 1..headEnd]), s[at..])
  }

  lemma GoodLineSays(line: string)
    requires ReadLine(line).Good?
    ensures
      var s := TrimEnd(line, White);
      exists i: nat, keyEnd: nat, headEnd: nat, at: nat :: Says(s, i, keyEnd, headEnd, at, ReadLine(line).item)
  {
    var s := TrimEnd(line, White);
    TrimmedIsOneLine(line);
    ReadHasForm(s);
    var i := AtSign(s).value;
    var keyEnd, headEnd := KeyEnd(s, i + 1), LanguageEnd(s, KeyEnd(s, i + 1));
    FormIsRead(s, i, keyEnd, headEnd, ParseHead(s).value.at);
    assert Says(s, i, keyEnd, headEnd, ParseHead(s).value.at, ReadLine(line).item);
  }

  /** A line is read as an item exactly if, without the white space at its end, it says that item. */
  lemma LineReadsExactly(line: string, item: Item)
    ensures ReadLine(line) == Good(item) <==>
      exists i: nat, keyEnd: nat, headEnd: nat, at: nat :: Says(TrimEnd(line, White), i, keyEnd, headEnd, at, item)
  {
    if ReadLine(line).Good? { GoodLineSays(line); }
    forall i: nat, keyEnd: nat, headEnd: nat, at: nat | Says(TrimEnd(line, White), i, keyEnd, headEnd, at, item)
      ensures ReadLine(line) == Good(item)
    {
      FormIsRead(TrimEnd(line, White), i, keyEnd, headEnd, at);
    }
  }
}
