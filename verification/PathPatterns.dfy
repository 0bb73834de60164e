/**
  Process paths against `|`-separated pattern lists, and the exclusion pattern that both injectors
  build. How Windows upper-cases a character and expands environment variables is left open.
 */
module PathPatterns {
  import opened Text
  import opened Glob

  datatype Windows = Windows(upper: char -> char, expand: string -> string)

  function Upper(w: Windows, s: string): string {
    seq(|s|, i requires 0 <= i < |s| => w.upper(s[i]))
  }

  /** What follows the last backslash. */
  function FileName(path: string): string {
    if path == "" || path[|path| - 1] == '\\' then ""
    else FileName(path[..|path| - 1]) + [path[|path| - 1]]
  }

  lemma {:induction false} FileNameIsTail(path: string)
    ensures '\\' !in FileName(path) && |FileName(path)| <= |path|
    ensures path == path[..|path| - |FileName(path)|] + FileName(path)
    ensures FileName(path) == path || path[|path| - |FileName(path)| - 1] == '\\'
  {
    if path != "" && path[|path| - 1] != '\\' {
      FileNameIsTail(path[..|path| - 1]);
    }
  }

  predicate IsWildcard(part: string) { '*' in part || '?' in part }

  /** A part with a backslash speaks of the whole path, another one of the file name. */
  ghost predicate PartMatches(w: Windows, path: string, part: string) {
    var normalized := Upper(w, w.expand(part));
    Matches(normalized, if '\\' in normalized then Upper(w, path) else FileName(Upper(w, path)))
  }

  ghost predicate PartCounts(w: Windows, path: string, part: string, explicitOnly: bool) {
    (explicitOnly ==> !IsWildcard(part)) && PartMatches(w, path, part)
  }

  /** Some part of the list matches; if only explicit matches count, some part without wildcards. */
  ghost predicate PathMatches(w: Windows, path: string, pattern: string, explicitOnly: bool) {
    SomePartCounts(w, path, SplitToViews(pattern, '|'), explicitOnly)
  }

  ghost predicate SomePartCounts(w: Windows, path: string, parts: seq<string>, explicitOnly: bool) {
    exists part :: part in parts && PartCounts(w, path, part, explicitOnly)
  }

  /** `rfind`, with -1 for `npos`. */
  method LastBackslash(s: string) returns (i: int)
    ensures -1 <= i < |s| && FileName(s) == s[i + 1..]
  {
    i := |s| - 1;
    assert s[..i + 1] == s;
    while i >= 0 && s[i] != '\\'
      invariant -1 <= i < |s|
      invariant FileName(s) == FileName(s[..i + 1]) + s[i + 1..]
    {
      assert s[..i + 1][..i] == s[..i];
      assert [s[i]] + s[i + 1..] == s[i..];
      i := i - 1;
    }
  }

  /** One part of the list, against the upper-cased path and its file name. */
  method DoesPartMatch(w: Windows, path: string, pathUpper: string, pathFileNameUpper: string, part: string)
    returns (matched: bool)
    requires pathUpper == Upper(w, path) && pathFileNameUpper == FileName(pathUpper)
    ensures matched <==> PartMatches(w, path, part)
  {
    var patternPartNormalized := Upper(w, w.expand(part));
    var match_ := pathUpper;
    if '\\' !in patternPartNormalized {
      match_ := pathFileNameUpper;
    }
    matched := WcsMatch(patternPartNormalized, match_);
  }

  /** The loop over the parts. */
  method DoesSomePartMatch(w: Windows, path: string, parts: seq<string>, explicitOnly: bool) returns (result: bool)
    ensures result <==> SomePartCounts(w, path, parts, explicitOnly)
  {
    var pathUpper := Upper(w, path);
    var i := LastBackslash(pathUpper);
    var pathFileNameUpper := pathUpper[i + 1..];
    for k := 0 to |parts|
      invariant forall j :: 0 <= j < k ==> !PartCounts(w, path, parts[j], explicitOnly)
    {
      if explicitOnly && IsWildcard(parts[k]) { continue; }
      var matched := DoesPartMatch(w, path, pathUpper, pathFileNameUpper, parts[k]);
      if matched {
        assert PartCounts(w, path, parts[k], explicitOnly);
        return true;
      }
    }
    return false;
  }

  method DoesPathMatchPattern(w: Windows, path: string, pattern: string, explicitOnly: bool) returns (result: bool)
    ensures result <==> PathMatches(w, path, pattern, explicitOnly)
  {
    if pattern == "" { return false; }
    result := DoesSomePartMatch(w, path, SplitToViews(pattern, '|'), explicitOnly);
  }

  // ---------------------------------------------------------------- what matches

  /** Only the upper-cased path counts. */
  lemma CaseDoesNotCount(w: Windows, path: string, path': string, pattern: string, explicitOnly: bool)
    requires Upper(w, path) == Upper(w, path')
    ensures PathMatches(w, path, pattern, explicitOnly) <==> PathMatches(w, path', pattern, explicitOnly)
  {
    assert forall part :: PartCounts(w, path, part, explicitOnly) <==> PartCounts(w, path', part, explicitOnly);
  }

  /** Explicit matches are those of the parts that contain neither a star nor a question mark. */
  lemma ExplicitMatchesExactly(w: Windows, path: string, pattern: string)
    ensures PathMatches(w, path, pattern, true) <==>
      exists part :: part in SplitToViews(pattern, '|') && '*' !in part && '?' !in part && PartMatches(w, path, part)
    ensures PathMatches(w, path, pattern, false) <==>
      exists part :: part in SplitToViews(pattern, '|') && PartMatches(w, path, part)
  {
    if part :| part in SplitToViews(pattern, '|') && PartMatches(w, path, part) {
      assert PartCounts(w, path, part, false);
    }
    if part :| part in SplitToViews(pattern, '|') && '*' !in part && '?' !in part && PartMatches(w, path, part) {
      assert PartCounts(w, path, part, true);
    }
  }

  /** A part that names a file or a path, once expanded, matches that file or path only. */
  lemma PlainPartMatches(w: Windows, path: string, part: string)
    requires '*' !in Upper(w, w.expand(part)) && '?' !in Upper(w, w.expand(part))
    ensures '\\' in Upper(w, w.expand(part)) ==> (PartMatches(w, path, part) <==> Upper(w, w.expand(part)) == Upper(w, path))
    ensures '\\' !in Upper(w, w.expand(part)) ==>
      (PartMatches(w, path, part) <==> Upper(w, w.expand(part)) == FileName(Upper(w, path)))
  {
    PlainMatchesItself(Upper(w, w.expand(part)), Upper(w, path));
    PlainMatchesItself(Upper(w, w.expand(part)), FileName(Upper(w, path)));
  }

  /** Expansion and upper-casing bring in no wildcard. */
  ghost predicate KeepsPlain(w: Windows) {
    forall part :: '*' !in part && '?' !in part ==> '*' !in Upper(w, w.expand(part)) && '?' !in Upper(w, w.expand(part))
  }

  /** So an explicit match is a part that is, expanded and in upper case, the path or its file name. */
  lemma ExplicitMatchNamesThePath(w: Windows, path: string, pattern: string)
    requires KeepsPlain(w)
    ensures PathMatches(w, path, pattern, true) <==>
      exists part :: part in SplitToViews(pattern, '|') && '*' !in part && '?' !in part
        && Upper(w, w.expand(part)) == if '\\' in Upper(w, w.expand(part)) then Upper(w, path) else FileName(Upper(w, path))
  {
    ExplicitMatchesExactly(w, path, pattern);
    forall part | '*' !in part && '?' !in part
      ensures PartMatches(w, path, part) <==>
        Upper(w, w.expand(part)) == if '\\' in Upper(w, w.expand(part)) then Upper(w, path) else FileName(Upper(w, path))
    {
      PlainPartMatches(w, path, part);
    }
  }

  /** A part that expands to a folder, a backslash and a star matches exactly the paths below that folder. */
  lemma FolderPartMatches(w: Windows, path: string, part: string, folder: string)
    requires Upper(w, w.expand(part)) == folder + "\\" + "*" && '*' !in folder && '?' !in folder
    ensures PartMatches(w, path, part) <==> folder + "\\" <= Upper(w, path)
  {
    PlainThenStar(folder + "\\", Upper(w, path));
    assert (folder + "\\" + "*")[|folder|] == '\\';
  }

  // ---------------------------------------------------------------- lists of patterns

  lemma {:induction false} JoinIsEmpty(list: seq<string>)
    ensures Join(list, '|') == "" <==> list == [] || list == [""]
  {
  }

  /** A list written with `join` is read back by `split` exactly if it has elements and none contains the separator. */
  lemma ListReadBackExactly(list: seq<string>)
    ensures Pieces(Join(list, '|'), '|') == list <==> list != [] && forall k :: 0 <= k < |list| ==> '|' !in list[k]
  {
    PieceHasNoSeparator(Join(list, '|'), '|');
    if list != [] && forall k :: 0 <= k < |list| ==> '|' !in list[k] {
      PiecesOfJoin(list, '|');
      AllPiecesOfPlain(list, '|');
    }
  }

  lemma PartsOfJoin(list: seq<string>, part: string)
    ensures part in SplitToViews(Join(list, '|'), '|') <==>
      || (exists e :: e in list && part in SplitToViews(e, '|'))
      || (part == "" && |list| >= 2 && "" in list)
  {
    JoinIsEmpty(list);
    if list != [] && list != [""] {
      PiecesOfJoin(list, '|');
      InAllPieces(list, '|', part);
      if part in AllPieces(list, '|') {
        var i :| 0 <= i < |list| && part in Pieces(list[i], '|');
        assert list[i] in list;
      }
    }
  }

  /** The empty part, which only a longer list can contribute. */
  ghost predicate EmptyPartMatches(w: Windows, path: string, list: seq<string>) {
    |list| >= 2 && "" in list && PartMatches(w, path, "")
  }

  /** A joined list matches whatever some element matches, and nothing else unless it contributes an empty part. */
  lemma JoinedListMatches(w: Windows, path: string, list: seq<string>, explicitOnly: bool)
    ensures PathMatches(w, path, Join(list, '|'), explicitOnly) <==>
      || (exists e :: e in list && PathMatches(w, path, e, explicitOnly))
      || EmptyPartMatches(w, path, list)
  {
    if PathMatches(w, path, Join(list, '|'), explicitOnly) {
      var part :| part in SplitToViews(Join(list, '|'), '|')
        && PartCounts(w, path, part, explicitOnly);
      PartsOfJoin(list, part);
    }
    forall e | e in list && PathMatches(w, path, e, explicitOnly)
      ensures PathMatches(w, path, Join(list, '|'), explicitOnly)
    {
      var part :| part in SplitToViews(e, '|') && PartCounts(w, path, part, explicitOnly);
      PartsOfJoin(list, part);
    }
    if EmptyPartMatches(w, path, list) {
      PartsOfJoin(list, "");
      assert PartCounts(w, path, "", explicitOnly);
    }
  }

  /** Where nothing expands to nothing, the empty part matches only a path that ends in a backslash. */
  lemma EmptyPartMatchesExactly(w: Windows, path: string, list: seq<string>)
    requires w.expand("") == ""
    ensures EmptyPartMatches(w, path, list) <==> |list| >= 2 && "" in list && FileName(Upper(w, path)) == ""
  {
    MatchesEmpty(FileName(Upper(w, path)));
    assert Upper(w, "") == "";
  }

  /** For a path with a file name, matching the joined list is matching some element. */
  lemma JoinedListMatchesSomeElement(w: Windows, path: string, list: seq<string>, explicitOnly: bool)
    requires w.expand("") == ""
    ensures FileName(Upper(w, path)) != "" || "" !in list || |list| < 2 ==>
      (PathMatches(w, path, Join(list, '|'), explicitOnly)
       <==> exists e :: e in list && PathMatches(w, path, e, explicitOnly))
  {
    JoinedListMatches(w, path, list, explicitOnly);
    EmptyPartMatchesExactly(w, path, list);
  }

  // ---------------------------------------------------------------- the injectors' exclusion pattern

  /** The built-in lists. */
  datatype Lists = Lists(critical: string, incompatible: string, games: string)

  datatype Settings = Settings(
    included: string, excluded: string,
    injectIntoCritical: bool, injectIntoIncompatible: bool, injectIntoGames: bool)

  predicate AllNonEmpty(lists: Lists) {
    lists.critical != "" && lists.incompatible != "" && lists.games != ""
  }

  method BuildExcludePattern(s: Settings, lists: Lists) returns (pattern: string)
    requires AllNonEmpty(lists)
    ensures forall w, path, explicitOnly :: PathMatches(w, path, pattern, explicitOnly) <==>
      || PathMatches(w, path, s.excluded, explicitOnly)
      || (!s.injectIntoCritical && PathMatches(w, path, lists.critical, explicitOnly))
      || (!s.injectIntoIncompatible && PathMatches(w, path, lists.incompatible, explicitOnly))
      || (!s.injectIntoGames && PathMatches(w, path, lists.games, explicitOnly))
  {
    pattern := s.excluded;
    if !s.injectIntoCritical {
      ghost var before := pattern;
      if pattern != "" {
        pattern := pattern + ['|'];
      }
      pattern := pattern + lists.critical;
      AppendedMatches(before, lists.critical, pattern);
    }
    if !s.injectIntoIncompatible {
      ghost var before := pattern;
      if pattern != "" {
        pattern := pattern + ['|'];
      }
      pattern := pattern + lists.incompatible;
      AppendedMatches(before, lists.incompatible, pattern);
    }
    if !s.injectIntoGames {
      ghost var before := pattern;
      if pattern != "" {
        pattern := pattern + ['|'];
      }
      pattern := pattern + lists.games;
      AppendedMatches(before, lists.games, pattern);
    }
  }

  lemma AppendedMatches(before: string, list: string, pattern: string)
    requires list != "" && pattern == (if before == "" then list else before + ['|'] + list)
    ensures forall w, path, explicitOnly :: PathMatches(w, path, pattern, explicitOnly) <==>
      PathMatches(w, path, before, explicitOnly) || PathMatches(w, path, list, explicitOnly)
  {
    PiecesAtSeparator(before, list, '|');
    assert forall part :: part in SplitToViews(pattern, '|') <==>
      part in SplitToViews(before, '|') || part in SplitToViews(list, '|');
  }

  /** `ShouldSkipNewProcess`, in both injectors. */
  method ShouldSkipNewProcess(w: Windows, path: string, s: Settings, lists: Lists) returns (skip: bool)
    requires AllNonEmpty(lists)
    ensures skip <==>
      && !PathMatches(w, path, s.included, false)
      && (|| PathMatches(w, path, s.excluded, false)
          || (!s.injectIntoCritical && PathMatches(w, path, lists.critical, false))
          || (!s.injectIntoIncompatible && PathMatches(w, path, lists.incompatible, false))
          || (!s.injectIntoGames && PathMatches(w, path, lists.games, false)))
  {
    var pattern := BuildExcludePattern(s, lists);
    skip := DoesPathMatchPattern(w, path, pattern, false);
    if skip {
      var included := DoesPathMatchPattern(w, path, s.included, false);
      skip := !included;
    }
  }
}
