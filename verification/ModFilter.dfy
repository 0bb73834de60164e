/** Whether a mod is for the running process, from configuration as the user interface writes it. */
module ModFilter {
  import opened Text
  import opened Glob
  import opened PathPatterns

  /** The values as stored; the lists are joined with `|`. */
  datatype ModConfig = ModConfig(
    disabled: bool, architecture: string, patternsMatchCritical: bool, customOnly: bool,
    included: string, includedCustom: string, excluded: string, excludedCustom: string)

  /** The names that the build's own architecture answers to, and the lists of critical processes. */
  datatype Process = Process(path: string, architectures: set<string>, critical: string, criticalForMods: string)

  ghost predicate IsCritical(w: Windows, p: Process) {
    PathMatches(w, p.path, p.critical, false) || PathMatches(w, p.path, p.criticalForMods, false)
  }

  method DoesArchitectureMatchPattern(architectures: set<string>, pattern: string) returns (result: bool)
    ensures result <==> exists part :: part in SplitToViews(pattern, '|') && part in architectures
  {
    var parts := SplitToViews(pattern, '|');
    for k := 0 to |parts|
      invariant forall j :: 0 <= j < k ==> parts[j] !in architectures
    {
      if parts[k] in architectures { return true; }
    }
    return false;
  }

  ghost predicate ArchitectureAllows(p: Process, c: ModConfig) {
    c.architecture == "" || exists part :: part in SplitToViews(c.architecture, '|') && part in p.architectures
  }

  ghost predicate Includes(w: Windows, p: Process, c: ModConfig, explicitOnly: bool) {
    || (!c.customOnly && PathMatches(w, p.path, c.included, explicitOnly))
    || PathMatches(w, p.path, c.includedCustom, explicitOnly)
  }

  ghost predicate Excludes(w: Windows, p: Process, c: ModConfig) {
    || (!c.customOnly && PathMatches(w, p.path, c.excluded, false))
    || PathMatches(w, p.path, c.excludedCustom, false)
  }

  /** The mod is on, built for the architecture, included, and not excluded; a critical process only counts by name. */
  ghost predicate BelongsIn(w: Windows, p: Process, c: ModConfig) {
    && !c.disabled && ArchitectureAllows(p, c)
    && Includes(w, p, c, !c.patternsMatchCritical && IsCritical(w, p))
    && !Excludes(w, p, c)
  }

  method ShouldLoadInRunningProcess(w: Windows, p: Process, c: ModConfig) returns (result: bool)
    ensures result <==> BelongsIn(w, p, c)
  {
    if c.disabled { return false; }
    if c.architecture != "" {
      var matched := DoesArchitectureMatchPattern(p.architectures, c.architecture);
      if !matched { return false; }
    }
    var explicitOnly := false;
    if !c.patternsMatchCritical {
      explicitOnly := DoesPathMatchPattern(w, p.path, p.critical, false);
      if !explicitOnly {
        explicitOnly := DoesPathMatchPattern(w, p.path, p.criticalForMods, false);
      }
    }
    var included := false;
    if !c.customOnly {
      included := DoesPathMatchPattern(w, p.path, c.included, explicitOnly);
    }
    if !included {
      included := DoesPathMatchPattern(w, p.path, c.includedCustom, explicitOnly);
    }
    if !included { return false; }
    var excluded := false;
    if !c.customOnly {
      excluded := DoesPathMatchPattern(w, p.path, c.excluded, false);
    }
    if !excluded {
      excluded := DoesPathMatchPattern(w, p.path, c.excludedCustom, false);
    }
    return !excluded;
  }

  // ---------------------------------------------------------------- configuration as lists

  /** The user interface's form of a configuration. */
  datatype Lists = Lists(
    architecture: seq<string>,
    included: seq<string>, includedCustom: seq<string>, excluded: seq<string>, excludedCustom: seq<string>)

  function Stored(l: Lists, disabled: bool, patternsMatchCritical: bool, customOnly: bool): ModConfig {
    ModConfig(disabled, Join(l.architecture, '|'), patternsMatchCritical, customOnly,
              Join(l.included, '|'), Join(l.includedCustom, '|'), Join(l.excluded, '|'), Join(l.excludedCustom, '|'))
  }

  ghost predicate SomeMatches(w: Windows, path: string, list: seq<string>, explicitOnly: bool) {
    exists e :: e in list && PathMatches(w, path, e, explicitOnly)
  }

  predicate NoSeparators(list: seq<string>) {
    forall k :: 0 <= k < |list| ==> '|' !in list[k]
  }

  lemma StoredArchitecture(p: Process, architecture: seq<string>)
    requires NoSeparators(architecture) && "" !in p.architectures
    ensures
      (Join(architecture, '|') == ""
       || exists part :: part in SplitToViews(Join(architecture, '|'), '|') && part in p.architectures)
      <==> architecture in {[], [""]} || exists e :: e in architecture && e in p.architectures
  {
    JoinIsEmpty(architecture);
    if architecture != [] {
      PiecesOfJoin(architecture, '|');
      AllPiecesOfPlain(architecture, '|');
    }
  }

  /** From the user's lists to the engine's answer: the stored text decides as the lists say. */
  lemma StoredListsDecide(
    w: Windows, p: Process, l: Lists, disabled: bool, patternsMatchCritical: bool, customOnly: bool)
    requires w.expand("") == "" && FileName(Upper(w, p.path)) != ""
    requires NoSeparators(l.architecture) && "" !in p.architectures
    ensures
      var explicitOnly := !patternsMatchCritical
        && (PathMatches(w, p.path, p.critical, false) || PathMatches(w, p.path, p.criticalForMods, false));
      BelongsIn(w, p, Stored(l, disabled, patternsMatchCritical, customOnly)) <==>
      && !disabled
      && (l.architecture in {[], [""]} || exists e :: e in l.architecture && e in p.architectures)
      && ((!customOnly && SomeMatches(w, p.path, l.included, explicitOnly))
          || SomeMatches(w, p.path, l.includedCustom, explicitOnly))
      && !((!customOnly && SomeMatches(w, p.path, l.excluded, false)) || SomeMatches(w, p.path, l.excludedCustom, false))
  {
    var explicitOnly := !patternsMatchCritical && IsCritical(w, p);
    StoredArchitecture(p, l.architecture);
    JoinedListMatchesSomeElement(w, p.path, l.included, explicitOnly);
    JoinedListMatchesSomeElement(w, p.path, l.includedCustom, explicitOnly);
    JoinedListMatchesSomeElement(w, p.path, l.excluded, false);
    JoinedListMatchesSomeElement(w, p.path, l.excludedCustom, false);
  }

  /** In a critical process, only parts without wildcards include a mod, unless it asked for patterns to count. */
  lemma CriticalOnlyByName(w: Windows, p: Process, c: ModConfig)
    requires PathMatches(w, p.path, p.critical, false) || PathMatches(w, p.path, p.criticalForMods, false)
    requires !c.patternsMatchCritical
    ensures Includes(w, p, c, !c.patternsMatchCritical && IsCritical(w, p)) <==>
      exists part ::
        && (part in SplitToViews(c.includedCustom, '|') || (!c.customOnly && part in SplitToViews(c.included, '|')))
        && '*' !in part && '?' !in part && PartMatches(w, p.path, part)
    ensures BelongsIn(w, p, c) ==> exists part ::
        && (part in SplitToViews(c.includedCustom, '|') || (!c.customOnly && part in SplitToViews(c.included, '|')))
        && '*' !in part && '?' !in part && PartMatches(w, p.path, part)
  {
    ExplicitMatchesExactly(w, p.path, c.included);
    ExplicitMatchesExactly(w, p.path, c.includedCustom);
  }

  /** Everywhere else, and for a mod that asked for it, patterns count. */
  lemma PatternsCountElsewhere(w: Windows, p: Process, c: ModConfig)
    requires c.patternsMatchCritical
      || !(PathMatches(w, p.path, p.critical, false) || PathMatches(w, p.path, p.criticalForMods, false))
    ensures Includes(w, p, c, !c.patternsMatchCritical && IsCritical(w, p)) <==>
      exists part ::
        && (part in SplitToViews(c.includedCustom, '|') || (!c.customOnly && part in SplitToViews(c.included, '|')))
        && PartMatches(w, p.path, part)
  {
    ExplicitMatchesExactly(w, p.path, c.included);
    ExplicitMatchesExactly(w, p.path, c.includedCustom);
  }
}
