/**
  Installing a new version of a mod: the user's stored settings are kept, and settings that the new
  version introduces are added. Which settings are new is decided by a prefix of their keys.
 */
module SettingsMerge {
  import opened Text
  import opened SettingsTree

  type Settings = map<string, Scalar>

  /** The properties that a plain JavaScript object has without having been given any. */
  const INHERITED: set<string> := {
    "constructor", "__defineGetter__", "__defineSetter__", "hasOwnProperty", "__lookupGetter__", "__lookupSetter__",
    "isPrototypeOf", "propertyIsEnumerable", "toString", "valueOf", "__proto__", "toLocaleString"}

  /** Where the run of digits that ends at `i` starts. */
  function DigitsStart(p: string, i: nat): (j: nat)
    requires i <= |p|
    ensures j <= i
  {
    if i > 0 && IsDigit(p[i - 1]) then DigitsStart(p, i - 1) else i
  }

  /** An index at the very end becomes index 0. */
  function FirstIndex(p: string): string {
    if p == "" || p[|p| - 1] != ']' then p
    else
      var j := DigitsStart(p, |p| - 1);
      if j < |p| - 1 && j > 0 && p[j - 1] == '[' then p[..j - 1] + "[0]" else p
  }

  function NamePrefix(name: string): string { FirstIndex(Pieces(name, '.')[0]) }

  /** What the lookup in `existingNamePrefixes` finds, in the object or in its prototype. */
  ghost predicate Known(existing: Settings, prefix: string) {
    prefix in INHERITED || exists name :: name in existing && NamePrefix(name) == prefix
  }

  ghost function Merged(existing: Settings, incoming: Settings): Settings {
    map name | name in existing.Keys + incoming.Keys && (name in existing || !Known(existing, NamePrefix(name))) ::
      if name in existing then existing[name] else incoming[name]
  }

  ghost function Restrict(incoming: Settings, seen: set<string>): Settings {
    map n | n in incoming && n in seen :: incoming[n]
  }

  lemma MergedOneMore(existing: Settings, incoming: Settings, seen: set<string>, name: string)
    requires name in incoming && name !in seen
    ensures Merged(existing, Restrict(incoming, seen + {name}))
      == var m := Merged(existing, Restrict(incoming, seen));
         if Known(existing, NamePrefix(name)) then m else m[name := incoming[name]]
  {
  }

  method MergeModSettings(existing: Settings, incoming: Settings) returns (merged: Settings, changed: bool)
    ensures merged == Merged(existing, incoming)
    ensures forall n :: n in merged <==>
      n in existing || (n in incoming && NamePrefix(n) !in INHERITED
                        && forall name :: name in existing ==> NamePrefix(name) != NamePrefix(n))
    ensures forall n :: n in merged ==> merged[n] == if n in existing then existing[n] else incoming[n]
    ensures changed <==> merged != existing
  {
    var existingNamePrefixes: set<string> := {};
    var todo := existing.Keys;
    while todo != {}
      invariant todo <= existing.Keys
      invariant existingNamePrefixes == set n | n in existing.Keys - todo :: NamePrefix(n)
    {
      var name :| name in todo;
      existingNamePrefixes := existingNamePrefixes + {NamePrefix(name)};
      todo := todo - {name};
    }
    assert existing.Keys - {} == existing.Keys;
    assert forall p :: p in existingNamePrefixes + INHERITED <==> Known(existing, p);
    merged, changed := AddUnknown(existing, incoming, existingNamePrefixes);
    ChangedIsDifferent(existing, incoming);
  }

  /** The second loop. */
  method AddUnknown(existing: Settings, incoming: Settings, existingNamePrefixes: set<string>)
    returns (merged: Settings, changed: bool)
    requires forall p :: p in existingNamePrefixes + INHERITED <==> Known(existing, p)
    ensures merged == Merged(existing, incoming)
    ensures changed <==> exists n :: n in incoming && !Known(existing, NamePrefix(n))
  {
    merged, changed := existing, false;
    var todo := incoming.Keys;
    ghost var seen: set<string> := {};
    assert Merged(existing, Restrict(incoming, {})) == existing;
    while todo != {}
      invariant todo <= incoming.Keys && seen == incoming.Keys - todo
      invariant merged == Merged(existing, Restrict(incoming, seen))
      invariant changed <==> exists n :: n in seen && !Known(existing, NamePrefix(n))
    {
      var name :| name in todo;
      MergedOneMore(existing, incoming, seen, name);
      if NamePrefix(name) !in existingNamePrefixes && NamePrefix(name) !in INHERITED {
        merged := merged[name := incoming[name]];
        changed := true;
      }
      todo := todo - {name};
      seen := seen + {name};
    }
    assert Restrict(incoming, seen) == incoming;
  }

  lemma ChangedIsDifferent(existing: Settings, incoming: Settings)
    ensures (exists n :: n in incoming && !Known(existing, NamePrefix(n))) <==> Merged(existing, incoming) != existing
  {
    if n :| n in incoming && !Known(existing, NamePrefix(n)) {
      assert n !in existing;
      assert n in Merged(existing, incoming);
    } else {
      assert Merged(existing, incoming) == existing;
    }
  }

  /** What the user has is kept, and merging the same version again changes nothing. */
  lemma MergeIsStable(existing: Settings, incoming: Settings)
    ensures forall n :: n in existing ==> n in Merged(existing, incoming) && Merged(existing, incoming)[n] == existing[n]
    ensures Merged(Merged(existing, incoming), incoming) == Merged(existing, incoming)
  {
    var merged := Merged(existing, incoming);
    forall n | n in incoming ensures Known(merged, NamePrefix(n)) {
      if n !in merged {
        assert Known(existing, NamePrefix(n));
      }
    }
    assert Merged(merged, incoming) == merged;
  }

  // ---------------------------------------------------------------- all of a setting, or nothing

  /** The prefix that all keys of one top-level setting share. */
  function Home(p: Parameter): string {
    if p.value.Items? || p.value.Groups? then p.name + "[0]" else p.name
  }

  lemma {:induction false} DigitsStartAt(p: string, i: nat, j: nat)
    requires j <= i <= |p| && (forall k :: j <= k < i ==> IsDigit(p[k])) && (j > 0 ==> !IsDigit(p[j - 1]))
    ensures DigitsStart(p, i) == j
  {
    if j < i { DigitsStartAt(p, i - 1, j); }
  }

  lemma FirstIndexOfIndex(name: string, i: nat)
    ensures FirstIndex(Index(name, i)) == name + "[0]"
  {
    var p, n := Index(name, i), |name| + 1;
    assert forall k :: n <= k < |p| - 1 ==> p[k] == Decimal(i)[k - n];
    DigitsStartAt(p, |p| - 1, n);
    assert p[..n - 1] == name;
  }

  lemma PrefixOfPlain(key: string)
    requires '.' !in key
    ensures NamePrefix(key) == FirstIndex(key)
  {
    PiecesOfPlain(key, '.');
  }

  lemma PrefixBeforeDot(base: string, key: string)
    requires '.' !in base && base + "." <= key
    ensures NamePrefix(key) == FirstIndex(base)
  {
    PiecesOfPlain(base, '.');
    var rest := key[|base| + 1..];
    assert key == base + ['.'] + rest;
    PiecesAtSeparator(base, rest, '.');
  }

  lemma IndexHasNoDot(name: string, i: nat)
    requires ValidName(name)
    ensures '.' !in Index(name, i)
  {
    var d := Decimal(i);
    assert forall k :: 0 <= k < |d| ==> d[k] != '.';
  }

  lemma {:induction false} ItemPrefixes(items: seq<Scalar>, name: string, upTo: nat)
    requires upTo <= |items| && ValidName(name)
    ensures forall k :: 0 <= k < |ItemLeaves(items, name, upTo)| ==>
      NamePrefix(ItemLeaves(items, name, upTo)[k].0) == name + "[0]"
  {
    if upTo > 0 {
      ItemPrefixes(items, name, upTo - 1);
      IndexHasNoDot(name, upTo - 1);
      PrefixOfPlain(Index(name, upTo - 1));
      FirstIndexOfIndex(name, upTo - 1);
    }
  }

  lemma GroupPrefixes(g: Group, base: string)
    requires base != "" && '.' !in base && ProperGroup(g) && GroupLeaves(g, base, |g.settings|).Some?
    ensures var leaves := GroupLeaves(g, base, |g.settings|).value;
      forall k :: 0 <= k < |leaves| ==> NamePrefix(leaves[k].0) == FirstIndex(base)
  {
    var leaves := GroupLeaves(g, base, |g.settings|).value;
    GroupKeys(g, base, |g.settings|);
    forall k | 0 <= k < |leaves| ensures NamePrefix(leaves[k].0) == FirstIndex(base) {
      var j :| 0 <= j < |g.settings| && |g.settings[j].parameters| == 1
        && Under(leaves[k].0, Sub(base, g.settings[j].parameters[0].name));
      PrefixBeforeDot(base, leaves[k].0);
    }
  }

  lemma {:induction false} GroupsPrefixes(v: Value, name: string, upTo: nat)
    requires v.Groups? && upTo <= |v.groups| && ProperValue(v) && ValidName(name) && GroupsLeaves(v, name, upTo).Some?
    ensures var leaves := GroupsLeaves(v, name, upTo).value;
      forall k :: 0 <= k < |leaves| ==> NamePrefix(leaves[k].0) == name + "[0]"
  {
    if upTo > 0 {
      GroupsPrefixes(v, name, upTo - 1);
      IndexHasNoDot(name, upTo - 1);
      FirstIndexOfIndex(name, upTo - 1);
      GroupPrefixes(v.groups[upTo - 1], Index(name, upTo - 1));
    }
  }

  /** All keys of a top-level setting have the same prefix. */
  lemma SettingPrefixes(p: Parameter)
    requires ValidName(p.name) && ProperValue(p.value) && ValueLeaves(p.value, p.name).Some?
    ensures var leaves := ValueLeaves(p.value, p.name).value;
      forall k :: 0 <= k < |leaves| ==> NamePrefix(leaves[k].0) == Home(p)
  {
    PrefixOfPlain(p.name);
    match p.value {
      case Items(items) => ItemPrefixes(items, p.name, |items|);
      case Nested(g) => GroupPrefixes(g, p.name);
      case Groups(groups) => GroupsPrefixes(p.value, p.name, |groups|);
      case _ =>
    }
  }

  /** The prefix of a key: its name, with index 0 if it is in a list, whatever follows after a dot. */
  lemma PrefixLiterally(name: string, i: nat, rest: string)
    requires ValidName(name)
    ensures NamePrefix(name) == name && NamePrefix(name + "." + rest) == name
    ensures NamePrefix(name + "[" + Decimal(i) + "]") == name + "[0]"
    ensures NamePrefix(name + "[" + Decimal(i) + "]" + "." + rest) == name + "[0]"
  {
    PrefixOfPlain(name);
    PrefixBeforeDot(name, name + "." + rest);
    IndexHasNoDot(name, i);
    FirstIndexOfIndex(name, i);
    PrefixOfPlain(Index(name, i));
    PrefixBeforeDot(Index(name, i), Index(name, i) + "." + rest);
    assert Index(name, i) == name + "[" + Decimal(i) + "]";
  }

  /** Different top-level settings have different prefixes. */
  lemma HomesDiffer(p: Parameter, q: Parameter)
    requires ValidName(p.name) && ValidName(q.name) && Home(p) == Home(q)
    ensures p.name == q.name
  {
    EndsAtMark(Home(p), 0, p.name, q.name, {'['});
    EndsAtMark(Home(p), 0, q.name, p.name, {'['});
  }

  /**
    A top-level setting of the new version comes with all of its values, or with none. It comes
    exactly if the user has no value with its prefix and no JavaScript object is born with a property
    of that name.
   */
  lemma WholeSettingsAreAdded(existing: Settings, g: Group, k: nat)
    requires ProperGroup(g) && GroupLeaves(g, "", |g.settings|).Some? && k < |g.settings|
    ensures |g.settings[k].parameters| == 1
    ensures ValueLeaves(g.settings[k].parameters[0].value, g.settings[k].parameters[0].name).Some?
    ensures
      var p := g.settings[k].parameters[0];
      var leaves := ValueLeaves(p.value, p.name).value;
      var merged := Merged(existing, PutAll(map[], GroupLeaves(g, "", |g.settings|).value));
      if Home(p) in INHERITED || exists name :: name in existing && NamePrefix(name) == Home(p)
      then forall leaf :: leaf in leaves ==> (leaf.0 in merged <==> leaf.0 in existing)
      else forall leaf :: leaf in leaves ==> leaf.0 !in existing && leaf.0 in merged && merged[leaf.0] == leaf.1
  {
    GroupHasLeaves(g, "", k, |g.settings|);
    EveryValueHasItsKey(g);
    var p := g.settings[k].parameters[0];
    SettingPrefixes(p);
    var all := GroupLeaves(g, "", |g.settings|).value;
    var leaves := ValueLeaves(p.value, p.name).value;
    forall leaf | leaf in leaves
      ensures NamePrefix(leaf.0) == Home(p) && leaf in all
      ensures !Known(existing, Home(p)) ==> leaf.0 in PutAll(map[], all) && PutAll(map[], all)[leaf.0] == leaf.1
    {
      assert Sub("", p.name) == p.name;
      var i :| 0 <= i < |all| && all[i] == leaf;
      if leaf.0 == "__proto__" {
        ProtoIsInherited();
      } else {
        assert leaf.0 in Keys(all);
      }
    }
  }

  lemma ProtoIsInherited()
    ensures NamePrefix("__proto__") == "__proto__" && "__proto__" in INHERITED
  {
    PrefixOfPlain("__proto__");
  }

  lemma ValidNameIsPrefix(name: string)
    requires ValidName(name)
    ensures NamePrefix(name) == name
  {
    PrefixOfPlain(name);
  }

  /** A new setting with such a name is never added, not even to a user who has no settings. */
  lemma InheritedNamesAreNeverAdded(existing: Settings, name: string, s: Scalar)
    requires ValidName(name) && name in INHERITED && name !in existing
    ensures name !in Merged(existing, map[name := s])
  {
    ValidNameIsPrefix(name);
  }

  lemma ConstructorIsNeverAdded(s: Scalar)
    ensures Merged(map[], map["constructor" := s]) == map[]
  {
    ValidNameIsPrefix("constructor");
  }
}
