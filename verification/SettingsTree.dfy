/** A mod's nested settings, and the flat keys under which the engine finds their values. */
module SettingsTree {
  import opened Text

  datatype Scalar = Number(n: real) | Str(s: string)

  /** One item of a settings list; its own key must be the only one that does not start with `$`. */
  datatype Setting = Setting(parameters: seq<Parameter>)

  datatype Parameter = Parameter(name: string, value: Value)

  datatype Group = Group(settings: seq<Setting>)

  datatype Value =
    | Bool(b: bool)
    | Plain(v: Scalar)
    | Items(items: seq<Scalar>)
    | Nested(group: Group)
    | Groups(groups: seq<Group>)

  type Leaf = (string, Scalar)

  function Sub(prefix: string, name: string): string {
    if prefix == "" then name else prefix + "." + name
  }

  function Index(key: string, i: nat): string { key + "[" + Decimal(i) + "]" }

  function ItemLeaves(items: seq<Scalar>, key: string, upTo: nat): seq<Leaf>
    requires upTo <= |items|
  {
    if upTo == 0 then [] else ItemLeaves(items, key, upTo - 1) + [(Index(key, upTo - 1), items[upTo - 1])]
  }

  /** The flat keys of a value, in order; None if some item has no key of its own, or several. */
  function ValueLeaves(v: Value, key: string): Option<seq<Leaf>>
    decreases v, 1
  {
    match v
    case Bool(b) => Some([(key, Number(if b then 1.0 else 0.0))])
    case Plain(s) => Some([(key, s)])
    case Items(items) => Some(ItemLeaves(items, key, |items|))
    case Nested(g) => GroupLeaves(g, key, |g.settings|)
    case Groups(groups) => GroupsLeaves(v, key, |groups|)
  }

  function GroupsLeaves(v: Value, key: string, upTo: nat): Option<seq<Leaf>>
    requires v.Groups? && upTo <= |v.groups|
    decreases v, 0, upTo
  {
    if upTo == 0 then Some([])
    else
      var g := v.groups[upTo - 1];
      Both(GroupsLeaves(v, key, upTo - 1), GroupLeaves(g, Index(key, upTo - 1), |g.settings|))
  }

  function GroupLeaves(g: Group, prefix: string, upTo: nat): Option<seq<Leaf>>
    requires upTo <= |g.settings|
    decreases g, upTo
  {
    if upTo == 0 then Some([])
    else
      Both(GroupLeaves(g, prefix, upTo - 1), SettingLeaves(g.settings[upTo - 1], prefix))
  }

  function SettingLeaves(s: Setting, prefix: string): Option<seq<Leaf>>
    decreases s, 0
  {
    if |s.parameters| != 1 then None else ValueLeaves(s.parameters[0].value, Sub(prefix, s.parameters[0].name))
  }

  function Both(a: Option<seq<Leaf>>, b: Option<seq<Leaf>>): Option<seq<Leaf>> {
    if a.None? || b.None? then None else Some(a.value + b.value)
  }

  /** Assigning to a property of a plain JavaScript object: a scalar under this one name is ignored. */
  function Put(parsed: map<string, Scalar>, leaf: Leaf): map<string, Scalar> {
    if leaf.0 == "__proto__" then parsed else parsed[leaf.0 := leaf.1]
  }

  function PutAll(parsed: map<string, Scalar>, leaves: seq<Leaf>): map<string, Scalar> {
    if leaves == [] then parsed else Put(PutAll(parsed, leaves[..|leaves| - 1]), leaves[|leaves| - 1])
  }

  lemma {:induction false} PutAllConcat(parsed: map<string, Scalar>, a: seq<Leaf>, b: seq<Leaf>)
    ensures PutAll(parsed, a + b) == PutAll(PutAll(parsed, a), b)
  {
    if b == [] {
      assert a + b == a;
    } else {
      assert (a + b)[..|a + b| - 1] == a + b[..|b| - 1];
      PutAllConcat(parsed, a, b[..|b| - 1]);
    }
  }

  // ---------------------------------------------------------------- the extraction

  /** `extractInitialSettingsForEngine`: nested functions that write into `parsed`. */
  class Extraction {
    var parsed: map<string, Scalar>

    constructor ()
      ensures parsed == map[]
    {
      parsed := map[];
    }

    /** False stands for the exception about a missing or an ambiguous key. */
    method ParseSettings(g: Group, keyPrefix: string) returns (ok: bool)
      modifies this
      ensures ok == GroupLeaves(g, keyPrefix, |g.settings|).Some?
      ensures ok ==> parsed == PutAll(old(parsed), GroupLeaves(g, keyPrefix, |g.settings|).value)
      decreases g, 2
    {
      for k := 0 to |g.settings|
        invariant GroupLeaves(g, keyPrefix, k).Some?
        invariant parsed == PutAll(old(parsed), GroupLeaves(g, keyPrefix, k).value)
      {
        ok := ParseAnnotated(g, k, keyPrefix);
        if !ok {
          GroupFails(g, keyPrefix, k + 1, |g.settings|);
          return;
        }
        PutAllConcat(old(parsed), GroupLeaves(g, keyPrefix, k).value, SettingLeaves(g.settings[k], keyPrefix).value);
      }
      return true;
    }

    /** One item of the list. */
    method ParseAnnotated(g: Group, k: nat, keyPrefix: string) returns (ok: bool)
      requires k < |g.settings|
      modifies this
      ensures ok == SettingLeaves(g.settings[k], keyPrefix).Some?
      ensures ok ==> parsed == PutAll(old(parsed), SettingLeaves(g.settings[k], keyPrefix).value)
      decreases g, 1
    {
      var parameters := g.settings[k].parameters;
      if |parameters| != 1 { return false; }
      var actualParameter := parameters[0].name;
      var key := (if keyPrefix == "" then "" else keyPrefix + ".") + actualParameter;
      assert key == Sub(keyPrefix, actualParameter);
      ok := ParseValue(parameters[0].value, key);
    }

    method ParseValue(v: Value, key: string) returns (ok: bool)
      modifies this
      ensures ok == ValueLeaves(v, key).Some?
      ensures ok ==> parsed == PutAll(old(parsed), ValueLeaves(v, key).value)
      decreases v, 1
    {
      match v
      case Bool(b) =>
        assert [(key, Number(if b then 1.0 else 0.0))][..0] == [];
        Assign(key, Number(if b then 1.0 else 0.0));
        return true;
      case Plain(s) =>
        assert [(key, s)][..0] == [];
        Assign(key, s);
        return true;
      case Items(items) =>
        ParseItems(items, key);
        return true;
      case Nested(g) =>
        ok := ParseSettings(g, key);
      case Groups(groups) =>
        ok := ParseGroups(v, key);
    }

    /** The items of a list of numbers or strings. */
    method ParseItems(items: seq<Scalar>, key: string)
      modifies this
      ensures parsed == PutAll(old(parsed), ItemLeaves(items, key, |items|))
    {
      for i := 0 to |items|
        invariant parsed == PutAll(old(parsed), ItemLeaves(items, key, i))
      {
        ItemLeavesLength(items, key, i);
        assert ItemLeaves(items, key, i + 1)[..i] == ItemLeaves(items, key, i);
        Assign(Index(key, i), items[i]);
      }
    }

    /** The items of a list of nested settings. */
    method ParseGroups(v: Value, key: string) returns (ok: bool)
      requires v.Groups?
      modifies this
      ensures ok == GroupsLeaves(v, key, |v.groups|).Some?
      ensures ok ==> parsed == PutAll(old(parsed), GroupsLeaves(v, key, |v.groups|).value)
      decreases v, 0, 1
    {
      for i := 0 to |v.groups|
        invariant GroupsLeaves(v, key, i).Some?
        invariant parsed == PutAll(old(parsed), GroupsLeaves(v, key, i).value)
      {
        ok := ParseGroup(v, i, key, old(parsed));
        if !ok {
          GroupsFail(v, key, i + 1, |v.groups|);
          return;
        }
      }
      return true;
    }

    /** One item of it. */
    method ParseGroup(v: Value, i: nat, key: string, ghost before: map<string, Scalar>) returns (ok: bool)
      requires v.Groups? && i < |v.groups| && GroupsLeaves(v, key, i).Some?
      requires parsed == PutAll(before, GroupsLeaves(v, key, i).value)
      modifies this
      ensures ok == GroupsLeaves(v, key, i + 1).Some?
      ensures ok ==> parsed == PutAll(before, GroupsLeaves(v, key, i + 1).value)
      decreases v, 0, 0
    {
      ok := ParseSettings(v.groups[i], Index(key, i));
      if ok {
        PutAllConcat(before, GroupsLeaves(v, key, i).value,
                     GroupLeaves(v.groups[i], Index(key, i), |v.groups[i].settings|).value);
      }
    }

    method Assign(key: string, s: Scalar)
      modifies this
      ensures parsed == Put(old(parsed), (key, s))
    {
      if key != "__proto__" {
        parsed := parsed[key := s];
      }
    }
  }

  lemma {:induction false} ItemLeavesLength(items: seq<Scalar>, key: string, upTo: nat)
    requires upTo <= |items|
    ensures |ItemLeaves(items, key, upTo)| == upTo
  {
    if upTo > 0 { ItemLeavesLength(items, key, upTo - 1); }
  }

  lemma {:induction false} GroupFails(g: Group, prefix: string, k: nat, n: nat)
    requires k <= n <= |g.settings| && GroupLeaves(g, prefix, k).None?
    ensures GroupLeaves(g, prefix, n).None?
    decreases n - k
  {
    if k < n { GroupFails(g, prefix, k + 1, n); }
  }

  lemma {:induction false} GroupsFail(v: Value, key: string, k: nat, n: nat)
    requires v.Groups? && k <= n <= |v.groups| && GroupsLeaves(v, key, k).None?
    ensures GroupsLeaves(v, key, n).None?
    decreases n - k
  {
    if k < n { GroupsFail(v, key, k + 1, n); }
  }

  // ---------------------------------------------------------------- distinct values have distinct keys

  predicate KeyChar(c: char) { '0' <= c <= '9' || 'A' <= c <= 'Z' || 'a' <= c <= 'z' || c == '_' || c == '-' }

  predicate ValidName(name: string) { name != "" && forall i :: 0 <= i < |name| ==> KeyChar(name[i]) }

  predicate UniqueSiblings(g: Group) {
    forall i, j :: 0 <= i < j < |g.settings| && |g.settings[i].parameters| == 1 && |g.settings[j].parameters| == 1 ==>
      g.settings[i].parameters[0].name != g.settings[j].parameters[0].name
  }

  /** What validation guarantees about names, and no name twice among siblings. */
  predicate ProperGroup(g: Group)
    decreases g, 0
  {
    && UniqueSiblings(g)
    && forall k | 0 <= k < |g.settings| && |g.settings[k].parameters| == 1 ::
         ValidName(g.settings[k].parameters[0].name) && ProperValue(g.settings[k].parameters[0].value)
  }

  predicate ProperValue(v: Value)
    decreases v, 0
  {
    match v
    case Nested(g) => ProperGroup(g)
    case Groups(groups) => forall k | 0 <= k < |groups| :: ProperGroup(groups[k])
    case _ => true
  }

  /** The key itself, or a key of something inside. */
  predicate Under(key: string, base: string) {
    base <= key && (|key| > |base| ==> key[|base|] in {'.', '['})
  }

  /** Of two names at the same place, the one that ends at a mark is not the shorter one. */
  lemma EndsAtMark(s: string, n: nat, a: string, b: string, marks: set<char>)
    requires n + |a| <= |s| && n + |b| <= |s| && s[n..n + |a|] == a && s[n..n + |b|] == b
    requires |s| > n + |a| ==> s[n + |a|] in marks
    requires forall i :: 0 <= i < |b| ==> b[i] !in marks
    ensures |b| <= |a|
  {
    assert forall i :: 0 <= i < |b| ==> b[i] == s[n + i];
  }

  lemma SiblingsApart(prefix: string, a: string, b: string, key: string)
    requires ValidName(a) && ValidName(b) && Under(key, Sub(prefix, a)) && Under(key, Sub(prefix, b))
    ensures a == b
  {
    var n := |Sub(prefix, a)| - |a|;
    EndsAtMark(key, n, a, b, {'.', '['});
    EndsAtMark(key, n, b, a, {'.', '['});
  }

  lemma IndexesApart(base: string, i: nat, j: nat, key: string)
    requires Under(key, Index(base, i)) && Under(key, Index(base, j))
    ensures i == j
  {
    var a, b, n := Decimal(i), Decimal(j), |base| + 1;
    assert Index(base, i)[n + |a|] == ']' && Index(base, j)[n + |b|] == ']';
    assert key[n + |a|] == ']' && key[n + |b|] == ']';
    EndsAtMark(key, n, a, b, {']'});
    EndsAtMark(key, n, b, a, {']'});
    DecimalInjective(i, j);
  }

  predicate AllUnder(leaves: seq<Leaf>, base: string) {
    forall k :: 0 <= k < |leaves| ==> Under(leaves[k].0, base)
  }

  /** Each key belongs to one of the first settings of the group. */
  predicate AllUnderSome(leaves: seq<Leaf>, g: Group, prefix: string, upTo: nat)
    requires upTo <= |g.settings|
  {
    forall k :: 0 <= k < |leaves| ==>
      exists j :: 0 <= j < upTo && |g.settings[j].parameters| == 1
        && Under(leaves[k].0, Sub(prefix, g.settings[j].parameters[0].name))
  }

  predicate AllUnderIndex(leaves: seq<Leaf>, key: string, upTo: nat) {
    forall k :: 0 <= k < |leaves| ==> exists j :: 0 <= j < upTo && Under(leaves[k].0, Index(key, j))
  }

  predicate Distinct(leaves: seq<Leaf>) {
    forall i, j :: 0 <= i < j < |leaves| ==> leaves[i].0 != leaves[j].0
  }

  lemma DistinctBoth(a: seq<Leaf>, b: seq<Leaf>)
    requires Distinct(a) && Distinct(b)
    requires forall i, j :: 0 <= i < |a| && 0 <= j < |b| ==> a[i].0 != b[j].0
    ensures Distinct(a + b)
  {
  }

  lemma {:induction false} ItemKeys(items: seq<Scalar>, key: string, upTo: nat)
    requires upTo <= |items|
    ensures AllUnderIndex(ItemLeaves(items, key, upTo), key, upTo) && Distinct(ItemLeaves(items, key, upTo))
  {
    if upTo > 0 {
      ItemKeys(items, key, upTo - 1);
      var before, last := ItemLeaves(items, key, upTo - 1), (Index(key, upTo - 1), items[upTo - 1]);
      assert Under(last.0, Index(key, upTo - 1));
      forall i | 0 <= i < |before| ensures before[i].0 != last.0 {
        var j :| 0 <= j < upTo - 1 && Under(before[i].0, Index(key, j));
        if before[i].0 == last.0 { IndexesApart(key, j, upTo - 1, last.0); }
      }
      DistinctBoth(before, [last]);
    }
  }

  lemma UnderIndexIsUnder(leaves: seq<Leaf>, key: string, upTo: nat)
    requires AllUnderIndex(leaves, key, upTo)
    ensures AllUnder(leaves, key)
  {
    forall k | 0 <= k < |leaves| ensures Under(leaves[k].0, key) {
      var j :| 0 <= j < upTo && Under(leaves[k].0, Index(key, j));
      assert leaves[k].0[|key|] == Index(key, j)[|key|];
    }
  }

  lemma UnderSomeIsUnder(leaves: seq<Leaf>, g: Group, prefix: string)
    requires prefix != "" && AllUnderSome(leaves, g, prefix, |g.settings|)
    ensures AllUnder(leaves, prefix)
  {
    forall k | 0 <= k < |leaves| ensures Under(leaves[k].0, prefix) {
      var j :| 0 <= j < |g.settings| && |g.settings[j].parameters| == 1
        && Under(leaves[k].0, Sub(prefix, g.settings[j].parameters[0].name));
      assert leaves[k].0[|prefix|] == '.';
    }
  }

  lemma {:induction false} ValueKeys(v: Value, key: string)
    requires ProperValue(v) && key != "" && ValueLeaves(v, key).Some?
    ensures AllUnder(ValueLeaves(v, key).value, key) && Distinct(ValueLeaves(v, key).value)
    decreases v, 1
  {
    match v {
      case Items(items) =>
        ItemKeys(items, key, |items|);
        UnderIndexIsUnder(ItemLeaves(items, key, |items|), key, |items|);
      case Nested(g) =>
        GroupKeys(g, key, |g.settings|);
        UnderSomeIsUnder(GroupLeaves(g, key, |g.settings|).value, g, key);
      case Groups(groups) =>
        GroupsKeys(v, key, |groups|);
        UnderIndexIsUnder(GroupsLeaves(v, key, |groups|).value, key, |groups|);
      case _ =>
    }
  }

  lemma {:induction false} GroupsKeys(v: Value, key: string, upTo: nat)
    requires v.Groups? && upTo <= |v.groups| && ProperValue(v) && GroupsLeaves(v, key, upTo).Some?
    ensures AllUnderIndex(GroupsLeaves(v, key, upTo).value, key, upTo) && Distinct(GroupsLeaves(v, key, upTo).value)
    decreases v, 0, upTo
  {
    if upTo > 0 {
      var g, base := v.groups[upTo - 1], Index(key, upTo - 1);
      GroupsKeys(v, key, upTo - 1);
      GroupKeys(g, base, |g.settings|);
      var before := GroupsLeaves(v, key, upTo - 1).value;
      var last := GroupLeaves(g, base, |g.settings|).value;
      UnderSomeIsUnder(last, g, base);
      forall i, m | 0 <= i < |before| && 0 <= m < |last| ensures before[i].0 != last[m].0 {
        var j :| 0 <= j < upTo - 1 && Under(before[i].0, Index(key, j));
        if before[i].0 == last[m].0 { IndexesApart(key, j, upTo - 1, last[m].0); }
      }
      DistinctBoth(before, last);
    }
  }

  lemma {:induction false} GroupKeys(g: Group, prefix: string, upTo: nat)
    requires upTo <= |g.settings| && ProperGroup(g) && GroupLeaves(g, prefix, upTo).Some?
    ensures AllUnderSome(GroupLeaves(g, prefix, upTo).value, g, prefix, upTo)
    ensures Distinct(GroupLeaves(g, prefix, upTo).value)
    decreases g, upTo
  {
    if upTo > 0 {
      GroupKeys(g, prefix, upTo - 1);
      var p := g.settings[upTo - 1].parameters[0];
      ValueKeys(p.value, Sub(prefix, p.name));
      var before := GroupLeaves(g, prefix, upTo - 1).value;
      var last := ValueLeaves(p.value, Sub(prefix, p.name)).value;
      forall i, m | 0 <= i < |before| && 0 <= m < |last| ensures before[i].0 != last[m].0 {
        var j :| 0 <= j < upTo - 1 && |g.settings[j].parameters| == 1
          && Under(before[i].0, Sub(prefix, g.settings[j].parameters[0].name));
        if before[i].0 == last[m].0 { SiblingsApart(prefix, g.settings[j].parameters[0].name, p.name, last[m].0); }
      }
      DistinctBoth(before, last);
    }
  }

  function Keys(leaves: seq<Leaf>): set<string> { set k | 0 <= k < |leaves| :: leaves[k].0 }

  lemma {:induction false} PutAllOfDistinct(leaves: seq<Leaf>)
    requires Distinct(leaves)
    ensures PutAll(map[], leaves).Keys == Keys(leaves) - {"__proto__"}
    ensures forall k :: 0 <= k < |leaves| && leaves[k].0 in PutAll(map[], leaves) ==>
      PutAll(map[], leaves)[leaves[k].0] == leaves[k].1
  {
    if leaves != [] {
      var before := leaves[..|leaves| - 1];
      PutAllOfDistinct(before);
      assert leaves == before + [leaves[|leaves| - 1]];
      assert Keys(leaves) == Keys(before) + {leaves[|leaves| - 1].0};
    }
  }

  /**
    With no name twice among siblings, every value is under a key of its own, whether in a list, in a
    nested list or in a list of those; only a top-level value named `__proto__` is lost.
   */
  lemma EveryValueHasItsKey(g: Group)
    requires ProperGroup(g) && GroupLeaves(g, "", |g.settings|).Some?
    ensures
      var leaves := GroupLeaves(g, "", |g.settings|).value;
      var parsed := PutAll(map[], leaves);
      && Distinct(leaves)
      && parsed.Keys == Keys(leaves) - {"__proto__"}
      && forall k :: 0 <= k < |leaves| && leaves[k].0 in parsed ==> parsed[leaves[k].0] == leaves[k].1
  {
    GroupKeys(g, "", |g.settings|);
    PutAllOfDistinct(GroupLeaves(g, "", |g.settings|).value);
  }

  lemma {:induction false} GroupHasLeaves(g: Group, prefix: string, k: nat, upTo: nat)
    requires k < upTo <= |g.settings| && GroupLeaves(g, prefix, upTo).Some?
    ensures |g.settings[k].parameters| == 1
    ensures var p := g.settings[k].parameters[0];
      && ValueLeaves(p.value, Sub(prefix, p.name)).Some?
      && forall leaf :: leaf in ValueLeaves(p.value, Sub(prefix, p.name)).value ==>
           leaf in GroupLeaves(g, prefix, upTo).value
    decreases upTo
  {
    if k < upTo - 1 { GroupHasLeaves(g, prefix, k, upTo - 1); }
  }
}
