/**
  What the flat record says about the tree of settings: a value found by its path in the tree is in
  the record under the key that spells this path, and nothing else is in the record.
 */
module SettingsStored {
  import opened Text
  import opened SettingsTree

  /**
    The value is found in this list of settings, whose own key is `prefix`, and `key` spells the way to
    it: names after dots, and positions in lists in brackets.
   */
  ghost predicate FoundAt(g: Group, prefix: string, v: Value, key: string)
    decreases g
  {
    exists k | 0 <= k < |g.settings| && |g.settings[k].parameters| == 1 ::
      var p := g.settings[k].parameters[0];
      var own := if prefix == "" then p.name else prefix + "." + p.name;
      || (v == p.value && key == own)
      || (p.value.Nested? && FoundAt(p.value.group, own, v, key))
      || (p.value.Groups? && exists i | 0 <= i < |p.value.groups| ::
            FoundAt(p.value.groups[i], own + "[" + Decimal(i) + "]", v, key))
  }

  /** What the engine is given for a value at this key: numbers for booleans, and an entry for each item of a list. */
  predicate Gives(v: Value, key: string, leaf: Leaf) {
    match v
    case Bool(b) => leaf == (key, Number(if b then 1.0 else 0.0))
    case Plain(s) => leaf == (key, s)
    case Items(items) => exists i :: 0 <= i < |items| && leaf == (key + "[" + Decimal(i) + "]", items[i])
    case _ => false
  }

  lemma {:induction false} ItemIsLeaf(items: seq<Scalar>, key: string, upTo: nat, leaf: Leaf)
    requires upTo <= |items|
    ensures leaf in ItemLeaves(items, key, upTo) <==>
      exists i :: 0 <= i < upTo && leaf == (key + "[" + Decimal(i) + "]", items[i])
  {
    if upTo > 0 {
      ItemIsLeaf(items, key, upTo - 1, leaf);
      assert Index(key, upTo - 1) == key + "[" + Decimal(upTo - 1) + "]";
    }
  }

  lemma {:induction false} GroupsHaveLeaves(v: Value, key: string, i: nat, upTo: nat)
    requires v.Groups? && i < upTo <= |v.groups| && GroupsLeaves(v, key, upTo).Some?
    ensures GroupLeaves(v.groups[i], Index(key, i), |v.groups[i].settings|).Some?
    ensures forall leaf :: leaf in GroupLeaves(v.groups[i], Index(key, i), |v.groups[i].settings|).value ==>
      leaf in GroupsLeaves(v, key, upTo).value
    decreases upTo
  {
    if i < upTo - 1 { GroupsHaveLeaves(v, key, i, upTo - 1); }
  }

  /** Whatever a value in the tree gives is among the leaves. */
  lemma {:induction false} FoundIsLeaf(g: Group, prefix: string, v: Value, key: string, leaf: Leaf)
    requires GroupLeaves(g, prefix, |g.settings|).Some? && FoundAt(g, prefix, v, key) && Gives(v, key, leaf)
    ensures leaf in GroupLeaves(g, prefix, |g.settings|).value
    decreases g
  {
    var k :| 0 <= k < |g.settings| && |g.settings[k].parameters| == 1
      && var p := g.settings[k].parameters[0];
         var own := if prefix == "" then p.name else prefix + "." + p.name;
         || (v == p.value && key == own)
         || (p.value.Nested? && FoundAt(p.value.group, own, v, key))
         || (p.value.Groups? && exists i | 0 <= i < |p.value.groups| ::
               FoundAt(p.value.groups[i], own + "[" + Decimal(i) + "]", v, key));
    var p := g.settings[k].parameters[0];
    var own := Sub(prefix, p.name);
    GroupHasLeaves(g, prefix, k, |g.settings|);
    if v == p.value && key == own {
      if v.Items? { ItemIsLeaf(v.items, key, |v.items|, leaf); }
    } else if p.value.Nested? {
      FoundIsLeaf(p.value.group, own, v, key, leaf);
    } else {
      var i :| 0 <= i < |p.value.groups| && FoundAt(p.value.groups[i], own + "[" + Decimal(i) + "]", v, key);
      assert Index(own, i) == own + "[" + Decimal(i) + "]";
      GroupsHaveLeaves(p.value, own, i, |p.value.groups|);
      FoundIsLeaf(p.value.groups[i], Index(own, i), v, key, leaf);
    }
  }

  /** One step into the tree. */
  lemma FoundInside(g: Group, prefix: string, k: nat, v: Value, key: string)
    requires k < |g.settings| && |g.settings[k].parameters| == 1
    requires
      var p := g.settings[k].parameters[0];
      var own := Sub(prefix, p.name);
      || (v == p.value && key == own)
      || (p.value.Nested? && FoundAt(p.value.group, own, v, key))
      || (p.value.Groups? && exists i :: 0 <= i < |p.value.groups| && FoundAt(p.value.groups[i], Index(own, i), v, key))
    ensures FoundAt(g, prefix, v, key)
  {
    var p := g.settings[k].parameters[0];
    var own := Sub(prefix, p.name);
    if p.value.Groups? && exists i :: 0 <= i < |p.value.groups| && FoundAt(p.value.groups[i], Index(own, i), v, key) {
      var i :| 0 <= i < |p.value.groups| && FoundAt(p.value.groups[i], Index(own, i), v, key);
      assert Index(own, i) == own + "[" + Decimal(i) + "]";
    }
  }

  lemma {:induction false} GroupsLeafIsFound(v: Value, key: string, upTo: nat, leaf: Leaf)
    returns (i: nat, w: Value, at: string)
    requires v.Groups? && upTo <= |v.groups| && GroupsLeaves(v, key, upTo).Some?
    requires leaf in GroupsLeaves(v, key, upTo).value
    ensures i < upTo && FoundAt(v.groups[i], Index(key, i), w, at) && Gives(w, at, leaf)
    decreases v, 0, upTo
  {
    var g := v.groups[upTo - 1];
    if leaf in GroupsLeaves(v, key, upTo - 1).value {
      i, w, at := GroupsLeafIsFound(v, key, upTo - 1, leaf);
    } else {
      i := upTo - 1;
      w, at := LeafIsFound(g, Index(key, i), |g.settings|, leaf);
    }
  }

  /** Every leaf is what some value in the tree gives. */
  lemma {:induction false} LeafIsFound(g: Group, prefix: string, upTo: nat, leaf: Leaf) returns (w: Value, at: string)
    requires upTo <= |g.settings| && GroupLeaves(g, prefix, upTo).Some? && leaf in GroupLeaves(g, prefix, upTo).value
    ensures FoundAt(g, prefix, w, at) && Gives(w, at, leaf)
    decreases g, upTo
  {
    var k := upTo - 1;
    if leaf in GroupLeaves(g, prefix, k).value {
      w, at := LeafIsFound(g, prefix, k, leaf);
    } else {
      assert SettingLeaves(g.settings[k], prefix).Some? && leaf in SettingLeaves(g.settings[k], prefix).value;
      var p := g.settings[k].parameters[0];
      var own := Sub(prefix, p.name);
      assert ValueLeaves(p.value, own).Some? && leaf in ValueLeaves(p.value, own).value;
      if p.value.Nested? {
        w, at := LeafIsFound(p.value.group, own, |p.value.group.settings|, leaf);
      } else if p.value.Groups? {
        var i;
        i, w, at := GroupsLeafIsFound(p.value, own, |p.value.groups|, leaf);
      } else {
        w, at := p.value, own;
        if p.value.Items? { ItemIsLeaf(p.value.items, own, |p.value.items|, leaf); }
      }
      FoundInside(g, prefix, k, w, at);
    }
  }

  /**
    Every value of the tree is stored under the key that spells its path: true as 1 and false as 0, a
    number or a string as it is, and each item of a list under its own position. Only a key that is
    `__proto__` is not stored.
   */
  lemma ValuesAreStored(g: Group, v: Value, key: string)
    requires ProperGroup(g) && GroupLeaves(g, "", |g.settings|).Some? && FoundAt(g, "", v, key)
    ensures
      var parsed := PutAll(map[], GroupLeaves(g, "", |g.settings|).value);
      && (v == Bool(true) && key != "__proto__" ==> key in parsed && parsed[key] == Number(1.0))
      && (v == Bool(false) && key != "__proto__" ==> key in parsed && parsed[key] == Number(0.0))
      && (v.Plain? && key != "__proto__" ==> key in parsed && parsed[key] == v.v)
      && (v.Items? ==> forall i :: 0 <= i < |v.items| ==>
            key + "[" + Decimal(i) + "]" in parsed && parsed[key + "[" + Decimal(i) + "]"] == v.items[i])
  {
    EveryValueHasItsKey(g);
    if v.Bool? {
      StoredLeaf(g, v, key, (key, Number(if v.b then 1.0 else 0.0)));
    } else if v.Plain? {
      StoredLeaf(g, v, key, (key, v.v));
    } else if v.Items? {
      forall i | 0 <= i < |v.items|
        ensures var parsed := PutAll(map[], GroupLeaves(g, "", |g.settings|).value);
          key + "[" + Decimal(i) + "]" in parsed && parsed[key + "[" + Decimal(i) + "]"] == v.items[i]
      {
        var at := key + "[" + Decimal(i) + "]";
        assert at[|at| - 1] == ']' && "__proto__"[|"__proto__"| - 1] == '_';
        StoredLeaf(g, v, key, (at, v.items[i]));
      }
    }
  }

  lemma StoredLeaf(g: Group, v: Value, key: string, leaf: Leaf)
    requires ProperGroup(g) && GroupLeaves(g, "", |g.settings|).Some? && FoundAt(g, "", v, key) && Gives(v, key, leaf)
    ensures
      var parsed := PutAll(map[], GroupLeaves(g, "", |g.settings|).value);
      leaf.0 != "__proto__" ==> leaf.0 in parsed && parsed[leaf.0] == leaf.1
  {
    var leaves := GroupLeaves(g, "", |g.settings|).value;
    EveryValueHasItsKey(g);
    FoundIsLeaf(g, "", v, key, leaf);
    var k :| 0 <= k < |leaves| && leaves[k] == leaf;
    assert leaf.0 in Keys(leaves);
  }

  /** And whatever is stored, is stored for such a value. */
  lemma StoredIsFound(g: Group, key: string) returns (v: Value, at: string)
    requires ProperGroup(g) && GroupLeaves(g, "", |g.settings|).Some?
    requires key in PutAll(map[], GroupLeaves(g, "", |g.settings|).value)
    ensures FoundAt(g, "", v, at)
    ensures
      var s := PutAll(map[], GroupLeaves(g, "", |g.settings|).value)[key];
      || (v == Bool(true) && key == at && s == Number(1.0))
      || (v == Bool(false) && key == at && s == Number(0.0))
      || (v.Plain? && key == at && s == v.v)
      || (v.Items? && exists i :: 0 <= i < |v.items| && key == at + "[" + Decimal(i) + "]" && s == v.items[i])
  {
    var leaves := GroupLeaves(g, "", |g.settings|).value;
    EveryValueHasItsKey(g);
    assert key in Keys(leaves);
    var k :| 0 <= k < |leaves| && leaves[k].0 == key;
    v, at := LeafIsFound(g, "", |g.settings|, leaves[k]);
  }

  /** The item has exactly one key of its own, and so has every item inside. */
  ghost predicate SingleKeys(s: Setting)
    decreases s
  {
    && |s.parameters| == 1
    && var v := s.parameters[0].value;
       && (v.Nested? ==> forall k | 0 <= k < |v.group.settings| :: SingleKeys(v.group.settings[k]))
       && (v.Groups? ==> forall i, k | 0 <= i < |v.groups| && 0 <= k < |v.groups[i].settings| ::
             SingleKeys(v.groups[i].settings[k]))
  }

  /** The extraction fails exactly if somewhere in the tree an item has no key of its own, or several. */
  lemma {:induction false} FailsExactly(g: Group, prefix: string, upTo: nat)
    requires upTo <= |g.settings|
    ensures GroupLeaves(g, prefix, upTo).Some? <==> forall k | 0 <= k < upTo :: SingleKeys(g.settings[k])
    decreases g, upTo
  {
    if upTo > 0 {
      FailsExactly(g, prefix, upTo - 1);
      SettingFailsExactly(g.settings[upTo - 1], prefix);
    }
  }

  lemma {:induction false} SettingFailsExactly(s: Setting, prefix: string)
    ensures SettingLeaves(s, prefix).Some? <==> SingleKeys(s)
    decreases s, 1
  {
    if |s.parameters| == 1 {
      var v, own := s.parameters[0].value, Sub(prefix, s.parameters[0].name);
      if v.Nested? { FailsExactly(v.group, own, |v.group.settings|); }
      if v.Groups? { GroupsFailExactly(v, own, |v.groups|); }
    }
  }

  lemma {:induction false} GroupsFailExactly(v: Value, key: string, upTo: nat)
    requires v.Groups? && upTo <= |v.groups|
    ensures GroupsLeaves(v, key, upTo).Some? <==>
      forall i, k | 0 <= i < upTo && 0 <= k < |v.groups[i].settings| :: SingleKeys(v.groups[i].settings[k])
    decreases v, 0, upTo
  {
    if upTo > 0 {
      GroupsFailExactly(v, key, upTo - 1);
      FailsExactly(v.groups[upTo - 1], Index(key, upTo - 1), |v.groups[upTo - 1].settings|);
    }
  }
}
