/** Version strings: numbers between dots, compared as lists that go on with zeros. */
module Versions {
  import opened Text

  /** The number that a run of characters accumulates to; other characters than digits count by their distance from '0'. */
  function Number(s: string): int {
    if s == "" then 0 else 10 * Number(s[..|s| - 1]) + (s[|s| - 1] as int - '0' as int)
  }

  function Components(v: string): seq<int> {
    var parts := Pieces(v, '.');
    seq(|parts|, i requires 0 <= i < |parts| => Number(parts[i]))
  }

  function At(a: seq<int>, k: nat): int { if k < |a| then a[k] else 0 }

  /** The first difference decides. */
  ghost predicate Below(a: seq<int>, b: seq<int>) {
    exists k: nat :: At(a, k) < At(b, k) && forall j: nat :: j < k ==> At(a, j) == At(b, j)
  }

  ghost predicate Same(a: seq<int>, b: seq<int>) { forall k: nat :: At(a, k) == At(b, k) }

  ghost predicate Less(v: string, w: string) { Below(Components(v), Components(w)) }

  // ---------------------------------------------------------------- a strict weak order

  lemma {:induction false} FirstDifference(a: seq<int>, b: seq<int>, k: nat) returns (d: nat)
    requires At(a, k) != At(b, k)
    ensures d <= k && At(a, d) != At(b, d) && forall j: nat :: j < d ==> At(a, j) == At(b, j)
  {
    d := 0;
    while At(a, d) == At(b, d)
      invariant d <= k && forall j: nat :: j < d ==> At(a, j) == At(b, j)
      decreases k - d
    {
      d := d + 1;
    }
  }

  /** One is below the other, or they are the same list up to zeros at the end; never two of these. */
  lemma Trichotomy(a: seq<int>, b: seq<int>)
    ensures Below(a, b) || Below(b, a) || Same(a, b)
    ensures !(Below(a, b) && Below(b, a)) && !(Below(a, b) && Same(a, b))
  {
    if !Same(a, b) {
      var k: nat :| At(a, k) != At(b, k);
      var d := FirstDifference(a, b, k);
      assert Below(a, b) || Below(b, a);
    }
    if Below(a, b) {
      var k: nat :| At(a, k) < At(b, k) && forall j: nat :: j < k ==> At(a, j) == At(b, j);
      assert !Same(a, b);
      assert forall m: nat :: At(b, m) < At(a, m) ==> m > k;
    }
  }

  lemma Transitive(a: seq<int>, b: seq<int>, c: seq<int>)
    requires Below(a, b) && Below(b, c)
    ensures Below(a, c)
  {
    var k: nat :| At(a, k) < At(b, k) && forall j: nat :: j < k ==> At(a, j) == At(b, j);
    var m: nat :| At(b, m) < At(c, m) && forall j: nat :: j < m ==> At(b, j) == At(c, j);
    var n := if k < m then k else m;
    assert At(a, n) < At(c, n) && forall j: nat :: j < n ==> At(a, j) == At(c, j);
  }

  /** Irreflexive, transitive, and incomparability is an equivalence: the same components up to zeros at the end. */
  lemma StrictWeakOrder(u: string, v: string, w: string)
    ensures !Less(v, v)
    ensures Less(u, v) && Less(v, w) ==> Less(u, w)
    ensures !Less(u, v) && !Less(v, u) <==> Same(Components(u), Components(v))
    ensures !Less(u, v) && !Less(v, u) && !Less(v, w) && !Less(w, v) ==> !Less(u, w) && !Less(w, u)
  {
    var a, b, c := Components(u), Components(v), Components(w);
    Trichotomy(a, b);
    Trichotomy(b, c);
    Trichotomy(a, c);
    if Less(u, v) && Less(v, w) { Transitive(a, b, c); }
    if Same(a, b) && Same(b, c) {
      assert forall k: nat :: At(a, k) == At(b, k) && At(b, k) == At(c, k);
    }
  }

  // ---------------------------------------------------------------- the comparison

  function Rest(a: seq<int>): seq<int> { if a == [] then [] else a[1..] }

  lemma BelowByFirst(a: seq<int>, b: seq<int>)
    ensures At(a, 0) < At(b, 0) ==> Below(a, b)
    ensures At(a, 0) > At(b, 0) ==> !Below(a, b)
    ensures At(a, 0) == At(b, 0) ==> (Below(a, b) <==> Below(Rest(a), Rest(b)))
  {
    assert forall k: nat :: At(Rest(a), k) == At(a, k + 1) && At(Rest(b), k) == At(b, k + 1);
    if At(a, 0) == At(b, 0) {
      if Below(a, b) {
        var k: nat :| At(a, k) < At(b, k) && forall j: nat :: j < k ==> At(a, j) == At(b, j);
        assert At(Rest(a), k - 1) < At(Rest(b), k - 1);
      }
      if Below(Rest(a), Rest(b)) {
        var k: nat :| At(Rest(a), k) < At(Rest(b), k) && forall j: nat :: j < k ==> At(Rest(a), j) == At(Rest(b), j);
        forall j: nat | j < k + 1 ensures At(a, j) == At(b, j) {
          if j > 0 { assert At(Rest(a), j - 1) == At(Rest(b), j - 1); }
        }
        assert At(a, k + 1) < At(b, k + 1);
      }
    }
  }

  /** What is left of a version from `i` on; nothing if `i` is past its end. */
  function From(v: string, i: nat): string { if i <= |v| then v[i..] else "" }

  lemma LastComponent(v: string)
    requires '.' !in v
    ensures Components(v) == [Number(v)]
  {
    PiecesOfPlain(v, '.');
  }

  lemma FirstComponent(a: string, b: string)
    requires '.' !in a
    ensures Components(a + ['.'] + b) == [Number(a)] + Components(b)
  {
    PiecesOfPlain(a, '.');
    PiecesAtSeparator(a, b, '.');
  }

  /** `acc` is the component at `i`, and the next one starts after `end`. */
  ghost predicate IsComponent(v: string, i: nat, end: nat, acc: int) {
    acc == At(Components(From(v, i)), 0) && Same(Components(From(v, end + 1)), Rest(Components(From(v, i))))
  }

  lemma ComponentAt(v: string, i: nat, end: nat)
    requires i <= end <= |v| && '.' !in v[i..end] && (end < |v| ==> v[end] == '.')
    ensures IsComponent(v, i, end, Number(v[i..end]))
  {
    if end < |v| {
      CutAt(v, i, end);
      FirstComponent(v[i..end], v[end + 1..]);
    } else {
      assert v[i..end] == v[i..];
      LastComponent(v[i..]);
      LastComponent("");
    }
  }

  lemma CutAt(v: string, i: nat, end: nat)
    requires i <= end < |v|
    ensures v[i..] == v[i..end] + [v[end]] + v[end + 1..]
  {
  }

  lemma PastTheEnd(v: string, i: nat)
    requires i > |v|
    ensures IsComponent(v, i, i, 0)
  {
    LastComponent("");
  }

  lemma NumberOneMore(v: string, i: nat, end: nat)
    requires i <= end < |v|
    ensures Number(v[i..end + 1]) == Number(v[i..end]) * 10 + (v[end] as int - '0' as int)
    ensures '.' in v[i..end + 1] <==> '.' in v[i..end] || v[end] == '.'
  {
    assert v[i..end + 1] == v[i..end] + [v[end]];
    assert v[i..end + 1][..end - i] == v[i..end];
  }

  /** The number up to the next dot or the end. */
  method Accumulate(v: string, i: nat) returns (end: nat, acc: int)
    requires i <= |v|
    ensures i <= end <= |v| && '.' !in v[i..end] && (end < |v| ==> v[end] == '.') && acc == Number(v[i..end])
  {
    end, acc := i, 0;
    assert v[i..i] == "";
    while end < |v| && v[end] != '.'
      invariant i <= end <= |v| && '.' !in v[i..end] && acc == Number(v[i..end])
    {
      NumberOneMore(v, i, end);
      acc := acc * 10 + (v[end] as int - '0' as int);
      end := end + 1;
    }
  }

  /** The end of the component at `i`, and its number; past the end of the version it is 0. */
  method ReadComponent(v: string, i: nat) returns (end: nat, acc: int)
    ensures end >= i && (i < |v| ==> end <= |v|)
    ensures IsComponent(v, i, end, acc)
  {
    if i > |v| {
      PastTheEnd(v, i);
      return i, 0;
    }
    end, acc := Accumulate(v, i);
    ComponentAt(v, i, end);
  }

  lemma NotBelowItself(a: seq<int>)
    ensures !Below(a, a)
  {
  }

  lemma SameIsEnough(a: seq<int>, b: seq<int>, a': seq<int>, b': seq<int>)
    requires Same(a', a) && Same(b', b)
    ensures Below(a, b) <==> Below(a', b')
  {
    assert forall k: nat :: At(a, k) == At(a', k) && At(b, k) == At(b', k);
    if Below(a, b) {
      var k: nat :| At(a, k) < At(b, k) && forall j: nat :: j < k ==> At(a, j) == At(b, j);
      assert At(a', k) < At(b', k) && forall j: nat :: j < k ==> At(a', j) == At(b', j);
    }
    if Below(a', b') {
      var k: nat :| At(a', k) < At(b', k) && forall j: nat :: j < k ==> At(a', j) == At(b', j);
      assert At(a, k) < At(b, k) && forall j: nat :: j < k ==> At(a, j) == At(b, j);
    }
  }

  /** Comparing what is left, component by component. */
  lemma NextComponent(v: string, i: nat, end: nat, c: int, w: string, j: nat, end': nat, d: int)
    requires IsComponent(v, i, end, c) && IsComponent(w, j, end', d)
    ensures
      if c < d then Less(From(v, i), From(w, j)) else if c > d then !Less(From(v, i), From(w, j))
      else Less(From(v, i), From(w, j)) <==> Less(From(v, end + 1), From(w, end' + 1))
  {
    var a, b := Components(From(v, i)), Components(From(w, j));
    BelowByFirst(a, b);
    SameIsEnough(Rest(a), Rest(b), Components(From(v, end + 1)), Components(From(w, end' + 1)));
  }

  lemma BothAtEnd(v: string, i: nat, w: string, j: nat)
    requires i >= |v| && j >= |w|
    ensures !Less(From(v, i), From(w, j))
  {
    assert From(v, i) == "" && From(w, j) == "";
    NotBelowItself(Components(""));
  }

  /** The components at both positions, and what they decide. */
  method ReadBoth(v1: string, i: nat, v2: string, j: nat) returns (end1: nat, acc1: int, end2: nat, acc2: int)
    ensures end1 >= i && (i < |v1| ==> end1 <= |v1|) && end2 >= j && (j < |v2| ==> end2 <= |v2|)
    ensures acc1 < acc2 ==> Less(From(v1, i), From(v2, j))
    ensures acc1 > acc2 ==> !Less(From(v1, i), From(v2, j))
    ensures acc1 == acc2 ==> (Less(From(v1, i), From(v2, j)) <==> Less(From(v1, end1 + 1), From(v2, end2 + 1)))
  {
    end1, acc1 := ReadComponent(v1, i);
    end2, acc2 := ReadComponent(v2, j);
    NextComponent(v1, i, end1, acc1, v2, j, end2, acc2);
  }

  /** What is left to compare decides as the whole does. */
  ghost predicate Decides(v1: string, i: nat, v2: string, j: nat, less: bool) {
    less <==> Less(From(v1, i), From(v2, j))
  }

  method CompareNext(v1: string, i: nat, v2: string, j: nat, ghost less: bool)
    returns (end1: nat, acc1: int, end2: nat, acc2: int)
    requires Decides(v1, i, v2, j, less)
    ensures end1 >= i && (i < |v1| ==> end1 <= |v1|) && end2 >= j && (j < |v2| ==> end2 <= |v2|)
    ensures acc1 < acc2 ==> less
    ensures acc1 > acc2 ==> !less
    ensures acc1 == acc2 ==> Decides(v1, end1 + 1, v2, end2 + 1, less)
  {
    end1, acc1, end2, acc2 := ReadBoth(v1, i, v2, j);
  }

  lemma AtFirst(v1: string, v2: string)
    ensures Decides(v1, 0, v2, 0, Less(v1, v2))
  {
    assert From(v1, 0) == v1 && From(v2, 0) == v2;
  }

  method VersionLessThan(v1: string, v2: string) returns (r: bool)
    ensures r <==> Less(v1, v2)
  {
    var i, j := 0, 0;
    ghost var less := Less(v1, v2);
    AtFirst(v1, v2);
    while i < |v1| || j < |v2|
      invariant Decides(v1, i, v2, j, less)
      decreases (if i < |v1| then |v1| - i else 0) + (if j < |v2| then |v2| - j else 0)
    {
      var end1, acc1, end2, acc2 := CompareNext(v1, i, v2, j, less);
      if acc1 < acc2 { return true; }
      if acc1 > acc2 { return false; }
      i, j := end1 + 1, end2 + 1;
    }
    BothAtEnd(v1, i, v2, j);
    return false;
  }

  // ---------------------------------------------------------------- versions as they are written

  function Dotted(numbers: seq<nat>): string {
    Join(seq(|numbers|, i requires 0 <= i < |numbers| => Decimal(numbers[i])), '.')
  }

  lemma {:induction false} NumberOfDigits(s: string)
    requires AllDigits(s)
    ensures Number(s) == DigitsValue(s)
  {
    if s != "" { NumberOfDigits(s[..|s| - 1]); }
  }

  /** Numbers written in decimal between dots are read back. */
  lemma ComponentsOfDotted(numbers: seq<nat>)
    requires numbers != []
    ensures Components(Dotted(numbers)) == numbers
  {
    var parts := seq(|numbers|, i requires 0 <= i < |numbers| => Decimal(numbers[i]));
    forall i | 0 <= i < |parts| ensures '.' !in parts[i] && Number(parts[i]) == numbers[i] {
      assert AllDigits(parts[i]);
      NumberOfDigits(parts[i]);
      DecimalValue(numbers[i]);
      assert forall k :: 0 <= k < |parts[i]| ==> IsDigit(parts[i][k]);
    }
    PiecesOfJoin(parts, '.');
    AllPiecesOfPlain(parts, '.');
  }

  /** One version is less exactly if at the first place where they differ its number is smaller, a missing number being 0. */
  lemma DottedOrder(a: seq<nat>, b: seq<nat>)
    requires a != [] && b != []
    ensures Less(Dotted(a), Dotted(b)) <==>
      exists k: nat ::
        && (if k < |a| then a[k] else 0) < (if k < |b| then b[k] else 0)
        && forall j: nat :: j < k ==> (if j < |a| then a[j] else 0) == (if j < |b| then b[j] else 0)
  {
    ComponentsOfDotted(a);
    ComponentsOfDotted(b);
    assert forall k: nat :: At(a, k) == if k < |a| then a[k] else 0;
    assert forall k: nat :: At(b, k) == if k < |b| then b[k] else 0;
    if Less(Dotted(a), Dotted(b)) {
      var k: nat :| At(a, k) < At(b, k) && forall j: nat :: j < k ==> At(a, j) == At(b, j);
      assert forall j: nat :: j < k ==> At(a, j) == At(b, j) && At(a, j) == (if j < |a| then a[j] else 0);
    }
    if k: nat :| (if k < |a| then a[k] else 0) < (if k < |b| then b[k] else 0)
                 && forall j: nat :: j < k ==> (if j < |a| then a[j] else 0) == (if j < |b| then b[j] else 0) {
      assert At(a, k) < At(b, k);
    }
  }
}
