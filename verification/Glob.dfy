/** Wildcard matching: `*` takes any run of characters, `?` takes one. */
module Glob {

  function Concat(segments: seq<string>): string {
    if segments == [] then "" else segments[0] + Concat(segments[1..])
  }

  predicate Takes(p: char, segment: string) {
    if p == '*' then true else if p == '?' then |segment| == 1 else segment == [p]
  }

  /** The string is cut into one segment for each pattern character. */
  predicate CutBy(pat: string, str: string, segments: seq<string>) {
    && |segments| == |pat| && Concat(segments) == str
    && forall i :: 0 <= i < |pat| ==> Takes(pat[i], segments[i])
  }

  ghost predicate Matches(pat: string, str: string) {
    exists segments :: CutBy(pat, str, segments)
  }

  lemma Cons(p: char, first: string, pat: string, rest: string)
    requires Takes(p, first) && Matches(pat, rest)
    ensures Matches([p] + pat, first + rest)
  {
    var segments :| CutBy(pat, rest, segments);
    assert ([first] + segments)[1..] == segments;
    assert CutBy([p] + pat, first + rest, [first] + segments);
  }

  /** The first segment of a match. */
  lemma Uncons(pat: string, str: string) returns (first: string)
    requires pat != "" && Matches(pat, str)
    ensures first <= str && Takes(pat[0], first) && Matches(pat[1..], str[|first|..])
  {
    var segments :| CutBy(pat, str, segments);
    first := segments[0];
    assert str[|first|..] == Concat(segments[1..]);
    assert CutBy(pat[1..], str[|first|..], segments[1..]);
  }

  lemma MatchesEmpty(str: string)
    ensures Matches("", str) <==> str == ""
  {
    if str == "" { assert CutBy("", "", []); }
  }

  /** One step past a pattern character other than the star. */
  lemma MatchesPlain(pat: string, str: string)
    requires pat != "" && pat[0] != '*'
    ensures Matches(pat, str) <==>
      str != "" && (pat[0] == '?' || str[0] == pat[0]) && Matches(pat[1..], str[1..])
  {
    if Matches(pat, str) {
      var first := Uncons(pat, str);
    }
    if str != "" && (pat[0] == '?' || str[0] == pat[0]) && Matches(pat[1..], str[1..]) {
      Cons(pat[0], str[..1], pat[1..], str[1..]);
      assert [pat[0]] + pat[1..] == pat && str[..1] + str[1..] == str;
    }
  }

  lemma StarTakesNothing(pat: string, str: string)
    requires pat != "" && pat[0] == '*' && Matches(pat[1..], str)
    ensures Matches(pat, str)
  {
    assert [pat[0]] + pat[1..] == pat && "" + str == str;
    Cons('*', "", pat[1..], str);
  }

  lemma StarTakesOneMore(pat: string, str: string)
    requires pat != "" && pat[0] == '*' && str != "" && Matches(pat, str[1..])
    ensures Matches(pat, str)
  {
    var first := Uncons(pat, str[1..]);
    var rest := str[1..][|first|..];
    assert first + rest == str[1..];
    assert [pat[0]] + pat[1..] == pat && ([str[0]] + first) + rest == [str[0]] + (first + rest);
    assert [str[0]] + str[1..] == str;
    Cons('*', [str[0]] + first, pat[1..], rest);
  }

  lemma StarTakesOneLess(pat: string, str: string)
    requires pat != "" && pat[0] == '*' && Matches(pat, str) && !Matches(pat[1..], str)
    ensures str != "" && Matches(pat, str[1..])
  {
    var first := Uncons(pat, str);
    var rest := str[|first|..];
    assert first + rest == str;
    assert first == "" ==> rest == str;
    if first != "" {
      assert [pat[0]] + pat[1..] == pat && first[1..] + rest == str[1..];
      Cons('*', first[1..], pat[1..], rest);
    }
  }

  /** The star takes nothing, or one character and then as a star again. */
  lemma MatchesStar(pat: string, str: string)
    requires pat != "" && pat[0] == '*'
    ensures Matches(pat, str) <==> Matches(pat[1..], str) || (str != "" && Matches(pat, str[1..]))
  {
    if Matches(pat[1..], str) {
      StarTakesNothing(pat, str);
    } else if Matches(pat, str) {
      StarTakesOneLess(pat, str);
    } else if str != "" && Matches(pat, str[1..]) {
      StarTakesOneMore(pat, str);
    }
  }

  /** A run of stars is one star. */
  lemma {:induction false} StarStar(pat: string, str: string)
    requires |pat| >= 2 && pat[0] == '*' && pat[1] == '*'
    ensures Matches(pat, str) <==> Matches(pat[1..], str)
    decreases |str|
  {
    MatchesStar(pat, str);
    MatchesStar(pat[1..], str);
    if str != "" { StarStar(pat, str[1..]); }
  }

  lemma LoneStar(str: string)
    ensures Matches("*", str)
  {
    assert [str][1..] == [] && Concat([str]) == str;
    assert CutBy("*", str, [str]);
  }

  method WcsMatch(pattern: string, s: string) returns (result: bool)
    ensures result <==> Matches(pattern, s)
    decreases |pattern|
  {
    var pat, str := pattern, s;
    while |pat| > 0
      invariant |pat| <= |pattern|
      invariant Matches(pat, str) <==> Matches(pattern, s)
      decreases |pat| + |str|
    {
      if pat[0] == '*' {
        if |pat| == 1 {
          LoneStar(str);
          assert pat == "*";
          return true;
        }
        if pat[1] == '*' {
          StarStar(pat, str);
          pat := pat[1..];
          continue;
        }
        MatchesStar(pat, str);
        var here := WcsMatch(pat[1..], str);
        if here { return true; }
        if |str| == 0 { return false; }
        str := str[1..];
        continue;
      }
      MatchesPlain(pat, str);
      if |str| == 0 { return false; }
      if pat[0] != '?' && str[0] != pat[0] { return false; }
      pat, str := pat[1..], str[1..];
    }
    MatchesEmpty(str);
    assert pat == "";
    return |str| == 0;
  }

  /** A pattern without wildcards matches its own text only. */
  lemma {:induction false} PlainMatchesItself(pat: string, str: string)
    requires '*' !in pat && '?' !in pat
    ensures Matches(pat, str) <==> pat == str
  {
    if pat == "" {
      MatchesEmpty(str);
    } else {
      MatchesPlain(pat, str);
      if str != "" {
        PlainMatchesItself(pat[1..], str[1..]);
        assert [pat[0]] + pat[1..] == pat && [str[0]] + str[1..] == str;
      }
    }
  }

  lemma QuestionMark(str: string)
    ensures Matches("?", str) <==> |str| == 1
  {
    MatchesPlain("?", str);
    assert "?"[1..] == "";
    if str != "" { MatchesEmpty(str[1..]); }
  }

  lemma {:induction false} ConcatOfTwo(a: seq<string>, b: seq<string>)
    ensures Concat(a + b) == Concat(a) + Concat(b)
  {
    if a == [] {
      assert a + b == b;
    } else {
      assert (a + b)[1..] == a[1..] + b;
      ConcatOfTwo(a[1..], b);
    }
  }

  lemma JoinMatches(a: string, b: string, x: string, y: string)
    requires Matches(a, x) && Matches(b, y)
    ensures Matches(a + b, x + y)
  {
    var p :| CutBy(a, x, p);
    var q :| CutBy(b, y, q);
    ConcatOfTwo(p, q);
    assert CutBy(a + b, x + y, p + q);
  }

  /** Two patterns one after the other match what can be cut into a match of each. */
  lemma MatchesInTwo(a: string, b: string, str: string)
    ensures Matches(a + b, str) <==> exists n :: 0 <= n <= |str| && Matches(a, str[..n]) && Matches(b, str[n..])
  {
    if Matches(a + b, str) {
      var segments :| CutBy(a + b, str, segments);
      var p, q := segments[..|a|], segments[|a|..];
      assert segments == p + q;
      ConcatOfTwo(p, q);
      var n := |Concat(p)|;
      assert str[..n] == Concat(p) && str[n..] == Concat(q);
      assert CutBy(a, str[..n], p) && CutBy(b, str[n..], q);
    }
    if n :| 0 <= n <= |str| && Matches(a, str[..n]) && Matches(b, str[n..]) {
      JoinMatches(a, b, str[..n], str[n..]);
      assert str[..n] + str[n..] == str;
    }
  }

  /** A plain text and a star match everything that starts with the text. */
  lemma PlainThenStar(text: string, str: string)
    requires '*' !in text && '?' !in text
    ensures Matches(text + "*", str) <==> text <= str
  {
    MatchesInTwo(text, "*", str);
    if Matches(text + "*", str) {
      var n :| 0 <= n <= |str| && Matches(text, str[..n]) && Matches("*", str[n..]);
      PlainMatchesItself(text, str[..n]);
    }
    if text <= str {
      PlainMatchesItself(text, str[..|text|]);
      LoneStar(str[|text|..]);
    }
  }

  /** A star and a plain text match everything that ends with the text. */
  lemma StarThenPlain(text: string, str: string)
    requires '*' !in text && '?' !in text
    ensures Matches("*" + text, str) <==> |text| <= |str| && str[|str| - |text|..] == text
  {
    MatchesInTwo("*", text, str);
    if Matches("*" + text, str) {
      var n :| 0 <= n <= |str| && Matches("*", str[..n]) && Matches(text, str[n..]);
      PlainMatchesItself(text, str[n..]);
    }
    if |text| <= |str| && str[|str| - |text|..] == text {
      PlainMatchesItself(text, str[|str| - |text|..]);
      LoneStar(str[..|str| - |text|]);
    }
  }
}
