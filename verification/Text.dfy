/** Strings cut at a separator, strings joined with one, and decimal numbers as text. */
module Text {

  datatype Option<+T> = None | Some(value: T)

  /** The pieces of `s` between separators: always at least one, possibly empty. */
  function Pieces(s: string, sep: char): (parts: seq<string>)
    ensures |parts| >= 1
  {
    if s == "" then [""]
    else
      var rest := Pieces(s[1..], sep);
      if s[0] == sep then [""] + rest else [[s[0]] + rest[0]] + rest[1..]
  }

  /** `std::views::split` as the engine uses it: the empty string has no pieces at all. */
  function SplitToViews(s: string, sep: char): seq<string> {
    if s == "" then [] else Pieces(s, sep)
  }

  function Join(parts: seq<string>, sep: char): string {
    if parts == [] then ""
    else if |parts| == 1 then parts[0]
    else parts[0] + [sep] + Join(parts[1..], sep)
  }

  /** Each part preceded by the separator. */
  function JoinAfter(parts: seq<string>, sep: char): string {
    if parts == [] then "" else [sep] + parts[0] + JoinAfter(parts[1..], sep)
  }

  lemma {:induction false} PiecesOfPlain(s: string, sep: char)
    requires sep !in s
    ensures Pieces(s, sep) == [s]
  {
    if s != "" {
      PiecesOfPlain(s[1..], sep);
      assert [s[0]] + s[1..] == s;
    }
  }

  lemma {:induction false} PiecesAtSeparator(a: string, b: string, sep: char)
    ensures Pieces(a + [sep] + b, sep) == Pieces(a, sep) + Pieces(b, sep)
  {
    if a == "" {
      assert (a + [sep] + b)[1..] == b;
    } else {
      assert (a + [sep] + b)[1..] == a[1..] + [sep] + b;
      PiecesAtSeparator(a[1..], b, sep);
    }
  }

  lemma {:induction false} PiecesOfJoinAfter(head: string, parts: seq<string>, sep: char)
    requires sep !in head
    requires forall i :: 0 <= i < |parts| ==> sep !in parts[i]
    ensures Pieces(head + JoinAfter(parts, sep), sep) == [head] + parts
    decreases |parts|
  {
    PiecesOfPlain(head, sep);
    if parts == [] {
      assert head + JoinAfter(parts, sep) == head;
    } else {
      var tail := parts[0] + JoinAfter(parts[1..], sep);
      assert head + JoinAfter(parts, sep) == head + [sep] + tail;
      PiecesAtSeparator(head, tail, sep);
      PiecesOfJoinAfter(parts[0], parts[1..], sep);
    }
  }

  lemma {:induction false} JoinAfterConcat(a: seq<string>, b: seq<string>, sep: char)
    ensures JoinAfter(a + b, sep) == JoinAfter(a, sep) + JoinAfter(b, sep)
  {
    if a == [] {
      assert a + b == b;
    } else {
      assert (a + b)[1..] == a[1..] + b;
      JoinAfterConcat(a[1..], b, sep);
    }
  }

  /** All the pieces of all the parts, in order. */
  function AllPieces(parts: seq<string>, sep: char): seq<string> {
    if parts == [] then [] else Pieces(parts[0], sep) + AllPieces(parts[1..], sep)
  }

  /** Joining and cutting again flattens the parts, whether or not they contain the separator. */
  lemma {:induction false} PiecesOfJoin(parts: seq<string>, sep: char)
    requires parts != []
    ensures Pieces(Join(parts, sep), sep) == AllPieces(parts, sep)
  {
    if |parts| == 1 {
      assert AllPieces(parts[1..], sep) == [];
    } else {
      PiecesAtSeparator(parts[0], Join(parts[1..], sep), sep);
      PiecesOfJoin(parts[1..], sep);
    }
  }

  lemma {:induction false} AllPiecesOfPlain(parts: seq<string>, sep: char)
    requires forall i :: 0 <= i < |parts| ==> sep !in parts[i]
    ensures AllPieces(parts, sep) == parts
  {
    if parts != [] {
      PiecesOfPlain(parts[0], sep);
      AllPiecesOfPlain(parts[1..], sep);
    }
  }

  lemma {:induction false} PieceHasNoSeparator(s: string, sep: char)
    ensures forall i :: 0 <= i < |Pieces(s, sep)| ==> sep !in Pieces(s, sep)[i]
  {
    if s != "" { PieceHasNoSeparator(s[1..], sep); }
  }

  lemma {:induction false} InAllPieces(parts: seq<string>, sep: char, p: string)
    ensures p in AllPieces(parts, sep)
      <==> exists i :: 0 <= i < |parts| && p in Pieces(parts[i], sep)
  {
    if parts != [] {
      InAllPieces(parts[1..], sep, p);
      if p in Pieces(parts[0], sep) {
      } else if p in AllPieces(parts[1..], sep) {
        var i :| 0 <= i < |parts[1..]| && p in Pieces(parts[1..][i], sep);
        assert p in Pieces(parts[i + 1], sep);
      } else {
        forall i | 0 <= i < |parts| ensures p !in Pieces(parts[i], sep) {
          if i > 0 { assert parts[i] == parts[1..][i - 1]; }
        }
      }
    }
  }

  // ---------------------------------------------------------------- decimal text

  function Digit(d: nat): (c: char)
    requires d < 10
    ensures c == "0123456789"[d]
  {
    ('0' as int + d) as char
  }

  predicate IsDigit(c: char) { '0' <= c <= '9' }

  function DigitValue(c: char): nat
    requires IsDigit(c)
  {
    c as int - '0' as int
  }

  predicate AllDigits(s: string) { forall i :: 0 <= i < |s| ==> IsDigit(s[i]) }

  /** `std::to_wstring` of an unsigned number, and a number in a JavaScript string. */
  function Decimal(n: nat): (s: string)
    ensures |s| >= 1 && AllDigits(s)
  {
    if n < 10 then [Digit(n)] else Decimal(n / 10) + [Digit(n % 10)]
  }

  function DigitsValue(s: string): nat
    requires AllDigits(s)
  {
    if s == "" then 0 else 10 * DigitsValue(s[..|s| - 1]) + DigitValue(s[|s| - 1])
  }

  lemma {:induction false} DecimalValue(n: nat)
    ensures DigitsValue(Decimal(n)) == n
  {
    if n < 10 {
      assert Decimal(n)[..0] == "";
    } else {
      DecimalValue(n / 10);
      assert Decimal(n)[..|Decimal(n)| - 1] == Decimal(n / 10);
    }
  }

  lemma DecimalInjective(a: nat, b: nat)
    requires Decimal(a) == Decimal(b)
    ensures a == b
  {
    DecimalValue(a);
    DecimalValue(b);
  }

  predicate IsSpace(c: char) { c in {' ', '\t', '\n', '\r', '\U{0B}', '\U{0C}'} }

  function SkipSpaces(s: string): string {
    if s != "" && IsSpace(s[0]) then SkipSpaces(s[1..]) else s
  }

  function DigitPrefix(s: string): (p: string)
    ensures AllDigits(p)
  {
    if s != "" && IsDigit(s[0]) then [s[0]] + DigitPrefix(s[1..]) else ""
  }

  const ULL_RANGE: nat := 0x1_0000_0000_0000_0000

  /**
    `std::stoull(s, nullptr, 10)`: leading white space, an optional sign, then as many digits as
    there are. None stands for the exceptions: no digits at all, or a value out of range.
    A minus sign negates modulo 2 to the 64.
   */
  function ParseULL(s: string): Option<nat> {
    var t := SkipSpaces(s);
    var negative := t != "" && t[0] == '-';
    var signed := t != "" && (t[0] == '-' || t[0] == '+');
    var digits := DigitPrefix(if signed then t[1..] else t);
    if digits == "" then None
    else if DigitsValue(digits) >= ULL_RANGE then None
    else if negative then Some((ULL_RANGE - DigitsValue(digits)) % ULL_RANGE)
    else Some(DigitsValue(digits))
  }

  lemma {:induction false} DigitPrefixOfDigits(s: string)
    requires AllDigits(s)
    ensures DigitPrefix(s) == s
  {
    if s != "" { DigitPrefixOfDigits(s[1..]); }
  }

  lemma ParseOfDecimal(n: nat)
    requires n < ULL_RANGE
    ensures ParseULL(Decimal(n)) == Some(n)
  {
    var s := Decimal(n);
    assert IsDigit(s[0]);
    assert SkipSpaces(s) == s;
    DigitPrefixOfDigits(s);
    DecimalValue(n);
  }

  /** Any text of digits, with leading zeros or not, is its value if that fits 64 bits, and otherwise an exception. */
  lemma ParseOfDigits(s: string)
    requires AllDigits(s) && s != ""
    ensures ParseULL(s) == if DigitsValue(s) < 0x1_0000_0000_0000_0000 then Some(DigitsValue(s)) else None
  {
    assert IsDigit(s[0]);
    assert SkipSpaces(s) == s;
    DigitPrefixOfDigits(s);
  }

  /** What is left of a string that travels through a NUL-terminated interface. */
  function UpToNul(s: string): string {
    if s == "" || s[0] == '\0' then "" else [s[0]] + UpToNul(s[1..])
  }

  lemma {:induction false} UpToNulOfPlain(s: string)
    requires '\0' !in s
    ensures UpToNul(s) == s
  {
    if s != "" { UpToNulOfPlain(s[1..]); }
  }
}
