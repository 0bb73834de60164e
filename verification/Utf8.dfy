/** UTF-8 as RFC 3629 section 3 defines it: one to four bytes for each character. */
module Utf8 {
  import opened Text

  type Byte = b: int | 0 <= b < 256
  type Bytes = seq<Byte>

  predicate IsScalar(c: int) {
    0 <= c <= 0x10FFFF && !(0xD800 <= c <= 0xDFFF)
  }

  type Scalar = c: int | 0 <= c <= 0x10FFFF && !(0xD800 <= c <= 0xDFFF)

  /** Six payload bits in a continuation byte. */
  function Tail(c: nat): Byte { 0x80 + c % 0x40 }

  function Encode(c: Scalar): Bytes {
    if c < 0x80 then [c]
    else if c < 0x800 then [0xC0 + c / 0x40, Tail(c)]
    else if c < 0x1_0000 then [0xE0 + c / 0x40 / 0x40, Tail(c / 0x40), Tail(c)]
    else [0xF0 + c / 0x40 / 0x40 / 0x40, Tail(c / 0x40 / 0x40), Tail(c / 0x40), Tail(c)]
  }

  function EncodeAll(text: seq<Scalar>): Bytes {
    if text == [] then [] else Encode(text[0]) + EncodeAll(text[1..])
  }

  /** 10xxxxxx */
  predicate IsTail(b: Byte) { 0x80 <= b < 0xC0 }

  /** The length that a first byte announces (0xxxxxxx, 110xxxxx, 1110xxxx, 11110xxx); 0 if it announces none. */
  function Width(b: Byte): nat {
    if b < 0x80 then 1
    else if 0xC0 <= b < 0xE0 then 2
    else if 0xE0 <= b < 0xF0 then 3
    else if 0xF0 <= b < 0xF8 then 4
    else 0
  }

  /** The bit masks by which programs tell these bytes apart are these ranges. */
  lemma MasksAreRanges(b: bv8)
    ensures b & 0xC0 == 0x80 <==> 0x80 <= b < 0xC0
    ensures b & 0x80 == 0 <==> b < 0x80
    ensures b & 0xE0 == 0xC0 <==> 0xC0 <= b < 0xE0
    ensures b & 0xF0 == 0xE0 <==> 0xE0 <= b < 0xF0
    ensures b & 0xF8 == 0xF0 <==> 0xF0 <= b < 0xF8
  {
  }

  predicate TailsFollow(s: Bytes, n: nat) {
    n <= |s| && forall k :: 1 <= k < n ==> IsTail(s[k])
  }

  /** A byte without its marking bits. */
  function Bits(b: Byte, mark: int): int { b - mark }

  /** The number in the payload bits. */
  function Payload(s: Bytes, n: nat): nat
    requires 1 <= n <= 4 && TailsFollow(s, n) && Width(s[0]) == n
  {
    if n == 1 then s[0]
    else if n == 2 then Bits(s[0], 0xC0) * 0x40 + Bits(s[1], 0x80)
    else if n == 3 then (Bits(s[0], 0xE0) * 0x40 + Bits(s[1], 0x80)) * 0x40 + Bits(s[2], 0x80)
    else ((Bits(s[0], 0xF0) * 0x40 + Bits(s[1], 0x80)) * 0x40 + Bits(s[2], 0x80)) * 0x40 + Bits(s[3], 0x80)
  }

  /** The character at the front, if the bytes start with a well-formed one: not overlong, and a scalar value. */
  function DecodeOne(s: Bytes): Option<Scalar> {
    if s == [] || Width(s[0]) == 0 || !TailsFollow(s, Width(s[0])) then None
    else
      var c := Payload(s, Width(s[0]));
      if IsScalar(c) && |Encode(c)| == Width(s[0]) then Some(c) else None
  }

  function DecodeAll(s: Bytes): Option<seq<Scalar>> {
    if s == [] then Some([])
    else if DecodeOne(s).None? then None
    else
      var rest := DecodeAll(s[Width(s[0])..]);
      if rest.None? then None else Some([DecodeOne(s).value] + rest.value)
  }

  /** The first byte of a character announces its length, and only the others are continuation bytes. */
  lemma EncodedShape(c: Scalar)
    ensures 1 <= |Encode(c)| <= 4 && Width(Encode(c)[0]) == |Encode(c)| && !IsTail(Encode(c)[0])
    ensures TailsFollow(Encode(c), |Encode(c)|)
  {
  }

  lemma PayloadOfEncoded(c: Scalar, rest: Bytes)
    ensures
      var s := Encode(c) + rest;
      Width(s[0]) == |Encode(c)| && TailsFollow(s, Width(s[0])) && Payload(s, Width(s[0])) == c
  {
    EncodedShape(c);
    var s := Encode(c) + rest;
    assert forall k :: 0 <= k < |Encode(c)| ==> s[k] == Encode(c)[k];
    assert c == c / 0x40 * 0x40 + c % 0x40;
    if c >= 0x800 {
      assert c / 0x40 == c / 0x40 / 0x40 * 0x40 + c / 0x40 % 0x40;
      if c >= 0x1_0000 {
        assert c / 0x40 / 0x40 == c / 0x40 / 0x40 / 0x40 * 0x40 + c / 0x40 / 0x40 % 0x40;
      }
    }
  }

  lemma DecodeEncoded(c: Scalar, rest: Bytes)
    ensures DecodeOne(Encode(c) + rest) == Some(c)
  {
    PayloadOfEncoded(c, rest);
  }

  lemma LastDigit(q: nat, d: nat)
    requires d < 0x40
    ensures (q * 0x40 + d) / 0x40 == q && (q * 0x40 + d) % 0x40 == d
  {
  }

  lemma EncodeOfDigits(h: nat, d: nat, e: nat, f: nat)
    requires d < 0x40 && e < 0x40 && f < 0x40
    ensures var c := h * 0x40 + d;
      IsScalar(c) && |Encode(c)| == 2 ==> Encode(c) == [0xC0 + h, 0x80 + d]
    ensures var c := (h * 0x40 + d) * 0x40 + e;
      IsScalar(c) && |Encode(c)| == 3 ==> Encode(c) == [0xE0 + h, 0x80 + d, 0x80 + e]
    ensures var c := ((h * 0x40 + d) * 0x40 + e) * 0x40 + f;
      IsScalar(c) && |Encode(c)| == 4 ==> Encode(c) == [0xF0 + h, 0x80 + d, 0x80 + e, 0x80 + f]
  {
    LastDigit(h, d);
    LastDigit(h * 0x40 + d, e);
    LastDigit((h * 0x40 + d) * 0x40 + e, f);
  }

  lemma EncodeDecoded(s: Bytes)
    requires DecodeOne(s).Some?
    ensures Encode(DecodeOne(s).value) == s[..Width(s[0])]
  {
    var n := Width(s[0]);
    assert forall k :: 1 <= k < n ==> IsTail(s[k]);
    if n == 1 {
      assert s[..1] == [s[0]];
    } else if n == 2 {
      EncodeOfDigits(s[0] as int - 0xC0, s[1] as int - 0x80, 0, 0);
      assert s[..2] == [s[0], s[1]];
    } else if n == 3 {
      EncodeOfDigits(s[0] as int - 0xE0, s[1] as int - 0x80, s[2] as int - 0x80, 0);
      assert s[..3] == [s[0], s[1], s[2]];
    } else {
      EncodeOfDigits(s[0] as int - 0xF0, s[1] as int - 0x80, s[2] as int - 0x80, s[3] as int - 0x80);
      assert s[..4] == [s[0], s[1], s[2], s[3]];
    }
  }

  lemma {:induction false} RoundTrip(text: seq<Scalar>)
    ensures DecodeAll(EncodeAll(text)) == Some(text)
  {
    if text != [] {
      var s := EncodeAll(text);
      DecodeEncoded(text[0], EncodeAll(text[1..]));
      PayloadOfEncoded(text[0], EncodeAll(text[1..]));
      assert s[Width(s[0])..] == EncodeAll(text[1..]);
      RoundTrip(text[1..]);
      assert [text[0]] + text[1..] == text;
    }
  }

  /** Only the encoding of a text decodes to it. */
  lemma {:induction false} RoundTripBack(s: Bytes)
    ensures DecodeAll(s).Some? ==> EncodeAll(DecodeAll(s).value) == s
  {
    if s != [] && DecodeAll(s).Some? {
      EncodeDecoded(s);
      RoundTripBack(s[Width(s[0])..]);
    }
  }

  lemma {:induction false} EncodeAllConcat(a: seq<Scalar>, b: seq<Scalar>)
    ensures EncodeAll(a + b) == EncodeAll(a) + EncodeAll(b)
  {
    if a == [] {
      assert a + b == b;
    } else {
      assert (a + b)[1..] == a[1..] + b;
      EncodeAllConcat(a[1..], b);
    }
  }

  /** The byte sequences that RFC 3629 section 4 allows for one character. */
  predicate OneCharacter(s: Bytes) {
    || (|s| == 1 && s[0] <= 0x7F)
    || (|s| == 2 && 0xC2 <= s[0] <= 0xDF && 0x80 <= s[1] <= 0xBF)
    || (|s| == 3 && s[0] == 0xE0 && 0xA0 <= s[1] <= 0xBF && 0x80 <= s[2] <= 0xBF)
    || (|s| == 3 && 0xE1 <= s[0] <= 0xEC && 0x80 <= s[1] <= 0xBF && 0x80 <= s[2] <= 0xBF)
    || (|s| == 3 && s[0] == 0xED && 0x80 <= s[1] <= 0x9F && 0x80 <= s[2] <= 0xBF)
    || (|s| == 3 && 0xEE <= s[0] <= 0xEF && 0x80 <= s[1] <= 0xBF && 0x80 <= s[2] <= 0xBF)
    || (|s| == 4 && s[0] == 0xF0 && 0x90 <= s[1] <= 0xBF && 0x80 <= s[2] <= 0xBF && 0x80 <= s[3] <= 0xBF)
    || (|s| == 4 && 0xF1 <= s[0] <= 0xF3 && 0x80 <= s[1] <= 0xBF && 0x80 <= s[2] <= 0xBF && 0x80 <= s[3] <= 0xBF)
    || (|s| == 4 && s[0] == 0xF4 && 0x80 <= s[1] <= 0x8F && 0x80 <= s[2] <= 0xBF && 0x80 <= s[3] <= 0xBF)
  }

  /** Exactly these sequences are characters. */
  lemma EncodesExactly(s: Bytes)
    ensures (exists c: Scalar :: Encode(c) == s) <==> OneCharacter(s)
  {
    if OneCharacter(s) {
      assert TailsFollow(s, |s|) && Width(s[0]) == |s|;
      PayloadIsScalar(s);
      EncodeDecoded(s);
      assert s[..|s|] == s;
    }
    forall c: Scalar | Encode(c) == s ensures OneCharacter(s) {
      EncodedIsCharacter(c);
    }
  }

  lemma PayloadIsScalar(s: Bytes)
    requires OneCharacter(s) && TailsFollow(s, |s|) && Width(s[0]) == |s|
    ensures DecodeOne(s).Some?
  {
  }

  lemma EncodedIsCharacter(c: Scalar)
    ensures OneCharacter(Encode(c))
  {
  }

  /** The examples of RFC 3629 section 7. */
  lemma Examples()
    ensures Encode(0x41) == [0x41] && Encode(0x2262) == [0xE2, 0x89, 0xA2] && Encode(0x391) == [0xCE, 0x91]
    ensures Encode(0xD55C) == [0xED, 0x95, 0x9C] && Encode(0x65E5) == [0xE6, 0x97, 0xA5]
    ensures Encode(0x233B4) == [0xF0, 0xA3, 0x8E, 0xB4]
  {
  }
}
