/**
  The log output channel: bytes arrive from two pipes in chunks cut anywhere, and each chunk is
  shown at once, but for an unfinished character at its end.
 */
module LogOutput {
  import opened Text
  import opened Utf8

  /** The scan from `i`: past continuation bytes and whole characters, up to an unfinished one. */
  function Scan(buf: Bytes, i: nat): (r: nat)
    requires i <= |buf|
    ensures i <= r <= |buf|
    decreases |buf| - i
  {
    if i == |buf| then i
    else if IsTail(buf[i]) then Scan(buf, i + 1)
    else if Width(buf[i]) == 0 then |buf|
    else if i + Width(buf[i]) > |buf| then i
    else Scan(buf, i + Width(buf[i]))
  }

  function IncompleteIndex(buf: Bytes): nat {
    Scan(buf, if |buf| < 3 then 0 else |buf| - 3)
  }

  method IncompleteUtf8Index(buf: Bytes) returns (index: nat)
    ensures index == IncompleteIndex(buf)
  {
    var i := if |buf| < 3 then 0 else |buf| - 3;
    while i < |buf|
      invariant 0 <= i <= |buf| && Scan(buf, i) == IncompleteIndex(buf)
    {
      var ch := buf[i];
      if IsTail(ch) {
        i := i + 1;
        continue;
      }
      var leadIndex := i;
      if ch < 0x80 {
      } else if 0xC0 <= ch < 0xE0 {
        i := i + 1;
      } else if 0xE0 <= ch < 0xF0 {
        i := i + 2;
      } else if 0xF0 <= ch < 0xF8 {
        i := i + 3;
      } else {
        break;
      }
      if i >= |buf| { return leadIndex; }
      i := i + 1;
    }
    return |buf|;
  }

  // ---------------------------------------------------------------- characters

  /** The shape of one encoded character: a first byte that announces the length, and continuation bytes. */
  predicate Character(b: Bytes) {
    b != [] && !IsTail(b[0]) && Width(b[0]) == |b| && TailsFollow(b, |b|)
  }

  predicate Characters(chars: seq<Bytes>) { forall k :: 0 <= k < |chars| ==> Character(chars[k]) }

  function Joined(chars: seq<Bytes>): Bytes {
    if chars == [] then [] else chars[0] + Joined(chars[1..])
  }

  lemma {:induction false} JoinedConcat(a: seq<Bytes>, b: seq<Bytes>)
    ensures Joined(a + b) == Joined(a) + Joined(b)
  {
    if a == [] {
      assert a + b == b;
    } else {
      assert (a + b)[1..] == a[1..] + b;
      JoinedConcat(a[1..], b);
    }
  }

  lemma SplitAt(chars: seq<Bytes>, n: nat)
    requires n <= |chars|
    ensures Joined(chars) == Joined(chars[..n]) + Joined(chars[n..])
  {
    JoinedConcat(chars[..n], chars[n..]);
    assert chars[..n] + chars[n..] == chars;
  }

  lemma FirstOf(chars: seq<Bytes>, n: nat)
    requires 0 < n <= |chars|
    ensures Joined(chars[..n]) == chars[0] + Joined(chars[1..][..n - 1])
  {
    assert chars[..n][1..] == chars[1..][..n - 1];
  }

  /** The start of a character, but not all of it. */
  predicate Unfinished(p: Bytes, c: Bytes) { p < c }

  lemma {:induction false} ScanFromBoundary(before: Bytes, chars: seq<Bytes>, p: Bytes, c: Bytes)
    requires Characters(chars) && Character(c) && Unfinished(p, c)
    ensures Scan(before + Joined(chars) + p, |before|) == |before| + |Joined(chars)|
    decreases |chars|
  {
    var buf := before + Joined(chars) + p;
    if chars == [] {
      assert buf == before + p;
      if p != [] { assert buf[|before|] == c[0]; }
    } else {
      assert buf[|before|] == chars[0][0];
      assert before + chars[0] + Joined(chars[1..]) + p == buf;
      ScanFromBoundary(before + chars[0], chars[1..], p, c);
    }
  }

  lemma {:induction false} ScanPastTails(buf: Bytes, i: nat, j: nat)
    requires i <= j <= |buf| && forall k :: i <= k < j ==> IsTail(buf[k])
    ensures Scan(buf, i) == Scan(buf, j)
    decreases j - i
  {
    if i < j { ScanPastTails(buf, i + 1, j); }
  }

  /** From anywhere in a text, only continuation bytes lead to the next character. */
  lemma {:induction false} NextBoundary(chars: seq<Bytes>, i: nat) returns (n: nat)
    requires Characters(chars) && i <= |Joined(chars)|
    ensures n <= |chars| && i <= |Joined(chars[..n])| <= |Joined(chars)|
    ensures forall k :: i <= k < |Joined(chars[..n])| ==> IsTail(Joined(chars)[k])
    decreases |chars|
  {
    if i == 0 {
      assert chars[..0] == [];
      return 0;
    }
    var width := |chars[0]|;
    var m := 0;
    if i >= width {
      m := NextBoundary(chars[1..], i - width);
    } else {
      assert chars[1..][..0] == [];
    }
    n := m + 1;
    FirstOf(chars, n);
    assert Joined(chars) == chars[0] + Joined(chars[1..]);
    forall k | i <= k < |Joined(chars[..n])| ensures IsTail(Joined(chars)[k]) {
      if k < width {
        assert Joined(chars)[k] == chars[0][k];
      } else {
        assert Joined(chars)[k] == Joined(chars[1..])[k - width];
      }
    }
  }

  lemma ScanFromInside(chars: seq<Bytes>, p: Bytes, c: Bytes, start: nat)
    requires Characters(chars) && Character(c) && Unfinished(p, c) && start <= |Joined(chars)|
    ensures Scan(Joined(chars) + p, start) == |Joined(chars)|
  {
    var buf := Joined(chars) + p;
    var n := NextBoundary(chars, start);
    SplitAt(chars, n);
    var before := Joined(chars[..n]);
    assert forall k :: start <= k < |before| ==> buf[k] == Joined(chars)[k];
    ScanPastTails(buf, start, |before|);
    ScanFromBoundary(before, chars[n..], p, c);
  }

  /** A buffer that holds whole characters and the start of a further one is cut exactly between them. */
  lemma CutAtLastBoundary(chars: seq<Bytes>, p: Bytes, c: Bytes)
    requires Characters(chars) && Character(c) && Unfinished(p, c)
    ensures IncompleteIndex(Joined(chars) + p) == |Joined(chars)|
  {
    assert |c| <= 4;
    var buf := Joined(chars) + p;
    ScanFromInside(chars, p, c, if |buf| < 3 then 0 else |buf| - 3);
  }

  /** Whatever the bytes are, what is kept back starts with a first byte that announces more. */
  lemma {:induction false} KeptBack(buf: Bytes, i: nat)
    requires i <= |buf|
    ensures var r := Scan(buf, i); r < |buf| ==> Width(buf[r]) > |buf| - r
    decreases |buf| - i
  {
    if i < |buf| {
      if IsTail(buf[i]) { KeptBack(buf, i + 1); }
      else if 0 < Width(buf[i]) <= |buf| - i { KeptBack(buf, i + Width(buf[i])); }
    }
  }

  /** A prefix of a text is whole characters and the start of one more. */
  lemma {:induction false} PrefixOfText(chars: seq<Bytes>, b: Bytes) returns (n: nat)
    requires b <= Joined(chars)
    ensures n <= |chars| && Joined(chars[..n]) <= b
    ensures if n == |chars| then b == Joined(chars) else Unfinished(b[|Joined(chars[..n])|..], chars[n])
    decreases |chars|
  {
    if chars == [] {
      return 0;
    }
    var width := |chars[0]|;
    assert Joined(chars) == chars[0] + Joined(chars[1..]);
    if |b| < width {
      assert chars[..0] == [] && b[0..] == b == chars[0][..|b|];
      return 0;
    }
    assert b == chars[0] + b[width..];
    assert b[width..] <= Joined(chars[1..]);
    var m := PrefixOfText(chars[1..], b[width..]);
    n := m + 1;
    FirstOf(chars, n);
    assert b[|Joined(chars[..n])|..] == b[width..][|Joined(chars[1..][..m])|..];
  }

  /** A buffer that starts a text is cut after its last whole character. */
  lemma PieceOfText(chars: seq<Bytes>, buf: Bytes) returns (m: nat)
    requires Characters(chars) && buf <= Joined(chars)
    ensures m <= |chars| && buf[..IncompleteIndex(buf)] == Joined(chars[..m])
    ensures var p := buf[IncompleteIndex(buf)..]; if m == |chars| then p == [] else Unfinished(p, chars[m])
  {
    m := PrefixOfText(chars, buf);
    var whole := Joined(chars[..m]);
    var p := buf[|whole|..];
    assert buf == whole + p;
    if m == |chars| {
      assert chars[..m] == chars;
      assert Character([0]);
      CutAtLastBoundary(chars[..m], p, [0]);
    } else {
      CutAtLastBoundary(chars[..m], p, chars[m]);
    }
  }

  // ---------------------------------------------------------------- one stream

  /** The bytes kept back and the pieces shown. */
  datatype Sink = Sink(carry: Bytes, pieces: seq<Bytes>)

  const Fresh := Sink([], [])

  function Feed(s: Sink, data: Bytes): Sink {
    var buf := s.carry + data;
    var index := IncompleteIndex(buf);
    Sink(buf[index..], s.pieces + [buf[..index]])
  }

  function FeedAll(s: Sink, chunks: seq<Bytes>): Sink {
    if chunks == [] then s else Feed(FeedAll(s, chunks[..|chunks| - 1]), chunks[|chunks| - 1])
  }

  function Flat(pieces: seq<Bytes>): Bytes {
    if pieces == [] then [] else Flat(pieces[..|pieces| - 1]) + pieces[|pieces| - 1]
  }

  /** What is shown when every piece is decoded by itself. */
  function DecodePieces(pieces: seq<Bytes>): Option<seq<Scalar>> {
    if pieces == [] then Some([])
    else
      var before := DecodePieces(pieces[..|pieces| - 1]);
      var last := DecodeAll(pieces[|pieces| - 1]);
      if before.None? || last.None? then None else Some(before.value + last.value)
  }

  /** Nothing is lost, and never more than three bytes wait. */
  lemma {:induction false} NothingLost(chunks: seq<Bytes>)
    ensures var s := FeedAll(Fresh, chunks); Flat(s.pieces) + s.carry == Flat(chunks) && |s.carry| <= 3
    ensures |FeedAll(Fresh, chunks).pieces| == |chunks|
  {
    if chunks != [] {
      NothingLost(chunks[..|chunks| - 1]);
      var s := FeedAll(Fresh, chunks[..|chunks| - 1]);
      var t := FeedAll(Fresh, chunks);
      var buf := s.carry + chunks[|chunks| - 1];
      assert t.pieces[..|s.pieces|] == s.pieces;
      assert buf[..IncompleteIndex(buf)] + buf[IncompleteIndex(buf)..] == buf;
      assert Flat(t.pieces) + t.carry == Flat(s.pieces) + buf;
    }
  }

  // ---------------------------------------------------------------- a stream of text

  function Encoded(text: seq<Scalar>): seq<Bytes> {
    seq(|text|, i requires 0 <= i < |text| => Encode(text[i]))
  }

  lemma EncodedAreCharacters(text: seq<Scalar>)
    ensures Characters(Encoded(text))
  {
    forall k | 0 <= k < |text| ensures Character(Encoded(text)[k]) {
      EncodedShape(text[k]);
    }
  }

  lemma {:induction false} JoinedIsEncoded(text: seq<Scalar>)
    ensures Joined(Encoded(text)) == EncodeAll(text)
  {
    if text != [] {
      assert Encoded(text)[1..] == Encoded(text[1..]);
      JoinedIsEncoded(text[1..]);
    }
  }

  /** The first `k` characters have been shown, and what waits is the start of the next one. */
  ghost predicate ShownUpTo(s: Sink, text: seq<Scalar>, chars: seq<Bytes>, k: nat) {
    && k <= |text| && k <= |chars|
    && Flat(s.pieces) == Joined(chars[..k])
    && DecodePieces(s.pieces) == Some(text[..k])
    && if k == |chars| then s.carry == [] else Unfinished(s.carry, chars[k])
  }

  ghost predicate UpTo(s: Sink, text: seq<Scalar>, k: nat) { ShownUpTo(s, text, Encoded(text), k) }

  lemma PrefixCancels(a: Bytes, b: Bytes, c: Bytes)
    requires a + b <= a + c
    ensures b <= c
  {
    assert b == (a + b)[|a|..] && c == (a + c)[|a|..];
  }

  lemma OneMorePiece(pieces: seq<Bytes>, piece: Bytes)
    ensures Flat(pieces + [piece]) == Flat(pieces) + piece
    ensures DecodePieces(pieces).Some? && DecodeAll(piece).Some? ==>
      DecodePieces(pieces + [piece]) == Some(DecodePieces(pieces).value + DecodeAll(piece).value)
  {
    assert (pieces + [piece])[..|pieces|] == pieces;
  }

  /** Some of the characters of a text, as bytes and decoded. */
  lemma PartOfText(text: seq<Scalar>, k: nat, n: nat)
    requires k <= n <= |text|
    ensures DecodeAll(Joined(Encoded(text)[k..][..n - k])) == Some(text[k..n])
    ensures Joined(Encoded(text)[..n]) == Joined(Encoded(text)[..k]) + Joined(Encoded(text)[k..][..n - k])
  {
    var chars := Encoded(text);
    assert chars[k..][..n - k] == Encoded(text[k..n]);
    JoinedIsEncoded(text[k..n]);
    RoundTrip(text[k..n]);
    JoinedConcat(chars[..k], chars[k..][..n - k]);
    assert chars[..n] == chars[..k] + chars[k..][..n - k];
  }

  lemma BufferStartsRest(shown: Bytes, buf: Bytes, chars: seq<Bytes>, k: nat)
    requires k <= |chars| && shown == Joined(chars[..k]) && shown + buf <= Joined(chars)
    ensures buf <= Joined(chars[k..])
  {
    SplitAt(chars, k);
    PrefixCancels(shown, buf, Joined(chars[k..]));
  }

  lemma ShowsMore(s: Sink, text: seq<Scalar>, chars: seq<Bytes>, k: nat, n: nat, piece: Bytes, carry: Bytes)
    requires ShownUpTo(s, text, chars, k) && k <= n <= |text| && n <= |chars|
    requires DecodeAll(piece) == Some(text[k..n]) && Joined(chars[..n]) == Joined(chars[..k]) + piece
    requires if n == |chars| then carry == [] else Unfinished(carry, chars[n])
    ensures ShownUpTo(Sink(carry, s.pieces + [piece]), text, chars, n)
  {
    OneMorePiece(s.pieces, piece);
    assert text[..n] == text[..k] + text[k..n];
  }

  /** Where the buffer that holds the next chunk is cut. */
  lemma NextPiece(shown: Bytes, buf: Bytes, chars: seq<Bytes>, k: nat) returns (m: nat)
    requires Characters(chars) && k <= |chars| && shown == Joined(chars[..k]) && shown + buf <= Joined(chars)
    ensures k + m <= |chars| && buf[..IncompleteIndex(buf)] == Joined(chars[k..][..m])
    ensures var p := buf[IncompleteIndex(buf)..]; if k + m == |chars| then p == [] else Unfinished(p, chars[k + m])
  {
    BufferStartsRest(shown, buf, chars, k);
    m := PieceOfText(chars[k..], buf);
  }

  /** One more chunk of a text shows all characters that it completes. */
  lemma FeedText(s: Sink, text: seq<Scalar>, k: nat, data: Bytes) returns (n: nat)
    requires UpTo(s, text, k) && Flat(s.pieces) + (s.carry + data) <= Joined(Encoded(text))
    ensures UpTo(Feed(s, data), text, n)
  {
    var buf, chars := s.carry + data, Encoded(text);
    EncodedAreCharacters(text);
    var m := NextPiece(Flat(s.pieces), buf, chars, k);
    n := k + m;
    PartOfText(text, k, n);
    ShowsMore(s, text, chars, k, n, buf[..IncompleteIndex(buf)], buf[IncompleteIndex(buf)..]);
  }

  lemma LastChunk(chunks: seq<Bytes>)
    requires chunks != []
    ensures
      var s := FeedAll(Fresh, chunks[..|chunks| - 1]);
      && Flat(s.pieces) + (s.carry + chunks[|chunks| - 1]) == Flat(chunks)
      && Flat(chunks[..|chunks| - 1]) <= Flat(chunks)
  {
    var before, last := chunks[..|chunks| - 1], chunks[|chunks| - 1];
    NothingLost(before);
    var s := FeedAll(Fresh, before);
    assert Flat(s.pieces) + (s.carry + last) == (Flat(s.pieces) + s.carry) + last;
  }

  lemma NothingShown(text: seq<Scalar>)
    ensures UpTo(Fresh, text, 0)
  {
    assert text[..0] == [] && Encoded(text)[..0] == [];
    EncodedAreCharacters(text);
    if text != [] { assert Character(Encoded(text)[0]); }
  }

  /** However a text, or a part of it, is cut into chunks: every character is shown as soon as it is complete. */
  lemma {:induction false} TextIsShown(text: seq<Scalar>, chunks: seq<Bytes>) returns (k: nat)
    requires Flat(chunks) <= EncodeAll(text)
    ensures UpTo(FeedAll(Fresh, chunks), text, k)
  {
    if chunks == [] {
      NothingShown(text);
      return 0;
    }
    var before := chunks[..|chunks| - 1];
    LastChunk(chunks);
    JoinedIsEncoded(text);
    k := TextIsShown(text, before);
    k := FeedText(FeedAll(Fresh, before), text, k, chunks[|chunks| - 1]);
  }

  lemma FirstFits(chars: seq<Bytes>)
    requires Characters(chars) && chars != []
    ensures 1 <= |chars[0]| <= |Joined(chars)|
  {
  }

  lemma NothingWaits(text: seq<Scalar>, s: Sink, k: nat)
    requires UpTo(s, text, k) && Flat(s.pieces) + s.carry == Joined(Encoded(text))
    ensures k == |text|
  {
    SplitAt(Encoded(text), k);
    EncodedAreCharacters(text);
    if k < |text| { FirstFits(Encoded(text)[k..]); }
  }

  /** A whole text, cut anywhere, is shown whole. */
  lemma WholeTextIsShown(text: seq<Scalar>, chunks: seq<Bytes>)
    requires Flat(chunks) == EncodeAll(text)
    ensures DecodePieces(FeedAll(Fresh, chunks).pieces) == Some(text) && FeedAll(Fresh, chunks).carry == []
  {
    var k := TextIsShown(text, chunks);
    NothingLost(chunks);
    JoinedIsEncoded(text);
    NothingWaits(text, FeedAll(Fresh, chunks), k);
    assert text[..|text|] == text;
  }

  // ---------------------------------------------------------------- the channel and its two streams

  datatype Stream = Stdout | Stderr

  datatype Shown = Shown(stream: Stream, bytes: Bytes)

  function Of(channel: seq<Shown>, stream: Stream): seq<Bytes> {
    if channel == [] then []
    else
      var last := channel[|channel| - 1];
      Of(channel[..|channel| - 1], stream) + if last.stream == stream then [last.bytes] else []
  }

  lemma OfMore(channel: seq<Shown>, more: Shown, stream: Stream)
    ensures Of(channel + [more], stream) == Of(channel, stream) + if more.stream == stream then [more.bytes] else []
  {
    assert (channel + [more])[..|channel|] == channel;
  }

  class LogOutputChannel {
    var incompleteStdout: Bytes
    var incompleteStderr: Bytes
    var channel: seq<Shown>

    function SinkOf(stream: Stream): Sink
      reads this
    {
      Sink(if stream.Stdout? then incompleteStdout else incompleteStderr, Of(channel, stream))
    }

    constructor ()
      ensures SinkOf(Stdout) == Fresh && SinkOf(Stderr) == Fresh
    {
      incompleteStdout, incompleteStderr, channel := [], [], [];
    }

    method OnStdout(data: Bytes)
      modifies this
      ensures SinkOf(Stdout) == Feed(old(SinkOf(Stdout)), data)
      ensures SinkOf(Stderr) == old(SinkOf(Stderr))
    {
      var buf := incompleteStdout + data;
      var index := IncompleteUtf8Index(buf);
      incompleteStdout := buf[index..];
      OfMore(channel, Shown(Stdout, buf[..index]), Stdout);
      OfMore(channel, Shown(Stdout, buf[..index]), Stderr);
      channel := channel + [Shown(Stdout, buf[..index])];
    }

    method OnStderr(data: Bytes)
      modifies this
      ensures SinkOf(Stderr) == Feed(old(SinkOf(Stderr)), data)
      ensures SinkOf(Stdout) == old(SinkOf(Stdout))
    {
      var buf := incompleteStderr + data;
      var index := IncompleteUtf8Index(buf);
      incompleteStderr := buf[index..];
      OfMore(channel, Shown(Stderr, buf[..index]), Stdout);
      OfMore(channel, Shown(Stderr, buf[..index]), Stderr);
      channel := channel + [Shown(Stderr, buf[..index])];
    }
  }
}
