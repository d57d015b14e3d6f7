/** client.c: when the way the server's bytes are cut into `recv` results matters to what the client prints. */
module ClientChunking {
  import opened Bytes
  import opened ChatProto
  import opened Framing
  import opened Client

  /** Pieces `recv` can return one after another to a reader that starts with an empty buffer: none is empty
      and each fits the room left. */
  ghost predicate Receivable(chunks: seq<Text>)
  {
    chunks == []
    || (var front, last := chunks[..|chunks| - 1], chunks[|chunks| - 1];
        Receivable(front) && last != [] && |Digest([], front).buf| + |last| <= RECV_CAP)
  }

  /** `chunks` is a way to receive `stream`. */
  ghost predicate Cuts(chunks: seq<Text>, stream: Text) { Receivable(chunks) && Concat(chunks) == stream }

  /** However the stream is cut, the client prints the same frames and keeps the same bytes. */
  ghost predicate CutsAgree(stream: Text)
  {
    forall a, b :: Cuts(a, stream) && Cuts(b, stream) ==> Digest([], a) == Digest([], b)
  }

  /** No bad header, or one that ends the stream. */
  predicate Harmless(stream: Text)
  {
    !ParseAll(stream).bad || |ParseAll(stream).rest| == HEADER_SIZE
  }

  /** What a client makes of a whole stream received at once. */
  function AtOnce(stream: Text): Digested
  {
    var p := ParseAll(stream);
    Digested(p.frames, if p.bad then [] else p.rest)
  }

  // ---- a harmless stream ----

  /** Up to the first bad header nothing has been forgotten. */
  lemma CleanCut(chunks: seq<Text>)
    requires !ParseAll(Concat(chunks)).bad
    ensures !Feed(chunks).closed && Digest([], chunks) == AtOnce(Concat(chunks))
  {
    hide ParseAll;
    ChunkingIrrelevant(chunks);
    var n := Consumed(chunks);
    ConcatPrefix(chunks, n);
    var got := Concat(chunks[..n]);
    var left := Concat(chunks)[|got|..];
    assert Concat(chunks) == got + left;
    ParseSplit(got, left);
    assert chunks[..|chunks|] == chunks;
    CleanStreamDigested(chunks);
  }

  lemma HarmlessCut(chunks: seq<Text>, stream: Text)
    requires Cuts(chunks, stream) && Harmless(stream)
    ensures Digest([], chunks) == AtOnce(stream)
  {
    hide ParseAll;
    if !ParseAll(stream).bad {
      CleanCut(chunks);
    } else {
      NothingParsed();
      var front, last := chunks[..|chunks| - 1], chunks[|chunks| - 1];
      ParseSplit(Concat(front), last);
      BadRest(Concat(front));
      CleanCut(front);
    }
  }

  lemma NothingParsed()
    ensures ParseAll([]) == Parsed([], [], false)
  {
    PeekEmpty();
  }

  lemma BadRest(stream: Text)
    ensures ParseAll(stream).bad ==> |ParseAll(stream).rest| >= HEADER_SIZE
  {
    ParseSound(stream);
  }

  // ---- cutting a stream ----

  lemma {:induction false} ConcatSum(a: seq<Text>, b: seq<Text>)
    ensures Concat(a + b) == Concat(a) + Concat(b)
    decreases |b|
  {
    if b == [] {
      assert a + b == a;
    } else {
      var front := b[..|b| - 1];
      assert (a + b)[..|a + b| - 1] == a + front;
      ConcatSum(a, front);
    }
  }

  /** What waits between two receives is never a complete frame or a bad header. */
  lemma BufferShort(chunks: seq<Text>)
    ensures Peek(Digest([], chunks).buf).Short?
  {
    hide Peek, ParseAll;
    PeekEmpty();
    if chunks != [] {
      ParseSound(Digest([], chunks[..|chunks| - 1]).buf + chunks[|chunks| - 1]);
    }
  }

  function Bytewise(stream: Text): (chunks: seq<Text>)
  {
    if stream == [] then [] else Bytewise(stream[..|stream| - 1]) + [[stream[|stream| - 1]]]
  }

  /** Byte by byte is always a way. */
  lemma {:induction false} BytewiseCuts(stream: Text)
    ensures Cuts(Bytewise(stream), stream)
    decreases |stream|
  {
    if stream != [] {
      var front := stream[..|stream| - 1];
      BytewiseCuts(front);
      BufferShort(Bytewise(front));
      ShortLeavesRoom(Digest([], Bytewise(front)).buf);
      assert Bytewise(stream)[..|Bytewise(front)|] == Bytewise(front);
      assert front + [stream[|stream| - 1]] == stream;
    }
  }

  // ---- a harmful stream ----

  /** The stream up to and including its bad header, the last piece taking `d` bytes of what is not frames. */
  function UpToBad(stream: Text, d: nat): seq<Text>
    requires HEADER_SIZE <= d <= |ParseAll(stream).rest|
  {
    var p := ParseAll(stream);
    Bytewise(stream[..|stream| - |p.rest|] + p.rest[..HEADER_SIZE - 1]) + [p.rest[HEADER_SIZE - 1..d]]
  }

  lemma PrefixParsed(stream: Text, d: nat)
    requires ParseAll(stream).bad && d <= |ParseAll(stream).rest|
    ensures var p := ParseAll(stream);
            && |p.rest| <= |stream| && p.rest == stream[|stream| - |p.rest|..]
            && ParseAll(stream[..|stream| - |p.rest|] + p.rest[..d])
                 == Parsed(p.frames, p.rest[..d], d >= HEADER_SIZE)
  {
    hide Peek, ParseAll, EncodeAll;
    ParseSound(stream);
    var p := ParseAll(stream);
    assert stream[..|stream| - |p.rest|] == EncodeAll(p.frames);
    PeekPrefix(p.rest, d);
    ParseUnique(p.frames, p.rest[..d]);
  }

  lemma PeekPrefix(t: Text, d: nat)
    requires Peek(t).Bad? && d <= |t|
    ensures Peek(t[..d]) == if d < HEADER_SIZE then Short else Bad
  {
    assert d >= HEADER_SIZE ==> t[..d][..HEADER_SIZE] == t[..HEADER_SIZE];
  }

  /** Up to there the stream can be received, and the client then starts over. */
  lemma ReachesBad(stream: Text, d: nat)
    requires ParseAll(stream).bad && HEADER_SIZE <= d <= |ParseAll(stream).rest| && d <= HEADER_SIZE + 1
    ensures var pieces, p := UpToBad(stream, d), ParseAll(stream);
            && Receivable(pieces) && Concat(pieces) == stream[..|stream| - |p.rest| + d]
            && Feed(pieces).closed && Feed(pieces).frames == p.frames && !Feed(pieces[..|pieces| - 1]).closed
  {
    hide ParseAll, Feed, Receivable, Concat, Digest, Bytewise;
    var p := ParseAll(stream);
    var n := |stream| - |p.rest|;
    PrefixParsed(stream, HEADER_SIZE - 1);
    PrefixParsed(stream, d);
    var before := stream[..n] + p.rest[..HEADER_SIZE - 1];
    var head, last := Bytewise(before), p.rest[HEADER_SIZE - 1..d];
    BytewiseCuts(before);
    CleanCut(head);
    assert before + last == stream[..n] + p.rest[..d] == stream[..n + d];
    assert (head + [last])[..|head|] == head;
    OnePieceMore(head, last);
    FeedBad(head, last);
  }

  lemma OnePieceMore(chunks: seq<Text>, last: Text)
    requires Receivable(chunks) && last != [] && |Digest([], chunks).buf| + |last| <= RECV_CAP
    ensures Receivable(chunks + [last]) && Concat(chunks + [last]) == Concat(chunks) + last
  {
    assert (chunks + [last])[..|chunks|] == chunks;
  }

  /** After the bad header the client reads the bytes not yet received as a stream of its own. */
  lemma ThenStartsOver(stream: Text, d: nat, c: seq<Text>)
    requires ParseAll(stream).bad && HEADER_SIZE <= d <= |ParseAll(stream).rest| && d <= HEADER_SIZE + 1
    requires Cuts(c, ParseAll(stream).rest[d..])
    ensures Cuts(UpToBad(stream, d) + c, stream)
    ensures Digest([], UpToBad(stream, d) + c)
         == Digested(ParseAll(stream).frames + Digest([], c).frames, Digest([], c).buf)
  {
    hide ParseAll, Feed, Digest, Receivable, Concat;
    var pieces, p := UpToBad(stream, d), ParseAll(stream);
    ReachesBad(stream, d);
    StartsOver(pieces, c);
    ConcatSum(pieces, c);
    PrefixParsed(stream, d);
    assert stream[..|stream| - |p.rest| + d] + p.rest[d..] == stream;
  }

  lemma FeedBad(head: seq<Text>, last: Text)
    requires !Feed(head).closed && ParseAll(Concat(head) + last).bad
    ensures Feed(head + [last]).closed && Feed(head + [last]).frames == ParseAll(Concat(head) + last).frames
  {
    hide ParseAll;
    ChunkingIrrelevant(head);
    assert head[..|head|] == head && (head + [last])[..|head|] == head;
    ParseSplit(Concat(head), last);
  }

  lemma {:induction false} StartsOver(head: seq<Text>, c: seq<Text>)
    requires head != [] && Feed(head).closed && !Feed(head[..|head| - 1]).closed
    requires Receivable(head) && Receivable(c)
    ensures Receivable(head + c)
    ensures Digest([], head + c) == Digested(Feed(head).frames + Digest([], c).frames, Digest([], c).buf)
    decreases |c|
  {
    hide Digest, Feed;
    BadHeaderForgets(head, c);
    if c == [] {
      assert head + c == head;
    } else {
      var front := c[..|c| - 1];
      StartsOver(head, front);
      assert (head + c)[..|head + c| - 1] == head + front;
    }
  }

  /** What a client has made of a harmless stream tells how long the stream was, up to a header. */
  lemma SizeOf(stream: Text)
    requires Harmless(stream)
    ensures var d := AtOnce(stream);
            AllFit(d.frames)
            && |stream| == |EncodeAll(d.frames)| + |d.buf| + if ParseAll(stream).bad then HEADER_SIZE else 0
  {
    hide ParseAll, EncodeAll;
    ParseSound(stream);
  }

  lemma SameAfter(fs: seq<Frame>, d: Digested, e: Digested)
    requires d != e
    ensures Digested(fs + d.frames, d.buf) != Digested(fs + e.frames, e.buf)
  {
    if fs + d.frames == fs + e.frames {
      assert d.frames == (fs + d.frames)[|fs|..] == (fs + e.frames)[|fs|..] == e.frames;
    }
  }

  /** Two ways to receive a harmful stream that the client can tell apart. */
  lemma {:induction false} HarmfulDiffers(stream: Text) returns (a: seq<Text>, b: seq<Text>)
    requires !Harmless(stream)
    ensures Cuts(a, stream) && Cuts(b, stream) && Digest([], a) != Digest([], b)
    decreases |stream|
  {
    hide ParseAll, Cuts, Digest, EncodeAll;
    var p := ParseAll(stream);
    var n := HEADER_SIZE;
    BadRest(stream);
    PrefixParsed(stream, 0);
    var u, v := p.rest[n..], p.rest[n + 1..];
    if !Harmless(u) {
      a, b := HarmfulDiffers(u);
      SameAfter(p.frames, Digest([], a), Digest([], b));
      ThenStartsOver(stream, n, a);
      ThenStartsOver(stream, n, b);
      a, b := UpToBad(stream, n) + a, UpToBad(stream, n) + b;
    } else if !Harmless(v) {
      a, b := HarmfulDiffers(v);
      SameAfter(p.frames, Digest([], a), Digest([], b));
      ThenStartsOver(stream, n + 1, a);
      ThenStartsOver(stream, n + 1, b);
      a, b := UpToBad(stream, n + 1) + a, UpToBad(stream, n + 1) + b;
    } else {
      a, b := Bytewise(u), Bytewise(v);
      BytewiseCuts(u);
      BytewiseCuts(v);
      HarmlessCut(a, u);
      HarmlessCut(b, v);
      SizeOf(u);
      SizeOf(v);
      SameAfter(p.frames, Digest([], a), Digest([], b));
      ThenStartsOver(stream, n, a);
      ThenStartsOver(stream, n + 1, b);
      a, b := UpToBad(stream, n) + a, UpToBad(stream, n + 1) + b;
    }
  }

  /** The exact law: the chunking is irrelevant to a client if and only if the stream has no bad header, or
      nothing follows its first one. A single byte behind it is enough to tell two cuts apart. */
  lemma CutsAgreeExactly(stream: Text)
    ensures CutsAgree(stream) <==> Harmless(stream)
  {
    hide Cuts, Harmless, Digest;
    if Harmless(stream) {
      forall a, b | Cuts(a, stream) && Cuts(b, stream) ensures Digest([], a) == Digest([], b)
      {
        HarmlessCut(a, stream);
        HarmlessCut(b, stream);
      }
    } else {
      var a, b := HarmfulDiffers(stream);
    }
  }
}
