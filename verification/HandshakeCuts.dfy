/** client.c: when the way the server's bytes are cut into `recv` results decides whether the handshake
    succeeds. */
module HandshakeCuts {
  import opened Bytes
  import opened ChatProto
  import opened Framing
  import opened Client
  import opened ClientChunking

  /** The handshake on these pieces succeeds: at some boundary what has come is exactly a greeting. */
  ghost predicate Shakes(chunks: seq<Text>)
  {
    exists k :: 0 <= k <= |chunks| && Greeted(Concat(chunks[..k]))
  }

  /** A greeting that ends in a frame as long as the receive buffer. */
  ghost predicate Anchor(stream: Text)
  {
    && Greeted(stream)
    && var fs := ParseAll(stream).frames;
       fs != [] && |fs[|fs| - 1].body| == MAX_BODY
  }

  /** The stream begins with such a greeting. */
  ghost predicate Anchored(stream: Text)
  {
    exists n :: 0 <= n <= |stream| && Anchor(stream[..n])
  }

  // ---- what `Handshake` decides on ----

  /** The method's verdict is this predicate of all the pieces, read or not: it stops with success at a
      greeting, and with failure only when none can come any more or nothing is left. */
  lemma VerdictIsShakes(chunks: seq<Text>, n: nat, ok: bool)
    requires n <= |chunks| && NotGreetedBefore(chunks[..n]) && (ok <==> Greeted(Concat(chunks[..n])))
    requires !ok ==> !Hopeful(Concat(chunks[..n])) || n == |chunks|
    ensures Shakes(chunks) <==> ok
  {
    hide Greeted, Hopeful, NotGreetedBefore;
    if ok {
      assert Greeted(Concat(chunks[..n]));
    } else {
      forall k | 0 <= k <= |chunks| ensures !Greeted(Concat(chunks[..k]))
      {
        if k < n {
          NotBefore(chunks, n, k);
        } else if k > n {
          assert chunks[..k][..n] == chunks[..n];
          ConcatPrefix(chunks[..k], n);
          NotLater(Concat(chunks[..n]), Concat(chunks[..k]));
        }
      }
    }
  }

  lemma NotBefore(chunks: seq<Text>, n: nat, k: nat)
    requires k < n <= |chunks| && NotGreetedBefore(chunks[..n])
    ensures !Greeted(Concat(chunks[..k]))
  {
    hide Greeted;
    assert chunks[..n][..k] == chunks[..k];
  }

  lemma NotLater(a: Text, whole: Text)
    requires a <= whole && !Hopeful(a)
    ensures !Greeted(whole)
  {
    hide Greeted, Hopeful;
    if Greeted(whole) { GreetedWasHopeful(a, whole); }
  }

  /** Every part of a greeting is hopeful. */
  lemma GreetedWasHopeful(a: Text, whole: Text)
    requires a <= whole && Greeted(whole)
    ensures Hopeful(a)
  {
    hide Greeting, Hopeful, EncodeAll;
    GreetedIs(whole);
    var fs := ParseAll(whole).frames;
    assert whole == a + whole[|a|..];
    GreetingNeverFails(fs, a, whole[|a|..]);
  }

  lemma GreetedIs(stream: Text)
    requires Greeted(stream)
    ensures var fs := ParseAll(stream).frames; AllFit(fs) && Greeting(fs) && stream == EncodeAll(fs)
  {
    hide ParseAll, EncodeAll, Greeting;
    ParseSound(stream);
    var fs := ParseAll(stream).frames;
    assert EncodeAll(fs) + [] == EncodeAll(fs);
  }

  // ---- a full frame forces a boundary ----

  /** No piece reaches across the end of an anchor: up to there the buffer has room for nothing more. */
  lemma PieceStopsAtAnchor(chunks: seq<Text>, chunk: Text, whole: Text)
    requires Anchor(whole) && Receivable(chunks + [chunk]) && Concat(chunks) <= whole && Concat(chunks) != whole
    ensures |Concat(chunks)| + |chunk| <= |whole|
  {
    hide ParseAll, Greeting, EncodeAll, Receivable, Encode, Digest;
    GreetedIs(whole);
    var fs, m := ParseAll(whole).frames, |Concat(chunks)|;
    var j := |fs| - 1;
    PartParsed(fs, m);
    var p := ParseAll(Concat(chunks));
    assert Concat(chunks) == whole[..m];
    CleanCut(chunks);
    ParseSound(Concat(chunks));
    LastPiece(chunks, chunk);
    assert p.frames <= fs && |p.frames| <= j;
    assert p.frames == fs[..j][..|p.frames|];
    EncodeAllFront(fs[..j], |p.frames|);
    EncodeAllLast(fs);
  }

  lemma LastPiece(chunks: seq<Text>, chunk: Text)
    requires Receivable(chunks + [chunk])
    ensures Receivable(chunks) && chunk != [] && |Digest([], chunks).buf| + |chunk| <= RECV_CAP
  {
    assert (chunks + [chunk])[..|chunks|] == chunks;
  }

  lemma EncodeAllLast(fs: seq<Frame>)
    requires AllFit(fs) && fs != []
    ensures |EncodeAll(fs)| == |EncodeAll(fs[..|fs| - 1])| + HEADER_SIZE + |fs[|fs| - 1].body|
  {}

  lemma {:induction false} EncodeAllFront(fs: seq<Frame>, k: nat)
    requires AllFit(fs) && k <= |fs|
    ensures |EncodeAll(fs[..k])| <= |EncodeAll(fs)|
  {
    if k == |fs| {
      assert fs[..k] == fs;
    } else {
      var front := fs[..|fs| - 1];
      assert front[..k] == fs[..k];
      EncodeAllFront(front, k);
      EncodeAllLast(fs);
    }
  }

  /** So every cut of an anchored stream has a boundary there. */
  lemma {:induction false} BoundaryAt(chunks: seq<Text>, stream: Text, n: nat) returns (k: nat)
    requires Cuts(chunks, stream) && n <= |stream| && Anchor(stream[..n])
    ensures k <= |chunks| && Concat(chunks[..k]) == stream[..n]
    decreases |chunks|
  {
    hide Anchor, Receivable;
    if n == |stream| {
      k := |chunks|;
      assert chunks[..k] == chunks && stream[..n] == stream;
    } else {
      var m := |chunks| - 1;
      var front, last := chunks[..m], chunks[m];
      assert front + [last] == chunks;
      LastPiece(front, last);
      var before := Concat(front);
      assert stream == before + last;
      if |before| < n {
        assert before == stream[..n][..|before|];
        PieceStopsAtAnchor(front, last, stream[..n]);
        assert false;
      }
      assert before[..n] == stream[..n];
      k := BoundaryAt(front, before, n);
      assert front[..k] == chunks[..k];
    }
  }

  // ---- otherwise the boundaries can be avoided ----

  lemma {:induction false} PeekPartial(f: Frame, m: nat)
    requires Fits(f) && m < |Encode(f)|
    ensures Peek(Encode(f)[..m]) == Short
  {
    var whole := Encode(f);
    assert whole == whole[..m] + whole[m..] && whole + [] == whole;
    PeekEncoded(f, []);
    if !Peek(whole[..m]).Short? { PeekStable(whole[..m], whole[m..]); }
  }

  /** One byte before the end of a greeting: nothing is greeted there, nor one byte after it. */
  lemma AroundGreeted(t: Text, b: byte)
    requires Greeted(t)
    ensures !Greeted(t + [b])
    ensures t != [] && !Greeted(t[..|t| - 1])
  {
    hide ParseAll, EncodeAll, Peek, Encode;
    GreetedIs(t);
    var fs := ParseAll(t).frames;
    ParseEncoded(fs, [b]);
    OneByte(b);
    EncodeAllLast(fs);
    PartParsed(fs, |t| - 1);
    ParseSound(t[..|t| - 1]);
    if Greeted(t[..|t| - 1]) {
      var a := t[..|t| - 1];
      GreetedIs(a);
      assert t == a + [t[|t| - 1]];
      ParseEncoded(ParseAll(a).frames, [t[|t| - 1]]);
      OneByte(t[|t| - 1]);
      assert false;
    }
  }

  lemma OneByte(b: byte)
    ensures ParseAll([b]) == Parsed([], [b], false)
  {}

  /** Byte by byte, but across the end of every greeting with two bytes at once. */
  ghost function Avoiding(t: Text): seq<Text>
  {
    if t == [] then []
    else if |t| >= 2 && Greeted(t[..|t| - 1]) then Avoiding(t[..|t| - 2]) + [t[|t| - 2..]]
    else Avoiding(t[..|t| - 1]) + [t[|t| - 1..]]
  }

  lemma ShakesSnoc(chunks: seq<Text>, chunk: Text)
    requires !Shakes(chunks) && !Greeted(Concat(chunks) + chunk)
    ensures !Shakes(chunks + [chunk])
  {
    hide Greeted;
    var all := chunks + [chunk];
    assert all[..|chunks|] == chunks;
    forall k | 0 <= k <= |all| ensures !Greeted(Concat(all[..k]))
    {
      if k <= |chunks| {
        assert all[..k] == chunks[..k];
      } else {
        assert all[..k] == all;
      }
    }
  }

  /** Just before the end of a greeting that is no anchor there is room for two bytes. */
  lemma RoomForTwo(chunks: seq<Text>, t: Text)
    requires Greeted(t) && !Anchor(t) && t != [] && Cuts(chunks, t[..|t| - 1])
    ensures |Digest([], chunks).buf| + 2 <= RECV_CAP
  {
    hide ParseAll, EncodeAll, Peek, Encode, Digest, Receivable, Greeting;
    GreetedIs(t);
    var fs := ParseAll(t).frames;
    GreetingHasFrames(fs);
    var j := |fs| - 1;
    var f, m := fs[j], |Encode(fs[j])| - 1;
    assert EncodeAll(fs) == EncodeAll(fs[..j]) + Encode(f) by { EncodeAllSnoc(fs[..j], f); assert fs[..j] + [f] == fs; }
    assert t[..|t| - 1] == EncodeAll(fs[..j]) + Encode(f)[..m];
    PeekPartial(f, m);
    ParseUnique(fs[..j], Encode(f)[..m]);
    CleanCut(chunks);
  }

  lemma GreetingHasFrames(fs: seq<Frame>)
    requires Greeting(fs)
    ensures fs != []
  {}

  lemma AnchoredFront(t: Text, n: nat)
    requires n <= |t| && !Anchored(t)
    ensures !Anchored(t[..n])
  {
    forall k | 0 <= k <= n ensures !Anchor(t[..n][..k]) { assert t[..n][..k] == t[..k]; }
  }

  lemma NotAnchor(t: Text, n: nat)
    requires n <= |t| && !Anchored(t)
    ensures !Anchor(t[..n])
  {}

  lemma NothingGreeted()
    ensures !Greeted([]) && !Shakes([])
  {
    PeekEmpty();
    var none: seq<Text> := [];
    forall k | 0 <= k <= |none| ensures !Greeted(Concat(none[..k])) { assert none[..k] == []; }
  }

  lemma {:induction false} AvoidingFails(t: Text)
    requires !Greeted(t) && !Anchored(t)
    ensures Cuts(Avoiding(t), t) && !Shakes(Avoiding(t))
    decreases |t|
  {
    hide Greeted, Anchor, Anchored, Shakes, Receivable, Concat, Digest;
    NothingGreeted();
    if t == [] {
      NothingCut();
    } else if |t| >= 2 && Greeted(t[..|t| - 1]) {
      var n := |t| - 2;
      AroundGreeted(t[..n + 1], t[n + 1]);
      assert t[..n + 1][..n] == t[..n] && t == t[..n] + t[n..];
      AnchoredFront(t, n);
      AvoidingFails(t[..n]);
      NotAnchor(t, n + 1);
      RoomForTwo(Avoiding(t[..n]), t[..n + 1]);
      OnePieceMore(Avoiding(t[..n]), t[n..]);
      ShakesSnoc(Avoiding(t[..n]), t[n..]);
    } else {
      var n := |t| - 1;
      assert t == t[..n] + t[n..];
      if n == 0 { assert t[..n] == []; }
      AnchoredFront(t, n);
      AvoidingFails(t[..n]);
      BufferShort(Avoiding(t[..n]));
      ShortLeavesRoom(Digest([], Avoiding(t[..n])).buf);
      OnePieceMore(Avoiding(t[..n]), t[n..]);
      ShakesSnoc(Avoiding(t[..n]), t[n..]);
    }
  }

  lemma NothingCut()
    ensures Cuts([], []) && Avoiding([]) == []
  {}

  // ---- the exact laws ----

  /** The handshake succeeds however the stream is cut if and only if the stream is a greeting and nothing
      more, or begins with a greeting whose last frame fills the receive buffer. */
  lemma EveryCutShakesExactly(stream: Text)
    ensures (forall chunks :: Cuts(chunks, stream) ==> Shakes(chunks)) <==> Greeted(stream) || Anchored(stream)
  {
    hide Greeted, Anchor, Receivable;
    if Greeted(stream) {
      forall chunks | Cuts(chunks, stream) ensures Shakes(chunks) { assert chunks[..|chunks|] == chunks; }
    } else if Anchored(stream) {
      var n :| 0 <= n <= |stream| && Anchor(stream[..n]);
      forall chunks | Cuts(chunks, stream) ensures Shakes(chunks)
      {
        var k := BoundaryAt(chunks, stream, n);
        assert Greeted(Concat(chunks[..k])) by { AnchorGreets(stream[..n]); }
      }
    } else {
      AvoidingFails(stream);
    }
  }

  lemma AnchorGreets(t: Text)
    requires Anchor(t)
    ensures Greeted(t)
  {}

  lemma {:induction false} BytewisePrefix(stream: Text, n: nat)
    requires n <= |stream|
    ensures |Bytewise(stream)| == |stream| && Concat(Bytewise(stream)[..n]) == stream[..n]
    decreases |stream|
  {
    if n == |stream| {
      BytewiseCuts(stream);
      BytewiseLength(stream);
      assert Bytewise(stream)[..n] == Bytewise(stream) && stream[..n] == stream;
    } else {
      var front := stream[..|stream| - 1];
      BytewisePrefix(front, n);
      assert Bytewise(stream)[..n] == Bytewise(front)[..n] && front[..n] == stream[..n];
    }
  }

  lemma {:induction false} BytewiseLength(stream: Text)
    ensures |Bytewise(stream)| == |stream|
    decreases |stream|
  {
    if stream != [] { BytewiseLength(stream[..|stream| - 1]); }
  }

  /** It succeeds for some cut if and only if the stream begins with a JOIN_ACK. */
  lemma SomeCutShakesExactly(stream: Text)
    ensures (exists chunks :: Cuts(chunks, stream) && Shakes(chunks))
       <==> Peek(stream).Whole? && Peek(stream).frame.kind == JOIN_ACK
  {
    hide Peek, Receivable, Greeted;
    if Peek(stream).Whole? && Peek(stream).frame.kind == JOIN_ACK {
      var n := Peek(stream).need;
      BytewiseCuts(stream);
      BytewisePrefix(stream, n);
      FirstFrameGreets(stream);
      assert Greeted(Concat(Bytewise(stream)[..n]));
    }
    forall chunks | Cuts(chunks, stream) && Shakes(chunks)
      ensures Peek(stream).Whole? && Peek(stream).frame.kind == JOIN_ACK
    {
      var k :| 0 <= k <= |chunks| && Greeted(Concat(chunks[..k]));
      ConcatPrefix(chunks, k);
      GreetedStarts(Concat(chunks[..k]), stream);
    }
  }

  lemma FirstFrameGreets(stream: Text)
    requires Peek(stream).Whole? && Peek(stream).frame.kind == JOIN_ACK
    ensures Greeted(stream[..Peek(stream).need])
  {
    hide Peek, Encode;
    PeekSound(stream);
    var f := Peek(stream).frame;
    var first := stream[..Peek(stream).need];
    PeekNeed(stream);
    assert first == Encode(f);
    PeekEmpty();
    assert first + [] == first;
    PeekEncoded(f, []);
    ParseUnfold(first);
    assert first[|first|..] == [];
    ParseUnfold([]);
    assert ParseAll(first).frames == [f];
  }

  lemma PeekNeed(buf: Text)
    requires Peek(buf).Whole?
    ensures Peek(buf).need == |Encode(Peek(buf).frame)|
  {}

  lemma GreetedStarts(a: Text, stream: Text)
    requires a <= stream && Greeted(a)
    ensures Peek(stream).Whole? && Peek(stream).frame.kind == JOIN_ACK
  {
    hide Peek;
    ParseUnfold(a);
    PeekStable(a, stream[|a|..]);
    assert a + stream[|a|..] == stream;
  }

  /** What a newcomer meets when somebody speaks as it joins: a JOIN_ACK followed by any frame that does not
      belong to a greeting. Whether its handshake succeeds is decided by how the two arrive. */
  lemma SpokenToWhileJoining(ack: Frame, other: Frame) returns (a: seq<Text>, b: seq<Text>)
    requires Fits(ack) && Fits(other) && ack.kind == JOIN_ACK && |ack.body| < MAX_BODY
    requires other.kind != JOIN_ACK && other.kind != HISTORY
    ensures Cuts(a, Encode(ack) + Encode(other)) && Shakes(a)
    ensures Cuts(b, Encode(ack) + Encode(other)) && !Shakes(b)
  {
    hide Peek, Encode, Receivable, Greeted, Anchor, Shakes;
    var stream := Encode(ack) + Encode(other);
    PeekEncoded(ack, Encode(other));
    SomeCutShakesExactly(stream);
    a :| Cuts(a, stream) && Shakes(a);
    OnlyTheAck(ack, other);
    EveryCutShakesExactly(stream);
    b :| Cuts(b, stream) && !Shakes(b);
  }

  lemma OnlyTheAck(ack: Frame, other: Frame)
    requires Fits(ack) && Fits(other) && ack.kind == JOIN_ACK && |ack.body| < MAX_BODY
    requires other.kind != JOIN_ACK && other.kind != HISTORY
    ensures var stream := Encode(ack) + Encode(other); !Greeted(stream) && !Anchored(stream)
  {
    hide Peek, Encode, EncodeAll, ParseAll;
    var stream, fs := Encode(ack) + Encode(other), [ack, other];
    EncodedPair(ack, other);
    forall n | 0 <= n <= |stream| ensures !Anchor(stream[..n]) && (n == |stream| ==> !Greeted(stream[..n]))
    {
      PartParsed(fs, n);
      var gs := ParseAll(stream[..n]).frames;
      if gs == fs { assert gs[1] == other; } else if gs != [] { assert gs == [ack]; }
    }
    assert stream[..|stream|] == stream;
  }

  lemma EncodedPair(f: Frame, g: Frame)
    requires Fits(f) && Fits(g)
    ensures AllFit([f, g]) && EncodeAll([f, g]) == Encode(f) + Encode(g)
  {
    hide Encode;
    assert [f, g][..1] == [f] && [f][..0] == [];
    assert EncodeAll([f]) == EncodeAll([]) + Encode(f);
  }
}
