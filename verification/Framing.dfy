/** Frames on a byte stream: the printer (`send_frame`), the incremental reader both programs share,
    and the laws that tie the two together. */
module Framing {
  import opened Bytes
  import opened ChatProto

  datatype Frame = Frame(kind: u32, body: Text)

  /** The body lengths `chat_header_valid` lets through. */
  predicate Fits(f: Frame) { |f.body| <= MAX_BODY }

  predicate AllFit(fs: seq<Frame>) { forall k :: 0 <= k < |fs| ==> Fits(fs[k]) }

  function Encode(f: Frame): (t: Text)
    requires Fits(f)
    ensures |t| == HEADER_SIZE + |f.body|
  {
    ToWire(Header(MAGIC, VERSION, f.kind, |f.body|)) + f.body
  }

  function EncodeAll(fs: seq<Frame>): Text
    requires AllFit(fs)
  {
    if fs == [] then [] else EncodeAll(fs[..|fs| - 1]) + Encode(fs[|fs| - 1])
  }

  /** What stands at the front of a receive buffer. */
  datatype Head = Short | Bad | Whole(frame: Frame, need: nat)

  function Peek(buf: Text): (h: Head)
    ensures h.Whole? ==> HEADER_SIZE <= h.need <= |buf| && h.need <= RECV_CAP && Fits(h.frame)
  {
    if |buf| < HEADER_SIZE then Short
    else
      var h := FromWire(buf[..HEADER_SIZE]);
      if !HeaderValid(h) then Bad
      else if |buf| < HEADER_SIZE + h.bodyLen then Short
      else Whole(Frame(h.kind, buf[HEADER_SIZE..HEADER_SIZE + h.bodyLen]), HEADER_SIZE + h.bodyLen)
  }

  datatype Parsed = Parsed(frames: seq<Frame>, rest: Text, bad: bool)

  /** One-shot reference decoding of a whole stream. */
  function ParseAll(buf: Text): (p: Parsed)
    ensures AllFit(p.frames) && |p.rest| <= |buf|
    decreases |buf|
  {
    match Peek(buf)
    case Short => Parsed([], buf, false)
    case Bad => Parsed([], buf, true)
    case Whole(f, need) =>
      var p := ParseAll(buf[need..]);
      Parsed([f] + p.frames, p.rest, p.bad)
  }

  lemma {:induction false} ParseUnfold(buf: Text)
    ensures !Peek(buf).Whole? ==> ParseAll(buf) == Parsed([], buf, Peek(buf).Bad?)
    ensures Peek(buf).Whole? ==>
              var p := ParseAll(buf[Peek(buf).need..]);
              ParseAll(buf) == Parsed([Peek(buf).frame] + p.frames, p.rest, p.bad)
  {}

  lemma {:induction false} EncodeAllCons(f: Frame, fs: seq<Frame>)
    requires Fits(f) && AllFit(fs)
    ensures AllFit([f] + fs)
    ensures EncodeAll([f] + fs) == Encode(f) + EncodeAll(fs)
  {
    hide Encode;
    if fs == [] {
      assert [f] + fs == [f];
      assert [f][..0] == [];
    } else {
      var front, last := fs[..|fs| - 1], fs[|fs| - 1];
      EncodeAllCons(f, front);
      assert ([f] + fs)[..|fs|] == [f] + front;
      assert EncodeAll([f] + fs) == EncodeAll([f] + front) + Encode(last);
      assert EncodeAll(fs) == EncodeAll(front) + Encode(last);
    }
  }

  lemma EncodeAllSnoc(fs: seq<Frame>, f: Frame)
    requires AllFit(fs) && Fits(f)
    ensures AllFit(fs + [f]) && EncodeAll(fs + [f]) == EncodeAll(fs) + Encode(f)
  {
    hide Encode;
    assert (fs + [f])[..|fs|] == fs;
  }

  lemma PeekEncoded(f: Frame, tail: Text)
    requires Fits(f)
    ensures Peek(Encode(f) + tail) == Whole(f, |Encode(f)|)
  {
    var h := Header(MAGIC, VERSION, f.kind, |f.body|);
    var buf := Encode(f) + tail;
    assert buf[..HEADER_SIZE] == ToWire(h);
    HeaderRoundTrip(h);
    assert buf[HEADER_SIZE..HEADER_SIZE + |f.body|] == f.body;
  }

  lemma PeekSound(buf: Text)
    requires Peek(buf).Whole?
    ensures buf == Encode(Peek(buf).frame) + buf[Peek(buf).need..]
  {
    WireRoundTrip(buf[..HEADER_SIZE]);
    var need := Peek(buf).need;
    assert buf == buf[..HEADER_SIZE] + buf[HEADER_SIZE..need] + buf[need..];
  }

  /** More bytes never change a verdict already reached. */
  lemma PeekStable(a: Text, b: Text)
    requires !Peek(a).Short?
    ensures Peek(a + b) == Peek(a)
  {
    assert (a + b)[..HEADER_SIZE] == a[..HEADER_SIZE];
    if Peek(a).Whole? {
      var need := Peek(a).need;
      assert (a + b)[HEADER_SIZE..need] == a[HEADER_SIZE..need];
    }
  }

  lemma PeekEmpty()
    ensures Peek([]) == Short
  {}

  /** A buffer without a complete frame at its front has room for at least one more byte. */
  lemma ShortLeavesRoom(buf: Text)
    requires Peek(buf).Short?
    ensures |buf| < RECV_CAP
  {}

  /** Reading undoes printing, whatever follows. */
  lemma {:induction false} ParseEncoded(fs: seq<Frame>, tail: Text)
    requires AllFit(fs)
    ensures ParseAll(EncodeAll(fs) + tail)
         == Parsed(fs + ParseAll(tail).frames, ParseAll(tail).rest, ParseAll(tail).bad)
    decreases |fs|
  {
    hide Peek, Encode;
    if fs == [] {
      assert EncodeAll(fs) + tail == tail;
      assert fs + ParseAll(tail).frames == ParseAll(tail).frames;
    } else {
      var f, more := fs[0], fs[1..];
      assert fs == [f] + more;
      EncodeAllCons(f, more);
      var buf := EncodeAll(fs) + tail;
      assert buf == Encode(f) + (EncodeAll(more) + tail);
      PeekEncoded(f, EncodeAll(more) + tail);
      assert buf[|Encode(f)|..] == EncodeAll(more) + tail;
      ParseEncoded(more, tail);
      assert [f] + (more + ParseAll(tail).frames) == fs + ParseAll(tail).frames;
    }
  }

  /** Printing undoes reading: the frames found and the bytes left are the stream, and what is left
      starts with no complete frame. */
  lemma {:induction false} ParseSound(buf: Text)
    ensures buf == EncodeAll(ParseAll(buf).frames) + ParseAll(buf).rest
    ensures Peek(ParseAll(buf).rest) == if ParseAll(buf).bad then Bad else Short
    decreases |buf|
  {
    hide Encode;
    hide Peek, ParseAll;
    ParseUnfold(buf);
    if Peek(buf).Whole? {
      PeekSound(buf);
      var f, tail := Peek(buf).frame, buf[Peek(buf).need..];
      ParseSound(tail);
      var p := ParseAll(tail);
      EncodeAllCons(f, p.frames);
      assert Encode(f) + (EncodeAll(p.frames) + p.rest) == (Encode(f) + EncodeAll(p.frames)) + p.rest;
    }
  }

  /** The decoding is the only one: any list of frames followed by bytes that start with no complete
      frame is what the reader finds. */
  lemma ParseUnique(fs: seq<Frame>, rest: Text)
    requires AllFit(fs)
    requires !Peek(rest).Whole?
    ensures ParseAll(EncodeAll(fs) + rest) == Parsed(fs, rest, Peek(rest).Bad?)
  {
    ParseEncoded(fs, rest);
    assert fs + [] == fs;
  }

  /** Splitting the stream anywhere and carrying the unread bytes over gives the one-shot result. */
  lemma ParseSplit(a: Text, b: Text)
    ensures var p, q := ParseAll(a), ParseAll(ParseAll(a).rest + b);
            ParseAll(a + b) == if p.bad then Parsed(p.frames, p.rest + b, true)
                               else Parsed(p.frames + q.frames, q.rest, q.bad)
  {
    hide Peek, Encode;
    var p := ParseAll(a);
    ParseSound(a);
    assert a + b == EncodeAll(p.frames) + (p.rest + b);
    ParseEncoded(p.frames, p.rest + b);
    if p.bad {
      PeekStable(p.rest, b);
      assert p.frames + [] == p.frames;
    }
  }

  /** The decoding of the first part of an encoded list. */
  lemma PartParsed(fs: seq<Frame>, m: nat)
    requires AllFit(fs) && m <= |EncodeAll(fs)|
    ensures var p := ParseAll(EncodeAll(fs)[..m]);
            && !p.bad && p.frames <= fs && (p.frames == fs <==> m == |EncodeAll(fs)|)
            && (p.frames == fs ==> p.rest == [])
  {
    hide Peek, ParseAll, EncodeAll;
    var whole := EncodeAll(fs);
    var a, b := whole[..m], whole[m..];
    assert whole == a + b && whole + [] == whole;
    PeekEmpty();
    ParseUnique(fs, []);
    ParseSplit(a, b);
    ParseSound(a);
    assert m == |whole| ==> a == whole;
  }

  // ---- chunked reading ----

  datatype Reader = Reader(frames: seq<Frame>, buf: Text, closed: bool)

  /** Feed `recv` results one after another to a reader that keeps its unread bytes. */
  function Feed(chunks: seq<Text>): (r: Reader)
  {
    if chunks == [] then Reader([], [], false)
    else
      var r := Feed(chunks[..|chunks| - 1]);
      if r.closed then r
      else
        var p := ParseAll(r.buf + chunks[|chunks| - 1]);
        Reader(r.frames + p.frames, p.rest, p.bad)
  }

  /** How many chunks are read before an invalid header stops the reader. */
  function Consumed(chunks: seq<Text>): (n: nat)
    ensures n <= |chunks|
  {
    if chunks == [] then 0
    else if Feed(chunks[..|chunks| - 1]).closed then Consumed(chunks[..|chunks| - 1])
    else |chunks|
  }

  /** Independence of chunking: whatever the split, the frames, the bytes kept and the verdict are
      those of decoding the consumed bytes at once. */
  lemma {:induction false} ChunkingIrrelevant(chunks: seq<Text>)
    ensures var p := ParseAll(Concat(chunks[..Consumed(chunks)]));
            Feed(chunks) == Reader(p.frames, p.rest, p.bad)
    ensures !Feed(chunks).closed ==> Consumed(chunks) == |chunks|
  {
    hide Peek;
    if chunks == [] {
      PeekEmpty();
    } else {
      var front := chunks[..|chunks| - 1];
      ChunkingIrrelevant(front);
      if Feed(front).closed {
        assert front[..Consumed(front)] == chunks[..Consumed(chunks)];
      } else {
        assert front[..Consumed(front)] == front;
        assert chunks[..|chunks|] == chunks;
        ParseSplit(Concat(front), chunks[|chunks| - 1]);
      }
    }
  }

  /** Between chunks an open reader always has room for one more byte, so `recv` is never asked for
      zero bytes. */
  lemma RoomBetweenChunks(chunks: seq<Text>)
    ensures !Feed(chunks).closed ==> |Feed(chunks).buf| < RECV_CAP
  {
    ChunkingIrrelevant(chunks);
    ParseSound(Concat(chunks[..Consumed(chunks)]));
    if !Feed(chunks).closed {
      ShortLeavesRoom(Feed(chunks).buf);
    }
  }

  /** A list of frames, printed and received in any chunking, arrives as the same list with nothing
      left over. */
  lemma FramesSurviveTransport(fs: seq<Frame>, chunks: seq<Text>)
    requires AllFit(fs)
    requires Concat(chunks) == EncodeAll(fs)
    ensures Feed(chunks) == Reader(fs, [], false)
  {
    hide Peek, ParseAll, Encode, EncodeAll, Concat;
    PeekEmpty();
    ChunkingIrrelevant(chunks);
    var n := Consumed(chunks);
    ConcatPrefix(chunks, n);
    var got, left := Concat(chunks[..n]), Concat(chunks)[|Concat(chunks[..n])|..];
    assert Concat(chunks) == got + left;
    ParseUnique(fs, []);
    assert EncodeAll(fs) + [] == EncodeAll(fs);
    ParseSplit(got, left);
    assert !Feed(chunks).closed;
    assert chunks[..n] == chunks;
  }
}
