/** client.c: the receive buffer, the handshake and the loop that prints what the server sends. */
module Client {
  import opened Bytes
  import opened ChatProto
  import opened Framing

  // ---- the handshake as a law on frames ----

  /** What `handshake_blocking` tolerates: JOIN_ACKs, and HISTORY once a JOIN_ACK has been seen. */
  predicate Tolerates(joined: bool, fs: seq<Frame>)
    decreases |fs|
  {
    fs == [] || (fs[0].kind == JOIN_ACK && Tolerates(true, fs[1..]))
    || (fs[0].kind == HISTORY && joined && Tolerates(joined, fs[1..]))
  }

  /** What the handshake prints of a sequence of frames: everything it tolerates, and an ERROR that stops it. */
  function Prints(joined: bool, fs: seq<Frame>): (shown: seq<Frame>)
    ensures |shown| <= |fs|
    decreases |fs|
  {
    if fs == [] then []
    else if fs[0].kind == JOIN_ACK then [fs[0]] + Prints(true, fs[1..])
    else if fs[0].kind == HISTORY && joined then [fs[0]] + Prints(joined, fs[1..])
    else if fs[0].kind == ERROR then [fs[0]]
    else []
  }

  lemma PrintsCons(joined: bool, f: Frame, fs: seq<Frame>)
    ensures Prints(joined, [f] + fs)
         == if f.kind == JOIN_ACK then [f] + Prints(true, fs)
            else if f.kind == HISTORY && joined then [f] + Prints(joined, fs)
            else if f.kind == ERROR then [f] else []
  {
    assert ([f] + fs)[1..] == fs;
  }

  /** A tolerated sequence is printed whole. */
  lemma {:induction false} PrintsTolerated(joined: bool, a: seq<Frame>, b: seq<Frame>)
    requires Tolerates(joined, a)
    ensures Prints(joined, a + b) == a + Prints(joined || a != [], b)
    decreases |a|
  {
    hide Prints, Tolerates;
    if a == [] {
      assert a + b == b;
    } else {
      var f, more := a[0], a[1..];
      assert a == [f] + more && a + b == [f] + (more + b);
      ToleratesCons(joined, f, more);
      PrintsTolerated(true, more, b);
      PrintsCons(joined, f, more + b);
      assert [f] + (more + Prints(true, b)) == ([f] + more) + Prints(true, b);
    }
  }

  /** What the handshake prints of any frames: the tolerated ones up to the first that is not, and that one
      too if it is an ERROR. */
  lemma {:induction false} PrintsExactly(joined: bool, fs: seq<Frame>) returns (n: nat)
    ensures n <= |fs| && Tolerates(joined, fs[..n])
    ensures n < |fs| ==> fs[n].kind != JOIN_ACK && (fs[n].kind == HISTORY ==> !joined && n == 0)
    ensures Prints(joined, fs) == if n < |fs| && fs[n].kind == ERROR then fs[..n + 1] else fs[..n]
    decreases |fs|
  {
    hide Prints, Tolerates;
    NothingTolerated(joined);
    if fs == [] {
      n := 0;
    } else {
      var f, more := fs[0], fs[1..];
      assert fs == [f] + more;
      PrintsCons(joined, f, more);
      if f.kind == JOIN_ACK || (f.kind == HISTORY && joined) {
        n := PrintsExactly(true, more);
        ToleratesCons(joined, f, more[..n]);
        assert fs[..n + 1] == [f] + more[..n];
        assert n < |more| ==> fs[..n + 2] == [f] + more[..n + 1];
        n := n + 1;
      } else {
        n := 0;
        assert fs[..0] == [] && fs[..1] == [f];
      }
    }
  }

  lemma NothingTolerated(joined: bool)
    ensures Tolerates(joined, []) && Prints(joined, []) == []
  {}

  lemma ToleratesCons(joined: bool, f: Frame, fs: seq<Frame>)
    ensures Tolerates(joined, [f] + fs)
       <==> (f.kind == JOIN_ACK && Tolerates(true, fs)) || (f.kind == HISTORY && joined && Tolerates(joined, fs))
  {
    assert ([f] + fs)[1..] == fs;
  }

  /** A greeting: JOIN_ACK first, nothing but JOIN_ACK and HISTORY. */
  ghost predicate Greeting(fs: seq<Frame>)
  {
    && fs != [] && fs[0].kind == JOIN_ACK
    && forall k :: 0 <= k < |fs| ==> fs[k].kind == JOIN_ACK || fs[k].kind == HISTORY
  }

  lemma {:induction false} ToleratesExactly(joined: bool, fs: seq<Frame>)
    ensures Tolerates(joined, fs)
       <==> (forall k :: 0 <= k < |fs| ==> fs[k].kind == JOIN_ACK || fs[k].kind == HISTORY)
            && (fs == [] || joined || fs[0].kind == JOIN_ACK)
    decreases |fs|
  {
    if fs != [] {
      ToleratesExactly(true, fs[1..]);
      assert forall k :: 0 <= k < |fs[1..]| ==> fs[1..][k] == fs[k + 1];
      assert (forall k :: 0 <= k < |fs| ==> fs[k].kind == JOIN_ACK || fs[k].kind == HISTORY)
        <==> (fs[0].kind == JOIN_ACK || fs[0].kind == HISTORY)
             && (forall k :: 0 <= k < |fs[1..]| ==> fs[1..][k].kind == JOIN_ACK || fs[1..][k].kind == HISTORY) by {
        if forall k :: 0 <= k < |fs[1..]| ==> fs[1..][k].kind == JOIN_ACK || fs[1..][k].kind == HISTORY {
          forall k | 1 <= k < |fs| ensures fs[k].kind == JOIN_ACK || fs[k].kind == HISTORY
          {
            assert fs[1..][k - 1] == fs[k];
          }
        }
      }
    }
  }

  /** The bytes received so far are exactly a greeting. */
  ghost predicate Greeted(stream: Text)
  {
    var p := ParseAll(stream);
    Greeting(p.frames) && p.rest == [] && !p.bad
  }

  /** At no earlier `recv` boundary was what had been received a greeting. */
  ghost predicate NotGreetedBefore(received: seq<Text>)
  {
    forall k :: 0 <= k < |received| ==> !Greeted(Concat(received[..k]))
  }

  lemma NothingReceived()
    ensures NotGreetedBefore([])
  {}

  lemma NotGreetedSnoc(before: seq<Text>, chunk: Text)
    requires NotGreetedBefore(before) && !Greeted(Concat(before))
    ensures NotGreetedBefore(before + [chunk])
  {
    var after := before + [chunk];
    assert before[..|before|] == before;
    forall k | 0 <= k < |after| ensures !Greeted(Concat(after[..k]))
    {
      assert after[..k] == before[..k];
    }
  }

  /** Nothing received so far forces the handshake to fail. */
  ghost predicate Hopeful(stream: Text)
  {
    !ParseAll(stream).bad && Tolerates(false, ParseAll(stream).frames)
  }

  // ---- what the client makes of a stream after the handshake ----

  datatype Digested = Digested(frames: seq<Frame>, buf: Text)

  /** One chunk after another through `process_server`: at a bad header the buffer is emptied, and reading
      carries on with the next chunk. */
  function Digest(buf: Text, chunks: seq<Text>): Digested
  {
    if chunks == [] then Digested([], buf)
    else
      var d := Digest(buf, chunks[..|chunks| - 1]);
      var p := ParseAll(d.buf + chunks[|chunks| - 1]);
      Digested(d.frames + p.frames, if p.bad then [] else p.rest)
  }

  lemma DigestSnoc(buf: Text, chunks: seq<Text>, chunk: Text)
    ensures var d := Digest(buf, chunks);
            var p := ParseAll(d.buf + chunk);
            Digest(buf, chunks + [chunk]) == Digested(d.frames + p.frames, if p.bad then [] else p.rest)
  {
    assert (chunks + [chunk])[..|chunks|] == chunks;
  }

  /** As long as no bad header has been met, the chunking does not matter. */
  lemma {:induction false} CleanStreamDigested(chunks: seq<Text>)
    requires !Feed(chunks).closed
    ensures Digest([], chunks) == Digested(Feed(chunks).frames, Feed(chunks).buf)
  {
    if chunks != [] {
      CleanStreamDigested(chunks[..|chunks| - 1]);
    }
  }

  /** A list of frames received in any chunking is printed as the same list, and the buffer ends empty. */
  lemma FramesReachClient(fs: seq<Frame>, chunks: seq<Text>)
    requires AllFit(fs) && Concat(chunks) == EncodeAll(fs)
    ensures Digest([], chunks) == Digested(fs, [])
  {
    FramesSurviveTransport(fs, chunks);
    CleanStreamDigested(chunks);
  }

  /** A bad header costs exactly the rest of the chunk it is found in: the next chunk is read as if it began
      a stream. `ClientChunking` says exactly when the frames seen then depend on the chunking. */
  lemma {:induction false} BadHeaderForgets(chunks: seq<Text>, more: seq<Text>)
    requires chunks != [] && Feed(chunks).closed && !Feed(chunks[..|chunks| - 1]).closed
    ensures Digest([], chunks + more)
         == Digested(Feed(chunks).frames + Digest([], more).frames, Digest([], more).buf)
    decreases |more|
  {
    hide ParseAll;
    if more == [] {
      CleanStreamDigested(chunks[..|chunks| - 1]);
      assert chunks + more == chunks;
    } else {
      var front, last := more[..|more| - 1], more[|more| - 1];
      BadHeaderForgets(chunks, front);
      assert chunks + more == (chunks + front) + [last];
      DigestSnoc([], chunks + front, last);
      var d := Digest([], front);
      var p := ParseAll(d.buf + last);
      assert (Feed(chunks).frames + d.frames) + p.frames == Feed(chunks).frames + (d.frames + p.frames);
    }
  }

  // ---- sockets and buffers ----

  /** The receiving side of a socket: the pieces still to come, and what `recv` has returned so far. `recv`
      takes at most the room offered from the first piece and returns 0 or less when nothing is left. */
  class Link {
    var coming: seq<Text>
    var received: seq<Text>

    constructor (coming: seq<Text>)
      ensures this.coming == coming && received == []
    {
      this.coming, received := coming, [];
    }

    method Recv(room: nat) returns (chunk: Text)
      modifies this
      ensures |chunk| <= room && Concat(received) + Concat(coming) == old(Concat(received) + Concat(coming))
      ensures chunk == [] ==> received == old(received) && coming == old(coming)
      ensures chunk == [] <==> room == 0 || old(coming) == [] || old(coming)[0] == []
      ensures chunk != [] ==> received == old(received) + [chunk] && |Concat(coming)| < |old(Concat(coming))|
    {
      if coming == [] {
        return [];
      }
      var n := Min(room, |coming[0]|);
      chunk := coming[0][..n];
      if n == 0 {
        return;
      }
      var rest := coming[0][n..];
      assert coming == [coming[0]] + coming[1..];
      ConcatCons(coming[0], coming[1..]);
      ConcatCons(rest, coming[1..]);
      assert (received + [chunk])[..|received|] == received;
      SplitPiece(Concat(received), chunk, rest, Concat(coming[1..]));
      assert coming[0] == chunk + rest;
      assert rest == [] ==> rest + Concat(coming[1..]) == Concat(coming[1..]);
      received := received + [chunk];
      coming := if rest == [] then coming[1..] else [rest] + coming[1..];
    }
  }

  /** How many polls found the socket readable. */
  function Trues(polls: seq<bool>): (n: nat)
    ensures n <= |polls|
  {
    if polls == [] then 0 else Trues(polls[..|polls| - 1]) + if polls[|polls| - 1] then 1 else 0
  }

  /** How many polls in a row, up to the last one, found nothing. */
  function Streak(polls: seq<bool>): (n: nat)
  {
    if polls == [] || polls[|polls| - 1] then 0 else 1 + Streak(polls[..|polls| - 1])
  }

  /** What is in the buffer after the first `k` of the chunks. */
  function BufferAfter(buf: Text, chunks: seq<Text>, k: nat): Text
  {
    Digest(buf, chunks[..Min(k, |chunks|)]).buf
  }

  lemma PollNext(polls: seq<bool>, k: nat)
    requires k < |polls|
    ensures Trues(polls[..k + 1]) == Trues(polls[..k]) + if polls[k] then 1 else 0
    ensures Streak(polls[..k + 1]) == if polls[k] then 0 else 1 + Streak(polls[..k])
  {
    assert polls[..k + 1][..k] == polls[..k];
  }

  lemma {:induction false} TruesGrow(polls: seq<bool>, q: nat, k: nat)
    requires q <= k <= |polls|
    ensures Trues(polls[..q]) <= Trues(polls[..k])
  {
    if q < k {
      TruesGrow(polls, q, k - 1);
      PollNext(polls, k - 1);
    }
  }

  /** None of the first `made` polls ended the pull: not one of them found nothing while no frame was
      incomplete, and no 41 of them in a row found nothing. */
  ghost predicate GoesOn(buf: Text, chunks: seq<Text>, polls: seq<bool>, made: nat)
    requires made <= |polls|
  {
    forall q :: 0 <= q < made ==> !StopsAt(buf, chunks, polls, q)
  }

  predicate StopsAt(buf: Text, chunks: seq<Text>, polls: seq<bool>, q: nat)
    requires q < |polls|
  {
    Streak(polls[..q + 1]) > 40 || (!polls[q] && BufferAfter(buf, chunks, Trues(polls[..q])) == [])
  }

  lemma NothingPolled()
    ensures Trues([]) == 0 && Streak([]) == 0
    ensures forall buf, chunks, polls :: GoesOn(buf, chunks, polls, 0)
  {}

  lemma NothingDigested(buf: Text)
    ensures Digest(buf, []) == Digested([], buf)
  {}

  lemma QuietGoesOn(buf: Text, chunks: seq<Text>, polls: seq<bool>, sp: nat)
    requires sp < |polls| && GoesOn(buf, chunks, polls, sp) && |chunks| == Trues(polls[..sp])
    requires Streak(polls[..sp + 1]) <= 40 && Digest(buf, chunks).buf != []
    ensures GoesOn(buf, chunks, polls, sp + 1)
  {
    hide Digest, Streak, Trues;
    assert chunks[..|chunks|] == chunks;
  }

  lemma ReadGoesOn(buf: Text, before: seq<Text>, after: seq<Text>, polls: seq<bool>, sp: nat)
    requires sp < |polls| && before <= after && |before| == Trues(polls[..sp]) && polls[sp]
    requires GoesOn(buf, before, polls, sp)
    ensures GoesOn(buf, after, polls, sp + 1)
  {
    hide Digest;
    forall q | 0 <= q < sp + 1 ensures !StopsAt(buf, after, polls, q)
    {
      if q < sp {
        TruesGrow(polls, q, sp);
        assert !StopsAt(buf, before, polls, q);
        assert after[..Trues(polls[..q])] == before[..Trues(polls[..q])];
      }
    }
  }

  lemma SplitPiece(a: Text, b: Text, c: Text, d: Text)
    ensures a + ((b + c) + d) == (a + b) + (c + d)
  {}

  lemma Regroup(a: seq<Frame>, f: Frame, b: seq<Frame>)
    ensures a + ([f] + b) == (a + [f]) + b
  {}

  /** `rx_t`. */
  class Receiver {
    const buf: array<byte>
    var len: nat

    ghost predicate Valid()
      reads this
    {
      buf.Length == RECV_CAP && len <= RECV_CAP
    }

    function Contents(): Text
      reads this, buf
      requires Valid()
    {
      buf[..len]
    }

    /** No complete frame and no bad header waits in the buffer. */
    ghost predicate Settled()
      reads this, buf
      requires Valid()
    {
      Peek(Contents()).Short?
    }

    constructor ()
      ensures Valid() && Contents() == [] && fresh(buf)
    {
      buf := new byte[RECV_CAP](_ => 0);
      len := 0;
    }

    /** `memmove` the bytes after the first `need` to the front. */
    method Drop(need: nat)
      requires Valid() && need <= len
      modifies this`len, buf
      ensures Valid() && Contents() == old(Contents())[need..]
    {
      var k := 0;
      while k < len - need
        invariant Valid() && len == old(len) && 0 <= k <= len - need
        invariant forall j :: 0 <= j < k ==> buf[j] == old(buf[need + j])
        invariant forall j :: k <= j < len ==> buf[j] == old(buf[j])
      {
        buf[k] := buf[need + k];
        k := k + 1;
      }
      len := len - need;
    }

    method Append(chunk: Text)
      requires Valid() && len + |chunk| <= RECV_CAP
      modifies this`len, buf
      ensures Valid() && Contents() == old(Contents()) + chunk
    {
      var k := 0;
      while k < |chunk|
        invariant len == old(len) && 0 <= k <= |chunk|
        invariant buf[..len + k] == old(buf[..len]) + chunk[..k]
      {
        buf[len + k] := chunk[k];
        k := k + 1;
      }
      len := len + |chunk|;
    }

    /** The frame at the front, if it is complete. */
    method Front() returns (head: Head)
      requires Valid()
      ensures head == Peek(Contents())
    {
      if len < HEADER_SIZE {
        return Short;
      }
      assert buf[..HEADER_SIZE] == Contents()[..HEADER_SIZE];
      var h := FromWire(buf[..HEADER_SIZE]);
      if !HeaderValid(h) {
        return Bad;
      }
      var need := HEADER_SIZE + h.bodyLen;
      if len < need {
        return Short;
      }
      assert buf[HEADER_SIZE..need] == Contents()[HEADER_SIZE..need];
      head := Whole(Frame(h.kind, buf[HEADER_SIZE..need]), need);
    }

    /** Print every complete frame; a bad header empties the buffer and reading goes on from there. */
    method ProcessServer() returns (printed: seq<Frame>)
      requires Valid()
      modifies this`len, buf
      ensures Valid() && Settled()
      ensures var p := ParseAll(old(Contents()));
              printed == p.frames && Contents() == if p.bad then [] else p.rest
    {
      hide Peek, ParseAll;
      printed := [];
      PeekEmpty();
      while true
        invariant Valid()
        invariant var p, q := ParseAll(old(Contents())), ParseAll(Contents());
                  p.frames == printed + q.frames && p.rest == q.rest && p.bad == q.bad
        decreases len
      {
        ParseUnfold(Contents());
        var head := Front();
        match head
        case Short => break;
        case Bad =>
          len := 0;
          assert buf[..0] == [];
          return;
        case Whole(f, need) =>
          printed := printed + [f];
          Drop(need);
      }
    }

    method IncompleteFrame() returns (yes: bool)
      requires Valid()
      ensures yes <==> Contents() != [] && Peek(Contents()).Short?
    {
      if len == 0 {
        return false;
      }
      var head := Front();
      yes := head.Short?;
    }

    /** One `recv` followed by `process_server`, as in the main loop and in `pull_server_after_send`. */
    method ReadOnce(link: Link) returns (more: bool, printed: seq<Frame>)
      requires Valid() && Settled()
      modifies this`len, buf, link
      ensures Valid() && Settled()
      ensures more <==> old(link.coming) != [] && old(link.coming)[0] != []
      ensures !more ==> printed == [] && Contents() == old(Contents())
                        && link.received == old(link.received) && link.coming == old(link.coming)
      ensures more ==> |link.received| == |old(link.received)| + 1 && old(link.received) <= link.received
                       && var p := ParseAll(old(Contents()) + link.received[|old(link.received)|]);
                          printed == p.frames && Contents() == if p.bad then [] else p.rest
    {
      ShortLeavesRoom(Contents());
      var chunk := link.Recv(RECV_CAP - len);
      if chunk == [] {
        return false, [];
      }
      Append(chunk);
      printed := ProcessServer();
      more := true;
    }

    /** `pull_server_after_send`: at most 128 polls, `polls` says which of them find the socket readable. Every
        readable poll is followed by one `recv`. It stops early only at the end of the stream, at a poll that
        finds nothing while no frame is incomplete, or at the 41st poll in a row that finds nothing; `made`
        polls came before that one. */
    method Pull(link: Link, polls: seq<bool>) returns (printed: seq<Frame>, ghost made: nat)
      requires Valid() && Settled() && |polls| == 128
      modifies this`len, buf, link
      ensures Valid() && Settled() && made <= 128
      ensures old(link.received) <= link.received
      ensures |link.received| == |old(link.received)| + Trues(polls[..made])
      ensures Digested(printed, Contents()) == Digest(old(Contents()), link.received[|old(link.received)|..])
      ensures made == 128
              || (if polls[made] then link.coming == [] || link.coming[0] == []
                  else Contents() == [] || Streak(polls[..made + 1]) == 41)
      ensures GoesOn(old(Contents()), link.received[|old(link.received)|..], polls, made)
    {
      hide Peek, ParseAll, Digest, GoesOn, Trues, Streak;
      NothingPolled();
      printed := [];
      var stall, sp := 0, 0;
      ghost var n := |link.received|;
      assert polls[..0] == [] && link.received[n..] == [];
      NothingDigested(Contents());
      made := 0;
      while sp < 128
        invariant Valid() && Settled() && 0 <= sp <= 128 && made == sp
        invariant old(link.received) <= link.received && |link.received| == n + Trues(polls[..sp])
        invariant Digested(printed, Contents()) == Digest(old(Contents()), link.received[n..])
        invariant stall == Streak(polls[..sp]) <= 40
        invariant GoesOn(old(Contents()), link.received[n..], polls, sp)
      {
        PollNext(polls, sp);
        var partial := IncompleteFrame();
        ghost var before := link.received;
        if !polls[sp] {
          if !partial {
            break;
          }
          stall := stall + 1;
          if stall > 40 {
            break;
          }
          QuietGoesOn(old(Contents()), before[n..], polls, sp);
        } else {
          stall := 0;
          var more, fs := ReadOnce(link);
          if !more {
            break;
          }
          assert link.received[n..] == before[n..] + [link.received[|before|]];
          DigestSnoc(old(Contents()), before[n..], link.received[|before|]);
          ReadGoesOn(old(Contents()), before[n..], link.received[n..], polls, sp);
          printed := printed + fs;
        }
        sp := sp + 1;
        made := sp;
      }
    }

    /** The inner loop of `handshake_blocking`. */
    method HandshakeScan(gotJoin: bool) returns (ok: bool, joined: bool, printed: seq<Frame>)
      requires Valid()
      modifies this`len, buf
      ensures Valid()
      ensures var p := ParseAll(old(Contents()));
              && (ok <==> !p.bad && Tolerates(gotJoin, p.frames))
              && printed == Prints(gotJoin, p.frames)
              && (ok ==> printed == p.frames && Contents() == p.rest)
              && (ok ==> (joined <==> gotJoin || p.frames != []))
    {
      hide Peek, ParseAll, Tolerates, Prints;
      NothingTolerated(joined := true);
      NothingTolerated(joined := false);
      printed, joined := [], gotJoin;
      while true
        invariant Valid()
        invariant var p, q := ParseAll(old(Contents())), ParseAll(Contents());
                  && p.frames == printed + q.frames && p.rest == q.rest && p.bad == q.bad
                  && (Tolerates(gotJoin, p.frames) <==> Tolerates(joined, q.frames))
                  && Prints(gotJoin, p.frames) == printed + Prints(joined, q.frames)
        invariant joined <==> gotJoin || printed != []
        decreases len
      {
        ParseUnfold(Contents());
        var head := Front();
        match head
        case Short =>
          return true, joined, printed;
        case Bad =>
          return false, joined, printed;
        case Whole(f, need) =>
          ghost var later := ParseAll(Contents()[need..]).frames;
          ToleratesCons(joined, f, later);
          PrintsCons(joined, f, later);
          Regroup(printed, f, later);
          Regroup(printed, f, Prints(joined, later));
          Regroup(printed, f, Prints(true, later));
          if f.kind == JOIN_ACK {
            joined := true;
          } else if f.kind == HISTORY {
            if !joined {
              return false, joined, printed;
            }
          } else {
            if f.kind == ERROR {
              printed := printed + [f];
            }
            return false, joined, printed;
          }
          printed := printed + [f];
          Drop(need);
      }
    }

    /** `handshake_blocking`. It succeeds after the first `recv` at which everything received is exactly a
        greeting, and then has printed it with nothing left over. It gives up only when the stream shows a
        bad header or a frame that does not belong, or ends. */
    method Handshake(link: Link) returns (ok: bool, printed: seq<Frame>)
      requires Valid() && Contents() == [] && link.received == []
      modifies this`len, buf, link
      ensures Valid()
      ensures Concat(link.received) + Concat(link.coming) == Concat(old(link.coming))
      ensures ok ==> Contents() == [] && Greeting(printed) && AllFit(printed)
                     && Concat(link.received) == EncodeAll(printed)
      ensures printed == Prints(false, ParseAll(Concat(link.received)).frames)
      ensures NotGreetedBefore(link.received) && (ok <==> Greeted(Concat(link.received)))
      ensures !ok ==> !Hopeful(Concat(link.received)) || link.coming == [] || link.coming[0] == []
    {
      hide ParseAll, Peek, Tolerates, EncodeAll, Prints, Greeted, Greeting, Hopeful, NotGreetedBefore;
      NothingReceived();
      NothingTolerated(false);
      printed := [];
      var joined := false;
      PeekEmpty();
      ParseUnfold([]);
      while true
        invariant Valid() && Settled() && AllFit(printed)
        invariant Concat(link.received) + Concat(link.coming) == Concat(old(link.coming))
        invariant ParseAll(Concat(link.received)) == Parsed(printed, Contents(), false)
        invariant Tolerates(false, printed) && (joined <==> printed != [])
        invariant NotGreetedBefore(link.received)
        decreases |Concat(link.coming)|
      {
        ghost var stream, buffered, before := Concat(link.received), Contents(), link.received;
        AtBoundary(stream, printed, buffered);
        if joined && len == 0 {
          return true, printed;
        }
        ShortLeavesRoom(buffered);
        var chunk := link.Recv(RECV_CAP - len);
        if chunk == [] {
          return false, printed;
        }
        assert Concat(link.received) == stream + chunk by {
          assert link.received[..|link.received| - 1] == before;
        }
        NotGreetedSnoc(before, chunk);
        StreamGrows(stream, printed, buffered, chunk);
        Append(chunk);
        var ok', more;
        ok', joined, more := HandshakeScan(joined);
        printed := printed + more;
        if !ok' {
          return false, printed;
        }
      }
    }
  }

  /** Between two `recv` calls: what has been printed, and whether it is a whole greeting. */
  lemma AtBoundary(stream: Text, printed: seq<Frame>, buffered: Text)
    requires AllFit(printed) && ParseAll(stream) == Parsed(printed, buffered, false) && Tolerates(false, printed)
    ensures Prints(false, printed) == printed
    ensures Greeted(stream) <==> printed != [] && buffered == []
    ensures buffered == [] ==> stream == EncodeAll(printed)
    ensures printed != [] ==> Greeting(printed)
  {
    hide ParseAll, EncodeAll;
    ToleratesExactly(false, printed);
    PrintsTolerated(false, printed, []);
    NothingTolerated(printed != []);
    assert printed + [] == printed;
    ParseSound(stream);
    assert buffered == [] ==> EncodeAll(printed) + buffered == EncodeAll(printed);
  }

  /** One more chunk: the frames it completes come after those printed. */
  lemma StreamGrows(stream: Text, printed: seq<Frame>, buffered: Text, chunk: Text)
    requires ParseAll(stream) == Parsed(printed, buffered, false) && Tolerates(false, printed)
    ensures var p, q := ParseAll(stream + chunk), ParseAll(buffered + chunk);
            && p == Parsed(printed + q.frames, q.rest, q.bad)
            && (Tolerates(false, p.frames) <==> Tolerates(printed != [], q.frames))
            && Prints(false, p.frames) == printed + Prints(printed != [], q.frames)
            && (Hopeful(stream + chunk) <==> !q.bad && Tolerates(printed != [], q.frames))
            && (!q.bad ==> Peek(q.rest).Short?)
            && (!Hopeful(stream + chunk) ==> !Greeted(stream + chunk))
  {
    hide ParseAll, Peek, EncodeAll, Greeted;
    ParseSplit(stream, chunk);
    var q := ParseAll(buffered + chunk);
    ToleratesConcat(printed, q.frames);
    PrintsTolerated(false, printed, q.frames);
    ParseSound(stream + chunk);
    NotHopeful(stream + chunk);
  }

  lemma ToleratesConcat(a: seq<Frame>, b: seq<Frame>)
    requires Tolerates(false, a)
    ensures Tolerates(false, a + b) <==> Tolerates(a != [], b)
  {
    hide Tolerates;
    ToleratesExactly(false, a);
    ToleratesExactly(a != [], b);
    ToleratesExactly(false, a + b);
    if a == [] { assert a + b == b; }
    if Tolerates(false, a + b) {
      forall k | 0 <= k < |b| ensures b[k].kind == JOIN_ACK || b[k].kind == HISTORY
      {
        assert (a + b)[|a| + k] == b[k];
      }
    }
  }

  /** A stream that cannot become a greeting any more is none. */
  lemma NotHopeful(stream: Text)
    ensures !Hopeful(stream) ==> !Greeted(stream)
  {
    ToleratesExactly(false, ParseAll(stream).frames);
  }

  /** On JOIN_ACK HISTORY* the handshake cannot fail: every part of such a stream is hopeful, and the whole
      of it is a greeting. */
  lemma GreetingNeverFails(fs: seq<Frame>, got: Text, left: Text)
    requires AllFit(fs) && Greeting(fs) && got + left == EncodeAll(fs)
    ensures Hopeful(got)
    ensures left == [] ==> Greeted(got)
  {
    hide Encode, EncodeAll, Peek;
    ParseUnique(fs, []) by { PeekEmpty(); }
    PeekEmpty();
    assert EncodeAll(fs) + [] == got + left;
    ParseSplit(got, left);
    ToleratesExactly(false, fs);
    ToleratesExactly(false, ParseAll(got).frames);
    var p := ParseAll(got).frames;
    assert p <= fs;
    if p != [] { assert p[0] == fs[0]; }
    if left == [] { assert got + left == got; }
  }

  /** The frames printed by the handshake, then those printed by `process_server` from whatever pieces the
      rest arrives in, are the whole stream in order, and nothing is left in the buffer. */
  lemma HandshakeThenServer(fs: seq<Frame>, printed: seq<Frame>, chunks: seq<Text>)
    requires AllFit(fs) && AllFit(printed)
    requires EncodeAll(printed) + Concat(chunks) == EncodeAll(fs)
    ensures Digest([], chunks).buf == []
    ensures printed + Digest([], chunks).frames == fs
  {
    hide Encode, EncodeAll, Peek, Feed, Digest;
    PeekEmpty();
    ParseUnique(fs, []);
    assert EncodeAll(fs) + [] == EncodeAll(fs);
    ParseEncoded(printed, Concat(chunks));
    var p := ParseAll(Concat(chunks));
    ParseSound(Concat(chunks));
    assert Concat(chunks) == EncodeAll(p.frames) by { assert EncodeAll(p.frames) + [] == EncodeAll(p.frames); }
    FramesReachClient(p.frames, chunks);
  }
}
