/** The poll loop's events as sequences of moves, and what the invariant says about connections, receive
    buffers and ids after any run of events. */
module ServerEvents {
  import opened Bytes
  import opened ChatProto
  import opened Framing
  import opened ServerSpec
  import opened ServerRuns

  // ---- runs ----

  lemma {:induction false} RunConcat(s: State, a: seq<Move>, b: seq<Move>)
    requires LegalRun(s, a) && LegalRun(Run(s, a), b)
    ensures LegalRun(s, a + b) && Run(s, a + b) == Run(Run(s, a), b)
    decreases |a|
  {
    if a == [] {
      assert a + b == b;
    } else {
      assert (a + b)[0] == a[0] && (a + b)[1..] == a[1..] + b;
      RunConcat(Apply(s, a[0]), a[1..], b);
    }
  }

  /** The moves `process_message` makes: one per complete frame, and a rejection if a bad header follows. */
  function ProcessMoves(s: State, i: nat): seq<Move>
    requires i < |s.slots|
    decreases |s.slots[i].inbuf|
  {
    match Peek(s.slots[i].inbuf)
    case Short => []
    case Bad => [Reject(i)]
    case Whole(_, _) => [Take(i)] + ProcessMoves(TakeFrame(s, i), i)
  }

  lemma {:induction false} ProcessIsRun(s: State, i: nat)
    requires i < |s.slots| && s.slots[i].used
    ensures LegalRun(s, ProcessMoves(s, i)) && Run(s, ProcessMoves(s, i)) == Process(s, i)
    decreases |s.slots[i].inbuf|
  {
    hide Dispatch;
    match Peek(s.slots[i].inbuf)
    case Short =>
    case Bad =>
      assert [Reject(i)][1..] == [];
    case Whole(_, _) =>
      var t := TakeFrame(s, i);
      ProcessIsRun(t, i);
      var ms := ProcessMoves(s, i);
      assert ms[0] == Take(i) && ms[1..] == ProcessMoves(t, i);
  }

  /** Processing ends with the slot closed, or open with no complete frame left. */
  lemma {:induction false} ProcessSettles(s: State, i: nat)
    requires i < |s.slots| && s.slots[i].used
    ensures var c := Process(s, i).slots[i]; c == EMPTY_SLOT || (c.used && c.fd == s.slots[i].fd && Peek(c.inbuf).Short?)
    decreases |s.slots[i].inbuf|
  {
    if Peek(s.slots[i].inbuf).Whole? {
      ProcessSettles(TakeFrame(s, i), i);
    }
  }

  /** The connection's dispatched frames and buffered bytes always decode to the bytes that arrived. */
  lemma ConnectionParse(s: State, i: nat)
    requires Inv(s) && i < |s.slots| && s.slots[i].used && !Peek(s.slots[i].inbuf).Whole?
    ensures var c := s.slots[i];
            ParseAll(Arrived(s.trace, c.fd)) == Parsed(Dispatched(s.trace, c.fd), c.inbuf, Peek(c.inbuf).Bad?)
  {
    var c := s.slots[i];
    assert ConnectionOk(c, s.trace);
    ParseUnique(Dispatched(s.trace, c.fd), c.inbuf);
  }

  /** `process_message` against the reference decoder, for any state a run can reach: what has been
      dispatched on the connection, the bytes kept and whether the slot was closed are those of decoding
      at once everything that arrived. */
  lemma {:induction false} ProcessDecodes(s: State, i: nat)
    requires Inv(s) && i < |s.slots| && s.slots[i].used
    ensures var t, fd := Process(s, i), s.slots[i].fd;
            var p := ParseAll(Arrived(s.trace, fd));
            && Dispatched(t.trace, fd) == p.frames
            && Arrived(t.trace, fd) == Arrived(s.trace, fd)
            && (p.bad ==> t.slots[i] == EMPTY_SLOT)
            && (!p.bad ==> t.slots[i].used && t.slots[i].fd == fd && t.slots[i].inbuf == p.rest)
    decreases |s.slots[i].inbuf|
  {
    hide TakeFrame, ParseAll, Ordinal, Arrived, Dispatched, EncodeAll, Peek;
    if Peek(s.slots[i].inbuf).Whole? {
      TakeKeepsInv(s, i);
      TakeView(s, i, s.slots[i].fd);
      ProcessDecodes(TakeFrame(s, i), i);
    } else {
      ConnectionParse(s, i);
      assert SlotOk(s.slots[i]);
      Append(s.trace, Closed(s.slots[i].fd), s.slots[i].fd);
    }
  }

  // ---- events of the poll loop ----

  datatype Event = Connect(fd: int) | Data(i: nat, chunk: Text) | Hangup(i: nat)

  predicate EventLegal(s: State, e: Event)
  {
    match e
    case Connect(fd) => Legal(s, Accept(fd))
    case Data(i, chunk) => Legal(s, Receive(i, chunk))
    case Hangup(i) => Legal(s, Remove(i))
  }

  function Handle(s: State, e: Event): State
    requires EventLegal(s, e)
  {
    match e
    case Connect(fd) => AcceptOne(s, fd)
    case Data(i, chunk) => ServeData(s, i, chunk)
    case Hangup(i) => RemoveClient(s, i)
  }

  function EventMoves(s: State, e: Event): seq<Move>
    requires EventLegal(s, e)
  {
    match e
    case Connect(fd) => [Accept(fd)]
    case Data(i, chunk) => [Receive(i, chunk)] + ProcessMoves(ReceiveInto(s, i, chunk), i)
    case Hangup(i) => [Remove(i)]
  }

  /** Between events no buffer starts with a complete frame or a bad header. */
  ghost predicate Settled(s: State)
  {
    forall i :: 0 <= i < |s.slots| && s.slots[i].used ==> Peek(s.slots[i].inbuf).Short?
  }

  /** In a settled state every `recv` is offered at least one byte of room. */
  lemma RoomForRecv(s: State, i: nat)
    requires Settled(s) && i < |s.slots| && s.slots[i].used
    ensures RECV_CAP - |s.slots[i].inbuf| > 0
  {
    ShortLeavesRoom(s.slots[i].inbuf);
  }

  /** The removal of a client whose buffer is full after processing never happens. */
  lemma OverflowUnreachable(s: State, i: nat, chunk: Text)
    requires Legal(s, Receive(i, chunk))
    ensures ServeData(s, i, chunk) == Process(ReceiveInto(s, i, chunk), i)
  {
    var r := ReceiveInto(s, i, chunk);
    ProcessSettles(r, i);
    if Process(r, i).slots[i].used {
      ShortLeavesRoom(Process(r, i).slots[i].inbuf);
    }
  }

  /** An event is a run of moves. */
  lemma EventIsRun(s: State, e: Event)
    requires EventLegal(s, e)
    ensures LegalRun(s, EventMoves(s, e)) && Run(s, EventMoves(s, e)) == Handle(s, e)
  {
    hide Process, ProcessMoves, TakeFrame, RemoveClient, AcceptOne;
    match e
    case Connect(fd) => OneMove(s, Accept(fd));
    case Data(i, chunk) =>
      var r := ReceiveInto(s, i, chunk);
      OneMove(s, Receive(i, chunk));
      ProcessIsRun(r, i);
      RunConcat(s, [Receive(i, chunk)], ProcessMoves(r, i));
      OverflowUnreachable(s, i, chunk);
    case Hangup(i) => OneMove(s, Remove(i));
  }

  lemma OneMove(s: State, m: Move)
    requires Legal(s, m)
    ensures LegalRun(s, [m]) && Run(s, [m]) == Apply(s, m)
  {
    assert [m][1..] == [];
    assert LegalRun(Apply(s, m), []);
  }

  lemma EventKeepsInv(s: State, e: Event)
    requires Inv(s) && Settled(s) && EventLegal(s, e)
    ensures Inv(Handle(s, e)) && Settled(Handle(s, e))
  {
    hide Inv, Peek, Process, EventMoves, LegalRun, Run;
    EventIsRun(s, e);
    RunKeepsInv(s, EventMoves(s, e));
    PeekEmpty();
    if e.Data? {
      OverflowUnreachable(s, e.i, e.chunk);
      ProcessSettles(ReceiveInto(s, e.i, e.chunk), e.i);
    }
  }

  predicate EventsLegal(s: State, es: seq<Event>)
    decreases |es|
  {
    es == [] || (EventLegal(s, es[0]) && EventsLegal(Handle(s, es[0]), es[1..]))
  }

  function HandleAll(s: State, es: seq<Event>): State
    requires EventsLegal(s, es)
    decreases |es|
  {
    if es == [] then s else HandleAll(Handle(s, es[0]), es[1..])
  }

  lemma {:induction false} EventsKeepInv(s: State, es: seq<Event>)
    requires Inv(s) && Settled(s) && EventsLegal(s, es)
    ensures Inv(HandleAll(s, es)) && Settled(HandleAll(s, es))
    decreases |es|
  {
    if es != [] {
      EventKeepsInv(s, es[0]);
      EventsKeepInv(Handle(s, es[0]), es[1..]);
    }
  }

  // ---- what holds of the server between any two events ----

  /** The table law: used slots are exactly those with an open descriptor, joined slots are used, descriptors
      and joined nicks are pairwise different, nicks are C strings of at most 31 bytes, and every buffer has
      room. */
  lemma TableLaw(s: State)
    requires Inv(s) && Settled(s)
    ensures var slots := s.slots;
            && (forall i :: 0 <= i < |slots| ==> (slots[i].used <==> slots[i].fd >= 0))
            && (forall i :: 0 <= i < |slots| && slots[i].joined ==> slots[i].used)
            && (forall i :: 0 <= i < |slots| ==> |slots[i].nick| <= MAX_NICK && CStr(slots[i].nick) == slots[i].nick)
            && (forall i, j :: 0 <= i < j < |slots| && slots[i].used && slots[j].used ==> slots[i].fd != slots[j].fd)
            && (forall i, j :: 0 <= i < j < |slots| && slots[i].joined && slots[j].joined ==>
                  slots[i].nick != slots[j].nick)
            && (forall i :: 0 <= i < |slots| ==> |slots[i].inbuf| < RECV_CAP)
  {
    forall i | 0 <= i < |s.slots|
      ensures CStr(s.slots[i].nick) == s.slots[i].nick && |s.slots[i].inbuf| < RECV_CAP
    {
      assert SlotOk(s.slots[i]);
      CStrWhole(s.slots[i].nick);
      if s.slots[i].used { RoomForRecv(s, i); }
    }
  }

  /** It holds after any run of events; so do all the other consequences of the invariant below. */
  lemma TableAfterAnyRun(failing: set<nat>, es: seq<Event>)
    requires EventsLegal(Start(failing), es)
    ensures var s := HandleAll(Start(failing), es);
            && Inv(s) && Settled(s)
            && (forall i :: 0 <= i < |s.slots| ==> (s.slots[i].used <==> s.slots[i].fd >= 0))
            && (forall i, j :: 0 <= i < j < |s.slots| && s.slots[i].joined && s.slots[j].joined ==>
                  s.slots[i].nick != s.slots[j].nick)
  {
    hide Inv, Settled;
    StartInv(failing);
    EventsKeepInv(Start(failing), es) by { StartSettled(failing); }
    TableLaw(HandleAll(Start(failing), es));
  }

  lemma StartSettled(failing: set<nat>)
    ensures Settled(Start(failing))
  {}

  /** Chunking is invisible over whole runs: for every client, whatever the other clients did in between,
      the frames dispatched and the bytes buffered are the one-shot decoding of what it sent. */
  lemma StreamsAfterAnyRun(failing: set<nat>, es: seq<Event>, i: nat)
    requires EventsLegal(Start(failing), es)
    requires i < |HandleAll(Start(failing), es).slots| && HandleAll(Start(failing), es).slots[i].used
    ensures var s := HandleAll(Start(failing), es);
            ParseAll(Arrived(s.trace, s.slots[i].fd))
              == Parsed(Dispatched(s.trace, s.slots[i].fd), s.slots[i].inbuf, false)
  {
    StartInv(failing);
    EventsKeepInv(Start(failing), es);
    ConnectionParse(HandleAll(Start(failing), es), i);
  }

  /** A client that has sent a list of frames, in whatever pieces they arrived, has had exactly these frames
      dispatched in order, and nothing is left in its buffer. */
  lemma FramesReachServer(s: State, i: nat, fs: seq<Frame>)
    requires Inv(s) && Settled(s) && i < |s.slots| && s.slots[i].used
    requires AllFit(fs) && Arrived(s.trace, s.slots[i].fd) == EncodeAll(fs)
    ensures Dispatched(s.trace, s.slots[i].fd) == fs && s.slots[i].inbuf == []
  {
    hide Inv, Encode, EncodeAll;
    ConnectionParse(s, i);
    PeekEmpty();
    ParseUnique(fs, []);
    assert EncodeAll(fs) + [] == EncodeAll(fs);
  }

  /** One data event: the connection is closed exactly when the bytes so far contain an invalid header
      after complete frames, and the frames before it are dispatched in order either way. */
  lemma DataEvent(s: State, i: nat, chunk: Text)
    requires Inv(s) && Settled(s) && EventLegal(s, Data(i, chunk))
    ensures var t, fd := Handle(s, Data(i, chunk)), s.slots[i].fd;
            var p := ParseAll(Arrived(s.trace, fd) + chunk);
            && Dispatched(t.trace, fd) == p.frames
            && (t.slots[i].used <==> !p.bad)
            && (t.slots[i].used ==> t.slots[i].fd == fd && t.slots[i].inbuf == p.rest)
  {
    OverflowUnreachable(s, i, chunk);
    ReceiveKeepsInv(s, i, chunk);
    ReceiveView(s, i, chunk, s.slots[i].fd);
    ProcessDecodes(ReceiveInto(s, i, chunk), i);
  }

  /** Live ids are the ranks of the connections in accept order, modulo 2^32: two clients share one exactly
      when their ranks agree modulo 2^32. Below 2^32 accepts the ids are the ranks themselves, so pairwise
      different and ordered as the accepts were. */
  lemma IdsFollowAcceptOrder(s: State, i: nat, j: nat)
    requires Inv(s) && i < |s.slots| && j < |s.slots| && i != j && s.slots[i].used && s.slots[j].used
    ensures var a, b := Ordinal(s.trace, s.slots[i].fd), Ordinal(s.trace, s.slots[j].fd);
            && a != b
            && (s.slots[i].id == s.slots[j].id <==> a % WRAP == b % WRAP)
            && (OpenCount(s.trace) < WRAP ==>
                  && s.slots[i].id == a && s.slots[i].id != s.slots[j].id
                  && (s.slots[i].id < s.slots[j].id <==> a < b))
  {
    assert ConnectionOk(s.slots[i], s.trace) && ConnectionOk(s.slots[j], s.trace);
    assert s.slots[i].fd != s.slots[j].fd;
    if Ordinal(s.trace, s.slots[i].fd) == Ordinal(s.trace, s.slots[j].fd) {
      OrdinalInjective(s.trace, s.slots[i].fd, s.slots[j].fd);
    }
  }
}
