/** Safety of whole server runs: the slot table, the ids, the receive buffers and the frames sent. */
module ServerRuns {
  import opened Bytes
  import opened ChatProto
  import opened Framing
  import opened ServerSpec

  // ---- reading a trace: everything about a descriptor counts from its last opening ----

  function OpenCount(tr: seq<Entry>): nat
  {
    if tr == [] then 0 else OpenCount(tr[..|tr| - 1]) + (if tr[|tr| - 1].Opened? then 1 else 0)
  }

  /** The rank of the descriptor's current connection among all connections accepted, from 1; 0 if none. */
  function Ordinal(tr: seq<Entry>, fd: int): (n: nat)
    ensures n <= OpenCount(tr)
  {
    if tr == [] then 0
    else if tr[|tr| - 1] == Opened(fd) then OpenCount(tr)
    else Ordinal(tr[..|tr| - 1], fd)
  }

  /** The bytes received on the descriptor's current connection. */
  function Arrived(tr: seq<Entry>, fd: int): Text
  {
    if tr == [] || tr[|tr| - 1] == Opened(fd) then []
    else
      var e := tr[|tr| - 1];
      Arrived(tr[..|tr| - 1], fd) + (if e.Got? && e.fd == fd then e.chunk else [])
  }

  /** The frames dispatched for the descriptor's current connection. */
  function Dispatched(tr: seq<Entry>, fd: int): seq<Frame>
  {
    if tr == [] || tr[|tr| - 1] == Opened(fd) then []
    else
      var e := tr[|tr| - 1];
      Dispatched(tr[..|tr| - 1], fd) + (if e.Took? && e.fd == fd then [e.frame] else [])
  }

  lemma Append(tr: seq<Entry>, e: Entry, fd: int)
    ensures OpenCount(tr + [e]) == OpenCount(tr) + (if e.Opened? then 1 else 0)
    ensures Ordinal(tr + [e], fd) == if e == Opened(fd) then OpenCount(tr) + 1 else Ordinal(tr, fd)
    ensures Arrived(tr + [e], fd) == if e == Opened(fd) then []
                                     else Arrived(tr, fd) + (if e.Got? && e.fd == fd then e.chunk else [])
    ensures Dispatched(tr + [e], fd) == if e == Opened(fd) then []
                                        else Dispatched(tr, fd) + (if e.Took? && e.fd == fd then [e.frame] else [])
  {
    assert (tr + [e])[..|tr|] == tr;
  }

  /** Sends leave everything above as it was. */
  lemma {:induction false} SendsAreQuiet(before: seq<Entry>, after: seq<Entry>, fd: int)
    requires SendsOnly(before, after)
    ensures OpenCount(after) == OpenCount(before) && Ordinal(after, fd) == Ordinal(before, fd)
    ensures Arrived(after, fd) == Arrived(before, fd) && Dispatched(after, fd) == Dispatched(before, fd)
    decreases |after|
  {
    if |before| == |after| {
      assert before == after;
    } else {
      var front := after[..|after| - 1];
      SendsAreQuiet(before, front, fd);
      Append(front, after[|after| - 1], fd);
      assert after == front + [after[|after| - 1]];
    }
  }

  lemma {:induction false} OrdinalInjective(tr: seq<Entry>, a: int, b: int)
    requires Ordinal(tr, a) == Ordinal(tr, b) > 0
    ensures a == b
    decreases |tr|
  {
    if tr[|tr| - 1] != Opened(a) && tr[|tr| - 1] != Opened(b) {
      OrdinalInjective(tr[..|tr| - 1], a, b);
    }
  }

  // ---- the invariant ----

  predicate SlotOk(c: Slot)
  {
    && (!c.used ==> c == EMPTY_SLOT)
    && (c.used ==> c.fd >= 0)
    && |c.nick| <= MAX_NICK && NUL !in c.nick
    && |c.inbuf| <= RECV_CAP
  }

  ghost predicate TableOk(slots: seq<Slot>)
  {
    && (forall i :: 0 <= i < |slots| ==> SlotOk(slots[i]))
    && (forall i, j :: 0 <= i < j < |slots| && slots[i].used && slots[j].used ==> slots[i].fd != slots[j].fd)
    && (forall i, j :: 0 <= i < j < |slots| && slots[i].Online() && slots[j].Online() ==>
          slots[i].nick != slots[j].nick)
  }

  const WRAP: nat := 0x1_0000_0000

  ghost predicate ConnectionOk(c: Slot, tr: seq<Entry>)
  {
    && Ordinal(tr, c.fd) > 0 && c.id == Ordinal(tr, c.fd) % WRAP
    && AllFit(Dispatched(tr, c.fd))
    && EncodeAll(Dispatched(tr, c.fd)) + c.inbuf == Arrived(tr, c.fd)
  }

  ghost predicate LineOk(t: Text) { |t| <= MAX_BODY && NUL !in t }

  ghost predicate Connections(slots: seq<Slot>, tr: seq<Entry>)
  {
    forall i :: 0 <= i < |slots| && slots[i].used ==> ConnectionOk(slots[i], tr)
  }

  ghost predicate SaidOk(said: seq<Text>) { forall k :: 0 <= k < |said| ==> LineOk(said[k]) }

  /** Every frame ever written passes `chat_header_valid` at its receiver. */
  ghost predicate FramesOk(tr: seq<Entry>) { forall k :: 0 <= k < |tr| && tr[k].Sent? ==> Fits(tr[k].frame) }

  ghost predicate Inv(s: State)
  {
    && TableOk(s.slots)
    && Connections(s.slots, s.trace)
    && s.nextId == (OpenCount(s.trace) + 1) % WRAP
    && SaidOk(s.said)
    && FramesOk(s.trace)
  }

  lemma StartInv(failing: set<nat>)
    ensures Inv(Start(failing))
  {}

  /** Two traces agree on the descriptor's current connection. */
  ghost predicate SameView(a: seq<Entry>, b: seq<Entry>, fd: int)
  {
    && Ordinal(a, fd) == Ordinal(b, fd)
    && Arrived(a, fd) == Arrived(b, fd) && Dispatched(a, fd) == Dispatched(b, fd)
  }

  lemma SendsSameView(before: seq<Entry>, after: seq<Entry>, fd: int)
    requires SendsOnly(before, after)
    ensures SameView(before, after, fd) && OpenCount(before) == OpenCount(after)
  {
    SendsAreQuiet(before, after, fd);
  }

  lemma FramesOkSends(before: seq<Entry>, after: seq<Entry>)
    requires FramesOk(before) && SendsOnly(before, after)
    ensures FramesOk(after)
  {
    forall k | 0 <= k < |after| && after[k].Sent?
      ensures Fits(after[k].frame)
    {
      if k < |before| { assert after[k] == before[k]; }
    }
  }

  /** If all but slot `i` are untouched and see the same trace, only slot `i` is left to check. */
  lemma ConnectionsExcept(a: seq<Slot>, tr: seq<Entry>, b: seq<Slot>, tr': seq<Entry>, i: int)
    requires Connections(a, tr) && |b| == |a|
    requires forall j :: 0 <= j < |a| && j != i ==> b[j] == a[j]
    requires forall j :: 0 <= j < |a| && j != i && a[j].used ==> SameView(tr, tr', a[j].fd)
    requires 0 <= i < |b| && b[i].used ==> ConnectionOk(b[i], tr')
    ensures Connections(b, tr')
  {
    hide EncodeAll;
    forall j | 0 <= j < |b| && b[j].used
      ensures ConnectionOk(b[j], tr')
    {
      if j != i { assert ConnectionOk(a[j], tr); }
    }
  }

  // ---- accept ----

  lemma AcceptKeepsTable(s: State, fd: int)
    requires TableOk(s.slots) && Legal(s, Accept(fd))
    ensures TableOk(AcceptOne(s, fd).slots)
  {}

  lemma AcceptKeepsFrames(s: State, fd: int)
    requires FramesOk(s.trace)
    ensures FramesOk(AcceptOne(s, fd).trace)
  {}

  lemma AcceptView(s: State, fd: int, f: int)
    ensures var t, ok := AcceptOne(s, fd).trace, FirstFree(s.slots, |s.slots|) >= 0;
            && OpenCount(t) == OpenCount(s.trace) + (if ok then 1 else 0)
            && (ok && f == fd ==> Ordinal(t, f) == OpenCount(t) && Arrived(t, f) == [] && Dispatched(t, f) == [])
            && (!ok || f != fd ==> SameView(s.trace, t, f))
  {
    if FirstFree(s.slots, |s.slots|) >= 0 {
      Append(s.trace, Opened(fd), f);
    } else {
      var u := Log(s, Refused(fd));
      var v := WriteTo(u, fd, FullHeader());
      var w := WriteTo(v, fd, FULL.body);
      Append(s.trace, Refused(fd), f);
      Append(u.trace, Wrote(fd, FullHeader(), SendWorks(u)), f);
      Append(v.trace, Wrote(fd, FULL.body, SendWorks(v)), f);
      Append(w.trace, Closed(fd), f);
    }
  }

  lemma AcceptKeepsInv(s: State, fd: int)
    requires Inv(s) && Legal(s, Accept(fd))
    ensures Inv(Apply(s, Accept(fd)))
  {
    hide EncodeAll, Ordinal, Arrived, Dispatched, OpenCount, AcceptOne, TableOk, Connections, SaidOk, FramesOk;
    AcceptKeepsTable(s, fd);
    AcceptKeepsFrames(s, fd);
    AcceptCounts(s, fd);
    AcceptConnections(s, fd);
  }

  lemma AcceptCounts(s: State, fd: int)
    requires s.nextId == (OpenCount(s.trace) + 1) % WRAP
    ensures var t := AcceptOne(s, fd); t.said == s.said && t.nextId == (OpenCount(t.trace) + 1) % WRAP
  {
    hide OpenCount, Ordinal, Arrived, Dispatched;
    AcceptView(s, fd, fd);
  }

  lemma AcceptConnections(s: State, fd: int)
    requires Inv(s) && Legal(s, Accept(fd))
    ensures Connections(AcceptOne(s, fd).slots, AcceptOne(s, fd).trace)
  {
    hide Ordinal, Arrived, Dispatched, OpenCount, FramesOk, SaidOk;
    var t, i := AcceptOne(s, fd), FirstFree(s.slots, |s.slots|);
    forall j | 0 <= j < |s.slots| && s.slots[j].used ensures SameView(s.trace, t.trace, s.slots[j].fd)
    {
      AcceptView(s, fd, s.slots[j].fd);
    }
    AcceptView(s, fd, fd);
    ConnectionsExcept(s.slots, s.trace, t.slots, t.trace, i);
  }

  // ---- receive ----

  lemma ReceiveView(s: State, i: nat, chunk: Text, f: int)
    requires i < |s.slots|
    ensures var t, c := ReceiveInto(s, i, chunk).trace, s.slots[i];
            && OpenCount(t) == OpenCount(s.trace) && Ordinal(t, f) == Ordinal(s.trace, f)
            && Dispatched(t, f) == Dispatched(s.trace, f)
            && Arrived(t, f) == Arrived(s.trace, f) + (if f == c.fd then chunk else [])
  {
    Append(s.trace, Got(s.slots[i].fd, chunk), f);
  }

  lemma ReceiveKeepsInv(s: State, i: nat, chunk: Text)
    requires Inv(s) && Legal(s, Receive(i, chunk))
    ensures Inv(Apply(s, Receive(i, chunk)))
  {
    hide EncodeAll, Ordinal, Arrived, Dispatched, OpenCount;
    ReceiveView(s, i, chunk, 0);
    ReceiveConnections(s, i, chunk);
    assert TableOk(ReceiveInto(s, i, chunk).slots);
    assert FramesOk(ReceiveInto(s, i, chunk).trace);
  }

  lemma ReceiveConnections(s: State, i: nat, chunk: Text)
    requires Inv(s) && Legal(s, Receive(i, chunk))
    ensures Connections(ReceiveInto(s, i, chunk).slots, ReceiveInto(s, i, chunk).trace)
  {
    hide EncodeAll, Ordinal, Arrived, Dispatched, OpenCount, FramesOk, SaidOk;
    var c, t := s.slots[i], ReceiveInto(s, i, chunk);
    forall f: int ensures f != c.fd ==> SameView(s.trace, t.trace, f) { ReceiveView(s, i, chunk, f); }
    assert ConnectionOk(c, s.trace);
    ReceiveView(s, i, chunk, c.fd);
    var taken := EncodeAll(Dispatched(s.trace, c.fd));
    assert taken + (c.inbuf + chunk) == (taken + c.inbuf) + chunk;
    ConnectionsExcept(s.slots, s.trace, t.slots, t.trace, i);
  }

  // ---- take ----

  /** Dispatching a frame keeps the table sound: the one handler that sets a nick checks it first. */
  lemma DispatchKeepsTable(s: State, i: nat, f: Frame)
    requires i < |s.slots| && s.slots[i].used && TableOk(s.slots)
    ensures TableOk(Dispatch(s, i, f).slots)
  {
    var t := Dispatch(s, i, f);
    if f.kind == JOIN && !s.slots[i].joined {
      if t.slots != s.slots {
        var nick := CStr(TrimEol(f.body));
        assert t.slots == s.slots[i := s.slots[i].(nick := nick, joined := true)];
        assert !NickTaken(s.slots, nick, i);
      }
    } else {
      assert t.slots == s.slots;
    }
  }

  lemma BroadcastLineWhole(nick: Text, body: Text)
    requires NUL !in nick
    ensures NUL !in BroadcastLine(nick, body)
  {
    assert NUL !in Ascii(": ");
    assert NUL !in nick + Ascii(": ") + CStr(body);
  }

  lemma DispatchKeepsSaid(s: State, i: nat, f: Frame)
    requires i < |s.slots| && TableOk(s.slots) && SaidOk(s.said)
    ensures SaidOk(Dispatch(s, i, f).said)
  {
    if f.kind == BROADCAST && s.slots[i].joined {
      BroadcastLineWhole(s.slots[i].nick, f.body);
    }
  }

  lemma TakeView(s: State, i: nat, fd: int)
    requires Legal(s, Take(i))
    ensures var c, t := s.slots[i], Apply(s, Take(i)).trace;
            && OpenCount(t) == OpenCount(s.trace) && Ordinal(t, fd) == Ordinal(s.trace, fd)
            && Arrived(t, fd) == Arrived(s.trace, fd)
            && Dispatched(t, fd) == Dispatched(s.trace, fd) + (if fd == c.fd then [Peek(c.inbuf).frame] else [])
  {
    hide Peek;
    var c, h := s.slots[i], Peek(s.slots[i].inbuf);
    var u := Log(s, Took(c.fd, h.frame));
    Append(s.trace, Took(c.fd, h.frame), fd);
    SendsAreQuiet(u.trace, Dispatch(u, i, h.frame).trace, fd);
  }

  lemma TakeKeepsInv(s: State, i: nat)
    requires Inv(s) && Legal(s, Take(i))
    ensures Inv(Apply(s, Take(i)))
  {
    hide Peek, Dispatch, EncodeAll, Ordinal, Arrived, Dispatched, OpenCount;
    var c, h, v := s.slots[i], Peek(s.slots[i].inbuf), Apply(s, Take(i));
    var u := Log(s, Took(c.fd, h.frame));
    var t := Dispatch(u, i, h.frame);
    DispatchKeepsTable(u, i, h.frame);
    DispatchKeepsSaid(u, i, h.frame);
    FramesOkSends(u.trace, t.trace);
    TakeView(s, i, 0);
    forall f: int ensures f != c.fd ==> SameView(s.trace, v.trace, f) { TakeView(s, i, f); }
    TakenConnection(s, i);
    ConnectionsExcept(s.slots, s.trace, v.slots, v.trace, i);
    assert TableOk(v.slots) by { assert TableOk(t.slots); assert v.slots == t.slots[i := v.slots[i]]; }
    assert v.trace == t.trace && v.said == t.said;
  }

  lemma TakenConnection(s: State, i: nat)
    requires Inv(s) && Legal(s, Take(i))
    ensures var v := Apply(s, Take(i)); ConnectionOk(v.slots[i], v.trace)
  {
    hide Peek, EncodeAll, Encode, Ordinal, Arrived, Dispatched, OpenCount;
    var c, h, v := s.slots[i], Peek(s.slots[i].inbuf), Apply(s, Take(i));
    assert ConnectionOk(c, s.trace);
    TakeView(s, i, c.fd);
    PeekSound(c.inbuf);
    var fs := Dispatched(s.trace, c.fd);
    EncodeAllSnoc(fs, h.frame);
    var tail := c.inbuf[h.need..];
    assert EncodeAll(fs) + (Encode(h.frame) + tail) == (EncodeAll(fs) + Encode(h.frame)) + tail;
  }

  // ---- close and remove ----

  lemma CloseKeepsInv(s: State, i: nat)
    requires Inv(s) && i < |s.slots|
    ensures Inv(CloseSlot(s, i))
  {
    hide EncodeAll, Ordinal, Arrived, Dispatched, OpenCount;
    var t := CloseSlot(s, i);
    if s.slots[i].fd >= 0 {
      Append(s.trace, Closed(s.slots[i].fd), 0);
      forall f: int ensures SameView(s.trace, t.trace, f) { Append(s.trace, Closed(s.slots[i].fd), f); }
    }
    ConnectionsExcept(s.slots, s.trace, t.slots, t.trace, i);
  }

  lemma SendsKeepInv(s: State, t: State)
    requires Inv(s) && t == s.(trace := t.trace) && SendsOnly(s.trace, t.trace)
    ensures Inv(t)
  {
    hide EncodeAll, Ordinal, Arrived, Dispatched, OpenCount;
    forall f: int ensures SameView(s.trace, t.trace, f) { SendsSameView(s.trace, t.trace, f); }
    SendsSameView(s.trace, t.trace, 0);
    FramesOkSends(s.trace, t.trace);
    ConnectionsExcept(s.slots, s.trace, t.slots, t.trace, -1);
  }

  lemma RemoveKeepsInv(s: State, i: nat)
    requires Inv(s) && i < |s.slots|
    ensures Inv(RemoveClient(s, i))
  {
    hide Inv;
    var c := s.slots[i];
    if c.joined {
      var t := FanOut(s, Frame(NOTIFY, Clamp(Snprintf(MAX_BODY + 1, PartNote(c.nick)))), i, |s.slots|);
      SendsKeepInv(s, t);
      CloseKeepsInv(t, i);
    } else {
      CloseKeepsInv(s, i);
    }
  }

  lemma MoveKeepsInv(s: State, m: Move)
    requires Inv(s) && Legal(s, m)
    ensures Inv(Apply(s, m))
  {
    hide Inv;
    match m
    case Accept(fd) => AcceptKeepsInv(s, fd);
    case Receive(i, chunk) => ReceiveKeepsInv(s, i, chunk);
    case Take(i) => TakeKeepsInv(s, i);
    case Reject(i) => CloseKeepsInv(s, i);
    case Remove(i) => RemoveKeepsInv(s, i);
  }

  /** Every reachable state satisfies the invariant. */
  lemma {:induction false} RunKeepsInv(s: State, ms: seq<Move>)
    requires Inv(s) && LegalRun(s, ms)
    ensures Inv(Run(s, ms))
    decreases |ms|
  {
    if ms != [] {
      MoveKeepsInv(s, ms[0]);
      RunKeepsInv(Apply(s, ms[0]), ms[1..]);
    }
  }
}
