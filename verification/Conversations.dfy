/** What each client hears: the chat history, join and leave notices, private messages. */
module Conversations {
  import opened Bytes
  import opened ChatProto
  import opened Framing
  import opened ServerSpec
  import opened ServerRuns

  /** The frames delivered on the descriptor's current connection. */
  function Delivered(tr: seq<Entry>, fd: int): seq<Frame>
  {
    if tr == [] || tr[|tr| - 1] == Opened(fd) then []
    else
      var e := tr[|tr| - 1];
      Delivered(tr[..|tr| - 1], fd) + (if e.Sent? && e.fd == fd && e.ok then [e.frame] else [])
  }

  lemma DeliveredAppend(tr: seq<Entry>, e: Entry, fd: int)
    ensures e == Opened(fd) ==> Delivered(tr + [e], fd) == []
    ensures e.Sent? && e.fd == fd && e.ok ==> Delivered(tr + [e], fd) == Delivered(tr, fd) + [e.frame]
    ensures e != Opened(fd) && !(e.Sent? && e.fd == fd && e.ok) ==> Delivered(tr + [e], fd) == Delivered(tr, fd)
  {
    assert (tr + [e])[..|tr|] == tr;
  }

  lemma SendDelivers(s: State, to: int, f: Frame, fd: int)
    requires Fits(f) && s.failing == {}
    ensures to == fd ==> Delivered(SendTo(s, to, f).trace, fd) == Delivered(s.trace, fd) + [f]
    ensures to != fd ==> Delivered(SendTo(s, to, f).trace, fd) == Delivered(s.trace, fd)
  {
    DeliveredAppend(s.trace, Sent(to, f, true), fd);
  }

  /** A fan-out reaches the connection of slot `k` once if it is joined and not skipped, else not at all. */
  lemma {:induction false} FanOutDelivers(s: State, f: Frame, skip: int, n: nat, k: nat)
    requires n <= |s.slots| && Fits(f) && s.failing == {} && TableOk(s.slots)
    requires k < |s.slots| && s.slots[k].used
    ensures var before, after := Delivered(s.trace, s.slots[k].fd), Delivered(FanOut(s, f, skip, n).trace, s.slots[k].fd);
            after == if k < n && s.slots[k].Online() && k != skip then before + [f] else before
  {
    hide Delivered;
    if n > 0 {
      FanOutDelivers(s, f, skip, n - 1, k);
      if s.slots[n - 1].Online() && n - 1 != skip {
        SendDelivers(FanOut(s, f, skip, n - 1), s.slots[n - 1].fd, f, s.slots[k].fd);
      }
    }
  }

  function HistoryFrames(lines: seq<Text>): (fs: seq<Frame>)
    ensures |fs| == |lines|
  {
    seq(|lines|, k requires 0 <= k < |lines| => Frame(HISTORY, lines[k]))
  }

  lemma {:induction false} HistoryDelivers(s: State, to: int, lines: seq<Text>, fd: int)
    requires s.failing == {} && SaidOk(lines)
    ensures var before, after := Delivered(s.trace, fd), Delivered(SendHistory(s, to, lines).trace, fd);
            after == if to == fd then before + HistoryFrames(lines) else before
    decreases |lines|
  {
    hide Delivered;
    if lines != [] {
      assert LineOk(lines[0]);
      var f := Frame(HISTORY, lines[0]);
      SendDelivers(s, to, f, fd);
      HistoryDelivers(SendTo(s, to, f), to, lines[1..], fd);
      assert HistoryFrames(lines) == [f] + HistoryFrames(lines[1..]);
      var before := Delivered(s.trace, fd);
      assert before + [f] + HistoryFrames(lines[1..]) == before + ([f] + HistoryFrames(lines[1..]));
    }
  }

  // ---- formatted lines are never cut ----

  /** With nicks of at most 31 bytes, `snprintf` has room for every line the server formats. */
  lemma NothingIsCut(c: Slot, target: Text, body: Text)
    requires SlotOk(c) && |target| <= MAX_NICK && |body| <= MAX_BODY
    ensures Snprintf(128, AckText(c.id, c.nick)) == AckText(c.id, c.nick)
    ensures Clamp(Snprintf(MAX_BODY + 1, JoinNote(c.nick))) == JoinNote(c.nick)
    ensures Clamp(Snprintf(MAX_BODY + 1, PartNote(c.nick))) == PartNote(c.nick)
    ensures BroadcastLine(c.nick, body) == c.nick + Ascii(": ") + CStr(body)
    ensures |target| + 1 + |body| <= MAX_BODY ==>
              PrivateLine(c.nick, target, body)
                == Ascii("(pm ") + c.nick + Ascii(" -> ") + target + Ascii(") ") + CStr(body)
  {
    DecimalU32(c.id);
  }

  /** What the laws below need of a state: a sound table, sound lines, and sends that succeed. */
  ghost predicate Reliable(s: State) { TableOk(s.slots) && SaidOk(s.said) && s.failing == {} }

  // ---- joining ----

  /** A successful join: the newcomer gets JOIN_ACK and then exactly the last 32 broadcast lines as
      HISTORY, every other joined client gets the notice, and nobody else anything. */
  lemma JoinDelivers(s: State, i: nat, body: Text, k: nat)
    requires Reliable(s) && i < |s.slots| && s.slots[i].used && !s.slots[i].joined
    requires HandleJoin(s, i, body).slots[i].joined
    requires k < |s.slots| && s.slots[k].used
    ensures var t, fd := HandleJoin(s, i, body), s.slots[k].fd;
            var had := Delivered(s.trace, fd);
            Delivered(t.trace, fd)
              == if k == i then had + [Frame(JOIN_ACK, AckText(s.slots[i].id, t.slots[i].nick))]
                                    + HistoryFrames(Last(s.said, 32))
                 else if s.slots[k].joined then had + [Frame(NOTIFY, JoinNote(t.slots[i].nick))]
                 else had
  {
    hide Delivered;
    var t, fd := HandleJoin(s, i, body), s.slots[k].fd;
    DispatchKeepsTable(s, i, Frame(JOIN, body));
    var u := s.(slots := t.slots);
    var c := u.slots[i];
    NothingIsCut(c, [], []);
    assert t == Welcome(u, i);
    var ack := Frame(JOIN_ACK, AckText(c.id, c.nick));
    var note := Frame(NOTIFY, JoinNote(c.nick));
    SendDelivers(u, c.fd, ack, fd);
    var v := SendTo(u, c.fd, ack);
    HistoryDelivers(v, c.fd, Last(s.said, HISTORY_LINES), fd);
    FanOutDelivers(SendHistory(v, c.fd, Last(s.said, HISTORY_LINES)), note, i, |s.slots|, k);
  }

  /** Exactly when a JOIN body is accepted: 1 to 31 bytes, not only line ends, and its C string not the nick
      of another joined client. The nick is that C string: the trimmed body if and only if that contains no
      NUL, and empty if and only if the body begins with one. */
  lemma JoinAccepted(s: State, i: nat, body: Text)
    requires i < |s.slots| && !s.slots[i].joined
    ensures var t := HandleJoin(s, i, body);
            && (t.slots[i].joined <==>
                  && 1 <= |body| <= MAX_NICK
                  && (exists k :: 0 <= k < |body| && body[k] != LF && body[k] != CR)
                  && !NickTaken(s.slots, CStr(TrimEol(body)), i))
            && (t.slots[i].joined ==>
                  && t.slots[i].nick == CStr(TrimEol(body))
                  && (t.slots[i].nick == TrimEol(body) <==> NUL !in TrimEol(body))
                  && (t.slots[i].nick == [] <==> body[0] == NUL))
            && (!t.slots[i].joined ==> t.slots == s.slots)
  {
    var nick := TrimEol(body);
    if nick != [] {
      assert body[|nick| - 1] == nick[|nick| - 1];
      assert body[0] == nick[0];
    }
    if NUL !in nick { CStrWhole(nick); }
  }

  /** A body starting with NUL is accepted as the empty nick unless that is taken, and no private message can
      reach its owner. */
  lemma EmptyNickJoins(s: State, i: nat, rest: Text, body: Text)
    requires i < |s.slots| && !s.slots[i].joined && |rest| < MAX_NICK && !NickTaken(s.slots, [], i)
    ensures var t := HandleJoin(s, i, [NUL] + rest); t.slots[i].joined && t.slots[i].nick == []
    ensures SplitPrivate(body).Whisper? ==> SplitPrivate(body).target != []
  {
    var name := [NUL] + rest;
    assert name[0] == NUL;
    assert TrimEol(name) != [];
    JoinAccepted(s, i, name);
  }

  // ---- selecting frames by kind ----

  /** The bodies of the frames of the given kinds, in order. */
  function Texts(fs: seq<Frame>, kinds: set<u32>): seq<Text>
  {
    if fs == [] then []
    else
      var f := fs[|fs| - 1];
      Texts(fs[..|fs| - 1], kinds) + (if f.kind in kinds then [f.body] else [])
  }

  lemma OneMore(fs: seq<Frame>, f: Frame, kinds: set<u32>)
    ensures Texts(fs + [f], kinds) == if f.kind in kinds then Texts(fs, kinds) + [f.body] else Texts(fs, kinds)
  {
    assert (fs + [f])[..|fs|] == fs;
  }

  lemma {:induction false} TextsConcat(a: seq<Frame>, b: seq<Frame>, kinds: set<u32>)
    ensures Texts(a + b, kinds) == Texts(a, kinds) + Texts(b, kinds)
    decreases |b|
  {
    if b == [] {
      assert a + b == a;
    } else {
      assert (a + b)[..|a + b| - 1] == a + b[..|b| - 1];
      TextsConcat(a, b[..|b| - 1], kinds);
    }
  }

  lemma {:induction false} TextsOfHistory(lines: seq<Text>, kinds: set<u32>)
    ensures Texts(HistoryFrames(lines), kinds) == if HISTORY in kinds then lines else []
    decreases |lines|
  {
    if lines != [] {
      var front := lines[..|lines| - 1];
      assert HistoryFrames(lines)[..|lines| - 1] == HistoryFrames(front);
      TextsOfHistory(front, kinds);
    }
  }

  /** A frame of another kind leaves the selection as it was. */
  lemma SendSilent(s: State, to: int, f: Frame, fd: int, kinds: set<u32>)
    requires Fits(f) && s.failing == {} && f.kind !in kinds
    ensures Texts(Delivered(SendTo(s, to, f).trace, fd), kinds) == Texts(Delivered(s.trace, fd), kinds)
  {
    hide Delivered, Texts;
    SendDelivers(s, to, f, fd);
    OneMore(Delivered(s.trace, fd), f, kinds);
  }

  lemma QuietEntry(tr: seq<Entry>, e: Entry, fd: int)
    requires !e.Sent? && e != Opened(fd)
    ensures Delivered(tr + [e], fd) == Delivered(tr, fd)
  {
    DeliveredAppend(tr, e, fd);
  }

  lemma TurnAwayQuiet(s: State, to: int, fd: int)
    ensures Delivered(TurnAway(s, to).trace, fd) == Delivered(s.trace, fd)
  {
    hide Delivered;
    var u := Log(s, Refused(to));
    var v := WriteTo(u, to, FullHeader());
    var w := WriteTo(v, to, FULL.body);
    QuietEntry(s.trace, Refused(to), fd);
    QuietEntry(u.trace, Wrote(to, FullHeader(), SendWorks(u)), fd);
    QuietEntry(v.trace, Wrote(to, FULL.body, SendWorks(v)), fd);
    QuietEntry(w.trace, Closed(to), fd);
  }

  /** The bytes written to a connection turned away. */
  function WrittenTo(tr: seq<Entry>, fd: int): Text
  {
    if tr == [] || tr[|tr| - 1] == Refused(fd) then []
    else
      var e := tr[|tr| - 1];
      WrittenTo(tr[..|tr| - 1], fd) + (if e.Wrote? && e.fd == fd && e.ok then e.bytes else [])
  }

  lemma WrittenAppend(tr: seq<Entry>, e: Entry, fd: int)
    ensures WrittenTo(tr + [e], fd) == if e == Refused(fd) then []
                                       else if e.Wrote? && e.fd == fd && e.ok then WrittenTo(tr, fd) + e.bytes
                                       else WrittenTo(tr, fd)
  {
    assert (tr + [e])[..|tr|] == tr;
  }

  /** A connection that finds no free slot is closed at once; if both writes succeed it has been sent exactly
      the frame ERROR "Server full", and no client hears anything. */
  lemma TurnedAwayIsTold(s: State, fd: int, k: nat)
    requires Legal(s, Accept(fd)) && (forall j :: 0 <= j < |s.slots| ==> s.slots[j].used) && k < |s.slots|
    ensures var t := Apply(s, Accept(fd));
            && t.slots == s.slots && t.nextId == s.nextId && t.trace[|t.trace| - 1] == Closed(fd)
            && Delivered(t.trace, s.slots[k].fd) == Delivered(s.trace, s.slots[k].fd)
            && (s.failing == {} ==> WrittenTo(t.trace, fd) == Encode(Frame(ERROR, Ascii("Server full"))))
  {
    hide Delivered, WrittenTo, Ascii;
    TurnAwayQuiet(s, fd, s.slots[k].fd);
    var u := Log(s, Refused(fd));
    var v := WriteTo(u, fd, FullHeader());
    var w := WriteTo(v, fd, FULL.body);
    WrittenAppend(s.trace, Refused(fd), fd);
    WrittenAppend(u.trace, Wrote(fd, FullHeader(), SendWorks(u)), fd);
    WrittenAppend(v.trace, Wrote(fd, FULL.body, SendWorks(v)), fd);
    WrittenAppend(w.trace, Closed(fd), fd);
    assert [] + FullHeader() == FullHeader();
  }

  /** A JOIN that does not succeed sends at most one ERROR frame. */
  lemma RefusalSilent(s: State, i: nat, f: Frame, fd: int, kinds: set<u32>)
    requires s.failing == {} && i < |s.slots| && ERROR !in kinds
    requires f.kind == JOIN && (s.slots[i].joined || !HandleJoin(s, i, f.body).slots[i].joined)
    ensures Texts(Delivered(Dispatch(s, i, f).trace, fd), kinds) == Texts(Delivered(s.trace, fd), kinds)
  {
    hide Delivered, Texts;
    var to := s.slots[i].fd;
    SendSilent(s, to, Frame(ERROR, Ascii("Already joined")), fd, kinds);
    SendSilent(s, to, Frame(ERROR, Ascii("Invalid nickname length")), fd, kinds);
    SendSilent(s, to, Frame(ERROR, Ascii("Empty nickname")), fd, kinds);
    SendSilent(s, to, Frame(ERROR, Ascii("Nickname already in use")), fd, kinds);
  }

  lemma PrivateSilent(s: State, i: nat, body: Text, fd: int, kinds: set<u32>)
    requires s.failing == {} && i < |s.slots| && ERROR !in kinds && PRIVATE !in kinds
    ensures Texts(Delivered(HandlePrivate(s, i, body).trace, fd), kinds) == Texts(Delivered(s.trace, fd), kinds)
  {
    hide Delivered, Texts;
    var c := s.slots[i];
    SendSilent(s, c.fd, Frame(ERROR, Ascii("Malformed private message (need target\\0text)")), fd, kinds);
    SendSilent(s, c.fd, Frame(ERROR, Ascii("Invalid private message")), fd, kinds);
    SendSilent(s, c.fd, Frame(ERROR, Ascii("User not found")), fd, kinds);
    if SplitPrivate(body).Whisper? {
      var w := SplitPrivate(body);
      var to := Holder(s.slots, w.target, |s.slots|);
      if to >= 0 {
        var f := Frame(PRIVATE, Clamp(PrivateLine(c.nick, w.target, w.text)));
        SendSilent(s, s.slots[to].fd, f, fd, kinds);
        SendSilent(SendTo(s, s.slots[to].fd, f), c.fd, f, fd, kinds);
      }
    }
  }

  // ---- the chat history ----

  const CHAT: set<u32> := {HISTORY, BROADCAST}

  /** `a` is the last part of `b`. */
  ghost predicate IsTail<T(!new)>(a: seq<T>, b: seq<T>) { |a| <= |b| && a == b[|b| - |a|..] }

  /** What a client on this slot has been shown: nothing before it joins; afterwards an unbroken tail of
      everything said, reaching back at least 32 lines. */
  ghost predicate ShownOk(c: Slot, said: seq<Text>, tr: seq<Entry>)
  {
    var shown := Texts(Delivered(tr, c.fd), CHAT);
    if c.joined then IsTail(shown, said) && |shown| >= Min(HISTORY_LINES, |said|) else shown == []
  }

  ghost predicate AllShown(s: State)
  {
    forall k :: 0 <= k < |s.slots| && s.slots[k].used ==> ShownOk(s.slots[k], s.said, s.trace)
  }

  lemma JoinShown(s: State, i: nat, body: Text, k: nat)
    requires Reliable(s) && i < |s.slots| && s.slots[i].used && !s.slots[i].joined
    requires k < |s.slots| && s.slots[k].used && ShownOk(s.slots[k], s.said, s.trace)
    ensures var t := HandleJoin(s, i, body); ShownOk(t.slots[k], t.said, t.trace)
  {
    hide Delivered, Texts, HandleJoin, AckText, JoinNote;
    var t, fd := HandleJoin(s, i, body), s.slots[k].fd;
    if t.slots[i].joined {
      JoinDelivers(s, i, body, k);
      var had := Delivered(s.trace, fd);
      if k == i {
        var lines := Last(s.said, HISTORY_LINES);
        var ack := Frame(JOIN_ACK, AckText(s.slots[i].id, t.slots[i].nick));
        OneMore(had, ack, CHAT);
        TextsConcat(had + [ack], HistoryFrames(lines), CHAT);
        TextsOfHistory(lines, CHAT);
        assert Texts(Delivered(t.trace, fd), CHAT) == lines;
      } else if s.slots[k].joined {
        OneMore(had, Frame(NOTIFY, JoinNote(t.slots[i].nick)), CHAT);
      }
    } else {
      JoinAccepted(s, i, body);
      RefusalSilent(s, i, Frame(JOIN, body), fd, CHAT);
    }
  }

  lemma BroadcastShown(s: State, i: nat, body: Text, k: nat)
    requires Reliable(s) && i < |s.slots| && s.slots[i].used
    requires k < |s.slots| && s.slots[k].used && ShownOk(s.slots[k], s.said, s.trace)
    ensures var t := HandleBroadcast(s, i, body); ShownOk(t.slots[k], t.said, t.trace)
  {
    hide Delivered, Texts, IsTail, BroadcastLine;
    var c := s.slots[i];
    if c.joined {
      var line := Clamp(BroadcastLine(c.nick, body));
      var f, fd := Frame(BROADCAST, line), s.slots[k].fd;
      FanOutDelivers(s.(said := s.said + [line]), f, -1, |s.slots|, k);
      OneMore(Delivered(s.trace, fd), f, CHAT);
      if s.slots[k].joined {
        TailGrows(Texts(Delivered(s.trace, fd), CHAT), s.said, line);
      }
    }
  }

  lemma TailGrows(shown: seq<Text>, said: seq<Text>, line: Text)
    requires IsTail(shown, said)
    ensures IsTail(shown + [line], said + [line])
  {
    var b := said + [line];
    assert shown + [line] == b[|b| - |shown + [line]|..];
  }

  lemma DispatchShown(s: State, i: nat, f: Frame, k: nat)
    requires Reliable(s) && i < |s.slots| && s.slots[i].used
    requires k < |s.slots| && s.slots[k].used && ShownOk(s.slots[k], s.said, s.trace)
    ensures var t := Dispatch(s, i, f); ShownOk(t.slots[k], t.said, t.trace)
  {
    hide Delivered, Texts, HandleJoin, HandleBroadcast, HandlePrivate;
    if f.kind == JOIN {
      if s.slots[i].joined {
        RefusalSilent(s, i, f, s.slots[k].fd, CHAT);
      } else {
        JoinShown(s, i, f.body, k);
      }
    } else if f.kind == BROADCAST {
      BroadcastShown(s, i, f.body, k);
    } else if f.kind == PRIVATE {
      PrivateSilent(s, i, f.body, s.slots[k].fd, CHAT);
    } else if f.kind == LIST {
      SendSilent(s, s.slots[i].fd, Frame(LIST_REPLY, ListBody(s.slots)), s.slots[k].fd, CHAT);
    }
  }

  lemma MoveShown(s: State, m: Move)
    requires Reliable(s) && Legal(s, m) && AllShown(s)
    ensures AllShown(Apply(s, m)) && Apply(s, m).failing == {}
  {
    hide Delivered, Texts, Dispatch;
    var t := Apply(s, m);
    forall k | 0 <= k < |t.slots| && t.slots[k].used
      ensures ShownOk(t.slots[k], t.said, t.trace)
    {
      match m
      case Accept(fd) => AcceptShown(s, fd, k);
      case Receive(i, chunk) => QuietEntry(s.trace, Got(s.slots[i].fd, chunk), s.slots[k].fd);
      case Take(i) => TakeShown(s, i, k);
      case Reject(i) => CloseShown(s, i, k);
      case Remove(i) => RemoveShown(s, i, k);
    }
  }

  lemma AcceptShown(s: State, fd: int, k: nat)
    requires Reliable(s) && Legal(s, Accept(fd)) && AllShown(s)
    requires k < |s.slots| && AcceptOne(s, fd).slots[k].used
    ensures var t := AcceptOne(s, fd); ShownOk(t.slots[k], t.said, t.trace)
  {
    hide Texts;
    var t := AcceptOne(s, fd);
    var f := t.slots[k].fd;
    if FirstFree(s.slots, |s.slots|) >= 0 {
      DeliveredAppend(s.trace, Opened(fd), f);
      NothingShown();
    } else {
      TurnAwayQuiet(s, fd, f);
    }
  }

  lemma NothingShown()
    ensures Texts([], CHAT) == []
  {}

  lemma TakeShown(s: State, i: nat, k: nat)
    requires Reliable(s) && Legal(s, Take(i)) && AllShown(s)
    requires k < |s.slots| && s.slots[k].used
    ensures var t := TakeFrame(s, i); ShownOk(t.slots[k], t.said, t.trace)
  {
    hide Delivered, Texts, Dispatch, Peek;
    var h := Peek(s.slots[i].inbuf);
    var e := Took(s.slots[i].fd, h.frame);
    QuietEntry(s.trace, e, s.slots[k].fd);
    DispatchShown(Log(s, e), i, h.frame, k);
  }

  lemma CloseShown(s: State, i: nat, k: nat)
    requires i < |s.slots| && AllShown(s) && k < |s.slots| && k != i && s.slots[k].used
    ensures var t := CloseSlot(s, i); ShownOk(t.slots[k], t.said, t.trace)
  {
    hide Delivered, Texts;
    if s.slots[i].fd >= 0 {
      QuietEntry(s.trace, Closed(s.slots[i].fd), s.slots[k].fd);
    }
  }

  lemma RemoveShown(s: State, i: nat, k: nat)
    requires Reliable(s) && i < |s.slots| && AllShown(s) && k < |s.slots| && k != i && s.slots[k].used
    ensures var t := RemoveClient(s, i); ShownOk(t.slots[k], t.said, t.trace)
  {
    hide Delivered, Texts;
    var c := s.slots[i];
    if c.joined {
      var note := Frame(NOTIFY, Clamp(Snprintf(MAX_BODY + 1, PartNote(c.nick))));
      var t := FanOut(s, note, i, |s.slots|);
      forall j | 0 <= j < |s.slots| && s.slots[j].used ensures ShownOk(t.slots[j], t.said, t.trace)
      {
        FanOutDelivers(s, note, i, |s.slots|, j);
        OneMore(Delivered(s.trace, s.slots[j].fd), note, CHAT);
      }
      CloseShown(t, i, k);
    } else {
      CloseShown(s, i, k);
    }
  }

  /** Over any run with successful sends: what each joined client has been shown as HISTORY and BROADCAST
      is an unbroken tail of everything said, at least the last min(n, 32) lines of it. */
  lemma {:induction false} HistoryOverAnyRun(s: State, ms: seq<Move>)
    requires Inv(s) && s.failing == {} && AllShown(s) && LegalRun(s, ms)
    ensures AllShown(Run(s, ms)) && Run(s, ms).failing == {}
    decreases |ms|
  {
    hide Inv, AllShown;
    if ms != [] {
      assert Reliable(s) by { InvIsReliable(s); }
      MoveShown(s, ms[0]);
      MoveKeepsInv(s, ms[0]);
      HistoryOverAnyRun(Apply(s, ms[0]), ms[1..]);
    }
  }

  /** From the empty server on. */
  lemma HistoryFromStart(ms: seq<Move>, k: nat)
    requires LegalRun(Start({}), ms) && k < |Run(Start({}), ms).slots| && Run(Start({}), ms).slots[k].Online()
    ensures var s := Run(Start({}), ms);
            var shown := Texts(Delivered(s.trace, s.slots[k].fd), CHAT);
            IsTail(shown, s.said) && |shown| >= Min(32, |s.said|)
  {
    hide Run, LegalRun;
    StartInv({});
    HistoryOverAnyRun(Start({}), ms);
  }

  lemma InvIsReliable(s: State)
    requires Inv(s) && s.failing == {}
    ensures Reliable(s)
  {}

  lemma BroadcastLineIs(c: Slot, body: Text)
    requires SlotOk(c) && |body| <= MAX_BODY
    ensures BroadcastLine(c.nick, body) == c.nick + Ascii(": ") + CStr(body)
  {
    NothingIsCut(c, [], body);
  }

  /** A BROADCAST frame from a joined client adds "nick: text", cut to 2048 bytes, to what was said, and puts
      exactly these bytes once before every joined client, the sender included. */
  lemma BroadcastReachesAll(s: State, i: nat, body: Text, k: nat)
    requires Reliable(s) && i < |s.slots| && s.slots[i].Online() && |body| <= MAX_BODY
    requires k < |s.slots| && s.slots[k].used
    ensures var line := Clamp(s.slots[i].nick + Ascii(": ") + CStr(body));
            var t := Dispatch(s, i, Frame(BROADCAST, body));
            var had, now := Delivered(s.trace, s.slots[k].fd), Delivered(t.trace, s.slots[k].fd);
            && t.slots == s.slots && t.said == s.said + [line]
            && now == if s.slots[k].joined then had + [Frame(BROADCAST, line)] else had
  {
    hide Delivered, Ascii, CStr, Clamp, HandleJoin, HandlePrivate, HandleList, FanOut, BroadcastLine;
    var c := s.slots[i];
    BroadcastLineIs(c, body);
    var line := Clamp(BroadcastLine(c.nick, body));
    FanOutDelivers(s.(said := s.said + [line]), Frame(BROADCAST, line), -1, |s.slots|, k);
  }

  // ---- private messages ----

  /** A joined slot with the nick is the only one, and the one the lookup finds. */
  lemma HolderIsUnique(slots: seq<Slot>, nick: Text, j: nat)
    requires TableOk(slots) && j < |slots| && slots[j].Online() && slots[j].nick == nick
    ensures Holder(slots, nick, |slots|) == j
  {
    var r := Holder(slots, nick, |slots|);
    assert 0 <= r <= j && slots[r].Online() && slots[r].nick == slots[j].nick;
  }

  /** The line a private message travels as. */
  function WhisperLine(sender: Text, target: Text, text: Text): Text
  {
    Clamp(Ascii("(pm ") + sender + Ascii(" -> ") + target + Ascii(") ") + CStr(text))
  }

  /** A well-formed PRIVATE body from a joined sender whose target is joined: one PRIVATE frame for the
      holder of that nick, one echo for the sender if that is somebody else, nothing for anyone else. */
  lemma WhisperReachesOne(s: State, i: nat, body: Text, j: nat, k: nat)
    requires Reliable(s) && i < |s.slots| && s.slots[i].Online() && |body| <= MAX_BODY
    requires SplitPrivate(body).Whisper?
    requires j < |s.slots| && s.slots[j].Online() && s.slots[j].nick == SplitPrivate(body).target
    requires k < |s.slots| && s.slots[k].used
    ensures var w, had, now := SplitPrivate(body), Delivered(s.trace, s.slots[k].fd),
                               Delivered(HandlePrivate(s, i, body).trace, s.slots[k].fd);
            now == if k == i || k == j
                   then had + [Frame(PRIVATE, WhisperLine(s.slots[i].nick, w.target, w.text))]
                   else had
  {
    hide Delivered, CStr;
    var w, c := SplitPrivate(body), s.slots[i];
    HolderIsUnique(s.slots, w.target, j);
    NothingIsCut(c, w.target, w.text);
    var f := Frame(PRIVATE, WhisperLine(c.nick, w.target, w.text));
    SendDelivers(s, s.slots[j].fd, f, s.slots[k].fd);
    SendDelivers(SendTo(s, s.slots[j].fd, f), c.fd, f, s.slots[k].fd);
  }

  /** An unknown target gives one ERROR to the sender and nothing to anyone else. */
  lemma WhisperToNobody(s: State, i: nat, body: Text, k: nat)
    requires Reliable(s) && i < |s.slots| && s.slots[i].Online()
    requires SplitPrivate(body).Whisper? && !NickTaken(s.slots, SplitPrivate(body).target, -1)
    requires k < |s.slots| && s.slots[k].used
    ensures var had, now := Delivered(s.trace, s.slots[k].fd),
                            Delivered(HandlePrivate(s, i, body).trace, s.slots[k].fd);
            now == if k == i then had + [Frame(ERROR, Ascii("User not found"))] else had
  {
    hide Delivered, CStr;
    var f := Frame(ERROR, Ascii("User not found"));
    SendDelivers(s, s.slots[i].fd, f, s.slots[k].fd);
  }

  // ---- who hears of a frame ----

  /** The frame makes its sender joined. */
  predicate Joins(s: State, i: nat, f: Frame)
    requires i < |s.slots|
  {
    f.kind == JOIN && !s.slots[i].joined && HandleJoin(s, i, f.body).slots[i].joined
  }

  /** Slot `k` has something to hear when slot `i` sends the frame: the sender unless it speaks without having
      joined or the kind is unknown; another client only if it is joined, and then of a successful JOIN, of a
      joined client's BROADCAST, and of a PRIVATE that names it. */
  predicate Concerned(s: State, i: nat, f: Frame, k: nat)
    requires i < |s.slots| && k < |s.slots|
  {
    if k == i then f.kind == JOIN || f.kind == LIST || (s.slots[i].joined && (f.kind == BROADCAST || f.kind == PRIVATE))
    else
      && s.slots[k].joined
      && (|| Joins(s, i, f)
          || (s.slots[i].joined && f.kind == BROADCAST)
          || (s.slots[i].joined && f.kind == PRIVATE && SplitPrivate(f.body).Whisper?
              && SplitPrivate(f.body).target == s.slots[k].nick))
  }

  /** What a frame can change: exactly the clients concerned hear something, what they heard before stays,
      a slot changes only by a successful JOIN and what was said only by a joined client's BROADCAST. */
  lemma HeardExactly(s: State, i: nat, f: Frame, k: nat)
    requires Reliable(s) && i < |s.slots| && s.slots[i].used && Fits(f) && k < |s.slots| && s.slots[k].used
    ensures var t := Dispatch(s, i, f);
            var had, now := Delivered(s.trace, s.slots[k].fd), Delivered(t.trace, s.slots[k].fd);
            && had <= now
            && (now != had <==> Concerned(s, i, f, k))
            && (t.slots != s.slots <==> Joins(s, i, f))
            && (t.said != s.said <==> f.kind == BROADCAST && s.slots[i].joined)
  {
    hide Delivered, HandleJoin, HandleBroadcast, HandlePrivate, SplitPrivate, Reliable;
    if f.kind == JOIN {
      HeardOfJoin(s, i, f, k);
    } else if f.kind == BROADCAST {
      HeardOfBroadcast(s, i, f, k);
    } else if f.kind == PRIVATE {
      HeardOfPrivate(s, i, f, k);
    } else if f.kind == LIST {
      HeardOne(s, s.slots[i].fd, Frame(LIST_REPLY, ListBody(s.slots)), i, k);
    }
  }

  lemma HeardOne(s: State, fd: int, f: Frame, i: nat, k: nat)
    requires Reliable(s) && Fits(f) && i < |s.slots| && k < |s.slots| && s.slots[k].used && s.slots[i].used
    requires fd == s.slots[i].fd
    ensures var had, now := Delivered(s.trace, s.slots[k].fd), Delivered(SendTo(s, fd, f).trace, s.slots[k].fd);
            had <= now && (now != had <==> k == i)
  {
    hide Delivered;
    SendDelivers(s, fd, f, s.slots[k].fd);
    assert s.slots[k].fd == fd ==> k == i;
  }

  lemma HeardOfJoin(s: State, i: nat, f: Frame, k: nat)
    requires Reliable(s) && i < |s.slots| && s.slots[i].used && k < |s.slots| && s.slots[k].used && f.kind == JOIN
    ensures var t := Dispatch(s, i, f);
            var had, now := Delivered(s.trace, s.slots[k].fd), Delivered(t.trace, s.slots[k].fd);
            && had <= now
            && (now != had <==> Concerned(s, i, f, k))
            && (t.slots != s.slots <==> Joins(s, i, f)) && t.said == s.said
  {
    hide Delivered, Reliable, Welcome, NickTaken, TrimEol;
    if Joins(s, i, f) {
      JoinDelivers(s, i, f.body, k);
      assert HandleJoin(s, i, f.body).slots[i] != s.slots[i];
    } else {
      var fd := s.slots[i].fd;
      HeardOne(s, fd, Frame(ERROR, Ascii("Already joined")), i, k);
      HeardOne(s, fd, Frame(ERROR, Ascii("Invalid nickname length")), i, k);
      HeardOne(s, fd, Frame(ERROR, Ascii("Empty nickname")), i, k);
      HeardOne(s, fd, Frame(ERROR, Ascii("Nickname already in use")), i, k);
    }
  }

  lemma HeardOfBroadcast(s: State, i: nat, f: Frame, k: nat)
    requires Reliable(s) && i < |s.slots| && s.slots[i].used && k < |s.slots| && s.slots[k].used
    requires f.kind == BROADCAST && Fits(f)
    ensures var t := Dispatch(s, i, f);
            var had, now := Delivered(s.trace, s.slots[k].fd), Delivered(t.trace, s.slots[k].fd);
            && had <= now
            && (now != had <==> Concerned(s, i, f, k))
            && t.slots == s.slots && (t.said != s.said <==> s.slots[i].joined)
  {
    hide Delivered, Reliable, HandleBroadcast, CStr, Ascii, Clamp;
    if s.slots[i].joined {
      BroadcastReachesAll(s, i, f.body, k);
      assert f == Frame(BROADCAST, f.body);
    } else {
      Unheard(s, i, f);
    }
  }

  lemma Unheard(s: State, i: nat, f: Frame)
    requires i < |s.slots| && !s.slots[i].joined && (f.kind == BROADCAST || f.kind == PRIVATE)
    ensures Dispatch(s, i, f) == s
  {}

  lemma HeardOfPrivate(s: State, i: nat, f: Frame, k: nat)
    requires Reliable(s) && i < |s.slots| && s.slots[i].used && k < |s.slots| && s.slots[k].used
    requires f.kind == PRIVATE && Fits(f)
    ensures var t := Dispatch(s, i, f);
            var had, now := Delivered(s.trace, s.slots[k].fd), Delivered(t.trace, s.slots[k].fd);
            && had <= now
            && (now != had <==> Concerned(s, i, f, k))
            && t.slots == s.slots && t.said == s.said
  {
    hide Delivered, Reliable, CStr, Ascii, WhisperLine, HandlePrivate, NickTaken;
    if !s.slots[i].joined {
      Unheard(s, i, f);
    } else if !SplitPrivate(f.body).Whisper? {
      MalformedWhisper(s, i, f.body, k);
    } else if j: nat :| j < |s.slots| && s.slots[j].Online() && s.slots[j].nick == SplitPrivate(f.body).target {
      WhisperReachesOne(s, i, f.body, j, k);
      SameHolder(s, j, k);
    } else {
      NobodyHolds(s, SplitPrivate(f.body).target);
      WhisperToNobody(s, i, f.body, k);
    }
  }

  lemma NobodyHolds(s: State, nick: Text)
    requires forall j :: 0 <= j < |s.slots| ==> !(s.slots[j].Online() && s.slots[j].nick == nick)
    ensures !NickTaken(s.slots, nick, -1)
  {}

  lemma SameHolder(s: State, j: nat, k: nat)
    requires Reliable(s) && j < |s.slots| && k < |s.slots| && s.slots[j].Online() && s.slots[k].used
    ensures s.slots[k].joined && s.slots[k].nick == s.slots[j].nick <==> j == k
  {}

  /** A body without a NUL, with an empty part or with too long a target is answered to the sender only. */
  lemma MalformedWhisper(s: State, i: nat, body: Text, k: nat)
    requires Reliable(s) && i < |s.slots| && s.slots[i].Online() && !SplitPrivate(body).Whisper?
    requires k < |s.slots| && s.slots[k].used
    ensures var had, now := Delivered(s.trace, s.slots[k].fd),
                            Delivered(HandlePrivate(s, i, body).trace, s.slots[k].fd);
            had <= now && (now != had <==> k == i)
  {
    hide Delivered, CStr;
    HeardOne(s, s.slots[i].fd, Frame(ERROR, Ascii("Malformed private message (need target\\0text)")), i, k);
    HeardOne(s, s.slots[i].fd, Frame(ERROR, Ascii("Invalid private message")), i, k);
  }
}
