/** The join and leave notices as a replica of the server's set of joined nicks. */
module Roster {
  import opened Bytes
  import opened ChatProto
  import opened Framing
  import opened ServerSpec
  import opened ServerRuns
  import opened Conversations

  const NOTICES: set<u32> := {NOTIFY}

  /** The notices delivered on a connection. */
  function NoticesTo(s: State, fd: int): seq<Text> { Texts(Delivered(s.trace, fd), NOTICES) }

  function Joined(slots: seq<Slot>): set<Text>
  {
    set k | 0 <= k < |slots| && slots[k].Online() :: slots[k].nick
  }

  /** An observer's bookkeeping: "[JOIN] x" adds x, "[PART] x" removes x. */
  function Heed(view: set<Text>, note: Text): set<Text>
  {
    if Ascii("[JOIN] ") <= note then view + {note[7..]}
    else if Ascii("[PART] ") <= note then view - {note[7..]}
    else view
  }

  function Watch(view: set<Text>, notes: seq<Text>): set<Text>
  {
    if notes == [] then view else Heed(Watch(view, notes[..|notes| - 1]), notes[|notes| - 1])
  }

  lemma {:induction false} WatchConcat(view: set<Text>, a: seq<Text>, b: seq<Text>)
    ensures Watch(view, a + b) == Watch(Watch(view, a), b)
    decreases |b|
  {
    if b == [] {
      assert a + b == a;
    } else {
      assert (a + b)[..|a + b| - 1] == a + b[..|b| - 1];
      WatchConcat(view, a, b[..|b| - 1]);
    }
  }

  lemma HeedNotes(view: set<Text>, nick: Text)
    ensures Heed(view, JoinNote(nick)) == view + {nick}
    ensures Heed(view, PartNote(nick)) == view - {nick}
  {
    var j, p := JoinNote(nick), PartNote(nick);
    assert j[7..] == nick && p[7..] == nick;
    assert Ascii("[JOIN] ")[1] == 'J' as int && Ascii("[PART] ")[1] == 'P' as int;
    assert p[1] == 'P' as int;
    assert !(Ascii("[JOIN] ") <= p);
  }

  // ---- what one move announces ----

  /** The notices a move sends to every joined client it does not concern. */
  function Announces(s: State, m: Move): seq<Text>
    requires Legal(s, m)
  {
    match m
    case Take(i) =>
      var t := TakeFrame(s, i);
      if !s.slots[i].joined && t.slots[i].joined then [JoinNote(t.slots[i].nick)] else []
    case Remove(i) => if s.slots[i].joined then [PartNote(s.slots[i].nick)] else []
    case _ => []
  }

  lemma DispatchAnnounces(s: State, i: nat, f: Frame, o: nat)
    requires Reliable(s) && i < |s.slots| && s.slots[i].used
    requires o < |s.slots| && s.slots[o].Online()
    ensures var t, fd := Dispatch(s, i, f), s.slots[o].fd;
            NoticesTo(t, fd) == if !s.slots[i].joined && t.slots[i].joined
                                then NoticesTo(s, fd) + [JoinNote(t.slots[i].nick)]
                                else NoticesTo(s, fd)
  {
    hide Delivered, Texts, HandleJoin, HandlePrivate;
    var t, fd := Dispatch(s, i, f), s.slots[o].fd;
    var had := Delivered(s.trace, fd);
    if f.kind == JOIN {
      if !s.slots[i].joined && HandleJoin(s, i, f.body).slots[i].joined {
        JoinDelivers(s, i, f.body, o);
        OneMore(had, Frame(NOTIFY, JoinNote(t.slots[i].nick)), NOTICES);
      } else {
        RefusalSilent(s, i, f, fd, NOTICES);
      }
    } else if f.kind == BROADCAST && s.slots[i].joined {
      var line := Clamp(BroadcastLine(s.slots[i].nick, f.body));
      FanOutDelivers(s.(said := s.said + [line]), Frame(BROADCAST, line), -1, |s.slots|, o);
      OneMore(had, Frame(BROADCAST, line), NOTICES);
    } else if f.kind == PRIVATE {
      PrivateSilent(s, i, f.body, fd, NOTICES);
    } else if f.kind == LIST {
      SendSilent(s, s.slots[i].fd, Frame(LIST_REPLY, ListBody(s.slots)), fd, NOTICES);
    }
  }

  lemma RemoveAnnounces(s: State, i: nat, o: nat)
    requires Reliable(s) && i < |s.slots| && o < |s.slots| && o != i && s.slots[o].Online()
    ensures NoticesTo(RemoveClient(s, i), s.slots[o].fd)
         == if s.slots[i].joined then NoticesTo(s, s.slots[o].fd) + [PartNote(s.slots[i].nick)]
            else NoticesTo(s, s.slots[o].fd)
  {
    hide Delivered, Texts;
    var c, fd := s.slots[i], s.slots[o].fd;
    NothingIsCut(c, [], []);
    var t := s;
    if c.joined {
      var f := Frame(NOTIFY, PartNote(c.nick));
      t := FanOut(s, f, i, |s.slots|);
      FanOutDelivers(s, f, i, |s.slots|, o);
      OneMore(Delivered(s.trace, fd), f, NOTICES);
    }
    if c.fd >= 0 { QuietEntry(t.trace, Closed(c.fd), fd); }
  }

  lemma AcceptAnnounces(s: State, fd: int, o: nat)
    requires Reliable(s) && Legal(s, Accept(fd)) && o < |s.slots| && s.slots[o].Online()
    ensures NoticesTo(AcceptOne(s, fd), s.slots[o].fd) == NoticesTo(s, s.slots[o].fd)
  {
    hide Delivered, Texts;
    var f := s.slots[o].fd;
    if FirstFree(s.slots, |s.slots|) >= 0 {
      QuietEntry(s.trace, Opened(fd), f);
    } else {
      TurnAwayQuiet(s, fd, f);
    }
  }

  /** The observer on slot `o`, joined before and after the move, hears exactly what is announced. */
  lemma MoveAnnounces(s: State, m: Move, o: nat)
    requires Reliable(s) && Legal(s, m) && o < |s.slots| && s.slots[o].Online()
    requires Apply(s, m).slots[o].Online()
    ensures NoticesTo(Apply(s, m), s.slots[o].fd) == NoticesTo(s, s.slots[o].fd) + Announces(s, m)
  {
    hide Delivered, Texts, Dispatch;
    var fd := s.slots[o].fd;
    match m
    case Accept(f) => AcceptAnnounces(s, f, o);
    case Receive(i, chunk) => QuietEntry(s.trace, Got(s.slots[i].fd, chunk), fd);
    case Take(i) =>
      var f := Peek(s.slots[i].inbuf).frame;
      QuietEntry(s.trace, Took(s.slots[i].fd, f), fd);
      DispatchAnnounces(Log(s, Took(s.slots[i].fd, f)), i, f, o);
    case Reject(i) => if s.slots[i].fd >= 0 { QuietEntry(s.trace, Closed(s.slots[i].fd), fd); }
    case Remove(i) => RemoveAnnounces(s, i, o);
  }

  // ---- what one move does to the set of joined nicks ----

  lemma JoinedGrows(slots: seq<Slot>, i: nat, c: Slot)
    requires i < |slots| && !slots[i].Online() && c.Online()
    ensures Joined(slots[i := c]) == Joined(slots) + {c.nick}
  {
    var after := slots[i := c];
    forall k | 0 <= k < |slots| && slots[k].Online() ensures slots[k].nick in Joined(after)
    {
      assert after[k] == slots[k];
    }
    assert after[i].nick in Joined(after);
  }

  lemma JoinedShrinks(slots: seq<Slot>, i: nat)
    requires TableOk(slots) && i < |slots|
    ensures Joined(slots[i := EMPTY_SLOT])
         == if slots[i].Online() then Joined(slots) - {slots[i].nick} else Joined(slots)
  {
    var after := slots[i := EMPTY_SLOT];
    forall k | 0 <= k < |slots| && slots[k].Online() && k != i ensures slots[k].nick in Joined(after)
    {
      assert after[k] == slots[k];
    }
  }

  lemma JoinedSame(a: seq<Slot>, b: seq<Slot>)
    requires |a| == |b|
    requires forall k :: 0 <= k < |a| ==> a[k].Online() == b[k].Online() && (a[k].Online() ==> a[k].nick == b[k].nick)
    ensures Joined(a) == Joined(b)
  {
    forall n | n in Joined(a) ensures n in Joined(b)
    {
      var k :| 0 <= k < |a| && a[k].Online() && a[k].nick == n;
      assert b[k].Online();
    }
    forall n | n in Joined(b) ensures n in Joined(a)
    {
      var k :| 0 <= k < |b| && b[k].Online() && b[k].nick == n;
      assert a[k].Online();
    }
  }

  // ---- runs ----

  /** The nicks whose owners were closed for a bad header, without a notice, and that nobody has taken
      since: the ones an observer wrongly keeps. */
  function StillListed(s: State, stale: set<Text>, m: Move): set<Text>
    requires Legal(s, m)
  {
    (if m.Reject? && s.slots[m.i].joined then stale + {s.slots[m.i].nick} else stale) - Joined(Apply(s, m).slots)
  }

  function Stale(s: State, stale: set<Text>, ms: seq<Move>): set<Text>
    requires LegalRun(s, ms)
    decreases |ms|
  {
    if ms == [] then stale else Stale(Apply(s, ms[0]), StillListed(s, stale, ms[0]), ms[1..])
  }

  /** The client on slot `o` is joined at every point of the run. */
  predicate Stays(s: State, ms: seq<Move>, o: nat)
    requires LegalRun(s, ms) && o < |s.slots|
    decreases |ms|
  {
    s.slots[o].Online() && (ms == [] || Stays(Apply(s, ms[0]), ms[1..], o))
  }

  lemma TakeJoined(s: State, i: nat)
    requires TableOk(s.slots) && Legal(s, Take(i))
    ensures var t := TakeFrame(s, i);
            Joined(t.slots) == if !s.slots[i].joined && t.slots[i].joined then Joined(s.slots) + {t.slots[i].nick}
                               else Joined(s.slots)
  {
    hide Peek;
    var t := TakeFrame(s, i);
    if !s.slots[i].joined && t.slots[i].joined {
      JoinedGrows(s.slots, i, t.slots[i]);
      assert t.slots == s.slots[i := t.slots[i]];
    } else {
      JoinedSame(s.slots, t.slots);
    }
  }

  lemma MoveTracks(s: State, m: Move, o: nat, stale: set<Text>)
    requires Reliable(s) && Legal(s, m) && o < |s.slots| && s.slots[o].Online() && Apply(s, m).slots[o].Online()
    requires stale !! Joined(s.slots)
    ensures Watch(Joined(s.slots) + stale, Announces(s, m))
         == Joined(Apply(s, m).slots) + StillListed(s, stale, m)
  {
    hide TakeFrame;
    var t := Apply(s, m);
    assert forall v, n: Text :: Watch(v, [n]) == Heed(v, n) by {
      forall v: set<Text>, n: Text ensures Watch(v, [n]) == Heed(v, n) { assert [n][..0] == []; }
    }
    match m
    case Accept(fd) => JoinedSame(s.slots, t.slots);
    case Receive(i, chunk) => JoinedSame(s.slots, t.slots);
    case Take(i) =>
      TakeJoined(s, i);
      HeedNotes(Joined(s.slots) + stale, t.slots[i].nick);
    case Reject(i) => JoinedShrinks(s.slots, i);
    case Remove(i) =>
      JoinedShrinks(s.slots, i);
      HeedNotes(Joined(s.slots) + stale, s.slots[i].nick);
  }

  /** Only a connection that is accepted anew can change the descriptor of a slot. */
  lemma StaysKeepsFd(s: State, m: Move, o: nat)
    requires Legal(s, m) && o < |s.slots| && s.slots[o].Online() && Apply(s, m).slots[o].Online()
    ensures Apply(s, m).slots[o].fd == s.slots[o].fd
  {}

  lemma {:induction false} RunTracks(s: State, ms: seq<Move>, o: nat, stale: set<Text>) returns (heard: seq<Text>)
    requires Inv(s) && s.failing == {} && LegalRun(s, ms) && o < |s.slots| && Stays(s, ms, o)
    requires stale !! Joined(s.slots)
    ensures var t, fd := Run(s, ms), s.slots[o].fd;
            && NoticesTo(t, fd) == NoticesTo(s, fd) + heard
            && Watch(Joined(s.slots) + stale, heard) == Joined(t.slots) + Stale(s, stale, ms)
            && Stale(s, stale, ms) !! Joined(t.slots)
    decreases |ms|
  {
    hide Inv, NoticesTo, Watch, Announces, Apply;
    if ms == [] {
      heard := [];
      NothingHeard(Joined(s.slots) + stale);
    } else {
      var m, t := ms[0], Apply(s, ms[0]);
      InvIsReliable(s);
      MoveKeepsInv(s, m);
      FailingKept(s, m);
      assert t.slots[o].Online();
      MoveAnnounces(s, m, o);
      MoveTracks(s, m, o, stale);
      StaysKeepsFd(s, m, o);
      var more := RunTracks(t, ms[1..], o, StillListed(s, stale, m));
      heard := Announces(s, m) + more;
      WatchConcat(Joined(s.slots) + stale, Announces(s, m), more);
      var before := NoticesTo(s, s.slots[o].fd);
      assert before + Announces(s, m) + more == before + heard;
    }
  }

  lemma NothingHeard(view: set<Text>)
    ensures Watch(view, []) == view
  {}

  lemma FailingKept(s: State, m: Move)
    requires Legal(s, m)
    ensures Apply(s, m).failing == s.failing
  {}

  /** The notices an observer has received since state `s`. */
  function HeardSince(s: State, t: State, fd: int): seq<Text>
    requires |NoticesTo(s, fd)| <= |NoticesTo(t, fd)|
  {
    NoticesTo(t, fd)[|NoticesTo(s, fd)|..]
  }

  /** The roster law. A client that stays joined and starts from the joined set of any moment then holds,
      by the notices alone, the joined set plus the nicks of clients closed silently; so it holds exactly
      the joined set if and only if no such nick is outstanding. */
  lemma RosterOverAnyRun(s: State, ms: seq<Move>, o: nat)
    requires Inv(s) && s.failing == {} && LegalRun(s, ms) && o < |s.slots| && Stays(s, ms, o)
    ensures var t, fd := Run(s, ms), s.slots[o].fd;
            && |NoticesTo(s, fd)| <= |NoticesTo(t, fd)|
            && var view := Watch(Joined(s.slots), HeardSince(s, t, fd));
            && view == Joined(t.slots) + Stale(s, {}, ms)
            && (view == Joined(t.slots) <==> Stale(s, {}, ms) == {})
  {
    hide Inv, NoticesTo, Watch, Stale;
    var heard := RunTracks(s, ms, o, {});
    assert Joined(s.slots) + {} == Joined(s.slots);
    assert HeardSince(s, Run(s, ms), s.slots[o].fd) == heard;
  }

  /** Without a silent close of a joined client nothing is outstanding. */
  predicate NoSilentClose(s: State, ms: seq<Move>)
    requires LegalRun(s, ms)
    decreases |ms|
  {
    ms == [] || (!(ms[0].Reject? && s.slots[ms[0].i].joined) && NoSilentClose(Apply(s, ms[0]), ms[1..]))
  }

  lemma {:induction false} NothingStale(s: State, ms: seq<Move>)
    requires LegalRun(s, ms) && NoSilentClose(s, ms)
    ensures Stale(s, {}, ms) == {}
    decreases |ms|
  {
    hide Apply, Joined;
    if ms != [] {
      assert StillListed(s, {}, ms[0]) == {};
      NothingStale(Apply(s, ms[0]), ms[1..]);
    }
  }

  /** Sixteen zero bytes, and the rejection that follows. */
  function Zeros(): Text { seq(HEADER_SIZE, _ => NUL) }

  function SilentClose(i: nat): seq<Move> { [Receive(i, Zeros()), Reject(i)] }

  lemma ZerosAreBad()
    ensures Peek(Zeros()) == Bad
  {
    assert Zeros()[..HEADER_SIZE] == Zeros();
    assert FromWire(Zeros()).magic == 0;
  }

  lemma SilentCloseRuns(s: State, i: nat, o: nat)
    requires Inv(s) && i < |s.slots| && o < |s.slots| && i != o
    requires s.slots[i].Online() && s.slots[i].inbuf == [] && s.slots[o].Online()
    ensures LegalRun(s, SilentClose(i)) && Stays(s, SilentClose(i), o)
    ensures Run(s, SilentClose(i)) == CloseSlot(ReceiveInto(s, i, Zeros()), i)
    ensures Stale(s, {}, SilentClose(i)) == {s.slots[i].nick}
    ensures s.slots[i].nick !in Joined(Run(s, SilentClose(i)).slots)
  {
    hide Peek, Joined;
    var m1, m2, ms := Receive(i, Zeros()), Reject(i), SilentClose(i);
    var t := Apply(s, m1);
    assert t.slots[i].inbuf == Zeros() by { assert [] + Zeros() == Zeros(); }
    ZerosAreBad();
    var u := Apply(t, m2);
    assert ms[0] == m1 && ms[1..] == [m2] && [m2][1..] == [];
    assert LegalRun(u, []) && LegalRun(t, [m2]) && LegalRun(s, ms);
    assert Stays(u, [], o) && Stays(t, [m2], o) && Stays(s, ms, o);
    assert Run(u, []) == u && Run(t, [m2]) == u && Run(s, ms) == u;
    ReceiveKeepsInv(s, i, Zeros());
    JoinedShrinks(t.slots, i);
    assert StillListed(s, {}, m1) == {};
    assert StillListed(t, {}, m2) == {s.slots[i].nick};
    StaleOfTwo(s, m1, m2);
  }

  lemma StaleOfTwo(s: State, m1: Move, m2: Move)
    requires Legal(s, m1) && Legal(Apply(s, m1), m2) && LegalRun(s, [m1, m2])
    ensures Stale(s, {}, [m1, m2]) == StillListed(Apply(s, m1), StillListed(s, {}, m1), m2)
  {
    hide Apply, Legal, StillListed;
    assert [m1, m2][1..] == [m2] && [m2][1..] == [];
    var t, a := Apply(s, m1), StillListed(s, {}, m1);
    assert Stale(s, {}, [m1, m2]) == Stale(t, a, [m2]);
    assert Stale(t, a, [m2]) == Stale(Apply(t, m2), StillListed(t, a, m2), []);
  }

  /** A joined client that sends sixteen zero bytes is closed without a notice, and every other joined
      client goes on listing it. */
  lemma SilentCloseMisleads(s: State, i: nat, o: nat)
    requires Inv(s) && s.failing == {} && i < |s.slots| && o < |s.slots| && i != o
    requires s.slots[i].Online() && s.slots[i].inbuf == [] && s.slots[o].Online()
    ensures LegalRun(s, SilentClose(i))
    ensures var t, fd := Run(s, SilentClose(i)), s.slots[o].fd;
            && |NoticesTo(s, fd)| <= |NoticesTo(t, fd)|
            && s.slots[i].nick in Watch(Joined(s.slots), HeardSince(s, t, fd))
            && s.slots[i].nick !in Joined(t.slots)
  {
    hide Inv, NoticesTo, Watch, Joined, Stale, SilentClose, Run, LegalRun, HeardSince;
    SilentCloseRuns(s, i, o);
    RosterOverAnyRun(s, SilentClose(i), o);
  }
}
