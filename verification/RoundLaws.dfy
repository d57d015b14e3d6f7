/** The loop of `main` as runs of moves, so that the laws of runs hold of it: every pass is a sequence of
    events and every event a sequence of moves, whatever the pairing of slots and poll entries. */
module RoundLaws {
  import opened Bytes
  import opened ChatProto
  import opened Framing
  import opened ServerSpec
  import opened ServerRuns
  import opened ServerEvents
  import opened PollPass
  import opened Conversations
  import opened Roster

  // ---- a pass as events ----

  /** What serving one slot makes happen to it. */
  function ServeEvents(s: State, i: nat, rev: Revents, pending: map<int, Text>): seq<Event>
    requires i < |s.slots|
  {
    var c := s.slots[i];
    if rev.failed then [Hangup(i)]
    else if !rev.readable then []
    else
      var bytes := if c.fd in pending then pending[c.fd] else [];
      var n := if |c.inbuf| <= RECV_CAP then Min(|bytes|, RECV_CAP - |c.inbuf|) else 0;
      if n == 0 then [Hangup(i)] else [Data(i, bytes[..n])]
  }

  function ScanEvents(s: State, order: seq<nat>, revents: seq<Revents>, pending: map<int, Text>): seq<Event>
    requires |order| <= |revents|
    requires forall r :: 0 <= r < |order| ==> order[r] < |s.slots|
  {
    if order == [] then []
    else
      var n := |order| - 1;
      ScanEvents(s, order[..n], revents, pending)
      + ServeEvents(Scan(s, order[..n], revents, pending), order[n], revents[n], pending)
  }

  function Accepts(fd: int): seq<Event> { if fd >= 0 then [Connect(fd)] else [] }

  /** The state in which the scan begins, and the slots it serves. */
  function Accepted(s: State, fd: int): (u: State)
    ensures |u.slots| == |s.slots|
  {
    if fd >= 0 then AcceptOne(s, fd) else s
  }

  function Served(s: State, r: Round): (order: seq<nat>)
    requires forall j :: 0 <= j < |s.slots| && s.slots[j].used ==> s.slots[j].fd in r.ready
    ensures |order| <= |Polled(s.slots, r.ready)|
    ensures forall k :: 0 <= k < |order| ==> order[k] < |s.slots|
  {
    var u := Accepted(s, r.accepted);
    var now := UsedSlots(u.slots, |u.slots|);
    now[..Min(|now|, |Polled(s.slots, r.ready)|)]
  }

  function ScanPart(s: State, r: Round): seq<Event>
    requires forall j :: 0 <= j < |s.slots| && s.slots[j].used ==> s.slots[j].fd in r.ready
  {
    ScanEvents(Accepted(s, r.accepted), Served(s, r), Polled(s.slots, r.ready), r.pending)
  }

  function PassEvents(s: State, r: Round): seq<Event>
    requires forall j :: 0 <= j < |s.slots| && s.slots[j].used ==> s.slots[j].fd in r.ready
  {
    Accepts(r.accepted) + ScanPart(s, r)
  }

  function After(s: State, r: Round): State
    requires RoundLegal(s, r)
  {
    Pass(s, r.accepted, r.ready, r.pending)
  }

  lemma {:induction false} EventsConcat(s: State, a: seq<Event>, b: seq<Event>)
    requires EventsLegal(s, a) && EventsLegal(HandleAll(s, a), b)
    ensures EventsLegal(s, a + b) && HandleAll(s, a + b) == HandleAll(HandleAll(s, a), b)
    decreases |a|
  {
    hide Handle, EventLegal;
    if a == [] {
      assert a + b == b;
    } else {
      assert (a + b)[0] == a[0] && (a + b)[1..] == a[1..] + b;
      EventsConcat(Handle(s, a[0]), a[1..], b);
    }
  }

  lemma OneEvent(s: State, e: Event)
    requires EventLegal(s, e)
    ensures EventsLegal(s, [e]) && HandleAll(s, [e]) == Handle(s, e)
  {
    hide Handle;
    assert [e][1..] == [];
    assert EventsLegal(Handle(s, e), []);
  }

  lemma NoEvents(s: State)
    ensures EventsLegal(s, []) && HandleAll(s, []) == s
  {}

  lemma ServeIsEvents(s: State, i: nat, rev: Revents, pending: map<int, Text>)
    requires Settled(s) && i < |s.slots| && s.slots[i].used
    ensures EventsLegal(s, ServeEvents(s, i, rev, pending))
    ensures HandleAll(s, ServeEvents(s, i, rev, pending)) == ServeSlot(s, i, rev, pending)
  {
    hide HandleAll, EventsLegal, ServeData, RemoveClient;
    RoomForRecv(s, i);
    NoEvents(s);
    OneEvent(s, Hangup(i));
    if !rev.failed && rev.readable && ServeEvents(s, i, rev, pending) != [Hangup(i)] {
      OneEvent(s, ServeEvents(s, i, rev, pending)[0]);
    }
  }

  lemma {:induction false} ScanIsEvents(s: State, order: seq<nat>, revents: seq<Revents>, pending: map<int, Text>)
    requires Inv(s) && Settled(s) && |order| <= |revents|
    requires forall r :: 0 <= r < |order| ==> order[r] < |s.slots| && s.slots[order[r]].used
    requires forall r, q :: 0 <= r < q < |order| ==> order[r] < order[q]
    ensures EventsLegal(s, ScanEvents(s, order, revents, pending))
    ensures HandleAll(s, ScanEvents(s, order, revents, pending)) == Scan(s, order, revents, pending)
    decreases |order|
  {
    hide Inv, Settled, ServeSlot, ServeEvents, HandleAll, EventsLegal;
    if order == [] {
      NoEvents(s);
    } else {
      var n := |order| - 1;
      var u := Scan(s, order[..n], revents, pending);
      ScanKeepsInv(s, order[..n], revents, pending);
      ScanIsEvents(s, order[..n], revents, pending);
      assert u.slots[order[n]] == s.slots[order[n]];
      ServeIsEvents(u, order[n], revents[n], pending);
      EventsConcat(s, ScanEvents(s, order[..n], revents, pending), ServeEvents(u, order[n], revents[n], pending));
    }
  }

  lemma AcceptIsEvents(s: State, fd: int)
    requires fd >= 0 ==> Legal(s, Accept(fd))
    ensures EventsLegal(s, Accepts(fd)) && HandleAll(s, Accepts(fd)) == Accepted(s, fd)
  {
    hide HandleAll, EventsLegal, AcceptOne;
    if fd >= 0 { OneEvent(s, Connect(fd)); } else { NoEvents(s); }
  }

  lemma ScanPartIsEvents(s: State, r: Round)
    requires Inv(s) && Settled(s) && RoundLegal(s, r)
    ensures EventsLegal(Accepted(s, r.accepted), ScanPart(s, r))
    ensures HandleAll(Accepted(s, r.accepted), ScanPart(s, r)) == After(s, r)
  {
    hide Inv, Settled, Scan, ScanEvents, UsedSlots, HandleAll, EventsLegal, AcceptOne;
    var u := Accepted(s, r.accepted);
    if r.accepted >= 0 { EventKeepsInv(s, Connect(r.accepted)); }
    UsedOrdered(u.slots, |u.slots|);
    ScanIsEvents(u, Served(s, r), Polled(s.slots, r.ready), r.pending);
  }

  /** A pass, well paired or not, is a legal sequence of events. */
  lemma PassIsEvents(s: State, r: Round)
    requires Inv(s) && Settled(s) && RoundLegal(s, r)
    ensures EventsLegal(s, PassEvents(s, r)) && HandleAll(s, PassEvents(s, r)) == After(s, r)
  {
    hide Inv, Settled, ScanPart, HandleAll, EventsLegal, Accepts, Accepted, Pass;
    AcceptIsEvents(s, r.accepted);
    ScanPartIsEvents(s, r);
    EventsConcat(s, Accepts(r.accepted), ScanPart(s, r));
  }

  // ---- events as moves ----

  function EventsMoves(s: State, es: seq<Event>): seq<Move>
    requires EventsLegal(s, es)
    decreases |es|
  {
    if es == [] then [] else EventMoves(s, es[0]) + EventsMoves(Handle(s, es[0]), es[1..])
  }

  /** Any sequence of events is a legal run of moves with the same effect. */
  lemma {:induction false} EventsAreRun(s: State, es: seq<Event>)
    requires EventsLegal(s, es)
    ensures LegalRun(s, EventsMoves(s, es)) && Run(s, EventsMoves(s, es)) == HandleAll(s, es)
    decreases |es|
  {
    hide Handle, EventMoves, LegalRun, Run;
    if es == [] {
      NoMoves(s);
    } else {
      EventIsRun(s, es[0]);
      EventsAreRun(Handle(s, es[0]), es[1..]);
      RunConcat(s, EventMoves(s, es[0]), EventsMoves(Handle(s, es[0]), es[1..]));
    }
  }

  lemma NoMoves(s: State)
    ensures LegalRun(s, []) && Run(s, []) == s
  {}

  lemma {:induction false} EventsMovesConcat(s: State, a: seq<Event>, b: seq<Event>)
    requires EventsLegal(s, a) && EventsLegal(HandleAll(s, a), b)
    ensures EventsLegal(s, a + b)
    ensures EventsMoves(s, a + b) == EventsMoves(s, a) + EventsMoves(HandleAll(s, a), b)
    decreases |a|
  {
    hide Handle, EventLegal, EventMoves;
    EventsConcat(s, a, b);
    if a == [] {
      assert a + b == b;
    } else {
      assert (a + b)[0] == a[0] && (a + b)[1..] == a[1..] + b;
      EventsMovesConcat(Handle(s, a[0]), a[1..], b);
    }
  }

  // ---- rounds as moves ----

  /** The moves of one pass. */
  ghost function RoundMoves(s: State, r: Round): seq<Move>
    requires Inv(s) && Settled(s) && RoundLegal(s, r)
  {
    PassIsEvents(s, r);
    EventsMoves(s, PassEvents(s, r))
  }

  /** The moves of any number of passes. */
  ghost function RoundsMoves(s: State, rs: seq<Round>): seq<Move>
    requires Inv(s) && Settled(s) && RoundsLegal(s, rs)
    decreases |rs|
  {
    if rs == [] then []
    else
      PassKeepsInv(s, rs[0].accepted, rs[0].ready, rs[0].pending);
      RoundMoves(s, rs[0]) + RoundsMoves(After(s, rs[0]), rs[1..])
  }

  lemma RoundIsRun(s: State, r: Round)
    requires Inv(s) && Settled(s) && RoundLegal(s, r)
    ensures LegalRun(s, RoundMoves(s, r)) && Run(s, RoundMoves(s, r)) == After(s, r)
    ensures Inv(After(s, r)) && Settled(After(s, r))
  {
    hide Inv, Settled, Pass, PassEvents, LegalRun, Run, EventsMoves, EventsLegal, HandleAll;
    PassIsEvents(s, r);
    EventsAreRun(s, PassEvents(s, r));
    PassKeepsInv(s, r.accepted, r.ready, r.pending);
  }

  /** The loop of `main` is a run of moves: any number of passes has exactly the effect of these moves. */
  lemma {:induction false} RoundsAreRun(s: State, rs: seq<Round>)
    requires Inv(s) && Settled(s) && RoundsLegal(s, rs)
    ensures LegalRun(s, RoundsMoves(s, rs)) && Run(s, RoundsMoves(s, rs)) == PassAll(s, rs)
    decreases |rs|
  {
    hide Inv, Settled, Pass, RoundMoves, RoundLegal, LegalRun, Run;
    if rs == [] {
      NoMoves(s);
    } else {
      RoundIsRun(s, rs[0]);
      RoundsAreRun(After(s, rs[0]), rs[1..]);
      RunConcat(s, RoundMoves(s, rs[0]), RoundsMoves(After(s, rs[0]), rs[1..]));
    }
  }

  // ---- the history law of the loop ----

  /** After any number of passes from the empty server, with successful sends: what a joined client has been
      shown is an unbroken tail of everything said, at least the last min(n, 32) lines. */
  lemma HistoryAfterAnyPasses(rs: seq<Round>, k: nat)
    requires RoundsLegal(Start({}), rs)
    requires k < |PassAll(Start({}), rs).slots| && PassAll(Start({}), rs).slots[k].Online()
    ensures var s := PassAll(Start({}), rs);
            var shown := Texts(Delivered(s.trace, s.slots[k].fd), CHAT);
            IsTail(shown, s.said) && |shown| >= Min(32, |s.said|)
  {
    hide Inv, Settled, RoundsLegal, PassAll, RoundsMoves, LegalRun, Run, Texts, Delivered, IsTail, Start;
    StartInv({});
    StartSettled({});
    RoundsAreRun(Start({}), rs);
    HistoryFromStart(RoundsMoves(Start({}), rs), k);
  }

  // ---- the roster law of the loop ----

  /** The client on slot `o` is joined whenever a pass begins and at the end. */
  predicate StaysOnline(s: State, rs: seq<Round>, o: nat)
    requires RoundsLegal(s, rs) && o < |s.slots|
    decreases |rs|
  {
    s.slots[o].Online() && (rs == [] || StaysOnline(After(s, rs[0]), rs[1..], o))
  }

  predicate NoAccepts(ms: seq<Move>) { forall k :: 0 <= k < |ms| ==> !ms[k].Accept? }

  /** A free slot stays free until a connection is accepted. */
  lemma {:induction false} FreeStaysFree(s: State, ms: seq<Move>, o: nat)
    requires LegalRun(s, ms) && NoAccepts(ms) && o < |s.slots| && !s.slots[o].used
    ensures o < |Run(s, ms).slots| && !Run(s, ms).slots[o].used
    decreases |ms|
  {
    hide Peek, TakeFrame;
    if ms != [] {
      var t := Apply(s, ms[0]);
      assert !ms[0].Accept?;
      assert t.slots[o] == s.slots[o];
      assert NoAccepts(ms[1..]) by { assert forall k :: 0 <= k < |ms[1..]| ==> ms[1..][k] == ms[k + 1]; }
      FreeStaysFree(t, ms[1..], o);
    }
  }

  /** Without an accept a joined client stays joined or its slot becomes free. */
  lemma OnlineOrFree(s: State, m: Move, o: nat)
    requires Legal(s, m) && !m.Accept? && o < |s.slots| && s.slots[o].Online()
    ensures Apply(s, m).slots[o].Online() || !Apply(s, m).slots[o].used
  {}

  lemma {:induction false} OnlineThroughout(s: State, ms: seq<Move>, o: nat)
    requires LegalRun(s, ms) && NoAccepts(ms) && o < |s.slots|
    requires s.slots[o].Online() && o < |Run(s, ms).slots| && Run(s, ms).slots[o].Online()
    ensures Stays(s, ms, o)
    decreases |ms|
  {
    hide Apply, Legal;
    if ms != [] {
      var t := Apply(s, ms[0]);
      assert !ms[0].Accept?;
      assert NoAccepts(ms[1..]) by { assert forall k :: 0 <= k < |ms[1..]| ==> ms[1..][k] == ms[k + 1]; }
      OnlineOrFree(s, ms[0], o);
      if !t.slots[o].Online() { FreeStaysFree(t, ms[1..], o); }
      OnlineThroughout(t, ms[1..], o);
    }
  }

  lemma {:induction false} StaysConcat(s: State, a: seq<Move>, b: seq<Move>, o: nat)
    requires LegalRun(s, a) && LegalRun(Run(s, a), b) && o < |s.slots| && Stays(s, a, o)
    requires o < |Run(s, a).slots| && Stays(Run(s, a), b, o)
    ensures LegalRun(s, a + b) && Stays(s, a + b, o)
    decreases |a|
  {
    hide Apply, Legal;
    RunConcat(s, a, b);
    if a == [] {
      assert a + b == b;
    } else {
      assert (a + b)[0] == a[0] && (a + b)[1..] == a[1..] + b;
      StaysConcat(Apply(s, a[0]), a[1..], b, o);
    }
  }

  lemma {:induction false} ProcessNoAccepts(s: State, i: nat)
    requires i < |s.slots|
    ensures NoAccepts(ProcessMoves(s, i))
    decreases |s.slots[i].inbuf|
  {
    hide TakeFrame;
    if Peek(s.slots[i].inbuf).Whole? {
      ProcessNoAccepts(TakeFrame(s, i), i);
    }
  }

  predicate NoConnects(es: seq<Event>) { forall k :: 0 <= k < |es| ==> !es[k].Connect? }

  lemma {:induction false} EventsNoAccepts(s: State, es: seq<Event>)
    requires EventsLegal(s, es) && NoConnects(es)
    ensures NoAccepts(EventsMoves(s, es))
    decreases |es|
  {
    hide Handle, ProcessMoves;
    if es != [] {
      assert !es[0].Connect?;
      assert NoConnects(es[1..]) by { assert forall k :: 0 <= k < |es[1..]| ==> es[1..][k] == es[k + 1]; }
      if es[0].Data? { ProcessNoAccepts(ReceiveInto(s, es[0].i, es[0].chunk), es[0].i); }
      EventsNoAccepts(Handle(s, es[0]), es[1..]);
    }
  }

  lemma {:induction false} ScanNoConnects(s: State, order: seq<nat>, revents: seq<Revents>, pending: map<int, Text>)
    requires |order| <= |revents|
    requires forall r :: 0 <= r < |order| ==> order[r] < |s.slots|
    ensures NoConnects(ScanEvents(s, order, revents, pending))
    decreases |order|
  {
    hide Scan;
    if order != [] {
      ScanNoConnects(s, order[..|order| - 1], revents, pending);
    }
  }

  /** Within a pass a slot that is left cannot be taken again: who is joined before and after stays joined. */
  lemma PassStays(s: State, r: Round, o: nat)
    requires Inv(s) && Settled(s) && RoundLegal(s, r) && o < |s.slots|
    requires s.slots[o].Online() && After(s, r).slots[o].Online()
    ensures LegalRun(s, RoundMoves(s, r)) && Stays(s, RoundMoves(s, r), o)
  {
    hide Inv, Settled, Pass, ScanEvents, LegalRun, Run, EventsMoves, EventsLegal, HandleAll, Stays, AcceptOne;
    RoundIsRun(s, r);
    var u, a, b := Accepted(s, r.accepted), Accepts(r.accepted), ScanPart(s, r);
    AcceptIsEvents(s, r.accepted);
    ScanPartIsEvents(s, r);
    EventsMovesConcat(s, a, b);
    EventsAreRun(s, a);
    EventsAreRun(u, b);
    ScanNoConnects(u, Served(s, r), Polled(s.slots, r.ready), r.pending);
    EventsNoAccepts(u, b);
    AcceptStays(s, r.accepted, o);
    OnlineThroughout(u, EventsMoves(u, b), o);
    StaysConcat(s, EventsMoves(s, a), EventsMoves(u, b), o);
  }

  lemma AcceptStays(s: State, fd: int, o: nat)
    requires EventsLegal(s, Accepts(fd)) && o < |s.slots| && s.slots[o].Online()
    ensures Accepted(s, fd).slots[o] == s.slots[o]
    ensures LegalRun(s, EventsMoves(s, Accepts(fd))) && Stays(s, EventsMoves(s, Accepts(fd)), o)
  {
    EventsAreRun(s, Accepts(fd));
    if fd >= 0 {
      assert EventsMoves(s, [Connect(fd)]) == [Accept(fd)];
      assert [Accept(fd)][1..] == [];
    }
  }

  lemma {:induction false} PassesStay(s: State, rs: seq<Round>, o: nat)
    requires Inv(s) && Settled(s) && RoundsLegal(s, rs) && o < |s.slots| && StaysOnline(s, rs, o)
    ensures LegalRun(s, RoundsMoves(s, rs)) && Stays(s, RoundsMoves(s, rs), o)
    decreases |rs|
  {
    hide Inv, Settled, Pass, RoundMoves, RoundLegal, LegalRun, Run;
    RoundsAreRun(s, rs);
    if rs != [] {
      var t := After(s, rs[0]);
      RoundIsRun(s, rs[0]);
      RoundsAreRun(t, rs[1..]);
      PassesStay(t, rs[1..], o);
      assert t.slots[o].Online();
      PassStays(s, rs[0], o);
      StaysConcat(s, RoundMoves(s, rs[0]), RoundsMoves(t, rs[1..]), o);
    }
  }

  /** The roster law of the loop. A client that is joined at the beginning and after every pass, and applies
      the notices it is sent to the set joined at the beginning, holds the joined set plus the nicks of
      clients closed silently; exactly the joined set if and only if no such nick is outstanding. */
  lemma RosterAfterAnyPasses(s: State, rs: seq<Round>, o: nat)
    requires Inv(s) && Settled(s) && s.failing == {} && RoundsLegal(s, rs) && o < |s.slots| && StaysOnline(s, rs, o)
    ensures LegalRun(s, RoundsMoves(s, rs))
    ensures var t, fd := PassAll(s, rs), s.slots[o].fd;
            && |NoticesTo(s, fd)| <= |NoticesTo(t, fd)|
            && var view := Watch(Joined(s.slots), HeardSince(s, t, fd));
            && view == Joined(t.slots) + Stale(s, {}, RoundsMoves(s, rs))
            && (view == Joined(t.slots) <==> Stale(s, {}, RoundsMoves(s, rs)) == {})
  {
    hide Inv, Settled, RoundsLegal, PassAll, RoundsMoves, LegalRun, Run, NoticesTo, Watch, Stale, Stays, StaysOnline;
    RoundsAreRun(s, rs);
    PassesStay(s, rs, o);
    RosterOverAnyRun(s, RoundsMoves(s, rs), o);
  }
}
