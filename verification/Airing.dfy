/** What the server sends as BROADCAST, whatever sends fail: the lines said, in order, and to a client that
    stays joined every one of them. */
module Airing {
  import opened Bytes
  import opened ChatProto
  import opened Framing
  import opened ServerSpec
  import opened ServerRuns
  import opened ServerEvents
  import opened PollPass
  import opened Roster
  import opened RoundLaws

  predicate Airs(e: Entry) { e.Sent? && e.frame.kind == BROADCAST }

  /** The bodies of all BROADCAST frames sent, successfully or not, to whomever. */
  function AllAired(tr: seq<Entry>): seq<Text>
  {
    if tr == [] then []
    else
      var e := tr[|tr| - 1];
      AllAired(tr[..|tr| - 1]) + (if Airs(e) then [e.frame.body] else [])
  }

  /** Those sent on the descriptor's current connection. */
  function Aired(tr: seq<Entry>, fd: int): seq<Text>
  {
    if tr == [] || tr[|tr| - 1] == Opened(fd) then []
    else
      var e := tr[|tr| - 1];
      Aired(tr[..|tr| - 1], fd) + (if Airs(e) && e.fd == fd then [e.frame.body] else [])
  }

  lemma AiredAppend(tr: seq<Entry>, e: Entry, fd: int)
    ensures AllAired(tr + [e]) == if Airs(e) then AllAired(tr) + [e.frame.body] else AllAired(tr)
    ensures Aired(tr + [e], fd) == if e == Opened(fd) then []
                                   else if Airs(e) && e.fd == fd then Aired(tr, fd) + [e.frame.body]
                                   else Aired(tr, fd)
  {
    assert (tr + [e])[..|tr|] == tr;
  }

  // ---- what airs nothing ----

  predicate Plain(e: Entry) { !e.Opened? && !Airs(e) }

  ghost predicate PlainOnly(before: seq<Entry>, after: seq<Entry>)
  {
    && before <= after
    && forall k :: |before| <= k < |after| ==> Plain(after[k])
  }

  lemma {:induction false} PlainAirsNothing(before: seq<Entry>, after: seq<Entry>, fd: int)
    requires PlainOnly(before, after)
    ensures AllAired(after) == AllAired(before) && Aired(after, fd) == Aired(before, fd)
    decreases |after|
  {
    hide AllAired, Aired;
    if |before| == |after| {
      assert before == after;
    } else {
      var front := after[..|after| - 1];
      PlainAirsNothing(before, front, fd);
      AiredAppend(front, after[|after| - 1], fd);
      assert after == front + [after[|after| - 1]];
    }
  }

  lemma {:induction false} FanOutPlain(s: State, f: Frame, skip: int, n: nat)
    requires n <= |s.slots| && Fits(f) && f.kind != BROADCAST
    ensures PlainOnly(s.trace, FanOut(s, f, skip, n).trace)
  {
    if n > 0 {
      FanOutPlain(s, f, skip, n - 1);
    }
  }

  lemma {:induction false} SendHistoryPlain(s: State, fd: int, lines: seq<Text>)
    ensures PlainOnly(s.trace, SendHistory(s, fd, lines).trace)
    decreases |lines|
  {
    if lines != [] && SendWorks(s) {
      SendHistoryPlain(SendTo(s, fd, Frame(HISTORY, Clamp(lines[0]))), fd, lines[1..]);
    }
  }

  lemma WelcomePlain(s: State, i: nat)
    requires i < |s.slots|
    ensures PlainOnly(s.trace, Welcome(s, i).trace)
  {
    hide AckText, JoinNote;
    var c := s.slots[i];
    var t := SendTo(s, c.fd, Frame(JOIN_ACK, Snprintf(128, AckText(c.id, c.nick))));
    SendHistoryPlain(t, c.fd, Last(s.said, HISTORY_LINES));
    var u := SendHistory(t, c.fd, Last(s.said, HISTORY_LINES));
    FanOutPlain(u, Frame(NOTIFY, Clamp(Snprintf(MAX_BODY + 1, JoinNote(c.nick)))), i, |s.slots|);
  }

  lemma JoinPlain(s: State, i: nat, body: Text)
    requires i < |s.slots|
    ensures PlainOnly(s.trace, HandleJoin(s, i, body).trace)
  {
    hide Welcome, TrimEol, CStr;
    var nick := TrimEol(body);
    WelcomePlain(s.(slots := s.slots[i := s.slots[i].(nick := CStr(nick), joined := true)]), i);
  }

  /** Only a joined client's BROADCAST airs anything. */
  lemma DispatchPlain(s: State, i: nat, f: Frame)
    requires i < |s.slots| && !(f.kind == BROADCAST && s.slots[i].joined)
    ensures PlainOnly(s.trace, Dispatch(s, i, f).trace) && Dispatch(s, i, f).said == s.said
  {
    hide HandleJoin, SplitPrivate, PrivateLine, ListBody, Holder;
    JoinPlain(s, i, f.body);
  }

  // ---- what airs something ----

  lemma {:induction false} FanOutAirs(s: State, line: Text, n: nat, k: nat)
    requires n <= |s.slots| && |line| <= MAX_BODY && TableOk(s.slots) && k < |s.slots| && s.slots[k].used
    ensures var before, after := Aired(s.trace, s.slots[k].fd),
                                 Aired(FanOut(s, Frame(BROADCAST, line), -1, n).trace, s.slots[k].fd);
            after == if k < n && s.slots[k].Online() then before + [line] else before
  {
    hide Aired, AllAired;
    if n > 0 {
      FanOutAirs(s, line, n - 1, k);
      var t, to := FanOut(s, Frame(BROADCAST, line), -1, n - 1), s.slots[n - 1].fd;
      AiredAppend(t.trace, Sent(to, Frame(BROADCAST, line), SendWorks(t)), s.slots[k].fd);
    }
  }

  /** `a` holds lines of `b` in the order they have there, each any number of times in a row. */
  predicate InOrder(a: seq<Text>, b: seq<Text>)
    decreases |a| + |b|
  {
    a == []
    || (b != [] && ((a[|a| - 1] == b[|b| - 1] && InOrder(a[..|a| - 1], b)) || InOrder(a, b[..|b| - 1])))
  }

  lemma OneMoreLine(a: seq<Text>, b: seq<Text>, line: Text)
    requires InOrder(a, b)
    ensures InOrder(a, b + [line])
  {
    assert (b + [line])[..|b|] == b;
  }

  lemma SaidAgain(a: seq<Text>, b: seq<Text>, line: Text)
    requires InOrder(a, b) && b != [] && b[|b| - 1] == line
    ensures InOrder(a + [line], b)
  {
    assert (a + [line])[..|a|] == a;
  }

  /** Where each of them stands. */
  lemma {:induction false} Places(a: seq<Text>, b: seq<Text>) returns (at: seq<nat>)
    requires InOrder(a, b)
    ensures |at| == |a| && forall k :: 0 <= k < |a| ==> at[k] < |b| && a[k] == b[at[k]]
    ensures forall j, k :: 0 <= j < k < |a| ==> at[j] <= at[k]
    decreases |a| + |b|
  {
    if a == [] {
      at := [];
    } else if a[|a| - 1] == b[|b| - 1] && InOrder(a[..|a| - 1], b) {
      at := Places(a[..|a| - 1], b);
      at := at + [|b| - 1];
    } else {
      at := Places(a, b[..|b| - 1]);
    }
  }

  lemma {:induction false} FanOutInOrder(s: State, line: Text, n: nat)
    requires n <= |s.slots| && |line| <= MAX_BODY
    requires s.said != [] && s.said[|s.said| - 1] == line && InOrder(AllAired(s.trace), s.said)
    ensures InOrder(AllAired(FanOut(s, Frame(BROADCAST, line), -1, n).trace), s.said)
  {
    hide Aired, AllAired, InOrder;
    if n > 0 {
      FanOutInOrder(s, line, n - 1);
      var t, to := FanOut(s, Frame(BROADCAST, line), -1, n - 1), s.slots[n - 1].fd;
      AiredAppend(t.trace, Sent(to, Frame(BROADCAST, line), SendWorks(t)), to);
      SaidAgain(AllAired(t.trace), s.said, line);
    }
  }

  // ---- one move ----

  lemma DispatchAirs(s: State, i: nat, f: Frame, o: nat)
    requires TableOk(s.slots) && i < |s.slots| && s.slots[i].used && o < |s.slots| && s.slots[o].Online()
    ensures var t, fd := Dispatch(s, i, f), s.slots[o].fd;
            Aired(t.trace, fd) == Aired(s.trace, fd) + t.said[|s.said|..]
  {
    hide Aired, AllAired, BroadcastLine, HandleJoin, HandlePrivate, HandleList, FanOut;
    var fd := s.slots[o].fd;
    if f.kind == BROADCAST && s.slots[i].joined {
      var line := Clamp(BroadcastLine(s.slots[i].nick, f.body));
      FanOutAirs(s.(said := s.said + [line]), line, |s.slots|, o);
      assert (s.said + [line])[|s.said|..] == [line];
    } else {
      DispatchPlain(s, i, f);
      PlainAirsNothing(s.trace, Dispatch(s, i, f).trace, fd);
      assert s.said[|s.said|..] == [];
    }
  }

  lemma DispatchInOrder(s: State, i: nat, f: Frame)
    requires i < |s.slots| && InOrder(AllAired(s.trace), s.said)
    ensures InOrder(AllAired(Dispatch(s, i, f).trace), Dispatch(s, i, f).said)
  {
    hide Aired, AllAired, InOrder, BroadcastLine, HandleJoin, HandlePrivate, HandleList, FanOut;
    if f.kind == BROADCAST && s.slots[i].joined {
      var line := Clamp(BroadcastLine(s.slots[i].nick, f.body));
      OneMoreLine(AllAired(s.trace), s.said, line);
      FanOutInOrder(s.(said := s.said + [line]), line, |s.slots|);
    } else {
      DispatchPlain(s, i, f);
      PlainAirsNothing(s.trace, Dispatch(s, i, f).trace, 0);
    }
  }

  lemma RemovePlain(s: State, i: nat)
    requires i < |s.slots|
    ensures PlainOnly(s.trace, RemoveClient(s, i).trace)
  {
    hide PartNote;
    FanOutPlain(s, Frame(NOTIFY, Clamp(Snprintf(MAX_BODY + 1, PartNote(s.slots[i].nick)))), i, |s.slots|);
  }

  /** Every move but a Take and an Accept into a free slot airs nothing. */
  lemma OtherMovesPlain(s: State, m: Move)
    requires Legal(s, m) && !m.Take?
    ensures Apply(s, m).said == s.said
    ensures m.Accept? && FirstFree(s.slots, |s.slots|) >= 0 ==> Apply(s, m).trace == s.trace + [Opened(m.fd)]
    ensures !(m.Accept? && FirstFree(s.slots, |s.slots|) >= 0) ==> PlainOnly(s.trace, Apply(s, m).trace)
  {
    hide RemoveClient, FullHeader, FirstFree;
    if m.Remove? { RemovePlain(s, m.i); RemoveSaid(s, m.i); }
  }

  lemma RemoveSaid(s: State, i: nat)
    requires i < |s.slots|
    ensures RemoveClient(s, i).said == s.said
  {}

  lemma TakeStep(s: State, i: nat)
    requires Legal(s, Take(i))
    ensures var f := Peek(s.slots[i].inbuf).frame;
            var u := Log(s, Took(s.slots[i].fd, f));
            && Apply(s, Take(i)).trace == Dispatch(u, i, f).trace && Apply(s, Take(i)).said == Dispatch(u, i, f).said
            && PlainOnly(s.trace, u.trace)
  {
    hide Dispatch, Peek;
  }

  lemma MoveAirs(s: State, m: Move, o: nat)
    requires TableOk(s.slots) && Legal(s, m) && o < |s.slots| && s.slots[o].Online()
    ensures var t, fd := Apply(s, m), s.slots[o].fd;
            s.said <= t.said && Aired(t.trace, fd) == Aired(s.trace, fd) + t.said[|s.said|..]
  {
    hide Aired, AllAired, Apply, Dispatch, Peek, Log;
    var t, fd := Apply(s, m), s.slots[o].fd;
    if m.Take? {
      var f := Peek(s.slots[m.i].inbuf).frame;
      var u := Logged(s, Took(s.slots[m.i].fd, f));
      TakeStep(s, m.i);
      PlainAirsNothing(s.trace, u.trace, fd);
      DispatchAirs(u, m.i, f, o);
    } else {
      OtherMovesPlain(s, m);
      assert s.said[|s.said|..] == [];
      if m.Accept? && FirstFree(s.slots, |s.slots|) >= 0 {
        AiredAppend(s.trace, Opened(m.fd), fd);
      } else {
        PlainAirsNothing(s.trace, t.trace, fd);
      }
    }
  }

  function Logged(s: State, e: Entry): (t: State)
    ensures t == Log(s, e) && t.slots == s.slots && t.said == s.said
  {
    Log(s, e)
  }

  lemma MoveInOrder(s: State, m: Move)
    requires Legal(s, m) && InOrder(AllAired(s.trace), s.said)
    ensures InOrder(AllAired(Apply(s, m).trace), Apply(s, m).said)
  {
    hide Aired, AllAired, InOrder, Apply, Dispatch, Peek, Log;
    if m.Take? {
      var f := Peek(s.slots[m.i].inbuf).frame;
      var u := Logged(s, Took(s.slots[m.i].fd, f));
      TakeStep(s, m.i);
      PlainAirsNothing(s.trace, u.trace, 0);
      DispatchInOrder(u, m.i, f);
    } else {
      OtherMovesPlain(s, m);
      if m.Accept? && FirstFree(s.slots, |s.slots|) >= 0 {
        AiredAppend(s.trace, Opened(m.fd), 0);
      } else {
        PlainAirsNothing(s.trace, Apply(s, m).trace, 0);
      }
    }
  }

  // ---- runs ----

  /** A client that stays joined is sent, on its connection, exactly the lines said meanwhile, each once and
      in order, whatever sends fail. */
  lemma {:induction false} AiredOverAnyRun(s: State, ms: seq<Move>, o: nat)
    requires Inv(s) && LegalRun(s, ms) && o < |s.slots| && Stays(s, ms, o)
    ensures var t, fd := Run(s, ms), s.slots[o].fd;
            s.said <= t.said && Aired(t.trace, fd) == Aired(s.trace, fd) + t.said[|s.said|..]
    decreases |ms|
  {
    hide Inv, Aired, Apply;
    if ms == [] {
      assert s.said[|s.said|..] == [];
    } else {
      var t := Apply(s, ms[0]);
      InvTable(s);
      MoveKeepsInv(s, ms[0]);
      MoveAirs(s, ms[0], o);
      assert t.slots[o].Online();
      StaysKeepsFd(s, ms[0], o);
      AiredOverAnyRun(t, ms[1..], o);
      Continued(s.said, t.said, Run(t, ms[1..]).said);
    }
  }

  lemma InvTable(s: State)
    requires Inv(s)
    ensures TableOk(s.slots)
  {}

  lemma Continued(a: seq<Text>, b: seq<Text>, c: seq<Text>)
    requires a <= b <= c
    ensures b[|a|..] + c[|b|..] == c[|a|..]
  {}

  lemma {:induction false} AiredInOrder(s: State, ms: seq<Move>)
    requires LegalRun(s, ms) && InOrder(AllAired(s.trace), s.said)
    ensures InOrder(AllAired(Run(s, ms).trace), Run(s, ms).said)
    decreases |ms|
  {
    hide AllAired, InOrder, Apply, Legal;
    if ms != [] {
      MoveInOrder(s, ms[0]);
      AiredInOrder(Apply(s, ms[0]), ms[1..]);
    }
  }

  // ---- the loop of `main` ----

  /** After any number of passes from the empty server, whatever sends fail: every BROADCAST frame ever sent,
      to anyone, carries a line that was said, and they were sent in the order the lines were said. */
  lemma AiredAfterAnyPasses(failing: set<nat>, rs: seq<Round>) returns (at: seq<nat>)
    requires RoundsLegal(Start(failing), rs)
    ensures var s := PassAll(Start(failing), rs);
            && |at| == |AllAired(s.trace)|
            && (forall k :: 0 <= k < |at| ==> at[k] < |s.said| && AllAired(s.trace)[k] == s.said[at[k]])
            && (forall j, k :: 0 <= j < k < |at| ==> at[j] <= at[k])
  {
    hide Inv, Settled, RoundsLegal, PassAll, RoundsMoves, LegalRun, Run, InOrder;
    StartInv(failing);
    StartSettled(failing);
    RoundsAreRun(Start(failing), rs);
    NothingAired(failing);
    AiredInOrder(Start(failing), RoundsMoves(Start(failing), rs));
    var s := PassAll(Start(failing), rs);
    at := Places(AllAired(s.trace), s.said);
  }

  lemma NothingAired(failing: set<nat>)
    ensures InOrder(AllAired(Start(failing).trace), Start(failing).said)
  {}

  /** And a client joined before and after every pass has been sent exactly the lines said meanwhile. */
  lemma AiredToWhoStays(s: State, rs: seq<Round>, o: nat)
    requires Inv(s) && Settled(s) && RoundsLegal(s, rs) && o < |s.slots| && StaysOnline(s, rs, o)
    ensures var t, fd := PassAll(s, rs), s.slots[o].fd;
            s.said <= t.said && Aired(t.trace, fd) == Aired(s.trace, fd) + t.said[|s.said|..]
  {
    hide Inv, Settled, RoundsLegal, PassAll, RoundsMoves, LegalRun, Run, Aired, Stays, StaysOnline;
    RoundsAreRun(s, rs);
    PassesStay(s, rs, o);
    AiredOverAnyRun(s, RoundsMoves(s, rs), o);
  }
}
