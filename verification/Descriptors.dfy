/** Which descriptors are open, read off the system calls made, and that they are those of the used slots. */
module Descriptors {
  import opened Bytes
  import opened ChatProto
  import opened Framing
  import opened ServerSpec
  import opened ServerRuns
  import opened ServerEvents
  import opened PollPass
  import opened RoundLaws

  /** The descriptors accepted and not closed since. */
  function OpenNow(tr: seq<Entry>): set<int>
  {
    if tr == [] then {}
    else
      var before := OpenNow(tr[..|tr| - 1]);
      match tr[|tr| - 1]
      case Opened(fd) => before + {fd}
      case Refused(fd) => before + {fd}
      case Closed(fd) => before - {fd}
      case _ => before
  }

  function InUse(slots: seq<Slot>): set<int>
  {
    set j | 0 <= j < |slots| && slots[j].used :: slots[j].fd
  }

  lemma OpenAppend(tr: seq<Entry>, e: Entry)
    ensures OpenNow(tr + [e]) == if e.Opened? || e.Refused? then OpenNow(tr) + {e.fd}
                                 else if e.Closed? then OpenNow(tr) - {e.fd} else OpenNow(tr)
  {
    assert (tr + [e])[..|tr|] == tr;
  }

  lemma {:induction false} SendsOpenNothing(before: seq<Entry>, after: seq<Entry>)
    requires SendsOnly(before, after)
    ensures OpenNow(after) == OpenNow(before)
    decreases |after|
  {
    hide OpenNow;
    if |before| == |after| {
      assert before == after;
    } else {
      var front := after[..|after| - 1];
      SendsOpenNothing(before, front);
      OpenAppend(front, after[|after| - 1]);
      assert after == front + [after[|after| - 1]];
    }
  }

  /** Exactly the used slots' descriptors are open: none leaks and none is used after it was closed. */
  ghost predicate NoLeak(s: State) { OpenNow(s.trace) == InUse(s.slots) }

  lemma InUseEmptied(slots: seq<Slot>, i: nat)
    requires TableOk(slots) && i < |slots|
    ensures InUse(slots[i := EMPTY_SLOT]) == if slots[i].used then InUse(slots) - {slots[i].fd} else InUse(slots)
  {
    var after := slots[i := EMPTY_SLOT];
    forall j | 0 <= j < |slots| && j != i && slots[j].used ensures slots[j].fd in InUse(after)
    {
      assert after[j] == slots[j];
    }
    forall j | 0 <= j < |after| && after[j].used ensures after[j].fd in InUse(slots)
    {
      assert after[j] == slots[j];
    }
  }

  lemma InUseFilled(slots: seq<Slot>, i: nat, c: Slot)
    requires i < |slots| && !slots[i].used && c.used
    ensures InUse(slots[i := c]) == InUse(slots) + {c.fd}
  {
    var after := slots[i := c];
    assert after[i].fd in InUse(after);
    forall j | 0 <= j < |slots| && slots[j].used ensures slots[j].fd in InUse(after)
    {
      assert after[j] == slots[j];
    }
    forall j | 0 <= j < |after| && after[j].used && j != i ensures after[j].fd in InUse(slots)
    {
      assert after[j] == slots[j];
    }
  }

  lemma InUseSame(a: seq<Slot>, b: seq<Slot>)
    requires |a| == |b| && forall j :: 0 <= j < |a| ==> a[j].used == b[j].used && a[j].fd == b[j].fd
    ensures InUse(a) == InUse(b)
  {
    forall fd | fd in InUse(a) ensures fd in InUse(b)
    {
      var j :| 0 <= j < |a| && a[j].used && a[j].fd == fd;
      assert b[j].used;
    }
    forall fd | fd in InUse(b) ensures fd in InUse(a)
    {
      var j :| 0 <= j < |b| && b[j].used && b[j].fd == fd;
      assert a[j].used;
    }
  }

  // ---- every move keeps it ----

  lemma CloseLeaksNothing(s: State, i: nat)
    requires TableOk(s.slots) && NoLeak(s) && i < |s.slots|
    ensures NoLeak(CloseSlot(s, i))
  {
    hide OpenNow, InUse;
    InUseEmptied(s.slots, i);
    if s.slots[i].fd >= 0 { OpenAppend(s.trace, Closed(s.slots[i].fd)); }
    assert SlotOk(s.slots[i]);
  }

  lemma RemoveLeaksNothing(s: State, i: nat)
    requires TableOk(s.slots) && NoLeak(s) && i < |s.slots|
    ensures NoLeak(RemoveClient(s, i))
  {
    hide OpenNow, InUse, TableOk;
    var c := s.slots[i];
    if c.joined {
      var t := FanOut(s, Frame(NOTIFY, Clamp(Snprintf(MAX_BODY + 1, PartNote(c.nick)))), i, |s.slots|);
      SendsOpenNothing(s.trace, t.trace);
      CloseLeaksNothing(t, i);
    } else {
      CloseLeaksNothing(s, i);
    }
  }

  lemma AcceptLeaksNothing(s: State, fd: int)
    requires NoLeak(s) && Legal(s, Accept(fd))
    ensures NoLeak(AcceptOne(s, fd))
  {
    hide OpenNow, FullHeader;
    var t, a := AcceptOne(s, fd), FirstFree(s.slots, |s.slots|);
    if a >= 0 {
      OpenAppend(s.trace, Opened(fd));
      InUseFilled(s.slots, a, t.slots[a]);
    } else {
      var u := Log(s, Refused(fd));
      var v := WriteTo(u, fd, FullHeader());
      var w := WriteTo(v, fd, FULL.body);
      OpenAppend(s.trace, Refused(fd));
      OpenAppend(u.trace, Wrote(fd, FullHeader(), SendWorks(u)));
      OpenAppend(v.trace, Wrote(fd, FULL.body, SendWorks(v)));
      OpenAppend(w.trace, Closed(fd));
      assert fd !in InUse(s.slots);
    }
  }

  lemma TakeLeaksNothing(s: State, i: nat)
    requires NoLeak(s) && Legal(s, Take(i))
    ensures NoLeak(TakeFrame(s, i))
  {
    hide OpenNow, Dispatch, Peek, InUse;
    var f := Peek(s.slots[i].inbuf).frame;
    var u := Log(s, Took(s.slots[i].fd, f));
    OpenAppend(s.trace, Took(s.slots[i].fd, f));
    SendsOpenNothing(u.trace, Dispatch(u, i, f).trace);
    InUseSame(s.slots, TakeFrame(s, i).slots);
  }

  lemma MoveLeaksNothing(s: State, m: Move)
    requires TableOk(s.slots) && NoLeak(s) && Legal(s, m)
    ensures NoLeak(Apply(s, m))
  {
    hide NoLeak, TakeFrame, RemoveClient, CloseSlot, AcceptOne;
    match m
    case Accept(fd) => AcceptLeaksNothing(s, fd);
    case Receive(i, chunk) => ReceiveLeaksNothing(s, i, chunk);
    case Take(i) => TakeLeaksNothing(s, i);
    case Reject(i) => CloseLeaksNothing(s, i);
    case Remove(i) => RemoveLeaksNothing(s, i);
  }

  lemma ReceiveLeaksNothing(s: State, i: nat, chunk: Text)
    requires NoLeak(s) && i < |s.slots|
    ensures NoLeak(ReceiveInto(s, i, chunk))
  {
    hide OpenNow, InUse;
    OpenAppend(s.trace, Got(s.slots[i].fd, chunk));
    InUseSame(s.slots, ReceiveInto(s, i, chunk).slots);
  }

  // ---- no descriptor is used when it is not open ----

  /** Only descriptors not open are accepted; receiving, sending, writing and closing only touch open ones. */
  predicate UsedRight(tr: seq<Entry>)
  {
    tr == []
    || (var front, e := tr[..|tr| - 1], tr[|tr| - 1];
        UsedRight(front) && (if e.Opened? || e.Refused? then e.fd !in OpenNow(front) else e.fd in OpenNow(front)))
  }

  lemma UsedAppend(tr: seq<Entry>, e: Entry)
    requires UsedRight(tr)
    requires if e.Opened? || e.Refused? then e.fd !in OpenNow(tr) else e.fd in OpenNow(tr)
    ensures UsedRight(tr + [e])
  {
    assert (tr + [e])[..|tr|] == tr;
  }

  /** What was added are sends to these descriptors. */
  ghost predicate SendsTo(fds: set<int>, before: seq<Entry>, after: seq<Entry>)
  {
    && before <= after
    && forall k :: |before| <= k < |after| ==> after[k].Sent? && after[k].fd in fds
  }

  lemma {:induction false} SendsRight(fds: set<int>, before: seq<Entry>, after: seq<Entry>)
    requires UsedRight(before) && fds <= OpenNow(before) && SendsTo(fds, before, after)
    ensures UsedRight(after) && OpenNow(after) == OpenNow(before)
    decreases |after|
  {
    hide OpenNow, UsedRight;
    if |before| == |after| {
      assert before == after;
    } else {
      var front := after[..|after| - 1];
      SendsRight(fds, before, front);
      OpenAppend(front, after[|after| - 1]);
      UsedAppend(front, after[|after| - 1]);
      assert after == front + [after[|after| - 1]];
    }
  }

  lemma {:induction false} FanOutTo(s: State, f: Frame, skip: int, n: nat)
    requires n <= |s.slots| && Fits(f)
    ensures SendsTo(InUse(s.slots), s.trace, FanOut(s, f, skip, n).trace)
  {
    if n > 0 {
      FanOutTo(s, f, skip, n - 1);
    }
  }

  lemma {:induction false} SendHistoryTo(s: State, fd: int, lines: seq<Text>, fds: set<int>)
    requires fd in fds
    ensures SendsTo(fds, s.trace, SendHistory(s, fd, lines).trace)
    decreases |lines|
  {
    if lines != [] && SendWorks(s) {
      SendHistoryTo(SendTo(s, fd, Frame(HISTORY, Clamp(lines[0]))), fd, lines[1..], fds);
    }
  }

  lemma WelcomeTo(s: State, i: nat)
    requires i < |s.slots| && s.slots[i].used
    ensures SendsTo(InUse(s.slots), s.trace, Welcome(s, i).trace)
  {
    hide AckText, JoinNote;
    var c := s.slots[i];
    assert c.fd in InUse(s.slots);
    var t := SendTo(s, c.fd, Frame(JOIN_ACK, Snprintf(128, AckText(c.id, c.nick))));
    SendHistoryTo(t, c.fd, Last(s.said, HISTORY_LINES), InUse(s.slots));
    var u := SendHistory(t, c.fd, Last(s.said, HISTORY_LINES));
    FanOutTo(u, Frame(NOTIFY, Clamp(Snprintf(MAX_BODY + 1, JoinNote(c.nick)))), i, |s.slots|);
  }

  lemma JoinTo(s: State, i: nat, body: Text)
    requires i < |s.slots| && s.slots[i].used
    ensures SendsTo(InUse(s.slots), s.trace, HandleJoin(s, i, body).trace)
  {
    hide Welcome, TrimEol, CStr, InUse;
    var nick := CStr(TrimEol(body));
    var u := s.(slots := s.slots[i := s.slots[i].(nick := nick, joined := true)]);
    assert s.slots[i].fd in InUse(s.slots) by { InUseHas(s.slots, i); }
    InUseSame(s.slots, u.slots);
    WelcomeTo(u, i);
  }

  lemma InUseHas(slots: seq<Slot>, i: nat)
    requires i < |slots| && slots[i].used
    ensures slots[i].fd in InUse(slots)
  {}

  lemma PrivateTo(s: State, i: nat, body: Text)
    requires i < |s.slots| && s.slots[i].used
    ensures SendsTo(InUse(s.slots), s.trace, HandlePrivate(s, i, body).trace)
  {
    hide SplitPrivate, PrivateLine, InUse;
    InUseHas(s.slots, i);
    if SplitPrivate(body).Whisper? {
      var to := Holder(s.slots, SplitPrivate(body).target, |s.slots|);
      if to >= 0 { InUseHas(s.slots, to); }
    }
  }

  lemma DispatchTo(s: State, i: nat, f: Frame)
    requires i < |s.slots| && s.slots[i].used
    ensures SendsTo(InUse(s.slots), s.trace, Dispatch(s, i, f).trace)
  {
    hide HandleJoin, HandlePrivate, ListBody, BroadcastLine, InUse;
    InUseHas(s.slots, i);
    if f.kind == JOIN {
      JoinTo(s, i, f.body);
    } else if f.kind == PRIVATE {
      PrivateTo(s, i, f.body);
    } else if f.kind == BROADCAST && s.slots[i].joined {
      var line := Clamp(BroadcastLine(s.slots[i].nick, f.body));
      FanOutTo(s.(said := s.said + [line]), Frame(BROADCAST, line), -1, |s.slots|);
    }
  }

  lemma CloseUsesRight(s: State, i: nat)
    requires NoLeak(s) && UsedRight(s.trace) && i < |s.slots| && s.slots[i].used
    ensures UsedRight(CloseSlot(s, i).trace)
  {
    hide OpenNow, UsedRight, InUse;
    InUseHas(s.slots, i);
    if s.slots[i].fd >= 0 { UsedAppend(s.trace, Closed(s.slots[i].fd)); }
  }

  lemma RemoveUsesRight(s: State, i: nat)
    requires NoLeak(s) && UsedRight(s.trace) && i < |s.slots| && s.slots[i].used
    ensures UsedRight(RemoveClient(s, i).trace)
  {
    hide OpenNow, UsedRight, InUse;
    var c := s.slots[i];
    if c.joined {
      var f := Frame(NOTIFY, Clamp(Snprintf(MAX_BODY + 1, PartNote(c.nick))));
      FanOutTo(s, f, i, |s.slots|);
      SendsRight(InUse(s.slots), s.trace, FanOut(s, f, i, |s.slots|).trace);
      CloseUsesRight(FanOut(s, f, i, |s.slots|), i);
    } else {
      CloseUsesRight(s, i);
    }
  }

  lemma AcceptUsesRight(s: State, fd: int)
    requires NoLeak(s) && UsedRight(s.trace) && Legal(s, Accept(fd))
    ensures UsedRight(AcceptOne(s, fd).trace)
  {
    hide OpenNow, UsedRight, FullHeader;
    assert fd !in InUse(s.slots);
    if FirstFree(s.slots, |s.slots|) >= 0 {
      UsedAppend(s.trace, Opened(fd));
    } else {
      var u := Log(s, Refused(fd));
      var v := WriteTo(u, fd, FullHeader());
      var w := WriteTo(v, fd, FULL.body);
      UsedAppend(s.trace, Refused(fd));
      OpenAppend(s.trace, Refused(fd));
      UsedAppend(u.trace, Wrote(fd, FullHeader(), SendWorks(u)));
      OpenAppend(u.trace, Wrote(fd, FullHeader(), SendWorks(u)));
      UsedAppend(v.trace, Wrote(fd, FULL.body, SendWorks(v)));
      OpenAppend(v.trace, Wrote(fd, FULL.body, SendWorks(v)));
      UsedAppend(w.trace, Closed(fd));
    }
  }

  lemma TakeUsesRight(s: State, i: nat)
    requires NoLeak(s) && UsedRight(s.trace) && Legal(s, Take(i))
    ensures UsedRight(TakeFrame(s, i).trace)
  {
    hide OpenNow, UsedRight, InUse, Dispatch, Peek;
    var f := Peek(s.slots[i].inbuf).frame;
    var u := Log(s, Took(s.slots[i].fd, f));
    InUseHas(s.slots, i);
    UsedAppend(s.trace, Took(s.slots[i].fd, f));
    OpenAppend(s.trace, Took(s.slots[i].fd, f));
    DispatchTo(u, i, f);
    SendsRight(InUse(s.slots), u.trace, Dispatch(u, i, f).trace);
  }

  lemma MoveUsesRight(s: State, m: Move)
    requires NoLeak(s) && UsedRight(s.trace) && Legal(s, m)
    ensures UsedRight(Apply(s, m).trace)
  {
    hide OpenNow, UsedRight, InUse, TakeFrame, RemoveClient, CloseSlot, AcceptOne;
    match m
    case Accept(fd) => AcceptUsesRight(s, fd);
    case Receive(i, chunk) =>
      InUseHas(s.slots, i);
      UsedAppend(s.trace, Got(s.slots[i].fd, chunk));
    case Take(i) => TakeUsesRight(s, i);
    case Reject(i) => CloseUsesRight(s, i);
    case Remove(i) => RemoveUsesRight(s, i);
  }

  // ---- over runs and passes ----

  /** Over any run the open descriptors are those of the used slots, and only open ones are used. */
  lemma {:induction false} RunLeaksNothing(s: State, ms: seq<Move>)
    requires Inv(s) && NoLeak(s) && UsedRight(s.trace) && LegalRun(s, ms)
    ensures NoLeak(Run(s, ms)) && UsedRight(Run(s, ms).trace)
    decreases |ms|
  {
    hide NoLeak, UsedRight, Apply, Inv;
    if ms != [] {
      TableOfInv(s);
      MoveLeaksNothing(s, ms[0]);
      MoveUsesRight(s, ms[0]);
      MoveKeepsInv(s, ms[0]);
      RunLeaksNothing(Apply(s, ms[0]), ms[1..]);
    }
  }

  lemma TableOfInv(s: State)
    requires Inv(s)
    ensures TableOk(s.slots)
  {}

  lemma StartLeaksNothing(failing: set<nat>)
    ensures NoLeak(Start(failing)) && UsedRight(Start(failing).trace)
  {}

  /** After any number of passes from the empty server, whatever sends fail: a descriptor is open if and only
      if it is that of a used slot, and then of exactly one; and none was ever read, written or closed when
      it was not open. */
  lemma OpenAfterAnyPasses(failing: set<nat>, rs: seq<Round>)
    requires RoundsLegal(Start(failing), rs)
    ensures var s := PassAll(Start(failing), rs);
            && (forall fd :: fd in OpenNow(s.trace) <==> exists j :: 0 <= j < |s.slots| && s.slots[j].used && s.slots[j].fd == fd)
            && (forall j, k :: 0 <= j < k < |s.slots| && s.slots[j].used && s.slots[k].used ==> s.slots[j].fd != s.slots[k].fd)
            && UsedRight(s.trace)
  {
    hide Inv, Settled, UsedRight, RoundsLegal, PassAll, RoundsMoves, LegalRun, Run, OpenNow, Start;
    StartInv(failing);
    StartSettled(failing);
    StartLeaksNothing(failing);
    RoundsAreRun(Start(failing), rs);
    RunLeaksNothing(Start(failing), RoundsMoves(Start(failing), rs));
    PassesKeepInv(Start(failing), rs);
    TableOfInv(PassAll(Start(failing), rs));
  }
}
