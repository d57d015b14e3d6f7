/** How the server answers what it refuses, word for word, and what it leaves undone when a send fails. */
module Answers {
  import opened Bytes
  import opened ChatProto
  import opened Framing
  import opened ServerSpec
  import opened ServerRuns
  import opened Conversations

  // ---- refusals ----

  datatype Complaint = Fine | Because(text: string)

  predicate LineEnd(b: byte) { b == 10 || b == 13 }

  /** Behind the first `n` bytes there are only line ends, and they end in none. */
  predicate EndsAt(body: Text, n: nat)
  {
    0 < n <= |body| && !LineEnd(body[n - 1]) && forall k :: n <= k < |body| ==> LineEnd(body[k])
  }

  /** What is left of the text when line ends are taken off its end, up to the first NUL. */
  predicate NickIn(body: Text, nick: Text)
  {
    exists n :: 0 < n <= |body| && EndsAt(body, n) && nick == CStr(body[..n])
  }

  /** Why a JOIN is refused, if it is. */
  ghost function JoinComplaint(slots: seq<Slot>, i: nat, body: Text): Complaint
    requires i < |slots|
  {
    if slots[i].joined then Because("Already joined")
    else if |body| == 0 || |body| > 31 then Because("Invalid nickname length")
    else if forall k :: 0 <= k < |body| ==> LineEnd(body[k]) then Because("Empty nickname")
    else if exists j :: 0 <= j < |slots| && j != i && slots[j].Online() && NickIn(body, slots[j].nick)
    then Because("Nickname already in use")
    else Fine
  }

  lemma TrimIsNick(body: Text)
    requires exists k :: 0 <= k < |body| && !LineEnd(body[k])
    ensures EndsAt(body, |TrimEol(body)|)
    ensures forall nick :: NickIn(body, nick) <==> nick == CStr(TrimEol(body))
  {
    hide CStr, EndsAt;
    var n := |TrimEol(body)|;
    TrimEndsAt(body);
    forall nick ensures NickIn(body, nick) <==> nick == CStr(TrimEol(body))
    {
      if NickIn(body, nick) {
        var m :| 0 < m <= |body| && EndsAt(body, m) && nick == CStr(body[..m]);
        EndsOnce(body, m, n);
      }
    }
  }

  lemma TrimEndsAt(body: Text)
    requires exists k :: 0 <= k < |body| && !LineEnd(body[k])
    ensures EndsAt(body, |TrimEol(body)|) && TrimEol(body) == body[..|TrimEol(body)|]
  {
    var t := TrimEol(body);
    var k :| 0 <= k < |body| && !LineEnd(body[k]);
    assert k < |t|;
    assert body[|t| - 1] == t[|t| - 1];
  }

  lemma EndsOnce(body: Text, m: nat, n: nat)
    requires EndsAt(body, m) && EndsAt(body, n)
    ensures m == n
  {}

  /** Every JOIN, answered. If there is a reason to refuse it, its sender alone is told which, and nothing
      changes; otherwise the sender is joined under the nick in its body. */
  lemma JoinAnswered(s: State, i: nat, body: Text, k: nat)
    requires Reliable(s) && i < |s.slots| && s.slots[i].used && k < |s.slots| && s.slots[k].used
    ensures var t, c := Dispatch(s, i, Frame(JOIN, body)), JoinComplaint(s.slots, i, body);
            var had, now := Delivered(s.trace, s.slots[k].fd), Delivered(t.trace, s.slots[k].fd);
            && t.said == s.said
            && (c.Because? ==> |c.text| <= MAX_BODY && t.slots == s.slots
                               && now == if k == i then had + [Frame(ERROR, Ascii(c.text))] else had)
            && (c.Fine? ==> NickIn(body, t.slots[i].nick)
                            && t.slots == s.slots[i := s.slots[i].(joined := true, nick := t.slots[i].nick)])
  {
    hide Delivered, Reliable, Ascii, CStr, Welcome;
    var c, fd := JoinComplaint(s.slots, i, body), s.slots[i].fd;
    if c.Because? {
      Refused(s, i, body);
      Told(s, i, c.text, k);
    } else {
      NotRefused(s, i, body);
    }
  }

  lemma Told(s: State, i: nat, text: string, k: nat)
    requires Reliable(s) && i < |s.slots| && s.slots[i].used && k < |s.slots| && s.slots[k].used && |text| <= MAX_BODY
    ensures Delivered(Complain(s, s.slots[i].fd, text).trace, s.slots[k].fd)
         == if k == i then Delivered(s.trace, s.slots[k].fd) + [Frame(ERROR, Ascii(text))]
            else Delivered(s.trace, s.slots[k].fd)
  {
    hide Delivered;
    SendDelivers(s, s.slots[i].fd, Frame(ERROR, Ascii(text)), s.slots[k].fd);
    assert s.slots[k].fd == s.slots[i].fd ==> k == i;
  }

  lemma Refused(s: State, i: nat, body: Text)
    requires i < |s.slots| && JoinComplaint(s.slots, i, body).Because?
    ensures var text := JoinComplaint(s.slots, i, body).text;
            |text| <= MAX_BODY && Dispatch(s, i, Frame(JOIN, body)) == Complain(s, s.slots[i].fd, text)
  {
    hide Ascii, CStr, Welcome, TrimEol, NickIn;
    if !s.slots[i].joined && 1 <= |body| <= 31 {
      if forall k :: 0 <= k < |body| ==> LineEnd(body[k]) {
        AllTrimmed(body);
      } else {
        TrimIsNick(body);
      }
    }
  }

  lemma {:induction false} AllTrimmed(body: Text)
    requires forall k :: 0 <= k < |body| ==> LineEnd(body[k])
    ensures TrimEol(body) == []
  {
    if body != [] {
      AllTrimmed(body[..|body| - 1]);
    }
  }

  lemma NotRefused(s: State, i: nat, body: Text)
    requires i < |s.slots| && JoinComplaint(s.slots, i, body).Fine?
    ensures var t := Dispatch(s, i, Frame(JOIN, body));
            && t.said == s.said && NickIn(body, t.slots[i].nick)
            && t.slots == s.slots[i := s.slots[i].(joined := true, nick := t.slots[i].nick)]
  {
    hide Ascii, CStr, Welcome, TrimEol, NickIn;
    TrimIsNick(body);
    assert !NickTaken(s.slots, CStr(TrimEol(body)), i);
  }

  /** Why a joined client's PRIVATE is refused, if it is: there is no NUL in it; what stands before the first
      is empty or longer than 31 bytes, or nothing stands behind; or nobody has that nick. */
  ghost function PrivateComplaint(slots: seq<Slot>, body: Text): Complaint
  {
    if NUL !in body then Because("Malformed private message (need target\\0text)")
    else if !(exists n :: 1 <= n <= 31 && n + 1 < |body| && body[n] == NUL && NUL !in body[..n])
    then Because("Invalid private message")
    else if !(exists j :: 0 <= j < |slots| && slots[j].Online() && slots[j].nick + [NUL] <= body)
    then Because("User not found")
    else Fine
  }

  lemma SplitExactly(body: Text)
    ensures SplitPrivate(body).NoSeparator? <==> NUL !in body
    ensures SplitPrivate(body).Whisper?
       <==> exists n :: 1 <= n <= 31 && n + 1 < |body| && body[n] == NUL && NUL !in body[..n]
    ensures SplitPrivate(body).Whisper? ==>
              var w := SplitPrivate(body); body == w.target + [NUL] + w.text && NUL !in w.target
  {
    var target := CStr(body);
    if NUL !in body {
      CStrWhole(body);
    } else {
      assert body[..|body|] == body && NUL !in target;
      assert body[..|target|] == target;
      assert body == target + [NUL] + body[|target| + 1..];
    }
    forall n | 1 <= n <= 31 && n + 1 < |body| && body[n] == NUL && NUL !in body[..n] ensures n == |target|
    {
      CStrAt(body, n);
    }
  }

  lemma HolderStarts(nick: Text, w: Text, text: Text)
    requires NUL !in nick && NUL !in w
    ensures nick + [NUL] <= w + [NUL] + text <==> nick == w
  {
    var body := w + [NUL] + text;
    if nick + [NUL] <= body {
      assert body[..|nick|] == nick && body[|nick|] == NUL;
      CStrAt(body, |nick|);
      assert body[..|w|] == w && body[|w|] == NUL;
      CStrAt(body, |w|);
    }
  }

  /** Every PRIVATE of a joined client that is refused: its sender alone is told why, and nothing changes. */
  lemma PrivateAnswered(s: State, i: nat, body: Text, k: nat)
    requires Reliable(s) && i < |s.slots| && s.slots[i].Online() && k < |s.slots| && s.slots[k].used
    requires PrivateComplaint(s.slots, body).Because?
    ensures var t, c := Dispatch(s, i, Frame(PRIVATE, body)), PrivateComplaint(s.slots, body);
            var had, now := Delivered(s.trace, s.slots[k].fd), Delivered(t.trace, s.slots[k].fd);
            && |c.text| <= MAX_BODY && t.slots == s.slots && t.said == s.said
            && now == if k == i then had + [Frame(ERROR, Ascii(c.text))] else had
  {
    hide Delivered, Ascii, CStr, SplitPrivate;
    SplitExactly(body);
    Told(s, i, PrivateComplaint(s.slots, body).text, k);
    if SplitPrivate(body).Whisper? {
      NobodyNamed(s.slots, body);
    }
  }

  lemma NobodyNamed(slots: seq<Slot>, body: Text)
    requires TableOk(slots) && SplitPrivate(body).Whisper? && PrivateComplaint(slots, body) == Because("User not found")
    ensures Holder(slots, SplitPrivate(body).target, |slots|) < 0
  {
    hide SplitPrivate;
    SplitExactly(body);
    var w := SplitPrivate(body);
    var to := Holder(slots, w.target, |slots|);
    if to >= 0 {
      assert SlotOk(slots[to]);
      HolderStarts(slots[to].nick, w.target, w.text);
    }
  }

  // ---- who hears of the other moves ----

  /** When a client is removed, every other joined client is told "[PART] nick" if it had joined; it itself is
      sent nothing more, and nobody anything else. */
  lemma RemovalHeard(s: State, i: nat, k: nat)
    requires Reliable(s) && i < |s.slots| && s.slots[i].used && k < |s.slots| && s.slots[k].used
    ensures var had, now := Delivered(s.trace, s.slots[k].fd), Delivered(RemoveClient(s, i).trace, s.slots[k].fd);
            now == if k != i && s.slots[k].joined && s.slots[i].joined
                   then had + [Frame(NOTIFY, Ascii("[PART] ") + s.slots[i].nick)] else had
  {
    hide Delivered, Ascii;
    var c, fd := s.slots[i], s.slots[k].fd;
    NothingIsCut(c, [], []);
    var t := s;
    if c.joined {
      t := FanOut(s, Frame(NOTIFY, PartNote(c.nick)), i, |s.slots|);
      FanOutDelivers(s, Frame(NOTIFY, PartNote(c.nick)), i, |s.slots|, k);
    }
    QuietEntry(t.trace, Closed(c.fd), fd);
  }

  /** A connection accepted or turned away, bytes received and a client closed for a bad header are heard by
      no client; a client closed so is not even missed. */
  lemma SilentMoves(s: State, m: Move, k: nat)
    requires Legal(s, m) && !m.Take? && !m.Remove? && k < |s.slots| && s.slots[k].used
    ensures Delivered(Apply(s, m).trace, s.slots[k].fd) == Delivered(s.trace, s.slots[k].fd)
    ensures Apply(s, m).said == s.said
  {
    hide Delivered, TurnAway;
    var fd := s.slots[k].fd;
    match m
    case Accept(f) =>
      TurnAwayQuiet(s, f, fd);
      QuietEntry(s.trace, Opened(f), fd);
    case Receive(i, chunk) => QuietEntry(s.trace, Got(s.slots[i].fd, chunk), fd);
    case Reject(i) => QuietEntry(s.trace, Closed(s.slots[i].fd), fd);
  }

  // ---- failed sends ----

  /** If the acknowledgement of a JOIN cannot be sent the client is joined all the same, but nothing else is
      sent: no history and no notice to anybody. */
  lemma UnacknowledgedJoin(s: State, i: nat, body: Text)
    requires i < |s.slots| && !s.slots[i].joined && Dispatch(s, i, Frame(JOIN, body)).slots[i].joined
    requires |s.trace| in s.failing
    ensures var t := Dispatch(s, i, Frame(JOIN, body));
            |t.trace| == |s.trace| + 1 && s.trace <= t.trace
            && var e := t.trace[|s.trace|]; e.Sent? && !e.ok && e.fd == s.slots[i].fd && e.frame.kind == JOIN_ACK
  {
    hide AckText, TrimEol, CStr, SendHistory, FanOut;
  }

  /** How many of `n` sends are tried, the first as trace entry `at`: up to and with the first that fails. */
  function Tried(failing: set<nat>, at: nat, n: nat): (m: nat)
    ensures m <= n
    ensures forall k :: at <= k < at + m - 1 ==> k !in failing
    ensures m < n ==> m > 0 && at + m - 1 in failing
    decreases n
  {
    if n == 0 then 0 else if at in failing then 1 else 1 + Tried(failing, at + 1, n - 1)
  }

  /** The history is sent line by line, oldest first, and stops behind the first line that cannot be sent. */
  lemma {:induction false} HistoryUntilFailure(s: State, fd: int, lines: seq<Text>)
    ensures var t, m := SendHistory(s, fd, lines), Tried(s.failing, |s.trace|, |lines|);
            && |t.trace| == |s.trace| + m && s.trace <= t.trace
            && forall k :: 0 <= k < m ==>
                 t.trace[|s.trace| + k] == Sent(fd, Frame(HISTORY, Clamp(lines[k])), |s.trace| + k !in s.failing)
    decreases |lines|
  {
    if lines != [] && SendWorks(s) {
      var u := SendTo(s, fd, Frame(HISTORY, Clamp(lines[0])));
      HistoryUntilFailure(u, fd, lines[1..]);
      var t, m := SendHistory(s, fd, lines), Tried(s.failing, |s.trace|, |lines|);
      forall k | 0 <= k < m
        ensures t.trace[|s.trace| + k] == Sent(fd, Frame(HISTORY, Clamp(lines[k])), |s.trace| + k !in s.failing)
      {
        if k > 0 { assert t.trace[|u.trace| + (k - 1)] == t.trace[|s.trace| + k] && lines[1..][k - 1] == lines[k]; }
      }
    }
  }

  /** A private message that does not reach its target is not echoed to its sender. */
  lemma NoEchoOfLostWhisper(s: State, i: nat, body: Text, j: nat)
    requires TableOk(s.slots) && i < |s.slots| && s.slots[i].Online() && SplitPrivate(body).Whisper?
    requires j < |s.slots| && s.slots[j].Online() && s.slots[j].nick == SplitPrivate(body).target
    requires |s.trace| in s.failing
    ensures var t := Dispatch(s, i, Frame(PRIVATE, body));
            |t.trace| == |s.trace| + 1 && s.trace <= t.trace
            && var e := t.trace[|s.trace|]; e.Sent? && !e.ok && e.fd == s.slots[j].fd && e.frame.kind == PRIVATE
  {
    hide SplitPrivate, PrivateLine, TableOk;
    HolderIsUnique(s.slots, SplitPrivate(body).target, j);
  }

  // ---- the order of a fan-out ----

  /** The descriptors of the joined clients but one, in slot order. */
  function Listeners(slots: seq<Slot>, skip: int, n: nat): seq<int>
    requires n <= |slots|
  {
    if n == 0 then []
    else if slots[n - 1].used && slots[n - 1].joined && n - 1 != skip then Listeners(slots, skip, n - 1) + [slots[n - 1].fd]
    else Listeners(slots, skip, n - 1)
  }

  /** A fan-out sends to the joined clients in slot order, whatever sends fail. */
  lemma {:induction false} FanOutInSlotOrder(s: State, f: Frame, skip: int, n: nat)
    requires n <= |s.slots| && Fits(f)
    ensures var t, fds := FanOut(s, f, skip, n), Listeners(s.slots, skip, n);
            && |t.trace| == |s.trace| + |fds| && s.trace <= t.trace
            && forall k :: 0 <= k < |fds| ==> t.trace[|s.trace| + k] == Sent(fds[k], f, |s.trace| + k !in s.failing)
  {
    if n > 0 {
      FanOutInSlotOrder(s, f, skip, n - 1);
    }
  }
}
