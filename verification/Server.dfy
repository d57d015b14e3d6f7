/** server.c: the slot table, the history ring and the handlers, updated in place. Every method is proved
    equal to its function in `ServerSpec` or `PollPass`. */
module Server {
  import opened Bytes
  import opened ChatProto
  import opened Framing
  import opened ServerSpec
  import opened History
  import opened ServerRuns
  import opened PollPass
  import opened Listing

  class ChatServer {
    const clients: array<Slot>
    const history: array<Text>
    var histStart: nat
    var histCount: nat
    var nextId: u32
    /** Every broadcast line so far; the ring keeps the end of it. */
    ghost var said: seq<Text>
    /** The kernel's side: what has happened on the descriptors, and which sends it will fail. */
    var trace: seq<Entry>
    const failing: set<nat>

    ghost predicate Valid()
      reads this, clients, history
    {
      && clients.Length == MAX_CLIENTS && history.Length == HISTORY_LINES
      && histStart < HISTORY_LINES && histCount <= HISTORY_LINES
      && RingLines(history[..], histStart, histCount) == Last(said, HISTORY_LINES)
      && (forall i :: 0 <= i < MAX_CLIENTS ==> SlotOk(clients[i]))
      && SaidOk(said)
    }

    ghost function Abs(): State
      reads this, clients
    {
      State(clients[..], nextId, said, trace, failing)
    }

    constructor (failing: set<nat>)
      ensures Valid() && fresh(clients) && fresh(history)
      ensures Abs() == Start(failing)
    {
      clients := new Slot[MAX_CLIENTS](_ => EMPTY_SLOT);
      history := new Text[HISTORY_LINES](_ => []);
      histStart, histCount, nextId, said, trace := 0, 0, 1, [], [];
      this.failing := failing;
      new;
      assert clients[..] == seq(MAX_CLIENTS, _ => EMPTY_SLOT);
      assert RingLines(history[..], 0, 0) == [];
    }

    method HistPush(text: Text)
      requires Valid() && NUL !in text
      modifies this`histStart, this`histCount, this`said, history
      ensures Valid() && said == old(said) + [Clamp(text)]
    {
      hide RingLines, Last, SlotOk;
      var idx := (histStart + histCount) % HISTORY_LINES;
      PushRefines(history[..], histStart, histCount, said, Clamp(text));
      if histCount < HISTORY_LINES {
        histCount := histCount + 1;
      } else {
        histStart := (histStart + 1) % HISTORY_LINES;
      }
      history[idx] := Clamp(text);
      said := said + [Clamp(text)];
      assert history[..] == old(history[..])[idx := Clamp(text)];
    }

    method SendFrame(fd: int, kind: u32, body: Text) returns (ok: bool)
      requires |body| <= MAX_BODY
      modifies this`trace
      ensures Abs() == SendTo(old(Abs()), fd, Frame(kind, body))
      ensures ok <==> SendWorks(old(Abs()))
    {
      ok := |trace| !in failing;
      trace := trace + [Sent(fd, Frame(kind, body), ok)];
    }

    /** `write_full` with its result ignored. */
    method Write(fd: int, bytes: Text)
      modifies this`trace
      ensures Abs() == WriteTo(old(Abs()), fd, bytes)
    {
      trace := trace + [Wrote(fd, bytes, |trace| !in failing)];
    }

    method SendError(fd: int, text: string)
      requires |text| <= MAX_BODY
      modifies this`trace
      ensures Abs() == Complain(old(Abs()), fd, text)
    {
      var _ := SendFrame(fd, ERROR, Ascii(text));
    }

    method Close(i: nat)
      requires Valid() && i < MAX_CLIENTS
      modifies this`trace, clients
      ensures Valid() && Abs() == CloseSlot(old(Abs()), i)
    {
      if clients[i].fd >= 0 {
        trace := trace + [Closed(clients[i].fd)];
      }
      clients[i] := EMPTY_SLOT;
      assert clients[..] == old(clients[..])[i := EMPTY_SLOT];
    }

    method FindByNick(nick: Text) returns (r: int)
      requires Valid()
      ensures r == Holder(clients[..], nick, MAX_CLIENTS)
      ensures r < 0 <==> !NickTaken(clients[..], nick, -1)
    {
      var i := 0;
      while i < MAX_CLIENTS
        invariant 0 <= i <= MAX_CLIENTS
        invariant forall j :: 0 <= j < i ==> !(clients[j].Online() && clients[j].nick == nick)
      {
        if clients[i].used && clients[i].joined && clients[i].nick == nick {
          return i;
        }
        i := i + 1;
      }
      r := -1;
    }

    method IsNickTaken(nick: Text, skip: int) returns (taken: bool)
      requires Valid()
      ensures taken <==> NickTaken(clients[..], nick, skip)
    {
      var i := 0;
      while i < MAX_CLIENTS
        invariant 0 <= i <= MAX_CLIENTS
        invariant forall j :: 0 <= j < i && j != skip ==> !(clients[j].Online() && clients[j].nick == nick)
      {
        if clients[i].used && clients[i].joined && i != skip && clients[i].nick == nick {
          assert clients[..][i] == clients[i];
          return true;
        }
        i := i + 1;
      }
      taken := false;
    }

    /** The loop shared by `broadcast_notify` and `handle_broadcast`. */
    method SendToJoined(f: Frame, skip: int)
      requires Valid() && Fits(f)
      modifies this`trace
      ensures Valid() && Abs() == FanOut(old(Abs()), f, skip, MAX_CLIENTS)
    {
      var i := 0;
      while i < MAX_CLIENTS
        invariant 0 <= i <= MAX_CLIENTS
        invariant Valid() && Abs() == FanOut(old(Abs()), f, skip, i)
      {
        if clients[i].used && clients[i].joined && i != skip {
          var _ := SendFrame(clients[i].fd, f.kind, f.body);
        }
        i := i + 1;
      }
    }

    method BroadcastNotify(text: Text, skip: int)
      requires Valid() && NUL !in text
      modifies this`trace
      ensures Valid() && Abs() == FanOut(old(Abs()), Frame(NOTIFY, Clamp(text)), skip, MAX_CLIENTS)
    {
      CStrWhole(text);
      var len := |CStr(text)|;
      if len > MAX_BODY {
        len := MAX_BODY;
      }
      assert text[..len] == Clamp(text);
      SendToJoined(Frame(NOTIFY, text[..len]), skip);
    }

    method SendHistoryTo(fd: int)
      requires Valid()
      modifies this`trace
      ensures Valid() && Abs() == SendHistory(old(Abs()), fd, Last(said, HISTORY_LINES))
    {
      ghost var lines := RingLines(history[..], histStart, histCount);
      var k := 0;
      while k < histCount
        invariant 0 <= k <= histCount
        invariant Valid() && lines == RingLines(history[..], histStart, histCount)
        invariant SendHistory(old(Abs()), fd, lines) == SendHistory(Abs(), fd, lines[k..])
      {
        var line := history[(histStart + k) % HISTORY_LINES];
        assert line == lines[k];
        ghost var before := Abs();
        var ok := SendFrame(fd, HISTORY, Clamp(line));
        assert lines[k..][0] == line && lines[k..][1..] == lines[k + 1..];
        if !ok {
          return;
        }
        k := k + 1;
      }
    }

    method Trim(body: Text) returns (nick: Text)
      ensures nick == TrimEol(body)
    {
      nick := body;
      while |nick| > 0 && (nick[|nick| - 1] == LF || nick[|nick| - 1] == CR)
        invariant TrimEol(nick) == TrimEol(body)
      {
        nick := nick[..|nick| - 1];
      }
    }

    method Join(i: nat, body: Text)
      requires Valid() && i < MAX_CLIENTS && clients[i].used
      modifies this`trace, clients
      ensures Valid() && Abs() == HandleJoin(old(Abs()), i, body)
    {
      var fd := clients[i].fd;
      if |body| == 0 || |body| > MAX_NICK {
        SendError(fd, "Invalid nickname length");
        return;
      }
      var nick := Trim(body);
      if |nick| == 0 {
        SendError(fd, "Empty nickname");
        return;
      }
      var taken := IsNickTaken(CStr(nick), i);
      if taken {
        SendError(fd, "Nickname already in use");
        return;
      }
      clients[i] := clients[i].(nick := CStr(nick), joined := true);
      ghost var marked := Abs();
      assert clients[..] == old(clients[..])[i := clients[i]];
      GreetJoined(i);
    }

    /** The sends of `handle_join` once the slot is marked joined. */
    method GreetJoined(i: nat)
      requires Valid() && i < MAX_CLIENTS
      modifies this`trace
      ensures Valid() && Abs() == Welcome(old(Abs()), i)
    {
      var c := clients[i];
      var ack := Snprintf(128, AckText(c.id, c.nick));
      var ok := SendFrame(c.fd, JOIN_ACK, ack);
      if !ok {
        return;
      }
      SendHistoryTo(c.fd);
      var note := Snprintf(MAX_BODY + 1, JoinNote(c.nick));
      BroadcastNotify(note, i);
    }

    method Broadcast(i: nat, body: Text)
      requires Valid() && i < MAX_CLIENTS
      modifies this`trace, this`said, this`histStart, this`histCount, history
      ensures Valid() && Abs() == HandleBroadcast(old(Abs()), i, body)
    {
      if !clients[i].joined {
        return;
      }
      var line := BroadcastLine(clients[i].nick, body);
      BroadcastLineWhole(clients[i].nick, body);
      CStrWhole(line);
      HistPush(line);
      var len := |CStr(line)|;
      if len > MAX_BODY {
        len := MAX_BODY;
      }
      assert line[..len] == Clamp(line);
      SendToJoined(Frame(BROADCAST, line[..len]), -1);
    }

    method Private(i: nat, body: Text)
      requires Valid() && i < MAX_CLIENTS
      modifies this`trace
      ensures Valid() && Abs() == HandlePrivate(old(Abs()), i, body)
    {
      var c := clients[i];
      if !c.joined {
        return;
      }
      match SplitPrivate(body)
      case NoSeparator =>
        SendError(c.fd, "Malformed private message (need target\\0text)");
      case Invalid =>
        SendError(c.fd, "Invalid private message");
      case Whisper(target, text) =>
        var to := FindByNick(target);
        if to < 0 {
          SendError(c.fd, "User not found");
          return;
        }
        var line := Clamp(PrivateLine(c.nick, target, text));
        var ok := SendFrame(clients[to].fd, PRIVATE, line);
        if ok && to != i {
          ok := SendFrame(c.fd, PRIVATE, line);
        }
    }

    /** The loop of `handle_list`: append lines while the next one still fits into the 2048 bytes. */
    method Listing() returns (text: Text)
      requires Valid()
      ensures text == ListBody(clients[..])
    {
      hide ListBody, ListLine;
      text := [];
      var k := 0;
      while k < MAX_CLIENTS && |text| + 1 < MAX_BODY + 1
        invariant 0 <= k <= MAX_CLIENTS && |text| <= MAX_BODY
        invariant text == Concat(ListLines(clients[..], k))
      {
        assert clients[..][k] == clients[k];
        if clients[k].used && clients[k].joined {
          var line := ListLine(clients[k]);
          ConcatSnoc(ListLines(clients[..], k), line);
          if |line| >= MAX_BODY + 1 - |text| {
            break;
          }
          text := text + line;
        }
        k := k + 1;
      }
      ListCut(clients[..], k);
      if |text| == 0 {
        text := Ascii("(no users)\n");
      }
    }

    method List(i: nat)
      requires Valid() && i < MAX_CLIENTS
      modifies this`trace
      ensures Valid() && Abs() == HandleList(old(Abs()), i)
    {
      hide ListBody;
      var text := Listing();
      var _ := SendFrame(clients[i].fd, LIST_REPLY, text);
    }

    method ProcessMessage(i: nat)
      requires Valid() && i < MAX_CLIENTS && clients[i].used
      modifies this`trace, this`said, this`histStart, this`histCount, clients, history
      ensures Valid() && Abs() == Process(old(Abs()), i)
    {
      while |clients[i].inbuf| >= HEADER_SIZE
        invariant Valid() && clients[i].used
        invariant Process(Abs(), i) == Process(old(Abs()), i)
        decreases |clients[i].inbuf|
      {
        var c := clients[i];
        var h := FromWire(c.inbuf[..HEADER_SIZE]);
        if !HeaderValid(h) {
          Close(i);
          return;
        }
        var need := HEADER_SIZE + h.bodyLen;
        if |c.inbuf| < need {
          break;
        }
        var f := Frame(h.kind, c.inbuf[HEADER_SIZE..need]);
        assert Peek(c.inbuf) == Whole(f, need);
        TakeOne(i, f, need);
      }
    }

    /** One turn of the loop: the `switch`, then the `memmove`. */
    method TakeOne(i: nat, f: Frame, need: nat)
      requires Valid() && i < MAX_CLIENTS && clients[i].used && Peek(clients[i].inbuf) == Whole(f, need)
      modifies this`trace, this`said, this`histStart, this`histCount, clients, history
      ensures Valid() && clients[i].used && Abs() == TakeFrame(old(Abs()), i)
    {
      ghost var start := Abs();
      trace := trace + [Took(clients[i].fd, f)];
      ghost var logged := Abs();
      assert logged == Log(start, Took(clients[i].fd, f));
      Switch(i, f);
      assert clients[i].inbuf == start.slots[i].inbuf;
      label dispatched:
      clients[i] := clients[i].(inbuf := clients[i].inbuf[need..]);
      assert clients[..] == old@dispatched(clients[..])[i := clients[i]];
    }

    method Switch(i: nat, f: Frame)
      requires Valid() && i < MAX_CLIENTS && clients[i].used
      modifies this`trace, this`said, this`histStart, this`histCount, clients, history
      ensures Valid() && Abs() == Dispatch(old(Abs()), i, f)
    {
      if f.kind == JOIN {
        if clients[i].joined {
          SendError(clients[i].fd, "Already joined");
        } else {
          Join(i, f.body);
        }
      } else if f.kind == BROADCAST {
        Broadcast(i, f.body);
      } else if f.kind == PRIVATE {
        Private(i, f.body);
      } else if f.kind == LIST {
        List(i);
      }
    }

    /** Returns the slot taken, or -1 when all are used. */
    method Add(fd: int) returns (r: int)
      requires Valid() && fd >= 0
      modifies this`trace, this`nextId, clients
      ensures Valid() && Abs() == AddClient(old(Abs()), fd)
      ensures r == FirstFree(old(clients[..]), MAX_CLIENTS)
    {
      var i := 0;
      while i < MAX_CLIENTS
        invariant 0 <= i <= MAX_CLIENTS
        invariant forall j :: 0 <= j < i ==> clients[j].used
      {
        if !clients[i].used {
          assert i == FirstFree(clients[..], MAX_CLIENTS);
          clients[i] := Slot(fd, true, false, nextId, [], []);
          nextId := (nextId + 1) % 0x1_0000_0000;
          trace := trace + [Opened(fd)];
          assert clients[..] == old(clients[..])[i := clients[i]];
          return i;
        }
        i := i + 1;
      }
      r := -1;
    }

    method AcceptClient(fd: int)
      requires Valid() && fd >= 0
      modifies this`trace, this`nextId, clients
      ensures Valid() && Abs() == AcceptOne(old(Abs()), fd)
    {
      var i := Add(fd);
      if i < 0 {
        trace := trace + [Refused(fd)];
        Write(fd, ToWire(Header(MAGIC, VERSION, ERROR, |FULL.body|)));
        Write(fd, FULL.body);
        trace := trace + [Closed(fd)];
      }
    }

    method Remove(i: nat)
      requires Valid() && i < MAX_CLIENTS
      modifies this`trace, clients
      ensures Valid() && Abs() == RemoveClient(old(Abs()), i)
    {
      var c := clients[i];
      if c.joined {
        var note := Snprintf(MAX_BODY + 1, PartNote(c.nick));
        BroadcastNotify(note, i);
      }
      Close(i);
    }

    /** The body of the scan for one slot. */
    method Serve(i: nat, rev: Revents, pending: map<int, Text>)
      requires Valid() && i < MAX_CLIENTS && clients[i].used
      modifies this`trace, this`said, this`histStart, this`histCount, clients, history
      ensures Valid() && Abs() == ServeSlot(old(Abs()), i, rev, pending)
    {
      hide RingLines, Last, SaidOk, Process, RemoveClient;
      if rev.failed {
        Remove(i);
        return;
      }
      if rev.readable {
        var c := clients[i];
        var bytes := if c.fd in pending then pending[c.fd] else [];
        var n := Min(|bytes|, RECV_CAP - |c.inbuf|);
        if n == 0 {
          Remove(i);
          return;
        }
        trace := trace + [Got(c.fd, bytes[..n])];
        clients[i] := c.(inbuf := c.inbuf + bytes[..n]);
        assert clients[..] == old(clients[..])[i := clients[i]];
        assert Abs() == ReceiveInto(old(Abs()), i, bytes[..n]);
        ProcessMessage(i);
        if clients[i].used && |clients[i].inbuf| >= RECV_CAP {
          Remove(i);
        }
      }
    }

    /** One pass of `main`'s loop: the entries are built before the accept, the slots scanned after it. */
    method PollOnce(accepted: int, ready: map<int, Revents>, pending: map<int, Text>)
      requires Valid()
      requires forall j :: 0 <= j < MAX_CLIENTS && clients[j].used ==> clients[j].fd in ready
      modifies this`trace, this`said, this`histStart, this`histCount, this`nextId, clients, history
      ensures Valid() && Abs() == Pass(old(Abs()), accepted, ready, pending)
    {
      var revents: seq<Revents> := [];
      var i := 0;
      ghost var entries := UsedSlots(clients[..], MAX_CLIENTS);
      ghost var polled := Polled(clients[..], ready);
      while i < MAX_CLIENTS
        invariant 0 <= i <= MAX_CLIENTS
        invariant |revents| == |UsedSlots(clients[..], i)|
        invariant forall r :: 0 <= r < |revents| ==>
                    revents[r] == ready[clients[UsedSlots(clients[..], i)[r]].fd]
      {
        if clients[i].used {
          revents := revents + [ready[clients[i].fd]];
        }
        i := i + 1;
      }
      assert revents == polled;

      if accepted >= 0 {
        AcceptClient(accepted);
      }
      ghost var begun := Abs();
      ScanSlots(revents, pending);
    }

    method ScanSlots(revents: seq<Revents>, pending: map<int, Text>)
      requires Valid()
      modifies this`trace, this`said, this`histStart, this`histCount, clients, history
      ensures Valid()
      ensures var s, now := old(Abs()), UsedSlots(old(clients[..]), MAX_CLIENTS);
              Abs() == Scan(s, now[..Min(|now|, |revents|)], revents, pending)
    {
      hide ServeSlot, Scan, UsedSlots, RingLines, SlotOk, SaidOk, Last;
      ghost var s := Abs();
      ghost var now := UsedSlots(s.slots, MAX_CLIENTS);
      ScanNothing(s, now, revents, pending);
      var fi, i := 0, 0;
      while i < MAX_CLIENTS
        invariant Valid() && 0 <= i <= MAX_CLIENTS && fi <= |revents|
        invariant fi == |UsedSlots(s.slots, i)| <= |now|
        invariant Abs() == Scan(s, now[..fi], revents, pending)
        invariant forall j :: i <= j < MAX_CLIENTS ==> clients[j] == s.slots[j]
      {
        ScanCounts(s, i);
        if clients[i].used {
          if fi >= |revents| {
            break;
          }
          ScanMeets(s, i, revents, pending);
          Serve(i, revents[fi], pending);
          assert clients[..] == Abs().slots;
          fi := fi + 1;
        }
        i := i + 1;
      }
    }
  }
}
