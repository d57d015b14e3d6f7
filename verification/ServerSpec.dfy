/** What each server handler does to the slot table, the chat history and the I/O trace, as functions
    on values. `Server` proves its methods equal to these; `ServerRuns` proves laws of whole runs. */
module ServerSpec {
  import opened Bytes
  import opened ChatProto
  import opened Framing

  const MAX_CLIENTS: nat := 64
  const HISTORY_LINES: nat := 32

  /** `client_t`; `nick` and `inbuf` hold the meaningful bytes of the C arrays. */
  datatype Slot = Slot(fd: int, used: bool, joined: bool, id: u32, nick: Text, inbuf: Text) {
    predicate Online() { used && joined }
  }

  const EMPTY_SLOT: Slot := Slot(-1, false, false, 0, [], [])

  /** One observable action: a connection accepted into a slot, or turned away; bytes received; a frame
      dispatched; a frame sent (or not); bytes written to a connection turned away (or not); a connection
      closed. */
  datatype Entry =
    | Opened(fd: int)
    | Refused(fd: int)
    | Got(fd: int, chunk: Text)
    | Took(fd: int, frame: Frame)
    | Sent(fd: int, frame: Frame, ok: bool)
    | Wrote(fd: int, bytes: Text, ok: bool)
    | Closed(fd: int)

  /** `said` is every broadcast line so far, oldest first. A send or write that would become trace entry k
      fails exactly when k is in `failing`. */
  datatype State = State(slots: seq<Slot>, nextId: u32, said: seq<Text>, trace: seq<Entry>, failing: set<nat>)

  ghost predicate SendsOnly(before: seq<Entry>, after: seq<Entry>)
  {
    && before <= after
    && forall k :: |before| <= k < |after| ==> after[k].Sent? && Fits(after[k].frame)
  }

  // ---- sending ----

  predicate SendWorks(s: State) { |s.trace| !in s.failing }

  function SendTo(s: State, fd: int, f: Frame): (t: State)
    requires Fits(f)
    ensures t == s.(trace := t.trace) && SendsOnly(s.trace, t.trace)
  {
    s.(trace := s.trace + [Sent(fd, f, SendWorks(s))])
  }

  /** The frame goes to the joined clients among the first `n` slots, in slot order, `skip` left out. */
  function FanOut(s: State, f: Frame, skip: int, n: nat): (t: State)
    requires n <= |s.slots| && Fits(f)
    ensures t == s.(trace := t.trace) && SendsOnly(s.trace, t.trace)
  {
    if n == 0 then s
    else
      var t := FanOut(s, f, skip, n - 1);
      if s.slots[n - 1].Online() && n - 1 != skip then SendTo(t, s.slots[n - 1].fd, f) else t
  }

  function Clamp(t: Text): (r: Text)
    ensures r <= t && |r| == Min(|t|, MAX_BODY)
  {
    if |t| > MAX_BODY then t[..MAX_BODY] else t
  }

  function SendHistory(s: State, fd: int, lines: seq<Text>): (t: State)
    ensures t == s.(trace := t.trace) && SendsOnly(s.trace, t.trace)
    decreases |lines|
  {
    if lines == [] then s
    else
      var t := SendTo(s, fd, Frame(HISTORY, Clamp(lines[0])));
      if SendWorks(s) then SendHistory(t, fd, lines[1..]) else t
  }

  function Complain(s: State, fd: int, text: string): (t: State)
    requires |text| <= MAX_BODY
    ensures t == s.(trace := t.trace) && SendsOnly(s.trace, t.trace)
  {
    SendTo(s, fd, Frame(ERROR, Ascii(text)))
  }

  // ---- looking up nicknames ----

  predicate NickTaken(slots: seq<Slot>, nick: Text, skip: int)
  {
    exists j :: 0 <= j < |slots| && j != skip && slots[j].Online() && slots[j].nick == nick
  }

  /** The first joined slot among the first `n` with this nick, or -1. */
  function Holder(slots: seq<Slot>, nick: Text, n: nat): (r: int)
    requires n <= |slots|
    ensures -1 <= r < n
    ensures r >= 0 ==> slots[r].Online() && slots[r].nick == nick
    ensures forall j :: 0 <= j < (if r >= 0 then r else n) ==> !(slots[j].Online() && slots[j].nick == nick)
  {
    if n == 0 then -1
    else
      var r := Holder(slots, nick, n - 1);
      if r >= 0 then r
      else if slots[n - 1].Online() && slots[n - 1].nick == nick then n - 1
      else -1
  }

  // ---- JOIN ----

  function TrimEol(t: Text): (r: Text)
    ensures r <= t
    ensures r != [] ==> r[|r| - 1] != LF && r[|r| - 1] != CR
    ensures forall k :: |r| <= k < |t| ==> t[k] == LF || t[k] == CR
  {
    if t != [] && (t[|t| - 1] == LF || t[|t| - 1] == CR) then TrimEol(t[..|t| - 1]) else t
  }

  function AckText(id: u32, nick: Text): Text
  {
    Ascii("id=") + Decimal(id) + Ascii("\nnick=") + nick + Ascii("\n")
  }

  function JoinNote(nick: Text): Text { Ascii("[JOIN] ") + nick }

  function PartNote(nick: Text): Text { Ascii("[PART] ") + nick }

  /** What is sent once a client has been marked joined. */
  function Welcome(s: State, i: nat): (t: State)
    requires i < |s.slots|
    ensures t == s.(trace := t.trace) && SendsOnly(s.trace, t.trace)
  {
    var c := s.slots[i];
    var t := SendTo(s, c.fd, Frame(JOIN_ACK, Snprintf(128, AckText(c.id, c.nick))));
    if !SendWorks(s) then t
    else
      var u := SendHistory(t, c.fd, Last(s.said, HISTORY_LINES));
      FanOut(u, Frame(NOTIFY, Clamp(Snprintf(MAX_BODY + 1, JoinNote(c.nick)))), i, |s.slots|)
  }

  function HandleJoin(s: State, i: nat, body: Text): (t: State)
    requires i < |s.slots|
    ensures t == s.(slots := t.slots, trace := t.trace) && SendsOnly(s.trace, t.trace)
    ensures |t.slots| == |s.slots|
    ensures t.slots == s.slots[i := s.slots[i].(joined := t.slots[i].joined, nick := t.slots[i].nick)]
  {
    var c := s.slots[i];
    if |body| == 0 || |body| > MAX_NICK then Complain(s, c.fd, "Invalid nickname length")
    else
      var nick := TrimEol(body);
      if nick == [] then Complain(s, c.fd, "Empty nickname")
      else if NickTaken(s.slots, CStr(nick), i) then Complain(s, c.fd, "Nickname already in use")
      else Welcome(s.(slots := s.slots[i := c.(nick := CStr(nick), joined := true)]), i)
  }

  // ---- BROADCAST, PRIVATE, LIST ----

  function BroadcastLine(nick: Text, body: Text): Text
  {
    Snprintf(MAX_BODY + MAX_NICK + 8, nick + Ascii(": ") + CStr(body))
  }

  function HandleBroadcast(s: State, i: nat, body: Text): (t: State)
    requires i < |s.slots|
    ensures t == s.(said := t.said, trace := t.trace) && SendsOnly(s.trace, t.trace)
    ensures s.said <= t.said
  {
    var c := s.slots[i];
    if !c.joined then s
    else
      var line := Clamp(BroadcastLine(c.nick, body));
      FanOut(s.(said := s.said + [line]), Frame(BROADCAST, line), -1, |s.slots|)
  }

  datatype Whisper = NoSeparator | Invalid | Whisper(target: Text, text: Text)

  /** Splitting a PRIVATE body at its first NUL. */
  function SplitPrivate(body: Text): Whisper
  {
    var target := CStr(body);
    if |target| == |body| then NoSeparator
    else
      var text := body[|target| + 1..];
      if |target| == 0 || |target| > MAX_NICK || |text| == 0 then Invalid else Whisper(target, text)
  }

  function PrivateLine(nick: Text, target: Text, text: Text): Text
  {
    Snprintf(MAX_BODY + MAX_NICK * 2 + 16,
             Ascii("(pm ") + nick + Ascii(" -> ") + target + Ascii(") ") + CStr(text))
  }

  function HandlePrivate(s: State, i: nat, body: Text): (t: State)
    requires i < |s.slots|
    ensures t == s.(trace := t.trace) && SendsOnly(s.trace, t.trace)
  {
    var c := s.slots[i];
    if !c.joined then s
    else match SplitPrivate(body)
      case NoSeparator => Complain(s, c.fd, "Malformed private message (need target\\0text)")
      case Invalid => Complain(s, c.fd, "Invalid private message")
      case Whisper(target, text) =>
        var to := Holder(s.slots, target, |s.slots|);
        if to < 0 then Complain(s, c.fd, "User not found")
        else
          var f := Frame(PRIVATE, Clamp(PrivateLine(c.nick, target, text)));
          var t := SendTo(s, s.slots[to].fd, f);
          if to != i && SendWorks(s) then SendTo(t, c.fd, f) else t
  }

  function ListLine(c: Slot): (t: Text)
    ensures |t| >= 2
  {
    Decimal(c.id) + [TAB] + c.nick + [LF]
  }

  /** The lines of the joined clients among the first `n` slots, in slot order. */
  function ListLines(slots: seq<Slot>, n: nat): seq<Text>
    requires n <= |slots|
  {
    if n == 0 then []
    else if slots[n - 1].Online() then ListLines(slots, n - 1) + [ListLine(slots[n - 1])]
    else ListLines(slots, n - 1)
  }

  /** How many leading texts fit into `room` bytes together. */
  function FitCount(ts: seq<Text>, room: nat): (k: nat)
    ensures k <= |ts| && |Concat(ts[..k])| <= room
    ensures k < |ts| ==> |Concat(ts[..k + 1])| > room
  {
    if |Concat(ts)| <= room then assert ts[..|ts|] == ts; |ts|
    else
      var front := ts[..|ts| - 1];
      var k := FitCount(front, room);
      assert front[..k] == ts[..k];
      assert k < |front| ==> front[..k + 1] == ts[..k + 1];
      assert k == |front| ==> ts[..k + 1] == ts;
      k
  }

  function ListBody(slots: seq<Slot>): (t: Text)
    ensures |t| <= MAX_BODY
  {
    var lines := ListLines(slots, |slots|);
    if lines == [] then Ascii("(no users)\n") else Concat(lines[..FitCount(lines, MAX_BODY)])
  }

  function HandleList(s: State, i: nat): (t: State)
    requires i < |s.slots|
    ensures t == s.(trace := t.trace) && SendsOnly(s.trace, t.trace)
  {
    SendTo(s, s.slots[i].fd, Frame(LIST_REPLY, ListBody(s.slots)))
  }

  // ---- one frame, one buffer ----

  function Dispatch(s: State, i: nat, f: Frame): (t: State)
    requires i < |s.slots|
    ensures t == s.(slots := t.slots, said := t.said, trace := t.trace) && SendsOnly(s.trace, t.trace)
    ensures |t.slots| == |s.slots| && s.said <= t.said
    ensures t.slots == s.slots[i := s.slots[i].(joined := t.slots[i].joined, nick := t.slots[i].nick)]
  {
    if f.kind == JOIN then
      if s.slots[i].joined then Complain(s, s.slots[i].fd, "Already joined") else HandleJoin(s, i, f.body)
    else if f.kind == BROADCAST then HandleBroadcast(s, i, f.body)
    else if f.kind == PRIVATE then HandlePrivate(s, i, f.body)
    else if f.kind == LIST then HandleList(s, i)
    else s
  }

  function Log(s: State, e: Entry): State { s.(trace := s.trace + [e]) }

  function CloseSlot(s: State, i: nat): (t: State)
    requires i < |s.slots|
    ensures t == s.(slots := s.slots[i := EMPTY_SLOT], trace := t.trace)
  {
    (if s.slots[i].fd >= 0 then Log(s, Closed(s.slots[i].fd)) else s).(slots := s.slots[i := EMPTY_SLOT])
  }

  /** Dispatch the complete frame at the front of slot `i`'s buffer, then drop its bytes. */
  function TakeFrame(s: State, i: nat): (t: State)
    requires i < |s.slots| && Peek(s.slots[i].inbuf).Whole?
    ensures |t.slots| == |s.slots|
    ensures t.slots[i].used == s.slots[i].used && t.slots[i].fd == s.slots[i].fd
    ensures t.slots[i].inbuf == s.slots[i].inbuf[Peek(s.slots[i].inbuf).need..]
    ensures forall j :: 0 <= j < |s.slots| && j != i ==> t.slots[j] == s.slots[j]
  {
    var h := Peek(s.slots[i].inbuf);
    var t := Dispatch(Log(s, Took(s.slots[i].fd, h.frame)), i, h.frame);
    t.(slots := t.slots[i := t.slots[i].(inbuf := t.slots[i].inbuf[h.need..])])
  }

  function Process(s: State, i: nat): (t: State)
    requires i < |s.slots|
    ensures |t.slots| == |s.slots|
    ensures forall j :: 0 <= j < |s.slots| && j != i ==> t.slots[j] == s.slots[j]
    decreases |s.slots[i].inbuf|
  {
    match Peek(s.slots[i].inbuf)
    case Short => s
    case Bad => CloseSlot(s, i)
    case Whole(_, _) => Process(TakeFrame(s, i), i)
  }

  // ---- connections ----

  /** The lowest unused slot among the first `n`, or -1. */
  function FirstFree(slots: seq<Slot>, n: nat): (r: int)
    requires n <= |slots|
    ensures -1 <= r < n
    ensures r >= 0 ==> !slots[r].used
    ensures forall j :: 0 <= j < (if r >= 0 then r else n) ==> slots[j].used
  {
    if n == 0 then -1
    else
      var r := FirstFree(slots, n - 1);
      if r >= 0 then r else if !slots[n - 1].used then n - 1 else -1
  }

  function AddClient(s: State, fd: int): (t: State)
  {
    var i := FirstFree(s.slots, |s.slots|);
    if i < 0 then s
    else
      var id: u32 := (s.nextId + 1) % 0x1_0000_0000;
      Log(s.(slots := s.slots[i := Slot(fd, true, false, s.nextId, [], [])], nextId := id), Opened(fd))
  }

  const FULL: Frame := Frame(ERROR, Ascii("Server full"))

  function FullHeader(): Text { ToWire(Header(MAGIC, VERSION, ERROR, |FULL.body|)) }

  function WriteTo(s: State, fd: int, bytes: Text): (t: State)
  {
    s.(trace := s.trace + [Wrote(fd, bytes, SendWorks(s))])
  }

  /** The answer to a connection there is no slot for: header and text are written one after the other,
      neither result is looked at, and the descriptor is closed. */
  function TurnAway(s: State, fd: int): (t: State)
    ensures t == s.(trace := t.trace)
  {
    Log(WriteTo(WriteTo(Log(s, Refused(fd)), fd, FullHeader()), fd, FULL.body), Closed(fd))
  }

  function AcceptOne(s: State, fd: int): (t: State)
    ensures |t.slots| == |s.slots|
  {
    if FirstFree(s.slots, |s.slots|) >= 0 then AddClient(s, fd) else TurnAway(s, fd)
  }

  function RemoveClient(s: State, i: nat): (t: State)
    requires i < |s.slots|
    ensures |t.slots| == |s.slots|
    ensures t.slots == s.slots[i := EMPTY_SLOT]
  {
    var c := s.slots[i];
    CloseSlot(if c.joined
              then FanOut(s, Frame(NOTIFY, Clamp(Snprintf(MAX_BODY + 1, PartNote(c.nick)))), i, |s.slots|)
              else s, i)
  }

  function ReceiveInto(s: State, i: nat, chunk: Text): (t: State)
    requires i < |s.slots|
    ensures |t.slots| == |s.slots|
  {
    var c := s.slots[i];
    Log(s.(slots := s.slots[i := c.(inbuf := c.inbuf + chunk)]), Got(c.fd, chunk))
  }

  /** The POLLIN branch of the scan: receive, process, and drop a client whose buffer is still full. */
  function ServeData(s: State, i: nat, chunk: Text): (t: State)
    requires i < |s.slots|
    ensures |t.slots| == |s.slots|
  {
    var t := Process(ReceiveInto(s, i, chunk), i);
    if t.slots[i].used && |t.slots[i].inbuf| >= RECV_CAP then RemoveClient(t, i) else t
  }

  // ---- moves: the grain at which runs are studied ----

  datatype Move =
    | Accept(fd: int)
    | Receive(i: nat, chunk: Text)
    | Take(i: nat)
    | Reject(i: nat)
    | Remove(i: nat)

  /** What the kernel and the code guarantee of a move: an accepted descriptor is not one already open,
      `recv` returns between 1 byte and the free room, and only used slots are served. */
  predicate Legal(s: State, m: Move)
  {
    match m
    case Accept(fd) => fd >= 0 && forall j :: 0 <= j < |s.slots| && s.slots[j].used ==> s.slots[j].fd != fd
    case Receive(i, chunk) =>
      i < |s.slots| && s.slots[i].used && |chunk| >= 1 && |s.slots[i].inbuf| + |chunk| <= RECV_CAP
    case Take(i) => i < |s.slots| && s.slots[i].used && Peek(s.slots[i].inbuf).Whole?
    case Reject(i) => i < |s.slots| && s.slots[i].used && Peek(s.slots[i].inbuf).Bad?
    case Remove(i) => i < |s.slots| && s.slots[i].used
  }

  function Apply(s: State, m: Move): (t: State)
    requires Legal(s, m)
    ensures |t.slots| == |s.slots|
  {
    match m
    case Accept(fd) => AcceptOne(s, fd)
    case Receive(i, chunk) => ReceiveInto(s, i, chunk)
    case Take(i) => TakeFrame(s, i)
    case Reject(i) => CloseSlot(s, i)
    case Remove(i) => RemoveClient(s, i)
  }

  predicate LegalRun(s: State, ms: seq<Move>)
    decreases |ms|
  {
    ms == [] || (Legal(s, ms[0]) && LegalRun(Apply(s, ms[0]), ms[1..]))
  }

  function Run(s: State, ms: seq<Move>): (t: State)
    requires LegalRun(s, ms)
    decreases |ms|
  {
    if ms == [] then s else Run(Apply(s, ms[0]), ms[1..])
  }

  /** `clients` zeroed with every fd set to -1, as `main` leaves it. */
  function Start(failing: set<nat>): State
  {
    State(seq(MAX_CLIENTS, _ => EMPTY_SLOT), 1, [], [], failing)
  }
}
