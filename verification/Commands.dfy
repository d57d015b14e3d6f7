/** `handle_user_line`: what a typed line makes the client send. */
module Commands {
  import opened Bytes
  import opened ChatProto
  import opened Framing
  import opened ServerSpec
  import opened ServerRuns
  import opened Conversations

  datatype Command =
    | Nothing
    | Quit
    | ShowHelp
    | Usage
    | NickTooLong
    | TooLong
    | Send(frame: Frame)

  /** How many blanks a text starts with. */
  function Blanks(t: Text): (k: nat)
    ensures k <= |t| && (k < |t| ==> t[k] != SPACE && t[k] != TAB)
    ensures forall j :: 0 <= j < k ==> t[j] == SPACE || t[j] == TAB
  {
    if t != [] && (t[0] == SPACE || t[0] == TAB) then 1 + Blanks(t[1..]) else 0
  }

  function SkipBlanks(t: Text): Text { t[Blanks(t)..] }

  /** `strchr(t, ' ')`: the index of the first space, or the length. */
  function FirstSpace(t: Text): (k: nat)
    ensures k <= |t| && SPACE !in t[..k] && (k < |t| ==> t[k] == SPACE)
  {
    if t == [] || t[0] == SPACE then 0 else 1 + FirstSpace(t[1..])
  }

  /** The length of the command word of a private message line, or 0 when it is none. */
  function WhisperPrefix(line: Text): nat
  {
    if Ascii("/w ") <= line then 3 else if Ascii("/msg ") <= line then 5 else 0
  }

  /** The arguments of `/w` and `/msg`. */
  function Whispering(args: Text): Command
    requires NUL !in args
  {
    var rest := SkipBlanks(args);
    var k := FirstSpace(rest);
    if k == |rest| then Usage
    else
      var target, msg := rest[..k], rest[k + 1..];
      if target == [] || msg == [] then Usage
      else if |target| > MAX_NICK then NickTooLong
      else if |target| + 1 + |msg| > MAX_BODY then TooLong
      else Send(Frame(PRIVATE, target + [NUL] + msg))
  }

  /** A line without its line end. */
  function Interpret(text: Text): Command
  {
    var line := CStr(text);
    if text == [] then Nothing
    else if line == Ascii("/quit") || line == Ascii("/q") then Quit
    else if line == Ascii("/help") || line == Ascii("/?") then ShowHelp
    else if line == Ascii("/list") then Send(Frame(LIST, []))
    else if WhisperPrefix(line) > 0 then Whispering(line[WhisperPrefix(line)..])
    else if |text| > MAX_BODY then TooLong
    else Send(Frame(BROADCAST, text))
  }

  /** Turn line ends at the end of the buffer into NULs. */
  method StripEol(line: array<byte>, len: nat) returns (n: nat)
    requires len < line.Length && line[len] == NUL
    modifies line
    ensures n <= len && line[n] == NUL
    ensures line[..n] == TrimEol(old(line[..len]))
  {
    n := len;
    ghost var typed := line[..len];
    while n > 0 && (line[n - 1] == LF || line[n - 1] == CR)
      invariant 0 <= n <= len && line[n] == NUL
      invariant line[..n] == typed[..n] && TrimEol(typed[..n]) == TrimEol(typed)
    {
      assert typed[..n][..n - 1] == typed[..n - 1];
      n := n - 1;
      line[n] := NUL;
    }
  }

  /** `handle_user_line` on the line buffer, which it edits: line ends and the space after the target
      become NUL. */
  method HandleUserLine(line: array<byte>, len: nat) returns (c: Command)
    requires len < line.Length && line[len] == NUL
    modifies line
    ensures c == Interpret(TrimEol(old(line[..len])))
  {
    hide Ascii, TrimEol, Whispering;
    var n := StripEol(line, len);
    ghost var text := line[..n];
    if n == 0 {
      return Nothing;
    }
    var word := CStr(line[..n]);
    if word == Ascii("/quit") || word == Ascii("/q") {
      return Quit;
    }
    if word == Ascii("/help") || word == Ascii("/?") {
      return ShowHelp;
    }
    if word == Ascii("/list") {
      return Send(Frame(LIST, []));
    }
    if WhisperPrefix(word) > 0 {
      assert |word| < n ==> line[..n][|word|] == NUL;
      assert line[..|word|] == word;
      assert line[WhisperPrefix(word)..|word|] == word[WhisperPrefix(word)..];
      c := HandleWhisper(line, WhisperPrefix(word), |word|);
      return;
    }
    if n > MAX_BODY {
      return TooLong;
    }
    c := Send(Frame(BROADCAST, line[..n]));
  }

  /** Step over blanks; the NUL at `end` stops the loop. */
  method PastBlanks(line: array<byte>, start: nat, end: nat) returns (p: nat)
    requires start <= end < line.Length && line[end] == NUL
    ensures start <= p <= end && line[p..end] == SkipBlanks(line[start..end])
  {
    p := start;
    while line[p] == SPACE || line[p] == TAB
      invariant start <= p <= end && Blanks(line[start..end]) == p - start + Blanks(line[p..end])
      decreases end - p
    {
      assert line[p..end][1..] == line[p + 1..end];
      p := p + 1;
    }
    assert p < end ==> line[p..end][0] == line[p];
    assert line[start..end][p - start..] == line[p..end];
  }

  /** `strchr(p, ' ')`, stopping at the NUL. */
  method FindSpace(line: array<byte>, p: nat, end: nat) returns (q: nat)
    requires p <= end < line.Length && line[end] == NUL && NUL !in line[p..end]
    ensures q == p + FirstSpace(line[p..end])
  {
    q := p;
    while line[q] != NUL && line[q] != SPACE
      invariant p <= q <= end && FirstSpace(line[p..end]) == q - p + FirstSpace(line[q..end])
      decreases end - q
    {
      assert line[q..end][1..] == line[q + 1..end];
      q := q + 1;
    }
    if q < end {
      assert line[p..end][q - p] == line[q];
      assert line[q..end][0] == line[q];
    }
  }

  /** The branch for `/w`: `line[start..end]` are the arguments and a NUL follows them. */
  method HandleWhisper(line: array<byte>, start: nat, end: nat) returns (c: Command)
    requires start <= end < line.Length && line[end] == NUL && NUL !in line[start..end]
    modifies line
    ensures c == Whispering(old(line[start..end]))
  {
    hide Blanks, FirstSpace;
    var p := PastBlanks(line, start, end);
    ghost var rest := line[p..end];
    assert NUL !in rest by { LacksTail(line[start..end], Blanks(line[start..end]), NUL); }
    var q := FindSpace(line, p, end);
    if q == end {
      return Usage;
    }
    assert line[p..q] == rest[..q - p] && line[q + 1..end] == rest[q - p + 1..];
    line[q] := NUL;
    c := SendWhisper(line[p..q], line[q + 1..end]);
  }

  method SendWhisper(target: Text, msg: Text) returns (c: Command)
    ensures c == if target == [] || msg == [] then Usage
                 else if |target| > MAX_NICK then NickTooLong
                 else if |target| + 1 + |msg| > MAX_BODY then TooLong
                 else Send(Frame(PRIVATE, target + [NUL] + msg))
  {
    if |target| == 0 || |msg| == 0 {
      return Usage;
    }
    if |target| > MAX_NICK {
      return NickTooLong;
    }
    if |target| + 1 + |msg| > MAX_BODY {
      return TooLong;
    }
    var body := new byte[MAX_BODY](_ => 0);
    FillBody(body, target, msg);
    c := Send(Frame(PRIVATE, body[..|target| + 1 + |msg|]));
  }

  /** The two `memcpy` calls and the NUL between them. */
  method FillBody(body: array<byte>, target: Text, msg: Text)
    requires |target| + 1 + |msg| <= body.Length
    modifies body
    ensures body[..|target| + 1 + |msg|] == target + [NUL] + msg
  {
    forall k | 0 <= k < |target| { body[k] := target[k]; }
    body[|target|] := NUL;
    forall k | 0 <= k < |msg| { body[|target| + 1 + k] := msg[k]; }
  }

  /** Every frame a command sends passes `chat_header_valid`. */
  lemma CommandFrameFits(text: Text)
    ensures Interpret(text).Send? ==> Fits(Interpret(text).frame)
  {}

  /** A body made of two C strings is split at the NUL between them. */
  lemma SplitJoined(target: Text, msg: Text)
    requires 1 <= |target| <= MAX_NICK && |msg| >= 1 && NUL !in target
    ensures SplitPrivate(target + [NUL] + msg) == Whisper(target, msg)
  {
    var body := target + [NUL] + msg;
    assert body[..|target|] == target;
    CStrAt(body, |target|);
    assert body[|target| + 1..] == msg;
  }

  lemma WhisperingRoundTrip(args: Text)
    requires NUL !in args && Whispering(args).Send?
    ensures var w := SplitPrivate(Whispering(args).frame.body);
            && w.Whisper? && Whispering(args).frame == Frame(PRIVATE, w.target + [NUL] + w.text)
            && 1 <= |w.target| <= MAX_NICK && |w.text| >= 1 && SPACE !in w.target && NUL !in w.text
            && SkipBlanks(args) == w.target + [SPACE] + w.text
  {
    hide SplitPrivate, Blanks, FirstSpace;
    var rest := SkipBlanks(args);
    var k := FirstSpace(rest);
    var target, msg := rest[..k], rest[k + 1..];
    assert rest == target + [SPACE] + msg;
    assert forall x :: x in target ==> x in args;
    assert forall x :: x in msg ==> x in args;
    SplitJoined(target, msg);
  }

  /** The private-message laws of the encoder and the server's decoder: a `/w` line that is accepted names a
      target and a text, and the server splits the body into the same two. */
  lemma WhisperRoundTrip(text: Text)
    requires Interpret(text).Send? && Interpret(text).frame.kind == PRIVATE
    ensures var body := Interpret(text).frame.body;
            var w := SplitPrivate(body);
            && w.Whisper? && body == w.target + [NUL] + w.text
            && 1 <= |w.target| <= MAX_NICK && |w.text| >= 1 && SPACE !in w.target && NUL !in w.text
            && SkipBlanks(CStr(text)[WhisperPrefix(CStr(text))..]) == w.target + [SPACE] + w.text
  {
    hide SplitPrivate, SkipBlanks, Ascii, Whispering;
    var args := CStr(text)[WhisperPrefix(CStr(text))..];
    WhisperingRoundTrip(args);
  }

  lemma {:induction false} FirstSpaceAt(t: Text, k: nat)
    requires k < |t| && t[k] == SPACE && SPACE !in t[..k]
    ensures FirstSpace(t) == k
  {
    if k > 0 {
      assert t[0] in t[..k];
      assert forall x :: x in t[1..][..k - 1] ==> x in t[..k];
      FirstSpaceAt(t[1..], k - 1);
    }
  }

  lemma WhisperingTyped(target: Text, msg: Text)
    requires 1 <= |target| <= MAX_NICK && |msg| >= 1 && |target| + 1 + |msg| <= MAX_BODY
    requires SPACE !in target && target[0] != TAB && NUL !in target + [SPACE] + msg
    ensures Whispering(target + [SPACE] + msg) == Send(Frame(PRIVATE, target + [NUL] + msg))
  {
    hide FirstSpace;
    var rest := target + [SPACE] + msg;
    assert rest[0] == target[0] && target[0] in target;
    assert SkipBlanks(rest) == rest;
    assert rest[..|target|] == target && rest[|target| + 1..] == msg;
    FirstSpaceAt(rest, |target|);
  }

  /** A line that starts with "/w " is none of the other commands. */
  lemma WhisperLineRead(rest: Text)
    requires NUL !in rest
    ensures Interpret(Ascii("/w ") + rest) == Whispering(rest)
  {
    hide Whispering;
    var w := Ascii("/w ");
    var line := w + rest;
    assert w[1] == 'w' as int && NUL !in w;
    assert NUL !in line;
    CStrWhole(line);
    assert line[1] == 'w' as int;
    assert Ascii("/quit")[1] == 'q' as int && Ascii("/q")[1] == 'q' as int;
    assert Ascii("/help")[1] == 'h' as int && Ascii("/?")[1] == '?' as int && Ascii("/list")[1] == 'l' as int;
    assert line[3..] == rest;
  }

  /** The size of the line buffer with its NUL; longer lines are cut before they are interpreted. */
  const LINE_CAP: nat := 4096

  function WhisperBody(target: Text, msg: Text): Text { target + [NUL] + msg }

  /** What a private message can be made of. */
  predicate Typable(target: Text, msg: Text)
  {
    && 1 <= |target| <= MAX_NICK && |msg| >= 1 && |target| + 1 + |msg| <= MAX_BODY
    && NUL !in target && NUL !in msg && LF !in target && LF !in msg
    && SPACE !in target && target[0] != TAB
  }

  /** A line as read from the terminal: no line feed inside, short enough for the buffer. */
  predicate Line(line: Text) { LF !in line && |line| < LINE_CAP }

  /** A NUL typed at the end keeps a carriage return before it. */
  lemma TypedWithNul(target: Text, msg: Text)
    requires Typable(target, msg)
    ensures var line := Ascii("/w ") + (target + [SPACE] + msg) + [NUL];
            Line(line) && Interpret(TrimEol(line)) == Send(Frame(PRIVATE, WhisperBody(target, msg)))
  {
    hide Interpret, Whispering, TrimEol;
    var rest := target + [SPACE] + msg;
    var bare := Ascii("/w ") + rest;
    var line := bare + [NUL];
    assert Ascii("/w ")[0] == '/' as int && Ascii("/w ")[1] == 'w' as int && Ascii("/w ")[2] == ' ' as int;
    assert NUL !in rest && NUL !in bare && LF !in line;
    TrimmedAlready(line);
    WhisperLineRead(rest);
    WhisperingTyped(target, msg);
    UpToNul(bare);
  }

  lemma TrimmedAlready(t: Text)
    requires t != [] && t[|t| - 1] != LF && t[|t| - 1] != CR
    ensures TrimEol(t) == t
  {}

  /** A line that is a private message command is read up to its first NUL. */
  lemma UpToNul(bare: Text)
    requires NUL !in bare && Interpret(bare).Send? && Interpret(bare).frame.kind == PRIVATE
    ensures Interpret(bare + [NUL]) == Interpret(bare)
  {
    hide Whispering, Ascii;
    var line := bare + [NUL];
    assert line[..|bare|] == bare;
    CStrAt(line, |bare|);
    CStrWhole(bare);
  }

  /** What is sent was typed: a target and a text the terminal can produce. */
  lemma SentIsTypable(line: Text, target: Text, msg: Text)
    requires LF !in line && NUL !in target
    requires Interpret(TrimEol(line)) == Send(Frame(PRIVATE, WhisperBody(target, msg)))
    ensures Typable(target, msg)
    ensures |TrimEol(line)| >= 3 + |target| + 1 + |msg|
  {
    hide Interpret, Ascii, SplitPrivate, SkipBlanks, TrimEol, CStr, WhisperPrefix;
    var text := TrimEol(line);
    WhisperDecoded(text, target, msg);
    WhisperRoundTrip(text);
    PrefixThere(text);
    var word := CStr(text);
    ArgumentsLack(line, text, WhisperPrefix(word), LF);
    PartsOf(word[WhisperPrefix(word)..], target, msg);
  }

  lemma ArgumentsLack(line: Text, text: Text, n: nat, c: byte)
    requires c !in line && text <= line && n <= |CStr(text)|
    ensures c !in SkipBlanks(CStr(text)[n..])
  {
    hide Blanks;
    var word := CStr(text);
    Lacks(line, text, c);
    Lacks(text, word, c);
    LacksTail(word, n, c);
    LacksTail(word[n..], Blanks(word[n..]), c);
  }

  lemma PartsOf(args: Text, target: Text, msg: Text)
    requires target != [] && SkipBlanks(args) == target + [SPACE] + msg && LF !in SkipBlanks(args)
    ensures LF !in target && LF !in msg && target[0] != TAB && |args| >= |target| + 1 + |msg|
  {
    hide Blanks;
    var rest := SkipBlanks(args);
    assert rest[..|target|] == target && rest[|target| + 1..] == msg;
    Lacks(rest, target, LF);
    LacksTail(rest, |target| + 1, LF);
    assert rest[0] == target[0];
  }

  lemma Lacks(t: Text, a: Text, c: byte)
    requires c !in t && a <= t
    ensures c !in a
  {
    assert forall k :: 0 <= k < |a| ==> a[k] == t[k];
  }

  lemma LacksTail(t: Text, k: nat, c: byte)
    requires c !in t && k <= |t|
    ensures c !in t[k..]
  {}

  lemma PrefixThere(text: Text)
    requires Interpret(text).Send? && Interpret(text).frame.kind == PRIVATE
    ensures 3 <= WhisperPrefix(CStr(text)) <= |CStr(text)|
  {
    hide Ascii, Whispering;
  }

  /** The exact reach of `/w`: some line makes the client send this target and text if and only if both are
      within the limits and hold neither NUL nor line feed, and the target no space and no leading tab. */
  lemma EveryWhisperCanBeTyped(target: Text, msg: Text)
    requires NUL !in target
    ensures (exists line :: Line(line) && Interpret(TrimEol(line)) == Send(Frame(PRIVATE, WhisperBody(target, msg))))
       <==> Typable(target, msg)
  {
    hide Interpret, TrimEol, Typable;
    if Typable(target, msg) {
      TypedWithNul(target, msg);
    }
    forall line | Line(line) && Interpret(TrimEol(line)) == Send(Frame(PRIVATE, WhisperBody(target, msg)))
      ensures Typable(target, msg)
    {
      SentIsTypable(line, target, msg);
    }
  }

  /** Typing them plainly, "/w target text", does it if and only if besides the text ends in no carriage
      return, which the client would strip with the line end. */
  lemma PlainlyTyped(target: Text, msg: Text)
    requires NUL !in target && NUL !in msg && LF !in target && LF !in msg
    ensures Interpret(TrimEol(Ascii("/w ") + (target + [SPACE] + msg))) == Send(Frame(PRIVATE, WhisperBody(target, msg)))
       <==> Typable(target, msg) && TrimEol(msg) == msg
  {
    hide Interpret, Whispering, TrimEol;
    var rest := target + [SPACE] + msg;
    var line := Ascii("/w ") + rest;
    assert Ascii("/w ")[0] == '/' as int && Ascii("/w ")[1] == 'w' as int && Ascii("/w ")[2] == ' ' as int;
    assert LF !in line && NUL !in rest;
    if Interpret(TrimEol(line)) == Send(Frame(PRIVATE, WhisperBody(target, msg))) {
      SentIsTypable(line, target, msg);
      assert |TrimEol(line)| == |line|;
      assert line[|line| - 1] == msg[|msg| - 1];
      TrimmedAlready(msg);
    }
    if Typable(target, msg) && TrimEol(msg) == msg {
      assert line[|line| - 1] == msg[|msg| - 1];
      TrimmedAlready(line);
      WhisperLineRead(rest);
      WhisperingTyped(target, msg);
    }
  }

  /** From the keyboard to the screen: a `/w` line accepted as target and text, typed at a joined client, puts
      "(pm sender -> target) text", cut to 2048 bytes, once before the holder of that nick and once before the
      sender, and nothing before anybody else. Nothing is cut exactly when 10 bytes, the two nicks and the text
      fit into 2048. */
  lemma WhisperEndToEnd(s: State, i: nat, line: Text, target: Text, text: Text, j: nat, k: nat)
    requires Reliable(s) && i < |s.slots| && s.slots[i].Online()
    requires Interpret(line) == Send(Frame(PRIVATE, target + [NUL] + text)) && NUL !in target
    requires j < |s.slots| && s.slots[j].Online() && s.slots[j].nick == target
    requires k < |s.slots| && s.slots[k].used
    ensures var had, now := Delivered(s.trace, s.slots[k].fd),
                            Delivered(Dispatch(s, i, Interpret(line).frame).trace, s.slots[k].fd);
            var shown := Ascii("(pm ") + s.slots[i].nick + Ascii(" -> ") + target + Ascii(") ") + text;
            && now == (if k == i || k == j then had + [Frame(PRIVATE, Clamp(shown))] else had)
            && (Clamp(shown) == shown <==> 10 + |s.slots[i].nick| + |target| + |text| <= MAX_BODY)
  {
    hide Interpret, Delivered, HandlePrivate, HandleJoin, HandleBroadcast, HandleList, Ascii, Reliable, CStr;
    var f := Frame(PRIVATE, target + [NUL] + text);
    WhisperDecoded(line, target, text);
    WhisperReachesOne(s, i, f.body, j, k);
    assert Dispatch(s, i, f) == HandlePrivate(s, i, f.body);
  }

  lemma WhisperDecoded(line: Text, target: Text, text: Text)
    requires Interpret(line) == Send(Frame(PRIVATE, target + [NUL] + text)) && NUL !in target
    ensures SplitPrivate(target + [NUL] + text) == Whisper(target, text)
    ensures CStr(text) == text && |target + [NUL] + text| <= MAX_BODY
  {
    hide Interpret, Ascii;
    WhisperRoundTrip(line);
    CommandFrameFits(line);
    var body := target + [NUL] + text;
    assert body[..|target|] == target && body[|target| + 1..] == text;
    CStrAt(body, |target|);
    CStrWhole(text);
  }
}
