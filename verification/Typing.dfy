/** What typing a line does, from the keyboard of one client to what everybody sees. */
module Typing {
  import opened Bytes
  import opened ChatProto
  import opened Framing
  import opened ServerSpec
  import opened ServerRuns
  import opened Conversations
  import opened Commands
  import opened Replies

  /** The words that are commands by themselves. */
  predicate CommandWord(word: Text)
  {
    word == Ascii("/quit") || word == Ascii("/q") || word == Ascii("/help") || word == Ascii("/?") || word == Ascii("/list")
  }

  /** Lines that begin a private message. */
  predicate Whispers(word: Text) { Ascii("/w ") <= word || Ascii("/msg ") <= word }

  /** Something to say to everybody: a line of 1 to 2048 bytes that is no command. */
  predicate Chat(line: Text)
  {
    1 <= |line| <= 2048 && !CommandWord(CStr(line)) && !Whispers(CStr(line))
  }

  lemma CommandWordsDiffer()
    ensures Ascii("/quit")[1] == 'q' as int && Ascii("/q")[1] == 'q' as int
    ensures Ascii("/help")[1] == 'h' as int && Ascii("/?")[1] == '?' as int && Ascii("/list")[1] == 'l' as int
    ensures Ascii("/w ")[1] == 'w' as int && Ascii("/msg ")[1] == 'm' as int
  {}

  /** Which line is which command, exactly. */
  lemma CommandsExactly(line: Text)
    ensures var word, c := CStr(line), Interpret(line);
            && (c == Nothing <==> line == [])
            && (c == Quit <==> word == Ascii("/quit") || word == Ascii("/q"))
            && (c == ShowHelp <==> word == Ascii("/help") || word == Ascii("/?"))
            && (c.Send? && c.frame.kind == LIST <==> word == Ascii("/list"))
            && (c.Send? && c.frame.kind == BROADCAST <==> Chat(line))
            && (Chat(line) ==> c == Send(Frame(BROADCAST, line)))
            && (c == Send(Frame(LIST, [])) <==> word == Ascii("/list"))
            && (c.Send? && c.frame.kind == PRIVATE ==> Whispers(word))
            && (c == Usage || c == NickTooLong ==> Whispers(word))
            && (c == TooLong ==> Whispers(word) || |line| > 2048)
  {
    hide Interpret, CStr, Ascii, CommandWord, Whispers;
    var word := CStr(line);
    if Whispers(word) {
      WhisperLines(line);
    } else if CommandWord(word) {
      CommandLines(line);
    } else {
      OtherLines(line);
    }
    WordsOfCommands(word);
  }

  lemma WordsOfCommands(word: Text)
    ensures CommandWord(word) <==> word == Ascii("/quit") || word == Ascii("/q") || word == Ascii("/help")
                                   || word == Ascii("/?") || word == Ascii("/list")
    ensures CommandWord(word) ==> !Whispers(word)
    ensures CStr([]) == [] && !CommandWord([]) && !Whispers([])
  {
    hide Ascii;
    CommandWordsDiffer();
  }

  lemma WhisperLines(line: Text)
    requires Whispers(CStr(line))
    ensures var c := Interpret(line);
            line != [] && ((c.Send? && c.frame.kind == PRIVATE) || c == Usage || c == NickTooLong || c == TooLong)
  {
    hide Ascii, Whispering, CStr;
    var word := CStr(line);
    WordsOfCommands(word);
    WhisperingKinds(word[WhisperPrefix(word)..]);
  }

  lemma CommandLines(line: Text)
    requires CommandWord(CStr(line))
    ensures var word, c := CStr(line), Interpret(line);
            && line != []
            && (word == Ascii("/quit") || word == Ascii("/q") <==> c == Quit)
            && (word == Ascii("/help") || word == Ascii("/?") <==> c == ShowHelp)
            && (word == Ascii("/list") <==> c == Send(Frame(LIST, [])))
            && (c == Quit || c == ShowHelp || c == Send(Frame(LIST, [])))
  {
    hide Ascii, Whispering, WhisperPrefix, CStr;
    CommandWordsDiffer();
    WordsOfCommands(CStr(line));
  }

  lemma OtherLines(line: Text)
    requires !CommandWord(CStr(line)) && !Whispers(CStr(line))
    ensures Interpret(line) == if line == [] then Nothing
                               else if |line| > 2048 then TooLong else Send(Frame(BROADCAST, line))
  {
    hide Ascii, CStr;
  }

  lemma WhisperingKinds(args: Text)
    requires NUL !in args
    ensures var c := Whispering(args);
            (c.Send? && c.frame.kind == PRIVATE) || c == Usage || c == NickTooLong || c == TooLong
  {
    hide Blanks, FirstSpace;
  }

  /** A plain line typed by a joined client adds "nick: line", cut to 2048 bytes, to what was said, and puts it
      once before every joined client, itself included, and before nobody else. */
  lemma LineIsSaid(s: State, i: nat, typed: Text, k: nat)
    requires Reliable(s) && i < |s.slots| && s.slots[i].Online() && Chat(TrimEol(typed))
    requires k < |s.slots| && s.slots[k].used
    ensures var c := Interpret(TrimEol(typed));
            c.Send?
            && var shown := s.slots[i].nick + Ascii(": ") + CStr(TrimEol(typed));
               var line := shown[..Min(|shown|, 2048)];
               var t := Dispatch(s, i, c.frame);
               var had, now := Delivered(s.trace, s.slots[k].fd), Delivered(t.trace, s.slots[k].fd);
               && t.said == s.said + [line] && t.slots == s.slots
               && now == if s.slots[k].joined then had + [Frame(BROADCAST, line)] else had
  {
    hide Interpret, Delivered, Dispatch, Ascii, Whispers, CommandWord, Reliable;
    var line := TrimEol(typed);
    CommandsExactly(line);
    BroadcastReachesAll(s, i, line, k);
    ClampIs(s.slots[i].nick + Ascii(": ") + CStr(line));
  }

  lemma ClampIs(t: Text)
    ensures Clamp(t) == t[..Min(|t|, 2048)]
  {}

  /** "/list" typed at any client brings one LIST_REPLY before it and nothing before anybody else. A reader of
      the reply finds the ids and nicks of the joined clients in slot order, as many as fit, if and only if
      none of these nicks contains a line feed. */
  lemma ListIsShown(s: State, i: nat, typed: Text, k: nat) returns (text: Text, n: nat)
    requires Reliable(s) && i < |s.slots| && s.slots[i].used && CStr(TrimEol(typed)) == Ascii("/list")
    requires k < |s.slots| && s.slots[k].used
    ensures var c := Interpret(TrimEol(typed));
            c.Send?
            && var t := Dispatch(s, i, c.frame);
               var had, now := Delivered(s.trace, s.slots[k].fd), Delivered(t.trace, s.slots[k].fd);
               && t.slots == s.slots && t.said == s.said
               && now == if k == i then had + [Frame(LIST_REPLY, text)] else had
    ensures var us := Users(s.slots, |s.slots|);
            Shown(us, n) && (ReadList(text) == us[..n] <==> NoLf(us[..n]))
  {
    hide Interpret, Delivered, Dispatch, Ascii, Whispers, CommandWord, Reliable, Users, ReadList, NoLf, Shown;
    CommandsExactly(TrimEol(typed));
    text, n := ListAnswered(s, i, [], k);
  }

  // ---- private messages ----

  /** "/msg" is "/w". */
  lemma MsgIsWhisper(rest: Text)
    requires NUL !in rest
    ensures Interpret(Ascii("/msg ") + rest) == Interpret(Ascii("/w ") + rest)
  {
    hide Ascii, Whispering;
    CommandWordsDiffer();
    var line := Ascii("/msg ") + rest;
    assert NUL !in Ascii("/msg ") by { MsgHasNoNul(); }
    CStrWhole(line);
    assert line[1] == 'm' as int && line[..5] == Ascii("/msg ") && line[5..] == rest;
    WhisperLineRead(rest);
  }

  lemma MsgHasNoNul()
    ensures NUL !in Ascii("/msg ")
  {
    assert Ascii("/msg ") == ['/' as int, 'm' as int, 's' as int, 'g' as int, ' ' as int];
  }

  predicate AllBlank(t: Text) { forall k :: 0 <= k < |t| ==> t[k] == SPACE || t[k] == TAB }

  lemma {:induction false} BlanksSkipped(blanks: Text, rest: Text)
    requires AllBlank(blanks) && (rest == [] || (rest[0] != SPACE && rest[0] != TAB))
    ensures SkipBlanks(blanks + rest) == rest
    decreases |blanks|
  {
    var t := blanks + rest;
    if blanks == [] {
      assert t == rest && t[0..] == t;
    } else {
      assert t[1..] == blanks[1..] + rest;
      BlanksSkipped(blanks[1..], rest);
      assert t[Blanks(t)..] == t[1..][Blanks(t[1..])..];
    }
  }

  /** What comes of "/w", blanks, a target, one space and a message, in every case. */
  lemma WhisperOutcomes(blanks: Text, target: Text, msg: Text)
    requires AllBlank(blanks) && target != [] && SPACE !in target && target[0] != TAB
    requires NUL !in target && NUL !in msg
    ensures Interpret(Ascii("/w ") + (blanks + (target + [SPACE] + msg)))
         == if msg == [] then Usage
            else if |target| > 31 then NickTooLong
            else if |target| + 1 + |msg| > 2048 then TooLong
            else Send(Frame(PRIVATE, target + [NUL] + msg))
  {
    hide Interpret, Ascii, Blanks, FirstSpace;
    var rest := target + [SPACE] + msg;
    assert target[0] in target && rest[0] == target[0];
    assert NUL !in blanks && NUL !in blanks + rest;
    WhisperLineRead(blanks + rest);
    BlanksSkipped(blanks, rest);
    assert rest[..|target|] == target && rest[|target| + 1..] == msg;
    FirstSpaceAt(rest, |target|);
  }

  /** Without a space after the target there is no message. */
  lemma WhisperWithoutText(blanks: Text, target: Text)
    requires AllBlank(blanks) && NUL !in target && SPACE !in target && (target == [] || target[0] != TAB)
    ensures Interpret(Ascii("/w ") + (blanks + target)) == Usage
  {
    hide Interpret, Ascii, Blanks;
    assert target != [] ==> target[0] in target;
    assert NUL !in blanks && NUL !in blanks + target;
    WhisperLineRead(blanks + target);
    BlanksSkipped(blanks, target);
    NoSpace(target);
  }

  lemma NoSpace(t: Text)
    requires SPACE !in t
    ensures FirstSpace(t) == |t|
  {}

  // ---- on the wire ----

  function WireHeader(kind: u32, n: u32): Text
    requires kind < 256 && n <= 2048
  {
    Ascii("CHAT") + [0, 0, 0, 1] + [0, 0, 0, kind] + [0, 0, n / 256, n % 256]
  }

  /** The bytes a line makes the client write: 3 for a line to everybody, 4 for a private message, 5 for the
      list. */
  lemma OnTheWire(line: Text)
    requires Interpret(line).Send?
    ensures var f := Interpret(line).frame;
            && |f.body| <= 2048
            && Encode(f) == WireHeader(if Chat(line) then 3 else if CStr(line) == Ascii("/list") then 5 else 4, |f.body|) + f.body
  {
    hide Interpret, Ascii, CStr, ToWire;
    CommandsExactly(line);
    CommandFrameFits(line);
    var f := Interpret(line).frame;
    InterpretKinds(line);
    HeaderOnTheWire(f.kind, |f.body|);
  }

  lemma InterpretKinds(line: Text)
    requires Interpret(line).Send?
    ensures Interpret(line).frame.kind in {BROADCAST, PRIVATE, LIST}
  {
    hide Ascii, CStr;
    WhisperingKinds(CStr(line)[WhisperPrefix(CStr(line))..]);
  }
}
