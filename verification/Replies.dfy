/** Readers for the texts the server composes, and that they find in them what the slot table holds. */
module Replies {
  import opened Bytes
  import opened ChatProto
  import opened Framing
  import opened ServerSpec
  import opened ServerRuns
  import opened Conversations

  // ---- numbers ----

  function ReadDigit(b: byte): nat { if 48 <= b <= 57 then b - 48 else 0 }

  /** `strtoul` of a text of digits. */
  function ReadDecimal(t: Text): nat
  {
    if t == [] then 0 else 10 * ReadDecimal(t[..|t| - 1]) + ReadDigit(t[|t| - 1])
  }

  lemma {:induction false} DecimalRead(n: nat)
    ensures ReadDecimal(Decimal(n)) == n
  {
    var t := Decimal(n);
    if n < 10 {
      assert t[..0] == [];
    } else {
      DecimalRead(n / 10);
      assert t[..|t| - 1] == Decimal(n / 10);
    }
  }

  // ---- reading a user list ----

  datatype User = User(id: nat, nick: Text)

  function IndexOf(t: Text, c: byte): (k: nat)
    ensures k <= |t| && c !in t[..k] && (k < |t| ==> t[k] == c)
  {
    if t == [] || t[0] == c then 0
    else
      var k := 1 + IndexOf(t[1..], c);
      assert t[..k] == [t[0]] + t[1..][..k - 1];
      k
  }

  lemma {:induction false} IndexAt(t: Text, c: byte, k: nat)
    requires k < |t| && t[k] == c && c !in t[..k]
    ensures IndexOf(t, c) == k
  {
    if k > 0 {
      assert t[0] in t[..k];
      assert forall x :: x in t[1..][..k - 1] ==> x in t[..k];
      IndexAt(t[1..], c, k - 1);
    }
  }

  lemma IndexInside(t: Text, c: byte)
    requires c in t
    ensures IndexOf(t, c) < |t|
  {
    assert t[..|t|] == t;
  }

  function ReadLine(line: Text): User
  {
    var k := IndexOf(line, TAB);
    User(ReadDecimal(line[..k]), if k < |line| then line[k + 1..] else [])
  }

  /** One user for each line. */
  function ReadLines(t: Text): seq<User>
    decreases |t|
  {
    if t == [] then []
    else
      var k := IndexOf(t, LF);
      [ReadLine(t[..k])] + if k < |t| then ReadLines(t[k + 1..]) else []
  }

  function ReadList(t: Text): seq<User>
  {
    if t == Ascii("(no users)\n") then [] else ReadLines(t)
  }

  // ---- what the list should say ----

  /** The joined clients among the first `n` slots, in slot order. */
  function Users(slots: seq<Slot>, n: nat): seq<User>
    requires n <= |slots|
  {
    if n == 0 then []
    else if slots[n - 1].used && slots[n - 1].joined
    then Users(slots, n - 1) + [User(slots[n - 1].id, slots[n - 1].nick)]
    else Users(slots, n - 1)
  }

  function Digits(n: nat): nat { if n < 10 then 1 else 1 + Digits(n / 10) }

  /** The bytes their lines take: number, tab, nick, line feed. */
  function Size(us: seq<User>): nat
  {
    if us == [] then 0 else Size(us[..|us| - 1]) + Digits(us[|us| - 1].id) + |us[|us| - 1].nick| + 2
  }

  /** `k` users are as many as fit. */
  predicate Shown(us: seq<User>, k: nat)
  {
    k <= |us| && Size(us[..k]) <= 2048 && (k < |us| ==> Size(us[..k + 1]) > 2048)
  }

  predicate NoLf(us: seq<User>) { forall j :: 0 <= j < |us| ==> LF !in us[j].nick }

  function LineOf(u: User): Text { Decimal(u.id) + [TAB] + u.nick + [LF] }

  function LinesOf(us: seq<User>): Text
  {
    if us == [] then [] else LinesOf(us[..|us| - 1]) + LineOf(us[|us| - 1])
  }

  lemma {:induction false} DigitsOfDecimal(n: nat)
    ensures |Decimal(n)| == Digits(n)
  {
    if n >= 10 {
      DigitsOfDecimal(n / 10);
    }
  }

  lemma {:induction false} SizeOfLines(us: seq<User>)
    ensures |LinesOf(us)| == Size(us)
  {
    if us != [] {
      SizeOfLines(us[..|us| - 1]);
      DigitsOfDecimal(us[|us| - 1].id);
    }
  }

  lemma {:induction false} LinesOfCons(u: User, us: seq<User>)
    ensures LinesOf([u] + us) == LineOf(u) + LinesOf(us)
  {
    hide LineOf;
    if us == [] {
      assert [u] + us == [u] && [u][..0] == [];
    } else {
      var front := us[..|us| - 1];
      assert ([u] + us)[..|us|] == [u] + front;
      LinesOfCons(u, front);
    }
  }

  // ---- the list as the server builds it ----

  lemma {:induction false} LinesAreUsers(slots: seq<Slot>, n: nat)
    requires n <= |slots|
    ensures |ListLines(slots, n)| == |Users(slots, n)|
    ensures forall j :: 0 <= j < |Users(slots, n)| ==> ListLines(slots, n)[j] == LineOf(Users(slots, n)[j])
  {
    if n > 0 {
      LinesAreUsers(slots, n - 1);
    }
  }

  lemma {:induction false} ConcatLines(lines: seq<Text>, us: seq<User>)
    requires |lines| == |us| && forall j :: 0 <= j < |us| ==> lines[j] == LineOf(us[j])
    ensures Concat(lines) == LinesOf(us)
  {
    hide LineOf;
    if us != [] {
      ConcatLines(lines[..|us| - 1], us[..|us| - 1]);
    }
  }

  /** The text of the reply: the lines of as many users as fit, or a note that there is none. */
  lemma ListBodyIs(slots: seq<Slot>) returns (k: nat)
    ensures Shown(Users(slots, |slots|), k)
    ensures ListBody(slots) == if Users(slots, |slots|) == [] then Ascii("(no users)\n")
                               else LinesOf(Users(slots, |slots|)[..k])
  {
    hide LineOf, Ascii, FitCount;
    var us, lines := Users(slots, |slots|), ListLines(slots, |slots|);
    LinesAreUsers(slots, |slots|);
    k := FitCount(lines, MAX_BODY);
    ConcatLines(lines[..k], us[..k]);
    SizeOfLines(us[..k]);
    if k < |us| {
      ConcatLines(lines[..k + 1], us[..k + 1]);
      SizeOfLines(us[..k + 1]);
    }
  }

  // ---- what a reader finds ----

  lemma {:induction false} DecimalIsDigits(n: nat)
    ensures TAB !in Decimal(n) && LF !in Decimal(n)
  {}

  lemma LineRead(u: User)
    ensures ReadLine(Decimal(u.id) + [TAB] + u.nick) == u
  {
    var line := Decimal(u.id) + [TAB] + u.nick;
    var n := |Decimal(u.id)|;
    assert line[..n] == Decimal(u.id) && line[n + 1..] == u.nick;
    IndexAt(line, TAB, n) by { DecimalIsDigits(u.id); }
    DecimalRead(u.id);
  }

  lemma {:induction false} LinesRead(us: seq<User>)
    requires NoLf(us)
    ensures ReadLines(LinesOf(us)) == us
  {
    hide LineOf, ReadLine;
    if us != [] {
      var u, more := us[0], us[1..];
      assert us == [u] + more;
      LinesOfCons(u, more);
      FirstLine(u, LinesOf(more));
      assert forall j :: 0 <= j < |more| ==> more[j] == us[j + 1];
      LinesRead(more);
    }
  }

  lemma FirstLine(u: User, more: Text)
    requires LF !in u.nick
    ensures ReadLines(LineOf(u) + more) == [u] + ReadLines(more)
  {
    hide ReadLine;
    var line := Decimal(u.id) + [TAB] + u.nick;
    var t := LineOf(u) + more;
    DecimalIsDigits(u.id);
    assert LF !in line;
    assert t == line + [LF] + more;
    assert t[..|line|] == line && t[|line| + 1..] == more;
    IndexAt(t, LF, |line|);
    LineRead(u);
  }

  function Count(t: Text, c: byte): nat
  {
    if t == [] then 0 else Count(t[..|t| - 1], c) + if t[|t| - 1] == c then 1 else 0
  }

  lemma {:induction false} CountSum(a: Text, b: Text, c: byte)
    ensures Count(a + b, c) == Count(a, c) + Count(b, c)
    decreases |b|
  {
    if b == [] {
      assert a + b == a;
    } else {
      assert (a + b)[..|a + b| - 1] == a + b[..|b| - 1];
      CountSum(a, b[..|b| - 1], c);
    }
  }

  lemma {:induction false} CountNone(t: Text, c: byte)
    ensures Count(t, c) == 0 <==> c !in t
  {
    if t != [] {
      CountNone(t[..|t| - 1], c);
      assert t == t[..|t| - 1] + [t[|t| - 1]];
    }
  }

  /** As many users are read as there are line feeds. */
  lemma {:induction false} UsersPerLf(t: Text)
    requires t == [] || t[|t| - 1] == LF
    ensures |ReadLines(t)| == Count(t, LF)
    decreases |t|
  {
    hide ReadLine, Count, IndexOf;
    if t == [] {
      CountNone(t, LF);
    } else {
      CountFirst(t);
      UsersPerLf(t[IndexOf(t, LF) + 1..]);
    }
  }

  lemma CountFirst(t: Text)
    requires t != [] && t[|t| - 1] == LF
    ensures var k := IndexOf(t, LF); k < |t| && Count(t, LF) == 1 + Count(t[k + 1..], LF)
  {
    hide Count, IndexOf;
    IndexInside(t, LF);
    var k := IndexOf(t, LF);
    var a, b := t[..k], t[k + 1..];
    CountNone(a, LF);
    CountAround(a, b);
    Around(t, k);
  }

  lemma Around(t: Text, k: nat)
    requires k < |t|
    ensures t == t[..k] + [t[k]] + t[k + 1..]
  {}

  lemma CountAround(a: Text, b: Text)
    ensures Count(a + [LF] + b, LF) == Count(a, LF) + 1 + Count(b, LF)
  {
    hide Count;
    CountSum(a + [LF], b, LF);
    CountSum(a, [LF], LF);
    CountOne();
  }

  lemma CountOne()
    ensures Count([LF], LF) == 1
  {
    var t: Text := [LF];
    assert t[..0] == [];
  }

  lemma LfOfLine(u: User)
    ensures Count(LineOf(u), LF) == 1 + Count(u.nick, LF)
  {
    hide Count;
    CountSum(Decimal(u.id) + [TAB] + u.nick, [LF], LF);
    CountSum(Decimal(u.id) + [TAB], u.nick, LF);
    DecimalIsDigits(u.id);
    CountNone(Decimal(u.id) + [TAB], LF);
    CountOne();
  }

  lemma {:induction false} LfOfLines(us: seq<User>)
    ensures Count(LinesOf(us), LF) >= |us|
    ensures !NoLf(us) ==> Count(LinesOf(us), LF) > |us|
    ensures us != [] ==> LinesOf(us) != [] && LinesOf(us)[|LinesOf(us)| - 1] == LF
  {
    hide Count;
    if us == [] {
      CountNone([], LF);
    } else {
      var front, u := us[..|us| - 1], us[|us| - 1];
      LfOfLines(front);
      LfOfLine(u);
      CountSum(LinesOf(front), LineOf(u), LF);
      if LF in u.nick { CountNone(u.nick, LF); }
      assert LF !in u.nick && NoLf(front) ==> NoLf(us);
    }
  }

  /** Reading the lines gives the users back if and only if no nick contains a line feed. */
  lemma LinesReadExactly(us: seq<User>)
    ensures ReadLines(LinesOf(us)) == us <==> NoLf(us)
  {
    hide NoLf, ReadLines, LinesOf, Count;
    if NoLf(us) {
      LinesRead(us);
    } else {
      LfOfLines(us);
      assert us != [] by { NobodyHasLf(); }
      UsersPerLf(LinesOf(us));
    }
  }

  lemma NobodyHasLf()
    ensures NoLf([])
  {}

  /** No list starts like the note that there is nobody. */
  lemma {:induction false} NotTheNote(us: seq<User>)
    requires us != []
    ensures LinesOf(us) != Ascii("(no users)\n")
  {
    assert us == [us[0]] + us[1..];
    LinesOfCons(us[0], us[1..]);
    var d := Decimal(us[0].id);
    assert LinesOf(us)[0] == d[0];
    assert Ascii("(no users)\n")[0] == '(' as int;
  }

  /** A LIST frame is answered to its sender alone, with one LIST_REPLY. Its text lists the joined clients in
      slot order, as many from the first on as fit into 2048 bytes; a reader finds exactly their ids and nicks
      if and only if none of these nicks contains a line feed. */
  lemma ListAnswered(s: State, i: nat, body: Text, k: nat) returns (text: Text, n: nat)
    requires Reliable(s) && i < |s.slots| && s.slots[i].used && k < |s.slots| && s.slots[k].used
    ensures |text| <= 2048
    ensures var t := Dispatch(s, i, Frame(LIST, body));
            var had, now := Delivered(s.trace, s.slots[k].fd), Delivered(t.trace, s.slots[k].fd);
            && t.slots == s.slots && t.said == s.said
            && now == if k == i then had + [Frame(LIST_REPLY, text)] else had
    ensures var us := Users(s.slots, |s.slots|);
            Shown(us, n) && (ReadList(text) == us[..n] <==> NoLf(us[..n]))
  {
    hide Delivered, Users, LinesOf, ReadLines, NoLf, Ascii, ListBody;
    text := ListBody(s.slots);
    n := ListBodyIs(s.slots);
    SendDelivers(s, s.slots[i].fd, Frame(LIST_REPLY, text), s.slots[k].fd);
    var us := Users(s.slots, |s.slots|);
    if us == [] {
      NobodyHasLf();
      assert us[..n] == [];
    } else {
      SomeoneFits(s, n);
      NotTheNote(us[..n]);
      LinesReadExactly(us[..n]);
    }
  }

  /** A single line always fits. */
  lemma SomeoneFits(s: State, n: nat)
    requires TableOk(s.slots) && Users(s.slots, |s.slots|) != [] && Shown(Users(s.slots, |s.slots|), n)
    ensures n > 0
  {
    var us := Users(s.slots, |s.slots|);
    UserSmall(s.slots, |s.slots|);
    if n == 0 {
      assert us[..1] == [us[0]] && [us[0]][..0] == [];
      assert Size([us[0]]) == Digits(us[0].id) + |us[0].nick| + 2;
      DigitsOfDecimal(us[0].id);
      DecimalU32(us[0].id);
    }
  }

  lemma {:induction false} UserSmall(slots: seq<Slot>, n: nat)
    requires TableOk(slots) && n <= |slots|
    ensures forall j :: 0 <= j < |Users(slots, n)| ==>
              Users(slots, n)[j].id < 0x1_0000_0000 && |Users(slots, n)[j].nick| <= 31
  {
    if n > 0 {
      UserSmall(slots, n - 1);
      assert SlotOk(slots[n - 1]);
    }
  }

  // ---- the acknowledgement of a JOIN ----

  datatype Ack = NoAck | Ack(id: nat, nick: Text)

  /** "id=" number, line feed, "nick=" nick, line feed. */
  function ReadAck(t: Text): Ack
  {
    var k := IndexOf(t, LF);
    if k >= 3 && t[..3] == Ascii("id=") && k + 7 <= |t| && t[k + 1..k + 6] == Ascii("nick=") && t[|t| - 1] == LF
    then Ack(ReadDecimal(t[3..k]), t[k + 6..|t| - 1])
    else NoAck
  }

  lemma AckRead(id: u32, nick: Text)
    ensures ReadAck(AckText(id, nick)) == Ack(id, nick)
  {
    hide Ascii, ReadDecimal, Decimal;
    var t, d, n := AckText(id, nick), Decimal(id), |Decimal(id)|;
    AsciiParts();
    DecimalIsDigits(id);
    assert t == Ascii("id=") + d + [LF] + Ascii("nick=") + nick + [LF];
    assert t[..3] == Ascii("id=") && t[3..3 + n] == d && t[3 + n] == LF;
    assert t[..3 + n] == Ascii("id=") + d;
    IndexAt(t, LF, 3 + n);
    assert t[4 + n..9 + n] == Ascii("nick=") && t[9 + n..|t| - 1] == nick;
    DecimalRead(id);
  }

  lemma AsciiParts()
    ensures LF !in Ascii("id=") && Ascii("\nnick=") == [LF] + Ascii("nick=") && Ascii("\n") == [LF]
    ensures |Ascii("id=")| == 3 && |Ascii("nick=")| == 5
  {}

  /** Whoever joins is told first, in the acknowledgement, the id and the nick it now has. */
  lemma NewcomerIsTold(s: State, i: nat, body: Text)
    requires Reliable(s) && i < |s.slots| && s.slots[i].used && !s.slots[i].joined
    requires Dispatch(s, i, Frame(JOIN, body)).slots[i].joined
    ensures var t, fd := Dispatch(s, i, Frame(JOIN, body)), s.slots[i].fd;
            var had, now := Delivered(s.trace, fd), Delivered(t.trace, fd);
            && |had| < |now| && now[..|had|] == had && now[|had|].kind == JOIN_ACK
            && ReadAck(now[|had|].body) == Ack(t.slots[i].id, t.slots[i].nick)
            && t.slots[i].id == s.slots[i].id
  {
    hide Delivered, HandleJoin, AckText, ReadAck, HistoryFrames;
    JoinDelivers(s, i, body, i);
    AckRead(s.slots[i].id, HandleJoin(s, i, body).slots[i].nick);
  }
}
