/** censor.c: the dictionary and `censor_text`, on NUL-terminated buffers of exactly the size needed. */
module Censor {
  import opened Bytes
  import opened CensorSpec
  import opened CensorLaws

  const MAX_WORD_LEN: nat := 256
  const MAX_DICT_WORDS: nat := 1000

  // ---- C strings ----

  /** The buffer holds the text and its terminating NUL and nothing more. */
  ghost predicate Holds(a: array<byte>, t: Text)
    reads a
  {
    NUL !in t && a.Length == |t| + 1 && a[..|t|] == t && a[|t|] == NUL
  }

  method Strdup(t: Text) returns (a: array<byte>)
    requires NUL !in t
    ensures fresh(a) && Holds(a, t)
  {
    a := new byte[|t| + 1](_ => NUL);
    CopyTo(a, 0, t);
  }

  /** `strncpy` or `strcat` at a known place: the bytes of `t` from `at` on, nothing else changed. */
  method CopyTo(a: array<byte>, at: nat, t: Text)
    requires at + |t| < a.Length
    modifies a
    ensures forall j :: at <= j < at + |t| ==> a[j] == t[j - at]
    ensures forall j :: 0 <= j < at || at + |t| <= j < a.Length ==> a[j] == old(a[j])
  {
    var k := 0;
    while k < |t|
      invariant 0 <= k <= |t|
      invariant forall j :: at <= j < at + k ==> a[j] == t[j - at]
      invariant forall j :: 0 <= j < at || at + k <= j < a.Length ==> a[j] == old(a[j])
    {
      a[at + k] := t[k];
      k := k + 1;
    }
  }

  /** `strstr(a + pos, w)`, as an index into `a`, or -1. */
  method FindFrom(a: array<byte>, ghost t: Text, pos: nat, w: Text) returns (k: int)
    requires Holds(a, t) && pos <= |t|
    ensures k == StrstrFrom(t, pos, w)
  {
    hide StrstrFrom;
    k := pos;
    while k + |w| < a.Length
      invariant pos <= k && (k == pos || k + |w| <= |t| + 1)
      invariant k <= |t| ==> StrstrFrom(t, pos, w) == StrstrFrom(t, k, w)
      invariant k > |t| ==> StrstrFrom(t, pos, w) == -1
    {
      assert forall j :: k <= j < k + |w| ==> a[j] == a[..|t|][j];
      assert a[k..k + |w|] == t[k..k + |w|];
      StrstrFromStep(t, k, w);
      if a[k..k + |w|] == w {
        return;
      }
      k := k + 1;
    }
    if k <= |t| {
      StrstrFromEnd(t, k, w);
    }
    k := -1;
  }

  /** The index in `t` of the first occurrence at or after `pos`, or -1. */
  ghost function StrstrFrom(t: Text, pos: nat, w: Text): int
    requires pos <= |t|
  {
    if Strstr(t[pos..], w) < 0 then -1 else pos + Strstr(t[pos..], w)
  }

  lemma StrstrFromStep(t: Text, k: nat, w: Text)
    requires k + |w| <= |t|
    ensures t[k..k + |w|] == w ==> StrstrFrom(t, k, w) == k
    ensures t[k..k + |w|] != w ==> StrstrFrom(t, k, w) == if k == |t| then -1 else StrstrFrom(t, k + 1, w)
  {
    assert t[k..][..|w|] == t[k..k + |w|];
    assert k < |t| ==> t[k..][1..] == t[k + 1..];
  }

  lemma StrstrFromEnd(t: Text, k: nat, w: Text)
    requires k <= |t| && k + |w| > |t|
    ensures StrstrFrom(t, k, w) == -1
  {
    TooShort(t[k..], w);
  }

  lemma {:induction false} TooShort(t: Text, w: Text)
    requires |t| < |w|
    ensures Strstr(t, w) == -1
    decreases |t|
  {
    if t != [] {
      TooShort(t[1..], w);
    }
  }

  // ---- censor_text ----

  /** The tests of `left_ok` and `right_ok` at index `k`. */
  method IsWholeWord(a: array<byte>, ghost t: Text, k: nat, n: nat) returns (yes: bool)
    requires Holds(a, t) && k + n <= |t|
    ensures yes <==> !EndsInWord(t[..k]) && !StartsInWord(t[k + n..])
  {
    assert k > 0 ==> a[k - 1] == t[..k][k - 1];
    assert k + n < |t| ==> a[k + n] == t[k + n..][0];
    assert k + n < |t| ==> a[k + n] in t;
    yes := (k == 0 || !Alnum(a[k - 1])) && (a[k + n] == NUL || !Alnum(a[k + n]));
  }

  /** The buffer built for one replacement: what stands before, the replacement, what stands after. */
  method Splice(a: array<byte>, ghost t: Text, k: nat, n: nat, r: Text) returns (b: array<byte>)
    requires Holds(a, t) && k + n <= |t| && NUL !in r
    ensures fresh(b) && Holds(b, t[..k] + r + t[k + n..])
  {
    hide Alnum;
    var len := a.Length - 1;
    b := new byte[len - n + |r| + 1](_ => NUL);
    assert a[..k] == t[..k] && a[k + n..len] == t[k + n..];
    CopyTo(b, 0, a[..k]);
    CopyTo(b, k, r);
    CopyTo(b, k + |r|, a[k + n..len]);
    ghost var u := t[..k] + r + t[k + n..];
    assert forall j :: 0 <= j < |u| ==> b[j] == u[j];
    assert forall x :: x in t[..k] || x in t[k + n..] ==> x in t;
  }

  function Cut(u: Text, pos: nat): Cursor
    requires pos <= |u|
  {
    Cursor(u[..pos], u[pos..])
  }

  /** One turn of the scan at `pos`. `more` is false when no match is left; `next` beyond the NUL is the step
      that loses the text. */
  method ScanTurn(a: array<byte>, ghost u: Text, pos: nat, w: Text, r: Text)
    returns (b: array<byte>, ghost v: Text, next: nat, more: bool)
    requires Holds(a, u) && pos <= |u| && NUL !in w && NUL !in r
    ensures Holds(b, v) && next <= |v| + 1 && (b == a || fresh(b))
    ensures !more ==> b == a && v == u && next == pos && OneTurn(Cut(u, pos), w, r).Ends?
    ensures more && next > |v| ==> b == a && v == u && OneTurn(Cut(u, pos), w, r).Lost?
    ensures more && next <= |v| ==> OneTurn(Cut(u, pos), w, r) == Passed(Cut(v, next))
                                    || OneTurn(Cut(u, pos), w, r) == Replaced(Cut(v, next))
  {
    hide OneTurn, EndsInWord, StartsInWord, StrstrFrom, Cut, Upto, From;
    b, v, next, more := a, u, pos, false;
    var k := FindFrom(a, u, pos, w);
    LastTurn(u, pos, w, r);
    if k < 0 {
      return;
    }
    TurnAt(u, pos, w, r);
    more := true;
    var whole := IsWholeWord(a, u, k, |w|);
    if !whole {
      next := k + 1;
    } else {
      b := Splice(a, u, k, |w|, r);
      v := u[..k] + r + u[k + |w|..];
      next := k + |r|;
      CutSpliced(u[..k], r, u[k + |w|..]);
    }
  }

  /** The scan for one dictionary word. `ends` is false where the loop never ends. */
  method ReplaceAll(a: array<byte>, ghost t: Text, w: Text, r: Text)
    returns (b: array<byte>, ghost u: Text, ends: bool)
    requires Holds(a, t) && NUL !in w && NUL !in r
    ensures ends <==> exists n :: Turns(n, Cursor([], t), w, r).Ends?
    ensures ends <==> w != []
    ensures Holds(b, u) && (b == a || fresh(b))
    ensures ends ==> u == ReplaceWord(Cursor([], t), w, r)
  {
    hide OneTurn;
    b, u, ends := a, t, w != [];
    LoopEndsExactly(Cursor([], t), w, r);
    if !ends {
      return;
    }
    var pos, more := 0, true;
    assert Cut(t, 0) == Cursor([], t);
    while more
      invariant Holds(b, u) && 0 <= pos <= |u| && (b == a || fresh(b))
      invariant ReplaceWord(Cut(u, pos), w, r) == ReplaceWord(Cursor([], t), w, r)
      invariant !more ==> OneTurn(Cut(u, pos), w, r).Ends?
      decreases more, |u| - pos
    {
      TurnShrinks(Cut(u, pos), w, r);
      b, u, pos, more := ScanTurn(b, u, pos, w, r);
    }
    assert u[..pos] + u[pos..] == u;
  }

  lemma LastTurn(u: Text, pos: nat, w: Text, r: Text)
    requires pos <= |u|
    ensures StrstrFrom(u, pos, w) < 0 <==> OneTurn(Cut(u, pos), w, r).Ends?
    ensures StrstrFrom(u, pos, w) >= 0 ==> pos <= StrstrFrom(u, pos, w) && StrstrFrom(u, pos, w) + |w| <= |u|
  {}

  lemma CutSpliced(x: Text, y: Text, z: Text)
    ensures Cut(x + y + z, |x| + |y|) == Cursor(x + y, z)
  {}

  /** One turn of the loop, in indices. */
  lemma TurnAt(u: Text, pos: nat, w: Text, r: Text)
    requires pos <= |u| && StrstrFrom(u, pos, w) >= 0
    ensures var k := StrstrFrom(u, pos, w);
            && pos <= k && k + |w| <= |u|
            && OneTurn(Cut(u, pos), w, r)
                 == if EndsInWord(u[..k]) || StartsInWord(u[k + |w|..])
                    then if k == |u| then Lost else Passed(Cut(u, k + 1))
                    else Replaced(Cursor(u[..k] + r, u[k + |w|..]))
  {
    hide Strstr, EndsInWord, StartsInWord, Upto, From;
    var s := Strstr(u[pos..], w);
    CutAt(u, pos, s);
    if pos + s < |u| { CutAt(u, pos, s + 1); }
    CutAt(u, pos, s + |w|);
  }

  lemma CutAt(u: Text, pos: nat, s: nat)
    requires pos + s <= |u|
    ensures Upto(Cut(u, pos), s) == u[..pos + s]
    ensures From(Cut(u, pos), s) == u[pos + s..]
  {}

  /** `censor_text`. `ends` is false when the loop over some word never ends: exactly if the dictionary holds
      an empty word. */
  method CensorText(text: Text, dictionary: seq<Text>, replacement: Text) returns (result: array<byte>, ends: bool)
    requires NUL !in text && NUL !in replacement
    requires forall w :: w in dictionary ==> NUL !in w
    ensures fresh(result)
    ensures ends <==> [] !in dictionary
    ensures ends ==> Holds(result, Censor(text, dictionary, replacement))
  {
    result := Strdup(text);
    ends := true;
    ghost var t := text;
    var i := 0;
    assert dictionary[0..] == dictionary;
    while i < |dictionary|
      invariant 0 <= i <= |dictionary| && fresh(result) && Holds(result, t)
      invariant ends && [] !in dictionary[..i]
      invariant [] !in dictionary ==>
                  [] !in dictionary[i..] && Censor(t, dictionary[i..], replacement) == Censor(text, dictionary, replacement)
    {
      assert dictionary[i..][0] == dictionary[i] && dictionary[i..][1..] == dictionary[i + 1..];
      result, t, ends := ReplaceAll(result, t, dictionary[i], replacement);
      if !ends {
        return;
      }
      i := i + 1;
    }
  }

  // ---- load_dict ----

  /** How many bytes one `fgets` into a 256-byte buffer takes: up to 255, at most through a line feed. */
  function Taken(file: Text, room: nat): (n: nat)
    ensures n <= |file| && n <= room
    ensures file != [] && room > 0 ==> n > 0
    ensures LF !in file[..n] || (n > 0 && file[n - 1] == LF && LF !in file[..n - 1])
    ensures LF !in file[..n] ==> n == room || n == |file|
  {
    if file == [] || room == 0 then 0
    else if file[0] == LF then assert file[..1] == [LF]; 1
    else
      var n := 1 + Taken(file[1..], room - 1);
      assert file[..n] == [file[0]] + file[1..][..n - 1];
      assert n > 1 ==> file[..n - 1] == [file[0]] + file[1..][..n - 2];
      n
  }

  /** `strcspn(t, "\n")`. */
  function UntilLf(t: Text): (k: nat)
    ensures k <= |t| && LF !in t[..k] && (k < |t| ==> t[k] == LF)
  {
    if t == [] || t[0] == LF then 0
    else
      var k := 1 + UntilLf(t[1..]);
      assert t[..k] == [t[0]] + t[1..][..k - 1];
      k
  }

  /** `line[strcspn(line, "\n")] = 0` on what was read. */
  function Chop(line: Text): (w: Text)
    ensures LF !in w && NUL !in w
  {
    var c := CStr(line);
    c[..UntilLf(c)]
  }

  /** The dictionary words of a file, `room` at most. */
  function Loaded(file: Text, room: nat): (dict: seq<Text>)
    ensures |dict| <= room
    decreases |file|
  {
    if file == [] || room == 0 then []
    else
      var n := Taken(file, MAX_WORD_LEN - 1);
      [Chop(file[..n])] + Loaded(file[n..], room - 1)
  }

  lemma LoadedStep(file: Text, room: nat)
    requires file != [] && room > 0
    ensures var n := Taken(file, MAX_WORD_LEN - 1);
            0 < n <= |file| && Loaded(file, room) == [Chop(file[..n])] + Loaded(file[n..], room - 1)
  {
    hide Taken, Chop;
  }

  method LoadDict(file: Text) returns (dictionary: seq<Text>)
    ensures dictionary == Loaded(file, MAX_DICT_WORDS)
  {
    hide Chop, Taken, Loaded;
    dictionary := [];
    var rest := file;
    while rest != [] && |dictionary| < MAX_DICT_WORDS
      invariant |dictionary| <= MAX_DICT_WORDS
      invariant dictionary + Loaded(rest, MAX_DICT_WORDS - |dictionary|) == Loaded(file, MAX_DICT_WORDS)
      decreases |rest|
    {
      var n := Taken(rest, MAX_WORD_LEN - 1);
      ghost var room := MAX_DICT_WORDS - |dictionary|;
      LoadedStep(rest, room);
      assert dictionary + ([Chop(rest[..n])] + Loaded(rest[n..], room - 1))
          == (dictionary + [Chop(rest[..n])]) + Loaded(rest[n..], room - 1);
      dictionary := dictionary + [Chop(rest[..n])];
      rest := rest[n..];
    }
    NothingLoaded(rest, MAX_DICT_WORDS - |dictionary|);
  }

  /** A file of lines: each followed by a line feed. */
  function Lines(words: seq<Text>): Text
  {
    if words == [] then [] else words[0] + [LF] + Lines(words[1..])
  }

  /** Lines of at most 254 bytes are loaded as they are, blank ones as empty words, as many as there is room
      for. */
  lemma {:induction false} LinesLoaded(words: seq<Text>, room: nat)
    requires forall w :: w in words ==> |w| < MAX_WORD_LEN - 1 && LF !in w && NUL !in w
    ensures Loaded(Lines(words), room) == words[..Min(room, |words|)]
  {
    hide Taken, Chop, Loaded;
    if words == [] || room == 0 {
      NothingLoaded(Lines(words), room);
    } else {
      var w, file := words[0], Lines(words);
      assert forall v :: v in words[1..] ==> v in words;
      LineTaken(w, Lines(words[1..]), MAX_WORD_LEN - 1);
      assert file == w + [LF] + Lines(words[1..]);
      assert file[|w| + 1..] == Lines(words[1..]);
      assert file[..|w| + 1] == w + [LF];
      ChopLine(w);
      LoadedStep(file, room);
      LinesLoaded(words[1..], room - 1);
      assert [w] + words[1..][..Min(room - 1, |words| - 1)] == words[..Min(room, |words|)];
    }
  }

  /** `load_dict` on such lines: the first 1000 of them. */
  lemma FirstThousandLoaded(words: seq<Text>)
    requires forall w :: w in words ==> |w| < 255 && LF !in w && NUL !in w
    ensures Loaded(Lines(words), MAX_DICT_WORDS) == words[..Min(1000, |words|)]
  {
    LinesLoaded(words, MAX_DICT_WORDS);
  }

  lemma NothingLoaded(file: Text, room: nat)
    ensures file == [] || room == 0 ==> Loaded(file, room) == []
  {}

  lemma ChopLine(w: Text)
    requires LF !in w && NUL !in w
    ensures Chop(w + [LF]) == w && Chop(w) == w
  {
    CStrWhole(w + [LF]);
    CStrWhole(w);
    var line := w + [LF];
    var k := UntilLf(line);
    assert k <= |w| by { assert line[|w|] == LF; }
    assert forall x :: 0 <= x < |w| ==> line[x] in w;
    assert line[..|w|] == w && w[..|w|] == w;
  }

  lemma {:induction false} LineTaken(w: Text, more: Text, room: nat)
    requires |w| < room && LF !in w
    ensures Taken(w + [LF] + more, room) == |w| + 1
    decreases |w|
  {
    var file := w + [LF] + more;
    if w != [] {
      assert file[1..] == w[1..] + [LF] + more;
      LineTaken(w[1..], more, room - 1);
      assert file[0] in w;
    }
  }

  /** A line of exactly 255 bytes is loaded as that word followed by an empty one, which then keeps
      `censor_text` from ending. */
  lemma FullLineLeavesEmptyWord(w: Text, more: Text, room: nat)
    requires |w| == MAX_WORD_LEN - 1 && LF !in w && NUL !in w && room >= 2
    ensures Loaded(w + [LF] + more, room) == [w, []] + Loaded(more, room - 2)
  {
    var file := w + [LF] + more;
    var n := Taken(file, MAX_WORD_LEN - 1);
    assert file[..n] == w[..n];
    assert n == |w| && file[..n] == w && file[n..] == [LF] + more;
    ChopLine(w);
    var rest := [LF] + more;
    assert Taken(rest, MAX_WORD_LEN - 1) == 1;
    assert rest[..1] == [] + [LF] && rest[1..] == more;
    ChopLine([]);
  }
}
