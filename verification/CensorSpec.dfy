/** The word censor on values: what one scan with one word does, and what censoring a text means. */
module CensorSpec {
  import opened Bytes

  /** `isalnum` in the C locale. */
  predicate Alnum(b: byte) { 48 <= b <= 57 || 65 <= b <= 90 || 97 <= b <= 122 }

  predicate AlnumIn(t: Text, i: nat, j: nat)
    requires j <= |t|
  {
    forall k :: i <= k < j ==> Alnum(t[k])
  }

  /** A dictionary entry the censor is meant for. */
  predicate IsWord(w: Text) { w != [] && AlnumIn(w, 0, |w|) }

  // ---- the inner loop ----

  /** `strstr`: the first occurrence, or -1. */
  function Strstr(t: Text, w: Text): (k: int)
    ensures k == -1 || (0 <= k && k + |w| <= |t|)
  {
    if w <= t then 0
    else if t == [] then -1
    else
      var k := Strstr(t[1..], w);
      if k < 0 then -1 else k + 1
  }

  /** `result` cut at `pos`. */
  datatype Cursor = Cursor(done: Text, rest: Text)

  /** The text before, and from, `k` bytes past the cursor. */
  function Upto(c: Cursor, k: nat): Text
    requires k <= |c.rest|
  {
    c.done + c.rest[..k]
  }

  function From(c: Cursor, k: nat): (t: Text)
    requires k <= |c.rest|
    ensures |t| == |c.rest| - k
  {
    c.rest[k..]
  }

  predicate EndsInWord(t: Text) { t != [] && Alnum(t[|t| - 1]) }

  predicate StartsInWord(t: Text) { t != [] && Alnum(t[0]) }

  /** One turn of the loop: no match, so it ends; a match that is no whole word, passed by one byte; a whole
      word, replaced. `Lost` is the step beyond the terminating NUL, possible for an empty word only. */
  datatype Turn = Ends | Lost | Passed(next: Cursor) | Replaced(next: Cursor)

  function OneTurn(c: Cursor, w: Text, r: Text): Turn
  {
    var k := Strstr(c.rest, w);
    if k < 0 then Ends
    else
      if EndsInWord(Upto(c, k)) || StartsInWord(From(c, k + |w|)) then
        if k == |c.rest| then Lost else Passed(Cursor(Upto(c, k + 1), From(c, k + 1)))
      else Replaced(Cursor(Upto(c, k) + r, From(c, k + |w|)))
  }

  /** The text when the loop over one word ends. */
  function ReplaceWord(c: Cursor, w: Text, r: Text): Text
    requires w != []
    decreases |c.rest|
  {
    match OneTurn(c, w, r)
    case Ends => c.done + c.rest
    case Lost => c.done + c.rest
    case Passed(next) => ReplaceWord(next, w, r)
    case Replaced(next) => ReplaceWord(next, w, r)
  }

  /** `censor_text`: one scan per dictionary word, in dictionary order. */
  function Censor(t: Text, dict: seq<Text>, r: Text): Text
    requires [] !in dict
    decreases |dict|
  {
    if dict == [] then t else Censor(ReplaceWord(Cursor([], t), dict[0], r), dict[1..], r)
  }

  // ---- when the loop ends ----

  /** The state after `n` turns. */
  function Turns(n: nat, c: Cursor, w: Text, r: Text): Turn
  {
    if n == 0 then Passed(c)
    else
      var t := Turns(n - 1, c, w, r);
      if t.Ends? || t.Lost? then t else OneTurn(t.next, w, r)
  }

  lemma StrstrEmpty(t: Text)
    ensures Strstr(t, []) == 0
  {
    assert [] <= t;
  }

  lemma {:induction false} EmptyWordGoesOn(n: nat, c: Cursor, r: Text)
    ensures !Turns(n, c, [], r).Ends?
  {
    if n > 0 {
      EmptyWordGoesOn(n - 1, c, r);
      var t := Turns(n - 1, c, [], r);
      if !t.Lost? { StrstrEmpty(t.next.rest); }
    }
  }

  /** Every turn that goes on shortens what is left of a text by at least one byte. */
  lemma TurnShrinks(c: Cursor, w: Text, r: Text)
    requires w != []
    ensures var t := OneTurn(c, w, r); t.Ends? || ((t.Passed? || t.Replaced?) && |t.next.rest| < |c.rest|)
  {}

  lemma {:induction false} TurnsShrink(n: nat, c: Cursor, w: Text, r: Text)
    requires w != []
    ensures var t := Turns(n, c, w, r); t.Ends? || ((t.Passed? || t.Replaced?) && |t.next.rest| + n <= |c.rest|)
  {
    hide OneTurn;
    if n > 0 {
      TurnsShrink(n - 1, c, w, r);
      var t := Turns(n - 1, c, w, r);
      if !t.Ends? { TurnShrinks(t.next, w, r); }
    }
  }

  /** The loop over a word ends if and only if the word is not empty; then within one turn per byte left
      plus one. A blank dictionary line never lets it end. */
  lemma LoopEndsExactly(c: Cursor, w: Text, r: Text)
    ensures (exists n :: Turns(n, c, w, r).Ends?) <==> w != []
    ensures w != [] ==> Turns(|c.rest| + 1, c, w, r).Ends?
  {
    if w == [] {
      forall n: nat ensures !Turns(n, c, w, r).Ends? { EmptyWordGoesOn(n, c, r); }
    } else {
      TurnsShrink(|c.rest| + 1, c, w, r);
    }
  }

  // ---- what the left-boundary test finds ----

  /** The cursor stands before a suffix of `t`, and the left test at the next match comes out as it would on
      `t` itself. */
  predicate ReadsText(t: Text, c: Cursor, w: Text)
  {
    && |c.rest| <= |t| && c.rest == t[|t| - |c.rest|..]
    && var k := Strstr(c.rest, w);
       k >= 0 ==> EndsInWord(Upto(c, k)) == EndsInWord(t[..|t| - |c.rest| + k])
  }

  /** So it is after `n` turns over `t`, if the loop is still going. */
  predicate StillReadsText(n: nat, t: Text, w: Text, r: Text)
  {
    var u := Turns(n, Cursor([], t), w, r);
    u.Passed? || u.Replaced? ==> ReadsText(t, u.next, w)
  }

  lemma TurnReadsText(t: Text, c: Cursor, w: Text, r: Text)
    requires w != [] && (Alnum(w[0]) || EndsInWord(w) == EndsInWord(r)) && ReadsText(t, c, w)
    ensures var u := OneTurn(c, w, r); u.Passed? || u.Replaced? ==> ReadsText(t, u.next, w)
  {
    hide Strstr, Alnum, EndsInWord, StartsInWord, Upto, From, ReadsText;
    if OneTurn(c, w, r).Passed? {
      AfterPassed(t, c, w);
    } else if OneTurn(c, w, r).Replaced? {
      AfterReplaced(t, c, w, r);
    }
  }

  lemma AfterPassed(t: Text, c: Cursor, w: Text)
    requires w != [] && ReadsText(t, c, w) && 0 <= Strstr(c.rest, w) < |c.rest|
    ensures var k := Strstr(c.rest, w); ReadsText(t, Cursor(Upto(c, k + 1), From(c, k + 1)), w)
  {
    hide Strstr, Alnum;
    var k, p := Strstr(c.rest, w), |t| - |c.rest|;
    assert t[p..][k + 1..] == t[p + k + 1..];
    assert Upto(c, k + 1)[|c.done| + k] == t[p + k] == t[..p + k + 1][p + k];
    ReadsFrom(t, Cursor(Upto(c, k + 1), From(c, k + 1)), w);
  }

  lemma AfterReplaced(t: Text, c: Cursor, w: Text, r: Text)
    requires w != [] && (Alnum(w[0]) || EndsInWord(w) == EndsInWord(r)) && ReadsText(t, c, w)
    requires Strstr(c.rest, w) >= 0
    requires var k := Strstr(c.rest, w); !EndsInWord(Upto(c, k)) && !StartsInWord(From(c, k + |w|))
    ensures var k := Strstr(c.rest, w); ReadsText(t, Cursor(Upto(c, k) + r, From(c, k + |w|)), w)
  {
    hide Strstr, Alnum, EndsInWord, StartsInWord, Upto, From;
    var k, p := Strstr(c.rest, w), |t| - |c.rest|;
    var next := Cursor(Upto(c, k) + r, From(c, k + |w|));
    RestAfter(t, p, k + |w|, c);
    if Strstr(next.rest, w) == 0 {
      StrstrAtFront(next.rest, w);
      PastTheMatch(t, p, c, w);
      EndsOf(Upto(c, k), r);
    }
    ReadsFrom(t, next, w);
  }

  lemma RestAfter(t: Text, p: nat, n: nat, c: Cursor)
    requires p + n <= |t| && c.rest == t[p..]
    ensures From(c, n) == t[p + n..]
  {}

  lemma PastTheMatch(t: Text, p: nat, c: Cursor, w: Text)
    requires w != [] && p <= |t| && c.rest == t[p..] && Strstr(c.rest, w) >= 0
    ensures var q := p + Strstr(c.rest, w) + |w|; q <= |t| && EndsInWord(t[..q]) == EndsInWord(w)
  {
    hide Strstr;
    StrstrHit(c.rest, w);
    var k := Strstr(c.rest, w);
    var q := p + k + |w|;
    assert t[..q][q - 1] == c.rest[k..][|w| - 1] == w[|w| - 1];
  }

  lemma StrstrAtFront(t: Text, w: Text)
    requires w != [] && Strstr(t, w) == 0
    ensures StartsInWord(t) == Alnum(w[0])
  {}

  lemma EndsOf(a: Text, b: Text)
    requires !EndsInWord(a)
    ensures EndsInWord(a + b) == EndsInWord(b)
  {
    if b == [] { assert a + b == a; }
  }

  lemma ReadsFrom(t: Text, c: Cursor, w: Text)
    requires |c.rest| <= |t| && c.rest == t[|t| - |c.rest|..]
    requires Strstr(c.rest, w) == 0 ==> EndsInWord(c.done) == EndsInWord(t[..|t| - |c.rest|])
    ensures ReadsText(t, c, w)
  {
    var k, p := Strstr(c.rest, w), |t| - |c.rest|;
    if k > 0 {
      assert Upto(c, k)[|c.done| + k - 1] == t[..p + k][p + k - 1];
    } else if k == 0 {
      assert Upto(c, 0) == c.done;
    }
  }

  lemma {:induction false} TurnsReadText(n: nat, t: Text, w: Text, r: Text)
    requires w != [] && (Alnum(w[0]) || EndsInWord(w) == EndsInWord(r))
    ensures StillReadsText(n, t, w, r)
  {
    hide OneTurn, ReadsText;
    if n == 0 {
      assert t[0..] == t && t[..0] == [];
      ReadsFrom(t, Cursor([], t), w);
    } else {
      TurnsReadText(n - 1, t, w, r);
      var u := Turns(n - 1, Cursor([], t), w, r);
      if u.Passed? || u.Replaced? { TurnReadsText(t, u.next, w, r); }
    }
  }

  /** The left test comes out as on the text being censored, in every turn over every text, if and only if the
      word starts with a letter or digit, or it and the replacement end alike. Otherwise the word written
      twice is told apart. */
  lemma LeftTestExactly(w: Text, r: Text)
    requires w != []
    ensures (forall n: nat, t: Text :: StillReadsText(n, t, w, r)) <==> Alnum(w[0]) || EndsInWord(w) == EndsInWord(r)
  {
    if Alnum(w[0]) || EndsInWord(w) == EndsInWord(r) {
      forall n: nat, t: Text ensures StillReadsText(n, t, w, r) { TurnsReadText(n, t, w, r); }
    } else {
      Twice(w, r);
      var d := Cursor(r, w);
      assert Upto(d, 0) == r && (w + w)[..|w|] == w;
      assert !StillReadsText(1, w + w, w, r);
    }
  }

  /** On the word written twice the first turn replaces, and the next match is at the cursor. */
  lemma Twice(w: Text, r: Text)
    requires w != [] && !Alnum(w[0])
    ensures Turns(0, Cursor([], w + w), w, r) == Passed(Cursor([], w + w))
    ensures Turns(1, Cursor([], w + w), w, r) == Replaced(Cursor(r, w))
    ensures Strstr(w + w, w) == 0 && Strstr(w, w) == 0
  {
    var c := Cursor([], w + w);
    assert c.rest[|w|..] == w && w[|w|..] == [];
    assert Strstr(c.rest, w) == 0 && Strstr(w, w) == 0;
    assert Upto(c, 0) == [] && From(c, |w|) == w;
    assert [] + r == r;
    assert OneTurn(c, w, r) == Replaced(Cursor(r, w));
    assert Turns(0, c, w, r) == Passed(c);
  }

  // ---- which bytes the left-boundary test reads ----

  function Times(n: nat, b: bool): (s: seq<bool>)
    ensures |s| == n && forall k :: 0 <= k < n ==> s[k] == b
  {
    seq(n, _ => b)
  }

  /** For every byte before the cursor after `n` turns over `t`: is it inserted? */
  function Inserted(n: nat, t: Text, w: Text, r: Text): seq<bool>
  {
    if n == 0 then []
    else
      var u := Turns(n - 1, Cursor([], t), w, r);
      if u.Ends? || u.Lost? then Inserted(n - 1, t, w, r)
      else
        var k := Strstr(u.next.rest, w);
        match OneTurn(u.next, w, r)
        case Ends => Inserted(n - 1, t, w, r)
        case Lost => Inserted(n - 1, t, w, r)
        case Passed(_) => Inserted(n - 1, t, w, r) + Times(k + 1, false)
        case Replaced(_) => Inserted(n - 1, t, w, r) + Times(k, false) + Times(|r|, true)
  }

  lemma InsertedNext(n: nat, t: Text, w: Text, r: Text)
    requires n > 0
    ensures var before, u := Inserted(n - 1, t, w, r), Turns(n - 1, Cursor([], t), w, r);
            Inserted(n, t, w, r)
              == if u.Ends? || u.Lost? then before
                 else if OneTurn(u.next, w, r).Passed? then before + Times(Strstr(u.next.rest, w) + 1, false)
                 else if OneTurn(u.next, w, r).Replaced?
                 then before + Times(Strstr(u.next.rest, w), false) + Times(|r|, true)
                 else before
  {
    hide OneTurn, Strstr, Turns;
  }

  lemma NoneInsertedYet(t: Text, w: Text, r: Text)
    ensures Inserted(0, t, w, r) == [] && Turns(0, Cursor([], t), w, r) == Passed(Cursor([], t))
  {}

  lemma TurnGrows(c: Cursor, w: Text, r: Text)
    ensures var k, u := Strstr(c.rest, w), OneTurn(c, w, r);
            (u.Passed? || u.Replaced? ==> k >= 0)
            && (u.Passed? ==> |u.next.done| == |c.done| + k + 1)
            && (u.Replaced? ==> |u.next.done| == |c.done| + k + |r|)
  {
    hide Strstr, EndsInWord, StartsInWord;
  }

  /** There is one mark for every byte before the cursor. */
  lemma {:induction false} InsertedFits(n: nat, t: Text, w: Text, r: Text)
    ensures var u := Turns(n, Cursor([], t), w, r);
            u.Passed? || u.Replaced? ==> |Inserted(n, t, w, r)| == |u.next.done|
  {
    hide Inserted, Strstr, OneTurn;
    NoneInsertedYet(t, w, r);
    if n > 0 {
      InsertedFits(n - 1, t, w, r);
      InsertedNext(n, t, w, r);
      var u := Turns(n - 1, Cursor([], t), w, r);
      if u.Passed? || u.Replaced? { TurnGrows(u.next, w, r); }
    }
  }

  /** After `n` turns over `t` a match is found and the byte before it, which the left test reads, is inserted. */
  predicate ReadsInserted(n: nat, t: Text, w: Text, r: Text)
  {
    var u := Turns(n, Cursor([], t), w, r);
    && (u.Passed? || u.Replaced?)
    && var k, marks := Strstr(u.next.rest, w), Inserted(n, t, w, r);
       k >= 0 && var before := marks + Times(k, false); before != [] && before[|before| - 1]
  }

  /** An inserted byte stands before a match only right after a replacement, and then at the cursor. */
  lemma InsertedLast(n: nat, t: Text, w: Text, r: Text)
    requires ReadsInserted(n, t, w, r)
    ensures Inserted(n, t, w, r) != [] && Inserted(n, t, w, r)[|Inserted(n, t, w, r)| - 1]
    ensures Turns(n, Cursor([], t), w, r).Replaced? && Strstr(Turns(n, Cursor([], t), w, r).next.rest, w) == 0
  {
    hide Strstr, OneTurn, Inserted;
    NoneInsertedYet(t, w, r);
    if n > 0 {
      InsertedNext(n, t, w, r);
      var u := Turns(n - 1, Cursor([], t), w, r);
      if u.Passed? || u.Replaced? { TurnGrows(u.next, w, r); }
    }
  }

  lemma {:induction false} NothingInserted(n: nat, t: Text, w: Text)
    ensures forall k :: 0 <= k < |Inserted(n, t, w, [])| ==> !Inserted(n, t, w, [])[k]
  {
    hide Inserted, Strstr, OneTurn, Turns;
    NoneInsertedYet(t, w, []);
    if n > 0 {
      NothingInserted(n - 1, t, w);
      InsertedNext(n, t, w, []);
    }
  }

  /** After a replacement a word that starts with a letter or digit does not stand at the cursor. */
  lemma NoMatchBehind(n: nat, t: Text, w: Text, r: Text)
    requires w != [] && Alnum(w[0]) && Turns(n, Cursor([], t), w, r).Replaced?
    ensures Strstr(Turns(n, Cursor([], t), w, r).next.rest, w) != 0
  {
    var u := Turns(n, Cursor([], t), w, r);
    if Strstr(u.next.rest, w) == 0 { StrstrAtFront(u.next.rest, w); }
  }

  /** The left test never reads an inserted byte, in any turn over any text, if and only if the word starts
      with a letter or digit or nothing is inserted at all. Otherwise it does on the word written twice. */
  lemma NeverReadsInserted(w: Text, r: Text)
    requires w != []
    ensures (forall n: nat, t: Text :: !ReadsInserted(n, t, w, r)) <==> Alnum(w[0]) || r == []
  {
    hide ReadsInserted, Turns, Inserted;
    if Alnum(w[0]) || r == [] {
      forall n: nat, t: Text ensures !ReadsInserted(n, t, w, r)
      {
        if ReadsInserted(n, t, w, r) {
          InsertedLast(n, t, w, r);
          if r == [] { NothingInserted(n, t, w); } else { NoMatchBehind(n, t, w, r); }
        }
      }
    } else {
      TwiceReadsInserted(w, r);
    }
  }

  lemma TwiceReadsInserted(w: Text, r: Text)
    requires w != [] && !Alnum(w[0]) && r != []
    ensures ReadsInserted(1, w + w, w, r)
  {
    hide Turns, OneTurn, Strstr, Inserted;
    Twice(w, r);
    InsertedNext(1, w + w, w, r);
    FirstTurnReplaces(w, r);
  }

  lemma FirstTurnReplaces(w: Text, r: Text)
    requires w != [] && Turns(1, Cursor([], w + w), w, r).Replaced?
    ensures Inserted(0, w + w, w, r) == [] && OneTurn(Cursor([], w + w), w, r).Replaced?
  {
    assert Turns(0, Cursor([], w + w), w, r) == Passed(Cursor([], w + w));
  }

  // ---- a byte-by-byte reading of the same loop ----

  /** At every position from left to right: replace the word if it stands here as a whole word, otherwise
      keep one byte. */
  function Sweep(done: Text, rest: Text, w: Text, r: Text): Text
    requires w != []
    decreases |rest|
  {
    if rest == [] then done
    else if w <= rest && !EndsInWord(done) && !StartsInWord(rest[|w|..]) then Sweep(done + r, rest[|w|..], w, r)
    else Sweep(done + [rest[0]], rest[1..], w, r)
  }

  /** Positions before the first occurrence are kept. */
  lemma {:induction false} SweepTo(done: Text, rest: Text, w: Text, r: Text, k: nat)
    requires w != [] && (if Strstr(rest, w) >= 0 then k <= Strstr(rest, w) else k <= |rest|)
    ensures k <= |rest| && Sweep(done, rest, w, r) == Sweep(done + rest[..k], rest[k..], w, r)
    decreases k
  {
    hide Alnum, EndsInWord, StartsInWord;
    if k == 0 {
      assert done + rest[..0] == done && rest[0..] == rest;
    } else {
      SweepKeeps(done, rest, w, r);
      SweepTo(done + [rest[0]], rest[1..], w, r, k - 1);
      assert done + [rest[0]] + rest[1..][..k - 1] == done + rest[..k];
      assert rest[1..][k - 1..] == rest[k..];
    }
  }

  lemma SweepKeeps(done: Text, rest: Text, w: Text, r: Text)
    requires w != [] && rest != [] && Strstr(rest, w) != 0
    ensures Sweep(done, rest, w, r) == Sweep(done + [rest[0]], rest[1..], w, r)
    ensures Strstr(rest, w) == if Strstr(rest[1..], w) < 0 then -1 else Strstr(rest[1..], w) + 1
  {}

  lemma {:induction false} StrstrHit(t: Text, w: Text)
    requires Strstr(t, w) >= 0
    ensures w <= t[Strstr(t, w)..]
    decreases |t|
  {
    var k := Strstr(t, w);
    if k == 0 {
      assert t[0..] == t;
    } else {
      StrstrHit(t[1..], w);
      assert t[1..][k - 1..] == t[k..];
    }
  }

  lemma SweepHere(done: Text, here: Text, w: Text, r: Text)
    requires w != [] && w <= here
    ensures Sweep(done, here, w, r) == if EndsInWord(done) || StartsInWord(here[|w|..])
                                       then Sweep(done + [here[0]], here[1..], w, r)
                                       else Sweep(done + r, here[|w|..], w, r)
  {}

  lemma LoopStep(c: Cursor, w: Text, r: Text)
    requires w != []
    ensures var k := Strstr(c.rest, w);
            ReplaceWord(c, w, r)
              == if k < 0 then c.done + c.rest
                 else if EndsInWord(Upto(c, k)) || StartsInWord(From(c, k + |w|))
                 then ReplaceWord(Cursor(Upto(c, k + 1), From(c, k + 1)), w, r)
                 else ReplaceWord(Cursor(Upto(c, k) + r, From(c, k + |w|)), w, r)
  {
    hide Strstr, EndsInWord, StartsInWord, Upto;
  }

  /** The loop of `censor_text` is the byte-by-byte sweep. */
  lemma {:induction false} LoopIsSweep(c: Cursor, w: Text, r: Text)
    requires w != []
    ensures ReplaceWord(c, w, r) == Sweep(c.done, c.rest, w, r)
    decreases |c.rest|
  {
    hide Sweep, ReplaceWord, Strstr, Alnum, EndsInWord, StartsInWord;
    LoopStep(c, w, r);
    var k := Strstr(c.rest, w);
    if k < 0 {
      SweepTo(c.done, c.rest, w, r, |c.rest|);
      assert c.rest[..|c.rest|] == c.rest && c.rest[|c.rest|..] == [];
      SweepEnd(c.done + c.rest, w, r);
    } else {
      SweepTo(c.done, c.rest, w, r, k);
      StrstrHit(c.rest, w);
      var before, here := c.done + c.rest[..k], c.rest[k..];
      assert here[|w|..] == c.rest[k + |w|..];
      SweepHere(before, here, w, r);
      if EndsInWord(before) || StartsInWord(here[|w|..]) {
        assert before + [here[0]] == c.done + c.rest[..k + 1];
        assert here[1..] == c.rest[k + 1..];
        LoopIsSweep(Cursor(Upto(c, k + 1), From(c, k + 1)), w, r);
      } else {
        LoopIsSweep(Cursor(Upto(c, k) + r, From(c, k + |w|)), w, r);
      }
    }
  }

  lemma SweepEnd(done: Text, w: Text, r: Text)
    requires w != []
    ensures Sweep(done, [], w, r) == done
  {}

  // ---- what censoring means ----

  /** The length of the alphanumeric run at the front. */
  function RunLen(t: Text): (n: nat)
    ensures n <= |t| && AlnumIn(t, 0, n) && (n < |t| ==> !Alnum(t[n]))
  {
    if StartsInWord(t) then
      var n := 1 + RunLen(t[1..]);
      assert forall k :: 1 <= k < n ==> t[k] == t[1..][k - 1];
      n
    else 0
  }

  /** Replace exactly the maximal alphanumeric runs that are in `words`. */
  function Mask(t: Text, words: set<Text>, r: Text): Text
    decreases |t|
  {
    if t == [] then []
    else if !Alnum(t[0]) then [t[0]] + Mask(t[1..], words, r)
    else
      var n := RunLen(t);
      (if t[..n] in words then r else t[..n]) + Mask(t[n..], words, r)
  }

  /** The rest of a text whose beginning is inside a run already. */
  function MaskFrom(inWord: bool, t: Text, words: set<Text>, r: Text): Text
  {
    if inWord then t[..RunLen(t)] + Mask(t[RunLen(t)..], words, r) else Mask(t, words, r)
  }

  /** `t[i..j]` is a maximal alphanumeric run. */
  predicate IsRun(t: Text, i: nat, j: nat)
  {
    && i < j <= |t| && AlnumIn(t, i, j)
    && (i > 0 ==> !Alnum(t[i - 1])) && (j < |t| ==> !Alnum(t[j]))
  }

  /** No word occurs as a whole word. */
  ghost predicate FreeOf(t: Text, words: set<Text>)
  {
    forall i: nat, j: nat :: IsRun(t, i, j) ==> t[i..j] !in words
  }
}
