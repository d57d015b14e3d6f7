/** Laws of the word censor: scanning with one word is masking that word, scanning with a dictionary is
    masking the dictionary, and exactly when. */
module CensorLaws {
  import opened Bytes
  import opened CensorSpec

  lemma RunLenIs(t: Text, n: nat)
    requires n <= |t| && AlnumIn(t, 0, n) && (n < |t| ==> !Alnum(t[n]))
    ensures RunLen(t) == n
  {
  }

  /** Scanning for one word masks the runs equal to it, wherever the cursor stands. */
  lemma {:induction false} SweepIsMask(done: Text, rest: Text, w: Text, r: Text)
    requires IsWord(w)
    ensures Sweep(done, rest, w, r) == done + MaskFrom(EndsInWord(done), rest, {w}, r)
    decreases |rest|
  {
    if rest == [] {
    } else if w <= rest && !EndsInWord(done) && !StartsInWord(rest[|w|..]) {
      SweepHit(done, rest, w, r);
    } else {
      SweepIsMask(done + [rest[0]], rest[1..], w, r);
      SweepMiss(done, rest, w, r);
    }
  }

  lemma {:induction false} SweepHit(done: Text, rest: Text, w: Text, r: Text)
    requires IsWord(w) && w <= rest && !EndsInWord(done) && !StartsInWord(rest[|w|..])
    ensures Sweep(done, rest, w, r) == done + Mask(rest, {w}, r)
    decreases |rest|, 0
  {
    hide Mask, MaskFrom;
    var tail := rest[|w|..];
    SweepIsMask(done + r, tail, w, r);
    OutsideRun(EndsInWord(done + r), tail, {w}, r);
    assert rest[..|w|] == w && rest[0] == w[0];
    RunLenIs(rest, |w|);
    MaskWord(rest, {w}, r);
    SameTail(done, r, Mask(tail, {w}, r));
  }

  lemma OutsideRun(inWord: bool, t: Text, words: set<Text>, r: Text)
    requires !StartsInWord(t)
    ensures MaskFrom(inWord, t, words, r) == Mask(t, words, r)
  {
    RunLenIs(t, 0);
  }

  /** One byte kept, one byte further: the masks agree. */
  lemma SweepMiss(done: Text, rest: Text, w: Text, r: Text)
    requires IsWord(w) && rest != []
    requires !(w <= rest && !EndsInWord(done) && !StartsInWord(rest[|w|..]))
    ensures done + [rest[0]] + MaskFrom(EndsInWord(done + [rest[0]]), rest[1..], {w}, r)
         == done + MaskFrom(EndsInWord(done), rest, {w}, r)
  {
    hide Mask;
    var c := rest[0];
    assert EndsInWord(done + [c]) == Alnum(c);
    if Alnum(c) {
      if !EndsInWord(done) { NoHit(done, rest, w); }
      MaskInside(rest, {w}, r);
      MaskWord(rest, {w}, r);
    } else {
      RunLenIs(rest, 0);
      MaskSeparator(rest, {w}, r);
    }
    SameTail(done, [c], MaskFrom(EndsInWord(done + [c]), rest[1..], {w}, r));
  }

  lemma SameTail(a: Text, b: Text, c: Text)
    ensures a + b + c == a + (b + c)
  {}

  lemma MaskSeparator(t: Text, words: set<Text>, r: Text)
    requires t != [] && !Alnum(t[0])
    ensures Mask(t, words, r) == [t[0]] + Mask(t[1..], words, r)
    ensures t[..0] + Mask(t[0..], words, r) == Mask(t, words, r)
  {
    assert t[0..] == t;
  }

  lemma MaskWord(t: Text, words: set<Text>, r: Text)
    requires t != [] && Alnum(t[0])
    ensures Mask(t, words, r) == (if t[..RunLen(t)] in words then r else t[..RunLen(t)]) + Mask(t[RunLen(t)..], words, r)
  {}

  lemma MaskInside(t: Text, words: set<Text>, r: Text)
    requires t != [] && Alnum(t[0])
    ensures MaskFrom(true, t, words, r) == [t[0]] + MaskFrom(true, t[1..], words, r)
  {
    hide Mask;
    var m := RunLen(t[1..]);
    assert RunLen(t) == m + 1;
    assert [t[0]] + t[1..][..m] == t[..m + 1] && t[1..][m..] == t[m + 1..];
    SameTail([t[0]], t[1..][..m], Mask(t[m + 1..], words, r));
  }

  lemma NoHit(done: Text, rest: Text, w: Text)
    requires IsWord(w) && rest != [] && !EndsInWord(done)
    requires !(w <= rest && !StartsInWord(rest[|w|..]))
    ensures rest[..RunLen(rest)] != w
  {
  }

  /** `censor_text` with a single word. */
  lemma OneWord(t: Text, w: Text, r: Text)
    requires IsWord(w)
    ensures ReplaceWord(Cursor([], t), w, r) == Mask(t, {w}, r)
  {
    LoopIsSweep(Cursor([], t), w, r);
    SweepIsMask([], t, w, r);
  }

  // ---- masking piece by piece ----

  /** No run crosses the seam of `a + b`. */
  predicate Seam(a: Text, b: Text) { !EndsInWord(a) || !StartsInWord(b) }

  lemma {:induction false} MaskSeam(a: Text, b: Text, words: set<Text>, r: Text)
    requires Seam(a, b)
    ensures Mask(a + b, words, r) == Mask(a, words, r) + Mask(b, words, r)
    decreases |a|
  {
    hide Mask;
    if a == [] {
      assert a + b == b;
      MaskEmpty(words, r);
    } else if !Alnum(a[0]) {
      MaskSeam(a[1..], b, words, r);
      assert (a + b)[1..] == a[1..] + b;
      MaskSeparator(a, words, r);
      MaskSeparator(a + b, words, r);
      SameTail([a[0]], Mask(a[1..], words, r), Mask(b, words, r));
    } else {
      var n := RunLen(a);
      assert (a + b)[..n] == a[..n] && (a + b)[n..] == a[n..] + b;
      assert forall k :: 0 <= k < n ==> (a + b)[k] == a[k];
      RunLenIs(a + b, n);
      MaskSeam(a[n..], b, words, r);
      MaskWord(a, words, r);
      MaskWord(a + b, words, r);
      SameTail(if a[..n] in words then r else a[..n], Mask(a[n..], words, r), Mask(b, words, r));
    }
  }

  lemma MaskEmpty(words: set<Text>, r: Text)
    ensures Mask([], words, r) == []
  {}

  /** Masking keeps what is not alphanumeric, so it keeps seams. */
  lemma {:induction false} MaskKeepsEnd(a: Text, words: set<Text>, r: Text)
    requires !EndsInWord(a)
    ensures !EndsInWord(Mask(a, words, r))
    decreases |a|
  {
    if a != [] {
      var n := if Alnum(a[0]) then RunLen(a) else 1;
      MaskKeepsEnd(a[n..], words, r);
      if n < |a| { MaskNonempty(a[n..], words, r); }
    }
  }

  lemma MaskNonempty(a: Text, words: set<Text>, r: Text)
    requires a != [] && !EndsInWord(a)
    ensures Mask(a, words, r) != []
    decreases |a|
  {
    if Alnum(a[0]) {
      var n := RunLen(a);
      MaskNonempty(a[n..], words, r);
    }
  }

  lemma MaskKeepsSeam(a: Text, b: Text, words: set<Text>, r: Text)
    requires Seam(a, b)
    ensures Seam(Mask(a, words, r), Mask(b, words, r))
  {
    if !EndsInWord(a) {
      MaskKeepsEnd(a, words, r);
    }
  }

  lemma MaskRun(w: Text, words: set<Text>, r: Text)
    requires IsWord(w)
    ensures Mask(w, words, r) == if w in words then r else w
  {
    assert w[..|w|] == w;
    RunLenIs(w, |w|);
  }

  lemma {:induction false} CensorSeam(a: Text, b: Text, dict: seq<Text>, r: Text)
    requires Seam(a, b) && [] !in dict && forall w :: w in dict ==> IsWord(w)
    ensures Censor(a + b, dict, r) == Censor(a, dict, r) + Censor(b, dict, r)
    decreases |dict|
  {
    if dict != [] {
      var w := dict[0];
      OneWord(a, w, r);
      OneWord(b, w, r);
      OneWord(a + b, w, r);
      MaskSeam(a, b, {w}, r);
      MaskKeepsSeam(a, b, {w}, r);
      CensorSeam(Mask(a, {w}, r), Mask(b, {w}, r), dict[1..], r);
    }
  }

  lemma {:induction false} CensorSplit(t: Text, a: seq<Text>, b: seq<Text>, r: Text)
    requires [] !in a && [] !in b && [] !in a + b
    ensures Censor(t, a + b, r) == Censor(Censor(t, a, r), b, r)
    decreases |a|
  {
    if a == [] {
      assert a + b == b;
    } else {
      assert (a + b)[0] == a[0] && (a + b)[1..] == a[1..] + b;
      CensorSplit(ReplaceWord(Cursor([], t), a[0], r), a[1..], b, r);
    }
  }

  /** A byte that belongs to no run is never touched. */
  lemma {:induction false} CensorSeparator(c: byte, dict: seq<Text>, r: Text)
    requires !Alnum(c) && [] !in dict && forall w :: w in dict ==> IsWord(w)
    ensures Censor([c], dict, r) == [c]
    decreases |dict|
  {
    hide Mask, ReplaceWord;
    if dict != [] {
      OneWord([c], dict[0], r);
      MaskSeparator([c], {dict[0]}, r);
      MaskEmpty({dict[0]}, r);
      var t: Text := [c];
      assert t[1..] == [];
      assert Mask(t, {dict[0]}, r) == t;
      CensorSeparator(c, dict[1..], r);
    }
  }

  lemma {:induction false} CensorOther(w: Text, dict: seq<Text>, r: Text)
    requires IsWord(w) && w !in dict && [] !in dict && forall v :: v in dict ==> IsWord(v)
    ensures Censor(w, dict, r) == w
    decreases |dict|
  {
    if dict != [] {
      OneWord(w, dict[0], r);
      MaskRun(w, {dict[0]}, r);
      CensorOther(w, dict[1..], r);
    }
  }

  function FirstIndex(dict: seq<Text>, w: Text): (i: nat)
    requires w in dict
    ensures i < |dict| && dict[i] == w && w !in dict[..i]
  {
    if dict[0] == w then 0
    else
      var i := 1 + FirstIndex(dict[1..], w);
      assert dict[..i] == [dict[0]] + dict[1..][..i - 1];
      i
  }

  /** A run that is in the dictionary: replaced at its first entry, then the replacement meets the words
      after it. */
  lemma CensorRun(w: Text, dict: seq<Text>, r: Text, i: nat)
    requires i < |dict| && dict[i] == w && w !in dict[..i]
    requires [] !in dict && forall v :: v in dict ==> IsWord(v)
    ensures Censor(w, dict, r) == Censor(r, dict[i + 1..], r)
  {
    var a, b := dict[..i], dict[i..];
    assert dict == a + b;
    assert forall v :: v in a || v in b ==> v in dict;
    CensorSplit(w, a, b, r);
    CensorOther(w, a, r);
    OneWord(w, w, r);
    MaskRun(w, {w}, r);
    assert b[0] == w && b[1..] == dict[i + 1..];
  }

  // ---- the result when the replacement is stable ----

  function Words(dict: seq<Text>): set<Text> { set w | w in dict }

  /** The replacement passes unchanged through the words after each first entry. */
  ghost predicate ReplacementStable(dict: seq<Text>, r: Text)
    requires [] !in dict
  {
    forall i :: 0 <= i < |dict| && dict[i] !in dict[..i] ==> Censor(r, dict[i + 1..], r) == r
  }

  lemma {:induction false} StableIsMask(t: Text, dict: seq<Text>, r: Text)
    requires [] !in dict && (forall w :: w in dict ==> IsWord(w)) && ReplacementStable(dict, r)
    ensures Censor(t, dict, r) == Mask(t, Words(dict), r)
    decreases |t|
  {
    if t == [] {
      CensorNothing(dict, r);
    } else if !Alnum(t[0]) {
      assert t == [t[0]] + t[1..];
      CensorSeam([t[0]], t[1..], dict, r);
      CensorSeparator(t[0], dict, r);
      StableIsMask(t[1..], dict, r);
    } else {
      var n := RunLen(t);
      var w := t[..n];
      assert t == w + t[n..];
      CensorSeam(w, t[n..], dict, r);
      StableIsMask(t[n..], dict, r);
      if w in dict {
        CensorRun(w, dict, r, FirstIndex(dict, w));
      } else {
        CensorOther(w, dict, r);
      }
    }
  }

  lemma {:induction false} CensorNothing(dict: seq<Text>, r: Text)
    requires [] !in dict && forall w :: w in dict ==> IsWord(w)
    ensures Censor([], dict, r) == []
    decreases |dict|
  {
    if dict != [] {
      OneWord([], dict[0], r);
      CensorNothing(dict[1..], r);
    }
  }

  // ---- replacements without dictionary words ----

  /** Cutting where no run is cut. */
  lemma FreeTail(t: Text, n: nat, words: set<Text>)
    requires n <= |t| && FreeOf(t, words)
    requires n == 0 || n == |t| || !Alnum(t[n - 1]) || !Alnum(t[n])
    ensures FreeOf(t[n..], words)
  {
    forall i: nat, j: nat | IsRun(t[n..], i, j) ensures t[n..][i..j] !in words
    {
      assert t[n..][i..j] == t[n + i..n + j];
      assert forall k :: n + i <= k < n + j ==> t[k] == t[n..][k - n];
      assert IsRun(t, n + i, n + j);
    }
  }

  lemma {:induction false} MaskFree(t: Text, words: set<Text>, r: Text)
    requires FreeOf(t, words)
    ensures Mask(t, words, r) == t
    decreases |t|
  {
    hide Mask, FreeOf;
    if t == [] {
      MaskEmpty(words, r);
    } else if !Alnum(t[0]) {
      FreeTail(t, 1, words);
      MaskFree(t[1..], words, r);
      MaskSeparator(t, words, r);
    } else {
      var n := RunLen(t);
      FreeTail(t, n, words);
      MaskFree(t[n..], words, r);
      MaskWord(t, words, r);
      FirstRunFree(t, words);
    }
  }

  lemma FirstRunFree(t: Text, words: set<Text>)
    requires StartsInWord(t) && FreeOf(t, words)
    ensures t[..RunLen(t)] !in words
  {
    assert IsRun(t, 0, RunLen(t));
    assert t[0..RunLen(t)] == t[..RunLen(t)];
  }

  lemma FewerWords(t: Text, more: set<Text>, fewer: set<Text>)
    requires FreeOf(t, more) && fewer <= more
    ensures FreeOf(t, fewer)
  {
    forall i: nat, j: nat | IsRun(t, i, j) ensures t[i..j] !in fewer {}
  }

  lemma {:induction false} CensorFree(t: Text, dict: seq<Text>, r: Text)
    requires [] !in dict && (forall w :: w in dict ==> IsWord(w)) && FreeOf(t, Words(dict))
    ensures Censor(t, dict, r) == t
    decreases |dict|
  {
    if dict != [] {
      OneWord(t, dict[0], r);
      FewerWords(t, Words(dict), {dict[0]});
      FewerWords(t, Words(dict), Words(dict[1..]));
      MaskFree(t, {dict[0]}, r);
      CensorFree(t, dict[1..], r);
    }
  }

  /** The main theorem: alphanumeric words, and no run of the replacement is one of them. */
  lemma CensorIsMask(t: Text, dict: seq<Text>, r: Text)
    requires [] !in dict && (forall w :: w in dict ==> IsWord(w)) && FreeOf(r, Words(dict))
    ensures Censor(t, dict, r) == Mask(t, Words(dict), r)
  {
    forall i | 0 <= i < |dict| && dict[i] !in dict[..i] ensures Censor(r, dict[i + 1..], r) == r
    {
      assert forall w :: w in dict[i + 1..] ==> w in dict;
      FewerWords(r, Words(dict), Words(dict[i + 1..]));
      CensorFree(r, dict[i + 1..], r);
    }
    StableIsMask(t, dict, r);
  }

  /** Neither the order of the dictionary nor repeated entries matter. */
  lemma OrderIrrelevant(t: Text, a: seq<Text>, b: seq<Text>, r: Text)
    requires [] !in a && [] !in b && (forall w :: w in a ==> IsWord(w))
    requires (forall w :: w in a <==> w in b) && FreeOf(r, Words(a))
    ensures Censor(t, a, r) == Censor(t, b, r)
  {
    assert Words(a) == Words(b);
    CensorIsMask(t, a, r);
    CensorIsMask(t, b, r);
  }

  lemma RunIncludes(t: Text, i: nat, j: nat, k: nat)
    requires IsRun(t, i, j) && i <= k < j
    ensures Alnum(t[k])
  {}

  lemma RunKeepsToOneSide(a: Text, b: Text, i: nat, j: nat)
    requires Seam(a, b) && IsRun(a + b, i, j)
    ensures j <= |a| || i >= |a|
  {
    if i < |a| && |a| < j {
      RunIncludes(a + b, i, j, |a| - 1);
      RunIncludes(a + b, i, j, |a|);
    }
  }

  lemma FreeSeam(a: Text, b: Text, words: set<Text>)
    requires Seam(a, b) && FreeOf(a, words) && FreeOf(b, words)
    ensures FreeOf(a + b, words)
  {
    var t := a + b;
    forall i: nat, j: nat | IsRun(t, i, j) ensures t[i..j] !in words
    {
      RunKeepsToOneSide(a, b, i, j);
      if j <= |a| {
        assert t[i..j] == a[i..j];
        assert forall k :: i <= k < j ==> a[k] == t[k];
        assert IsRun(a, i, j);
      } else {
        assert t[i..j] == b[i - |a|..j - |a|];
        assert forall k :: i - |a| <= k < j - |a| ==> b[k] == t[k + |a|];
        assert IsRun(b, i - |a|, j - |a|);
      }
    }
  }

  lemma OneRunFree(w: Text, words: set<Text>)
    requires IsWord(w) && w !in words
    ensures FreeOf(w, words)
  {
    forall i: nat, j: nat | IsRun(w, i, j) ensures w[i..j] !in words
    {
      assert i == 0 && j == |w|;
      assert w[0..|w|] == w;
    }
  }

  lemma {:induction false} MaskedIsFree(t: Text, words: set<Text>, r: Text)
    requires FreeOf(r, words)
    ensures FreeOf(Mask(t, words, r), words)
    decreases |t|
  {
    if t != [] && !Alnum(t[0]) {
      MaskedIsFree(t[1..], words, r);
      FreeSeam([t[0]], Mask(t[1..], words, r), words);
    } else if t != [] {
      var n := RunLen(t);
      MaskedIsFree(t[n..], words, r);
      if t[..n] !in words {
        OneRunFree(t[..n], words);
      }
      FreeSeam(if t[..n] in words then r else t[..n], Mask(t[n..], words, r), words);
    }
  }

  /** No dictionary word survives as a whole word, and censoring again changes nothing. */
  lemma CensoredIsClean(t: Text, dict: seq<Text>, r: Text)
    requires [] !in dict && (forall w :: w in dict ==> IsWord(w)) && FreeOf(r, Words(dict))
    ensures FreeOf(Censor(t, dict, r), Words(dict))
    ensures Censor(Censor(t, dict, r), dict, r) == Censor(t, dict, r)
  {
    CensorIsMask(t, dict, r);
    MaskedIsFree(t, Words(dict), r);
    CensorFree(Censor(t, dict, r), dict, r);
  }

  // ---- replacements with dictionary words ----

  function LongestRun(t: Text): (n: nat)
    ensures n <= |t| && (n == |t| > 0 ==> IsWord(t))
    decreases |t|
  {
    if t == [] then 0
    else if !Alnum(t[0]) then LongestRun(t[1..])
    else
      var n := RunLen(t);
      Larger(n, LongestRun(t[n..]))
  }

  function Larger(m: nat, n: nat): nat { if m < n then n else m }

  lemma {:induction false} LongestSeam(a: Text, b: Text)
    requires Seam(a, b)
    ensures LongestRun(a + b) == Larger(LongestRun(a), LongestRun(b))
    decreases |a|
  {
    if a == [] {
      assert a + b == b;
    } else if !Alnum(a[0]) {
      assert (a + b)[1..] == a[1..] + b;
      LongestSeam(a[1..], b);
    } else {
      var n := RunLen(a);
      assert forall k :: 0 <= k < n ==> (a + b)[k] == a[k];
      RunLenIs(a + b, n);
      assert (a + b)[n..] == a[n..] + b;
      LongestSeam(a[n..], b);
    }
  }

  lemma LongestOfRun(w: Text)
    requires IsWord(w)
    ensures LongestRun(w) == |w|
  {
    RunLenIs(w, |w|);
  }

  /** Masking makes no run longer than those of the text and of the replacement. */
  lemma {:induction false} MaskedRuns(t: Text, words: set<Text>, r: Text)
    ensures LongestRun(Mask(t, words, r)) <= Larger(LongestRun(t), LongestRun(r))
    decreases |t|
  {
    hide RunLen;
    if t != [] && !Alnum(t[0]) {
      MaskedRuns(t[1..], words, r);
      LongestSeam([t[0]], Mask(t[1..], words, r));
    } else if t != [] {
      var n := RunLen(t);
      var tail := t[n..];
      MaskedRuns(tail, words, r);
      assert !StartsInWord(tail) && !StartsInWord(Mask(tail, words, r));
      MaskWord(t, words, r);
      LongestSeam(if t[..n] in words then r else t[..n], Mask(tail, words, r));
      if t[..n] !in words {
        LongestOfRun(t[..n]);
      }
    }
  }

  /** When every run is shorter than the replacement, each hit lengthens the text. */
  lemma {:induction false} MaskGrows(t: Text, words: set<Text>, r: Text)
    requires LongestRun(t) < |r|
    ensures |Mask(t, words, r)| >= |t|
    ensures |Mask(t, words, r)| == |t| ==> FreeOf(t, words)
    decreases |t|
  {
    hide FreeOf;
    if t == [] {
      NothingFree(words);
    } else if !Alnum(t[0]) {
      MaskGrows(t[1..], words, r);
      assert t == [t[0]] + t[1..];
      SeparatorFree(t[0], words);
      if FreeOf(t[1..], words) { FreeSeam([t[0]], t[1..], words); }
    } else {
      var n := RunLen(t);
      MaskGrows(t[n..], words, r);
      assert t == t[..n] + t[n..];
      if t[..n] !in words && FreeOf(t[n..], words) {
        OneRunFree(t[..n], words);
        FreeSeam(t[..n], t[n..], words);
      }
    }
  }

  lemma NothingFree(words: set<Text>)
    ensures FreeOf([], words)
  {}

  lemma SeparatorFree(c: byte, words: set<Text>)
    requires !Alnum(c)
    ensures FreeOf([c], words)
  {
    var t: Text := [c];
    forall i: nat, j: nat ensures !IsRun(t, i, j)
    {
      assert i == 0 ==> !Alnum(t[i]);
    }
  }

  lemma MoreWords(t: Text, dict: seq<Text>)
    requires dict != [] && FreeOf(t, {dict[0]}) && FreeOf(t, Words(dict[1..]))
    ensures FreeOf(t, Words(dict))
  {
    forall i: nat, j: nat | IsRun(t, i, j) ensures t[i..j] !in Words(dict)
    {
      assert t[i..j] != dict[0];
      assert t[i..j] !in Words(dict[1..]);
    }
  }

  lemma {:induction false} CensorGrows(t: Text, dict: seq<Text>, r: Text)
    requires [] !in dict && forall w :: w in dict ==> IsWord(w)
    requires LongestRun(t) < |r| && LongestRun(r) < |r|
    ensures |Censor(t, dict, r)| >= |t|
    ensures |Censor(t, dict, r)| == |t| ==> FreeOf(t, Words(dict))
    decreases |dict|
  {
    hide LongestRun, Mask, FreeOf, ReplaceWord;
    if dict == [] {
      NoWords(t);
    } else {
      var u := Mask(t, {dict[0]}, r);
      OneWord(t, dict[0], r);
      MaskGrows(t, {dict[0]}, r);
      MaskedRuns(t, {dict[0]}, r);
      CensorGrows(u, dict[1..], r);
      if |Censor(u, dict[1..], r)| == |t| {
        MaskFree(t, {dict[0]}, r);
        MoreWords(t, dict);
      }
    }
  }

  lemma NoWords(t: Text)
    ensures FreeOf(t, Words([]))
  {}

  /** A replacement that is one run is swapped for itself by every word it meets. */
  lemma {:induction false} CensorOneRun(dict: seq<Text>, r: Text)
    requires [] !in dict && (forall w :: w in dict ==> IsWord(w)) && IsWord(r)
    ensures Censor(r, dict, r) == r
    decreases |dict|
  {
    if dict != [] {
      OneWord(r, dict[0], r);
      MaskRun(r, {dict[0]}, r);
      CensorOneRun(dict[1..], r);
    }
  }

  // ---- the exact law ----

  /** What a caller can check of a dictionary and a replacement: there is at most one word, or the replacement
      is a single run, or none of its runs is a word after the first. */
  ghost predicate ReplacementSafe(dict: seq<Text>, r: Text)
  {
    |dict| <= 1 || IsWord(r) || FreeOf(r, Words(dict[1..]))
  }

  lemma SafeIsStable(dict: seq<Text>, r: Text)
    requires [] !in dict && (forall w :: w in dict ==> IsWord(w)) && ReplacementSafe(dict, r)
    ensures ReplacementStable(dict, r)
  {
    forall i | 0 <= i < |dict| && dict[i] !in dict[..i] ensures Censor(r, dict[i + 1..], r) == r
    {
      var later := dict[i + 1..];
      assert forall w :: w in later ==> w in dict && w in dict[1..];
      if later == [] {
      } else if IsWord(r) {
        CensorOneRun(later, r);
      } else {
        FewerWords(r, Words(dict[1..]), Words(later));
        CensorFree(r, later, r);
      }
    }
  }

  /** Otherwise the first dictionary word is itself a text on which the two differ: the later words lengthen
      the replacement put in its place. */
  lemma UnsafeDiffers(dict: seq<Text>, r: Text)
    requires [] !in dict && (forall w :: w in dict ==> IsWord(w)) && !ReplacementSafe(dict, r)
    ensures |Censor(dict[0], dict, r)| > |Mask(dict[0], Words(dict), r)|
  {
    hide FreeOf;
    var w, later := dict[0], dict[1..];
    assert forall v :: v in later ==> v in dict;
    CensorRun(w, dict, r, 0);
    MaskRun(w, Words(dict), r);
    if r == [] { NothingFree(Words(later)); }
    CensorGrows(r, later, r);
  }

  /** The exact law. For alphanumeric words, `censor_text` replaces precisely the maximal runs that are in the
      dictionary, for every text, if and only if the replacement is safe. */
  lemma CensorIsMaskExactly(dict: seq<Text>, r: Text)
    requires [] !in dict && forall w :: w in dict ==> IsWord(w)
    ensures (forall t: Text :: Censor(t, dict, r) == Mask(t, Words(dict), r)) <==> ReplacementSafe(dict, r)
  {
    if ReplacementSafe(dict, r) {
      SafeIsStable(dict, r);
      forall t: Text ensures Censor(t, dict, r) == Mask(t, Words(dict), r) { StableIsMask(t, dict, r); }
    } else {
      UnsafeDiffers(dict, r);
      assert Censor(dict[0], dict, r) != Mask(dict[0], Words(dict), r);
    }
  }

  /** The words "a" and "b" with the replacement "b!": the text "a" becomes "b!!". */
  lemma ReplacementCensoredAgain()
    ensures var dict: seq<Text>, r: Text := [[97], [98]], [98, 33];
            Censor([97], dict, r) == [98, 33, 33] && Mask([97], Words(dict), r) == r
  {
    hide Mask, ReplaceWord;
    var a: Text, b: Text, r: Text := [97], [98], [98, 33];
    var dict := [a, b];
    assert dict[1..] == [b] && IsWord(a) && IsWord(b);
    CensorRun(a, dict, r, 0);
    MaskRun(a, Words(dict), r);
    OneWord(r, b, r);
    MaskMark(b, 33, r);
    assert r == b + [33] && dict[0 + 1..] == [b] && [b][1..] == [];
    assert Censor(r, [b], r) == ReplaceWord(Cursor([], r), b, r);
  }

  lemma MaskMark(w: Text, mark: byte, r: Text)
    requires IsWord(w) && !Alnum(mark)
    ensures Mask(w + [mark], {w}, r) == r + [mark]
  {
    hide Mask;
    MaskSeam(w, [mark], {w}, r);
    MaskRun(w, {w}, r);
    MaskSeparator([mark], {w}, r);
    MaskEmpty({w}, r);
    var m: Text := [mark];
    assert m[1..] == [] && Mask(m, {w}, r) == m;
  }
}
