/** The LIST_REPLY body: which lines it contains. */
module Listing {
  import opened Bytes
  import opened ChatProto
  import opened ServerSpec
  import opened ServerRuns

  lemma ConcatSnoc(ts: seq<Text>, t: Text)
    ensures Concat(ts + [t]) == Concat(ts) + t
  {
    assert (ts + [t])[..|ts|] == ts;
  }

  lemma {:induction false} ListLinesPrefix(slots: seq<Slot>, k: nat, n: nat)
    requires k <= n <= |slots|
    ensures ListLines(slots, k) <= ListLines(slots, n)
  {
    if k < n {
      ListLinesPrefix(slots, k, n - 1);
    }
  }

  /** Every line is the line of a joined slot: at least two bytes, at most 43 with a sound slot. */
  lemma {:induction false} ListLineSizes(slots: seq<Slot>, n: nat)
    requires n <= |slots| && forall j :: 0 <= j < n ==> SlotOk(slots[j])
    ensures forall r :: 0 <= r < |ListLines(slots, n)| ==> 2 <= |ListLines(slots, n)[r]| <= 43
  {
    if n > 0 {
      ListLineSizes(slots, n - 1);
      DecimalU32(slots[n - 1].id);
    }
  }

  lemma ConcatEmpty(ts: seq<Text>)
    requires forall r :: 0 <= r < |ts| ==> |ts[r]| >= 2
    ensures Concat(ts) == [] <==> ts == []
  {}

  /** The place where the loop of `handle_list` stops after the first k slots: at the end, or with no room
      left, or before a joined slot whose line does not fit. */
  ghost predicate StopsAt(slots: seq<Slot>, k: nat)
    requires k <= |slots|
  {
    var size := |Concat(ListLines(slots, k))|;
    && size <= MAX_BODY
    && (k == |slots| || size == MAX_BODY || (slots[k].Online() && size + |ListLine(slots[k])| > MAX_BODY))
  }

  lemma NextLineTooLong(slots: seq<Slot>, k: nat)
    requires k <= |slots| && StopsAt(slots, k) && (forall j :: 0 <= j < |slots| ==> SlotOk(slots[j]))
    requires |ListLines(slots, k)| < |ListLines(slots, |slots|)|
    ensures |Concat(ListLines(slots, |slots|)[..|ListLines(slots, k)| + 1])| > MAX_BODY
  {
    var all, some := ListLines(slots, |slots|), ListLines(slots, k);
    ListLinesPrefix(slots, k, |slots|);
    assert all[..|some| + 1] == some + [all[|some|]];
    ConcatSnoc(some, all[|some|]);
    ListLineSizes(slots, |slots|);
    if |Concat(some)| < MAX_BODY {
      ListLinesPrefix(slots, k + 1, |slots|);
      assert ListLines(slots, k + 1) == some + [ListLine(slots[k])];
      assert all[|some|] == ListLine(slots[k]);
    }
  }

  lemma StopCount(slots: seq<Slot>, k: nat)
    requires k <= |slots| && StopsAt(slots, k) && (forall j :: 0 <= j < |slots| ==> SlotOk(slots[j]))
    ensures FitCount(ListLines(slots, |slots|), MAX_BODY) == |ListLines(slots, k)|
  {
    hide ListLines, Concat, FitCount, StopsAt, SlotOk;
    var all, some := ListLines(slots, |slots|), ListLines(slots, k);
    ListLinesPrefix(slots, k, |slots|);
    var m := FitCount(all, MAX_BODY);
    assert |Concat(some)| <= MAX_BODY by { StopFits(slots, k); }
    if |some| < m {
      assert all[..m][..|some| + 1] == all[..|some| + 1];
      ConcatPrefix(all[..m], |some| + 1);
      NextLineTooLong(slots, k);
    } else if m < |some| {
      assert some[..m + 1] == all[..m + 1];
      ConcatPrefix(some, m + 1);
    }
  }

  lemma StopFits(slots: seq<Slot>, k: nat)
    requires k <= |slots| && StopsAt(slots, k)
    ensures |Concat(ListLines(slots, k))| <= MAX_BODY
  {}

  /** The loop's text is the spec's: what was appended is all that fits, and it is empty only when nobody
      is joined. */
  lemma ListCut(slots: seq<Slot>, k: nat)
    requires k <= |slots| && StopsAt(slots, k) && (forall j :: 0 <= j < |slots| ==> SlotOk(slots[j]))
    ensures var text := Concat(ListLines(slots, k));
            ListBody(slots) == if text == [] then Ascii("(no users)\n") else text
  {
    hide ListLines, FitCount, StopsAt, SlotOk, Concat;
    var all, some := ListLines(slots, |slots|), ListLines(slots, k);
    ListLinesPrefix(slots, k, |slots|);
    ListLineSizes(slots, |slots|);
    ListLineSizes(slots, k);
    ConcatEmpty(some);
    StopCount(slots, k);
    assert some == all[..|some|];
    if all != [] && some == [] {
      assert all[..1] == [] + [all[0]];
      ConcatSnoc([], all[0]);
      NextLineTooLong(slots, k);
    }
  }

  /** Among the leading lines, those that fit are a longest prefix. */
  lemma LongestPrefix(lines: seq<Text>, m: nat, q: nat)
    requires m == FitCount(lines, MAX_BODY) && m < q <= |lines|
    ensures |Concat(lines[..q])| > MAX_BODY
  {
    ConcatPrefix(lines[..q], m + 1);
    assert lines[..q][..m + 1] == lines[..m + 1];
  }

  lemma SomethingFits(lines: seq<Text>)
    requires lines != [] && |lines[0]| <= MAX_BODY && |lines[0]| > 0
    ensures var m := FitCount(lines, MAX_BODY);
            m >= 1 && Concat(lines[..m]) != [] && Concat(lines[..m])[0] == lines[0][0]
  {
    hide Concat;
    var m := FitCount(lines, MAX_BODY);
    assert lines[..1] == [] + [lines[0]];
    ConcatSnoc([], lines[0]);
    assert Concat([]) == [] by { ConcatEmpty([]); }
    assert Concat(lines[..1]) == lines[0];
    assert m >= 1;
    ConcatPrefix(lines[..m], 1);
    assert lines[..m][..1] == lines[..1];
  }

  /** The reply is whole lines only: those of the longest prefix, in slot order, of the joined clients that
      fits into 2048 bytes; "(no users)" exactly when nobody is joined. */
  lemma ListReplyIsLongestPrefix(slots: seq<Slot>)
    requires forall j :: 0 <= j < |slots| ==> SlotOk(slots[j])
    ensures var lines, body := ListLines(slots, |slots|), ListBody(slots);
            && (lines == [] <==> forall j :: 0 <= j < |slots| ==> !slots[j].Online())
            && (body == Ascii("(no users)\n") <==> lines == [])
            && (lines != [] ==> exists m :: 1 <= m <= |lines| && body == Concat(lines[..m]) && |body| <= MAX_BODY
                                 && (forall q :: m < q <= |lines| ==> |Concat(lines[..q])| > MAX_BODY))
  {
    hide Concat, ListLines, FitCount, SlotOk;
    var lines := ListLines(slots, |slots|);
    NobodyListed(slots, |slots|);
    if lines != [] {
      ListLineSizes(slots, |slots|);
      FirstIsDigit(slots, |slots|);
      SomethingFits(lines);
      var m := FitCount(lines, MAX_BODY);
      assert Ascii("(no users)\n")[0] == '(' as int;
      forall q | m < q <= |lines| ensures |Concat(lines[..q])| > MAX_BODY
      {
        LongestPrefix(lines, m, q);
      }
    }
  }

  lemma {:induction false} NobodyListed(slots: seq<Slot>, n: nat)
    requires n <= |slots|
    ensures ListLines(slots, n) == [] <==> forall j :: 0 <= j < n ==> !slots[j].Online()
  {
    if n > 0 {
      NobodyListed(slots, n - 1);
    }
  }

  lemma {:induction false} FirstIsDigit(slots: seq<Slot>, n: nat)
    requires n <= |slots|
    ensures forall r :: 0 <= r < |ListLines(slots, n)| ==> |ListLines(slots, n)[r]| > 0 && ListLines(slots, n)[r][0] >= 48
  {
    if n > 0 {
      FirstIsDigit(slots, n - 1);
    }
  }
}
