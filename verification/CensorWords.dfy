/** What counts as a word: the letters and digits of ASCII, and where a match may begin and end. */
module CensorWords {
  import opened Bytes
  import opened CensorSpec
  import opened CensorLaws

  /** What `isalnum` accepts in the C locale. */
  const DIGITS: string := "0123456789"
  const UPPER: string := "ABCDEFGHIJKLMNOPQRSTUVWXYZ"
  const LOWER: string := "abcdefghijklmnopqrstuvwxyz"

  predicate Listed(b: byte) { b as char in DIGITS || b as char in UPPER || b as char in LOWER }

  /** Each of the three stands in the order of the codes. */
  lemma InCodeOrder()
    ensures |DIGITS| == 10 && |UPPER| == 26 && |LOWER| == 26
    ensures forall k :: 0 <= k < 10 ==> DIGITS[k] as int == 48 + k
    ensures forall k :: 0 <= k < 26 ==> UPPER[k] as int == 65 + k
    ensures forall k :: 0 <= k < 26 ==> LOWER[k] as int == 97 + k
  {
    assert DIGITS == seq(10, k requires 0 <= k < 10 => (48 + k) as char);
    assert UPPER == seq(26, k requires 0 <= k < 26 => (65 + k) as char);
    assert LOWER == seq(26, k requires 0 <= k < 26 => (97 + k) as char);
  }

  /** These 62 characters and no others. */
  lemma AlnumExactly(b: byte)
    ensures Alnum(b) <==> Listed(b)
  {
    InCodeOrder();
    if 48 <= b <= 57 {
      assert DIGITS[b - 48] == b as char;
    } else if 65 <= b <= 90 {
      assert UPPER[b - 65] == b as char;
    } else if 97 <= b <= 122 {
      assert LOWER[b - 97] == b as char;
    }
  }

  /** A word made of these characters, next to one byte more: if that byte is one of them too the text is left
      alone, otherwise the word is replaced and the byte kept. On either side alike. */
  lemma BoundaryExactly(w: Text, c: byte, r: Text)
    requires w != [] && forall k :: 0 <= k < |w| ==> Listed(w[k])
    ensures ReplaceWord(Cursor([], w + [c]), w, r) == if Listed(c) then w + [c] else r + [c]
    ensures ReplaceWord(Cursor([], [c] + w), w, r) == if Listed(c) then [c] + w else [c] + r
    ensures ReplaceWord(Cursor([], w), w, r) == r
  {
    hide Listed, Mask, ReplaceWord;
    forall k | 0 <= k < |w| ensures Alnum(w[k]) { AlnumExactly(w[k]); }
    AlnumExactly(c);
    OneWord(w + [c], w, r);
    OneWord([c] + w, w, r);
    OneWord(w, w, r);
    MaskRun(w, {w}, r);
    if Alnum(c) {
      MaskRun(w + [c], {w}, r);
      MaskRun([c] + w, {w}, r);
    } else {
      MaskMark(w, c, r);
      MaskSeparator([c] + w, {w}, r);
      assert ([c] + w)[1..] == w;
    }
  }

  /** Censoring with a dictionary, byte by byte of the text: a letter or digit before or after a dictionary
      word saves it. */
  lemma NeighbourSaves(w: Text, c: byte, r: Text)
    requires w != [] && Listed(c) && forall k :: 0 <= k < |w| ==> Listed(w[k])
    ensures Censor(w + [c], [w], r) == w + [c] && Censor([c] + w, [w], r) == [c] + w
    ensures Censor(w, [w], r) == r
  {
    hide Listed, ReplaceWord;
    BoundaryExactly(w, c, r);
    var dict := [w];
    assert dict[1..] == [];
    assert forall t: Text :: Censor(t, dict, r) == Censor(ReplaceWord(Cursor([], t), w, r), [], r);
  }
}
