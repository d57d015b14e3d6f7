/** The ring of the last 32 chat lines. */
module History {
  import opened Bytes
  import opened ChatProto
  import opened ServerSpec

  /** Oldest first, the lines a ring holds. */
  function RingLines(ring: seq<Text>, start: nat, count: nat): (lines: seq<Text>)
    requires |ring| == HISTORY_LINES
    ensures |lines| == count
  {
    seq(count, k requires 0 <= k < count => ring[(start + k) % HISTORY_LINES])
  }

  /** While the ring fills up, a push adds a line at the end. */
  lemma PushAppends(ring: seq<Text>, start: nat, count: nat, line: Text)
    requires |ring| == HISTORY_LINES && start < HISTORY_LINES && count < HISTORY_LINES
    ensures RingLines(ring[(start + count) % HISTORY_LINES := line], start, count + 1)
         == RingLines(ring, start, count) + [line]
  {
    var before, after := RingLines(ring, start, count),
                         RingLines(ring[(start + count) % HISTORY_LINES := line], start, count + 1);
    forall k | 0 <= k < count ensures after[k] == before[k]
    {
      assert (start + k) % HISTORY_LINES != (start + count) % HISTORY_LINES;
    }
  }

  /** In a full ring a push drops the oldest line as well. */
  lemma PushRotates(ring: seq<Text>, start: nat, line: Text)
    requires |ring| == HISTORY_LINES && start < HISTORY_LINES
    ensures RingLines(ring[(start + HISTORY_LINES) % HISTORY_LINES := line], (start + 1) % HISTORY_LINES, HISTORY_LINES)
         == RingLines(ring, start, HISTORY_LINES)[1..] + [line]
  {
    var idx, next := (start + HISTORY_LINES) % HISTORY_LINES, (start + 1) % HISTORY_LINES;
    assert idx == start;
    var before, after := RingLines(ring, start, HISTORY_LINES), RingLines(ring[idx := line], next, HISTORY_LINES);
    forall k | 0 <= k < HISTORY_LINES - 1 ensures after[k] == before[k + 1]
    {
      NextIndex(start, k);
    }
    NextIndex(start, HISTORY_LINES - 1);
    assert after[HISTORY_LINES - 1] == line;
  }

  lemma NextIndex(start: nat, k: nat)
    requires start < HISTORY_LINES && k < HISTORY_LINES
    ensures ((start + 1) % HISTORY_LINES + k) % HISTORY_LINES == (start + (k + 1)) % HISTORY_LINES
    ensures (start + (k + 1)) % HISTORY_LINES == start <==> k == HISTORY_LINES - 1
  {}

  /** Pushing a line into the ring is appending to the list of all lines and looking at the last 32. */
  lemma PushRefines(ring: seq<Text>, start: nat, count: nat, said: seq<Text>, line: Text)
    requires |ring| == HISTORY_LINES && start < HISTORY_LINES && count <= HISTORY_LINES
    requires RingLines(ring, start, count) == Last(said, HISTORY_LINES)
    ensures var idx, full := (start + count) % HISTORY_LINES, count == HISTORY_LINES;
            RingLines(ring[idx := line], if full then (start + 1) % HISTORY_LINES else start,
                      if full then count else count + 1)
              == Last(said + [line], HISTORY_LINES)
  {
    hide RingLines;
    if count == HISTORY_LINES {
      PushRotates(ring, start, line);
      assert Last(said + [line], HISTORY_LINES) == Last(said, HISTORY_LINES)[1..] + [line];
    } else {
      PushAppends(ring, start, count, line);
      assert Last(said + [line], HISTORY_LINES) == said + [line];
    }
  }
}
