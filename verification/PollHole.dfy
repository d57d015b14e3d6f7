/** A hole in the slot table: how four rounds lead to one, and what the pass that fills it does to the newcomer. */
module PollHole {
  import opened Bytes
  import opened ChatProto
  import opened Framing
  import opened ServerSpec
  import opened ServerRuns
  import opened ServerEvents
  import opened PollPass

  // ---- in general ----

  lemma {:induction false} NoneUsed(slots: seq<Slot>, a: nat, j: nat)
    requires a <= j <= |slots| && forall k :: a <= k < j ==> !slots[k].used
    ensures UsedSlots(slots, j) == UsedSlots(slots, a)
  {
    if a < j {
      NoneUsed(slots, a, j - 1);
    }
  }

  /** A connection accepted into a slot below a used one is served in the same pass, and with what `poll`
      reported for the client on the next used slot. */
  lemma NewcomerTakesNextEntry(s: State, fd: int, ready: map<int, Revents>, j: nat)
    requires forall k :: 0 <= k < |s.slots| && s.slots[k].used ==> s.slots[k].fd in ready
    requires 0 <= FirstFree(s.slots, |s.slots|) < j < |s.slots| && s.slots[j].used
    requires forall k :: FirstFree(s.slots, |s.slots|) <= k < j ==> !s.slots[k].used
    ensures var a := FirstFree(s.slots, |s.slots|);
            var u, r := AcceptOne(s, fd), |UsedSlots(s.slots, a)|;
            && u.slots[a].used && u.slots[a].fd == fd
            && r < |Polled(s.slots, ready)| < |UsedSlots(u.slots, |u.slots|)|
            && UsedSlots(u.slots, |u.slots|)[r] == a
            && Polled(s.slots, ready)[r] == ready[s.slots[j].fd]
  {
    hide UsedSlots;
    var a, u := FirstFree(s.slots, |s.slots|), AcceptOne(s, fd);
    ShiftAfterHole(s.slots, a, u.slots[a]);
    assert u.slots == s.slots[a := u.slots[a]];
    NoneUsed(s.slots, a, j);
    UsedMember(s.slots, j, |s.slots|);
  }

  // ---- a run that gets there ----

  const QUIET: Revents := Revents(false, false)
  const FAILED: Revents := Revents(true, false)

  /** Two clients connect on descriptors 5 and 6, and the first hangs up. */
  function LeadingToHole(): seq<Round>
  {
    [Round(5, map[], map[]), Round(6, map[5 := QUIET], map[]), Round(-1, map[5 := FAILED, 6 := QUIET], map[])]
  }

  /** A third connects, on descriptor 5 again, while the second hangs up. */
  function FillingHole(): Round { Round(5, map[6 := FAILED], map[]) }

  predicate Alone(c: Slot, fd: int) { c.used && !c.joined && c.fd == fd }

  /** Only the first `n` slots may be used. */
  predicate NoneFrom(s: State, n: nat)
  {
    |s.slots| == MAX_CLIENTS && forall j :: n <= j < |s.slots| ==> !s.slots[j].used
  }

  lemma FirstTwo(s: State)
    requires NoneFrom(s, 2)
    ensures UsedSlots(s.slots, |s.slots|)
         == if s.slots[0].used then if s.slots[1].used then [0, 1] else [0] else if s.slots[1].used then [1] else []
  {
    NoneUsed(s.slots, 2, |s.slots|);
    UsedNext(s.slots, 1);
    UsedNext(s.slots, 0);
  }

  lemma AcceptFirst(s: State, n: nat, fd: int)
    requires NoneFrom(s, n) && n < MAX_CLIENTS && forall j :: 0 <= j < n ==> s.slots[j].used
    ensures var u := AcceptOne(s, fd);
            NoneFrom(u, n + 1) && u.slots == s.slots[n := u.slots[n]] && Alone(u.slots[n], fd)
  {
    var a := FirstFree(s.slots, |s.slots|);
    assert !s.slots[n].used;
    assert a == n;
  }

  lemma FirstRound(s: State)
    requires NoneFrom(s, 0)
    ensures var r := LeadingToHole()[0];
            RoundLegal(s, r)
            && var u := Pass(s, r.accepted, r.ready, r.pending); NoneFrom(u, 1) && Alone(u.slots[0], 5)
  {
    hide UsedSlots, AcceptOne;
    var r := LeadingToHole()[0];
    AcceptFirst(s, 0, 5);
    FirstTwo(s);
    var u := AcceptOne(s, 5);
    ScanNothing(u, UsedSlots(u.slots, |u.slots|), [], r.pending);
  }

  lemma QuietIsLeft(s: State, i: nat, pending: map<int, Text>)
    requires i < |s.slots|
    ensures ServeSlot(s, i, QUIET, pending) == s
  {}

  lemma FailedIsRemoved(s: State, i: nat, fd: int, pending: map<int, Text>)
    requires i < |s.slots| && Alone(s.slots[i], fd) && fd >= 0
    ensures ServeSlot(s, i, FAILED, pending)
         == s.(slots := s.slots[i := EMPTY_SLOT], trace := s.trace + [Closed(fd)])
  {}

  lemma SecondRound(s: State)
    requires NoneFrom(s, 1) && Alone(s.slots[0], 5)
    ensures var r := LeadingToHole()[1];
            RoundLegal(s, r)
            && var u := Pass(s, r.accepted, r.ready, r.pending);
               NoneFrom(u, 2) && Alone(u.slots[0], 5) && Alone(u.slots[1], 6)
  {
    hide UsedSlots, AcceptOne, Scan, ServeSlot;
    var r := LeadingToHole()[1];
    AcceptFirst(s, 1, 6);
    var u := AcceptOne(s, 6);
    FirstTwo(s);
    FirstTwo(u);
    var revents := Polled(s.slots, r.ready);
    assert revents == [QUIET];
    ScanOne(u, [0, 1], revents, r.pending);
    QuietIsLeft(u, 0, r.pending);
  }

  lemma ThirdRound(s: State)
    requires NoneFrom(s, 2) && Alone(s.slots[0], 5) && Alone(s.slots[1], 6)
    ensures var r := LeadingToHole()[2];
            RoundLegal(s, r)
            && var u := Pass(s, r.accepted, r.ready, r.pending);
               NoneFrom(u, 2) && !u.slots[0].used && Alone(u.slots[1], 6)
  {
    hide UsedSlots, Scan, ServeSlot;
    var r := LeadingToHole()[2];
    FirstTwo(s);
    var revents := Polled(s.slots, r.ready);
    assert revents == [FAILED, QUIET];
    ScanOne(s, [0, 1], revents, r.pending);
    FailedIsRemoved(s, 0, 5, r.pending);
    ScanNext(s, [0, 1], 1, revents, r.pending);
    QuietIsLeft(ServeSlot(s, 0, FAILED, r.pending), 1, r.pending);
    assert [0, 1][..2] == [0, 1];
  }

  lemma FourthRound(s: State)
    requires NoneFrom(s, 2) && !s.slots[0].used && Alone(s.slots[1], 6)
    ensures var r := FillingHole();
            RoundLegal(s, r)
            && var u := Pass(s, r.accepted, r.ready, r.pending);
               && NoneFrom(u, 2) && !u.slots[0].used && Alone(u.slots[1], 6)
               && u.trace == s.trace + [Opened(5), Closed(5)]
  {
    hide UsedSlots, Scan, ServeSlot, AcceptOne;
    var r := FillingHole();
    var u := AcceptOne(s, 5);
    HoleFilled(s, 5);
    FirstTwo(s);
    FirstTwo(u);
    var revents := Polled(s.slots, r.ready);
    assert revents == [FAILED];
    ScanOne(u, [0, 1], revents, r.pending);
    FailedIsRemoved(u, 0, 5, r.pending);
  }

  lemma HoleFilled(s: State, fd: int)
    requires NoneFrom(s, 2) && !s.slots[0].used
    ensures var u := AcceptOne(s, fd);
            u.slots == s.slots[0 := u.slots[0]] && Alone(u.slots[0], fd) && u.trace == s.trace + [Opened(fd)]
  {
    assert FirstFree(s.slots, |s.slots|) == 0;
  }

  lemma ScanOne(s: State, now: seq<nat>, revents: seq<Revents>, pending: map<int, Text>)
    requires |now| > 0 && |revents| > 0 && now[0] < |s.slots|
    ensures Scan(s, now[..1], revents, pending) == ServeSlot(s, now[0], revents[0], pending)
  {
    hide ServeSlot;
    assert now[..1][..0] == [];
  }

  /** The code can be brought to the failing case: from the empty server these rounds are legal and leave
      slot 0 free below slot 1. In the next pass descriptor 6 hangs up, and it is the client just accepted
      on descriptor 5 that is closed, while 6 stays. */
  lemma HoleIsReachable(failing: set<nat>)
    ensures RoundsLegal(Start(failing), LeadingToHole())
    ensures var s, r := PassAll(Start(failing), LeadingToHole()), FillingHole();
            && |s.slots| == MAX_CLIENTS && !s.slots[0].used && Alone(s.slots[1], 6)
            && RoundLegal(s, r)
            && var t := Pass(s, r.accepted, r.ready, r.pending);
               && !t.slots[0].used && Alone(t.slots[1], 6)
               && t.trace == s.trace + [Opened(5), Closed(5)]
  {
    hide Pass, RoundLegal;
    var rs, s := LeadingToHole(), Start(failing);
    FirstRound(s);
    var s1 := Pass(s, rs[0].accepted, rs[0].ready, rs[0].pending);
    SecondRound(s1);
    var s2 := Pass(s1, rs[1].accepted, rs[1].ready, rs[1].pending);
    ThirdRound(s2);
    var s3 := Pass(s2, rs[2].accepted, rs[2].ready, rs[2].pending);
    FourthRound(s3);
    assert rs[1..][0] == rs[1] && rs[1..][1..] == [rs[2]] && [rs[2]][1..] == [];
    assert RoundsLegal(s3, []) && RoundsLegal(s2, [rs[2]]) && RoundsLegal(s1, rs[1..]);
    assert PassAll(s2, [rs[2]]) == s3 && PassAll(s1, rs[1..]) == s3;
  }
}
