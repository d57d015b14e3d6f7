/** One pass of the poll loop: which slot is served with which poll entry. */
module PollPass {
  import opened Bytes
  import opened ChatProto
  import opened Framing
  import opened ServerSpec
  import opened ServerRuns
  import opened ServerEvents

  /** `failed` stands for POLLERR, POLLHUP or POLLNVAL, `readable` for POLLIN. */
  datatype Revents = Revents(failed: bool, readable: bool)

  /** The used slots among the first `n`, in slot order. When the pass begins this is the list of poll
      entries after the listener's; when the scan begins it is the list of slots to serve. */
  function UsedSlots(slots: seq<Slot>, n: nat): (us: seq<nat>)
    requires n <= |slots|
    ensures |us| <= n
    ensures forall r :: 0 <= r < |us| ==> us[r] < n && slots[us[r]].used
  {
    if n == 0 then []
    else if slots[n - 1].used then UsedSlots(slots, n - 1) + [n - 1]
    else UsedSlots(slots, n - 1)
  }

  lemma {:induction false} UsedOrdered(slots: seq<Slot>, n: nat)
    requires n <= |slots|
    ensures forall r, q :: 0 <= r < q < |UsedSlots(slots, n)| ==> UsedSlots(slots, n)[r] < UsedSlots(slots, n)[q]
  {
    if n > 0 {
      UsedOrdered(slots, n - 1);
    }
  }

  /** Scan order `now` meets entry order `entries` position by position. */
  ghost predicate WellPaired(entries: seq<nat>, now: seq<nat>)
  {
    forall r :: 0 <= r < Min(|entries|, |now|) ==> now[r] == entries[r]
  }

  lemma UsedNext(slots: seq<Slot>, i: nat)
    requires i < |slots|
    ensures UsedSlots(slots, i + 1) == if slots[i].used then UsedSlots(slots, i) + [i] else UsedSlots(slots, i)
  {}

  lemma {:induction false} UsedBelow(slots: seq<Slot>, a: nat, c: Slot, n: nat)
    requires n <= a < |slots|
    ensures UsedSlots(slots[a := c], n) == UsedSlots(slots, n)
  {
    if n > 0 {
      UsedBelow(slots, a, c, n - 1);
    }
  }

  /** `a` put in at rank `r`. */
  function Insert(us: seq<nat>, r: nat, a: nat): seq<nat>
    requires r <= |us|
  {
    us[..r] + [a] + us[r..]
  }

  lemma InsertSnoc(us: seq<nat>, r: nat, a: nat, x: nat)
    requires r <= |us|
    ensures Insert(us + [x], r, a) == Insert(us, r, a) + [x]
  {
    assert (us + [x])[..r] == us[..r] && (us + [x])[r..] == us[r..] + [x];
  }

  lemma {:induction false} UsedAfterOpening(slots: seq<Slot>, a: nat, c: Slot, n: nat)
    requires a < n <= |slots| && !slots[a].used && c.used
    ensures |UsedSlots(slots, a)| <= |UsedSlots(slots, n)|
    ensures UsedSlots(slots[a := c], n) == Insert(UsedSlots(slots, n), |UsedSlots(slots, a)|, a)
  {
    hide UsedSlots, Insert;
    if n - 1 == a {
      OpenedLast(slots, a, c);
    } else {
      UsedAfterOpening(slots, a, c, n - 1);
      InsertNext(slots, a, n - 1);
      var filled := slots[a := c];
      assert filled[n - 1] == slots[n - 1];
      UsedNext(filled, n - 1);
    }
  }

  lemma OpenedLast(slots: seq<Slot>, a: nat, c: Slot)
    requires a < |slots| && !slots[a].used && c.used
    ensures UsedSlots(slots, a + 1) == UsedSlots(slots, a)
    ensures UsedSlots(slots[a := c], a + 1) == Insert(UsedSlots(slots, a), |UsedSlots(slots, a)|, a)
  {
    hide UsedSlots, Insert;
    var filled := slots[a := c];
    UsedNext(slots, a);
    UsedNext(filled, a);
    UsedBelow(slots, a, c, a);
    InsertLast(UsedSlots(slots, a), a);
  }

  /** One slot further the ranks stay as they are. */
  lemma InsertNext(slots: seq<Slot>, a: nat, n: nat)
    requires a <= n < |slots| && |UsedSlots(slots, a)| <= |UsedSlots(slots, n)|
    ensures |UsedSlots(slots, a)| <= |UsedSlots(slots, n + 1)|
    ensures Insert(UsedSlots(slots, n + 1), |UsedSlots(slots, a)|, a)
         == if slots[n].used then Insert(UsedSlots(slots, n), |UsedSlots(slots, a)|, a) + [n]
            else Insert(UsedSlots(slots, n), |UsedSlots(slots, a)|, a)
  {
    hide UsedSlots, Insert;
    UsedNext(slots, n);
    InsertSnoc(UsedSlots(slots, n), |UsedSlots(slots, a)|, a, n);
  }

  lemma InsertLast(us: seq<nat>, a: nat)
    ensures Insert(us, |us|, a) == us + [a]
  {}

  lemma {:induction false} UsedMember(slots: seq<Slot>, j: nat, n: nat)
    requires j < n <= |slots| && slots[j].used
    ensures |UsedSlots(slots, j)| < |UsedSlots(slots, n)|
    ensures UsedSlots(slots, n)[|UsedSlots(slots, j)|] == j
  {
    if n > j + 1 {
      UsedMember(slots, j, n - 1);
    }
  }

  lemma {:induction false} UsedPrefix(slots: seq<Slot>, k: nat, n: nat)
    requires k <= n <= |slots|
    ensures UsedSlots(slots, k) <= UsedSlots(slots, n)
  {
    if k < n {
      UsedPrefix(slots, k, n - 1);
    }
  }

  /** The pairing law. Accepting a connection into slot `a` between building the poll entries and scanning
      the slots keeps every slot with its own entry if and only if no used slot lies above `a`. */
  lemma PairingExact(slots: seq<Slot>, a: nat, c: Slot)
    requires a < |slots| && !slots[a].used && c.used
    ensures WellPaired(UsedSlots(slots, |slots|), UsedSlots(slots[a := c], |slots|))
       <==> forall j :: a < j < |slots| ==> !slots[j].used
  {
    var n := |slots|;
    var entries, now, r := UsedSlots(slots, n), UsedSlots(slots[a := c], n), |UsedSlots(slots, a)|;
    UsedAfterOpening(slots, a, c, n);
    if forall j :: a < j < n ==> !slots[j].used {
      assert r == |entries| by {
        if r < |entries| {
          var j := entries[r];
          NoneBetween(slots, a, n, r);
          assert false;
        }
      }
    } else {
      var j :| a < j < n && slots[j].used;
      UsedMember(slots, j, n);
      RankGrows(slots, a, j);
      assert r < |entries|;
      assert now[r] == a && slots[entries[r]].used;
    }
  }

  lemma NoneBetween(slots: seq<Slot>, a: nat, n: nat, r: nat)
    requires a < n == |slots| && !slots[a].used && r == |UsedSlots(slots, a)| < |UsedSlots(slots, n)|
    ensures UsedSlots(slots, n)[r] > a
  {
    var j := UsedSlots(slots, n)[r];
    UsedOrdered(slots, n);
    if j < a {
      UsedMember(slots, j, n);
      UsedMember(slots, j, a);
    }
  }

  lemma {:induction false} RankGrows(slots: seq<Slot>, a: nat, b: nat)
    requires a <= b <= |slots|
    ensures |UsedSlots(slots, a)| <= |UsedSlots(slots, b)|
  {
    if a < b {
      RankGrows(slots, a, b - 1);
    }
  }

  /** When a hole is filled, the new slot takes the entry of the first used slot above it, each used slot
      above it takes the entry of the next one, and the topmost used slot is left out of the pass. */
  lemma ShiftAfterHole(slots: seq<Slot>, a: nat, c: Slot)
    requires a < |slots| && !slots[a].used && c.used
    ensures var entries, now, r := UsedSlots(slots, |slots|), UsedSlots(slots[a := c], |slots|), |UsedSlots(slots, a)|;
            && |now| == |entries| + 1 && r <= |entries|
            && now[r] == a
            && (forall q :: 0 <= q < r ==> now[q] == entries[q])
            && (forall q :: r <= q < |entries| ==> now[q + 1] == entries[q])
  {
    UsedAfterOpening(slots, a, c, |slots|);
  }

  // ---- the pass as a function ----

  /** Serving one slot: `pending` holds what `recv` returns from each descriptor in this pass, if it must wait
      for it then after the wait; nothing stands for end of stream or an error. */
  function ServeSlot(s: State, i: nat, rev: Revents, pending: map<int, Text>): (t: State)
    requires i < |s.slots|
    ensures |t.slots| == |s.slots|
  {
    var c := s.slots[i];
    if rev.failed then RemoveClient(s, i)
    else if !rev.readable then s
    else
      var bytes := if c.fd in pending then pending[c.fd] else [];
      var n := if |c.inbuf| <= RECV_CAP then Min(|bytes|, RECV_CAP - |c.inbuf|) else 0;
      if n == 0 then RemoveClient(s, i) else ServeData(s, i, bytes[..n])
  }

  /** Serve the slots of `order` from the first on, slot `order[r]` with entry `revents[r]`. */
  function Scan(s: State, order: seq<nat>, revents: seq<Revents>, pending: map<int, Text>): (t: State)
    requires |order| <= |revents|
    requires forall r :: 0 <= r < |order| ==> order[r] < |s.slots|
    ensures |t.slots| == |s.slots|
  {
    if order == [] then s
    else
      var n := |order| - 1;
      ServeSlot(Scan(s, order[..n], revents, pending), order[n], revents[n], pending)
  }

  lemma ScanNothing(s: State, now: seq<nat>, revents: seq<Revents>, pending: map<int, Text>)
    ensures UsedSlots(s.slots, 0) == []
    ensures Scan(s, now[..0], revents, pending) == s
  {}

  lemma ScanNext(s: State, now: seq<nat>, n: nat, revents: seq<Revents>, pending: map<int, Text>)
    requires n < |now| && n < |revents|
    requires forall r :: 0 <= r < |now| ==> now[r] < |s.slots|
    ensures Scan(s, now[..n + 1], revents, pending)
         == ServeSlot(Scan(s, now[..n], revents, pending), now[n], revents[n], pending)
  {
    hide ServeSlot;
    assert now[..n + 1][..n] == now[..n];
  }

  lemma ScanCounts(s: State, i: nat)
    requires i < |s.slots|
    ensures |UsedSlots(s.slots, i + 1)| == |UsedSlots(s.slots, i)| + if s.slots[i].used then 1 else 0
    ensures |UsedSlots(s.slots, i + 1)| <= |UsedSlots(s.slots, |s.slots|)|
  {
    hide UsedSlots;
    UsedNext(s.slots, i);
    RankGrows(s.slots, i + 1, |s.slots|);
  }

  /** When the scan comes to a used slot, its place in the order is the number of used slots before it. */
  lemma ScanMeets(s: State, i: nat, revents: seq<Revents>, pending: map<int, Text>)
    requires i < |s.slots| && s.slots[i].used && |UsedSlots(s.slots, i)| < |revents|
    ensures var now, fi := UsedSlots(s.slots, |s.slots|), |UsedSlots(s.slots, i)|;
            && fi < |now|
            && var before, after := Scan(s, now[..fi], revents, pending), Scan(s, now[..fi + 1], revents, pending);
               && after == ServeSlot(before, i, revents[fi], pending)
               && forall j :: i < j < |s.slots| ==> after.slots[j] == before.slots[j]
  {
    hide ServeSlot, UsedSlots, Scan;
    var now, fi := UsedSlots(s.slots, |s.slots|), |UsedSlots(s.slots, i)|;
    UsedMember(s.slots, i, |s.slots|);
    ScanNext(s, now, fi, revents, pending);
    ServeTouchesOne(Scan(s, now[..fi], revents, pending), i, revents[fi], pending);
  }

  /** Serve every slot of `order` with what poll reported for its own descriptor. */
  function ScanOwn(s: State, order: seq<nat>, fds: seq<int>, ready: map<int, Revents>, pending: map<int, Text>)
    : (t: State)
    requires |order| <= |fds|
    requires forall r :: 0 <= r < |order| ==> order[r] < |s.slots|
    requires forall r :: 0 <= r < |fds| ==> fds[r] in ready
    ensures |t.slots| == |s.slots|
  {
    if order == [] then s
    else
      var n := |order| - 1;
      ServeSlot(ScanOwn(s, order[..n], fds, ready, pending), order[n], ready[fds[n]], pending)
  }

  /** What `poll` stores: entry r holds the readiness of the descriptor of the r-th used slot. */
  function Polled(slots: seq<Slot>, ready: map<int, Revents>): (revents: seq<Revents>)
    requires forall j :: 0 <= j < |slots| && slots[j].used ==> slots[j].fd in ready
    ensures |revents| == |UsedSlots(slots, |slots|)|
  {
    var entries := UsedSlots(slots, |slots|);
    seq(|entries|, r requires 0 <= r < |entries| => ready[slots[entries[r]].fd])
  }

  /** The whole pass: poll, accept at most one connection (`accepted` < 0 for none), scan. */
  function Pass(s: State, accepted: int, ready: map<int, Revents>, pending: map<int, Text>): (t: State)
    requires forall j :: 0 <= j < |s.slots| && s.slots[j].used ==> s.slots[j].fd in ready
    ensures |t.slots| == |s.slots|
  {
    var revents := Polled(s.slots, ready);
    var u := if accepted >= 0 then AcceptOne(s, accepted) else s;
    var now := UsedSlots(u.slots, |u.slots|);
    Scan(u, now[..Min(|now|, |revents|)], revents, pending)
  }

  /** Unless a hole below a used slot was filled, a pass serves exactly the slots used at its beginning,
      each with the readiness of its own descriptor. */
  lemma PassServesOwn(s: State, accepted: int, ready: map<int, Revents>, pending: map<int, Text>)
    requires forall j :: 0 <= j < |s.slots| && s.slots[j].used ==> s.slots[j].fd in ready
    requires accepted >= 0 ==>
               forall j :: 0 <= FirstFree(s.slots, |s.slots|) < j < |s.slots| ==> !s.slots[j].used
    ensures var entries := UsedSlots(s.slots, |s.slots|);
            var u := if accepted >= 0 then AcceptOne(s, accepted) else s;
            Pass(s, accepted, ready, pending)
              == ScanOwn(u, entries, seq(|entries|, r requires 0 <= r < |entries| => s.slots[entries[r]].fd), ready, pending)
  {
    hide ServeSlot, Scan, ScanOwn, UsedSlots, AcceptOne;
    OrderUnchanged(s, accepted);
    var entries, revents := UsedSlots(s.slots, |s.slots|), Polled(s.slots, ready);
    var u := if accepted >= 0 then AcceptOne(s, accepted) else s;
    var fds := seq(|entries|, r requires 0 <= r < |entries| => s.slots[entries[r]].fd);
    ScanAgrees(u, entries, revents, fds, ready, pending);
  }

  lemma OrderUnchanged(s: State, accepted: int)
    requires accepted >= 0 ==>
               forall j :: 0 <= FirstFree(s.slots, |s.slots|) < j < |s.slots| ==> !s.slots[j].used
    ensures var entries := UsedSlots(s.slots, |s.slots|);
            var u := if accepted >= 0 then AcceptOne(s, accepted) else s;
            UsedSlots(u.slots, |u.slots|)[..Min(|UsedSlots(u.slots, |u.slots|)|, |entries|)] == entries
  {
    hide UsedSlots;
    var n := |s.slots|;
    var entries := UsedSlots(s.slots, n);
    var u := if accepted >= 0 then AcceptOne(s, accepted) else s;
    var a := FirstFree(s.slots, n);
    if accepted >= 0 && a >= 0 {
      ShiftAfterHole(s.slots, a, u.slots[a]);
      PairingExact(s.slots, a, u.slots[a]);
      assert u.slots == s.slots[a := u.slots[a]];
    } else {
      assert u.slots == s.slots;
    }
  }

  lemma {:induction false} ScanAgrees(s: State, order: seq<nat>, revents: seq<Revents>, fds: seq<int>,
                                      ready: map<int, Revents>, pending: map<int, Text>)
    requires |order| <= |revents| == |fds|
    requires forall r :: 0 <= r < |order| ==> order[r] < |s.slots|
    requires forall r :: 0 <= r < |fds| ==> fds[r] in ready && revents[r] == ready[fds[r]]
    ensures Scan(s, order, revents, pending) == ScanOwn(s, order, fds, ready, pending)
    decreases |order|
  {
    hide ServeSlot;
    if order != [] {
      ScanAgrees(s, order[..|order| - 1], revents, fds, ready, pending);
    }
  }

  // ---- a pass keeps the invariant, however the entries are paired ----

  lemma ServeTouchesOne(s: State, i: nat, rev: Revents, pending: map<int, Text>)
    requires i < |s.slots|
    ensures forall j :: 0 <= j < |s.slots| && j != i ==> ServeSlot(s, i, rev, pending).slots[j] == s.slots[j]
  {}

  lemma ServeKeepsInv(s: State, i: nat, rev: Revents, pending: map<int, Text>)
    requires Inv(s) && Settled(s) && i < |s.slots| && s.slots[i].used
    ensures Inv(ServeSlot(s, i, rev, pending)) && Settled(ServeSlot(s, i, rev, pending))
  {
    hide Inv, Settled, ServeData, RemoveClient;
    var c := s.slots[i];
    RoomForRecv(s, i);
    if rev.failed {
      EventKeepsInv(s, Hangup(i));
    } else if rev.readable {
      var bytes := if c.fd in pending then pending[c.fd] else [];
      var n := Min(|bytes|, RECV_CAP - |c.inbuf|);
      if n == 0 {
        EventKeepsInv(s, Hangup(i));
      } else {
        EventKeepsInv(s, Data(i, bytes[..n]));
      }
    }
  }

  lemma {:induction false} ScanKeepsInv(s: State, order: seq<nat>, revents: seq<Revents>, pending: map<int, Text>)
    requires Inv(s) && Settled(s) && |order| <= |revents|
    requires forall r :: 0 <= r < |order| ==> order[r] < |s.slots| && s.slots[order[r]].used
    requires forall r, q :: 0 <= r < q < |order| ==> order[r] < order[q]
    ensures Inv(Scan(s, order, revents, pending)) && Settled(Scan(s, order, revents, pending))
    ensures forall j :: 0 <= j < |s.slots| && (order == [] || order[|order| - 1] < j) ==>
              Scan(s, order, revents, pending).slots[j] == s.slots[j]
    decreases |order|
  {
    hide Inv, Settled, ServeSlot;
    if order != [] {
      var n := |order| - 1;
      var u := Scan(s, order[..n], revents, pending);
      ScanKeepsInv(s, order[..n], revents, pending);
      ServeKeepsInv(u, order[n], revents[n], pending);
      ServeTouchesOne(u, order[n], revents[n], pending);
    }
  }

  /** Even a pass with shifted entries leaves the server in a sound, settled state. */
  lemma PassKeepsInv(s: State, accepted: int, ready: map<int, Revents>, pending: map<int, Text>)
    requires Inv(s) && Settled(s)
    requires forall j :: 0 <= j < |s.slots| && s.slots[j].used ==> s.slots[j].fd in ready
    requires accepted >= 0 ==> Legal(s, Accept(accepted))
    ensures Inv(Pass(s, accepted, ready, pending)) && Settled(Pass(s, accepted, ready, pending))
  {
    hide Inv, Settled, ServeSlot;
    if accepted >= 0 {
      EventKeepsInv(s, Connect(accepted));
    }
    var u := if accepted >= 0 then AcceptOne(s, accepted) else s;
    var now, revents := UsedSlots(u.slots, |u.slots|), Polled(s.slots, ready);
    UsedOrdered(u.slots, |u.slots|);
    ScanKeepsInv(u, now[..Min(|now|, |revents|)], revents, pending);
  }

  // ---- any number of passes ----

  /** What one round of system calls brings. */
  datatype Round = Round(accepted: int, ready: map<int, Revents>, pending: map<int, Text>)

  /** The kernel reports on every descriptor polled and accepts no descriptor that is open. */
  predicate RoundLegal(s: State, r: Round)
  {
    && (forall j :: 0 <= j < |s.slots| && s.slots[j].used ==> s.slots[j].fd in r.ready)
    && (r.accepted >= 0 ==> Legal(s, Accept(r.accepted)))
  }

  predicate RoundsLegal(s: State, rs: seq<Round>)
    decreases |rs|
  {
    rs == [] || (RoundLegal(s, rs[0])
                 && RoundsLegal(Pass(s, rs[0].accepted, rs[0].ready, rs[0].pending), rs[1..]))
  }

  function PassAll(s: State, rs: seq<Round>): State
    requires RoundsLegal(s, rs)
    decreases |rs|
  {
    if rs == [] then s else PassAll(Pass(s, rs[0].accepted, rs[0].ready, rs[0].pending), rs[1..])
  }

  lemma {:induction false} PassesKeepInv(s: State, rs: seq<Round>)
    requires Inv(s) && Settled(s) && RoundsLegal(s, rs)
    ensures Inv(PassAll(s, rs)) && Settled(PassAll(s, rs)) && |PassAll(s, rs).slots| == |s.slots|
    decreases |rs|
  {
    hide Inv, Settled, Pass;
    if rs != [] {
      var r := rs[0];
      PassKeepsInv(s, r.accepted, r.ready, r.pending);
      PassesKeepInv(Pass(s, r.accepted, r.ready, r.pending), rs[1..]);
    }
  }

  /** After any number of passes of `main`'s loop from the empty server, shifted pairings included, the table
      law holds, and every client's dispatched frames and buffer are the one-shot decoding of what arrived. */
  lemma ServerAfterAnyPasses(failing: set<nat>, rs: seq<Round>, i: nat)
    requires RoundsLegal(Start(failing), rs)
    requires i < |PassAll(Start(failing), rs).slots| && PassAll(Start(failing), rs).slots[i].used
    ensures var s := PassAll(Start(failing), rs);
            && |s.slots| == 64
            && (forall j :: 0 <= j < |s.slots| ==> (s.slots[j].used <==> s.slots[j].fd >= 0))
            && (forall j, k :: 0 <= j < k < |s.slots| && s.slots[j].joined && s.slots[k].joined ==>
                  s.slots[j].nick != s.slots[k].nick)
            && |s.slots[i].inbuf| < RECV_CAP
            && ParseAll(Arrived(s.trace, s.slots[i].fd))
                 == Parsed(Dispatched(s.trace, s.slots[i].fd), s.slots[i].inbuf, false)
  {
    hide Inv, Settled, RoundsLegal;
    StartInv(failing);
    StartSettled(failing);
    PassesKeepInv(Start(failing), rs);
    var s := PassAll(Start(failing), rs);
    TableLaw(s);
    SettledShort(s, i);
    ConnectionParse(s, i);
  }

  lemma SettledShort(s: State, i: nat)
    requires Settled(s) && i < |s.slots| && s.slots[i].used
    ensures Peek(s.slots[i].inbuf).Short?
  {}
}
