/** What one pass does for each client, in terms of its own descriptor only. */
module PassEffect {
  import opened Bytes
  import opened ChatProto
  import opened Framing
  import opened ServerSpec
  import opened ServerRuns
  import opened ServerEvents
  import opened PollPass
  import opened PollWait
  import opened RoundLaws

  function Ready(pending: map<int, Text>, fd: int): Text { if fd in pending then pending[fd] else [] }

  /** What becomes of the client on slot `i` of `s` by the time of `t`: after a failure or an end of stream it
      is gone; without news nothing has happened to its stream; otherwise what it sent, as far as the buffer
      has room, has been received, every complete frame in it dispatched, and the client dropped if and only
      if a bad header came up. */
  ghost predicate Effect(s: State, t: State, i: nat, rev: Revents, pending: map<int, Text>)
    requires i < |s.slots| == |t.slots|
  {
    var c := s.slots[i];
    var bytes := Ready(pending, c.fd);
    if rev.failed || (rev.readable && bytes == []) then t.slots[i] == EMPTY_SLOT
    else if !rev.readable then t.slots[i] == c && SameView(s.trace, t.trace, c.fd)
    else
      var got := bytes[..Min(|bytes|, 2064 - Min(|c.inbuf|, 2064))];
      var p := ParseAll(Arrived(s.trace, c.fd) + got);
      && |got| > 0
      && Arrived(t.trace, c.fd) == Arrived(s.trace, c.fd) + got
      && Dispatched(t.trace, c.fd) == p.frames
      && (if p.bad then t.slots[i] == EMPTY_SLOT
          else t.slots[i].used && t.slots[i].fd == c.fd && t.slots[i].inbuf == p.rest)
  }

  // ---- other clients' slots ----

  lemma {:induction false} ProcessOther(s: State, j: nat, fd: int)
    requires j < |s.slots| && s.slots[j].used && s.slots[j].fd != fd
    ensures SameView(s.trace, Process(s, j).trace, fd)
    decreases |s.slots[j].inbuf|
  {
    hide TakeFrame, Ordinal, Arrived, Dispatched;
    if Peek(s.slots[j].inbuf).Whole? {
      TakeView(s, j, fd);
      ProcessOther(TakeFrame(s, j), j, fd);
    } else if Peek(s.slots[j].inbuf).Bad? {
      CloseOther(s, j, fd);
    }
  }

  lemma CloseOther(s: State, j: nat, fd: int)
    requires j < |s.slots|
    ensures SameView(s.trace, CloseSlot(s, j).trace, fd)
  {
    hide Ordinal, Arrived, Dispatched;
    Append(s.trace, Closed(s.slots[j].fd), fd);
  }

  lemma RemoveOther(s: State, j: nat, fd: int)
    requires j < |s.slots|
    ensures SameView(s.trace, RemoveClient(s, j).trace, fd)
  {
    hide Ordinal, Arrived, Dispatched;
    var c := s.slots[j];
    if c.joined {
      var t := FanOut(s, Frame(NOTIFY, Clamp(Snprintf(MAX_BODY + 1, PartNote(c.nick)))), j, |s.slots|);
      SendsSameView(s.trace, t.trace, fd);
      CloseOther(t, j, fd);
    } else {
      CloseOther(s, j, fd);
    }
  }

  lemma ServeOther(s: State, j: nat, rev: Revents, pending: map<int, Text>, i: nat, fd: int)
    requires Inv(s) && Settled(s) && j < |s.slots| && s.slots[j].used && s.slots[j].fd != fd && i < |s.slots| && i != j
    ensures SameView(s.trace, ServeSlot(s, j, rev, pending).trace, fd)
    ensures ServeSlot(s, j, rev, pending).slots[i] == s.slots[i]
  {
    hide Inv, Process, RemoveClient, Ordinal, Arrived, Dispatched;
    ServeTouchesOne(s, j, rev, pending);
    RoomForRecv(s, j);
    RemoveOther(s, j, fd);
    var bytes := Ready(pending, s.slots[j].fd);
    var got := bytes[..Min(|bytes|, RECV_CAP - |s.slots[j].inbuf|)];
    if !rev.failed && rev.readable && got != [] {
      var u := ReceiveInto(s, j, got);
      ReceiveView(s, j, got, fd);
      ProcessOther(u, j, fd);
      OverflowUnreachable(s, j, got);
    }
  }

  // ---- its own slot ----

  lemma ServeOwn(s: State, i: nat, rev: Revents, pending: map<int, Text>)
    requires Inv(s) && Settled(s) && i < |s.slots| && s.slots[i].used
    ensures Effect(s, ServeSlot(s, i, rev, pending), i, rev, pending)
  {
    hide Inv, Process, ParseAll, Ordinal, Arrived, Dispatched;
    RoomForRecv(s, i);
    var c := s.slots[i];
    var bytes := Ready(pending, c.fd);
    var got := bytes[..Min(|bytes|, RECV_CAP - |c.inbuf|)];
    if !rev.failed && rev.readable && got != [] {
      OverflowUnreachable(s, i, got);
      ReceiveKeepsInv(s, i, got);
      ReceiveView(s, i, got, c.fd);
      ProcessDecodes(ReceiveInto(s, i, got), i);
    }
  }

  // ---- the scan ----

  lemma EffectBefore(s: State, u: State, t: State, i: nat, rev: Revents, pending: map<int, Text>)
    requires i < |s.slots| == |u.slots| == |t.slots| && u.slots[i] == s.slots[i]
    requires SameView(s.trace, u.trace, s.slots[i].fd) && Effect(u, t, i, rev, pending)
    ensures Effect(s, t, i, rev, pending)
  {
    hide ParseAll, Ordinal, Arrived, Dispatched;
  }

  lemma EffectAfter(s: State, u: State, t: State, i: nat, rev: Revents, pending: map<int, Text>)
    requires i < |s.slots| == |u.slots| == |t.slots| && t.slots[i] == u.slots[i]
    requires SameView(u.trace, t.trace, s.slots[i].fd) && Effect(s, u, i, rev, pending)
    ensures Effect(s, t, i, rev, pending)
  {
    hide ParseAll, Ordinal, Arrived, Dispatched;
  }

  ghost predicate InSlotOrder(s: State, order: seq<nat>)
  {
    && (forall r :: 0 <= r < |order| ==> order[r] < |s.slots| && s.slots[order[r]].used)
    && (forall r, q :: 0 <= r < q < |order| ==> order[r] < order[q])
  }

  lemma {:induction false} ScanOther(s: State, order: seq<nat>, revents: seq<Revents>, pending: map<int, Text>, i: nat)
    requires Inv(s) && Settled(s) && |order| <= |revents| && InSlotOrder(s, order)
    requires i < |s.slots| && s.slots[i].used && forall r :: 0 <= r < |order| ==> order[r] != i
    ensures Scan(s, order, revents, pending).slots[i] == s.slots[i]
    ensures SameView(s.trace, Scan(s, order, revents, pending).trace, s.slots[i].fd)
    decreases |order|
  {
    hide Inv, Settled, ServeSlot, Ordinal, Arrived, Dispatched;
    if order != [] {
      var n := |order| - 1;
      var u := Scan(s, order[..n], revents, pending);
      ScanOther(s, order[..n], revents, pending, i);
      ScanKeepsInv(s, order[..n], revents, pending);
      assert u.slots[order[n]] == s.slots[order[n]];
      DifferentFds(s, i, order[n]);
      ServeOther(u, order[n], revents[n], pending, i, s.slots[i].fd);
    }
  }

  lemma DifferentFds(s: State, i: nat, j: nat)
    requires Inv(s) && i < |s.slots| && j < |s.slots| && i != j && s.slots[i].used && s.slots[j].used
    ensures s.slots[i].fd != s.slots[j].fd
  {}

  lemma {:induction false} ScanEffect(s: State, order: seq<nat>, revents: seq<Revents>, pending: map<int, Text>, r: nat)
    requires Inv(s) && Settled(s) && |order| <= |revents| && InSlotOrder(s, order) && r < |order|
    ensures Effect(s, Scan(s, order, revents, pending), order[r], revents[r], pending)
    decreases |order|
  {
    hide Inv, Settled, ServeSlot, Effect, SameView;
    var n := |order| - 1;
    var i := order[r];
    var u, t := Scan(s, order[..n], revents, pending), Scan(s, order, revents, pending);
    ScanKeepsInv(s, order[..n], revents, pending);
    assert u.slots[order[n]] == s.slots[order[n]];
    if r == n {
      ScanOther(s, order[..n], revents, pending, i);
      ServeOwn(u, i, revents[n], pending);
      EffectBefore(s, u, t, i, revents[n], pending);
    } else {
      ScanEffect(s, order[..n], revents, pending, r);
      DifferentFds(s, i, order[n]);
      ServeOther(u, order[n], revents[n], pending, i, s.slots[i].fd);
      EffectAfter(s, u, t, i, revents[r], pending);
    }
  }

  // ---- the pass ----

  lemma AcceptedOther(s: State, fd: int, i: nat)
    requires i < |s.slots| && s.slots[i].used && (fd >= 0 ==> Legal(s, Accept(fd)))
    ensures Accepted(s, fd).slots[i] == s.slots[i]
    ensures SameView(s.trace, Accepted(s, fd).trace, s.slots[i].fd)
  {
    hide Ordinal, Arrived, Dispatched;
    if fd >= 0 { AcceptView(s, fd, s.slots[i].fd); }
  }

  /** The pass, client by client. Unless the accept fills a slot below a used one, everybody connected at the
      beginning gets what its own descriptor calls for, whatever happens to the others. */
  lemma PassServesEverybody(s: State, r: Round, i: nat)
    requires Inv(s) && Settled(s) && RoundLegal(s, r) && !FillsHole(s, r.accepted)
    requires i < |s.slots| && s.slots[i].used
    ensures Effect(s, After(s, r), i, r.ready[s.slots[i].fd], r.pending)
  {
    hide Inv, Settled, Scan, UsedSlots, AcceptOne, Effect, FillsHole, SameView;
    var u := Accepted(s, r.accepted);
    var k := |UsedSlots(s.slots, i)|;
    ServedAt(s, r, i);
    if r.accepted >= 0 { EventKeepsInv(s, Connect(r.accepted)); }
    UsedOrdered(u.slots, |u.slots|);
    ScanEffect(u, Served(s, r), Polled(s.slots, r.ready), r.pending, k);
    OwnEntry(s, r, k);
    AcceptedOther(s, r.accepted, i);
    EffectBefore(s, u, After(s, r), i, r.ready[s.slots[i].fd], r.pending);
  }

  lemma ServedAt(s: State, r: Round, i: nat)
    requires RoundLegal(s, r) && !FillsHole(s, r.accepted) && i < |s.slots| && s.slots[i].used
    ensures var k := |UsedSlots(s.slots, i)|; k < |Served(s, r)| && Served(s, r)[k] == i
  {
    hide UsedSlots, AcceptOne;
    OrderUnchanged(s, r.accepted);
    UsedMember(s.slots, i, |s.slots|);
    assert Served(s, r) == UsedSlots(s.slots, |s.slots|);
  }

  /** A newcomer that fills no hole is not served in its own pass: after it, it has a slot, is not joined and
      its buffer is empty. */
  lemma NewcomerWaits(s: State, r: Round)
    requires Inv(s) && Settled(s) && RoundLegal(s, r) && r.accepted >= 0 && !FillsHole(s, r.accepted)
    requires FirstFree(s.slots, |s.slots|) >= 0
    ensures var a := FirstFree(s.slots, |s.slots|);
            var c := After(s, r).slots[a];
            c.used && c.fd == r.accepted && !c.joined && c.inbuf == []
  {
    hide Inv, Settled, Scan, UsedSlots;
    var a := FirstFree(s.slots, |s.slots|);
    var u := Accepted(s, r.accepted);
    OrderUnchanged(s, r.accepted);
    var order := Served(s, r);
    assert order == UsedSlots(s.slots, |s.slots|);
    assert forall k :: 0 <= k < |order| ==> s.slots[order[k]].used;
    ScanLeaves(u, order, Polled(s.slots, r.ready), r.pending, a);
  }
}
