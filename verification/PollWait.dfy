/** When `recv` is called on a descriptor that has nothing to give, so that the server stops and waits. */
module PollWait {
  import opened Bytes
  import opened ServerSpec
  import opened ServerRuns
  import opened ServerEvents
  import opened PollPass
  import opened PollHole
  import opened RoundLaws

  /** Every used slot's descriptor has been polled. */
  predicate Covers(s: State, ready: map<int, Revents>)
  {
    forall j :: 0 <= j < |s.slots| && s.slots[j].used ==> s.slots[j].fd in ready
  }

  /** What poll reports readable can be received from at once. */
  predicate Honest(ready: map<int, Revents>, atOnce: set<int>)
  {
    forall fd :: fd in ready && ready[fd].readable ==> fd in atOnce
  }

  /** The state in which the scan comes to its `k`-th slot. */
  function Before(s: State, r: Round, k: nat): (u: State)
    requires Covers(s, r.ready) && k <= |Served(s, r)|
    ensures |u.slots| == |s.slots|
  {
    Scan(Accepted(s, r.accepted), Served(s, r)[..k], Polled(s.slots, r.ready), r.pending)
  }

  /** The `k`-th slot served is read although its descriptor has nothing to give. */
  predicate WaitsAt(s: State, r: Round, atOnce: set<int>, k: nat)
    requires Covers(s, r.ready) && k < |Served(s, r)|
  {
    var rev := Polled(s.slots, r.ready)[k];
    !rev.failed && rev.readable && Before(s, r, k).slots[Served(s, r)[k]].fd !in atOnce
  }

  ghost predicate PassWaits(s: State, r: Round, atOnce: set<int>)
    requires Covers(s, r.ready)
  {
    exists k :: 0 <= k < |Served(s, r)| && WaitsAt(s, r, atOnce, k)
  }

  /** The accept of the pass fills a slot below a used one. */
  ghost predicate FillsHole(s: State, accepted: int)
  {
    && accepted >= 0 && FirstFree(s.slots, |s.slots|) >= 0
    && exists j :: FirstFree(s.slots, |s.slots|) < j < |s.slots| && s.slots[j].used
  }

  /** A slot not served yet is as it was. */
  lemma {:induction false} ScanLeaves(s: State, order: seq<nat>, revents: seq<Revents>, pending: map<int, Text>, j: nat)
    requires |order| <= |revents| && j < |s.slots|
    requires forall r :: 0 <= r < |order| ==> order[r] < |s.slots| && order[r] != j
    ensures Scan(s, order, revents, pending).slots[j] == s.slots[j]
    decreases |order|
  {
    hide ServeSlot;
    if order != [] {
      var n := |order| - 1;
      ScanLeaves(s, order[..n], revents, pending, j);
      ServeTouchesOne(Scan(s, order[..n], revents, pending), order[n], revents[n], pending);
    }
  }

  lemma ServedLeft(s: State, r: Round, k: nat)
    requires Covers(s, r.ready) && k < |Served(s, r)|
    ensures Before(s, r, k).slots[Served(s, r)[k]] == Accepted(s, r.accepted).slots[Served(s, r)[k]]
  {
    hide Scan, UsedSlots, AcceptOne;
    var u := Accepted(s, r.accepted);
    UsedOrdered(u.slots, |u.slots|);
    ScanLeaves(u, Served(s, r)[..k], Polled(s.slots, r.ready), r.pending, Served(s, r)[k]);
  }

  // ---- well paired ----

  lemma OwnEntry(s: State, r: Round, k: nat)
    requires Covers(s, r.ready) && !FillsHole(s, r.accepted) && k < |Served(s, r)|
    ensures var i := Served(s, r)[k];
            && s.slots[i].used && Accepted(s, r.accepted).slots[i] == s.slots[i]
            && Polled(s.slots, r.ready)[k] == r.ready[s.slots[i].fd]
  {
    hide UsedSlots;
    OrderUnchanged(s, r.accepted);
    var entries := UsedSlots(s.slots, |s.slots|);
    assert Served(s, r) == entries;
    assert s.slots[entries[k]].used;
  }

  lemma NeverWaitsPaired(s: State, r: Round, atOnce: set<int>)
    requires Covers(s, r.ready) && Honest(r.ready, atOnce) && !FillsHole(s, r.accepted)
    ensures !PassWaits(s, r, atOnce)
  {
    hide Served, Before, Polled, Accepted;
    forall k | 0 <= k < |Served(s, r)| ensures !WaitsAt(s, r, atOnce, k)
    {
      OwnEntry(s, r, k);
      ServedLeft(s, r, k);
    }
  }

  // ---- a hole filled ----

  /** The slot whose entry the newcomer takes: the lowest used one above the hole. */
  function NextUsed(slots: seq<Slot>, a: nat): (j: nat)
    requires a < |slots| && exists k :: a < k < |slots| && slots[k].used
    ensures a < j < |slots| && slots[j].used && forall k :: a < k < j ==> !slots[k].used
    decreases |slots| - a
  {
    if slots[a + 1].used then a + 1
    else
      var j := NextUsed(slots, a + 1);
      assert !slots[a + 1].used;
      j
  }

  function OnlyReadable(slots: seq<Slot>, fd: int): (ready: map<int, Revents>)
    ensures forall j :: 0 <= j < |slots| && slots[j].used ==> slots[j].fd in ready
    ensures forall g :: g in ready ==> ready[g] == Revents(false, g == fd)
  {
    map j | 0 <= j < |slots| && slots[j].used :: slots[j].fd := Revents(false, slots[j].fd == fd)
  }

  /** The next client up has sent something, nobody else, and the newcomer is read in its place. */
  lemma NewcomerIsWaitedFor(s: State, accepted: int) returns (r: Round, atOnce: set<int>)
    requires Legal(s, Accept(accepted)) && FillsHole(s, accepted)
    ensures r.accepted == accepted && Covers(s, r.ready) && Honest(r.ready, atOnce) && PassWaits(s, r, atOnce)
  {
    hide UsedSlots, Scan, AcceptOne, FirstFree;
    var a := FirstFree(s.slots, |s.slots|);
    var j := NextUsed(s.slots, a);
    var fd := s.slots[j].fd;
    r, atOnce := Round(accepted, OnlyReadable(s.slots, fd), map[]), {fd};
    HoleIsFree(s.slots);
    NewcomerTakesNextEntry(s, accepted, r.ready, j);
    var k := |UsedSlots(s.slots, a)|;
    assert Served(s, r)[k] == a;
    ServedLeft(s, r, k);
    assert WaitsAt(s, r, atOnce, k);
  }

  lemma HoleIsFree(slots: seq<Slot>)
    requires FirstFree(slots, |slots|) >= 0
    ensures !slots[FirstFree(slots, |slots|)].used
  {}

  /** The exact law. Whatever poll reports truthfully, no pass that accepts this descriptor waits in `recv`,
      if and only if the accept does not fill a slot below a used one. */
  lemma NeverWaitsExactly(s: State, accepted: int)
    requires accepted >= 0 ==> Legal(s, Accept(accepted))
    ensures (forall r: Round, atOnce: set<int> ::
               r.accepted == accepted && Covers(s, r.ready) && Honest(r.ready, atOnce) ==> !PassWaits(s, r, atOnce))
       <==> !FillsHole(s, accepted)
  {
    hide Covers, Honest, PassWaits, FillsHole;
    if FillsHole(s, accepted) {
      HoleMeansAccept(s, accepted);
      var r, atOnce := NewcomerIsWaitedFor(s, accepted);
    } else {
      forall r: Round, atOnce: set<int> | r.accepted == accepted && Covers(s, r.ready) && Honest(r.ready, atOnce)
        ensures !PassWaits(s, r, atOnce)
      {
        NeverWaitsPaired(s, r, atOnce);
      }
    }
  }

  lemma HoleMeansAccept(s: State, accepted: int)
    requires FillsHole(s, accepted)
    ensures accepted >= 0
  {}
}
