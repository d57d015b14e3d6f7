/** io.c: full reads and writes over system calls that may move fewer bytes than asked or be interrupted,
    and `send_frame` on top of them. */
module Io {
  import opened Bytes
  import opened ChatProto
  import opened Framing

  /** What one `read` or `write` does: EINTR, another error, or at most `n` bytes. */
  datatype Outcome = Interrupted | Failed | Moved(n: nat)

  /** How many bytes the calls of a schedule would move before the first error. */
  function Capacity(schedule: seq<Outcome>): nat
  {
    if schedule == [] || schedule[0].Failed? then 0
    else (if schedule[0].Moved? then schedule[0].n else 0) + Capacity(schedule[1..])
  }

  lemma NoCalls()
    ensures Capacity([]) == 0
  {}

  lemma {:induction false} CapacityNext(schedule: seq<Outcome>, k: nat)
    requires k < |schedule| && forall j :: 0 <= j < k ==> schedule[j] != Failed
    ensures Capacity(schedule[..k + 1])
         == Capacity(schedule[..k]) + if schedule[k].Moved? then schedule[k].n else 0
  {
    if k > 0 {
      CapacityNext(schedule[1..], k - 1);
      assert schedule[..k + 1][1..] == schedule[1..][..k] && schedule[..k][1..] == schedule[1..][..k - 1];
    }
  }

  /** The calls still to come when `left` bytes have been written, or an error has stopped the writing. */
  function Spent(schedule: seq<Outcome>, left: nat): seq<Outcome>
  {
    if left == 0 || schedule == [] then schedule
    else match schedule[0]
      case Interrupted => Spent(schedule[1..], left)
      case Failed => schedule[1..]
      case Moved(n) => Spent(schedule[1..], left - Min(n, left))
  }

  /** How much of a frame `send_frame` writes: header and body in calls of their own. */
  function FrameSent(schedule: seq<Outcome>, f: Frame): (n: nat)
    requires Fits(f)
    ensures n <= |Encode(f)|
  {
    if Capacity(schedule) < HEADER_SIZE then Capacity(schedule)
    else HEADER_SIZE + Min(|f.body|, Capacity(Spent(schedule, HEADER_SIZE)))
  }

  function AfterFrame(schedule: seq<Outcome>, f: Frame): seq<Outcome>
  {
    if Capacity(schedule) < HEADER_SIZE then Spent(schedule, HEADER_SIZE)
    else Spent(Spent(schedule, HEADER_SIZE), |f.body|)
  }

  /** How much of a list of frames is written when sending stops at the first failure. */
  function ListSent(schedule: seq<Outcome>, fs: seq<Frame>): (n: nat)
    requires AllFit(fs)
    ensures n <= |EncodeAll(fs)|
    decreases |fs|
  {
    if fs == [] then 0
    else
      assert fs == [fs[0]] + fs[1..];
      EncodeAllCons(fs[0], fs[1..]);
      var n := FrameSent(schedule, fs[0]);
      if n < |Encode(fs[0])| then n else n + ListSent(AfterFrame(schedule, fs[0]), fs[1..])
  }

  lemma NothingEncoded()
    ensures EncodeAll([]) == []
  {}

  /** What a reader gets that is fed whatever arrives, in any pieces: never anything but the frames sent, in
      order, and all of them exactly when every send succeeded. */
  lemma SentIsReceived(schedule: seq<Outcome>, fs: seq<Frame>, chunks: seq<Text>)
    requires AllFit(fs)
    requires Concat(chunks) == EncodeAll(fs)[..ListSent(schedule, fs)]
    ensures !Feed(chunks).closed && Feed(chunks).frames <= fs
    ensures Feed(chunks) == Reader(fs, [], false) <==> Feed(chunks).frames == fs
    ensures Feed(chunks).frames == fs <==> ListSent(schedule, fs) == |EncodeAll(fs)|
  {
    hide Peek, ParseAll, EncodeAll, ListSent, Feed;
    var whole, m := EncodeAll(fs), ListSent(schedule, fs);
    var n := Consumed(chunks);
    ChunkingIrrelevant(chunks);
    ConcatPrefix(chunks, n);
    PartParsed(fs, |Concat(chunks[..n])|);
    assert Concat(chunks[..n]) == whole[..|Concat(chunks[..n])|];
    assert chunks[..|chunks|] == chunks;
  }

  /** A descriptor: the bytes written to it, the bytes waiting to be read from it, and what its next system
      calls will do. A schedule that runs out counts as an error. */
  class Descriptor {
    var written: Text
    var waiting: Text
    var schedule: seq<Outcome>

    constructor (waiting: Text, schedule: seq<Outcome>)
      ensures written == [] && this.waiting == waiting && this.schedule == schedule
    {
      written, this.waiting, this.schedule := [], waiting, schedule;
    }

    method NextCall() returns (r: Outcome)
      modifies this`schedule
      ensures old(schedule) == [] ==> r == Failed && schedule == []
      ensures old(schedule) != [] ==> r == old(schedule)[0] && schedule == old(schedule)[1..]
    {
      if schedule == [] {
        r := Failed;
      } else {
        r, schedule := schedule[0], schedule[1..];
      }
    }

    /** All of `buf`, or -1 after a proper prefix of it: as much as the calls before the first error move. */
    method WriteFull(buf: Text) returns (r: int)
      modifies this`written, this`schedule
      ensures var k := Min(|buf|, Capacity(old(schedule)));
              written == old(written) + buf[..k] && r == if k == |buf| then |buf| else -1
      ensures schedule == Spent(old(schedule), |buf|)
    {
      var p := 0;
      while p < |buf|
        invariant 0 <= p <= |buf| && written == old(written) + buf[..p]
        invariant Min(|buf|, Capacity(old(schedule))) == Min(|buf|, p + Capacity(schedule))
        invariant Spent(old(schedule), |buf|) == Spent(schedule, |buf| - p)
        decreases |schedule|
      {
        ghost var before := schedule;
        var call := NextCall();
        match call
        case Interrupted =>
        case Failed => return -1;
        case Moved(n) =>
          var k := Min(n, |buf| - p);
          written := written + buf[p..p + k];
          assert buf[..p] + buf[p..p + k] == buf[..p + k];
          p := p + k;
      }
      assert buf[..|buf|] == buf;
      r := |buf|;
    }

    /** Up to `count` of the waiting bytes, in order, none lost. The first failed call made ends it with -1, as
        does a schedule that runs out; fewer bytes than asked for are returned only if the last call made
        moved none, because it is so scheduled or nothing waits. */
    method ReadFull(count: nat) returns (r: int, data: Text)
      modifies this`waiting, this`schedule
      ensures old(waiting) == data + waiting && |data| <= count
      ensures r == |data| || r == -1
      ensures |schedule| <= |old(schedule)|
      ensures var n := |old(schedule)| - |schedule|;
              && schedule == old(schedule)[n..]
              && |data| == Min(count, Min(|old(waiting)|, Capacity(old(schedule)[..n])))
              && (forall k :: 0 <= k < n - 1 ==> old(schedule)[k] != Failed)
              && (r == -1 ==> |data| < count && (schedule == [] || (n > 0 && old(schedule)[n - 1] == Failed)))
              && (n > 0 && old(schedule)[n - 1] == Failed ==> r == -1)
              && (0 <= r < count ==>
                    n > 0 && old(schedule)[n - 1].Moved? && (old(schedule)[n - 1].n == 0 || waiting == []))
    {
      hide Capacity;
      NoCalls();
      data := [];
      ghost var used := 0;
      while |data| < count
        invariant old(waiting) == data + waiting && |data| <= count
        invariant used <= |old(schedule)| && schedule == old(schedule)[used..]
        invariant forall k :: 0 <= k < used ==> old(schedule)[k] != Failed
        invariant |data| == Min(count, Min(|old(waiting)|, Capacity(old(schedule)[..used])))
        decreases |schedule|
      {
        if schedule != [] { CapacityNext(old(schedule), used); }
        var call := NextCall();
        match call
        case Interrupted => used := used + 1;
        case Failed =>
          return -1, data;
        case Moved(n) =>
          used := used + 1;
          var k := Min(Min(n, count - |data|), |waiting|);
          if k == 0 {
            break;
          }
          data, waiting := data + waiting[..k], waiting[k..];
      }
      r := |data|;
    }

    /** `send_frame`: header and body, or a proper prefix of them when a call fails first. */
    method SendFrame(f: Frame) returns (ok: bool)
      requires Fits(f)
      modifies this`written, this`schedule
      ensures written == old(written) + Encode(f)[..FrameSent(old(schedule), f)]
      ensures ok <==> FrameSent(old(schedule), f) == |Encode(f)|
      ensures schedule == AfterFrame(old(schedule), f)
    {
      hide Capacity, Spent;
      var header := ToWire(Header(MAGIC, VERSION, f.kind, |f.body|));
      ghost var whole := Encode(f);
      assert whole == header + f.body;
      var r := WriteFull(header);
      if r != HEADER_SIZE {
        ghost var k := Capacity(old(schedule));
        assert header[..k] == whole[..k];
        return false;
      }
      assert header[..HEADER_SIZE] == header;
      NothingSpent(schedule);
      if |f.body| > 0 {
        ghost var k := Min(|f.body|, Capacity(schedule));
        r := WriteFull(f.body);
        assert written == old(written) + (header + f.body[..k]);
        assert header + f.body[..k] == whole[..HEADER_SIZE + k];
        if r != |f.body| {
          return false;
        }
      } else {
        assert whole[..HEADER_SIZE] == header;
      }
      ok := true;
    }

    /** Frames sent one after another, up to the first failure. */
    method SendAll(fs: seq<Frame>) returns (ok: bool)
      requires AllFit(fs)
      modifies this`written, this`schedule
      ensures written == old(written) + EncodeAll(fs)[..ListSent(old(schedule), fs)]
      ensures ok <==> ListSent(old(schedule), fs) == |EncodeAll(fs)|
    {
      hide Encode, FrameSent, AfterFrame, EncodeAll;
      var k := 0;
      NothingEncoded();
      assert fs[..0] == [] && fs[0..] == fs;
      while k < |fs|
        invariant 0 <= k <= |fs| && written == old(written) + EncodeAll(fs[..k])
        invariant ListSent(old(schedule), fs) == |EncodeAll(fs[..k])| + ListSent(schedule, fs[k..])
      {
        ghost var f, n := fs[k], FrameSent(schedule, fs[k]);
        ListParts(fs, k, n);
        assert fs[k..][0] == f && fs[k..][1..] == fs[k + 1..];
        ok := SendFrame(fs[k]);
        if !ok {
          return;
        }
        k := k + 1;
      }
      assert fs[..k] == fs;
      assert EncodeAll(fs)[..|EncodeAll(fs)|] == EncodeAll(fs);
      ok := true;
    }
  }

  lemma NothingSpent(schedule: seq<Outcome>)
    ensures Spent(schedule, 0) == schedule
  {}

  /** The first `k` frames and the first `n` bytes of the next one. */
  lemma ListParts(fs: seq<Frame>, k: nat, n: nat)
    requires AllFit(fs) && k < |fs| && n <= |Encode(fs[k])|
    ensures EncodeAll(fs[..k + 1]) == EncodeAll(fs[..k]) + Encode(fs[k])
    ensures |EncodeAll(fs[..k])| + |Encode(fs[k])| <= |EncodeAll(fs)|
    ensures EncodeAll(fs)[..|EncodeAll(fs[..k])| + n] == EncodeAll(fs[..k]) + Encode(fs[k])[..n]
    ensures Encode(fs[k])[..|Encode(fs[k])|] == Encode(fs[k])
  {
    hide Encode, EncodeAll;
    EncodeAllSnoc(fs[..k], fs[k]);
    assert fs[..k + 1] == fs[..k] + [fs[k]];
    EncodeAllPrefix(fs, k + 1);
    var done, next := EncodeAll(fs[..k]), Encode(fs[k]);
    assert (done + next)[..|done| + n] == done + next[..n];
  }

  lemma {:induction false} EncodeAllPrefix(fs: seq<Frame>, k: nat)
    requires AllFit(fs) && k <= |fs|
    ensures EncodeAll(fs[..k]) <= EncodeAll(fs)
  {
    if k == |fs| {
      assert fs[..k] == fs;
    } else {
      var front := fs[..|fs| - 1];
      assert front[..k] == fs[..k];
      EncodeAllPrefix(front, k);
    }
  }
}
