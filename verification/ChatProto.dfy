/** chat_proto.h: message kinds, size limits and the 16-byte header in network byte order. */
module ChatProto {
  import opened Bytes

  type u32 = x: int | 0 <= x < 0x1_0000_0000

  const MAGIC: u32 := 0x43484154
  const VERSION: u32 := 1
  const MAX_NICK: nat := 31
  const MAX_BODY: nat := 2048
  const HEADER_SIZE: nat := 16
  const RECV_CAP: nat := HEADER_SIZE + MAX_BODY

  const JOIN: u32 := 1
  const JOIN_ACK: u32 := 2
  const BROADCAST: u32 := 3
  const PRIVATE: u32 := 4
  const LIST: u32 := 5
  const LIST_REPLY: u32 := 6
  const NOTIFY: u32 := 7
  const ERROR: u32 := 8
  const HISTORY: u32 := 9

  datatype Header = Header(magic: u32, version: u32, kind: u32, bodyLen: u32)

  /** `htonl` seen in memory: most significant byte first. */
  function PutU32(x: u32): (t: Text)
    ensures |t| == 4
  {
    [x / 0x100_0000, x / 0x1_0000 % 256, x / 256 % 256, x % 256]
  }

  /** `ntohl` of four bytes in memory. */
  function GetU32(t: Text): u32
    requires |t| == 4
  {
    t[0] as int * 0x100_0000 + t[1] as int * 0x1_0000 + t[2] as int * 256 + t[3] as int
  }

  function ToWire(h: Header): (t: Text)
    ensures |t| == HEADER_SIZE
  {
    PutU32(h.magic) + PutU32(h.version) + PutU32(h.kind) + PutU32(h.bodyLen)
  }

  function FromWire(t: Text): Header
    requires |t| == HEADER_SIZE
  {
    Header(GetU32(t[0..4]), GetU32(t[4..8]), GetU32(t[8..12]), GetU32(t[12..16]))
  }

  predicate HeaderValid(h: Header)
  {
    h.magic == MAGIC && h.version == VERSION && h.bodyLen <= MAX_BODY
  }

  lemma U32RoundTrip(x: u32)
    ensures GetU32(PutU32(x)) == x
  {
    var a, b := x / 256, x / 0x1_0000;
    assert x == 256 * a + x % 256;
    assert a == 256 * (a / 256) + a % 256;
    assert b == 256 * (b / 256) + b % 256;
    assert a / 256 == b && b / 256 == x / 0x100_0000;
  }

  lemma BytesRoundTrip(t: Text)
    requires |t| == 4
    ensures PutU32(GetU32(t)) == t
  {
    var a, b, c, d := t[0] as int, t[1] as int, t[2] as int, t[3] as int;
    var x: int := GetU32(t);
    assert x / 256 == a * 0x1_0000 + b * 256 + c && x % 256 == d;
    assert x / 0x1_0000 == a * 256 + b && x / 0x100_0000 == a;
    assert (a * 0x1_0000 + b * 256 + c) % 256 == c && (a * 256 + b) % 256 == b;
    assert PutU32(x) == [a, b, c, d];
  }

  /** Header encoding is a bijection between headers and 16-byte strings. */
  lemma HeaderRoundTrip(h: Header)
    ensures FromWire(ToWire(h)) == h
  {
    var t := ToWire(h);
    assert t[0..4] == PutU32(h.magic) && t[4..8] == PutU32(h.version);
    assert t[8..12] == PutU32(h.kind) && t[12..16] == PutU32(h.bodyLen);
    U32RoundTrip(h.magic);
    U32RoundTrip(h.version);
    U32RoundTrip(h.kind);
    U32RoundTrip(h.bodyLen);
  }

  lemma WireRoundTrip(t: Text)
    requires |t| == HEADER_SIZE
    ensures ToWire(FromWire(t)) == t
  {
    BytesRoundTrip(t[0..4]);
    BytesRoundTrip(t[4..8]);
    BytesRoundTrip(t[8..12]);
    BytesRoundTrip(t[12..16]);
    assert t == t[0..4] + t[4..8] + t[8..12] + t[12..16];
  }

  /** Byte-wise order: the first byte that differs decides. */
  predicate Before(a: Text, b: Text)
    requires |a| == |b|
  {
    a != [] && (a[0] < b[0] || (a[0] == b[0] && Before(a[1..], b[1..])))
  }

  /** In network byte order numbers compare as their bytes do. */
  lemma NetworkOrder(x: u32, y: u32)
    ensures x < y <==> Before(PutU32(x), PutU32(y))
  {
    hide PutU32, GetU32, Before;
    U32RoundTrip(x);
    U32RoundTrip(y);
    BytesCompare(PutU32(x), PutU32(y));
  }

  lemma BytesCompare(a: Text, b: Text)
    requires |a| == |b| == 4
    ensures GetU32(a) < GetU32(b) <==> Before(a, b)
  {
    hide Before;
    Before4(a, b);
    FirstDecides(a[2], a[3], b[2], b[3], 256);
    var a2: int, b2: int, a1: int, b1: int := a[2], b[2], a[1], b[1];
    FirstDecides(a1, a2 * 256 + a[3], b1, b2 * 256 + b[3], 0x1_0000);
    FirstDecides(a[0], a1 * 0x1_0000 + a2 * 256 + a[3], b[0], b1 * 0x1_0000 + b2 * 256 + b[3], 0x100_0000);
  }

  lemma FirstDecides(hi: nat, lo: nat, hi': nat, lo': nat, base: nat)
    requires lo < base && lo' < base
    ensures hi * base + lo < hi' * base + lo' <==> hi < hi' || (hi == hi' && lo < lo')
  {
    if hi < hi' { assert (hi + 1) * base <= hi' * base; }
    if hi' < hi { assert (hi' + 1) * base <= hi * base; }
  }

  lemma Before4(a: Text, b: Text)
    requires |a| == |b| == 4
    ensures Before(a, b)
       <==> a[0] < b[0] || (a[0] == b[0] && (a[1] < b[1] || (a[1] == b[1] && (a[2] < b[2] || (a[2] == b[2] && a[3] < b[3])))))
  {
    var a1, b1 := a[1..], b[1..];
    var a2, b2 := a1[1..], b1[1..];
    var a3, b3 := a2[1..], b2[1..];
    assert !Before(a3[1..], b3[1..]);
    assert Before(a3, b3) <==> a[3] < b[3];
    assert Before(a2, b2) <==> a[2] < b[2] || (a[2] == b[2] && Before(a3, b3));
    assert Before(a1, b1) <==> a[1] < b[1] || (a[1] == b[1] && Before(a2, b2));
  }

  /** Any header of the protocol on the wire: "CHAT", version 1, the kind, the body length. */
  lemma HeaderOnTheWire(kind: u32, bodyLen: u32)
    requires kind < 256 && bodyLen <= 2048
    ensures ToWire(Header(MAGIC, VERSION, kind, bodyLen))
         == Ascii("CHAT") + [0, 0, 0, 1] + [0, 0, 0, kind] + [0, 0, bodyLen / 256, bodyLen % 256]
  {
    assert Ascii("CHAT") == ['C' as int, 'H' as int, 'A' as int, 'T' as int];
  }
}
