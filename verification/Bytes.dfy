/** Bytes, C strings and the few formatting primitives the chat programs use. */
module Bytes {

  type byte = b: int | 0 <= b < 256
  type Text = seq<byte>

  const NUL: byte := 0
  const TAB: byte := 9
  const LF: byte := 10
  const CR: byte := 13
  const SPACE: byte := 32

  function Min(a: nat, b: nat): nat { if a <= b then a else b }

  /** The bytes of a string literal. */
  function Ascii(s: string): (t: Text)
    ensures |t| == |s|
    ensures forall k :: 0 <= k < |s| && s[k] as int < 256 ==> t[k] == s[k] as int
  {
    seq(|s|, k requires 0 <= k < |s| => s[k] as int % 256)
  }

  /** What the C string functions see of a buffer: everything before the first NUL. */
  function CStr(s: Text): (t: Text)
    ensures t <= s
    ensures NUL !in t
    ensures |t| < |s| ==> s[|t|] == NUL
  {
    if s == [] || s[0] == NUL then [] else [s[0]] + CStr(s[1..])
  }

  /** A text without NUL is its own C string. */
  lemma CStrWhole(s: Text)
    requires NUL !in s
    ensures CStr(s) == s
  {
    assert |CStr(s)| == |s|;
  }

  lemma {:induction false} CStrAt(s: Text, k: nat)
    requires k < |s| && s[k] == NUL && NUL !in s[..k]
    ensures CStr(s) == s[..k]
  {
    if k > 0 {
      assert s[0] in s[..k];
      assert forall x :: x in s[1..][..k - 1] ==> x in s[..k];
      CStrAt(s[1..], k - 1);
    }
  }

  /** `snprintf` into a buffer of `cap` bytes: at most cap - 1 of them are text. */
  function Snprintf(cap: nat, full: Text): (t: Text)
    requires cap > 0
    ensures t <= full
    ensures |full| < cap ==> t == full
    ensures |t| == Min(|full|, cap - 1)
  {
    if |full| < cap then full else full[..cap - 1]
  }

  /** `%u`. */
  function Decimal(n: nat): (t: Text)
    ensures |t| >= 1
    ensures forall k :: 0 <= k < |t| ==> 48 <= t[k] <= 57
  {
    if n < 10 then [48 + n] else Decimal(n / 10) + [48 + n % 10]
  }

  /** A number below 10^d takes at most d digits. */
  lemma {:induction false} DecimalWidth(n: nat, d: nat)
    requires d >= 1 && n < Pow10(d)
    ensures |Decimal(n)| <= d
  {
    if n >= 10 {
      assert Pow10(d) == 10 * Pow10(d - 1);
      DecimalWidth(n / 10, d - 1);
    }
  }

  function Pow10(d: nat): nat { if d == 0 then 1 else 10 * Pow10(d - 1) }

  lemma DecimalU32(n: nat)
    requires n < 0x1_0000_0000
    ensures |Decimal(n)| <= 10
    ensures NUL !in Decimal(n)
  {
    assert Pow10(10) == 10_000_000_000 by {
      assert Pow10(3) == 1000; assert Pow10(6) == 1000 * Pow10(3); assert Pow10(9) == 1000 * Pow10(6);
    }
    DecimalWidth(n, 10);
  }

  /** The last `n` elements, or all of them when there are fewer. */
  function Last<T>(s: seq<T>, n: nat): (t: seq<T>)
    ensures |t| == Min(|s|, n)
  {
    if |s| <= n then s else s[|s| - n..]
  }

  function Concat(ts: seq<Text>): Text
  {
    if ts == [] then [] else Concat(ts[..|ts| - 1]) + ts[|ts| - 1]
  }

  lemma {:induction false} ConcatCons(t: Text, ts: seq<Text>)
    ensures Concat([t] + ts) == t + Concat(ts)
  {
    if ts == [] {
      assert [t] + ts == [t];
      assert [t][..0] == [];
    } else {
      var front := ts[..|ts| - 1];
      assert ([t] + ts)[..|ts|] == [t] + front;
      ConcatCons(t, front);
    }
  }

  lemma {:induction false} ConcatPrefix(ts: seq<Text>, k: nat)
    requires k <= |ts|
    ensures Concat(ts[..k]) <= Concat(ts)
  {
    if k == |ts| {
      assert ts[..k] == ts;
    } else {
      var front := ts[..|ts| - 1];
      assert front[..k] == ts[..k];
      ConcatPrefix(front, k);
    }
  }
}
