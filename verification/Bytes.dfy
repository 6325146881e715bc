/** Bytes, fixed-width integers and their encodings, shared by every other module. */
module Bytes {
  newtype byte = x: int | 0 <= x < 256

  type int32 = x: int | -0x8000_0000 <= x < 0x8000_0000
  type uint32 = x: int | 0 <= x < 0x1_0000_0000
  type uint64 = x: int | 0 <= x < 0x1_0000_0000_0000_0000

  datatype Option<+T> = None | Some(value: T)

  function Min(a: nat, b: nat): nat {
    if a < b then a else b
  }

  /** The effect of copying `t` over `s` at offset `p` (memcpy, or one field write). */
  function Splice<T>(s: seq<T>, p: nat, t: seq<T>): (r: seq<T>)
    requires p + |t| <= |s|
    ensures |r| == |s|
    ensures r[p..p + |t|] == t
    ensures forall i :: 0 <= i < p ==> r[i] == s[i]
    ensures forall i :: p + |t| <= i < |s| ==> r[i] == s[i]
  {
    s[..p] + t + s[p + |t|..]
  }

  lemma SpliceTwice<T>(s: seq<T>, p: nat, a: seq<T>, b: seq<T>)
    requires p + |a| + |b| <= |s|
    ensures Splice(Splice(s, p, a), p + |a|, b) == Splice(s, p, a + b)
  {
  }

  lemma SliceOfSlice<T>(s: seq<T>, p: nat, e: nat, i: nat, j: nat)
    requires p <= e <= |s| && i <= j <= e - p
    ensures s[p..e][i..j] == s[p + i..p + j]
  {
    var (a, b) := (s[p..e][i..j], s[p + i..p + j]);
    assert forall k :: 0 <= k < |a| ==> a[k] == b[k];
  }

  lemma Assoc<T>(a: seq<T>, b: seq<T>, c: seq<T>)
    ensures (a + b) + c == a + (b + c)
    ensures [] + a == a == a + []
  {
  }

  function Concat<T>(ss: seq<seq<T>>): seq<T> {
    if ss == [] then [] else ss[0] + Concat(ss[1..])
  }

  lemma ConcatCons<T>(x: seq<T>, a: seq<seq<T>>)
    ensures Concat([x] + a) == x + Concat(a)
  {
    assert ([x] + a)[1..] == a;
  }

  lemma {:induction false} ConcatAppend<T>(a: seq<seq<T>>, b: seq<seq<T>>)
    ensures Concat(a + b) == Concat(a) + Concat(b)
  {
    if a == [] {
      assert a + b == b;
    } else {
      assert Concat(a + b) == a[0] + (Concat(a[1..]) + Concat(b)) by {
        ConcatAppend(a[1..], b);
        assert (a + b)[1..] == a[1..] + b && (a + b)[0] == a[0];
      }
      Assoc(a[0], Concat(a[1..]), Concat(b));
    }
  }

  lemma ConcatSnoc<T>(a: seq<seq<T>>, x: seq<T>)
    ensures Concat(a + [x]) == Concat(a) + x
  {
    ConcatAppend(a, [x]);
    assert Concat([x]) == x + Concat([x][1..]) == x;
  }

  // ---- little-endian and big-endian unsigned integers ----

  function Pow256(k: nat): (p: nat)
    ensures 0 < p
  {
    if k == 0 then 1 else 256 * Pow256(k - 1)
  }

  /** Host order: the order in which the queue stores its block headers. */
  function LE(x: nat, k: nat): (s: seq<byte>)
    ensures |s| == k
  {
    if k == 0 then [] else [(x % 256) as byte] + LE(x / 256, k - 1)
  }

  function FromLE(s: seq<byte>): nat {
    if s == [] then 0 else s[0] as nat + 256 * FromLE(s[1..])
  }

  /** Network order: htonl, and the struct format ">I". */
  function BE(x: nat, k: nat): (s: seq<byte>)
    ensures |s| == k
  {
    if k == 0 then [] else BE(x / 256, k - 1) + [(x % 256) as byte]
  }

  function FromBE(s: seq<byte>): nat {
    if s == [] then 0 else 256 * FromBE(s[..|s| - 1]) + s[|s| - 1] as nat
  }

  lemma {:induction false} LERoundTrip(x: nat, k: nat)
    requires x < Pow256(k)
    ensures FromLE(LE(x, k)) == x
  {
    if k != 0 {
      LERoundTrip(x / 256, k - 1);
      assert LE(x, k)[1..] == LE(x / 256, k - 1);
    }
  }

  /** The low byte first, and in network order last. */
  lemma ByteOrder()
    ensures LE(0x01020304, 4) == [4, 3, 2, 1] && BE(0x01020304, 4) == [1, 2, 3, 4]
  {
    assert LE(0x01, 1) == [1] && LE(0x0102, 2) == [2, 1] && LE(0x010203, 3) == [3, 2, 1];
    assert BE(0x01, 1) == [1] && BE(0x0102, 2) == [1, 2] && BE(0x010203, 3) == [1, 2, 3];
  }

  lemma {:induction false} BERoundTrip(x: nat, k: nat)
    requires x < Pow256(k)
    ensures FromBE(BE(x, k)) == x
  {
    if k != 0 {
      BERoundTrip(x / 256, k - 1);
      assert BE(x, k)[..k - 1] == BE(x / 256, k - 1);
    }
  }

  lemma {:induction false} FromBERoundTrip(s: seq<byte>)
    ensures FromBE(s) < Pow256(|s|)
    ensures BE(FromBE(s), |s|) == s
  {
    if s != [] {
      FromBERoundTrip(s[..|s| - 1]);
      assert FromBE(s) / 256 == FromBE(s[..|s| - 1]);
    }
  }

  lemma FourBytes()
    ensures Pow256(4) == 0x1_0000_0000
    ensures Pow256(8) == 0x1_0000_0000_0000_0000
  {
    assert Pow256(2) == 0x1_0000;
    assert Pow256(4) == 0x1_0000_0000;
    assert Pow256(6) == 0x1_0000_0000_0000;
  }

  // ---- 32-bit integers as stored by the C++ code ----

  /** Assignment to a C `int` field: the value is truncated to 32 bits. */
  function Int32Bytes(x: int): (s: seq<byte>)
    ensures |s| == 4
  {
    LE(x % 0x1_0000_0000, 4)
  }

  function ToInt32(s: seq<byte>): int {
    var n := FromLE(s);
    if n < 0x8000_0000 then n else n - 0x1_0000_0000
  }

  lemma Int32RoundTrip(x: int32)
    ensures ToInt32(Int32Bytes(x)) == x
  {
    hide LE, FromLE;
    FourBytes();
    LERoundTrip(x % 0x1_0000_0000, 4);
  }

  /** memcpy into an array. */
  method Store(a: array<byte>, p: nat, t: seq<byte>)
    requires p + |t| <= a.Length
    modifies a
    ensures a[..] == Splice(old(a[..]), p, t)
  {
    ghost var was := a[..];
    for i := 0 to |t|
      invariant forall k :: 0 <= k < a.Length ==> a[k] == if p <= k < p + i then t[k - p] else was[k]
    {
      a[p + i] := t[i];
    }
    assert a[..] == was[..p] + t + was[p + |t|..];
  }
}
