/**
 * What Copy and Move put at their destination. Both copy block after block but never
 * advance the destination pointer, so each block is copied over the one before it.
 */
module Overlays {
  import opened Bytes

  /** The destination after `n` bytes have been asked of the unread `parts`, block by block. */
  function Overlay(parts: seq<seq<byte>>, n: nat, dst: seq<byte>): (r: seq<byte>)
    requires n <= |dst|
    ensures |r| == |dst|
  {
    if parts == [] then dst
    else if n <= |parts[0]| then parts[0][..n] + dst[n..]
    else Overlay(parts[1..], n - |parts[0]|, parts[0] + dst[|parts[0]|..])
  }

  /** Blocks in front and then blocks behind: the second go over what the first have left. */
  lemma {:induction false} OverlayAppend(a: seq<seq<byte>>, b: seq<seq<byte>>, n: nat, dst: seq<byte>)
    requires |Concat(a)| < n <= |dst|
    ensures Overlay(a + b, n, dst) == Overlay(b, n - |Concat(a)|, Overlay(a, n, dst))
    decreases |a|
  {
    if a == [] {
      assert a + b == b;
    } else {
      assert Concat(a) == a[0] + Concat(a[1..]);
      assert (a + b)[1..] == a[1..] + b && (a + b)[0] == a[0];
      OverlayAppend(a[1..], b, n - |a[0]|, a[0] + dst[|a[0]|..]);
    }
  }

  lemma OverlayOne(p: seq<byte>, n: nat, dst: seq<byte>)
    requires n <= |dst|
    ensures Overlay([p], n, dst) == p[..Min(n, |p|)] + dst[Min(n, |p|)..]
  {
    OverlayStep([p], n, dst);
    OverlayNone(n - Min(n, |p|), p[..Min(n, |p|)] + dst[Min(n, |p|)..]);
  }

  /** The bytes taken, as a FIFO would deliver them. */
  function Taken(parts: seq<seq<byte>>, n: nat): seq<byte> {
    Concat(parts)[..Min(n, |Concat(parts)|)]
  }

  /** The unread parts after `n` bytes have been read: used-up blocks go, but not the last one. */
  function Skip(parts: seq<seq<byte>>, n: nat): seq<seq<byte>> {
    if parts == [] || n == 0 then parts
    else if n < |parts[0]| then [parts[0][n..]] + parts[1..]
    else if |parts| == 1 then [[]]
    else Skip(parts[1..], n - |parts[0]|)
  }

  /** One turn of the copying loop. */
  lemma OverlayStep(parts: seq<seq<byte>>, n: nat, dst: seq<byte>)
    requires n <= |dst| && parts != []
    ensures var k := Min(n, |parts[0]|);
      Overlay(parts, n, dst) == Overlay(parts[1..], n - k, parts[0][..k] + dst[k..])
  {
    if n > |parts[0]| {
      assert parts[0][..|parts[0]|] == parts[0];
    } else {
      OverlayZero(parts[1..], parts[0][..n] + dst[n..]);
    }
  }

  lemma OverlayZero(parts: seq<seq<byte>>, dst: seq<byte>)
    ensures Overlay(parts, 0, dst) == dst
  {
    if parts != [] {
      assert parts[0][..0] + dst[0..] == dst;
    }
  }

  lemma OverlayNone(n: nat, dst: seq<byte>)
    requires n <= |dst|
    ensures Overlay([], n, dst) == dst
  {
  }

  /** No block is longer than what is taken: a place past every copy keeps its old byte. */
  lemma {:induction false} OverlayKeeps(parts: seq<seq<byte>>, n: nat, dst: seq<byte>, k: nat)
    requires n <= |dst| && k < |dst|
    requires n <= k ||
      (parts != [] && n > |parts[0]| && |parts[0]| <= k && Min(n, |Concat(parts)|) <= k + 1 && 0 < |parts[0]|)
    ensures Overlay(parts, n, dst)[k] == dst[k]
    decreases |parts|
  {
    if parts != [] && n > |parts[0]| {
      var (rest, m, d) := (parts[1..], n - |parts[0]|, parts[0] + dst[|parts[0]|..]);
      assert Concat(parts) == parts[0] + Concat(rest);
      if n <= k || m <= k {
        OverlayKeeps(rest, m, d, k);
      } else {
        OverlayShort(rest, m, d, k);
      }
    }
  }

  lemma {:induction false} OverlayShort(parts: seq<seq<byte>>, n: nat, dst: seq<byte>, k: nat)
    requires n <= |dst| && k < |dst| && |Concat(parts)| <= k
    ensures Overlay(parts, n, dst)[k] == dst[k]
    decreases |parts|
  {
    if parts != [] {
      assert Concat(parts) == parts[0] + Concat(parts[1..]);
      if n > |parts[0]| {
        OverlayShort(parts[1..], n - |parts[0]|, parts[0] + dst[|parts[0]|..], k);
      }
    }
  }

  lemma OverlayInHead(parts: seq<seq<byte>>, n: nat, dst: seq<byte>)
    requires n <= |dst| && parts != [] && Min(n, |Concat(parts)|) <= |parts[0]|
    ensures Overlay(parts, n, dst)[..Min(n, |Concat(parts)|)] == Taken(parts, n)
  {
    assert Concat(parts) == parts[0] + Concat(parts[1..]);
    if n > |parts[0]| {
      assert Concat(parts[1..]) == [];
      OverlayNothing(parts[1..], n - |parts[0]|, parts[0] + dst[|parts[0]|..]);
    }
  }

  lemma {:induction false} OverlayNothing(parts: seq<seq<byte>>, n: nat, dst: seq<byte>)
    requires n <= |dst| && Concat(parts) == []
    ensures Overlay(parts, n, dst) == dst
    decreases |parts|
  {
    if parts != [] {
      assert Concat(parts) == parts[0] + Concat(parts[1..]);
      if n > |parts[0]| {
        OverlayNothing(parts[1..], n - |parts[0]|, parts[0] + dst[|parts[0]|..]);
      }
    }
  }

  /** The copy is right whatever the destination held before. */
  ghost predicate CopiedRight(parts: seq<seq<byte>>, n: nat) {
    forall dst: seq<byte> :: n <= |dst| ==>
      Overlay(parts, n, dst)[..Min(n, |Concat(parts)|)] == Taken(parts, n)
  }

  /**
   * Copy and Move deliver the bytes they count exactly when those bytes all lie in the
   * head block.
   */
  lemma CopiedRightIff(parts: seq<seq<byte>>, n: nat)
    requires parts != [] && parts[0] != []
    ensures CopiedRight(parts, n) <==> Min(n, |Concat(parts)|) <= |parts[0]|
  {
    hide Overlay, Concat, Taken;
    var t := Min(n, |Concat(parts)|);
    if t <= |parts[0]| {
      forall dst: seq<byte> | n <= |dst|
        ensures Overlay(parts, n, dst)[..t] == Taken(parts, n)
      {
        OverlayInHead(parts, n, dst);
      }
    } else {
      OverlayWrong(parts, n);
    }
  }

  lemma OverlayWrong(parts: seq<seq<byte>>, n: nat)
    requires parts != [] && parts[0] != [] && |parts[0]| < Min(n, |Concat(parts)|)
    ensures exists dst: seq<byte> :: |dst| == n && Overlay(parts, n, dst)[..Min(n, |Concat(parts)|)] != Taken(parts, n)
    ensures !CopiedRight(parts, n)
  {
    hide Overlay, Concat;
    var t := Min(n, |Concat(parts)|);
    var want := Taken(parts, n)[t - 1];
    var other: byte := if want == 0 then 1 else 0;
    var dst := seq(n, _ => other);
    OverlayKeeps(parts, n, dst, t - 1);
    assert Overlay(parts, n, dst)[..t][t - 1] == other;
  }

  /** Two blocks of one byte each: two bytes are counted, and the first place holds the second. */
  lemma TwoBlocksOverwrite()
    ensures Overlay([[1], [2]], 2, [0, 0]) == [2, 0]
    ensures Taken([[1], [2]], 2) == [1, 2]
  {
    var parts: seq<seq<byte>>, rest: seq<seq<byte>> := [[1], [2]], [[2]];
    assert parts[1..] == rest && rest[1..] == [];
    OverlayStep(parts, 2, [0, 0]);
    OverlayStep(rest, 1, [1, 0]);
    OverlayZero([], [2, 0]);
    assert Concat(rest) == [2] && Concat(parts) == [1, 2];
  }
}
