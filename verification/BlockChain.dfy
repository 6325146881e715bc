/**
 * Chains of blocks: what a well-formed chain is, one step on one block at a time, and what
 * happens to the blocks and to the pool when a chain grows or shrinks.
 */
module BlockChains {
  import opened Bytes
  import opened BlockPools
  import opened Overlays

  lemma {:induction false} ConcatSetLast(parts: seq<seq<byte>>, t: seq<byte>)
    requires parts != []
    ensures var k := |parts| - 1; Concat(parts[k := parts[k] + t]) == Concat(parts) + t
  {
    var k := |parts| - 1;
    assert parts == parts[..k] + [parts[k]];
    assert parts[k := parts[k] + t] == parts[..k] + [parts[k] + t];
    ConcatSnoc(parts[..k], parts[k]);
    ConcatSnoc(parts[..k], parts[k] + t);
  }

  /** The free lists after the blocks `bs` have been recycled one after the other. */
  ghost function Returned(m: map<nat, seq<Block>>, bs: seq<Block>): map<nat, seq<Block>> {
    if bs == [] then m else GiveBack(Returned(m, bs[..|bs| - 1]), bs[|bs| - 1])
  }

  ghost function SetOf(chain: seq<Block>): set<Block> {
    set b | b in chain
  }

  lemma SetSnoc(chain: seq<Block>, b: Block)
    ensures SetOf(chain + [b]) == SetOf(chain) + {b}
  {
  }

  ghost predicate Distinct(chain: seq<Block>) {
    forall i, j | 0 <= i < j < |chain| :: chain[i] != chain[j]
  }

  ghost function Follower(chain: seq<Block>, i: nat): Block?
    requires i < |chain|
  {
    if i + 1 < |chain| then chain[i + 1] else null
  }

  /** Block `b` is followed by `next`, `part` are its unread bytes, and only a last block has room. */
  ghost predicate At(b: Block, next: Block?, part: seq<byte>)
    reads b, b.buffer
  {
    && b.next == next
    && b.rdpos <= b.wrpos <= b.len <= b.rlen == b.buffer.Length
    && part == b.buffer[b.rdpos..b.wrpos]
    && (next != null ==> b.wrpos == b.len)
  }

  ghost predicate AllAt(chain: seq<Block>, parts: seq<seq<byte>>)
    reads chain, set b | b in chain :: b.buffer
  {
    && |chain| == |parts|
    && forall i | 0 <= i < |chain| :: At(chain[i], Follower(chain, i), parts[i])
  }

  lemma DistinctSnoc(chain: seq<Block>, b: Block)
    requires Distinct(chain) && b !in chain
    ensures Distinct(chain + [b])
    ensures chain != [] ==> forall i :: 0 <= i < |chain| - 1 ==> chain[i] != chain[|chain| - 1]
  {
  }

  lemma AllButLast(chain: seq<Block>, parts: seq<seq<byte>>)
    requires AllAt(chain, parts) && chain != []
    ensures |chain| == |parts|
    ensures forall i | 0 <= i < |chain| - 1 :: At(chain[i], chain[i + 1], parts[i])
    ensures At(chain[|chain| - 1], null, parts[|chain| - 1])
  {
    hide At;
    assert forall i :: 0 <= i < |chain| - 1 ==> Follower(chain, i) == chain[i + 1];
  }

  lemma LastDistinct(chain: seq<Block>)
    requires Distinct(chain) && chain != []
    ensures forall i :: 0 <= i < |chain| - 1 ==> chain[i] != chain[|chain| - 1]
  {
  }

  lemma ShapeOf(b: Block)
    ensures b.next == null ==> (Shape(b) <==> b.len == b.rlen && (b.rdpos < b.wrpos || b.wrpos == 0))
    ensures b.next != null ==> (Shape(b) <==> b.rdpos < b.wrpos)
  {
  }

  lemma AllAtSetLast(chain: seq<Block>, parts: seq<seq<byte>>, p: seq<byte>)
    requires |chain| == |parts| && chain != []
    requires forall i | 0 <= i < |chain| - 1 :: At(chain[i], chain[i + 1], parts[i])
    requires At(chain[|chain| - 1], null, p)
    ensures AllAt(chain, parts[|chain| - 1 := p])
  {
    hide At;
    var k := |chain| - 1;
    forall i | 0 <= i < |chain| ensures At(chain[i], Follower(chain, i), parts[k := p][i]) {
    }
  }

  lemma SetSame(parts: seq<seq<byte>>)
    ensures parts != [] ==> parts[|parts| - 1 := parts[|parts| - 1]] == parts
  {
  }

  lemma AllAtSetFirst(chain: seq<Block>, parts: seq<seq<byte>>, p: seq<byte>)
    requires |chain| == |parts| && chain != []
    requires forall i | 0 < i < |chain| :: At(chain[i], Follower(chain, i), parts[i])
    requires At(chain[0], Follower(chain, 0), p)
    ensures AllAt(chain, parts[0 := p])
  {
    hide At;
    forall i | 0 <= i < |chain| ensures At(chain[i], Follower(chain, i), parts[0 := p][i]) {
    }
  }

  lemma DistinctRest(chain: seq<Block>)
    requires Distinct(chain) && chain != []
    ensures Distinct(chain[1..])
    ensures forall i :: 0 < i < |chain| ==> chain[i] != chain[0]
  {
  }

  lemma RestOf(chain: seq<Block>)
    requires chain != []
    ensures forall i :: 0 <= i < |chain| - 1 ==> chain[1..][i] == chain[i + 1]
  {
  }

  lemma AllButFirst(chain: seq<Block>, parts: seq<seq<byte>>)
    requires AllAt(chain, parts) && chain != []
    ensures |chain| == |parts|
    ensures forall i | 0 < i < |chain| :: At(chain[i], Follower(chain, i), parts[i])
    ensures At(chain[0], Follower(chain, 0), parts[0])
  {
    hide At;
  }

  lemma AllAtRest(chain: seq<Block>, parts: seq<seq<byte>>)
    requires |chain| == |parts| && chain != []
    requires forall i | 0 < i < |chain| :: At(chain[i], Follower(chain, i), parts[i])
    ensures AllAt(chain[1..], parts[1..])
  {
    hide At;
    var (c, p) := (chain[1..], parts[1..]);
    forall i | 0 <= i < |c| ensures At(c[i], Follower(c, i), p[i]) {
      assert c[i] == chain[i + 1] && Follower(c, i) == Follower(chain, i + 1) && p[i] == parts[i + 1];
    }
  }

  lemma AllAtSnoc(chain: seq<Block>, parts: seq<seq<byte>>, b: Block)
    requires |chain| == |parts| && chain != []
    requires forall i | 0 <= i < |chain| - 1 :: At(chain[i], chain[i + 1], parts[i])
    requires At(chain[|chain| - 1], b, parts[|chain| - 1]) && At(b, null, [])
    ensures AllAt(chain + [b], parts + [[]])
  {
    hide At;
    var (c, p, k) := (chain + [b], parts + [[]], |chain| - 1);
    forall i | 0 <= i < |c| ensures At(c[i], Follower(c, i), p[i]) {
      if i < k {
        assert c[i] == chain[i] && c[i + 1] == chain[i + 1] && p[i] == parts[i];
      }
    }
  }

  /** A block before the tail has bytes to read; an empty tail is clean; a tail is never sealed. */
  ghost predicate Shape(b: Block)
    reads b
  {
    if b.next != null then b.rdpos < b.wrpos
    else b.len == b.rlen && (b.rdpos < b.wrpos || b.wrpos == 0)
  }

  /** From one state to the next, blocks only move between this buffer and the free lists. */
  ghost predicate Moved(free0: set<Block>, issued0: set<Block>, own0: set<Block>,
                        free1: set<Block>, issued1: set<Block>, own1: set<Block>) {
    && issued1 == (issued0 - own0) + own1
    && own1 !! issued0 - own0
    && free0 + issued0 <= free1 + issued1
  }

  /** What is no longer in the chain has gone to the free lists, from the front, in order. */
  ghost predicate Released(chain0: seq<Block>, lists0: map<nat, seq<Block>>,
                           chain1: seq<Block>, lists1: map<nat, seq<Block>>) {
    && |chain1| <= |chain0|
    && var k := |chain0| - |chain1|;
       chain1 == chain0[k..] && lists1 == Returned(lists0, chain0[..k])
  }

  lemma ReleasedRefl(chain: seq<Block>, lists: map<nat, seq<Block>>)
    ensures Released(chain, lists, chain, lists)
  {
  }

  lemma ReleasedOne(chain: seq<Block>, lists: map<nat, seq<Block>>)
    requires chain != []
    ensures Released(chain, lists, chain[1..], GiveBack(lists, chain[0]))
  {
    assert chain[..1][..0] == [] && chain[..1][0] == chain[0];
    assert Returned(lists, []) == lists;
  }

  lemma ReleasedTrans(chain0: seq<Block>, lists0: map<nat, seq<Block>>,
                      chain1: seq<Block>, lists1: map<nat, seq<Block>>,
                      chain2: seq<Block>, lists2: map<nat, seq<Block>>)
    requires Released(chain0, lists0, chain1, lists1) && Released(chain1, lists1, chain2, lists2)
    ensures Released(chain0, lists0, chain2, lists2)
  {
    var (k, j) := (|chain0| - |chain1|, |chain1| - |chain2|);
    assert chain0[k..][j..] == chain0[k + j..];
    assert chain0[..k] + chain1[..j] == chain0[..k + j];
    ReturnedAppend(lists0, chain0[..k], chain1[..j]);
  }

  lemma ReleasedLast(chain0: seq<Block>, lists0: map<nat, seq<Block>>, chain1: seq<Block>, lists1: map<nat, seq<Block>>)
    requires Released(chain0, lists0, chain1, lists1)
    ensures |chain1| == 1 ==> chain0 != [] && chain1[0] == chain0[|chain0| - 1]
  {
  }

  /** As Moved, when nothing was allocated: blocks only left this buffer. */
  ghost predicate Freed(free0: set<Block>, issued0: set<Block>, own0: set<Block>,
                        free1: set<Block>, issued1: set<Block>, own1: set<Block>) {
    && Moved(free0, issued0, own0, free1, issued1, own1)
    && own1 <= own0 && free1 <= free0 + own0
  }

  lemma FreedTrans(free0: set<Block>, issued0: set<Block>, own0: set<Block>,
                   free1: set<Block>, issued1: set<Block>, own1: set<Block>,
                   free2: set<Block>, issued2: set<Block>, own2: set<Block>)
    requires Freed(free0, issued0, own0, free1, issued1, own1)
    requires Freed(free1, issued1, own1, free2, issued2, own2)
    ensures Freed(free0, issued0, own0, free2, issued2, own2) && own2 <= own0
  {
  }

  lemma FreedRefl(free: set<Block>, issued: set<Block>, own: set<Block>)
    requires own <= issued
    ensures Freed(free, issued, own, free, issued, own) && own <= own
  {
  }

  /** A block is taken from the pool, and the last block of the chain is replaced by it. */
  lemma MovedSwap(free0: set<Block>, issued0: set<Block>, chain: seq<Block>, b: Block,
                  free1: set<Block>, issued1: set<Block>)
    requires chain != [] && Distinct(chain) && SetOf(chain) <= issued0 && b !in issued0
    requires issued1 == issued0 + {b} && free0 - {b} <= free1 <= free0
    ensures var (k, t) := (|chain| - 1, chain[|chain| - 1]);
      && Moved(free0, issued0, SetOf(chain), free1 + {t}, issued1 - {t}, SetOf(chain[k := b]))
      && SetOf(chain[k := b]) <= SetOf(chain) + {b} && t in SetOf(chain)
  {
    var k := |chain| - 1;
    var t := chain[k];
    var (own, own1) := (SetOf(chain), SetOf(chain[k := b]));
    assert own1 == own - {t} + {b} by {
      assert chain == chain[..k] + [t] && chain[k := b] == chain[..k] + [b];
      LastDistinct(chain);
      assert t !in chain[..k];
    }
  }

  lemma MovedTrans(free0: set<Block>, issued0: set<Block>, own0: set<Block>,
                   free1: set<Block>, issued1: set<Block>, own1: set<Block>,
                   free2: set<Block>, issued2: set<Block>, own2: set<Block>)
    requires Moved(free0, issued0, own0, free1, issued1, own1)
    requires Moved(free1, issued1, own1, free2, issued2, own2)
    ensures Moved(free0, issued0, own0, free2, issued2, own2)
  {
  }

  lemma ProgressDone(parts0: seq<seq<byte>>, len: nat, window: seq<byte>, rest: nat, acc: seq<byte>)
    requires
      || Progress(parts0, len, window, [], rest, acc)
      || (parts0 == [] && Progress(parts0, len, window, parts0, rest, acc))
    ensures len - rest == Min(len, |Concat(parts0)|)
    ensures acc == Overlay(parts0, len, window)
  {
    assert |Concat(parts0)[len - rest..]| == 0;
  }

  lemma ConcatOne(parts: seq<seq<byte>>)
    ensures |parts| == 1 ==> Concat(parts) == parts[0]
  {
  }

  lemma EmptyHead(chain: seq<Block>, parts: seq<seq<byte>>)
    requires |chain| == |parts| && chain != []
    ensures |parts| == 1 ==> Concat(parts) == parts[0]
    ensures |parts[0]| <= |Concat(parts)|
  {
  }

  lemma {:induction false} ReturnedAppend(m: map<nat, seq<Block>>, a: seq<Block>, b: seq<Block>)
    ensures Returned(m, a + b) == Returned(Returned(m, a), b)
  {
    if b == [] {
      assert a + b == a;
    } else {
      assert (a + b)[..|a + b| - 1] == a + b[..|b| - 1];
      ReturnedAppend(m, a, b[..|b| - 1]);
    }
  }

  /** How far the loop of Move has come: what is left to read, and what the destination holds. */
  ghost predicate Progress(parts0: seq<seq<byte>>, len: nat, window: seq<byte>,
                           parts: seq<seq<byte>>, rest: nat, acc: seq<byte>) {
    && rest <= len == |window| == |acc|
    && len - rest <= |Concat(parts0)|
    && Concat(parts) == Concat(parts0)[len - rest..]
    && Overlay(parts, rest, acc) == Overlay(parts0, len, window)
  }

  lemma ProgressStart(parts: seq<seq<byte>>, len: nat, window: seq<byte>)
    requires |window| == len
    ensures Progress(parts, len, window, parts, len, window)
  {
  }

  lemma ProgressTurn(parts0: seq<seq<byte>>, len: nat, window: seq<byte>,
                     parts: seq<seq<byte>>, rest: nat, acc: seq<byte>, k: nat)
    requires Progress(parts0, len, window, parts, rest, acc) && parts != [] && k == Min(rest, |parts[0]|)
    ensures var (n, acc1) := (len - rest + k, parts[0][..k] + acc[k..]);
      && (k == |parts[0]| ==> Progress(parts0, len, window, parts[1..], rest - k, acc1))
      && (k == rest || |parts| == 1 ==>
            && n == Min(len, |Concat(parts0)|)
            && Concat(parts[0 := parts[0][k..]]) == Concat(parts0)[n..]
            && acc1 == Overlay(parts0, len, window))
  {
    hide Overlay, Concat;
    OverlayStep(parts, rest, acc);
    ConcatSkip(parts, k);
    OverlayZero(parts[1..], parts[0][..k] + acc[k..]);
    if |parts| == 1 {
      OverlayNone(rest - k, parts[0][..k] + acc[k..]);
      assert parts[1..] == [];
    }
    assert Concat(parts0)[len - rest..][k..] == Concat(parts0)[len - rest + k..];
  }

  lemma ProgressEnd(parts0: seq<seq<byte>>, len: nat, window: seq<byte>, parts: seq<seq<byte>>, acc: seq<byte>)
    requires Progress(parts0, len, window, parts, 0, acc)
    ensures len == Min(len, |Concat(parts0)|) && Concat(parts) == Concat(parts0)[len..]
    ensures acc == Overlay(parts0, len, window)
  {
    OverlayZero(parts, acc);
  }

  lemma SkipNothing(parts: seq<seq<byte>>)
    ensures Skip(parts, 0) == parts
  {
  }

  /** One turn of the loop of Move: the head is read in part, or it is dropped, or it is the last. */
  lemma SkipTurn(parts: seq<seq<byte>>, rest: nat)
    requires parts != [] && 0 < rest
    ensures var k := Min(rest, |parts[0]|);
      && (k == |parts[0]| && 1 < |parts| ==> Skip(parts, rest) == Skip(parts[1..], rest - k))
      && (k < |parts[0]| || |parts| == 1 ==> Skip(parts, rest) == parts[0 := parts[0][k..]])
  {
    if |parts| == 1 && |parts[0]| <= rest {
      assert parts[0][|parts[0]|..] == [];
    }
  }

  lemma SpliceSelf(s: seq<byte>, off: nat, len: nat)
    requires off + len <= |s|
    ensures Splice(s, off, s[off..off + len]) == s
  {
  }

  lemma SpliceInside(s: seq<byte>, off: nat, acc: seq<byte>, t: seq<byte>)
    requires off + |acc| <= |s| && |t| <= |acc|
    ensures Splice(Splice(s, off, acc), off, t) == Splice(s, off, t + acc[|t|..])
  {
  }

  /** Reading `k` bytes of the first part, and dropping it once it is read. */
  lemma ConcatSkip(parts: seq<seq<byte>>, k: nat)
    requires parts != [] && k <= |parts[0]|
    ensures k <= |Concat(parts)|
    ensures Concat(parts[0 := parts[0][k..]]) == Concat(parts)[k..]
    ensures k == |parts[0]| ==> Concat(parts[1..]) == Concat(parts)[k..]
    ensures |parts| == 1 ==> |Concat(parts)| == |parts[0]|
  {
    assert parts[0 := parts[0][k..]][1..] == parts[1..];
  }

  lemma FreedDrop(free: set<Block>, issued: set<Block>, chain: seq<Block>)
    requires Distinct(chain) && chain != [] && SetOf(chain) <= issued
    ensures var (own, rest) := (SetOf(chain), SetOf(chain[1..]));
      rest <= own && Freed(free, issued, own, free + {chain[0]}, issued - {chain[0]}, rest)
  {
    DistinctRest(chain);
    assert chain == [chain[0]] + chain[1..];
  }

  lemma IssuedClean(mgr: BufferBlockMgr, b: Block)
    requires mgr.Valid() && b in mgr.issued && b.Clean()
    ensures At(b, null, []) && MIN_BLOCK_SIZE <= b.rlen
  {
    ClassAtLeast(b.rlen);
  }

  lemma NextOf(b: Block, next: Block?, part: seq<byte>)
    requires At(b, next, part)
    ensures b.next == next && b.rdpos <= b.wrpos <= b.len <= b.rlen == b.buffer.Length
    ensures part == b.buffer[b.rdpos..b.wrpos] && (next != null ==> b.wrpos == b.len)
  {
  }

  /** As NextOf, without the bytes. */
  lemma NextPos(b: Block, next: Block?, part: seq<byte>)
    requires At(b, next, part)
    ensures b.next == next && b.rdpos <= b.wrpos <= b.len <= b.rlen == b.buffer.Length
    ensures |part| == b.wrpos - b.rdpos
  {
  }

  // ---- one block at a time ----

  method WriteBlock(b: Block, t: seq<byte>, ghost part: seq<byte>)
    requires At(b, null, part) && b.wrpos + |t| <= b.len
    modifies b`wrpos, b.buffer
    ensures At(b, null, part + t) && b.wrpos == old(b.wrpos) + |t|
  {
    Store(b.buffer, b.wrpos, t);
    b.wrpos := b.wrpos + |t|;
  }

  method PokeBlock(b: Block, t: seq<byte>, ghost part: seq<byte>)
    requires At(b, null, part) && b.wrpos + |t| <= b.len
    modifies b.buffer
    ensures At(b, null, part) && b.buffer[b.wrpos..b.wrpos + |t|] == t
  {
    Store(b.buffer, b.wrpos, t);
  }

  method ExtendBlock(b: Block, n: nat, ghost part: seq<byte>)
    requires At(b, null, part) && b.wrpos + n <= b.len
    modifies b`wrpos
    ensures At(b, null, part + b.buffer[old(b.wrpos)..old(b.wrpos) + n]) && b.wrpos == old(b.wrpos) + n
  {
    b.wrpos := b.wrpos + n;
  }

  method LinkBlock(b: Block, next: Block, ghost was: Block?, ghost part: seq<byte>)
    requires At(b, was, part) && b.wrpos == b.len
    modifies b`next
    ensures At(b, next, part)
  {
    b.next := next;
  }

  method SkipBlock(b: Block, n: nat, ghost next: Block?, ghost part: seq<byte>)
    requires At(b, next, part) && n <= |part|
    modifies b`rdpos
    ensures At(b, next, part[n..]) && b.rdpos == old(b.rdpos) + n
  {
    b.rdpos := b.rdpos + n;
  }

  method ResetBlock(b: Block, ghost part: seq<byte>)
    requires At(b, null, part)
    modifies b`rdpos, b`wrpos, b`len
    ensures At(b, null, []) && b.Clean()
  {
    b.rdpos := 0;
    b.wrpos := 0;
    b.len := b.rlen;
  }

  /** memmove of the unread bytes to the start of the block. */
  method CompactBlock(b: Block, ghost part: seq<byte>)
    requires At(b, null, part)
    modifies b`rdpos, b`wrpos, b.buffer
    ensures At(b, null, part) && b.rdpos == 0 && b.wrpos == |part|
  {
    var used := b.wrpos - b.rdpos;
    Store(b.buffer, 0, b.buffer[b.rdpos..b.wrpos]);
    b.rdpos := 0;
    b.wrpos := used;
  }

  method SealBlock(b: Block, ghost part: seq<byte>)
    requires At(b, null, part)
    modifies b`len
    ensures At(b, null, part) && b.len == b.wrpos
  {
    b.len := b.wrpos;
  }

  /** memcpy of the first `n` unread bytes. */
  method CopyOut(b: Block, dst: array<byte>, off: nat, n: nat, ghost next: Block?, ghost part: seq<byte>)
    requires At(b, next, part) && n <= |part|
    requires off + n <= dst.Length && dst != b.buffer
    modifies dst
    ensures At(b, next, part)
    ensures dst[..] == Splice(old(dst[..]), off, part[..n])
  {
    SliceOfSlice(b.buffer[..], b.rdpos, b.wrpos, 0, n);
    Store(dst, off, b.buffer[b.rdpos..b.rdpos + n]);
  }

  method CopyBlock(src: Block, dst: Block, ghost part: seq<byte>)
    requires At(dst, null, part) && At(src, null, []) && src.Clean()
    requires |part| <= src.len && src.buffer != dst.buffer && src != dst
    modifies src`wrpos, src.buffer
    ensures At(src, null, part) && src.rdpos == 0 && src.wrpos == |part|
    ensures At(dst, null, part)
  {
    Store(src.buffer, 0, dst.buffer[dst.rdpos..dst.wrpos]);
    src.wrpos := dst.wrpos - dst.rdpos;
  }

  /** Every block the buffer let go of is in the free list of its size. */
  lemma {:induction false} ReturnedToItsClass(m: map<nat, seq<Block>>, bs: seq<Block>, i: nat)
    requires i < |bs|
    ensures bs[i].rlen in Returned(m, bs) && bs[i] in Returned(m, bs)[bs[i].rlen]
  {
    var k := |bs| - 1;
    if i < k {
      ReturnedToItsClass(m, bs[..k], i);
      assert bs[..k][i] == bs[i];
    }
  }
}
