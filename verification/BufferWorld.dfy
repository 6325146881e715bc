/** Any number of buffers on one pool: no block is lost or shared, and no buffer disturbs another. */
module BufferWorlds {
  import opened Bytes
  import opened BlockPools
  import opened BlockBuffers
  import opened BlockChains
  import opened Overlays

  /** Every block ever allocated is in one free list or in the chain of one buffer. */
  ghost predicate World(mgr: BufferBlockMgr, bufs: set<BlockBuffer>)
    reads mgr, mgr.free, bufs, set c, b | c in bufs && b in c.Blocks() :: b
    reads set c, b | c in bufs && b in c.Blocks() :: b.buffer
  {
    && mgr.Valid()
    && (forall c | c in bufs :: c.mgr == mgr && c.Valid())
    && (forall c, d | c in bufs && d in bufs && c != d :: c.Blocks() !! d.Blocks())
    && (forall b | b in mgr.issued :: exists c :: c in bufs && b in c.Blocks())
  }

  /** Blocks handed out to different owners lie apart, and so do their bytes. */
  lemma BlocksApart(mgr: BufferBlockMgr, own: set<Block>, others: set<Block>)
    requires mgr.Valid() && own <= mgr.issued && others <= mgr.issued && own !! others
    ensures forall b | b in others ::
      && b !in Footprint(own) && b.buffer !in Footprint(own)
      && b !in Footprint(mgr.free) && b.buffer !in Footprint(mgr.free)
  {
    hide Lists, IsClass;
  }

  lemma IssuedOnly(c: BlockBuffer)
    requires c.Valid()
    ensures c.mgr.Valid() && c.Blocks() <= c.mgr.issued
  {
  }

  ghost predicate ApartFrom(c: BlockBuffer, own: set<Block>, free: set<Block>)
    reads c`Chain
  {
    forall b | b in c.Blocks() ::
      && b !in Footprint(own) && b.buffer !in Footprint(own)
      && b !in Footprint(free) && b.buffer !in Footprint(free)
  }

  /** The blocks of the other buffers are out of reach of an operation on `d`. */
  lemma OthersApart(mgr: BufferBlockMgr, bufs: set<BlockBuffer>, d: BlockBuffer)
    requires World(mgr, bufs) && d in bufs
    ensures forall c | c in bufs && c != d :: ApartFrom(c, d.Blocks(), mgr.free)
  {
    forall c | c in bufs && c != d ensures ApartFrom(c, d.Blocks(), mgr.free) {
      assert c.Blocks() !! d.Blocks();
      IssuedOnly(c);
      IssuedOnly(d);
      BlocksApart(mgr, d.Blocks(), c.Blocks());
    }
  }

  method InsertInto(mgr: BufferBlockMgr, bufs: set<BlockBuffer>, d: BlockBuffer, data: seq<byte>)
    requires World(mgr, bufs) && d in bufs
    modifies d, mgr, Footprint(d.Blocks()), Footprint(mgr.free)
    ensures World(mgr, bufs) && old(mgr.free + mgr.issued) <= mgr.free + mgr.issued
    ensures d.Contents() == old(d.Contents()) + data
    ensures forall c | c in bufs && c != d :: c.Contents() == old(c.Contents())
  {
    hide BufferBlockMgr.Valid, BlockBuffer.Valid, Concat, Lists;
    OthersApart(mgr, bufs, d);
    d.Insert(data);
    forall c | c in bufs && c != d ensures c.Valid() && c.Blocks() == old(c.Blocks()) && c.Blocks() !! d.Blocks() {
      assert old(ApartFrom(c, d.Blocks(), mgr.free));
      d.OtherKept(c);
    }
    IssuedOnly(d);
    d.NoneLost(bufs);
  }

  /** The array is not the storage of any block the pool has handed out. */
  ghost predicate Outside(mgr: BufferBlockMgr, a: array?<byte>)
    reads mgr
  {
    forall b | b in mgr.issued :: a != b.buffer
  }

  method MoveFrom(mgr: BufferBlockMgr, bufs: set<BlockBuffer>, d: BlockBuffer, dst: array?<byte>, off: nat, len: nat)
    returns (n: nat)
    requires World(mgr, bufs) && d in bufs
    requires dst != null ==> off + len <= dst.Length && Outside(mgr, dst)
    modifies d, mgr, d.Blocks(), dst
    ensures n == Min(len, |old(d.Contents())|)
    ensures n <= |old(d.Contents())| && d.Contents() == old(d.Contents())[n..]
    ensures forall c | c in bufs && c != d :: c.Contents() == old(c.Contents())
    ensures World(mgr, bufs) && mgr.free + mgr.issued == old(mgr.free + mgr.issued)
  {
    hide BufferBlockMgr.Valid, BlockBuffer.Valid, Concat, Lists, Overlay, Splice;
    OthersApart(mgr, bufs, d);
    IssuedOnly(d);
    assert forall c | c in bufs :: c.Blocks() <= mgr.issued by {
      forall c | c in bufs ensures c.Blocks() <= mgr.issued { IssuedOnly(c); }
    }
    n := d.Move(dst, off, len);
    forall c | c in bufs && c != d ensures c.Valid() && c.Blocks() == old(c.Blocks()) && c.Blocks() !! d.Blocks() {
      assert old(ApartFrom(c, d.Blocks(), mgr.free));
      d.OtherKept(c);
    }
    IssuedOnly(d);
    d.NoneLost(bufs);
  }

  /** The room a caller gets lies in the tail of `d` alone: filling it changes no contents. */
  method WriteSpace(mgr: BufferBlockMgr, bufs: set<BlockBuffer>, d: BlockBuffer, needlen: nat)
    returns (buffer: array?<byte>, pos: nat)
    requires World(mgr, bufs) && d in bufs
    requires d.Fits(needlen) || !d.ExpandStuck(needlen)
    modifies d, mgr, Footprint(d.Blocks()), Footprint(mgr.free)
    ensures World(mgr, bufs) && old(mgr.free + mgr.issued) <= mgr.free + mgr.issued
    ensures buffer != null && d.Fits(needlen)
    ensures d.tail in d.Blocks() && buffer == d.tail.buffer && pos == d.tail.wrpos && pos + needlen <= buffer.Length
    ensures forall c, b | c in bufs && b in c.Blocks() && buffer == b.buffer :: c == d && b == d.tail
    ensures forall c | c in bufs :: c.Contents() == old(c.Contents())
  {
    hide BufferBlockMgr.Valid, BlockBuffer.Valid, Concat, Lists;
    OthersApart(mgr, bufs, d);
    buffer, pos := d.GetBufferToWrite(needlen);
    forall c | c in bufs && c != d ensures c.Valid() && c.Blocks() == old(c.Blocks()) && c.Blocks() !! d.Blocks() {
      assert old(ApartFrom(c, d.Blocks(), mgr.free));
      d.OtherKept(c);
    }
    IssuedOnly(d);
    d.NoneLost(bufs);
    TailOwned(d);
    forall c, b | c in bufs && b in c.Blocks() && buffer == b.buffer ensures c == d && b == d.tail {
      IssuedOnly(c);
      OneOwner(mgr, b, d.tail);
    }
  }

  /** Bytes written into that room and then counted are appended to `d`, and to no other buffer. */
  method FinishWrite(mgr: BufferBlockMgr, bufs: set<BlockBuffer>, d: BlockBuffer,
                     buffer: array<byte>, pos: nat, bytes: seq<byte>)
    requires World(mgr, bufs) && d in bufs && d.tail != null
    requires buffer == d.tail.buffer && pos == d.tail.wrpos
    requires d.Fits(|bytes|) && pos + |bytes| <= buffer.Length
    modifies d`totallen, d`Parts, d.tail`wrpos, buffer
    ensures World(mgr, bufs) && unchanged(mgr)
    ensures d.Contents() == old(d.Contents()) + bytes
    ensures forall c | c in bufs && c != d :: c.Contents() == old(c.Contents())
  {
    hide BufferBlockMgr.Valid, BlockBuffer.Valid, Concat, Lists;
    OthersApart(mgr, bufs, d);
    IssuedOnly(d);
    TailOwned(d);
    FillTail(d, buffer, pos, bytes);
    IssuedOnly(d);
    d.NothingMoved();
    forall c | c in bufs && c != d ensures c.Valid() && c.Blocks() == old(c.Blocks()) && c.Blocks() !! d.Blocks() {
      assert old(ApartFrom(c, d.Blocks(), mgr.free));
      d.OtherKept(c);
    }
    d.NoneLost(bufs);
  }

  lemma TailOwned(d: BlockBuffer)
    requires d.Valid() && d.tail != null
    ensures d.tail in d.Blocks()
  {
    d.NoChain();
  }

  lemma OneOwner(mgr: BufferBlockMgr, a: Block, b: Block)
    requires mgr.Valid() && a in mgr.issued && b in mgr.issued && a.buffer == b.buffer
    ensures a == b
  {
  }

  /** The replacing search does not end exactly when the chain has three blocks or more. */
  lemma StuckIffLongChain(d: BlockBuffer, n: nat)
    requires d.Valid() && d.tail != null
    requires !(d.FreeLen() >= n && d.UsedLen() <= MOVE_BLOCK_SIZE) && d.UsedLen() < COPY_BLOCK_SIZE
    ensures d.ExpandStuck(n) <==> 3 <= |d.Chain|
  {
    hide BufferBlockMgr.Valid, At, Shape;
    d.NoChain();
    d.ValidEnds();
    d.ValidAt(0);
    d.TailFacts();
  }

  /**
   * The call does not return exactly for a chain of three blocks or more whose tail has
   * fewer than 4096 bytes in use and cannot take the request where it is: by moving at most
   * 2048 bytes together.
   */
  lemma StuckIff(d: BlockBuffer, n: nat)
    requires d.Valid() && d.tail != null
    ensures var (used, room) := (d.tail.wrpos - d.tail.rdpos, d.tail.len - d.tail.wrpos + d.tail.rdpos);
      d.ExpandStuck(n) <==> 3 <= |d.Chain| && used < 4096 && !(used <= 2048 && n <= room)
  {
    hide BufferBlockMgr.Valid, At, Shape;
    d.NoChain();
    d.ValidEnds();
    d.ValidAt(0);
    d.TailFacts();
  }

  lemma ClassOf512()
    ensures SizeClass(512) == SizeClass(1) == 512
  {
  }

  /** Three writes of 512 bytes, and then a request for 600: the call never returns. */
  method NeverReturns(d: BlockBuffer) returns (buffer: array?<byte>)
    requires d.Valid() && d.Chain == []
    modifies d, d.mgr, Footprint(d.mgr.free)
    ensures buffer == null
  {
    hide BlockBuffer.Valid, BlockBuffer.Contents, Moved, BlockBuffer.ExpandStuck, DoubleFrom;
    var data := seq(512, _ => 0 as byte);
    ClassOf512();
    d.Insert(data);
    d.RoomOfTail();
    d.Insert(data);
    d.RoomOfTail();
    d.Insert(data);
    d.RoomOfTail();
    StuckIffLongChain(d, 600);
    var pos;
    buffer, pos := d.GetBufferToWrite(600);
  }

  lemma TwoParts(d: BlockBuffer, data: seq<byte>, last: byte)
    requires d.Valid() && |d.Chain| == 2 && d.TailIs(0, 1, 512)
    requires d.Contents() == data + [last]
    ensures d.Parts == [data, [last]]
  {
    hide BufferBlockMgr.Valid, At, Shape;
    d.ValidEnds();
    d.ValidAt(1);
    d.TailFacts();
    var (p, q) := (d.Parts[0], d.Parts[1]);
    assert d.Parts == [p] + [q];
    ConcatSnoc([p], q);
    ConcatOne([p]);
    assert p + q == data + [last] && |q| == 1;
    assert (p + q)[..|p|] == p && (data + [last])[..|p|] == data;
    assert (p + q)[|p|] == q[0] == last;
  }

  lemma NoBytes(d: BlockBuffer)
    requires d.Valid() && d.Chain == []
    ensures d.Contents() == []
  {
    d.ValidEnds();
  }

  /** Insert 512 bytes and one more. */
  method FillTwoBlocks(d: BlockBuffer)
    requires d.Valid() && d.Chain == []
    modifies d, d.mgr, Footprint(d.mgr.free)
    ensures d.Valid() && d.Parts == [seq(512, _ => 1), [2]]
    ensures fresh(Footprint(d.Blocks()) - old(Footprint(d.mgr.free)))
  {
    hide BlockBuffer.Valid, BlockBuffer.Contents, Moved, DoubleFrom, Concat;
    var ones := seq(512, _ => 1 as byte);
    ClassOf512();
    NoBytes(d);
    d.Insert(ones);
    d.RoomOfTail();
    assert d.Contents() == ones;
    d.Insert([2]);
    TwoParts(d, ones, 2);
  }

  /** Insert 512 bytes and one more, read 511, copy the two that are left: the second covers the first. */
  method CopyCoversHead(d: BlockBuffer) returns (n: nat, dst: array<byte>)
    requires d.Valid() && d.Chain == []
    modifies d, d.mgr, Footprint(d.mgr.free)
    ensures d.Valid() && d.Contents() == [1, 2]
    ensures n == 2 && dst[..] == [2, 0]
  {
    hide BlockBuffer.Valid, Moved, DoubleFrom, Freed, Released, BlockBuffer.Drained;
    var ones := seq(512, _ => 1 as byte);
    FillTwoBlocks(d);
    var moved := d.Move(null, 0, 511);
    assert ones[511..] == [1] && [ones, [2]][1..] == [[2]];
    assert [ones[511..]] + [[2]] == [[1], [2]];
    dst := new byte[2](_ => 0);
    d.ValidOwns();
    TwoBlocksOverwrite();
    assert dst[..] == dst[0..2] == [0, 0];
    n := d.Copy(dst, 0, 2);
    assert dst[..] == dst[0..2];
  }

  /** A full block of 4096 bytes of which `m` have been read. */
  method ReadFromFull(d: BlockBuffer, m: nat)
    requires d.Valid() && d.Chain == [] && m < 4096
    modifies d, d.mgr, Footprint(d.mgr.free)
    ensures d.Valid() && |d.Chain| == 1 && d.TailIs(m, 4096, 4096) && d.tail == d.Chain[0]
    ensures |d.Contents()| == 4096 - m
    ensures fresh(Footprint(d.Blocks()) - old(Footprint(d.mgr.free)))
    ensures fresh(Footprint(d.mgr.free) - old(Footprint(d.mgr.free)))
  {
    hide BlockBuffer.Valid, Moved, SizeClass, Freed, Concat, Returned;
    var data := seq(4096, _ => 0 as byte);
    ClassOf4096();
    NoBytes(d);
    d.Insert(data);
    assert d.Contents() == data;
    ghost var chain := d.Chain;
    var moved := d.Move(null, 0, m);
    assert |d.Contents()| == 4096 - m;
    OneLeft(d, chain);
  }

  lemma OneLeft(d: BlockBuffer, chain: seq<Block>)
    requires d.Valid() && |chain| == 1 && |d.Chain| <= 1 && d.Contents() != []
    ensures |d.Chain| == 1 && d.tail != null && d.tail == d.Chain[0]
    ensures d.tail.wrpos - d.tail.rdpos == |d.Contents()|
  {
    hide BufferBlockMgr.Valid, At, Shape;
    d.ValidEnds();
    d.NoChain();
    if |d.Chain| == 1 {
      d.ValidAt(0);
      ConcatOne(d.Parts);
    }
  }

  lemma ClassOf4096()
    ensures SizeClass(4096) == 4096
  {
    assert DoubleFrom(4096, 4096) == DoubleFrom(2048, 4096) == DoubleFrom(1024, 4096) == DoubleFrom(512, 4096);
  }

  /**
   * A full block of 4096 bytes, and a request for 1000: with 2048 bytes left to read they
   * are moved to its start, with 2049 they are copied into another block and it is free.
   */
  method RoomBehindReading(d: BlockBuffer, m: nat) returns (pos: nat, ghost kept: bool)
    requires d.Valid() && d.Chain == [] && (m == 2048 || m == 2047)
    modifies d, d.mgr, Footprint(d.mgr.free)
    ensures d.Valid() && |d.Chain| == 1 && pos == 4096 - m
    ensures kept <==> m == 2048
  {
    hide BlockBuffer.Valid, Moved, SizeClass, Concat;
    ReadFromFull(d, m);
    ghost var block := d.Chain[0];
    var buffer;
    buffer, pos := d.GetBufferToWrite(1000);
    kept := d.Chain == [block] && block !in d.mgr.free;
    NotFree(d);
  }

  lemma NotFree(d: BlockBuffer)
    requires d.Valid()
    ensures d.mgr.issued !! d.mgr.free && forall b | b in d.Chain :: b in d.mgr.issued
    ensures |d.Parts| == |d.Chain| && (d.tail != null ==> d.Chain != [] && d.tail == d.Chain[|d.Chain| - 1])
  {
    hide Separate, Lists;
    d.NoChain();
  }
}
