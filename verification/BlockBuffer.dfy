/** A byte FIFO kept in a chain of blocks drawn from a shared pool. */
module BlockBuffers {
  import opened Bytes
  import opened BlockPools
  import opened BlockChains
  import opened Overlays

  const MID_BLOCK_SIZE: nat := 1024
  const MOVE_BLOCK_SIZE: nat := 2048
  const COPY_BLOCK_SIZE: nat := 4096

  class BlockBuffer {
    const mgr: BufferBlockMgr
    var head: Block?
    var tail: Block?
    var totallen: int

    /** The blocks from head to tail, and the unread bytes of each. */
    ghost var Chain: seq<Block>
    ghost var Parts: seq<seq<byte>>

    ghost function Blocks(): set<Block>
      reads this`Chain
    {
      SetOf(Chain)
    }

    ghost function Contents(): seq<byte>
      reads this`Parts
    {
      Concat(Parts)
    }

    ghost predicate Linked()
      reads this`head, this`tail, this`Chain, this`Parts, mgr, Blocks(), set b | b in Chain :: b.buffer
    {
      && (forall i | 0 <= i < |Chain| :: Chain[i] in mgr.issued)
      && Distinct(Chain)
      && head == (if Chain == [] then null else Chain[0])
      && tail == (if Chain == [] then null else Chain[|Chain| - 1])
      && AllAt(Chain, Parts)
    }

    /** Only the tail may be empty, and then it is clean. */
    ghost predicate Shaped()
      reads this`Chain, Blocks()
    {
      forall i | 0 <= i < |Chain| :: Shape(Chain[i])
    }

    ghost predicate RestShaped()
      reads this`Chain, Blocks()
    {
      forall i | 0 < i < |Chain| :: Shape(Chain[i])
    }

    ghost predicate FrontShaped()
      reads this`Chain, Blocks()
    {
      forall i | 0 <= i < |Chain| - 1 :: Shape(Chain[i])
    }

    ghost predicate Valid()
      reads this, mgr, mgr.free, Blocks(), set b | b in Chain :: b.buffer
    {
      mgr.Valid() && Linked() && Shaped() && totallen == |Contents()|
    }

    /** The pool lost no block, and the blocks of other buffers stay with them. */
    twostate predicate Accounted()
      reads this`Chain, mgr
    {
      && Moved(old(mgr.free), old(mgr.issued), old(Blocks()), mgr.free, mgr.issued, Blocks())
      && (forall b | b in Blocks() :: Known(b))
      && (forall b | b in mgr.free :: Known(b))
    }

    /** As Accounted, when nothing was allocated. */
    twostate predicate Left()
      reads this`Chain, mgr
    {
      && Blocks() <= old(Blocks())
      && Freed(old(mgr.free), old(mgr.issued), old(Blocks()), mgr.free, mgr.issued, Blocks())
    }

    twostate lemma NothingLeft()
      requires Chain == old(Chain) && unchanged(mgr) && Blocks() <= mgr.issued
      ensures Left()
    {
    }

    twostate lemma LeftAccounted()
      requires Left()
      ensures Accounted()
    {
    }

    twostate lemma NothingMoved()
      requires Chain == old(Chain) && unchanged(mgr) && Blocks() <= mgr.issued
      ensures Accounted()
    {
    }

    /** Block `b` was in this buffer or in the free lists before, or is new. */
    twostate predicate Known(new b: Block)
      reads this`Chain, mgr
    {
      b in old(Blocks()) || b in old(mgr.free) || (fresh(b) && fresh(b.buffer))
    }

    constructor (mgr: BufferBlockMgr)
      requires mgr.Valid()
      ensures Valid() && this.mgr == mgr && Contents() == [] && Chain == []
    {
      this.mgr := mgr;
      head := null;
      tail := null;
      totallen := 0;
      Chain := [];
      Parts := [];
    }

    lemma TailAt()
      requires Linked() && tail != null
      ensures Parts != [] && Chain != [] && tail == Chain[|Chain| - 1]
      ensures At(tail, null, Parts[|Parts| - 1])
    {
      hide At;
    }

    lemma TailFacts()
      requires Linked() && Chain != []
      ensures head != null && tail != null && tail == Chain[|Chain| - 1] && tail in mgr.issued
      ensures tail.next == null && tail.rdpos <= tail.wrpos <= tail.len <= tail.buffer.Length
    {
      TailAt();
    }

    lemma NoChain()
      requires Linked()
      ensures head == null <==> Chain == []
      ensures tail == null <==> Chain == []
      ensures |Chain| <= 1 ==> head == tail
      ensures Blocks() <= mgr.issued && Distinct(Chain) && |Parts| == |Chain|
      ensures head != null ==> head in Blocks() && tail in Blocks()
    {
    }

    lemma ValidOwns()
      requires Valid()
      ensures mgr.Valid() && Blocks() <= mgr.issued && totallen == |Contents()|
    {
    }

    /** Blocks first left this buffer, and then some were taken. */
    twostate lemma LeftThenAccounted(new free1: set<Block>, new issued1: set<Block>, new own1: set<Block>)
      requires Freed(old(mgr.free), old(mgr.issued), old(Blocks()), free1, issued1, own1)
      requires Moved(free1, issued1, own1, mgr.free, mgr.issued, Blocks())
      requires forall b | b in Blocks() :: b in own1 || b in free1 || (fresh(b) && fresh(b.buffer))
      requires forall b | b in mgr.free :: b in own1 || b in free1 || (fresh(b) && fresh(b.buffer))
      ensures Accounted()
    {
      MovedTrans(old(mgr.free), old(mgr.issued), old(Blocks()), free1, issued1, own1, mgr.free, mgr.issued, Blocks());
    }

    /** Two accounted operations in a row. */
    twostate lemma AccountedTwice(new free1: set<Block>, new issued1: set<Block>, new own1: set<Block>)
      requires Moved(old(mgr.free), old(mgr.issued), old(Blocks()), free1, issued1, own1)
      requires Moved(free1, issued1, own1, mgr.free, mgr.issued, Blocks())
      requires forall b | b in own1 :: Known(b)
      requires forall b | b in free1 :: Known(b)
      requires forall b | b in Blocks() :: b in own1 || b in free1 || (fresh(b) && fresh(b.buffer))
      requires forall b | b in mgr.free :: b in own1 || b in free1 || (fresh(b) && fresh(b.buffer))
      ensures Accounted()
    {
      MovedTrans(old(mgr.free), old(mgr.issued), old(Blocks()), free1, issued1, own1, mgr.free, mgr.issued, Blocks());
    }

    lemma FullTail()
      requires mgr.Valid() && Linked() && Shaped() && tail != null && tail.wrpos == tail.len
      ensures tail.rdpos < tail.wrpos && FrontShaped()
    {
      ClassAtLeast(tail.rlen);
    }

    lemma HeadAt()
      requires Linked() && head != null
      ensures Parts != [] && Chain != [] && head == Chain[0]
      ensures At(head, Follower(Chain, 0), Parts[0])
    {
      hide At;
    }

    // ---- what an operation on this buffer means for the others ----

    /** A buffer that was not touched stays valid and shares no block with this one. */
    twostate lemma OtherKept(c: BlockBuffer)
      requires old(Valid()) && old(c.Valid()) && c.mgr == mgr && old(c.Blocks()) !! old(Blocks())
      requires Valid() && Accounted() && Untouched(c)
      ensures c.Valid() && c.Blocks() == old(c.Blocks()) && c.Blocks() !! Blocks()
    {
      hide BufferBlockMgr.Valid, At, AllAt, Distinct, Shape, Concat;
      assert forall i | 0 <= i < |c.Chain| :: c.Chain[i] in c.Blocks();
    }

    /** Every block handed out is still in the chain of a buffer. */
    twostate lemma NoneLost(bufs: set<BlockBuffer>)
      requires this in bufs && Accounted()
      requires forall b | b in old(mgr.issued) :: exists c :: c in bufs && b in old(c.Blocks())
      requires forall c | c in bufs && c != this :: c.Blocks() == old(c.Blocks())
      ensures forall b | b in mgr.issued :: exists c :: c in bufs && b in c.Blocks()
    {
      forall b | b in mgr.issued ensures exists c :: c in bufs && b in c.Blocks() {
        if b !in Blocks() {
          var c :| c in bufs && b in old(c.Blocks());
          assert b in c.Blocks();
        }
      }
    }

    // ---- the steps the operations are made of ----

    /** memcpy to the write position of the tail. */
    method WriteTail(t: seq<byte>)
      requires mgr.Valid() && Linked() && tail != null && tail.wrpos + |t| <= tail.len
      modifies tail`wrpos, tail.buffer, this`Parts
      ensures mgr.Valid() && Linked()
      ensures tail.wrpos == old(tail.wrpos) + |t|
      ensures tail.rdpos == old(tail.rdpos) && tail.len == old(tail.len)
      ensures Parts == old(Parts)[|Parts| - 1 := old(Parts)[|Parts| - 1] + t]
      ensures Contents() == old(Contents()) + t
      ensures old(Shaped()) ==> Shaped()
    {
      hide At, Lists, IsClass, Concat, AllAt, Distinct, Shape;
      ghost var (was, wasParts, k) := (Chain, Parts, |Chain| - 1);
      TailAt();
      ConcatSetLast(wasParts, t);
      AllButLast(was, wasParts);
      LastDistinct(was);
      NextPos(tail, null, wasParts[k]);
      assert forall i | 0 <= i < k :: was[i].buffer != tail.buffer;
      ShapeOf(tail);
      WriteBlock(tail, t, wasParts[k]);
      NextPos(tail, null, wasParts[k] + t);
      ShapeOf(tail);
      Parts := wasParts[k := wasParts[k] + t];
      AllAtSetLast(was, wasParts, wasParts[k] + t);
    }

    /** Bytes behind the write position of the tail are nobody's. */
    method PokeTail(t: seq<byte>)
      requires Valid() && tail != null && tail.wrpos + |t| <= tail.len && tail.len <= tail.buffer.Length
      modifies tail.buffer
      ensures Valid() && tail.buffer[tail.wrpos..tail.wrpos + |t|] == t
    {
      hide At, Lists, IsClass, Concat, AllAt, Distinct, Shape;
      ghost var k := |Chain| - 1;
      TailAt();
      AllButLast(Chain, Parts);
      LastDistinct(Chain);
      NextPos(tail, null, Parts[k]);
      assert forall i :: 0 <= i < k ==> Chain[i].buffer != tail.buffer;
      PokeBlock(tail, t, Parts[k]);
      AllAtSetLast(Chain, Parts, Parts[k]);
      SetSame(Parts);
    }

    /** `tail_->next = block; tail_ = block`, behind a full tail. */
    method Link(block: Block)
      requires mgr.Valid() && Linked() && tail != null && tail.wrpos == tail.len
      requires block in mgr.issued && block !in Chain && At(block, null, [])
      modifies this`tail, this`Chain, this`Parts, tail`next
      ensures mgr.Valid() && Linked()
      ensures tail == block && Chain == old(Chain) + [block] && Parts == old(Parts) + [[]]
    {
      hide At, Lists, Separate, AllAt, Distinct;
      ghost var (was, wasParts, k) := (Chain, Parts, |Chain| - 1);
      AllButLast(was, wasParts);
      DistinctSnoc(was, block);
      LinkBlock(tail, block, null, wasParts[k]);
      tail := block;
      Chain := was + [block];
      Parts := wasParts + [[]];
      AllAtSnoc(was, wasParts, block);
    }

    method FirstBlock(size: nat)
      requires mgr.Valid() && Linked() && Chain == []
      modifies this`head, this`tail, this`Chain, this`Parts, mgr
      ensures mgr.Valid() && Linked() && Shaped() && Accounted()
      ensures Contents() == old(Contents()) == []
      ensures |Chain| == 1 && Parts == [[]] && tail != null && tail.Clean() && size <= tail.rlen == SizeClass(size)
      ensures Known(tail) && MIN_BLOCK_SIZE <= tail.rlen
    {
      hide Lists, SizeClass, At, Separate;
      SizeClassLeast(size, MIN_BLOCK_SIZE);
      var block := mgr.Alloc(size);
      IssuedClean(mgr, block);
      head := block;
      tail := block;
      Chain := [block];
      Parts := [[]];
      assert Blocks() == {block} && old(Blocks()) == {};
    }

    /** A new empty tail behind a full one. */
    method AppendBlock(size: nat)
      requires mgr.Valid() && Linked() && FrontShaped() && tail != null && tail.rdpos < tail.wrpos == tail.len
      modifies this`tail, this`Chain, this`Parts, mgr, tail`next
      ensures mgr.Valid() && Linked() && Shaped() && Accounted()
      ensures tail != null && Known(tail) && Chain == old(Chain) + [tail] && Parts == old(Parts) + [[]]
      ensures Contents() == old(Contents())
      ensures tail.Clean() && size <= tail.rlen == SizeClass(size) && MIN_BLOCK_SIZE <= tail.rlen
    {
      hide Lists, SizeClass, Separate, AllAt, Distinct, Concat, SetOf;
      NoChain();
      SizeClassLeast(size, MIN_BLOCK_SIZE);
      ConcatSnoc(Parts, []);
      ghost var was := Chain;
      var block := mgr.Alloc(size);
      IssuedClean(mgr, block);
      Link(block);
      AllButLast(Chain, Parts);
      SetSnoc(was, block);
      assert block in old(mgr.free) || fresh(block);
      assert forall i :: 0 <= i < |was| ==> Chain[i] == was[i];
    }

    /** `head_ = bpos->next`: the chain begins with the second block. */
    method Unlink() returns (bpos: Block)
      requires mgr.Valid() && Linked() && 2 <= |Chain|
      modifies this`head, this`Chain, this`Parts
      ensures mgr.Valid() && Linked() && bpos == old(head) && bpos in mgr.issued && bpos !in Chain
      ensures head != null && Chain == old(Chain)[1..] && Parts == old(Parts)[1..]
      ensures old(RestShaped()) ==> Shaped()
    {
      hide At, BufferBlockMgr.Valid, AllAt, Distinct, Shape;
      ghost var (was, wasParts) := (Chain, Parts);
      DistinctRest(was);
      AllButFirst(was, wasParts);
      NextOf(head, was[1], wasParts[0]);
      bpos := head;
      head := head.next;
      Chain := was[1..];
      Parts := wasParts[1..];
      AllAtRest(was, wasParts);
      RestOf(was);
    }

    /** The head has been read: drop it from the chain and give it back to the pool. */
    method DropHead()
      requires mgr.Valid() && Linked() && 2 <= |Chain|
      modifies this`head, this`Chain, this`Parts, mgr, head
      ensures mgr.Valid() && Linked()
      ensures head != null && Chain == old(Chain)[1..] && Parts == old(Parts)[1..]
      ensures old(RestShaped()) ==> Shaped()
      ensures mgr.issued == old(mgr.issued) - {old(head)} && mgr.free == old(mgr.free) + {old(head)}
      ensures mgr.blocks == GiveBack(old(mgr.blocks), old(head))
    {
      hide At, BufferBlockMgr.Valid, AllAt, Distinct, Shape, GiveBack;
      var tmp := Unlink();
      mgr.Recycle(tmp);
    }

    /** The tail has been read and is large: the buffer gives it back and is empty. */
    method DropOnly()
      requires mgr.Valid() && Linked() && |Chain| == 1
      modifies this`head, this`tail, this`Chain, this`Parts, mgr, head
      ensures mgr.Valid() && Linked() && Chain == [] && Parts == []
      ensures mgr.issued == old(mgr.issued) - {old(head)} && mgr.free == old(mgr.free) + {old(head)}
      ensures mgr.blocks == GiveBack(old(mgr.blocks), old(head))
    {
      hide Lists, IsClass;
      var bpos := head;
      head := bpos.next;
      tail := if head != null then tail else null;
      Chain := [];
      Parts := [];
      mgr.Recycle(bpos);
    }

    /**
     * The search for the block before `dst` looks at the head and, when that is not it,
     * looks at the head again for ever: with three blocks or more the call never returns.
     */
    method ReplaceTail(src: Block) returns (stuck: bool)
      requires mgr.Valid() && Linked() && tail != null
      requires src in mgr.issued && src !in Chain && At(src, null, []) && src.Clean()
      requires |Parts[|Parts| - 1]| <= src.len
      modifies this`head, this`tail, this`Chain, mgr, Blocks(), src, src.buffer
      ensures stuck <==> old(head != tail && head.next != tail)
      ensures stuck ==> mgr.Valid() && Linked() && unchanged(this, mgr)
      ensures !stuck ==>
        && mgr.Valid() && Linked()
        && Chain == old(Chain)[|old(Chain)| - 1 := src] && tail == src
        && src.rdpos == 0 && src.wrpos == |Parts[|Parts| - 1]| && src.len == old(src.len)
        && mgr.issued == old(mgr.issued) - {old(tail)} && mgr.free == old(mgr.free) + {old(tail)}
      ensures old(Shaped()) ==> Shaped()
    {
      hide At, Lists, IsClass, Concat, GiveBack;
      ghost var k := |Chain| - 1;
      var dst := tail;
      CopyBlock(src, dst, Parts[k]);
      NextOf(dst, null, Parts[k]);
      if k != 0 {
        NextOf(head, Chain[1], Parts[0]);
      }
      if head == dst {
        head := src;
        tail := src;
        Chain := Chain[k := src];
        mgr.Recycle(dst);
        return false;
      }
      if head.next == dst {
        LinkBlock(head, src, dst, Parts[0]);
        tail := src;
        Chain := Chain[k := src];
        mgr.Recycle(dst);
        return false;
      }
      stuck := true;
    }

    // ---- the operations ----

    method Insert(data: seq<byte>)
      requires Valid()
      modifies this, mgr, Footprint(Blocks()), Footprint(mgr.free)
      ensures Valid() && Accounted()
      ensures Contents() == old(Contents()) + data
      ensures old(Chain) == [] ==> |Chain| == 1 && TailIs(0, |data|, SizeClass(|data|))
      ensures old(Chain) != [] ==> var room := old(RoomLeft());
        if 0 < room && |data| <= room then
          Chain == old(Chain) && TailIs(old(tail.rdpos), old(tail.wrpos) + |data|, old(tail.len))
        else tail != null && Chain == old(Chain) + [tail] && TailIs(0, |data| - room, SizeClass(|data| - room))
    {
      hide Lists, SizeClass, BufferBlockMgr.Valid, Linked, Shaped, Concat, Moved;
      NoChain();
      if head == null {
        InsertFirst(data);
      } else {
        CopyIn(data);
      }
      totallen := totallen + |data|;
    }

    /** Insert into a buffer without a block. */
    method InsertFirst(data: seq<byte>)
      requires mgr.Valid() && Linked() && Chain == []
      modifies this`head, this`tail, this`Chain, this`Parts, mgr, Footprint(mgr.free)
      ensures mgr.Valid() && Linked() && Shaped() && Accounted()
      ensures Contents() == old(Contents()) + data
      ensures |Chain| == 1 && TailIs(0, |data|, SizeClass(|data|))
    {
      hide Lists, SizeClass, BufferBlockMgr.Valid, Linked, Shaped, Concat, Moved;
      FirstBlock(|data|);
      TailFacts();
      ghost var (f, i, o) := (mgr.free, mgr.issued, Blocks());
      CopyIn(data);
      AccountedTwice(f, i, o);
    }

    /** Where the tail is read and written, and its size. */
    predicate TailIs(rdpos: int, wrpos: int, len: int)
      reads this`tail, tail
    {
      tail != null && tail.rdpos == rdpos && tail.wrpos == wrpos && tail.len == len
    }

    ghost function RoomLeft(): int
      reads this`Chain, Blocks()
      requires Chain != []
    {
      Chain[|Chain| - 1].len - Chain[|Chain| - 1].wrpos
    }

    lemma RoomOfTail()
      requires Valid() && Chain != []
      ensures tail != null && RoomLeft() == tail.len - tail.wrpos
    {
      TailFacts();
    }

    /** The loop of Insert, from the tail on. */
    method CopyIn(data: seq<byte>)
      requires mgr.Valid() && Linked() && Shaped() && Chain != []
      modifies this`tail, this`Chain, this`Parts, mgr, Footprint(Blocks()), Footprint(mgr.free)
      ensures mgr.Valid() && Linked() && Shaped() && Accounted()
      ensures Contents() == old(Contents()) + data
      ensures var room := old(RoomLeft());
        if 0 < room && |data| <= room then
          Chain == old(Chain) && TailIs(old(tail.rdpos), old(tail.wrpos) + |data|, old(tail.len))
        else tail != null && Chain == old(Chain) + [tail] && TailIs(0, |data| - room, SizeClass(|data| - room))
    {
      hide Lists, SizeClass, BufferBlockMgr.Valid, Linked, Shaped, Concat, Moved, SetOf;
      NoChain();
      TailFacts();
      ghost var (room, was) := (RoomLeft(), Contents());
      var bpos := tail;
      var copied: nat := 0;
      while true
        invariant mgr.Valid() && Linked() && Shaped() && Chain == old(Chain) && unchanged(mgr)
        invariant tail != null && tail == old(tail) && TailIs(old(tail.rdpos), old(tail.wrpos) + copied, old(tail.len))
        invariant copied <= |data| && Contents() == was + data[..copied]
        invariant if bpos == null then copied == room && !(0 < room && |data| <= room) else bpos == tail && copied == 0
        decreases bpos != null
      {
        TailFacts();
        NoChain();
        if bpos == null {
          FullTail();
          AppendBlock(|data| - copied);
          bpos := tail;
          TailFacts();
        } else {
          NothingMoved();
        }
        if bpos.wrpos >= bpos.len {
          bpos := bpos.next;
          continue;
        }
        var left := bpos.len - bpos.wrpos;
        if left >= |data| - copied {
          assert data[..copied] + data[copied..] == data;
          WriteTail(data[copied..]);
          break;
        } else {
          assert data[..copied] + data[copied..copied + left] == data[..copied + left];
          WriteTail(data[copied..copied + left]);
          copied := copied + left;
          bpos := bpos.next;
          continue;
        }
      }
    }

    /** The reading position of the head moves on by `n`. */
    method SkipHead(n: nat)
      requires mgr.Valid() && Linked() && Shaped() && head != null && n <= |Parts[0]|
      modifies head`rdpos, this`Parts
      ensures mgr.Valid() && Linked() && RestShaped()
      ensures Parts == old(Parts)[0 := old(Parts)[0][n..]]
      ensures n < |old(Parts)[0]| || n == 0 ==> Shaped()
    {
      hide At, Lists, Separate, AllAt, Distinct;
      ghost var (was, wasParts) := (Chain, Parts);
      HeadAt();
      DistinctRest(was);
      AllButFirst(was, wasParts);
      NextPos(head, Follower(was, 0), wasParts[0]);
      SkipBlock(head, n, Follower(was, 0), wasParts[0]);
      Parts := wasParts[0 := wasParts[0][n..]];
      AllAtSetFirst(was, wasParts, wasParts[0][n..]);
    }

    /** memcpy of the first `n` unread bytes of the head. */
    method CopyFromHead(dst: array?<byte>, off: nat, n: nat)
      requires mgr.Valid() && Linked() && head != null && n <= |Parts[0]|
      requires dst != null ==> off + n <= dst.Length && dst !in Footprint(Blocks())
      modifies dst
      ensures mgr.Valid() && Linked() && (old(Shaped()) ==> Shaped())
      ensures dst != null ==> dst[..] == Splice(old(dst[..]), off, old(Parts)[0][..n])
    {
      hide At, Lists, Separate, Distinct;
      HeadAt();
      if dst != null {
        CopyOut(head, dst, off, n, Follower(Chain, 0), Parts[0]);
      }
    }

    lemma HeadFacts()
      requires Linked() && head != null
      ensures Chain != [] && Parts != [] && head == Chain[0]
      ensures head.rdpos <= head.wrpos <= head.len && head.wrpos - head.rdpos == |Parts[0]|
      ensures head.next == Follower(Chain, 0) && (head.next != null ==> head.wrpos == head.len)
    {
      HeadAt();
    }

    /** An emptied small tail starts again at the beginning of its bytes. */
    method ResetOnly()
      requires mgr.Valid() && Linked() && |Chain| == 1 && Parts[0] == []
      modifies head`rdpos, head`wrpos, head`len
      ensures mgr.Valid() && Linked() && Shaped() && head.Clean()
    {
      HeadAt();
      ResetBlock(head, []);
    }

    /** One turn of the loop in Move: read from the head, and drop it when it is used up. */
    method MoveFromHead(dst: array?<byte>, off: nat, rest: nat) returns (k: nat, more: bool)
      requires mgr.Valid() && Linked() && Shaped() && Chain != [] && 0 < rest
      requires dst != null ==> off + rest <= dst.Length && dst !in Footprint(Blocks())
      modifies this`head, this`Chain, this`Parts, mgr, head, dst
      ensures mgr.Valid() && Linked() && Chain != []
      ensures old(tail) != null && tail.wrpos == old(tail.wrpos) && tail.len == old(tail.len)
      ensures Left()
      ensures k == Min(rest, |old(Parts)[0]|)
      ensures dst != null ==> dst[..] == Splice(old(dst[..]), off, old(Parts)[0][..k])
      ensures more ==>
        && Shaped() && k == |old(Parts)[0]|
        && Chain == old(Chain)[1..] && Parts == old(Parts)[1..]
        && Released(old(Chain), old(mgr.blocks), Chain, mgr.blocks)
      ensures !more ==>
        && Chain == old(Chain) && Parts == old(Parts)[0 := old(Parts)[0][k..]] && unchanged(mgr)
        && if k < |old(Parts)[0]| then k == rest && Shaped() else |Chain| == 1 && Chain[0].len == Chain[0].rlen
    {
      hide Lists, Separate, Distinct, AllAt, At, Linked, BufferBlockMgr.Valid, Freed, Released, GiveBack;
      NoChain();
      FreedRefl(mgr.free, mgr.issued, Blocks());
      FreedDrop(mgr.free, mgr.issued, Chain);
      ReleasedOne(Chain, mgr.blocks);
      TailFacts();
      LastDistinct(Chain);
      var bpos := head;
      HeadFacts();
      var canread := bpos.wrpos - bpos.rdpos;
      if rest < canread {
        CopyFromHead(dst, off, rest);
        SkipHead(rest);
        return rest, false;
      }
      if canread > 0 {
        CopyFromHead(dst, off, canread);
        SkipHead(canread);
      }
      k := canread;
      if bpos.wrpos >= bpos.len && bpos.next != null {
        DropHead();
        return k, true;
      }
      more := false;
    }

    /** The loop of Move. */
    method MoveOut(dst: array?<byte>, off: nat, len: nat) returns (n: nat)
      requires mgr.Valid() && Linked() && Shaped() && Chain != []
      requires dst != null ==> off + len <= dst.Length && dst !in Footprint(Blocks())
      modifies this`head, this`Chain, this`Parts, mgr, Blocks(), dst
      ensures mgr.Valid() && Linked() && Chain != [] && Left()
      ensures old(tail) != null && tail.wrpos == old(tail.wrpos) && tail.len == old(tail.len)
      ensures Shaped() || (|Chain| == 1 && Parts[0] == [] && Chain[0].len == Chain[0].rlen)
      ensures n == Min(len, |old(Contents())|) && Contents() == old(Contents())[n..]
      ensures Parts == Skip(old(Parts), len)
      ensures dst != null ==>
        dst[..] == Splice(old(dst[..]), off, Overlay(old(Parts), len, old(dst[off..off + len])))
      ensures Released(old(Chain), old(mgr.blocks), Chain, mgr.blocks)
    {
      hide Lists, SizeClass, BufferBlockMgr.Valid, Linked, Shaped, Freed, Released, Overlay, Concat, Splice, Skip;
      hide Progress;
      ghost var (chain, parts, lists) := (Chain, Parts, mgr.blocks);
      ghost var window := if dst != null then dst[off..off + len] else seq(len, _ => 0);
      ghost var acc := window;
      if dst != null {
        SpliceSelf(dst[..], off, len);
      }
      NoChain();
      FreedRefl(mgr.free, mgr.issued, Blocks());
      ReleasedRefl(chain, lists);
      ProgressStart(parts, len, window);
      n := 0;
      var rest := len;
      TailFacts();
      while rest > 0
        invariant mgr.Valid() && Linked() && Shaped() && Chain != [] && Left()
        invariant tail != null && tail.wrpos == old(tail.wrpos) && tail.len == old(tail.len)
        invariant n + rest == len && |acc| == len && Progress(parts, len, window, Parts, rest, acc)
        invariant Released(chain, lists, Chain, mgr.blocks) && Skip(Parts, rest) == Skip(parts, len)
        invariant dst != null ==> dst[..] == Splice(old(dst[..]), off, acc)
        decreases |Chain|
      {
        NoChain();
        ghost var (parts1, own, free, issued) := (Parts, Blocks(), mgr.free, mgr.issued);
        ghost var (chain1, lists1) := (Chain, mgr.blocks);
        var k, more := MoveFromHead(dst, off, rest);
        ProgressTurn(parts, len, window, parts1, rest, acc, k);
        SkipTurn(parts1, rest);
        FreedTrans(old(mgr.free), old(mgr.issued), old(Blocks()), free, issued, own, mgr.free, mgr.issued, Blocks());
        if dst != null {
          SpliceInside(old(dst[..]), off, acc, parts1[0][..k]);
        }
        acc := parts1[0][..k] + acc[k..];
        n := n + k;
        rest := rest - k;
        if !more {
          return n;
        }
        ReleasedTrans(chain, lists, chain1, lists1, Chain, mgr.blocks);
      }
      ProgressEnd(parts, len, window, Parts, acc);
      SkipNothing(Parts);
    }

    /** What Move does after its loop when the block it stopped at is empty. */
    method Trim()
      requires mgr.Valid() && Linked() && Chain != []
      requires Shaped() || (|Chain| == 1 && Parts[0] == [] && Chain[0].len == Chain[0].rlen)
      modifies this`head, this`tail, this`Chain, this`Parts, mgr, head
      ensures mgr.Valid() && Linked() && Shaped() && Left()
      ensures Contents() == old(Contents())
      ensures Parts == old(Parts) || (old(Parts) == [[]] && Parts == [])
      ensures Contents() == [] ==> Drained()
      ensures Contents() != [] ==>
        tail != null && tail == old(tail) && tail.wrpos == old(tail.wrpos) && tail.len == old(tail.len)
      ensures Contents() == [] ==>
        && |old(Chain)| == 1 && old(Chain[0].len) == old(Chain)[0].rlen
        && Chain == if old(Chain)[0].rlen <= 1024 then old(Chain) else []
      ensures Released(old(Chain), old(mgr.blocks), Chain, mgr.blocks)
    {
      hide BufferBlockMgr.Valid, Linked, Freed, GiveBack, Released;
      ghost var (chain, lists) := (Chain, mgr.blocks);
      NoChain();
      TailFacts();
      HeadFacts();
      FreedRefl(mgr.free, mgr.issued, Blocks());
      FreedDrop(mgr.free, mgr.issued, Chain);
      ReleasedRefl(chain, lists);
      ReleasedOne(chain, lists);
      EmptyHead(chain, Parts);
      if head.rdpos == head.wrpos {
        if head.len <= MID_BLOCK_SIZE {
          ResetOnly();
        } else {
          DropOnly();
          assert Chain == chain[1..];
        }
      }
    }

    /** At most one block is kept, a small one, clean. */
    ghost predicate Drained()
      reads this`Chain, Blocks()
    {
      Chain == [] || (|Chain| == 1 && Chain[0].len <= MID_BLOCK_SIZE && Chain[0].Clean())
    }

    /**
     * Reads up to `len` bytes. They are written at `dst[off..]` block after block without
     * advancing, and discarded when `dst` is null.
     */
    method Move(dst: array?<byte>, off: nat, len: nat) returns (n: nat)
      requires Valid()
      requires dst != null ==> off + len <= dst.Length && dst !in Footprint(Blocks())
      modifies this, mgr, Blocks(), dst
      ensures Valid() && Accounted() && Left()
      ensures n == Min(len, |old(Contents())|) && Contents() == old(Contents())[n..]
      ensures Parts == Skip(old(Parts), len) || (Skip(old(Parts), len) == [[]] && Parts == [])
      ensures dst != null ==>
        dst[..] == Splice(old(dst[..]), off, Overlay(old(Parts), len, old(dst[off..off + len])))
      ensures Released(old(Chain), old(mgr.blocks), Chain, mgr.blocks)
      ensures Contents() != [] ==>
        tail != null && tail == old(tail) && tail.wrpos == old(tail.wrpos) && tail.len == old(tail.len)
      ensures Contents() == [] ==> Drained()
      ensures Contents() == [] && old(Chain) != [] ==>
        var last := old(Chain)[|old(Chain)| - 1]; Chain == if last.rlen <= 1024 then [last] else []
    {
      hide BufferBlockMgr.Valid, Linked, Shaped, Freed, Drained, Concat, Overlay, Released, Splice, Skip;
      NoChain();
      if head == null {
        NothingToMove(dst, off, len);
        FreedRefl(mgr.free, mgr.issued, Blocks());
        LeftAccounted();
        return 0;
      }
      n := MoveOut(dst, off, len);
      NoChain();
      ghost var (f, i, o, chain1, lists1) := (mgr.free, mgr.issued, Blocks(), Chain, mgr.blocks);
      ReleasedLast(old(Chain), old(mgr.blocks), Chain, mgr.blocks);
      Trim();
      FreedTrans(old(mgr.free), old(mgr.issued), old(Blocks()), f, i, o, mgr.free, mgr.issued, Blocks());
      ReleasedTrans(old(Chain), old(mgr.blocks), chain1, lists1, Chain, mgr.blocks);
      LeftAccounted();
      totallen := totallen - n;
    }

    lemma NothingToMove(dst: array?<byte>, off: nat, len: nat)
      requires Chain == [] && |Parts| == |Chain| && (dst != null ==> off + len <= dst.Length)
      ensures Contents() == [] && Drained() && Released(Chain, mgr.blocks, Chain, mgr.blocks)
      ensures Parts == Skip(Parts, len)
      ensures dst != null ==> dst[..] == Splice(dst[..], off, Overlay(Parts, len, dst[off..off + len]))
    {
    }

    /** The size the buffer has counted; the walk over the chain finds the same number. */
    method GetTotalLen() returns (total: nat)
      requires Valid()
      ensures total == |Contents()|
    {
      hide At, Shape;
      var len := 0;
      var bpos := head;
      ghost var i := 0;
      while bpos != null
        invariant i <= |Chain| == |Parts| && bpos == if i < |Chain| then Chain[i] else null
        invariant len == |Concat(Parts[..i])|
        decreases |Chain| - i
      {
        NextOf(bpos, Follower(Chain, i), Parts[i]);
        ShapeOf(bpos);
        assert Parts[..i + 1] == Parts[..i] + [Parts[i]];
        ConcatSnoc(Parts[..i], Parts[i]);
        len := len + (bpos.wrpos - bpos.rdpos);
        i := i + 1;
        if bpos.wrpos >= bpos.len {
          bpos := bpos.next;
          continue;
        }
        break;
      }
      assert Parts[..|Parts|] == Parts;
      assert len == totallen;
      total := totallen;
    }

    /** Copies what Move would read, in the same way, and reads nothing. */
    method Copy(dst: array<byte>, off: nat, len: nat) returns (n: nat)
      requires Valid()
      requires off + len <= dst.Length && dst !in Footprint(Blocks())
      modifies dst
      ensures Valid() && n == Min(len, |Contents()|)
      ensures dst[..] == Splice(old(dst[..]), off, Overlay(Parts, len, old(dst[off..off + len])))
    {
      hide At, Valid, Shape, Concat, Overlay, Progress, Splice;
      ghost var window := dst[off..off + len];
      ghost var acc := window;
      SpliceSelf(dst[..], off, len);
      ProgressStart(Parts, len, window);
      ValidEnds();
      n := 0;
      if head == null {
        ProgressDone(Parts, len, window, len, acc);
        return;
      }
      var bpos := head;
      var rest: nat := len;
      ghost var i := 0;
      while bpos != null
        invariant Valid() && i <= |Chain| == |Parts| && bpos == if i < |Chain| then Chain[i] else null
        invariant n + rest == len && |acc| == len && Progress(Parts, len, window, Parts[i..], rest, acc)
        invariant dst[..] == Splice(old(dst[..]), off, acc)
        decreases |Chain| - i
      {
        ValidAt(i);
        ghost var k := Min(rest, |Parts[i]|);
        ProgressTurn(Parts, len, window, Parts[i..], rest, acc, k);
        SpliceInside(old(dst[..]), off, acc, Parts[i][..k]);
        acc := Parts[i][..k] + acc[k..];
        var canread := bpos.wrpos - bpos.rdpos;
        if rest < canread {
          CopyOut(bpos, dst, off, rest, Follower(Chain, i), Parts[i]);
          n := n + rest;
          break;
        }
        if canread > 0 {
          CopyOut(bpos, dst, off, canread, Follower(Chain, i), Parts[i]);
          n := n + canread;
          rest := rest - canread;
        }
        if bpos.wrpos >= bpos.len {
          bpos := bpos.next;
          i := i + 1;
          continue;
        }
        break;
      }
      if i == |Chain| {
        ProgressDone(Parts, len, window, rest, acc);
      }
    }

    lemma ValidEnds()
      requires Valid()
      ensures |Parts| == |Chain| && (head == if Chain == [] then null else Chain[0])
    {
    }

    lemma ValidAt(i: nat)
      requires Valid() && i < |Chain|
      ensures |Parts| == |Chain| && At(Chain[i], Follower(Chain, i), Parts[i])
      ensures var b := Chain[i];
        && b.next == Follower(Chain, i) && b.wrpos - b.rdpos == |Parts[i]|
        && (b.next != null ==> b.wrpos == b.len)
        && (i + 1 < |Chain| ==> b.rdpos < b.wrpos)
    {
      hide At;
      NextOf(Chain[i], Follower(Chain, i), Parts[i]);
    }

    // ---- room for writing ----

    /** The bytes of the tail still to be read, and its room once they are moved to its start. */
    function UsedLen(): int
      requires tail != null
      reads this`tail, tail
    {
      tail.wrpos - tail.rdpos
    }

    function FreeLen(): int
      requires tail != null
      reads this`tail, tail
    {
      tail.len - tail.wrpos + tail.rdpos
    }

    /** `expand` closes the tail and adds a block behind it. */
    predicate Seals(n: nat)
      reads this`tail, tail
    {
      tail != null && !Fits(n) && UsedLen() >= COPY_BLOCK_SIZE
    }

    predicate Fits(n: nat)
      reads this`tail, tail
    {
      tail != null && tail.len - tail.wrpos >= n
    }

    /**
     * `expand` does not return: it would replace the tail by a larger block, and the tail
     * is neither the head nor its successor.
     */
    predicate ExpandStuck(n: nat)
      reads this`head, this`tail, head, tail
    {
      && head != null && tail != null
      && !(FreeLen() >= n && UsedLen() <= MOVE_BLOCK_SIZE)
      && UsedLen() < COPY_BLOCK_SIZE
      && head != tail && head.next != tail
    }

    /**
     * What becomes of a tail without room for `n` bytes, by the bytes in use and the bytes
     * free in it: moved together in place, or copied into a larger block that takes its
     * place, or closed with a new block behind it.
     */
    twostate predicate Grown(n: nat)
      reads this, mgr, tail
    {
      old(tail) != null && old(Chain) != [] &&
      var (used, room, k) := (old(UsedLen()), old(FreeLen()), |old(Chain)| - 1);
      0 <= used &&
      if room >= n && used <= 2048 then
        Chain == old(Chain) && unchanged(mgr) && TailIs(0, used, old(tail.len))
      else if used < 4096 then
        && tail != null && tail != old(tail) && old(tail) in mgr.free
        && Chain == old(Chain)[k := tail] && TailIs(0, used, SizeClass(used + n))
      else
        tail != null && Chain == old(Chain) + [tail] && TailIs(0, 0, SizeClass(n))
    }

    /** The tail is in use, and no other block of the chain has its bytes. */
    lemma TailApart()
      requires mgr.Valid() && Linked() && tail != null
      ensures Chain != [] && tail !in mgr.free
      ensures forall i :: 0 <= i < |Chain| - 1 ==> Chain[i] != tail && Chain[i].buffer != tail.buffer
    {
      hide At, Lists, IsClass, AllAt, Shape;
      LastDistinct(Chain);
    }

    method CompactTail()
      requires mgr.Valid() && Linked() && Shaped() && tail != null
      modifies tail`rdpos, tail`wrpos, tail.buffer
      ensures mgr.Valid() && Linked() && Shaped()
      ensures tail.rdpos == 0 && tail.wrpos == old(UsedLen())
    {
      TailApart();
      hide At, BufferBlockMgr.Valid, AllAt, Distinct, Shape;
      TailAt();
      AllButLast(Chain, Parts);
      LastDistinct(Chain);
      ghost var part := Parts[|Chain| - 1];
      NextPos(tail, null, part);
      ShapeOf(tail);
      CompactBlock(tail, part);
      NextPos(tail, null, part);
      ShapeOf(tail);
      AllAtSetLast(Chain, Parts, part);
      SetSame(Parts);
    }

    method SealTail()
      requires mgr.Valid() && Linked() && Shaped() && tail != null
      modifies tail`len
      ensures mgr.Valid() && Linked() && FrontShaped() && tail.len == tail.wrpos
    {
      hide At, Lists, IsClass, AllAt, Distinct, Shape;
      TailAt();
      AllButLast(Chain, Parts);
      LastDistinct(Chain);
      ghost var part := Parts[|Chain| - 1];
      NextPos(tail, null, part);
      SealBlock(tail, part);
      AllAtSetLast(Chain, Parts, part);
      SetSame(Parts);
    }

    method EnlargeTail(n: nat) returns (stuck: bool)
      requires mgr.Valid() && Linked() && Shaped() && tail != null
      modifies this`head, this`tail, this`Chain, mgr, Footprint(Blocks()), Footprint(mgr.free)
      ensures mgr.Valid() && Linked() && Shaped()
      ensures stuck <==> old(head != tail && head.next != tail)
      ensures stuck ==> unchanged(this)
      ensures !stuck ==> Accounted() && Fits(n) && Known(tail) && |Chain| == |old(Chain)|
      ensures 0 <= old(UsedLen()) && Chain != [] && old(Chain) != []
      ensures !stuck ==>
        && tail != null && tail != old(tail) && old(tail) in mgr.free
        && Chain == old(Chain)[|old(Chain)| - 1 := tail] && TailIs(0, old(UsedLen()), SizeClass(old(UsedLen()) + n))
    {
      hide Lists, Separate, Distinct, AllAt, SizeClass, SetOf, Moved;
      NoChain();
      TailAt();
      var used := tail.wrpos - tail.rdpos;
      var newblock := mgr.Alloc(used + n);
      IssuedClean(mgr, newblock);
      SizeClassLeast(used + n, MIN_BLOCK_SIZE);
      ghost var (f, i) := (mgr.free, mgr.issued);
      stuck := ReplaceTail(newblock);
      if !stuck {
        MovedSwap(old(mgr.free), old(mgr.issued), old(Chain), newblock, f, i);
        assert Known(newblock);
      }
    }

    method Expand(n: nat) returns (stuck: bool)
      requires mgr.Valid() && Linked() && Shaped()
      modifies this`head, this`tail, this`Chain, this`Parts, mgr, Footprint(Blocks()), Footprint(mgr.free)
      ensures mgr.Valid() && Linked() && Shaped() && Contents() == old(Contents())
      ensures stuck <==> old(ExpandStuck(n))
      ensures stuck ==> unchanged(this)
      ensures !stuck ==> Accounted() && Fits(n) && Known(tail)
      ensures old(tail) == null ==> TailIs(0, 0, SizeClass(n))
      ensures !stuck && old(tail) != null ==> Grown(n)
      ensures old(!Fits(n)) ==> Parts == if old(tail == null || Seals(n)) then old(Parts) + [[]] else old(Parts)
      ensures |old(Chain)| <= 1 && |old(Contents())| < COPY_BLOCK_SIZE ==> |Chain| <= 1
    {
      hide Lists, BufferBlockMgr.Valid, Linked, Concat, Moved;
      NoChain();
      if tail == null {
        FirstBlock(n);
        return false;
      }
      TailFacts();
      if |Chain| == 1 {
        HeadFacts();
        ConcatOne(Parts);
      }
      var freelen := tail.len - tail.wrpos + tail.rdpos;
      var usedlen := tail.wrpos - tail.rdpos;
      if freelen >= n && usedlen <= MOVE_BLOCK_SIZE {
        CompactTail();
        NothingMoved();
        return false;
      }
      if usedlen < COPY_BLOCK_SIZE {
        stuck := EnlargeTail(n);
        return;
      }
      SealTail();
      AppendBlock(n);
      stuck := false;
    }

    /**
     * Where the caller may write `needlen` bytes: a byte array and an offset in it.
     * A null array stands for a call that does not return.
     */
    method GetBufferToWrite(needlen: nat) returns (buffer: array?<byte>, pos: nat)
      requires Valid()
      modifies this, mgr, Footprint(Blocks()), Footprint(mgr.free)
      ensures Valid() && Contents() == old(Contents())
      ensures buffer == null <==> !old(Fits(needlen)) && old(ExpandStuck(needlen))
      ensures buffer == null ==> unchanged(this)
      ensures Parts == if old(tail == null || Seals(needlen)) then old(Parts) + [[]] else old(Parts)
      ensures old(Fits(needlen)) ==> unchanged(this) && tail.len == old(tail.len) && tail.wrpos == old(tail.wrpos)
      ensures old(tail) == null && buffer != null ==> TailIs(0, 0, SizeClass(needlen))
      ensures |old(Chain)| <= 1 && |old(Contents())| < COPY_BLOCK_SIZE ==> buffer != null && |Chain| <= 1
      ensures |old(Chain)| == 1 ==>
        |Chain| == if old(!Fits(needlen)) && 4096 <= |old(Contents())| then 2 else 1
      ensures buffer != null && old(tail != null && !Fits(needlen)) ==> Grown(needlen)
      ensures buffer != null ==>
        && Accounted() && Fits(needlen) && Known(tail)
        && buffer == tail.buffer && pos == tail.wrpos && pos + needlen <= buffer.Length
    {
      hide BufferBlockMgr.Valid, Linked, Concat, Moved, Shaped, SetOf, Grown;
      NoChain();
      if tail != null {
        TailFacts();
      }
      if |Chain| == 1 {
        HeadFacts();
        ConcatOne(Parts);
      }
      if tail != null && tail.len - tail.wrpos >= needlen {
        NothingMoved();
        return tail.buffer, tail.wrpos;
      }
      var stuck := Expand(needlen);
      if stuck {
        return null, 0;
      }
      NoChain();
      TailFacts();
      return tail.buffer, tail.wrpos;
    }

    /** The caller has written `wlen` bytes where GetBufferToWrite told it to. */
    method FinishBufferWrite(wlen: nat)
      requires Valid() && tail != null && tail.wrpos + wlen <= tail.len
      modifies this`totallen, this`Parts, tail`wrpos
      ensures Valid() && Chain == old(Chain)
      ensures Contents() == old(Contents()) + tail.buffer[old(tail.wrpos)..old(tail.wrpos) + wlen]
      ensures tail.wrpos == old(tail.wrpos) + wlen && Parts != [] && |Parts| == |old(Parts)|
      ensures var (k, t) := (|Parts| - 1, tail.buffer[old(tail.wrpos)..old(tail.wrpos) + wlen]);
        Parts == old(Parts)[k := old(Parts)[k] + t]
    {
      hide BufferBlockMgr.Valid, Linked, Concat, Shaped, SetOf;
      NoChain();
      TailFacts();
      AdvanceTail(wlen);
      totallen := totallen + wlen;
    }

    method AdvanceTail(wlen: nat)
      requires mgr.Valid() && Linked() && Shaped() && tail != null && tail.wrpos + wlen <= tail.len
      modifies this`Parts, tail`wrpos
      ensures mgr.Valid() && Linked() && Shaped()
      ensures Contents() == old(Contents()) + tail.buffer[old(tail.wrpos)..old(tail.wrpos) + wlen]
      ensures tail.buffer[old(tail.wrpos)..old(tail.wrpos) + wlen] == old(tail.buffer[tail.wrpos..tail.wrpos + wlen])
      ensures tail.wrpos == old(tail.wrpos) + wlen && Parts != [] && |Parts| == |old(Parts)|
      ensures var (k, t) := (|Parts| - 1, tail.buffer[old(tail.wrpos)..old(tail.wrpos) + wlen]);
        Parts == old(Parts)[k := old(Parts)[k] + t]
    {
      hide At, Lists, IsClass, Concat, AllAt, Distinct, Shape;
      ghost var (was, wasParts, k) := (Chain, Parts, |Chain| - 1);
      TailAt();
      AllButLast(was, wasParts);
      LastDistinct(was);
      NextPos(tail, null, wasParts[k]);
      ShapeOf(tail);
      ghost var t := tail.buffer[tail.wrpos..tail.wrpos + wlen];
      ConcatSetLast(wasParts, t);
      ExtendBlock(tail, wlen, wasParts[k]);
      NextPos(tail, null, wasParts[k] + t);
      ShapeOf(tail);
      Parts := wasParts[k := wasParts[k] + t];
      AllAtSetLast(was, wasParts, wasParts[k] + t);
    }

    /** The unread bytes of the head, as they lie in its array. */
    method GetBufferToRead() returns (buffer: array?<byte>, pos: nat, rlen: nat)
      requires Valid()
      ensures buffer == null <==> Chain == []
      ensures buffer == null ==> Contents() == []
      ensures buffer != null ==>
        && rlen == |Parts[0]| && pos + rlen <= buffer.Length && buffer == Chain[0].buffer && pos == Chain[0].rdpos
        && rlen <= |Contents()| && buffer[pos..pos + rlen] == Contents()[..rlen]
        && (Contents() != [] ==> 0 < rlen)
    {
      hide At, Shape;
      if head == null {
        return null, 0, 0;
      }
      ValidAt(0);
      NextOf(head, Follower(Chain, 0), Parts[0]);
      assert Concat(Parts) == Parts[0] + Concat(Parts[1..]);
      return head.buffer, head.rdpos, head.wrpos - head.rdpos;
    }
  }

  /** The caller has put `bytes` where GetBufferToWrite told it to, and the buffer counts them. */
  method FillTail(recv: BlockBuffer, buffer: array<byte>, pos: nat, bytes: seq<byte>)
    requires recv.Valid() && recv.tail != null && buffer == recv.tail.buffer && pos == recv.tail.wrpos
    requires recv.Fits(|bytes|) && pos + |bytes| <= buffer.Length
    modifies recv`totallen, recv`Parts, recv.tail`wrpos, buffer
    ensures recv.Valid() && recv.Contents() == old(recv.Contents()) + bytes
    ensures recv.tail.wrpos == old(recv.tail.wrpos) + |bytes|
    ensures recv.Chain == old(recv.Chain) && recv.Parts != [] && |recv.Parts| == |old(recv.Parts)|
    ensures var k := |recv.Parts| - 1; recv.Parts == old(recv.Parts)[k := old(recv.Parts)[k] + bytes]
  {
    hide BlockBuffer.Valid, Concat, Splice;
    Poke(recv, buffer, pos, bytes);
    recv.FinishBufferWrite(|bytes|);
  }

  /** Bytes written behind the write position change nothing the buffer holds. */
  method Poke(recv: BlockBuffer, buffer: array<byte>, pos: nat, bytes: seq<byte>)
    requires recv.Valid() && recv.tail != null && buffer == recv.tail.buffer && pos == recv.tail.wrpos
    requires recv.Fits(|bytes|) && pos + |bytes| <= buffer.Length
    modifies buffer
    ensures recv.Valid() && buffer[pos..pos + |bytes|] == bytes
  {
    recv.PokeTail(bytes);
  }

  /** Buffer `c` and its blocks are as they were. */
  twostate predicate Untouched(c: BlockBuffer)
    reads c, c.Blocks(), set b | b in c.Blocks() :: b.buffer
  {
    unchanged(c) && (forall b | b in old(c.Blocks()) :: unchanged(b) && unchanged(b.buffer))
  }
}
