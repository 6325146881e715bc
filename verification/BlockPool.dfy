/** The size-class pool of buffer blocks that all byte buffers share. */
module BlockPools {
  import opened Bytes

  const MIN_BLOCK_SIZE: nat := 512

  // ---- size classes ----

  /** 512, 1024, 2048, ... */
  predicate IsClass(c: nat) {
    c == MIN_BLOCK_SIZE || (MIN_BLOCK_SIZE < c && c % 2 == 0 && IsClass(c / 2))
  }

  function DoubleFrom(c: nat, size: nat): (r: nat)
    requires MIN_BLOCK_SIZE <= c
    decreases size - c
  {
    if size <= c then c else DoubleFrom(2 * c, size)
  }

  function SizeClass(size: nat): nat {
    DoubleFrom(MIN_BLOCK_SIZE, size)
  }

  lemma {:induction false} ClassGap(c: nat, d: nat)
    requires IsClass(c) && IsClass(d) && c < d
    ensures 2 * c <= d
  {
    if c != MIN_BLOCK_SIZE {
      ClassGap(c / 2, d / 2);
    } else {
      ClassAtLeast(d / 2);
    }
  }

  lemma {:induction false} ClassAtLeast(c: nat)
    requires IsClass(c)
    ensures MIN_BLOCK_SIZE <= c
  {
  }

  lemma {:induction false} DoubleFromLeast(c: nat, size: nat, d: nat)
    requires IsClass(c) && MIN_BLOCK_SIZE <= c
    ensures IsClass(DoubleFrom(c, size)) && size <= DoubleFrom(c, size)
    ensures IsClass(d) && size <= d && c <= d ==> DoubleFrom(c, size) <= d
    decreases size - c
  {
    if c < size {
      assert IsClass(2 * c);
      if IsClass(d) && c < d {
        ClassGap(c, d);
      }
      DoubleFromLeast(2 * c, size, d);
    }
  }

  /** Alloc rounds a request up to the least size class that holds it. */
  lemma SizeClassLeast(size: nat, d: nat)
    ensures IsClass(SizeClass(size)) && size <= SizeClass(size)
    ensures IsClass(d) && size <= d ==> SizeClass(size) <= d
  {
    if IsClass(d) {
      ClassAtLeast(d);
    }
    DoubleFromLeast(MIN_BLOCK_SIZE, size, d);
  }

  // ---- blocks ----

  class Block {
    const buffer: array<byte>
    const rlen: nat
    var len: nat
    var rdpos: nat
    var wrpos: nat
    var next: Block?

    predicate Clean()
      reads this
    {
      rdpos == 0 && wrpos == 0 && len == rlen && next == null
    }

    constructor (size: nat)
      ensures fresh(buffer) && buffer.Length == rlen == size
      ensures Clean()
    {
      buffer := new byte[size];
      rlen := size;
      len := size;
      rdpos := 0;
      wrpos := 0;
      next := null;
    }
  }

  /** The blocks together with their byte arrays. */
  ghost function Footprint(bs: set<Block>): set<object> {
    bs + set b | b in bs :: b.buffer
  }

  ghost function Entry(m: map<nat, seq<Block>>, c: nat): seq<Block> {
    if c in m then m[c] else []
  }

  /** The free lists hold each free block exactly once, in the list of its size. */
  ghost predicate Lists(m: map<nat, seq<Block>>, free: set<Block>) {
    && (forall c, i | c in m && 0 <= i < |m[c]| :: m[c][i] in free && m[c][i].rlen == c)
    && (forall c, i, j | c in m && 0 <= i < j < |m[c]| :: m[c][i] != m[c][j])
    && (forall b | b in free :: b.rlen in m && b in m[b.rlen])
  }

  /** No two blocks share their bytes, and every block has the size of a class. */
  ghost predicate Separate(bs: set<Block>) {
    && (forall b | b in bs :: b.buffer.Length == b.rlen && IsClass(b.rlen))
    && (forall a, b | a in bs && b in bs && a != b :: a.buffer != b.buffer)
  }

  lemma ListsPush(m: map<nat, seq<Block>>, free: set<Block>, b: Block)
    requires Lists(m, free) && b !in free
    ensures Lists(m[b.rlen := Entry(m, b.rlen) + [b]], free + {b})
  {
    var list := Entry(m, b.rlen);
    var m1 := m[b.rlen := list + [b]];
    forall x | x in free + {b} ensures x.rlen in m1 && x in m1[x.rlen] {
      if x.rlen == b.rlen {
        assert x == b || x in list;
      }
    }
  }

  lemma ListsPop(m: map<nat, seq<Block>>, free: set<Block>, c: nat)
    requires Lists(m, free) && Entry(m, c) != []
    ensures m[c][0] in free && m[c][0].rlen == c
    ensures Lists(m[c := m[c][1..]], free - {m[c][0]})
  {
    var (b, list) := (m[c][0], m[c][1..]);
    var m1 := m[c := list];
    assert m[c] == [b] + list;
    forall k, i | k in m1 && 0 <= i < |m1[k]| ensures m1[k][i] in free - {b} && m1[k][i].rlen == k {
      if k == c {
        assert m1[k][i] == m[c][i + 1];
      } else {
        assert m1[k][i] == m[k][i];
      }
    }
    forall k, i, j | k in m1 && 0 <= i < j < |m1[k]| ensures m1[k][i] != m1[k][j] {
      if k == c {
        assert m1[k][i] == m[c][i + 1] && m1[k][j] == m[c][j + 1];
      }
    }
    forall x | x in free - {b} ensures x.rlen in m1 && x in m1[x.rlen] {
      assert x in m[x.rlen];
    }
  }

  lemma ListsTouch(m: map<nat, seq<Block>>, free: set<Block>, c: nat)
    requires Lists(m, free) && Entry(m, c) == []
    ensures Lists(m[c := []], free)
  {
  }

  ghost function GiveBack(m: map<nat, seq<Block>>, b: Block): map<nat, seq<Block>> {
    m[b.rlen := Entry(m, b.rlen) + [b]]
  }

  // ---- the pool ----

  class BufferBlockMgr {
    var blocks: map<nat, seq<Block>>
    /** The blocks in the free lists, and the blocks handed out and not yet recycled. */
    ghost var free: set<Block>
    ghost var issued: set<Block>

    ghost predicate Valid()
      reads this, free
    {
      && Lists(blocks, free)
      && (forall b | b in free :: b.Clean())
      && free !! issued
      && Separate(free + issued)
    }

    constructor ()
      ensures Valid() && free == {} && issued == {} && blocks == map[]
    {
      blocks := map[];
      free := {};
      issued := {};
    }

    method AllocNew(size: nat) returns (block: Block)
      ensures fresh(block) && fresh(block.buffer)
      ensures block.buffer.Length == block.rlen == size && block.Clean()
    {
      block := new Block(size);
    }

    /** The doubling loop of Alloc. */
    method RoundUp(size: nat) returns (alloclen: nat)
      ensures alloclen == SizeClass(size) && IsClass(alloclen)
    {
      alloclen := MIN_BLOCK_SIZE;
      while alloclen < size
        invariant MIN_BLOCK_SIZE <= alloclen
        invariant DoubleFrom(alloclen, size) == SizeClass(size)
        decreases size - alloclen
      {
        alloclen := alloclen * 2;
      }
      SizeClassLeast(size, alloclen);
    }

    method Alloc(size: nat) returns (block: Block)
      requires Valid()
      modifies this
      ensures Valid() && block.Clean() && block.rlen == SizeClass(size)
      ensures block !in old(issued) && issued == old(issued) + {block}
      ensures block in old(free) || (fresh(block) && fresh(block.buffer))
      ensures var c := SizeClass(size); var list := old(Entry(blocks, c));
        if list == [] then
          fresh(block) && fresh(block.buffer) && free == old(free) && blocks == old(blocks)[c := []]
        else
          block == list[0] && free == old(free) - {block} && blocks == old(blocks)[c := list[1..]]
    {
      hide IsClass, SizeClass, Lists;
      var alloclen := RoundUp(size);
      ghost var was := blocks;
      if alloclen !in blocks {
        blocks := blocks[alloclen := []];
        ListsTouch(was, free, alloclen);
      }
      if |blocks[alloclen]| > 0 {
        ListsPop(blocks, free, alloclen);
        block := blocks[alloclen][0];
        blocks := blocks[alloclen := blocks[alloclen][1..]];
        free := free - {block};
      } else {
        ListsTouch(was, free, alloclen);
        block := AllocNew(alloclen);
        assert blocks == was[alloclen := []];
      }
      issued := issued + {block};
    }

    method Recycle(block: Block)
      requires Valid() && block in issued
      modifies this, block
      ensures Valid() && block.Clean()
      ensures issued == old(issued) - {block} && free == old(free) + {block}
      ensures blocks == GiveBack(old(blocks), block)
    {
      hide IsClass, Lists;
      ListsPush(blocks, free, block);
      block.rdpos := 0;
      block.wrpos := 0;
      block.next := null;
      block.len := block.rlen;
      if block.rlen !in blocks {
        blocks := blocks[block.rlen := []];
      }
      blocks := blocks[block.rlen := blocks[block.rlen] + [block]];
      free := free + {block};
      issued := issued - {block};
      assert blocks == GiveBack(old(blocks), block);
    }
  }

  /** Of two blocks of one size, given back one after the other, the first is handed out first. */
  method FirstBackFirstOut(mgr: BufferBlockMgr, a: Block, b: Block) returns (x: Block, y: Block)
    requires mgr.Valid() && a in mgr.issued && b in mgr.issued && a != b && a.rlen == b.rlen
    requires Entry(mgr.blocks, a.rlen) == []
    modifies mgr, a, b
    ensures mgr.Valid() && x == a && y == b
  {
    hide Lists, Separate, IsClass;
    OwnClass(mgr, a);
    mgr.Recycle(a);
    mgr.Recycle(b);
    x := mgr.Alloc(a.rlen);
    y := mgr.Alloc(a.rlen);
  }

  lemma OwnClass(mgr: BufferBlockMgr, a: Block)
    requires mgr.Valid() && a in mgr.issued
    ensures SizeClass(a.rlen) == a.rlen
  {
    SizeClassLeast(a.rlen, a.rlen);
  }
}
