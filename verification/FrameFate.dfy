/** What becomes of a frame that is too long for the worker, empty, or spread over two blocks. */
module FrameFates {
  import opened Bytes
  import opened RingModel
  import opened RingSteps
  import opened RingRuns
  import opened LoopQueues
  import opened BlockPools
  import opened BlockBuffers
  import opened BlockChains
  import opened Overlays
  import opened Framing
  import opened NetMessages
  import W = Workers
  import opened BufferWorlds

  // ---- one limit, read twice ----

  lemma TookIsFrame(r: Ring, s: seq<byte>, fd: int32, mtype: byte, max: nat)
    requires SafeOne(r, s, max)
    ensures var t := TakeOne(r, s, fd, mtype, max);
      t.reply.Took? ==> t.reply.n <= |s| && !Hollow(t.ring)
  {
    hide Header, Marker, Splice, FromBE;
  }

  /** A worker takes what was queued before, and then the record behind it. */
  method TurnsUpTo(que: LoopQueue, worker: W.Worker, before: nat, ghost q: seq<Record>, ghost rec: Record)
    returns (turn: W.Turn)
    requires que.Ready() && Represents(que.View(), q + [rec]) && !Hollow(que.View()) && |q| == before
    requires worker.recvBuffer.Length == worker.maxMsglen && worker.recvBuffer != que.buff
    requires forall i :: 0 <= i < |q| ==> HEADER + |q[i].data| <= worker.maxMsglen
    modifies que`head, worker.recvBuffer
    ensures turn == W.Crashed <==> worker.maxMsglen < HEADER + |rec.data|
    ensures turn != W.Crashed ==>
      turn == W.Copied(HEADER + |rec.data|) && worker.recvBuffer[..turn.len] == RecordBytes(rec)
  {
    hide Represents, Hollow, RecordBytes, FrontSafe;
    ghost var rest := q + [rec];
    for i := 0 to before
      invariant que.Ready() && Represents(que.View(), rest) && !Hollow(que.View())
      invariant rest == q[i..] + [rec]
    {
      NotHollowSafe(que.View());
      TakeKeepsStart(que.View(), rest);
      assert rest[0] == q[i] && rest[1..] == q[i + 1..] + [rec];
      turn := worker.TakeBlock(que, rest);
      rest := rest[1..];
    }
    NotHollowSafe(que.View());
    turn := worker.TakeBlock(que, rest);
  }

  /**
   * A frame the network thread took, met by a worker with the same limit once it has done
   * with what was queued before: the assert stops the worker if and only if header and
   * frame together exceed the limit.
   */
  method FrameMeetsWorker(recv: BlockBuffer, que: LoopQueue, worker: W.Worker, fd: int32, mtype: byte,
                          before: nat, ghost q: seq<Record>)
    returns (reply: Reply, turn: W.Turn)
    requires recv.Valid() && InHead(recv.Parts, worker.maxMsglen)
    requires que.Ready() && que.buff !in Footprint(recv.Blocks()) && Represents(que.View(), q) && |q| == before
    requires SafeOne(que.View(), recv.Contents(), worker.maxMsglen)
    requires worker.recvBuffer.Length == worker.maxMsglen && worker.recvBuffer != que.buff
    requires forall i :: 0 <= i < |q| ==> HEADER + |q[i].data| <= worker.maxMsglen
    modifies recv, recv.mgr, recv.Blocks(), que`tail, que`head, que.buff, worker.recvBuffer
    ensures reply == TakeOne(old(que.View()), old(recv.Contents()), fd, mtype, worker.maxMsglen).reply
    ensures reply.Took? ==> (turn == W.Crashed <==> worker.maxMsglen < HEADER + reply.n)
    ensures reply.Took? && turn != W.Crashed ==>
      && turn == W.Copied(HEADER + reply.n) && reply.n <= |old(recv.Contents())|
      && worker.recvBuffer[..turn.len] == RecordBytes(Record(fd, 0, mtype, old(recv.Contents())[..reply.n]))
  {
    hide BlockBuffer.Valid, Represents, TakeOne, SafeOne, InHead, Concat, Hollow, RecordBytes, SafeWritten, TakeWritten;
    ghost var (r, s, max, parts) := (que.View(), recv.Contents(), worker.maxMsglen, recv.Parts);
    TakeOneRefines(r, q, s, fd, mtype, max);
    TookIsFrame(r, s, fd, mtype, max);
    WrittenSafeInHead(r, parts, max);
    ghost var g;
    reply, g := RecvTcpMsg(recv, que, fd, mtype, worker.maxMsglen);
    WrittenIsTaken(r, parts, g, fd, mtype, max);
    turn := W.Idle;
    if reply.Took? {
      turn := TurnsUpTo(que, worker, before, q, Record(fd, 0, mtype, s[..reply.n]));
    }
  }

  lemma NotHollowSafe(r: Ring)
    requires Sane(r) && !Hollow(r)
    ensures FrontSafe(r)
  {
  }

  /** A worker's turn does not leave the start hollow. */
  lemma TakeKeepsStart(r: Ring, q: seq<Record>)
    requires Represents(r, q) && !Hollow(r)
    ensures !Hollow(Front(r).ring)
    ensures q != [] ==> !Hollow(Pop(Front(r).ring, HEADER + |q[0].data|))
  {
    hide Represents, RecordAt;
    FrontRightIff(r, q);
    TakeRefinesFifo(r, q);
    SafeWrapNeverHollow(r, q, Take);
  }

  /** A frame that declares 81899 bytes, within the default limit of 81920. */
  function LongFrame(): (s: seq<byte>)
    ensures |s| == 81899
  {
    BE(81899, 4) + seq(81895, _ => 0)
  }

  lemma LongFrameIsCut()
    ensures NextCut(LongFrame(), 81920) == Frame(81899)
  {
    hide BE, FromBE;
    FourBytes();
    BERoundTrip(81899, 4);
    assert LongFrame()[..4] == BE(81899, 4);
  }

  /** With the default limit, on an empty queue of the default size: the frame is taken, the worker stops. */
  method LongFrameStopsWorker() returns (reply: Reply, turn: W.Turn)
    ensures reply == Took(81899) && turn == W.Crashed
  {
    hide BlockBuffer.Valid, Represents, Concat, RecordBytes, LongFrame, NextCut, Moved, SizeClass, InHead;
    var mgr := new BufferBlockMgr();
    var recv := new BlockBuffer(mgr);
    var frame := LongFrame();
    EmptyIn(frame);
    recv.Insert(frame);
    var que := new LoopQueue();
    var ok := que.Init(1024 * 1024);
    var worker := new W.Worker(81920);
    LongFrameIsCut();
    PartsOfShort(recv);
    OneBlockInHead(recv.Parts, 81920);
    CutTaken(que.View(), frame, 1, 6, 81920);
    reply, turn := FrameMeetsWorker(recv, que, worker, 1, 6, 0, []);
  }

  lemma EmptyIn(s: seq<byte>)
    ensures [] + s == s
  {
  }

  /** Into an empty queue with room, a frame is taken. */
  lemma CutTaken(r: Ring, s: seq<byte>, fd: int32, mtype: byte, max: nat)
    requires Sane(r) && r.head == r.tail == 0 && NextCut(s, max).Frame?
    requires HEADER + NextCut(s, max).n <= |r.bytes|
    ensures SafeOne(r, s, max) && TakeOne(r, s, fd, mtype, max).reply == Took(NextCut(s, max).n)
  {
    hide Header, Splice, NextCut;
  }

  // ---- a frame over two blocks ----

  /** The first 4096 bytes of a frame of 5000, and the other 904. */
  function FirstPart(): (s: seq<byte>)
    ensures |s| == 4096
  {
    BE(5000, 4) + seq(4092, _ => 1)
  }

  function SecondPart(): (s: seq<byte>)
    ensures |s| == 904
  {
    seq(904, _ => 2)
  }

  lemma SplitFrame(g: seq<byte>)
    requires |g| == 4
    ensures PeekedLen([FirstPart(), SecondPart()], g) == 5000
    ensures NextCut(FirstPart() + SecondPart(), 81920) == Frame(5000)
    ensures Concat([FirstPart(), SecondPart()]) == FirstPart() + SecondPart()
  {
    hide BE, FromBE, PeekedLen;
    var (a, b) := (FirstPart(), SecondPart());
    FourBytes();
    BERoundTrip(5000, 4);
    assert (a + b)[..4] == a[..4] == BE(5000, 4);
    assert [a, b] == [a] + [b];
    ConcatSnoc([a], b);
    ConcatOne([a]);
    PeekedInHead([a, b], g);
  }

  /** The second block has been copied over the start of the first. */
  lemma SplitOverlay(window: seq<byte>)
    requires |window| == 5000
    ensures var d := Overlay([FirstPart(), SecondPart()], 5000, window);
      d[..904] == SecondPart() && d[904..4096] == FirstPart()[904..] && d[4096..] == window[4096..]
  {
    hide Overlay, FirstPart, SecondPart;
    var (a, b) := (FirstPart(), SecondPart());
    var (w, d) := (a + window[4096..], Overlay([a, b], 5000, window));
    assert [a, b] == [a] + [b] && Concat([a]) == a;
    OverlayAppend([a], [b], 5000, window);
    OverlayOne(a, 5000, window);
    OverlayOne(b, 904, w);
    assert a[..4096] == a && b[..904] == b;
    Covered(a, b, window, d);
  }

  lemma Covered(a: seq<byte>, b: seq<byte>, window: seq<byte>, d: seq<byte>)
    requires |a| == 4096 && |b| == 904 && |window| == 5000 && d == b + (a + window[4096..])[904..]
    ensures |d| == 5000 && d[..904] == b && d[904..4096] == a[904..] && d[4096..] == window[4096..]
  {
  }

  /** The first part fills a block of its own. */
  method FirstArrival() returns (recv: BlockBuffer)
    ensures fresh(recv) && fresh(recv.mgr) && recv.Valid() && fresh(Footprint(recv.mgr.free))
    ensures fresh(Footprint(recv.Blocks())) && recv.Parts == [FirstPart()] && recv.Seals(904)
  {
    hide BlockBuffer.Valid, Moved, FirstPart, Concat, SizeClass;
    var sock := new InStream([RecvOutcome.Got(4096, FirstPart())]);
    var mgr := new BufferBlockMgr();
    recv := new BlockBuffer(mgr);
    PartsOfShort(recv);
    EmptyIn(FirstPart());
    ClassOf4096();
    ghost var (own, free) := (recv.Blocks(), recv.mgr.free);
    var res := RecvTcpData(sock, recv);
    assert forall b | b in recv.mgr.free + recv.Blocks() :: b in own || b in free || (fresh(b) && fresh(b.buffer));
    PartsOfShort(recv);
  }

  lemma FootprintHas(bs: set<Block>)
    ensures forall b | b in bs :: b in Footprint(bs) && b.buffer in Footprint(bs)
    ensures forall x | x in Footprint(bs) :: exists b :: b in bs && (x == b || x == b.buffer)
  {
  }

  /** Two arrivals into an empty buffer: the second does not fit, and the full first block is closed. */
  method TwoArrivals() returns (recv: BlockBuffer)
    ensures fresh(recv) && fresh(recv.mgr) && recv.Valid()
    ensures fresh(Footprint(recv.Blocks())) && recv.Parts == [FirstPart(), SecondPart()]
  {
    hide BlockBuffer.Valid, Moved, FirstPart, SecondPart, Concat, SizeClass, BlockBuffer.Seals;
    var sock := new InStream([RecvOutcome.Got(904, SecondPart())]);
    ScriptStep(sock.script);
    assert sock.script == [RecvOutcome.Got(904, SecondPart())] && 904 in Attempts(sock.script);
    recv := FirstArrival();
    PartsOfShort(recv);
    ghost var (own, free) := (recv.Blocks(), recv.mgr.free);
    FootprintHas(own);
    FootprintHas(free);
    assert fresh(Footprint(own)) && fresh(Footprint(free));
    var res := RecvTcpData(sock, recv);
    assert forall b | b in recv.Blocks() :: b in own || b in free || (fresh(b) && fresh(b.buffer));
    FootprintHas(recv.Blocks());
    assert recv.Parts == [FirstPart()] + [SecondPart()];
  }

  /** The pushes of short frames into a large empty queue are safe. */
  lemma EmptyQueueSafe(r: Ring, parts: seq<seq<byte>>, max: nat)
    requires Sane(r) && r.head == r.tail == 0 && HEADER + max <= |r.bytes|
    ensures SafeWritten(r, parts, max)
  {
    hide PeekedLen, Concat;
  }

  lemma GrantedAtStart(r: Ring, parts: seq<seq<byte>>, g: seq<byte>, fd: int32, mtype: byte, max: nat)
    requires |g| == 4 && SafeWritten(r, parts, max) && r.head == r.tail == 0
    requires 4 <= |Concat(parts)| && 0 < PeekedLen(parts, g) <= Min(max, |Concat(parts)|)
    requires HEADER + PeekedLen(parts, g) <= |r.bytes|
    ensures TakeWritten(r, parts, g, fd, mtype, max).reply == Took(PeekedLen(parts, g))
  {
    hide PeekedLen, Concat, Header, Overlay, Splice, SafeWritten;
    assert Sane(r) by { SafeIsSane(r, parts, max); }
  }

  lemma SafeIsSane(r: Ring, parts: seq<seq<byte>>, max: nat)
    requires SafeWritten(r, parts, max)
    ensures Sane(r)
  {
  }

  /**
   * With the default limit and queue: the two arrivals make up one frame, the code takes
   * it, and what the workers get begins with the second part in the place of the first.
   */
  method FrameAcrossBlocks() returns (que: LoopQueue, reply: Reply, ghost data: seq<byte>)
    ensures NextCut(FirstPart() + SecondPart(), 81920) == Frame(5000) && reply == Took(5000)
    ensures que.Ready() && Represents(que.View(), [Record(1, 0, 6, data)]) && |data| == 5000
    ensures data[..904] == SecondPart() && data[904..4096] == FirstPart()[904..]
    ensures data != FirstPart() + SecondPart()
  {
    hide BlockBuffer.Valid, Represents, FirstPart, SecondPart, SafeWritten, TakeWritten, Overlay, PeekedLen, Concat;
    var recv := TwoArrivals();
    que := new LoopQueue();
    var ok := que.Init(1024 * 1024);
    ghost var (r, parts) := (que.View(), recv.Parts);
    EmptyQueueSafe(r, parts, 81920);
    ghost var g;
    reply, g := RecvTcpMsg(recv, que, 1, 6, 81920);
    SplitFrame(g);
    GrantedAtStart(r, parts, g, 1, 6, 81920);
    ghost var window := WrittenQueuesOverlay(r, [], parts, g, 1, 6, 81920);
    data := Overlay(parts, 5000, window);
    SplitOverlay(window);
    EmptyQueueOne(Record(1, 0, 6, data));
    SplitDiffers(data);
  }

  lemma EmptyQueueOne(rec: Record)
    ensures [] + [rec] == [rec]
  {
  }

  lemma SplitDiffers(data: seq<byte>)
    requires |data| == 5000 && data[..904] == SecondPart()
    ensures data != FirstPart() + SecondPart()
  {
    var whole := FirstPart() + SecondPart();
    assert data[..904][10] == 2 && whole[10] == FirstPart()[10] == 1;
  }

  // ---- a frame in two arrivals that stays in one block ----

  function Front3000(): (s: seq<byte>)
    ensures |s| == 3000
  {
    BE(5000, 4) + seq(2996, _ => 1)
  }

  function Back2000(): (s: seq<byte>)
    ensures |s| == 2000
  {
    seq(2000, _ => 2)
  }

  lemma WholeFrame()
    ensures NextCut(Front3000() + Back2000(), 81920) == Frame(5000)
  {
    hide BE, FromBE;
    var whole := Front3000() + Back2000();
    FourBytes();
    BERoundTrip(5000, 4);
    assert whole[..4] == Front3000()[..4] == BE(5000, 4);
  }

  /** One arrival into a buffer whose tail is not to be closed. */
  method Arrive(recv: BlockBuffer, bytes: seq<byte>)
    requires recv.Valid() && |recv.Chain| <= 1 && |recv.Contents()| < 4096 && bytes != []
    modifies recv, recv.mgr, Footprint(recv.Blocks()), Footprint(recv.mgr.free)
    ensures recv.Valid() && recv.Accounted() && |recv.Chain| <= 1
    ensures recv.Contents() == old(recv.Contents()) + bytes
  {
    hide BlockBuffer.Valid, Moved, Concat;
    var sock := new InStream([RecvOutcome.Got(|bytes|, bytes)]);
    ScriptStep(sock.script);
    PartsOfShort(recv);
    var res := RecvTcpData(sock, recv);
  }

  /**
   * Arrivals of 3000 and 2000 bytes make up one frame of 5000: fewer than 4096 bytes are in
   * use when the second comes, so the block is replaced by a larger one, and the workers
   * get the frame.
   */
  method FrameInOneBlock() returns (que: LoopQueue, reply: Reply)
    ensures reply == Took(5000) && que.Ready()
    ensures Represents(que.View(), [Record(1, 0, 6, Front3000() + Back2000())])
  {
    hide BlockBuffer.Valid, Represents, Front3000, Back2000, NextCut, Concat, Moved, SafeWritten, TakeWritten, InHead;
    var mgr := new BufferBlockMgr();
    var recv := new BlockBuffer(mgr);
    EmptyIn(Front3000());
    Arrive(recv, Front3000());
    Arrive(recv, Back2000());
    que := new LoopQueue();
    var ok := que.Init(1024 * 1024);
    ghost var (r, parts) := (que.View(), recv.Parts);
    var whole := Front3000() + Back2000();
    WholeFrame();
    PartsOfShort(recv);
    OneBlockInHead(parts, 81920);
    CutTaken(r, whole, 1, 6, 81920);
    WrittenSafeInHead(r, parts, 81920);
    ghost var g;
    reply, g := RecvTcpMsg(recv, que, 1, 6, 81920);
    WrittenIsTaken(r, parts, g, 1, 6, 81920);
    TakeOneRefines(r, [], whole, 1, 6, 81920);
    WholeSlice(whole);
    EmptyQueueOne(Record(1, 0, 6, whole));
  }

  lemma WholeSlice(s: seq<byte>)
    ensures |s| == 5000 ==> s[..5000] == s
  {
  }

  // ---- an empty frame ----

  /** The assert on an empty read fails exactly for a declared length of 0 and a queue with room for a header. */
  lemma AbortedIff(r: Ring, s: seq<byte>, fd: int32, mtype: byte, max: nat)
    requires SafeOne(r, s, max)
    ensures TakeOne(r, s, fd, mtype, max).reply == Aborted <==>
      4 <= |s| && DeclaredLen(s) == 0 && !NoRoom(r, 0) && SafeWrap(r, 0)
  {
    hide Reserve, FromBE;
    if 4 <= |s| && DeclaredLen(s) == 0 {
      RefusedIff(r, Record(fd, 0, mtype, []));
    }
  }

  /** Four zero bytes on an empty queue of 40 bytes. */
  lemma ZeroLengthAborts(r: Ring, max: nat)
    requires r == Ring(seq(40, _ => 0), 0, 0)
    ensures SafeOne(r, [0, 0, 0, 0], max) && TakeOne(r, [0, 0, 0, 0], 1, 6, max).reply == Aborted
  {
    hide Header, FromBE, BE;
    FourBytes();
    BERoundTrip(0, 4);
    assert BE(0, 4) == [0, 0, 0, 0] by { ZeroBytes(); }
    assert [0, 0, 0, 0][..4] == BE(0, 4);
  }

  lemma ZeroBytes()
    ensures BE(0, 4) == [0, 0, 0, 0]
  {
    assert BE(0, 1) == [0] && BE(0, 2) == [0, 0] && BE(0, 3) == [0, 0, 0];
  }
}
