/** The network thread: frames from a read buffer into the receive queue, and the send queue out. */
module NetMessages {
  import opened Bytes
  import opened RingModel
  import opened RingSteps
  import opened RingRuns
  import opened LoopQueues
  import opened BlockPools
  import opened BlockBuffers
  import opened BlockChains
  import opened Overlays
  import opened Framing

  /** What recvTcpMsg returns: the frame length, 0, -1, or nothing because an assert failed. */
  datatype Reply = Took(n: nat) | Zero | MinusOne | Aborted

  datatype Taken = Taken(ring: Ring, rest: seq<byte>, reply: Reply)

  /** The push that the next frame leads to stays within the limits of the queue. */
  predicate SafeOne(r: Ring, s: seq<byte>, max: nat) {
    && Sane(r)
    && match NextCut(s, max)
       case Frame(n) => WrapSafe(r, n)
       case Abort => WrapSafe(r, 0)
       case _ => true
  }

  /** recvTcpMsg on the bytes `s`: at most one frame goes to the queue. */
  function TakeOne(r: Ring, s: seq<byte>, fd: int32, mtype: byte, max: nat): Taken
    requires SafeOne(r, s, max)
  {
    match NextCut(s, max)
    case Wait => Taken(r, s, if |s| < 4 then MinusOne else Zero)
    case TooLong => Taken(r, s, MinusOne)
    case Abort =>
      var res := Reserve(r, fd, 0, mtype, 0);
      Taken(res.ring, s, if res.slot.None? then MinusOne else Aborted)
    case Frame(n) =>
      var (r', out) := PushTo(r, Record(fd, 0, mtype, s[..n]));
      if out == Refused then Taken(r', s, MinusOne) else Taken(r', s[n..], Took(n))
  }

  /** What is returned, by the bytes that are buffered and the length they declare. */
  lemma RepliesIff(r: Ring, s: seq<byte>, fd: int32, mtype: byte, max: nat)
    requires SafeOne(r, s, max)
    ensures var t := TakeOne(r, s, fd, mtype, max);
      && (t.reply == Zero <==> 4 <= |s| && |s| < FromBE(s[..4]) <= max)
      && (t.reply.Took? ==> 4 <= |s| && t.reply.n == FromBE(s[..4]) && 0 < t.reply.n <= |s| && t.reply.n <= max)
      && (|s| < 4 || max < FromBE(s[..4]) ==> t == Taken(r, s, MinusOne))
      && (4 <= |s| && FromBE(s[..4]) <= |s| && FromBE(s[..4]) <= max && t.reply == MinusOne ==>
            NoRoom(t.ring, FromBE(s[..4])) && t.rest == s)
  {
    hide Header, Marker, Splice, FromBE;
  }

  lemma TookBound(r: Ring, s: seq<byte>, fd: int32, mtype: byte, max: nat)
    requires SafeOne(r, s, max)
    ensures var t := TakeOne(r, s, fd, mtype, max); t.reply.Took? ==> 0 < t.reply.n <= |s|
  {
  }

  predicate SafeAll(r: Ring, s: seq<byte>, fd: int32, mtype: byte, max: nat)
    decreases |s|
  {
    && SafeOne(r, s, max)
    && var t := TakeOne(r, s, fd, mtype, max);
       t.reply.Took? ==> |t.rest| < |s| && SafeAll(t.ring, t.rest, fd, mtype, max)
  }

  /** The consumer has moved on from the start, or `n` bytes fit behind `tail` in any frames. */
  predicate Room(r: Ring, n: nat) {
    0 < r.head || r.tail + (HEADER + 1) * n <= |r.bytes|
  }

  /**
   * Every push is safe once the consumer has moved on from the start of the buffer, or
   * while there is room behind `tail` for all that is buffered.
   */
  lemma {:induction false} SafeWithRoom(r: Ring, s: seq<byte>, fd: int32, mtype: byte, max: nat)
    requires Sane(r) && Room(r, |s|)
    ensures SafeAll(r, s, fd, mtype, max)
    decreases |s|
  {
    CutIsSafe(r, s, max);
    TookBound(r, s, fd, mtype, max);
    var t := TakeOne(r, s, fd, mtype, max);
    hide Header, Splice, Marker, NextCut, SafeAll;
    if t.reply.Took? {
      SlotFits(r, fd, mtype, t.reply.n);
      SafeWithRoom(t.ring, t.rest, fd, mtype, max);
    }
    SafeAllStep(r, s, fd, mtype, max);
  }

  lemma CutIsSafe(r: Ring, s: seq<byte>, max: nat)
    requires Sane(r) && Room(r, |s|)
    ensures SafeOne(r, s, max)
  {
  }

  lemma SafeAllStep(r: Ring, s: seq<byte>, fd: int32, mtype: byte, max: nat)
    requires SafeOne(r, s, max)
    requires var t := TakeOne(r, s, fd, mtype, max);
      t.reply.Took? ==> |t.rest| < |s| && SafeAll(t.ring, t.rest, fd, mtype, max)
    ensures SafeAll(r, s, fd, mtype, max)
  {
    hide TakeOne, SafeOne;
  }

  /** No further frame can be cut, or the queue has no room for it. */
  predicate Stops(r: Ring, s: seq<byte>, max: nat) {
    var c := NextCut(s, max);
    c.Frame? ==> NoRoom(r, c.n)
  }

  datatype Drained = Drained(ring: Ring, frames: seq<seq<byte>>, rest: seq<byte>)

  /** RecvMsg: take frames until one call returns no positive length. */
  function TakeAll(r: Ring, s: seq<byte>, fd: int32, mtype: byte, max: nat): Drained
    requires SafeAll(r, s, fd, mtype, max)
    decreases |s|
  {
    var t := TakeOne(r, s, fd, mtype, max);
    if !t.reply.Took? then Drained(t.ring, [], t.rest)
    else
      var d := TakeAll(t.ring, t.rest, fd, mtype, max);
      Drained(d.ring, [s[..t.reply.n]] + d.frames, d.rest)
  }

  function Messages(frames: seq<seq<byte>>, fd: int32, mtype: byte): seq<Record> {
    seq(|frames|, i requires 0 <= i < |frames| => Record(fd, 0, mtype, frames[i]))
  }

  lemma TakeOneRefines(r: Ring, q: seq<Record>, s: seq<byte>, fd: int32, mtype: byte, max: nat)
    requires Represents(r, q) && SafeOne(r, s, max)
    ensures var t := TakeOne(r, s, fd, mtype, max);
      if t.reply.Took? then
        && NextCut(s, max) == Frame(t.reply.n) && t.rest == s[t.reply.n..]
        && Represents(t.ring, q + [Record(fd, 0, mtype, s[..t.reply.n])])
      else t.rest == s && Represents(t.ring, q)
  {
    hide Represents, Reserve;
    var c := NextCut(s, max);
    if c.Frame? {
      PushRefinesFifo(r, q, Record(fd, 0, mtype, s[..c.n]));
    } else if c.Abort? {
      ReserveRightIff(r, q, fd, 0, mtype, 0);
    }
  }

  /**
   * Draining cuts frames off the front of the buffered bytes and appends exactly those to
   * the queue; it stops early only where the parser stops or the queue refuses.
   */
  lemma {:induction false} TakeAllRefines(r: Ring, q: seq<Record>, s: seq<byte>, fd: int32, mtype: byte, max: nat)
    requires Represents(r, q) && SafeAll(r, s, fd, mtype, max)
    ensures var d := TakeAll(r, s, fd, mtype, max);
      && CutsTo(s, d.frames, d.rest, max)
      && Represents(d.ring, q + Messages(d.frames, fd, mtype))
      && Stops(d.ring, d.rest, max)
    decreases |s|
  {
    hide Represents, TakeOne, SafeOne, Stops;
    TakeOneRefines(r, q, s, fd, mtype, max);
    var t := TakeOne(r, s, fd, mtype, max);
    if t.reply.Took? {
      var rec := Record(fd, 0, mtype, s[..t.reply.n]);
      TakeAllRefines(t.ring, q + [rec], t.rest, fd, mtype, max);
      var d := TakeAll(t.ring, t.rest, fd, mtype, max);
      assert Messages([s[..t.reply.n]] + d.frames, fd, mtype) == [rec] + Messages(d.frames, fd, mtype);
      Assoc(q, [rec], Messages(d.frames, fd, mtype));
      assert ([s[..t.reply.n]] + d.frames)[1..] == d.frames;
    } else {
      NotTaken(r, s, fd, mtype, max);
      assert Messages([], fd, mtype) == [];
      Assoc(q, [], []);
    }
  }

  /** A call that takes nothing has met a place where the parser stops, or a queue without room. */
  lemma NotTaken(r: Ring, s: seq<byte>, fd: int32, mtype: byte, max: nat)
    requires SafeOne(r, s, max) && !TakeOne(r, s, fd, mtype, max).reply.Took?
    ensures Stops(TakeOne(r, s, fd, mtype, max).ring, s, max)
  {
    hide Header, Marker, Splice, FromBE;
  }

  /** Unless the queue had no room for a frame, draining is parsing. */
  lemma TakeAllIsParse(r: Ring, q: seq<Record>, s: seq<byte>, fd: int32, mtype: byte, max: nat)
    requires Represents(r, q) && SafeAll(r, s, fd, mtype, max)
    ensures var (d, p) := (TakeAll(r, s, fd, mtype, max), Parse(s, max));
      if NextCut(d.rest, max).Frame? then
        NoRoom(d.ring, NextCut(d.rest, max).n) && p.frames == d.frames + Parse(d.rest, max).frames
      else p == Parsed(d.frames, d.rest)
  {
    hide Represents, SafeAll, TakeAll, NextCut, Parse, CutsTo;
    var d := TakeAll(r, s, fd, mtype, max);
    TakeAllRefines(r, q, s, fd, mtype, max);
    CutsArePrefix(s, d.frames, d.rest, max);
    if !NextCut(d.rest, max).Frame? {
      ParseStop(d.rest, max);
      Assoc(d.frames, [], []);
    }
  }

  /** While there is room behind `tail` for all that is buffered, no frame is refused. */
  lemma {:induction false} RoomMeansParse(r: Ring, s: seq<byte>, fd: int32, mtype: byte, max: nat)
    requires Sane(r) && r.head <= r.tail && r.tail + (HEADER + 1) * |s| <= |r.bytes|
    ensures SafeAll(r, s, fd, mtype, max)
    ensures var d := TakeAll(r, s, fd, mtype, max); Parse(s, max) == Parsed(d.frames, d.rest)
    decreases |s|
  {
    SafeWithRoom(r, s, fd, mtype, max);
    TookBound(r, s, fd, mtype, max);
    RoomTakes(r, s, fd, mtype, max);
    var t := TakeOne(r, s, fd, mtype, max);
    hide Header, Splice, Marker, NextCut, SafeAll, TakeOne, Parse;
    if t.reply.Took? {
      RoomMeansParse(t.ring, t.rest, fd, mtype, max);
      ParseStep(s, max);
    } else {
      ParseStop(s, max);
    }
  }

  lemma RoomTakes(r: Ring, s: seq<byte>, fd: int32, mtype: byte, max: nat)
    requires Sane(r) && SafeOne(r, s, max) && r.head <= r.tail && r.tail + (HEADER + 1) * |s| <= |r.bytes|
    ensures var t := TakeOne(r, s, fd, mtype, max);
      if NextCut(s, max).Frame? then
        && t.reply == Took(NextCut(s, max).n) && t.rest == s[t.reply.n..]
        && Sane(t.ring) && t.ring.head <= t.ring.tail && |t.ring.bytes| == |r.bytes|
        && t.ring.tail + (HEADER + 1) * |t.rest| <= |t.ring.bytes|
      else !t.reply.Took? && t.rest == s
  {
    hide Header, Splice, Marker, FromBE;
  }

  // ---- the code ----

  /** The length recvTcpMsg finds; `g` is what lay in its four bytes before they were copied over. */
  function PeekedLen(parts: seq<seq<byte>>, g: seq<byte>): nat
    requires |g| == 4
  {
    FromBE(Overlay(parts, 4, g))
  }

  /** Whatever length is found, the push it leads to stays within the limits of the queue. */
  ghost predicate SafeWritten(r: Ring, parts: seq<seq<byte>>, max: nat) {
    && Sane(r)
    && forall g: seq<byte> | |g| == 4 ::
         var n := PeekedLen(parts, g); 4 <= |Concat(parts)| && n <= Min(max, |Concat(parts)|) ==> WrapSafe(r, n)
  }

  /** The part of recvTcpMsg behind the checks: reserve, move `n` bytes into the region, finish. */
  function PushWritten(r: Ring, parts: seq<seq<byte>>, n: nat, fd: int32, mtype: byte): Taken
    requires Sane(r) && WrapSafe(r, n) && n <= |Concat(parts)|
  {
    var (s, res) := (Concat(parts), Reserve(r, fd, 0, mtype, n));
    if res.slot.None? then Taken(res.ring, s, MinusOne)
    else if n == 0 then Taken(res.ring, s, Aborted)
    else
      SlotFits(r, fd, mtype, n);
      var window := res.ring.bytes[res.slot.value..res.slot.value + n];
      Taken(Commit(Fill(res.ring, res.slot.value, Overlay(parts, n, window)), n), s[n..], Took(n))
  }

  /**
   * recvTcpMsg as it is written, on any chain of blocks: the length and the payload are
   * what Copy and Move leave at their destinations.
   */
  function TakeWritten(r: Ring, parts: seq<seq<byte>>, g: seq<byte>, fd: int32, mtype: byte, max: nat): Taken
    requires |g| == 4 && SafeWritten(r, parts, max)
  {
    var s := Concat(parts);
    if |s| < 4 then Taken(r, s, MinusOne)
    else
      var n := PeekedLen(parts, g);
      if n > max then Taken(r, s, MinusOne)
      else if n > |s| then Taken(r, s, Zero)
      else PushWritten(r, parts, n, fd, mtype)
  }

  /** The bytes recvTcpMsg copies and reads all lie in the first block of the buffer. */
  predicate InHead(parts: seq<seq<byte>>, max: nat) {
    |Concat(parts)| < 4 ||
    (parts != [] && 4 <= |parts[0]| &&
     match NextCut(Concat(parts), max)
     case Frame(n) => n <= |parts[0]|
     case _ => true)
  }

  lemma PeekedInHead(parts: seq<seq<byte>>, g: seq<byte>)
    requires |g| == 4 && parts != [] && 4 <= |parts[0]|
    ensures 4 <= |Concat(parts)| && PeekedLen(parts, g) == DeclaredLen(Concat(parts))
  {
    hide Overlay, Concat, FromBE;
    HeadWithin(parts);
    OverlayInHead(parts, 4, g);
    var o := Overlay(parts, 4, g);
    assert o == o[..4] == Concat(parts)[..4];
  }

  lemma WrittenSafeInHead(r: Ring, parts: seq<seq<byte>>, max: nat)
    requires InHead(parts, max) && SafeOne(r, Concat(parts), max)
    ensures SafeWritten(r, parts, max)
  {
    hide Concat, FromBE, PeekedLen;
    forall g: seq<byte> | |g| == 4 && 4 <= |Concat(parts)|
      ensures PeekedLen(parts, g) == DeclaredLen(Concat(parts))
    {
      PeekedInHead(parts, g);
    }
  }

  /** While what it reads lies in the head block, the code as written takes what it should. */
  lemma WrittenIsTaken(r: Ring, parts: seq<seq<byte>>, g: seq<byte>, fd: int32, mtype: byte, max: nat)
    requires |g| == 4 && InHead(parts, max) && SafeOne(r, Concat(parts), max)
    ensures SafeWritten(r, parts, max)
    ensures TakeWritten(r, parts, g, fd, mtype, max) == TakeOne(r, Concat(parts), fd, mtype, max)
  {
    hide Overlay, Concat, FromBE, PeekedLen, Reserve, SafeWritten;
    WrittenSafeInHead(r, parts, max);
    var s := Concat(parts);
    if 4 <= |s| {
      PeekedInHead(parts, g);
      var n := DeclaredLen(s);
      if 0 < n <= |s| && n <= max {
        SlotFits(r, fd, mtype, n);
        var res := Reserve(r, fd, 0, mtype, n);
        if res.slot.Some? {
          var window := res.ring.bytes[res.slot.value..res.slot.value + n];
          OverlayInHead(parts, n, window);
          assert Overlay(parts, n, window) == Overlay(parts, n, window)[..n];
        }
      }
    }
  }

  /** On any chain, what a call queues has the right length, and its payload is the overlay of the blocks. */
  lemma WrittenQueuesOverlay(r: Ring, q: seq<Record>, parts: seq<seq<byte>>, g: seq<byte>,
                             fd: int32, mtype: byte, max: nat)
    returns (window: seq<byte>)
    requires |g| == 4 && SafeWritten(r, parts, max) && Represents(r, q)
    requires TakeWritten(r, parts, g, fd, mtype, max).reply.Took?
    ensures var t := TakeWritten(r, parts, g, fd, mtype, max);
      && |window| == t.reply.n <= |Concat(parts)| && t.rest == Concat(parts)[t.reply.n..]
      && Represents(t.ring, q + [Record(fd, 0, mtype, Overlay(parts, t.reply.n, window))])
  {
    hide Overlay, Concat, FromBE, PeekedLen, Reserve, Represents;
    var n := PeekedLen(parts, g);
    SlotFits(r, fd, mtype, n);
    var res := Reserve(r, fd, 0, mtype, n);
    window := res.ring.bytes[res.slot.value..res.slot.value + n];
    PushRefinesFifo(r, q, Record(fd, 0, mtype, Overlay(parts, n, window)));
  }

  /**
   * With the four length bytes in the head block: the payload that is queued is the frame,
   * whatever lay in the reserved region, if and only if the whole frame lies in the head.
   */
  lemma FrameRightIff(parts: seq<seq<byte>>, g: seq<byte>, max: nat)
    requires |g| == 4 && parts != [] && 4 <= |parts[0]| && NextCut(Concat(parts), max).Frame?
    ensures var n := NextCut(Concat(parts), max).n;
      && PeekedLen(parts, g) == n
      && ((forall window: seq<byte> :: |window| == n ==> Overlay(parts, n, window) == Concat(parts)[..n])
          <==> n <= |parts[0]|)
  {
    hide Overlay, Concat, FromBE, PeekedLen;
    PeekedInHead(parts, g);
    var n := NextCut(Concat(parts), max).n;
    if n <= |parts[0]| {
      forall window: seq<byte> | |window| == n ensures Overlay(parts, n, window) == Concat(parts)[..n] {
        OverlayInHead(parts, n, window);
        assert Overlay(parts, n, window)[..n] == Overlay(parts, n, window);
      }
    } else {
      OverlayWrong(parts, n);
      var dst: seq<byte> :| |dst| == n && Overlay(parts, n, dst)[..n] != Overlays.Taken(parts, n);
      assert Overlay(parts, n, dst)[..n] == Overlay(parts, n, dst);
    }
  }

  /** The first four bytes as they are copied, when there are four. */
  method PeekLen(recv: BlockBuffer) returns (len: Option<nat>, ghost g: seq<byte>)
    requires recv.Valid()
    ensures recv.Valid() && |g| == 4
    ensures len == if |recv.Contents()| < 4 then None else Some(PeekedLen(recv.Parts, g))
  {
    hide Overlay, Splice, Concat, BufferBlockMgr.Valid, At, Shape, Distinct;
    var lenbuff := new byte[4];
    g := lenbuff[..];
    assert g == lenbuff[0..4];
    var copylen := recv.Copy(lenbuff, 0, 4);
    if copylen != 4 {
      return None, g;
    }
    assert lenbuff[..] == lenbuff[..][0..4] == Overlay(recv.Parts, 4, g);
    len := Some(FromBE(lenbuff[..]));
  }

  lemma SlotFits(r: Ring, fd: int32, mtype: byte, n: nat)
    requires Sane(r) && WrapSafe(r, n)
    ensures var res := Reserve(r, fd, 0, mtype, n);
      res.slot.Some? ==> res.slot.value == res.ring.tail + HEADER && res.slot.value + n <= |res.ring.bytes|
  {
  }

  /** Move into the queue's reserved payload. */
  method ReadInto(recv: BlockBuffer, que: LoopQueue, slot: nat, n: nat)
    requires recv.Valid() && 0 < n <= |recv.Contents()|
    requires que.Ready() && slot + n <= que.bufflen && que.buff !in Footprint(recv.Blocks())
    modifies recv, recv.mgr, recv.Blocks(), que.buff
    ensures que.buff[..] == Splice(old(que.buff[..]), slot, Overlay(old(recv.Parts), n, old(que.buff[slot..slot + n])))
    ensures Skipped(recv.Parts, old(recv.Parts), n)
    ensures recv.Valid() && recv.Left() && |recv.Chain| <= |old(recv.Chain)|
    ensures n <= |old(recv.Contents())| && recv.Contents() == old(recv.Contents())[n..]
  {
    hide BlockBuffer.Valid, Overlay, Splice, Concat, Freed, Moved, Skip, Returned, BlockBuffer.Drained;
    var moved := recv.Move(que.buff, slot, n);
  }

  lemma HeadWithin(parts: seq<seq<byte>>)
    requires parts != []
    ensures |parts[0]| <= |Concat(parts)|
    ensures |parts| == 1 ==> parts[0] == Concat(parts)
  {
  }

  /** The parts that Move leaves: an emptied last block may be gone. */
  predicate Skipped(now: seq<seq<byte>>, was: seq<seq<byte>>, n: nat) {
    now == Skip(was, n) || (Skip(was, n) == [[]] && now == [])
  }

  method PushFrame(recv: BlockBuffer, que: LoopQueue, n: nat, fd: int32, mtype: byte) returns (reply: Reply)
    requires recv.Valid() && n <= |recv.Contents()|
    requires que.Ready() && WrapSafe(que.View(), n) && que.buff !in Footprint(recv.Blocks())
    modifies recv, recv.mgr, recv.Blocks(), que`tail, que.buff
    ensures recv.Valid() && recv.Left() && |recv.Chain| <= |old(recv.Chain)|
    ensures que.Ready() && que.buff == old(que.buff)
    ensures Taken(que.View(), recv.Contents(), reply) == PushWritten(old(que.View()), old(recv.Parts), n, fd, mtype)
    ensures Skipped(recv.Parts, old(recv.Parts), if reply.Took? then reply.n else 0)
  {
    hide BlockBuffer.Valid, Splice, Concat, Freed, Reserve, Overlay;
    recv.ValidOwns();
    recv.NothingLeft();
    SlotFits(que.View(), fd, mtype, n);
    var slot := que.BufferForPush(fd, 0, mtype as int, n);
    if slot.None? {
      return MinusOne;
    }
    if n == 0 {
      return Aborted;
    }
    ReadInto(recv, que, slot.value, n);
    que.PushFinish(n);
    reply := Took(n);
  }

  method RecvTcpMsg(recv: BlockBuffer, que: LoopQueue, fd: int32, mtype: byte, max: nat)
    returns (reply: Reply, ghost g: seq<byte>)
    requires recv.Valid()
    requires que.Ready() && SafeWritten(que.View(), recv.Parts, max) && que.buff !in Footprint(recv.Blocks())
    modifies recv, recv.mgr, recv.Blocks(), que`tail, que.buff
    ensures recv.Valid() && recv.Left() && |recv.Chain| <= |old(recv.Chain)|
    ensures que.Ready() && que.buff == old(que.buff) && |g| == 4
    ensures Taken(que.View(), recv.Contents(), reply)
         == TakeWritten(old(que.View()), old(recv.Parts), g, fd, mtype, max)
    ensures Skipped(recv.Parts, old(recv.Parts), if reply.Took? then reply.n else 0)
  {
    hide BlockBuffer.Valid, Concat, Freed, PushWritten, PeekedLen;
    recv.ValidOwns();
    recv.NothingLeft();
    var len;
    len, g := PeekLen(recv);
    if len.None? {
      return MinusOne, g;
    }
    var reallen := len.value;
    if reallen > max {
      return MinusOne, g;
    }
    var total := recv.GetTotalLen();
    if reallen > total {
      return Zero, g;
    }
    reply := PushFrame(recv, que, reallen, fd, mtype);
  }

  lemma {:induction false} SkipConcat(parts: seq<seq<byte>>, n: nat)
    requires n <= |Concat(parts)|
    ensures Concat(Skip(parts, n)) == Concat(parts)[n..]
    ensures |Skip(parts, n)| <= |parts|
    decreases |parts|
  {
    if parts != [] && n > 0 {
      var (p, rest) := (parts[0], parts[1..]);
      if n < |p| {
        assert ([p[n..]] + rest)[1..] == rest;
      } else if |parts| > 1 {
        SkipConcat(rest, n - |p|);
      }
    }
  }

  /** Every frame the loop of RecvMsg takes lies in what is then the head block. */
  ghost predicate FramesInHeads(r: Ring, parts: seq<seq<byte>>, fd: int32, mtype: byte, max: nat)
    requires SafeAll(r, Concat(parts), fd, mtype, max)
    decreases |Concat(parts)|
  {
    && InHead(parts, max)
    && var t := TakeOne(r, Concat(parts), fd, mtype, max);
       TookBound(r, Concat(parts), fd, mtype, max);
       t.reply.Took? ==>
         (SkipConcat(parts, t.reply.n);
          FramesInHeads(t.ring, Skip(parts, t.reply.n), fd, mtype, max))
  }

  lemma OneBlockInHead(parts: seq<seq<byte>>, max: nat)
    requires |parts| <= 1
    ensures InHead(parts, max)
  {
    hide FromBE;
    if parts != [] {
      HeadWithin(parts);
    }
  }

  /** With a single block that is always so. */
  lemma {:induction false} OneBlockInHeads(r: Ring, parts: seq<seq<byte>>, fd: int32, mtype: byte, max: nat)
    requires |parts| <= 1 && SafeAll(r, Concat(parts), fd, mtype, max)
    ensures FramesInHeads(r, parts, fd, mtype, max)
    decreases |Concat(parts)|
  {
    hide FromBE, Reserve, PushTo, InHead;
    OneBlockInHead(parts, max);
    var t := TakeOne(r, Concat(parts), fd, mtype, max);
    TookBound(r, Concat(parts), fd, mtype, max);
    if t.reply.Took? {
      SkipConcat(parts, t.reply.n);
      OneBlockInHeads(t.ring, Skip(parts, t.reply.n), fd, mtype, max);
    }
  }

  lemma FootprintShrinks(own0: set<Block>, own1: set<Block>)
    requires own1 <= own0
    ensures Footprint(own1) <= Footprint(own0)
  {
  }

  /** What the loop still has to meet after one frame has been read. */
  lemma NextInHeads(r: Ring, parts: seq<seq<byte>>, now: seq<seq<byte>>, fd: int32, mtype: byte, max: nat)
    requires SafeAll(r, Concat(parts), fd, mtype, max) && FramesInHeads(r, parts, fd, mtype, max)
    requires TakeOne(r, Concat(parts), fd, mtype, max).reply.Took?
    requires Skipped(now, parts, TakeOne(r, Concat(parts), fd, mtype, max).reply.n)
    ensures var t := TakeOne(r, Concat(parts), fd, mtype, max);
      && Concat(now) == t.rest
      && SafeAll(t.ring, Concat(now), fd, mtype, max) && FramesInHeads(t.ring, now, fd, mtype, max)
  {
    hide FromBE, Reserve, Skip;
    var t := TakeOne(r, Concat(parts), fd, mtype, max);
    TookBound(r, Concat(parts), fd, mtype, max);
    SkipConcat(parts, t.reply.n);
    if now == [] {
      ConcatOne([[]]);
      OneBlockInHeads(t.ring, now, fd, mtype, max);
    }
  }

  /** While every frame it takes lies in the head block, the loop is exactly TakeAll. */
  method RecvMsg(recv: BlockBuffer, que: LoopQueue, fd: int32, mtype: byte, max: nat)
    returns (last: Reply, ghost frames: seq<seq<byte>>)
    requires recv.Valid()
    requires que.Ready() && SafeAll(que.View(), recv.Contents(), fd, mtype, max)
    requires FramesInHeads(que.View(), recv.Parts, fd, mtype, max) && que.buff !in Footprint(recv.Blocks())
    modifies recv, recv.mgr, recv.Blocks(), que`tail, que.buff
    ensures recv.Valid() && recv.Left() && |recv.Chain| <= |old(recv.Chain)|
    ensures que.Ready() && que.buff == old(que.buff)
    ensures Drained(que.View(), frames, recv.Contents())
         == TakeAll(old(que.View()), old(recv.Contents()), fd, mtype, max)
  {
    hide BlockBuffer.Valid, Concat, Freed, TakeOne, SafeOne, Footprint, InHead, Skipped, SafeWritten, TakeWritten;
    ghost var all := TakeAll(que.View(), recv.Contents(), fd, mtype, max);
    recv.ValidOwns();
    recv.NothingLeft();
    frames := [];
    last := Took(1);
    while last.Took?
      invariant recv.Valid() && recv.Left() && |recv.Chain| <= |old(recv.Chain)| && que.Ready()
      invariant que.buff == old(que.buff) && que.buff !in Footprint(recv.Blocks())
      invariant last.Took? ==>
        && SafeAll(que.View(), recv.Contents(), fd, mtype, max)
        && FramesInHeads(que.View(), recv.Parts, fd, mtype, max)
        && var d := TakeAll(que.View(), recv.Contents(), fd, mtype, max);
           all == Drained(d.ring, frames + d.frames, d.rest)
      invariant !last.Took? ==> all == Drained(que.View(), frames, recv.Contents())
      decreases if last.Took? then |recv.Contents()| + 1 else 0
    {
      ghost var (r, s, parts) := (que.View(), recv.Contents(), recv.Parts);
      TookBound(r, s, fd, mtype, max);
      ghost var (free, issued, own) := (recv.mgr.free, recv.mgr.issued, recv.Blocks());
      WrittenSafeInHead(r, parts, max);
      ghost var g;
      last, g := RecvTcpMsg(recv, que, fd, mtype, max);
      WrittenIsTaken(r, parts, g, fd, mtype, max);
      FreedTrans(old(recv.mgr.free), old(recv.mgr.issued), old(recv.Blocks()),
                 free, issued, own, recv.mgr.free, recv.mgr.issued, recv.Blocks());
      FootprintShrinks(own, recv.Blocks());
      if last.Took? {
        NextInHeads(r, parts, recv.Parts, fd, mtype, max);
        ghost var d := TakeAll(que.View(), recv.Contents(), fd, mtype, max);
        ghost var f := s[..last.n];
        Assoc(frames, [f], d.frames);
        frames := frames + [f];
      } else {
        Assoc(frames, [], []);
      }
    }
  }

  // ---- arrivals ----

  /** What ioctl and recv report for one arrival: the bytes waiting, and the bytes read. */
  datatype RecvOutcome =
    | IoctlFailed
    | Got(waiting: nat, bytes: seq<byte>)
    | RecvInterrupted(waiting: nat)
    | RecvError(waiting: nat)

  class InStream {
    var script: seq<RecvOutcome>

    ghost predicate Plausible()
      reads this
    {
      forall o | o in script :: o.Got? ==> |o.bytes| <= o.waiting
    }

    constructor (script: seq<RecvOutcome>)
      ensures this.script == script
    {
      this.script := script;
    }
  }

  /** Closed: the peer is gone. Stuck: the buffer's search does not end. Silent: nothing more happens. */
  datatype Arrived = Ready(got: seq<byte>) | Closed | Stuck | Silent

  /** The sizes for which recvTcpData asks for room: interrupted attempts, and the one after them. */
  function Attempts(script: seq<RecvOutcome>): seq<nat> {
    if script == [] || script[0].IoctlFailed? then []
    else [script[0].waiting] + if script[0].RecvInterrupted? then Attempts(script[1..]) else []
  }

  /** How recvTcpData ends, unless the buffer's search does not. */
  function Reported(script: seq<RecvOutcome>): Arrived {
    if script == [] then Silent
    else
      match script[0]
      case IoctlFailed => Closed
      case RecvInterrupted(_) => Reported(script[1..])
      case RecvError(_) => Ready([])
      case Got(_, bytes) => if bytes == [] then Closed else Ready(bytes)
  }

  /**
   * What the calls report, outcome by outcome: `i` is the first one that is not an
   * interruption, if there is one.
   */
  lemma {:induction false} ReportedIs(script: seq<RecvOutcome>, i: nat)
    requires i <= |script| && forall j :: 0 <= j < i ==> script[j].RecvInterrupted?
    requires i < |script| ==> !script[i].RecvInterrupted?
    ensures var r := Reported(script);
      && (r == Silent <==> i == |script|)
      && (r == Closed <==> i < |script| && (script[i].IoctlFailed? || (script[i].Got? && script[i].bytes == [])))
      && (r == Ready([]) <==> i < |script| && script[i].RecvError?)
      && (forall b :: b != [] ==> (r == Ready(b) <==> i < |script| && script[i].Got? && script[i].bytes == b))
    ensures var n := if i < |script| && !script[i].IoctlFailed? then i + 1 else i;
      && |Attempts(script)| == n
      && forall j :: 0 <= j < n ==> Attempts(script)[j] == script[j].waiting
    decreases i
  {
    if i != 0 {
      ReportedIs(script[1..], i - 1);
      var rest := Attempts(script[1..]);
      assert Attempts(script) == [script[0].waiting] + rest;
      forall j | 0 <= j < |Attempts(script)| ensures Attempts(script)[j] == script[j].waiting {
        if j != 0 {
          assert Attempts(script)[j] == rest[j - 1] && script[1..][j - 1] == script[j];
        }
      }
    }
  }

  function Arriving(script: seq<RecvOutcome>): seq<byte> {
    if Reported(script).Ready? then Reported(script).got else []
  }

  /** A buffer of at most one block stays one: it is not closed to put a second behind it. */
  predicate StaysOneBlock(recv: BlockBuffer, attempts: seq<nat>)
    reads recv`tail, recv.tail
  {
    forall w | w in attempts :: !recv.Seals(w)
  }

  /** With two blocks the search for the one before the tail ends. */
  lemma ShortChainNotStuck(recv: BlockBuffer, n: nat)
    requires recv.Valid() && |recv.Chain| <= 2
    ensures !recv.ExpandStuck(n)
    ensures |recv.Parts| == |recv.Chain| && (recv.tail == null <==> recv.Chain == [])
    ensures recv.Chain != [] ==> recv.UsedLen() == |recv.Parts[|recv.Parts| - 1]|
  {
    hide BufferBlockMgr.Valid, At, Shape;
    recv.ValidEnds();
    recv.NoChain();
    if recv.Chain != [] {
      recv.ValidAt(0);
      recv.ValidAt(|recv.Chain| - 1);
      recv.TailFacts();
    }
  }

  /** A call of GetBufferToWrite on a short chain: one block may become two, two stay two. */
  method MakeRoom(recv: BlockBuffer, n: nat) returns (buffer: array?<byte>, pos: nat)
    requires recv.Valid()
    modifies recv, recv.mgr, Footprint(recv.Blocks()), Footprint(recv.mgr.free)
    ensures recv.Valid() && recv.Contents() == old(recv.Contents())
    ensures buffer != null ==>
      && recv.Accounted() && recv.Fits(n) && recv.Known(recv.tail)
      && buffer == recv.tail.buffer && pos == recv.tail.wrpos && pos + n <= buffer.Length
    ensures |old(recv.Chain)| <= 2 ==> buffer != null
    ensures |old(recv.Chain)| <= 1 ==>
      if old(recv.Seals(n)) then |old(recv.Parts)| == 1 && |recv.Chain| == 2 && recv.Parts == old(recv.Parts) + [[]]
      else |recv.Chain| <= 1 && forall w: nat :: recv.Seals(w) == old(recv.Seals(w))
    ensures |old(recv.Chain)| == 1 && old(!recv.Seals(n)) ==> recv.Parts == old(recv.Parts)
    ensures |old(recv.Chain)| == 2 && old(recv.Parts)[1..] == [[]] ==>
      |recv.Chain| == 2 && recv.Parts == old(recv.Parts)
    ensures old(recv.Chain) == [] ==> recv.TailIs(0, 0, SizeClass(n))
  {
    hide BlockBuffer.Valid, Concat, Moved, SizeClass;
    recv.ValidOwns();
    PartsOfShort(recv);
    if |recv.Chain| <= 2 {
      ShortChainNotStuck(recv, n);
    }
    buffer, pos := recv.GetBufferToWrite(n);
    PartsOfShort(recv);
    if |recv.Chain| <= 2 {
      ShortChainNotStuck(recv, n);
    }
  }

  lemma PartsOfShort(recv: BlockBuffer)
    requires recv.Valid()
    ensures |recv.Parts| == |recv.Chain| && (recv.tail == null <==> recv.Chain == [])
    ensures |recv.Chain| == 1 ==> recv.UsedLen() == |recv.Contents()|
    ensures recv.Chain == [] ==> forall w: nat :: !recv.Seals(w)
    ensures |recv.Chain| == 1 ==> recv.Contents() == recv.Parts[0]
  {
    hide BufferBlockMgr.Valid, At, Shape;
    recv.ValidEnds();
    recv.NoChain();
    if |recv.Chain| == 1 {
      recv.ValidAt(0);
      ConcatOne(recv.Parts);
    }
  }

  lemma ReportedOne(o: RecvOutcome)
    ensures o.RecvInterrupted? ==> Arriving([o]) == []
  {
    assert [o][1..] == [] && Reported([]) == Silent;
  }

  /** What the first outcome decides, and what it leaves to the others. */
  lemma ScriptStep(script: seq<RecvOutcome>)
    ensures script == [] ==> Reported(script) == Silent && Attempts(script) == []
    ensures script != [] && script[0].IoctlFailed? ==> Reported(script) == Closed && Attempts(script) == []
    ensures script != [] && script[0].RecvInterrupted? ==>
      && Reported(script) == Reported(script[1..]) && Arriving([script[0]]) == []
      && Attempts(script) == [script[0].waiting] + Attempts(script[1..])
    ensures script != [] && !script[0].IoctlFailed? && !script[0].RecvInterrupted? ==>
      && Reported(script) == Reported([script[0]]) && Arriving(script) == Arriving([script[0]])
      && Attempts(script) == [script[0].waiting]
    ensures Arriving(script) == if Reported(script).Ready? then Reported(script).got else []
  {
    if script != [] {
      ReportedOne(script[0]);
    }
  }

  /** One turn of recvTcpData: ask for room, receive, count; None when it was interrupted. */
  method Attempt(recv: BlockBuffer, o: RecvOutcome) returns (res: Option<Arrived>)
    requires recv.Valid() && !o.IoctlFailed? && (o.Got? ==> |o.bytes| <= o.waiting)
    modifies recv, recv.mgr, Footprint(recv.Blocks()), Footprint(recv.mgr.free)
    ensures recv.Valid() && recv.Contents() == old(recv.Contents()) + (if res == Some(Stuck) then [] else Arriving([o]))
    ensures res == Some(Stuck) || res == if o.RecvInterrupted? then None else Some(Reported([o]))
    ensures res != Some(Stuck) ==> recv.Accounted()
    ensures |old(recv.Chain)| <= 2 ==> res != Some(Stuck)
    ensures |old(recv.Chain)| <= 1 ==>
      if old(recv.Seals(o.waiting)) then
        |old(recv.Parts)| == 1 && |recv.Chain| == 2 && recv.Parts == old(recv.Parts) + [Arriving([o])]
      else |recv.Chain| <= 1 && (res == None ==> forall w: nat :: recv.Seals(w) == old(recv.Seals(w)))
    ensures |old(recv.Chain)| == 1 && old(!recv.Seals(o.waiting)) && res == None ==> recv.Parts == old(recv.Parts)
    ensures |old(recv.Chain)| == 2 && old(recv.Parts)[1..] == [[]] ==>
      |recv.Chain| == 2 && recv.Parts == old(recv.Parts)[..1] + [Arriving([o])]
    ensures old(recv.Chain) == [] && o.Got? ==> recv.TailIs(0, |o.bytes|, SizeClass(o.waiting))
  {
    hide BlockBuffer.Valid, BlockBuffer.Contents, Moved, Splice, SizeClass, BlockBuffer.Seals;
    Assoc(recv.Contents(), [], []);
    PartsOfShort(recv);
    ReportedOne(o);
    ghost var parts := recv.Parts;
    var buffer, pos := MakeRoom(recv, o.waiting);
    if buffer == null {
      return Some(Stuck);
    }
    if o.RecvInterrupted? {
      return None;
    }
    if o.RecvError? {
      return Some(Ready([]));
    }
    if o.bytes == [] {
      return Some(Closed);
    }
    ghost var parts1 := recv.Parts;
    FillTail(recv, buffer, pos, o.bytes);
    ghost var k := |parts1| - 1;
    assert [] + o.bytes == o.bytes;
    assert parts1 == parts + [[]] ==> parts1[k := parts1[k] + o.bytes] == parts + [o.bytes];
    assert parts1[1..] == [[]] ==> parts1[k := parts1[k] + o.bytes] == parts1[..1] + [o.bytes];
    return Some(Ready(o.bytes));
  }

  predicate Beyond(limit: Option<nat>, w: nat) {
    limit.Some? && limit.value < w
  }

  predicate AnyBeyond(limit: Option<nat>, attempts: seq<nat>) {
    exists w :: w in attempts && Beyond(limit, w)
  }

  lemma OneMoreAttempt(limit: Option<nat>, tried: seq<nat>, w: nat)
    ensures AnyBeyond(limit, tried + [w]) <==> AnyBeyond(limit, tried) || Beyond(limit, w)
    ensures !AnyBeyond(limit, [])
  {
    assert forall x :: x in tried + [w] <==> x in tried || x == w;
  }

  /** The largest request that does not close the tail, if there is one. */
  ghost function Limit(recv: BlockBuffer): (limit: Option<nat>)
    requires recv.Valid()
    reads recv, recv.mgr, recv.mgr.free, recv.Blocks(), set b | b in recv.Chain :: b.buffer
    ensures forall w: nat :: recv.Seals(w) <==> Beyond(limit, w)
    ensures forall attempts :: StaysOneBlock(recv, attempts) <==> !AnyBeyond(limit, attempts)
  {
    if recv.tail == null || recv.UsedLen() < COPY_BLOCK_SIZE then None
    else
      recv.NoChain();
      recv.TailFacts();
      Some(recv.tail.len - recv.tail.wrpos)
  }

  /** A buffer that began as `parts0`, of at most one block, after some interrupted attempts. */
  ghost predicate Tracks(recv: BlockBuffer, parts0: seq<seq<byte>>, limit: Option<nat>, tried: seq<nat>)
    reads recv, recv.tail
  {
    |parts0| <= 1 ==>
      if AnyBeyond(limit, tried) then |parts0| == 1 && |recv.Chain| == 2 && recv.Parts == parts0 + [[]]
      else
        && |recv.Chain| <= 1
        && (|parts0| == 1 ==> recv.Parts == parts0 && |recv.Chain| == 1)
        && (parts0 == [] ==> limit == None)
        && forall w: nat :: recv.Seals(w) == Beyond(limit, w)
  }

  lemma TracksStart(recv: BlockBuffer)
    requires recv.Valid()
    ensures Tracks(recv, recv.Parts, Limit(recv), []) && |recv.Parts| == |recv.Chain|
  {
    PartsOfShort(recv);
    OneMoreAttempt(Limit(recv), [], 0);
  }

  lemma TracksMeans(recv: BlockBuffer, parts0: seq<seq<byte>>, limit: Option<nat>, tried: seq<nat>)
    requires Tracks(recv, parts0, limit, tried)
    ensures |parts0| <= 1 ==> (|recv.Chain| <= 1 <==> !AnyBeyond(limit, tried))
    ensures |parts0| <= 1 && 1 < |recv.Chain| ==> recv.Parts == parts0 + [[]]
  {
  }

  /** One more turn, and what it does to a buffer that began with at most one block. */
  method AttemptAgain(recv: BlockBuffer, o: RecvOutcome,
                      ghost parts0: seq<seq<byte>>, ghost limit: Option<nat>, ghost tried: seq<nat>)
    returns (res: Option<Arrived>)
    requires recv.Valid() && !o.IoctlFailed? && (o.Got? ==> |o.bytes| <= o.waiting)
    requires Tracks(recv, parts0, limit, tried)
    modifies recv, recv.mgr, Footprint(recv.Blocks()), Footprint(recv.mgr.free)
    ensures recv.Valid() && recv.Contents() == old(recv.Contents()) + (if res == Some(Stuck) then [] else Arriving([o]))
    ensures res == Some(Stuck) || res == if o.RecvInterrupted? then None else Some(Reported([o]))
    ensures res != Some(Stuck) ==> recv.Accounted()
    ensures res == None ==> Tracks(recv, parts0, limit, tried + [o.waiting])
    ensures |parts0| <= 1 ==>
      && res != Some(Stuck)
      && (|recv.Chain| <= 1 <==> !AnyBeyond(limit, tried + [o.waiting]))
      && (1 < |recv.Chain| ==> recv.Parts == parts0 + [Arriving([o])])
    ensures old(recv.Chain) == [] && o.Got? ==> recv.TailIs(0, |o.bytes|, SizeClass(o.waiting))
  {
    hide BlockBuffer.Valid, BlockBuffer.Contents, Moved, SizeClass, BlockBuffer.Seals, Beyond, AnyBeyond, Arriving;
    OneMoreAttempt(limit, tried, o.waiting);
    ReportedOne(o);
    assert |parts0| <= 1 && AnyBeyond(limit, tried) ==> (parts0 + [[]])[1..] == [[]] && (parts0 + [[]])[..1] == parts0;
    NotBeyond(limit, o.waiting);
    res := Attempt(recv, o);
    PartsOfShort(recv);
  }

  lemma NotBeyond(limit: Option<nat>, w: nat)
    ensures limit == None ==> !Beyond(limit, w)
  {
  }

  /** recvTcpData up to the point where the read callback is made (Ready). */
  method RecvTcpData(sock: InStream, recv: BlockBuffer) returns (res: Arrived)
    requires recv.Valid() && sock.Plausible()
    modifies sock, recv, recv.mgr, Footprint(recv.Blocks()), Footprint(recv.mgr.free)
    ensures recv.Valid() && sock.Plausible()
    ensures res == Stuck || res == Reported(old(sock.script))
    ensures recv.Contents() == old(recv.Contents()) + (if res.Ready? then res.got else [])
    ensures res != Stuck ==> recv.Accounted()
    ensures |old(recv.Chain)| <= 1 ==>
      && res != Stuck
      && (|recv.Chain| <= 1 <==> old(StaysOneBlock(recv, Attempts(sock.script))))
      && (1 < |recv.Chain| ==> recv.Parts == old(recv.Parts) + [Arriving(old(sock.script))])
    ensures old(recv.Chain) == [] && old(sock.script) != [] && old(sock.script)[0].Got? ==>
      recv.TailIs(0, |old(sock.script)[0].bytes|, SizeClass(old(sock.script)[0].waiting))
  {
    hide BlockBuffer.Valid, BlockBuffer.Contents, Moved, SizeClass, Reported, Arriving, Attempts;
    hide Concat, SetOf, AnyBeyond, StaysOneBlock, Tracks;
    ghost var (script, parts, limit) := (sock.script, recv.Parts, Limit(recv));
    ghost var tried: seq<nat> := [];
    ScriptStep(script);
    Assoc(recv.Contents(), [], []);
    recv.ValidOwns();
    recv.NothingMoved();
    TracksStart(recv);
    while true
      invariant recv.Valid() && sock.Plausible() && recv.Accounted()
      invariant recv.Contents() == old(recv.Contents()) && Tracks(recv, parts, limit, tried)
      invariant Reported(sock.script) == Reported(script) && Attempts(script) == tried + Attempts(sock.script)
      invariant tried == [] ==> sock.script == script && recv.Chain == old(recv.Chain)
      invariant tried != [] ==> script != [] && !script[0].Got?
      decreases |sock.script|
    {
      Assoc(tried, [], []);
      ScriptStep(sock.script);
      TracksMeans(recv, parts, limit, tried);
      if sock.script == [] {
        return Silent;
      }
      var o := sock.script[0];
      sock.script := sock.script[1..];
      if o.IoctlFailed? {
        return Closed;
      }
      ghost var (free, issued, own) := (recv.mgr.free, recv.mgr.issued, recv.Blocks());
      var one := AttemptAgain(recv, o, parts, limit, tried);
      Assoc(tried, [o.waiting], Attempts(sock.script));
      tried := tried + [o.waiting];
      if one == Some(Stuck) {
        Assoc(recv.Contents(), [], []);
        return Stuck;
      }
      recv.AccountedTwice(free, issued, own);
      if one.Some? {
        return one.value;
      }
    }
  }

  /**
   * The read callback as it is written: receive, then push every complete frame. Starting
   * from one block that stays one, it takes exactly the frames the parser cuts, up to one
   * for which the queue has no room.
   */
  method OnReadable(sock: InStream, recv: BlockBuffer, que: LoopQueue, fd: int32, mtype: byte, max: nat,
                    ghost q: seq<Record>)
    returns (res: Arrived, ghost frames: seq<seq<byte>>)
    requires recv.Valid() && sock.Plausible() && |recv.Chain| <= 1 && StaysOneBlock(recv, Attempts(sock.script))
    requires que.Ready() && Represents(que.View(), q)
    requires Reported(sock.script).Ready? ==>
      SafeAll(que.View(), recv.Contents() + Arriving(sock.script), fd, mtype, max)
    requires que.buff !in Footprint(recv.Blocks()) && que.buff !in Footprint(recv.mgr.free)
    modifies sock, recv, recv.mgr, Footprint(recv.Blocks()), Footprint(recv.mgr.free), que`tail, que.buff
    ensures recv.Valid() && sock.Plausible() && que.Ready() && |recv.Chain| <= 1
    ensures res == Reported(old(sock.script))
    ensures var s := old(recv.Contents()) + old(Arriving(sock.script));
      && CutsTo(s, frames, recv.Contents(), max)
      && (res.Ready? ==>
            && SafeAll(old(que.View()), s, fd, mtype, max)
            && Drained(que.View(), frames, recv.Contents()) == TakeAll(old(que.View()), s, fd, mtype, max)
            && Stops(que.View(), recv.Contents(), max)
            && (!NextCut(recv.Contents(), max).Frame? ==> Parse(s, max) == Parsed(frames, recv.Contents())))
    ensures Represents(que.View(), q + Messages(frames, fd, mtype))
  {
    hide BlockBuffer.Valid, Represents, SafeAll, NextCut, TakeAll, Stops, Parse, Concat;
    frames := [];
    res := RecvTcpData(sock, recv);
    if !res.Ready? {
      Assoc(old(recv.Contents()), [], []);
      assert Messages([], fd, mtype) == [];
      Assoc(q, [], []);
      return;
    }
    ghost var (r, s) := (que.View(), recv.Contents());
    TakeAllRefines(r, q, s, fd, mtype, max);
    TakeAllIsParse(r, q, s, fd, mtype, max);
    PartsOfShort(recv);
    assert recv.Contents() == Concat(recv.Parts);
    OneBlockInHeads(r, recv.Parts, fd, mtype, max);
    var last;
    last, frames := RecvMsg(recv, que, fd, mtype, max);
  }

  // ---- the send queue ----

  const MT_SVR_MESSAGE: byte := 5
  const MT_CLI_MESSAGE: byte := 6

  datatype Sent = Sent(fd: int32, remote: uint64, data: seq<byte>)

  /** The messages among the queued records, in order. */
  function Outgoing(q: seq<Record>): seq<Sent> {
    if q == [] then []
    else
      (if q[0].mtype == MT_SVR_MESSAGE || q[0].mtype == MT_CLI_MESSAGE
       then [Sent(q[0].fd, q[0].remote, q[0].data)] else [])
      + Outgoing(q[1..])
  }

  lemma OutgoingOne(r: Record)
    ensures Outgoing([r]) == if r.mtype == 5 || r.mtype == 6 then [Sent(r.fd, r.remote, r.data)] else []
  {
    assert [r][1..] == [];
  }

  lemma {:induction false} OutgoingAppend(a: seq<Record>, b: seq<Record>)
    ensures Outgoing(a + b) == Outgoing(a) + Outgoing(b)
  {
    if a == [] {
      assert a + b == b;
    } else {
      OutgoingAppend(a[1..], b);
      assert (a + b)[1..] == a[1..] + b && (a + b)[0] == a[0];
    }
  }

  /** How many of the records in front of position `k` are messages. */
  function MessagesBefore(q: seq<Record>, k: nat): (n: nat)
    requires k <= |q|
  {
    if k == 0 then 0
    else MessagesBefore(q, k - 1) + if q[k - 1].mtype == 5 || q[k - 1].mtype == 6 then 1 else 0
  }

  /**
   * Every record of type 5 or 6, and no other, is sent: at the place that the number of
   * messages before it gives, with its descriptor, remote address and payload.
   */
  lemma {:induction false} OutgoingAt(q: seq<Record>, k: nat)
    requires k < |q|
    ensures |Outgoing(q)| == MessagesBefore(q, |q|)
    ensures q[k].mtype == 5 || q[k].mtype == 6 ==>
      var i := MessagesBefore(q, k);
      i < |Outgoing(q)| && Outgoing(q)[i] == Sent(q[k].fd, q[k].remote, q[k].data)
    decreases |q|
  {
    var (n, init) := (|q| - 1, q[..|q| - 1]);
    var last := q[n];
    assert q == init + [last];
    OutgoingAppend(init, [last]);
    OutgoingOne(last);
    BeforeIn(init, last, n);
    if n == 0 {
      assert init == [] && Outgoing(init) == [];
    } else {
      OutgoingAt(init, if k < n then k else 0);
    }
    if k < n {
      BeforeIn(init, last, k);
    }
  }

  lemma {:induction false} BeforeIn(q: seq<Record>, last: Record, k: nat)
    requires k <= |q|
    ensures MessagesBefore(q + [last], k) == MessagesBefore(q, k)
  {
    if k != 0 {
      BeforeIn(q, last, k - 1);
    }
  }

  /** Drains the send queue: every message goes to SendMsg once, in the order it was pushed. */
  method OnSendMsgEvent(que: LoopQueue, ghost q: seq<Record>) returns (sent: seq<Sent>)
    requires que.Ready() && Represents(que.View(), q) && !Hollow(que.View())
    modifies que`head
    ensures que.Ready() && Represents(que.View(), []) && !Hollow(que.View())
    ensures sent == Outgoing(q)
  {
    hide Represents, Front, RecordAt, LenAt, DataLenAt, AtMark;
    ghost var (r, rest) := (que.View(), q);
    TakeRefinesFifo(r, rest);
    SafeWrapNeverHollow(r, rest, Take);
    sent := [];
    var block := que.FrontBlock();
    while block.Some?
      invariant que.Ready() && Represents(r, rest) && !Hollow(r) && TakeInside(r)
      invariant Fronted(que.View(), block) == Front(r)
      invariant !Hollow(TakeFrom(r).0)
      invariant if rest == [] then TakeFrom(r).1 == Nothing && Represents(TakeFrom(r).0, [])
                else TakeFrom(r).1 == Outcome.Got(rest[0]) && Represents(TakeFrom(r).0, rest[1..])
      invariant sent + Outgoing(rest) == Outgoing(q)
      decreases |rest|
    {
      var rec := RecordAt(que.buff[..], block.value);
      if rec.mtype == MT_SVR_MESSAGE || rec.mtype == MT_CLI_MESSAGE {
        sent := sent + [Sent(rec.fd, rec.remote, rec.data)];
      }
      TakenInside(r, rest[1..]);
      que.PopBlock(LenAt(que.buff[..], block.value));
      r, rest := que.View(), rest[1..];
      TakeRefinesFifo(r, rest);
      SafeWrapNeverHollow(r, rest, Take);
      block := que.FrontBlock();
    }
  }

  /** The block that is popped ends inside the buffer. */
  lemma TakenInside(r: Ring, q: seq<Record>)
    requires TakeInside(r) && Front(r).block.Some?
    requires Represents(TakeFrom(r).0, q)
    ensures Front(r).block.value == Front(r).ring.head
    ensures TakeFrom(r).0.head <= |r.bytes| == |Front(r).ring.bytes|
  {
  }
}
