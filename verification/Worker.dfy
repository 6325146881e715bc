/** A worker thread's turn at the receive queue: look, copy, pop, under the lock. */
module Workers {
  import opened Bytes
  import opened RingModel
  import opened RingSteps
  import opened LoopQueues

  /** Idle: nothing queued. Crashed: the assert on the block length failed. */
  datatype Turn = Idle | Copied(len: nat) | Crashed

  class Worker {
    const recvBuffer: array<byte>
    const maxMsglen: nat

    constructor (maxMsglen: nat)
      ensures fresh(recvBuffer) && recvBuffer.Length == this.maxMsglen == maxMsglen
    {
      recvBuffer := new byte[maxMsglen];
      this.maxMsglen := maxMsglen;
    }

    /** Takes the oldest record, byte for byte; the limit counts the 22-byte header as well. */
    method TakeBlock(que: LoopQueue, ghost q: seq<Record>) returns (turn: Turn)
      requires que.Ready() && Represents(que.View(), q) && FrontSafe(que.View())
      requires recvBuffer.Length == maxMsglen && que.buff != recvBuffer
      modifies que`head, recvBuffer
      ensures que.Ready()
      ensures turn == Idle <==> q == []
      ensures turn == Crashed <==> q != [] && maxMsglen < HEADER + |q[0].data|
      ensures var r := Front(old(que.View())).ring;
        que.View() == if turn.Copied? then Pop(r, turn.len) else r
      ensures !turn.Copied? ==> Represents(que.View(), q)
      ensures turn.Copied? ==>
        && turn.len == HEADER + |q[0].data| <= recvBuffer.Length
        && recvBuffer[..turn.len] == RecordBytes(q[0])
        && Represents(que.View(), q[1..])
    {
      hide Front, RecordAt, LenAt, DataLenAt, AtMark, Represents, RecordBytes;
      ghost var r := que.View();
      FrontRightIff(r, q);
      OldestBytes(r, q);
      var block := que.FrontBlock();
      if block.None? {
        return Idle;
      }
      var len := LenAt(que.buff[..], block.value);
      if len > maxMsglen {
        return Crashed;
      }
      Store(recvBuffer, 0, que.buff[block.value..block.value + len]);
      que.PopBlock(len);
      turn := Copied(len);
    }
  }

  /** Where FrontBlock points, the bytes of the oldest record lie. */
  lemma OldestBytes(r: Ring, q: seq<Record>)
    requires Represents(r, q) && FrontSafe(r)
    ensures q != [] ==>
      var (o, n) := (Front(r), HEADER + |q[0].data|);
      && o.ring.bytes == r.bytes && o.ring.head + n <= |r.bytes|
      && r.bytes[o.ring.head..o.ring.head + n] == RecordBytes(q[0])
  {
    var front, back, mark :| Holds(r, front, back, mark) && q == front + back;
    FrontFinds(r, front, back, mark);
    hide Front, Flat, LenAt, AtMark;
    if front != [] {
      HeadBytes(r, front, back, mark);
    } else if back != [] {
      HeadBytes(r.(head := 0), back, [], 0);
    }
  }
}
