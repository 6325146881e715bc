/** The ring buffer object, each call proved against the byte-level operations of RingModel. */
module LoopQueues {
  import opened Bytes
  import opened RingModel
  import opened RingSteps
  import opened RingRuns

  class LoopQueue {
    var buff: array?<byte>
    var bufflen: int
    var head: int
    var tail: int

    ghost predicate Ready()
      reads this
    {
      && buff != null && bufflen == buff.Length
      && HEADER <= bufflen < 0x8000_0000
      && 0 <= head <= bufflen && 0 <= tail <= bufflen
    }

    ghost function View(): (r: Ring)
      requires Ready()
      reads this, buff
      ensures Sane(r)
    {
      Ring(buff[..], head, tail)
    }

    constructor ()
      ensures buff == null && bufflen == 0 && head == -1 && tail == -1
    {
      buff := null;
      bufflen := 0;
      head := -1;
      tail := -1;
    }

    method Init(size: int) returns (ok: bool)
      modifies this
      ensures ok <==> 0 < size
      ensures !ok ==> unchanged(this)
      ensures ok ==> buff != null && fresh(buff) && bufflen == buff.Length == size && head == tail == 0
      ensures ok ==> forall i :: 0 <= i < size ==> buff[i] == 0
      ensures HEADER <= size < 0x8000_0000 ==> Ready() && Represents(View(), []) && !Hollow(View())
    {
      if size <= 0 {
        return false;
      }
      buff := new byte[size](_ => 0);
      bufflen := size;
      head := 0;
      tail := 0;
      ok := true;
      if HEADER <= size < 0x8000_0000 {
        EmptyRing(View());
      }
    }

    /** Writes the fields of a block header one by one, in the order of the source. */
    method WriteHeader(p: nat, len: int, fd: int32, remote: uint64, mtype: byte, datalen: int)
      requires Ready() && p + HEADER <= bufflen
      modifies buff
      ensures buff[..] == Splice(old(buff[..]), p, Header(len, fd, remote, mtype, datalen))
    {
      ghost var was := buff[..];
      Store(buff, p, Int32Bytes(len));
      Store(buff, p + 4, [0]);
      Store(buff, p + 5, Int32Bytes(fd));
      Store(buff, p + 17, [mtype]);
      Store(buff, p + 9, LE(remote, 8));
      Store(buff, p + 18, Int32Bytes(datalen));
      SixFields(was, p, Int32Bytes(len), Int32Bytes(fd), LE(remote, 8), mtype, Int32Bytes(datalen));
    }

    method WriteMarker(p: nat)
      requires Ready() && p + HEADER <= bufflen
      modifies buff
      ensures buff[..] == Splice(old(buff[..]), p, Marker())
    {
      ghost var was := buff[..];
      Store(buff, p, Int32Bytes(HEADER));
      Store(buff, p + 4, [1]);
      SpliceTwice(was, p, Int32Bytes(HEADER), [1]);
    }

    method BufferForPush(fd: int32, remote: uint64, mtype: int, msglen: nat) returns (slot: Option<nat>)
      requires Ready()
      modifies this`tail, buff
      ensures Ready()
      ensures Reservation(View(), slot) == Reserve(old(View()), fd, remote, (mtype % 256) as byte, msglen)
    {
      hide Header, Marker, Splice;
      ghost var was := View();
      var blocklen := HEADER;
      if tail >= head && tail + blocklen > bufflen {
        tail := 0;
      }
      if tail >= head && tail + blocklen + msglen > bufflen {
        WriteMarker(tail);
        tail := 0;
      }
      assert View() == Wrap(was, msglen);
      if tail < head && tail + blocklen + msglen >= head {
        return None;
      }
      WriteHeader(tail, blocklen + msglen, fd, remote, (mtype % 256) as byte, msglen);
      slot := Some(tail + blocklen);
    }

    method PushFinish(copylen: nat)
      requires Ready() && tail + HEADER + copylen <= bufflen
      modifies this`tail
      ensures Ready() && View() == Commit(old(View()), copylen)
    {
      tail := tail + HEADER + copylen;
    }

    /**
     * `data` is the payload that is queued: the message, or, when no message is given, the
     * bytes that happened to lie in the reserved region.
     */
    method Push(fd: int32, remote: uint64, mtype: int, msg: Option<seq<byte>>, msglen: nat)
      returns (ok: bool, ghost data: seq<byte>)
      requires Ready() && PushFits(View(), msglen)
      requires msg.Some? ==> |msg.value| == msglen
      modifies this`tail, buff
      ensures Ready() && |data| == msglen
      ensures msg.Some? ==> data == msg.value
      ensures (View(), if ok then Accepted else Refused)
           == PushTo(old(View()), Record(fd, remote, (mtype % 256) as byte, data))
    {
      hide Header, Marker, Splice;
      data := if msg.Some? then msg.value else seq(msglen, _ => 0);
      var slot := BufferForPush(fd, remote, mtype, msglen);
      if slot.None? {
        return false, data;
      }
      ghost var reserved := buff[..];
      if msg.Some? && msglen > 0 {
        Store(buff, slot.value, msg.value);
      } else {
        data := buff[slot.value..slot.value + msglen];
        assert reserved == Splice(reserved, slot.value, data);
      }
      PushFinish(msglen);
      ok := true;
    }

    method FrontBlock() returns (block: Option<nat>)
      requires Ready()
      modifies this`head
      ensures Ready()
      ensures Fronted(View(), block) == Front(old(View()))
    {
      if head == tail {
        return None;
      }
      if head + HEADER > bufflen {
        head := 0;
      }
      if LenAt(buff[..], head) == HEADER && DiscardAt(buff[..], head) {
        head := 0;
      }
      var len := LenAt(buff[..], head);
      if head < tail && head + len > tail {
        return None;
      }
      if len < HEADER {
        return None;
      }
      block := Some(head);
    }

    method PopBlock(len: nat)
      requires Ready() && head + len <= bufflen
      modifies this`head
      ensures Ready() && View() == Pop(old(View()), len)
    {
      head := head + len;
    }
  }

  lemma SixFields(s: seq<byte>, p: nat, len: seq<byte>, fd: seq<byte>, remote: seq<byte>, mtype: byte,
                  datalen: seq<byte>)
    requires p + HEADER <= |s| && |len| == |fd| == |datalen| == 4 && |remote| == 8
    ensures var s1 := Splice(Splice(Splice(s, p, len), p + 4, [0]), p + 5, fd);
      Splice(Splice(Splice(s1, p + 17, [mtype]), p + 9, remote), p + 18, datalen)
      == Splice(s, p, len + [0] + fd + remote + [mtype] + datalen)
  {
    SpliceTwice(s, p, len, [0]);
    SpliceTwice(s, p, len + [0], fd);
    var h := len + [0] + fd;
    var s1 := Splice(s, p, h);
    var s2 := Splice(Splice(s1, p + 17, [mtype]), p + 9, remote);
    assert s2 == Splice(Splice(s1, p + 9, remote), p + 17, [mtype]);
    SpliceTwice(s, p, h, remote);
    SpliceTwice(s, p, h + remote, [mtype]);
    SpliceTwice(s, p, h + remote + [mtype], datalen);
  }
}
