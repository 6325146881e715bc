/** What each ring operation does to the queue of records, and exactly when it is right. */
module RingSteps {
  import opened Bytes
  import opened RingModel

  lemma FlatEmpty(q: seq<Record>)
    ensures Flat(q) == [] <==> q == []
  {
    hide Header;
  }

  lemma HoldsFacts(r: Ring, front: seq<Record>, back: seq<Record>, mark: nat)
    requires Holds(r, front, back, mark)
    ensures Sane(r)
    ensures r.head <= r.tail ==> back == []
  {
  }

  /** Bytes written inside the free region leave every queued record and the mark alone. */
  lemma RegionWrite(r: Ring, s: seq<byte>, front: seq<Record>, back: seq<Record>, mark: nat, n: nat)
    requires Holds(r, front, back, mark) && RegionFree(r, n)
    requires |s| == |r.bytes|
    requires forall i :: 0 <= i < |s| && !(r.tail <= i < r.tail + HEADER + n) ==> s[i] == r.bytes[i]
    requires r.tail == 0 < r.head ==> HEADER <= LenAt(s, 0)
    ensures Holds(r.(bytes := s), front, back, mark)
  {
    hide Flat, ToInt32;
    if r.head <= r.tail {
      assert s[r.head..r.tail] == r.bytes[r.head..r.tail];
    } else {
      assert s[r.head..mark] == r.bytes[r.head..mark];
      assert s[..r.tail] == r.bytes[..r.tail];
      if mark + HEADER <= |s| {
        assert s[mark..mark + 4] == r.bytes[mark..mark + 4];
      }
    }
    if 0 < r.tail {
      assert s[0..4] == r.bytes[0..4];
    }
  }

  lemma WrapKeeps(r: Ring, front: seq<Record>, back: seq<Record>, mark: nat, n: nat)
    requires Holds(r, front, back, mark) && WrapSafe(r, n)
    ensures !NeedsWrap(r, n) ==> Wrap(r, n) == r
    ensures NeedsWrap(r, n) ==>
      back == [] && Hollow(Wrap(r, n)) && Holds(Wrap(r, n), front, [], r.tail)
  {
    if NeedsWrap(r, n) {
      hide RecordBytes, ToInt32;
      var r1 := Wrap(r, n);
      assert r1.bytes[r.head..r.tail] == r.bytes[r.head..r.tail];
      assert r1.bytes[0..4] == r.bytes[0..4];
      if r.tail + HEADER <= |r.bytes| {
        MarkerReadsBack(r1.bytes, r.tail);
      }
    }
  }

  /** Going back to the start with a discard marker at the tail keeps the queued records. */
  lemma MarkHolds(r: Ring, front: seq<Record>, back: seq<Record>, mark: nat)
    requires Holds(r, front, back, mark) && r.head <= r.tail && r.tail + 5 <= |r.bytes|
    requires 0 < r.head || r.tail == 0
    ensures back == [] && Holds(Ring(Splice(r.bytes, r.tail, Marker()), r.head, 0), front, [], r.tail)
  {
    hide RecordBytes, ToInt32;
    var r1 := Ring(Splice(r.bytes, r.tail, Marker()), r.head, 0);
    assert r1.bytes[r.head..r.tail] == r.bytes[r.head..r.tail];
    if r.tail + HEADER <= |r.bytes| {
      MarkerReadsBack(r1.bytes, r.tail);
    }
    if 0 < r.head {
      assert r1.bytes[0..4] == r.bytes[0..4];
    } else {
      assert |r.bytes[0..0]| == 0;
    }
  }

  /** Where the producer is not behind, the queue is empty exactly when the cursors meet. */
  lemma QueuedBytes(r: Ring, q: seq<Record>)
    requires Represents(r, q) && r.head <= r.tail
    ensures q == [] <==> r.head == r.tail
  {
    var front, back, mark: nat :| Holds(r, front, back, mark) && q == front + back;
    FlatEmpty(front);
    assert |r.bytes[r.head..r.tail]| == r.tail - r.head;
  }

  /**
   * Where a reservation puts the tail and the payload, in terms of the cursors and of the
   * 22 bytes of a header; a refusal that did not go back to the start has changed nothing.
   */
  lemma ReserveCursors(r: Ring, fd: int32, remote: uint64, mtype: byte, n: nat)
    requires Sane(r)
    ensures var (o, size) := (Reserve(r, fd, remote, mtype, n), |r.bytes|);
      && o.ring.head == r.head && |o.ring.bytes| == size
      && (r.head <= r.tail && r.tail + 22 + n <= size ==> o.ring.tail == r.tail && o.slot == Some(r.tail + 22))
      && (r.head <= r.tail && r.tail + 22 + n > size ==>
            o.ring.tail == 0 && o.slot == if 0 < r.head <= 22 + n then None else Some(22))
      && (r.tail < r.head ==>
            o.ring.tail == r.tail && o.slot == if r.head <= r.tail + 22 + n then None else Some(r.tail + 22))
      && (r.tail < r.head && o.slot == None ==> o.ring == r)
  {
    hide Header, Marker;
  }

  /** A reservation, granted or refused, leaves the queued records as they were. */
  lemma ReserveKeeps(r: Ring, front: seq<Record>, back: seq<Record>, mark: nat,
                     fd: int32, remote: uint64, mtype: byte, n: nat)
    requires Holds(r, front, back, mark) && WrapSafe(r, n)
    ensures var res := Reserve(r, fd, remote, mtype, n);
      && Holds(res.ring, front, back, if NeedsWrap(r, n) then r.tail else mark)
      && (res.slot.None? ==> res.ring == Wrap(r, n))
      && (res.slot.Some? ==>
            && res.slot.value == res.ring.tail + HEADER
            && RegionFree(res.ring, n)
            && res.ring.bytes[res.ring.tail..res.slot.value] == Header(HEADER + n, fd, remote, mtype, n))
  {
    WrapKeeps(r, front, back, mark, n);
    var r1 := Wrap(r, n);
    var res := Reserve(r, fd, remote, mtype, n);
    if res.slot.Some? {
      hide Header, Wrap, ToInt32;
      if r1.tail == 0 && r1.head != 0 {
        HeaderReadsBack(res.ring.bytes, 0, fd, remote, mtype, n);
      }
      RegionWrite(r1, res.ring.bytes, front, back, if NeedsWrap(r, n) then r.tail else mark, n);
    }
  }

  /** Finishing a push appends exactly the record whose bytes were written. */
  lemma CommitAppends(r: Ring, front: seq<Record>, back: seq<Record>, mark: nat, rec: Record)
    requires Holds(r, front, back, mark) && RegionFree(r, |rec.data|)
    requires r.bytes[r.tail..r.tail + HEADER + |rec.data|] == RecordBytes(rec)
    ensures var r1 := Commit(r, |rec.data|);
      if r.head <= r.tail then Holds(r1, front + [rec], [], mark)
      else Holds(r1, front, back + [rec], mark)
  {
    hide Flat, RecordBytes, Header, ToInt32;
    var e := r.tail + HEADER + |rec.data|;
    FlatOne(rec);
    FlatAppend(front, [rec]);
    FlatAppend(back, [rec]);
    FirstReadsBack(r.bytes, r.tail, e, [rec]);
    if r.head <= r.tail {
      assert r.bytes[r.head..e] == r.bytes[r.head..r.tail] + r.bytes[r.tail..e];
    } else {
      assert r.bytes[..e] == r.bytes[..r.tail] + r.bytes[r.tail..e];
    }
  }

  /** A safe look at the queue finds the oldest record, and nothing only when none is queued. */
  lemma FrontFinds(r: Ring, front: seq<Record>, back: seq<Record>, mark: nat)
    requires Holds(r, front, back, mark) && FrontSafe(r)
    ensures var o := Front(r); var q := front + back;
      && (q == [] ==> r.head == r.tail && o == Fronted(r, None))
      && (front != [] ==> o == Fronted(r, Some(r.head)))
      && (front == [] && back != [] ==>
            o == Fronted(r.(head := 0), Some(0)) && Holds(o.ring, back, [], 0))
  {
    hide RecordBytes, ToInt32;
    FlatEmpty(front);
    FlatEmpty(back);
    if front != [] {
      FirstReadsBack(r.bytes, r.head, if r.head <= r.tail then r.tail else mark, front);
      assert |RecordBytes(front[0])| == HEADER + |front[0].data|;
    } else if back != [] {
      assert r.tail < r.head;
      assert r.head == mark by { assert |r.bytes[r.head..mark]| == 0; }
      assert r.bytes[0..r.tail] == r.bytes[..r.tail];
      FirstReadsBack(r.bytes, 0, r.tail, back);
    } else {
      assert |r.bytes[r.head..if r.head <= r.tail then r.tail else mark]| == 0;
    }
  }

  lemma PopRemoves(r: Ring, front: seq<Record>, back: seq<Record>, mark: nat)
    requires Holds(r, front, back, mark) && front != []
    ensures LenAt(r.bytes, r.head) == |RecordBytes(front[0])|
    ensures 0 <= DataLenAt(r.bytes, r.head)
    ensures r.head + HEADER + DataLenAt(r.bytes, r.head) <= |r.bytes|
    ensures RecordAt(r.bytes, r.head) == front[0]
    ensures r.head <= r.tail ==> r.head + |RecordBytes(front[0])| <= r.tail
    ensures Holds(Pop(r, |RecordBytes(front[0])|), front[1..], back, mark)
  {
    FirstReadsBack(r.bytes, r.head, if r.head <= r.tail then r.tail else mark, front);
    hide Flat, ToInt32;
  }

  /** The block that is handed out is, byte for byte, the oldest record. */
  lemma HeadBytes(r: Ring, front: seq<Record>, back: seq<Record>, mark: nat)
    requires Holds(r, front, back, mark) && front != []
    ensures var n := |RecordBytes(front[0])|;
      r.head + n <= |r.bytes| && r.bytes[r.head..r.head + n] == RecordBytes(front[0])
  {
    hide RecordBytes;
    var e := if r.head <= r.tail then r.tail else mark;
    var n := |RecordBytes(front[0])|;
    assert Flat(front)[..n] == RecordBytes(front[0]);
    SliceOfSlice(r.bytes, r.head, e, 0, n);
  }

  // ---- the exact conditions ----

  /** The outcome FIFO order asks of a reservation: nothing lost, and room for the payload. */
  ghost predicate ReserveRight(r: Ring, q: seq<Record>, fd: int32, remote: uint64, mtype: byte, n: nat)
    requires Sane(r)
  {
    var res := Reserve(r, fd, remote, mtype, n);
    Represents(res.ring, q) && (res.slot.Some? ==> RegionFree(res.ring, n))
  }

  /**
   * BufferForPush is right exactly when it does not wrap while `head` is still 0: there it
   * either drops the whole queue or hands out a region that runs past the buffer.
   */
  lemma ReserveRightIff(r: Ring, q: seq<Record>, fd: int32, remote: uint64, mtype: byte, n: nat)
    requires Represents(r, q)
    ensures ReserveRight(r, q, fd, remote, mtype, n) <==> WrapSafe(r, n)
  {
    hide RecordBytes, Header, ToInt32;
    var front, back, mark :| Holds(r, front, back, mark) && q == front + back;
    if WrapSafe(r, n) {
      ReserveKeeps(r, front, back, mark, fd, remote, mtype, n);
    } else {
      var res := Reserve(r, fd, remote, mtype, n);
      assert res.slot.Some? && res.ring.tail == res.ring.head == 0;
      FlatEmpty(q);
      assert q == front && |r.bytes[0..r.tail]| == r.tail;
      if Represents(res.ring, q) {
        var f, b, m :| Holds(res.ring, f, b, m) && q == f + b;
        assert |res.ring.bytes[0..0]| == 0 && q == f;
      }
    }
  }

  /** The block pointer `p` shows a record that lies inside the buffer. */
  predicate BlockInside(s: seq<byte>, p: nat) {
    && p + HEADER <= |s|
    && 0 <= DataLenAt(s, p)
    && p + HEADER + DataLenAt(s, p) <= |s|
  }

  /** The outcome FIFO order asks of FrontBlock followed by PopBlock of the block's length. */
  ghost predicate FrontRight(r: Ring, q: seq<Record>)
    requires Sane(r)
  {
    var o := Front(r);
    if q == [] then o.block == None && Represents(o.ring, [])
    else
      && o.block == Some(o.ring.head)
      && BlockInside(o.ring.bytes, o.ring.head)
      && RecordAt(o.ring.bytes, o.ring.head) == q[0]
      && LenAt(o.ring.bytes, o.ring.head) == HEADER + |q[0].data|
      && Represents(o.ring, q)
      && Represents(Pop(o.ring, HEADER + |q[0].data|), q[1..])
  }

  /**
   * FrontBlock is right exactly when it does not jump into a hollow start: there it
   * returns a stale block although nothing is queued.
   */
  lemma FrontRightIff(r: Ring, q: seq<Record>)
    requires Represents(r, q)
    ensures FrontRight(r, q) <==> FrontSafe(r)
  {
    var front, back, mark :| Holds(r, front, back, mark) && q == front + back;
    hide Flat, LenAt, RecordAt, AtMark;
    if FrontSafe(r) {
      FrontFinds(r, front, back, mark);
      if front != [] {
        HeadBlockRight(r, front, back, mark);
      } else if back != [] {
        HeadBlockRight(r.(head := 0), back, [], 0);
        assert q == back == back + [];
      }
    } else {
      StaleBlock(r, front, back, mark);
    }
  }

  lemma HeadBlockRight(r: Ring, front: seq<Record>, back: seq<Record>, mark: nat)
    requires Holds(r, front, back, mark) && front != []
    ensures var q := front + back;
      && BlockInside(r.bytes, r.head)
      && RecordAt(r.bytes, r.head) == q[0]
      && LenAt(r.bytes, r.head) == HEADER + |q[0].data|
      && Represents(r, q)
      && Represents(Pop(r, HEADER + |q[0].data|), q[1..])
  {
    PopRemoves(r, front, back, mark);
    hide Holds, RecordAt, LenAt, DataLenAt;
    assert (front + back)[1..] == front[1..] + back;
  }

  lemma StaleBlock(r: Ring, front: seq<Record>, back: seq<Record>, mark: nat)
    requires Holds(r, front, back, mark) && !FrontSafe(r)
    ensures front == back == [] && Front(r) == Fronted(r.(head := 0), Some(0))
  {
    if front != [] {
      FirstReadsBack(r.bytes, r.head, mark, front);
    }
    FlatEmpty(back);
    assert |r.bytes[..r.tail]| == 0;
    hide RecordBytes, ToInt32;
  }

  /** The "unlikely" error returns of FrontBlock, for a block that the two jumps led to. */
  predicate UnlikelyError(r: Ring)
    requires Sane(r)
  {
    r.head != r.tail && Front(r).block.None?
  }

  lemma UnlikelyErrorsUnreachable(r: Ring, q: seq<Record>)
    requires Represents(r, q)
    ensures !UnlikelyError(r)
  {
    var front, back, mark :| Holds(r, front, back, mark) && q == front + back;
    if FrontSafe(r) {
      FrontFinds(r, front, back, mark);
    } else {
      StaleBlock(r, front, back, mark);
    }
  }
}
