/**
 * BufferForPush reads `head` four times without the consumers' lock. When that is the same
 * as one atomic reservation, and when a consumer that goes back to the start in between
 * makes it lose the queue or write behind the buffer.
 */
module RingReads {
  import opened Bytes
  import opened RingModel
  import opened RingSteps
  import opened RingRuns

  /** The values of `head` that the tests find: one each for the wraps, two for the last test. */
  datatype Heads = Heads(gap: nat, wrap: nat, behind: nat, room: nat)

  predicate Within(h: Heads, size: nat) {
    h.gap <= size && h.wrap <= size && h.behind <= size && h.room <= size
  }

  datatype Reading = Reserved(reservation: Reservation) | Overrun

  /** BufferForPush as it reads: Overrun where a header or marker would leave the buffer. */
  function ReserveReading(r: Ring, h: Heads, fd: int32, remote: uint64, mtype: byte, n: nat): Reading
    requires Sane(r) && Within(h, |r.bytes|)
  {
    var size := |r.bytes|;
    var tail := if r.tail >= h.gap && r.tail + HEADER > size then 0 else r.tail;
    var wraps := tail >= h.wrap && tail + HEADER + n > size;
    if wraps && tail + 5 > size then Overrun
    else
      var r1 := if wraps then Ring(Splice(r.bytes, tail, Marker()), h.room, 0) else Ring(r.bytes, h.room, tail);
      if r1.tail < h.behind && r1.tail + HEADER + n >= h.room then Reserved(Reservation(r1, None))
      else if r1.tail + HEADER + n > size then Overrun
      else
        Reserved(Reservation(
          r1.(bytes := Splice(r1.bytes, r1.tail, Header(HEADER + n, fd, remote, mtype, n))),
          Some(r1.tail + HEADER)))
  }

  /** The consumers only move on, and do not pass the producer or go back to the start. */
  predicate MovesOn(h: Heads, tail: nat) {
    && h.gap <= h.wrap <= h.behind <= h.room
    && (h.room <= tail || tail < h.gap)
  }

  /** Then the four readings are as good as one: the reservation is that of the last reading. */
  lemma ReadingsAgree(r: Ring, h: Heads, fd: int32, remote: uint64, mtype: byte, n: nat)
    requires Sane(r) && Within(h, |r.bytes|) && MovesOn(h, r.tail) && WrapSafe(r.(head := h.gap), n)
    ensures ReserveReading(r, h, fd, remote, mtype, n)
         == Reserved(Reserve(r.(head := h.room), fd, remote, mtype, n))
  {
    hide Header, Marker, Splice;
  }

  /** A consumer goes from `h`, behind the producer's tail, to `h'`, after `k` of the four readings. */
  function Jump(h: nat, h': nat, k: nat): Heads {
    Heads(h, if k < 2 then h' else h, if k < 3 then h' else h, h')
  }

  /** What FIFO order asks of the outcome: nothing lost, and room for the payload. */
  ghost predicate OutcomeRight(o: Reading, q: seq<Record>, n: nat) {
    && o.Reserved?
    && Represents(o.reservation.ring, q)
    && (o.reservation.slot.Some? ==> RegionFree(o.reservation.ring, n))
  }

  /** The message does not fit behind the tail, and the jump was not seen by the test that wraps, or too late. */
  predicate JumpHurts(r: Ring, h': nat, k: nat, n: nat) {
    && r.tail + HEADER + n > |r.bytes|
    && (k == 2 || (k == 1 && (h' == 0 || r.tail + 5 > |r.bytes|)))
  }

  /** Going back to the start with a marker that stays inside the buffer keeps the queue. */
  lemma MarkerKeeps(r: Ring, q: seq<Record>)
    requires Represents(r, q) && 0 < r.head <= r.tail && r.tail + 5 <= |r.bytes|
    ensures Holds(Ring(Splice(r.bytes, r.tail, Marker()), r.head, 0), q, [], r.tail)
    ensures Represents(Ring(Splice(r.bytes, r.tail, Marker()), r.head, 0), q)
  {
    hide Splice, Marker, Flat;
    var front, back, mark: nat :| Holds(r, front, back, mark) && q == front + back;
    MarkHolds(r, front, back, mark);
    assert q == front == q + [];
  }

  /** A header written into a free region keeps the queue. */
  lemma HeaderKeeps(r: Ring, q: seq<Record>, fd: int32, remote: uint64, mtype: byte, n: nat)
    requires Represents(r, q) && RegionFree(r, n)
    ensures Represents(r.(bytes := Splice(r.bytes, r.tail, Header(HEADER + n, fd, remote, mtype, n))), q)
  {
    hide Header, ToInt32, RecordBytes;
    var front, back, mark: nat :| Holds(r, front, back, mark) && q == front + back;
    var s := Splice(r.bytes, r.tail, Header(HEADER + n, fd, remote, mtype, n));
    HeaderReadsBack(s, r.tail, fd, remote, mtype, n);
    RegionWrite(r, s, front, back, mark, n);
  }

  /**
   * With one such jump in the middle, to the start or on from there, the reservation keeps
   * the queue and stays inside free bytes exactly when the message fits behind the tail, or
   * the jump comes after the test for being behind, or it comes before the test that wraps
   * and that test can do its work: the head has left the start, and the marker fits.
   */
  lemma JumpRightIff(r: Ring, q: seq<Record>, h: nat, h': nat, k: nat, fd: int32, remote: uint64, mtype: byte, n: nat)
    requires Sane(r) && h' <= r.tail < h <= |r.bytes| && 1 <= k <= 3
    requires Represents(r.(head := h'), q)
    ensures OutcomeRight(ReserveReading(r, Jump(h, h', k), fd, remote, mtype, n), q, n) <==> !JumpHurts(r, h', k, n)
  {
    hide Header, Marker, Splice, Represents, ToInt32;
    var o := ReserveReading(r, Jump(h, h', k), fd, remote, mtype, n);
    var r1 := r.(head := h');
    QueuedBytes(r1, q);
    if !JumpHurts(r, h', k, n) {
      if r.tail + HEADER + n <= |r.bytes| {
        HeaderKeeps(r1, q, fd, remote, mtype, n);
      } else if k == 1 {
        MarkerKeeps(r1, q);
        var r2 := Ring(Splice(r.bytes, r.tail, Marker()), h', 0);
        if HEADER + n < h' {
          HeaderKeeps(r2, q, fd, remote, mtype, n);
        }
      }
    } else if o.Reserved? && Represents(o.reservation.ring, q) {
      QueuedBytes(o.reservation.ring, q);
    }
  }

  /**
   * A queue of 100 bytes, the producer at 70 and the consumers at the end of the first lap:
   * while 20 bytes are reserved they go back to the start, behind the first of the tests.
   * Before the jump the reservation would be refused; the code grants it at offset 0, where
   * the oldest record lies, and the queue reads as empty.
   */
  lemma JumpToStartForgets(r: Ring, q: seq<Record>, fd: int32, remote: uint64, mtype: byte)
    requires |r.bytes| == 100 && r.head == 0 && r.tail == 70 && Represents(r, q)
    ensures WrapSafe(r.(head := 90), 20) && Reserve(r.(head := 90), fd, remote, mtype, 20).slot == None
    ensures q != []
    ensures var o := ReserveReading(r, Jump(90, 0, 1), fd, remote, mtype, 20);
      && o.Reserved? && o.reservation.slot == Some(HEADER)
      && Represents(o.reservation.ring, [])
  {
    hide Header, Marker, Splice, Represents, ToInt32;
    QueuedBytes(r, q);
    var o := ReserveReading(r, Jump(90, 0, 1), fd, remote, mtype, 20);
    EmptyRing(o.reservation.ring);
  }

  /**
   * A queue of 100 bytes, the producer at 70, the consumers at the end of the first lap:
   * while 40 bytes are reserved they go on to the second record, and the region that is
   * granted ends at 132. Before and after the jump the reservation would be refused.
   */
  lemma JumpDuringReservation(r: Ring, fd: int32, remote: uint64, mtype: byte)
    requires Sane(r) && |r.bytes| == 100 && r.tail == 70
    ensures ReserveReading(r, Jump(90, 23, 2), fd, remote, mtype, 40) == Overrun
    ensures Sane(r.(head := 90)) && Reserve(r.(head := 90), fd, remote, mtype, 40).slot == None
    ensures Sane(r.(head := 23)) && Reserve(r.(head := 23), fd, remote, mtype, 40).slot == None
  {
    hide Header, Marker, Splice;
  }

  // ---- the other side: a look reads `tail` three times ----

  /** The values of `tail` that FrontBlock finds. */
  datatype Tails = Tails(empty: nat, behind: nat, end: nat)

  /** FrontBlock as it reads. */
  function LookReading(r: Ring, t: Tails): (Ring, Option<nat>)
    requires Sane(r)
  {
    if r.head == t.empty then (r, None)
    else
      var r1 := if r.head + HEADER > |r.bytes| then r.(head := 0) else r;
      var r2 := if LenAt(r.bytes, r1.head) == HEADER && DiscardAt(r.bytes, r1.head) then r1.(head := 0) else r1;
      var len := LenAt(r.bytes, r2.head);
      if (r2.head < t.behind && r2.head + len > t.end) || len < HEADER then (r2, None) else (r2, Some(r2.head))
  }

  /** Seen from a block at `h`, the producer's tail goes on, or back to the start and on from there. */
  predicate TailMovesOn(h: nat, t: nat, t': nat) {
    if t < h then t <= t' < h else t <= t' || t' < h
  }

  /**
   * While the producer moves on, a look still finds the oldest record, unless the producer
   * goes back to the start between the last two readings: then it finds nothing, although
   * records are queued, and changes no more than it would have.
   */
  lemma LookReadingsIff(r: Ring, q: seq<Record>, t: Tails)
    requires Represents(r, q) && q != [] && FrontSafe(r) && t.empty == r.tail
    requires var h := Front(r).ring.head; TailMovesOn(h, t.empty, t.behind) && TailMovesOn(h, t.behind, t.end)
    ensures var (o, h) := (Front(r), Front(r).ring.head);
      && LookReading(r, t).0 == o.ring
      && (LookReading(r, t).1 == o.block <==> !(t.end < h < t.behind))
  {
    hide Flat, ToInt32, Header;
    var front, back, mark: nat :| Holds(r, front, back, mark) && q == front + back;
    FrontFinds(r, front, back, mark);
    if front != [] {
      PopRemoves(r, front, back, mark);
    } else {
      PopRemoves(r.(head := 0), back, [], 0);
    }
  }
}
