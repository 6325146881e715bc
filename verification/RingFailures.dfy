/** Short runs of calls, on named inputs, in which the queue loses a record or repeats one. */
module RingFailures {
  import opened Bytes
  import opened RingModel
  import opened RingSteps
  import opened RingRuns

  function Fresh(size: nat): Ring {
    Ring(seq(size, _ => 0), 0, 0)
  }

  function After(r: Ring, rec: Record): Ring
    requires Sane(r) && PushFits(r, |rec.data|)
  {
    PushTo(r, rec).0
  }

  /** A push with room behind `tail` is accepted and leaves every byte before `tail` alone. */
  lemma PlainPush(r: Ring, q: seq<Record>, rec: Record)
    requires Represents(r, q) && r.head <= r.tail && r.tail + HEADER + |rec.data| <= |r.bytes|
    ensures PushTo(r, rec).1 == Accepted && Represents(After(r, rec), q + [rec])
    ensures var r' := After(r, rec);
      && |r'.bytes| == |r.bytes| && r'.head == r.head && r'.tail == r.tail + HEADER + |rec.data|
      && r'.bytes[..r.tail] == r.bytes[..r.tail]
      && r'.bytes[r.tail..r'.tail] == RecordBytes(rec)
  {
    hide Header;
    PushRefinesFifo(r, q, rec);
    var (r', e) := (After(r, rec), r.tail + HEADER);
    assert r'.bytes[r.tail..r'.tail] == r'.bytes[r.tail..e] + r'.bytes[e..r'.tail];
  }

  /** Two messages of one byte into a queue of 40 bytes: both are accepted, the first is lost. */
  lemma SecondPushForgetsFirst(a: Record, b: Record)
    requires a == Record(1, 0, 5, [7]) && b == Record(2, 0, 5, [8])
    ensures PushTo(Fresh(40), a).1 == Accepted
    ensures PushFits(After(Fresh(40), a), 1) && PushTo(After(Fresh(40), a), b).1 == Accepted
    ensures var r := After(After(Fresh(40), a), b);
      TakeInside(r) && TakeFrom(r).1 == Got(b) && Represents(TakeFrom(r).0, [])
  {
    hide Represents, PushTo, Holds, TakeFrom, TakeInside;
    EmptyRing(Fresh(40));
    PlainPush(Fresh(40), [], a);
    assert [] + [a] == [a];
    var r := After(Fresh(40), a);
    PushForgets(r, [a], b);
    TakeSole(After(r, b), b);
  }

  lemma TakeSole(r: Ring, rec: Record)
    requires Represents(r, [rec])
    ensures TakeInside(r) && TakeFrom(r).1 == Got(rec) && Represents(TakeFrom(r).0, [])
  {
    hide TakeFrom, TakeInside;
    if !FrontSafe(r) {
      var front, back, mark: nat :| Holds(r, front, back, mark) && [rec] == front + back;
      StaleBlock(r, front, back, mark);
    }
    TakeRefinesFifo(r, [rec]);
  }

  /** One byte queued in 40, and then a message of 30: the region that is handed out ends at 52. */
  lemma RegionPastTheEnd(a: Record, fd: int32, remote: uint64, mtype: byte)
    requires a == Record(1, 0, 5, [7])
    ensures var r := After(Fresh(40), a);
      && Represents(r, [a]) && r.head == 0 && r.tail == 23
      && Sane(r) && Reserve(r, fd, remote, mtype, 30).slot == Some(HEADER)
      && HEADER + 30 > |r.bytes|
  {
    hide Represents, Header, Splice, Marker;
    EmptyRing(Fresh(40));
    PlainPush(Fresh(40), [], a);
    assert [] + [a] == [a];
  }

  /** The third of the messages below finds no room, before or behind the queued one. */
  function Third(): Record {
    Record(3, 0, 5, seq(40, _ => 9))
  }

  /**
   * In a queue of 100 bytes: push `a` and `b`, take `a`, push a third message, take `b`.
   * The third push is refused, the queue is empty, and the next take returns `a` again.
   */
  lemma RefusedPushRepeatsRecord(a: Record, b: Record)
    requires a == Record(1, 0, 5, [7]) && b == Record(2, 0, 5, [8])
    ensures PushTo(Fresh(100), a).1 == Accepted && PushTo(After(Fresh(100), a), b).1 == Accepted
    ensures var r2 := After(After(Fresh(100), a), b);
      && TakeInside(r2) && TakeFrom(r2).1 == Got(a)
      && var r3 := TakeFrom(r2).0;
         && Sane(r3) && PushFits(r3, 40) && PushTo(r3, Third()).1 == Refused
         && var r4 := After(r3, Third());
            && TakeInside(r4) && TakeFrom(r4).1 == Got(b)
            && var r5 := TakeFrom(r4).0;
               Represents(r5, []) && TakeInside(r5) && TakeFrom(r5).1 == Got(a)
  {
    hide Represents, PushTo, Holds, TakeFrom, TakeInside, RecordBytes, Third;
    var r0 := Fresh(100);
    EmptyRing(r0);
    PlainPush(r0, [], a);
    assert [] + [a] == [a];
    var r1 := After(r0, a);
    PlainPush(r1, [a], b);
    assert [a] + [b] == [a, b];
    var r2 := After(r1, b);
    assert r2.bytes[..23] == r1.bytes[..23] && r1.bytes[0..23] == r1.bytes[..23];
    TakeOldest(r2, [a, b]);
    var r3 := TakeFrom(r2).0;
    assert [a, b][1..] == [b];
    RefusedAfterWrap(r3, b);
    var r4 := After(r3, Third());
    TakeOldest(r4, [b]);
    assert [b][1..] == [];
    var r5 := TakeFrom(r4).0;
    assert r5.bytes[..23] == r3.bytes[..23] == r2.bytes[..23] == RecordBytes(a);
    TakeStale(r5, a);
  }

  /** As TakeRefinesFifo, for a block at `head`: the bytes stay, and `head` moves behind it. */
  lemma TakeOldest(r: Ring, q: seq<Record>)
    requires Represents(r, q) && q != [] && |q[0].data| == 1
    requires r.head <= r.tail || !AtMark(r.bytes, r.head)
    ensures TakeInside(r) && TakeFrom(r).1 == Got(q[0]) && Represents(TakeFrom(r).0, q[1..])
    ensures TakeFrom(r).0 == r.(head := r.head + HEADER + 1)
  {
    hide RecordBytes, ToInt32;
    TakeRefinesFifo(r, q);
    var front, back, mark: nat :| Holds(r, front, back, mark) && q == front + back;
    FrontFinds(r, front, back, mark);
    if front != [] {
      PopRemoves(r, front, back, mark);
    }
  }

  /** The push goes back to the start, leaves a discard marker, and is refused. */
  lemma RefusedAfterWrap(r: Ring, b: Record)
    requires Represents(r, [b]) && |b.data| == 1 && r.head == 23 && r.tail == 46 && |r.bytes| == 100
    ensures PushFits(r, 40) && PushTo(r, Third()).1 == Refused
    ensures var r' := After(r, Third());
      && r' == Ring(Splice(r.bytes, 46, Marker()), 23, 0)
      && Represents(r', [b]) && !AtMark(r'.bytes, 23) && AtMark(r'.bytes, 46)
      && r'.bytes[..23] == r.bytes[..23]
  {
    hide RecordBytes;
    PushRefinesFifo(r, [b], Third());
    var r' := After(r, Third());
    MarkerReadsBack(r'.bytes, 46);
    var front, back, mark: nat :| Holds(r, front, back, mark) && [b] == front + back;
    FirstReadsBack(r.bytes, 23, 46, front);
    assert r'.bytes[23..27] == r.bytes[23..27];
  }

  /** With nothing queued, a jump to the start returns whatever record still lies there. */
  lemma TakeStale(r: Ring, a: Record)
    requires Represents(r, []) && r.tail == 0 < r.head && AtMark(r.bytes, r.head)
    requires 23 <= |r.bytes| && r.bytes[..23] == RecordBytes(a) && |a.data| == 1
    ensures TakeInside(r) && TakeFrom(r).1 == Got(a)
  {
    hide RecordBytes, Header, AtMark;
    var front, back, mark: nat :| Holds(r, front, back, mark) && [] == front + back;
    StaleBlock(r, front, back, mark);
    FlatOne(a);
    assert r.bytes[0..23] == r.bytes[..23];
    FirstReadsBack(r.bytes, 0, 23, [a]);
  }
}
