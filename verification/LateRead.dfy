/**
 * A block pointer used after the lock is released: which pushes leave what it shows alone.
 * The worker reads the record fields and the payload through it, not the length and the
 * discard flag, so the bytes that matter begin five bytes behind the pointer.
 */
module LateReads {
  import opened Bytes
  import opened RingModel
  import opened RingSteps
  import opened RingRuns
  import opened RingProtocol

  /** The length and the discard flag, which nobody reads once the block is popped. */
  const UNREAD: nat := 5

  function BlockEnd(p: nat, rec: Record): nat {
    p + HEADER + |rec.data|
  }

  /** What is read through the pointer `p` is the record `rec`. */
  predicate Shows(s: seq<byte>, p: nat, rec: Record) {
    BlockInside(s, p) && RecordAt(s, p) == rec
  }

  lemma {:induction false} FromLERoundTrip(s: seq<byte>)
    ensures LE(FromLE(s), |s|) == s
  {
    if s != [] {
      FromLERoundTrip(s[1..]);
      assert FromLE(s) / 256 == FromLE(s[1..]) && FromLE(s) % 256 == s[0] as nat;
      assert s == [s[0]] + s[1..];
    }
  }

  lemma ToInt32RoundTrip(s: seq<byte>)
    requires |s| == 4
    ensures Int32Bytes(ToInt32(s)) == s
  {
    hide LE, FromLE;
    FourBytes();
    FromLEBound(s);
    FromLERoundTrip(s);
    assert ToInt32(s) % 0x1_0000_0000 == FromLE(s);
  }

  /** The bytes that are read through a pointer to `rec`. */
  function ReadBytes(rec: Record): (s: seq<byte>)
    ensures |s| == 17 + |rec.data|
  {
    Int32Bytes(rec.fd) + LE(rec.remote, 8) + [rec.mtype] + Int32Bytes(|rec.data|) + rec.data
  }

  lemma ReadParts(s: seq<byte>, p: nat, rec: Record)
    requires BlockEnd(p, rec) <= |s|
    ensures s[p + UNREAD..BlockEnd(p, rec)] == ReadBytes(rec) <==>
      && s[p + 5..p + 9] == Int32Bytes(rec.fd) && s[p + 9..p + 17] == LE(rec.remote, 8)
      && s[p + 17] == rec.mtype && s[p + 18..p + 22] == Int32Bytes(|rec.data|)
      && s[p + HEADER..BlockEnd(p, rec)] == rec.data
  {
    hide Int32Bytes, LE;
    var t := s[p + UNREAD..BlockEnd(p, rec)];
    assert t == s[p + 5..p + 9] + s[p + 9..p + 17] + [s[p + 17]] + s[p + 18..p + 22] + s[p + HEADER..BlockEnd(p, rec)];
    if t == ReadBytes(rec) {
      var u := ReadBytes(rec);
      SliceOfSlice(s, p + 5, BlockEnd(p, rec), 0, 4);
      SliceOfSlice(s, p + 5, BlockEnd(p, rec), 4, 12);
      SliceOfSlice(s, p + 5, BlockEnd(p, rec), 13, 17);
      SliceOfSlice(s, p + 5, BlockEnd(p, rec), 17, |t|);
      assert u[0..4] == Int32Bytes(rec.fd) && u[4..12] == LE(rec.remote, 8) && u[12] == rec.mtype;
      assert u[13..17] == Int32Bytes(|rec.data|) && u[17..|t|] == rec.data;
      assert t[12] == s[p + 17];
    }
  }

  /** A pointer shows a record exactly when the bytes behind it are that record's. */
  lemma ShowsIff(s: seq<byte>, p: nat, rec: Record)
    requires BlockEnd(p, rec) <= |s| < 0x8000_0000
    ensures Shows(s, p, rec) <==> s[p + UNREAD..BlockEnd(p, rec)] == ReadBytes(rec)
  {
    hide Int32Bytes, ToInt32, LE, FromLE, ReadBytes;
    ReadParts(s, p, rec);
    Int32RoundTrip(rec.fd);
    Int32RoundTrip(|rec.data|);
    FourBytes();
    LERoundTrip(rec.remote, 8);
    ToInt32RoundTrip(s[p + 5..p + 9]);
    ToInt32RoundTrip(s[p + 18..p + 22]);
    FromLERoundTrip(s[p + 9..p + 17]);
  }

  // ---- one push ----

  predicate Granted(r: Ring, n: nat)
    requires Sane(r)
  {
    var w := Wrap(r, n).tail;
    !(w < r.head && w + HEADER + n >= r.head)
  }

  /** A push writes the marker of a wrap, if there is one, and the packed record. */
  lemma PushBytes(r: Ring, x: Record)
    requires Sane(r) && WrapSafe(r, |x.data|)
    ensures var (n, r1, b) := (|x.data|, Wrap(r, |x.data|), PushTo(r, x).0.bytes);
      if Granted(r, n) then r1.tail + HEADER + n <= |r.bytes| && b == Splice(r1.bytes, r1.tail, RecordBytes(x))
      else b == r1.bytes
  {
    hide Header;
    var (n, r1) := (|x.data|, Wrap(r, |x.data|));
    if Granted(r, n) {
      SpliceTwice(r1.bytes, r1.tail, Header(HEADER + n, x.fd, x.remote, x.mtype, n), x.data);
    }
  }

  /**
   * The reservation is refused, or its region lies before or behind the bytes that are
   * read, or, for an empty message, only its last zero bytes fall on them and change nothing.
   */
  predicate LateSafe(r: Ring, p: nat, rec: Record, n: nat)
    requires Sane(r)
  {
    var w := Wrap(r, n).tail;
    || !Granted(r, n)
    || w + HEADER + n <= p + UNREAD
    || BlockEnd(p, rec) <= w
    || (n == 0 && w + 18 <= p + UNREAD && forall i :: 0 <= i < w + 17 - p ==> Int32Bytes(rec.fd)[i] == 0)
  }

  /** A message all of whose free bytes are `b`. */
  function Uniform(b: byte, n: nat): (x: Record)
    ensures |x.data| == n
  {
    FourBytes();
    FromLEBound(seq(8, _ => b));
    var four := seq(4, _ => b);
    FromLEBound(four);
    Record(ToInt32(four), FromLE(seq(8, _ => b)), b, seq(n, _ => b))
  }

  lemma UniformBytes(b: byte, n: nat, j: nat)
    requires 5 <= j < HEADER + n && !(18 <= j < 22)
    ensures RecordBytes(Uniform(b, n))[j] == b
  {
    hide Int32Bytes, LE, ToInt32, FromLE;
    var x := Uniform(b, n);
    ToInt32RoundTrip(seq(4, _ => b));
    FromLERoundTrip(seq(8, _ => b));
    HeaderFields(Header(HEADER + n, x.fd, x.remote, x.mtype, n), HEADER + n, x.fd, x.remote, x.mtype, n);
    var h := RecordBytes(x);
    if j < 9 {
      assert h[5..9][j - 5] == h[j];
    } else if j < 17 {
      assert h[9..17][j - 9] == h[j];
    }
  }

  /** The fixed bytes of the length field of an empty message. */
  lemma EmptyLength(x: Record, j: nat)
    requires x.data == [] && 18 <= j < 22
    ensures RecordBytes(x)[j] == 0
  {
    var h := RecordBytes(x);
    assert h[18..22] == Int32Bytes(0);
    assert LE(0, 4) == [0, 0, 0, 0];
    assert h[j] == h[18..22][j - 18];
  }

  /** The bytes read through the pointer do not change where nothing is written over them. */
  lemma WrapSpares(r: Ring, p: nat, rec: Record, n: nat)
    requires Sane(r) && (r.tail <= p || BlockEnd(p, rec) <= r.tail) && BlockEnd(p, rec) <= |r.bytes|
    requires WrapSafe(r, n)
    ensures |Wrap(r, n).bytes| == |r.bytes|
    ensures forall i :: p + UNREAD <= i < BlockEnd(p, rec) ==> Wrap(r, n).bytes[i] == r.bytes[i]
  {
  }

  ghost predicate KeptByAll(r: Ring, p: nat, rec: Record, n: nat)
    requires Sane(r) && WrapSafe(r, n)
  {
    forall x: Record :: |x.data| == n ==> Shows(PushTo(r, x).0.bytes, p, rec)
  }

  lemma SafeKeeps(r: Ring, p: nat, rec: Record, x: Record)
    requires Sane(r) && WrapSafe(r, |x.data|)
    requires (r.tail <= p || BlockEnd(p, rec) <= r.tail) && BlockEnd(p, rec) <= |r.bytes| && Shows(r.bytes, p, rec)
    requires LateSafe(r, p, rec, |x.data|)
    ensures Shows(PushTo(r, x).0.bytes, p, rec)
  {
    hide Wrap, PushTo, RecordBytes, Int32Bytes, LE, Shows;
    var n := |x.data|;
    var (b, r1) := (PushTo(r, x).0.bytes, Wrap(r, n));
    PushBytes(r, x);
    WrapSpares(r, p, rec, n);
    ShowsIff(r.bytes, p, rec);
    ShowsIff(b, p, rec);
    forall i | p + UNREAD <= i < BlockEnd(p, rec) ensures b[i] == r.bytes[i] {
      if Granted(r, n) && r1.tail <= i < r1.tail + HEADER + n {
        EmptyLength(x, i - r1.tail);
        var k := i - p - UNREAD;
        assert r.bytes[p + UNREAD..BlockEnd(p, rec)][k] == ReadBytes(rec)[k] == Int32Bytes(rec.fd)[k];
        assert b[r1.tail..r1.tail + HEADER][i - r1.tail] == 0;
      }
    }
    assert b[p + UNREAD..BlockEnd(p, rec)] == r.bytes[p + UNREAD..BlockEnd(p, rec)];
  }

  /** A place that is both read through the pointer and free for the next message to choose. */
  lemma FreePlace(w: nat, n: nat, p: nat, e: nat) returns (j: nat)
    requires w <= p && p + HEADER <= e && p + UNREAD < w + HEADER + n
    requires n > 0 || p + UNREAD < w + 18
    ensures 5 <= j < HEADER + n && !(18 <= j < 22) && p + UNREAD <= w + j < e
  {
    j := p + UNREAD - w;
    if 18 <= j < 22 {
      j := 22;
    }
  }

  lemma UnsafeChanges(r: Ring, p: nat, rec: Record, n: nat)
    requires Sane(r) && WrapSafe(r, n)
    requires (r.tail <= p || BlockEnd(p, rec) <= r.tail) && BlockEnd(p, rec) <= |r.bytes| && Shows(r.bytes, p, rec)
    requires !LateSafe(r, p, rec, n)
    ensures !KeptByAll(r, p, rec, n)
  {
    hide PushTo, RecordBytes, Int32Bytes, LE, Shows, Uniform;
    var w := Wrap(r, n).tail;
    assert w <= p;
    ShowsIff(r.bytes, p, rec);
    if n > 0 || p + UNREAD < w + 18 {
      var j := FreePlace(w, n, p, BlockEnd(p, rec));
      var b: byte := if r.bytes[w + j] == 0 then 1 else 0;
      UniformBytes(b, n, j);
      Differs(r, p, rec, Uniform(b, n), w + j);
    } else {
      var k: nat :| k < w + 17 - p && Int32Bytes(rec.fd)[k] != 0;
      var x := Uniform(0, 0);
      EmptyLength(x, p + UNREAD + k - w);
      assert r.bytes[p + UNREAD..BlockEnd(p, rec)][k] == ReadBytes(rec)[k] == Int32Bytes(rec.fd)[k];
      Differs(r, p, rec, x, p + UNREAD + k);
    }
  }

  lemma Differs(r: Ring, p: nat, rec: Record, x: Record, i: nat)
    requires Sane(r) && WrapSafe(r, |x.data|) && Granted(r, |x.data|)
    requires BlockEnd(p, rec) <= |r.bytes| && Shows(r.bytes, p, rec)
    requires var w := Wrap(r, |x.data|).tail;
      && w <= i < w + HEADER + |x.data| && p + UNREAD <= i < BlockEnd(p, rec)
      && RecordBytes(x)[i - w] != r.bytes[i]
    ensures !Shows(PushTo(r, x).0.bytes, p, rec)
  {
    hide Wrap, PushTo, RecordBytes, ReadBytes, Shows;
    var (w, b) := (Wrap(r, |x.data|).tail, PushTo(r, x).0.bytes);
    PushBytes(r, x);
    WrapLength(r, |x.data|);
    ShowsIff(r.bytes, p, rec);
    ShowsIff(b, p, rec);
    assert b[i] == b[w..w + HEADER + |x.data|][i - w];
    assert b[p + UNREAD..BlockEnd(p, rec)][i - p - UNREAD] != r.bytes[p + UNREAD..BlockEnd(p, rec)][i - p - UNREAD];
  }

  lemma WrapLength(r: Ring, n: nat)
    requires Sane(r)
    ensures |Wrap(r, n).bytes| == |r.bytes|
  {
  }

  /**
   * For a popped block that the producer has not entered: it goes on showing its record
   * after a push, whatever the message, if and only if the push is LateSafe.
   */
  lemma LateReadIff(r: Ring, p: nat, rec: Record, n: nat)
    requires Sane(r) && WrapSafe(r, n)
    requires (r.tail <= p || BlockEnd(p, rec) <= r.tail) && BlockEnd(p, rec) <= |r.bytes| && Shows(r.bytes, p, rec)
    ensures KeptByAll(r, p, rec, n) <==> LateSafe(r, p, rec, n)
  {
    hide Wrap, PushTo, Shows, LateSafe;
    if LateSafe(r, p, rec, n) {
      forall x: Record | |x.data| == n ensures Shows(PushTo(r, x).0.bytes, p, rec) {
        SafeKeeps(r, p, rec, x);
      }
    } else {
      UnsafeChanges(r, p, rec, n);
    }
  }

  // ---- in a run ----

  /** Right after its pop a block shows the record that was delivered, and the producer is elsewhere. */
  lemma TakenBlock(s: System)
    requires Inv(s) && s.consumer.Holding? && InBounds(s, Step.Take)
    ensures |s.delivered| < |s.committed|
    ensures var (t, p, rec) := (Next(s, Step.Take), s.ring.head, s.committed[|s.delivered|]);
      && Clear(t, p, rec) && t.ring.head == BlockEnd(p, rec) && rec == RecordAt(s.ring.bytes, p)
      && t.delivered == s.delivered + [Delivery(s.consumer.worker, rec)]
      && (t.ring.tail <= p || BlockEnd(p, rec) <= t.ring.tail)
  {
    hide Header, Inv, RecordAt, DataLenAt, Flat;
    NextDelivery(s);
    var front, back, mark := Unfold(s);
    PopRemoves(s.ring, front, back, mark);
  }

  /**
   * The next push after a worker has popped its block leaves what the worker still reads
   * alone, whatever the message, if and only if it is LateSafe.
   */
  lemma LateDeliveryIff(s: System, n: nat)
    requires Inv(s) && s.consumer.Holding? && InBounds(s, Step.Take)
    requires var t := Next(s, Step.Take); Sane(t.ring) && WrapSafe(t.ring, n)
    ensures |s.delivered| < |s.committed|
    ensures var (r, rec) := (Next(s, Step.Take).ring, s.committed[|s.delivered|]);
      KeptByAll(r, s.ring.head, rec, n) <==> LateSafe(r, s.ring.head, rec, n)
  {
    hide Inv, Shows, LateSafe, KeptByAll;
    TakenBlock(s);
    LateReadIff(Next(s, Step.Take).ring, s.ring.head, s.committed[|s.delivered|], n);
  }

  /** The block shows its record, and the region being filled lies beside it. */
  predicate Clear(s: System, p: nat, rec: Record) {
    && Shows(s.ring.bytes, p, rec) && BlockEnd(p, rec) <= |s.ring.bytes|
    && (s.producer.Filling? ==> Beside(s.ring.tail, s.producer.n, p, rec))
  }

  /** A region of `n` payload bytes reserved at `w` lies before or behind what is read. */
  predicate Beside(w: nat, n: nat, p: nat, rec: Record) {
    w + HEADER + n <= p + UNREAD || BlockEnd(p, rec) <= w
  }

  /** Neither the region of a reservation nor its discard marker falls on what is read. */
  predicate Spares(r: Ring, n: nat, p: nat, rec: Record)
    requires Sane(r)
  {
    && (Granted(r, n) ==> Beside(Wrap(r, n).tail, n, p, rec))
    && (NeedsWrap(r, n) ==> r.tail <= p || BlockEnd(p, rec) <= r.tail)
  }

  lemma SameBytesShow(s: seq<byte>, t: seq<byte>, p: nat, rec: Record)
    requires |s| == |t| < 0x8000_0000 && BlockEnd(p, rec) <= |s| && Shows(s, p, rec)
    requires forall i :: p + UNREAD <= i < BlockEnd(p, rec) ==> s[i] == t[i]
    ensures Shows(t, p, rec)
  {
    hide Shows, ReadBytes;
    ShowsIff(s, p, rec);
    ShowsIff(t, p, rec);
    assert s[p + UNREAD..BlockEnd(p, rec)] == t[p + UNREAD..BlockEnd(p, rec)];
  }

  lemma StepSpares(s: System, step: Step, p: nat, rec: Record)
    requires Sane(s.ring) && Enabled(s, step) && InBounds(s, step) && Clear(s, p, rec)
    requires step.Begin? ==> WrapSafe(s.ring, step.n) && Spares(s.ring, step.n, p, rec)
    ensures Clear(Next(s, step), p, rec)
  {
    hide Shows, Header, Marker, LenAt;
    var t := Next(s, step);
    if step.Begin? || step.Put? {
      assert |t.ring.bytes| == |s.ring.bytes|;
      SameBytesShow(s.ring.bytes, t.ring.bytes, p, rec);
    }
  }

  /**
   * Over any run after the pop, for as long as every reservation spares it, the pointer a
   * worker has kept shows the record it was delivered.
   */
  lemma {:induction false} LateReadOverRun(ss: seq<System>, steps: seq<Step>, i: nat, j: nat)
    requires Execution(ss, steps) && i < j < |ss| && steps[i].Take?
    requires var (p, rec) := (ss[i].ring.head, RecordAt(ss[i].ring.bytes, ss[i].ring.head));
      forall k :: i < k < j && steps[k].Begin? ==> Spares(ss[k].ring, steps[k].n, p, rec)
    ensures Clear(ss[j], ss[i].ring.head, RecordAt(ss[i].ring.bytes, ss[i].ring.head))
    decreases j
  {
    hide Shows, Inv, Spares, Beside, Sane, RecordAt;
    var (p, rec) := (ss[i].ring.head, RecordAt(ss[i].ring.bytes, ss[i].ring.head));
    ExecutionInv(ss, steps, i);
    TakenBlock(ss[i]);
    if j != i + 1 {
      LateReadOverRun(ss, steps, i, j - 1);
      StepSpares(ss[j - 1], steps[j - 1], p, rec);
    }
  }

  // ---- a named run ----

  /** Worker 7 is handed the first message of 30 bytes; then one of 1 byte is reserved. */
  function LateSteps(): seq<Step> {
    [Begin(1, 0, 6, 30), End, Look(7), Step.Take, Begin(2, 0, 6, 1)]
  }

  /** From the empty queue of 64 bytes to the block in the worker's hands. */
  lemma FirstMessage(s0: System) returns (s1: System, s2: System, s3: System)
    requires s0 == System(Ring(seq(64, _ => 0), 0, 0), Idle, Free, [], [])
    ensures Initial(s0) && InBounds(s0, LateSteps()[0]) && Guarded(s0, LateSteps()[0])
    ensures s1 == Next(s0, LateSteps()[0]) && Enabled(s1, End) && InBounds(s1, End)
    ensures s2 == Next(s1, End) && Enabled(s2, Look(7)) && InBounds(s2, Look(7)) && Guarded(s2, Look(7))
    ensures s3 == Next(s2, Look(7)) && s3.consumer == Holding(7) && s3.producer.Idle? && s3.delivered == []
    ensures Inv(s3) && |s3.committed| == 1 && s3.committed[0].fd == 1 && |s3.committed[0].data| == 30
    ensures s3.ring.head == 0 && s3.ring.tail == 52 && |s3.ring.bytes| == 64
  {
    hide Header, Inv;
    InitialInv(s0);
    StepInv(s0, LateSteps()[0]);
    s1 := Next(s0, LateSteps()[0]);
    StepInv(s1, End);
    s2 := Next(s1, End);
    StepInv(s2, Look(7));
    s3 := Next(s2, Look(7));
    var front, back, mark := Unfold(s2);
    FrontFinds(s2.ring, front, back, mark);
    assert back == [];
  }

  /**
   * The worker has been handed a message of descriptor 1; the reservation for the next
   * message is granted, and the pointer the worker still uses shows descriptor 2.
   */
  lemma LateReadRun() returns (ss: seq<System>)
    ensures Execution(ss, LateSteps()) && ss[3].consumer == Holding(7)
    ensures |ss[4].delivered| == 1 && ss[4].delivered[0].worker == 7 && ss[4].delivered[0].record.fd == 1
    ensures BlockInside(ss[5].ring.bytes, 0) && RecordAt(ss[5].ring.bytes, 0).fd == 2
  {
    hide Inv, Shows, RecordAt, BlockInside, DataLenAt, LenAt, Reserve, Wrap;
    var s0 := System(Ring(seq(64, _ => 0), 0, 0), Idle, Free, [], []);
    var s1, s2, s3 := FirstMessage(s0);
    StepInv(s3, Step.Take);
    TakenBlock(s3);
    var s4 := Next(s3, Step.Take);
    LateReadSeesNewHeader(s3, Begin(2, 0, 6, 1));
    ss := [s0, s1, s2, s3, s4, Next(s4, Begin(2, 0, 6, 1))];
  }
}
