/**
 * The byte-level meaning of the message ring: what each queue operation does to the
 * bytes and the two cursors, which sequence of records the bytes stand for, and what
 * every operation does to that sequence.
 */
module RingModel {
  import opened Bytes

  /** sizeof(block_t): the packed header is 22 bytes long. */
  const HEADER: nat := 22

  datatype Record = Record(fd: int32, remote: uint64, mtype: byte, data: seq<byte>)

  datatype Ring = Ring(bytes: seq<byte>, head: nat, tail: nat)

  // ---- the packed header ----

  function Header(len: int, fd: int32, remote: uint64, mtype: byte, datalen: int): (h: seq<byte>)
    ensures |h| == HEADER
  {
    Int32Bytes(len) + [0] + Int32Bytes(fd) + LE(remote, 8) + [mtype] + Int32Bytes(datalen)
  }

  /** The two fields written when the rest of the buffer is to be skipped. */
  function Marker(): (m: seq<byte>)
    ensures |m| == 5
  {
    Int32Bytes(HEADER) + [1]
  }

  function RecordBytes(r: Record): (s: seq<byte>)
    ensures |s| == HEADER + |r.data|
  {
    Header(HEADER + |r.data|, r.fd, r.remote, r.mtype, |r.data|) + r.data
  }

  function Flat(q: seq<Record>): seq<byte> {
    if q == [] then [] else RecordBytes(q[0]) + Flat(q[1..])
  }

  // ---- reading through a block pointer ----

  function LenAt(s: seq<byte>, p: nat): int
    requires p + 4 <= |s|
  {
    ToInt32(s[p..p + 4])
  }

  predicate DiscardAt(s: seq<byte>, p: nat)
    requires p + 5 <= |s|
  {
    s[p + 4] != 0
  }

  function DataLenAt(s: seq<byte>, p: nat): int
    requires p + HEADER <= |s|
  {
    ToInt32(s[p + 18..p + 22])
  }

  /** The record a block pointer shows: every header field and `datalen` payload bytes. */
  function RecordAt(s: seq<byte>, p: nat): Record
    requires p + HEADER <= |s|
    requires 0 <= DataLenAt(s, p) && p + HEADER + DataLenAt(s, p) <= |s|
  {
    FieldRanges(s, p);
    Record(ToInt32(s[p + 5..p + 9]), FromLE(s[p + 9..p + 17]), s[p + 17],
           s[p + HEADER..p + HEADER + DataLenAt(s, p)])
  }

  lemma {:induction false} FromLEBound(s: seq<byte>)
    ensures FromLE(s) < Pow256(|s|)
  {
    if s != [] {
      FromLEBound(s[1..]);
    }
  }

  lemma FieldRanges(s: seq<byte>, p: nat)
    requires p + HEADER <= |s|
    ensures -0x8000_0000 <= ToInt32(s[p + 5..p + 9]) < 0x8000_0000
    ensures 0 <= FromLE(s[p + 9..p + 17]) < 0x1_0000_0000_0000_0000
  {
    FourBytes();
    FromLEBound(s[p + 5..p + 9]);
    FromLEBound(s[p + 9..p + 17]);
  }

  lemma HeaderFields(h: seq<byte>, len: int, fd: int32, remote: uint64, mtype: byte, n: int)
    requires h == Header(len, fd, remote, mtype, n)
    ensures h[0..4] == Int32Bytes(len) && h[4] == 0 && h[5..9] == Int32Bytes(fd)
    ensures h[9..17] == LE(remote, 8) && h[17] == mtype && h[18..22] == Int32Bytes(n)
  {
  }

  /** A header written at `p` reads back field by field. */
  lemma HeaderReadsBack(s: seq<byte>, p: nat, fd: int32, remote: uint64, mtype: byte, n: nat)
    requires p + HEADER + n <= |s| < 0x8000_0000
    requires s[p..p + HEADER] == Header(HEADER + n, fd, remote, mtype, n)
    ensures LenAt(s, p) == HEADER + n && !DiscardAt(s, p) && DataLenAt(s, p) == n
    ensures RecordAt(s, p) == Record(fd, remote, mtype, s[p + HEADER..p + HEADER + n])
  {
    var h := s[p..p + HEADER];
    HeaderFields(h, HEADER + n, fd, remote, mtype, n);
    hide Header, Int32Bytes, LE, FromLE, ToInt32;
    var e := p + HEADER;
    SliceOfSlice(s, p, e, 0, 4);
    SliceOfSlice(s, p, e, 5, 9);
    SliceOfSlice(s, p, e, 9, 17);
    SliceOfSlice(s, p, e, 18, 22);
    assert s[p + 4] == h[4] && s[p + 17] == h[17];
    Int32RoundTrip(HEADER + n);
    Int32RoundTrip(fd);
    Int32RoundTrip(n);
    FourBytes();
    LERoundTrip(remote, 8);
  }

  lemma MarkerReadsBack(s: seq<byte>, p: nat)
    requires p + 5 <= |s| && s[p..p + 5] == Marker()
    ensures LenAt(s, p) == HEADER && DiscardAt(s, p)
  {
    assert s[p..p + 4] == Marker()[0..4] == Int32Bytes(HEADER);
    assert s[p + 4] == Marker()[4];
    Int32RoundTrip(HEADER);
  }

  // ---- the operations ----

  /** Sizes for which every header access stays inside the buffer and no `int` overflows. */
  predicate Sane(r: Ring) {
    HEADER <= |r.bytes| < 0x8000_0000 && r.head <= |r.bytes| && r.tail <= |r.bytes|
  }

  datatype Reservation = Reservation(ring: Ring, slot: Option<nat>)

  /** The first two tests of BufferForPush: go back to the start of the buffer. */
  function Wrap(r: Ring, n: nat): Ring
    requires Sane(r)
  {
    var r1 := if r.tail >= r.head && r.tail + HEADER > |r.bytes| then r.(tail := 0) else r;
    if r1.tail >= r1.head && r1.tail + HEADER + n > |r.bytes|
    then Ring(Splice(r1.bytes, r1.tail, Marker()), r1.head, 0)
    else r1
  }

  /** BufferForPush: `slot` is the offset of the payload, None the null pointer. */
  function Reserve(r: Ring, fd: int32, remote: uint64, mtype: byte, n: nat): Reservation
    requires Sane(r)
  {
    var r1 := Wrap(r, n);
    if r1.tail < r1.head && r1.tail + HEADER + n >= r1.head then Reservation(r1, None)
    else
      Reservation(
        r1.(bytes := Splice(r1.bytes, r1.tail, Header(HEADER + n, fd, remote, mtype, n))),
        Some(r1.tail + HEADER))
  }

  /** The caller's copy into the reserved payload. */
  function Fill(r: Ring, p: nat, t: seq<byte>): Ring
    requires p + |t| <= |r.bytes|
  {
    r.(bytes := Splice(r.bytes, p, t))
  }

  /** PushFinish. */
  function Commit(r: Ring, n: nat): Ring {
    r.(tail := r.tail + HEADER + n)
  }

  datatype Fronted = Fronted(ring: Ring, block: Option<nat>)

  /** FrontBlock: it may move `head` even when it returns no block. */
  function Front(r: Ring): Fronted
    requires Sane(r)
  {
    if r.head == r.tail then Fronted(r, None)
    else
      var r1 := if r.head + HEADER > |r.bytes| then r.(head := 0) else r;
      var r2 := if LenAt(r.bytes, r1.head) == HEADER && DiscardAt(r.bytes, r1.head) then r1.(head := 0) else r1;
      var len := LenAt(r.bytes, r2.head);
      if r2.head < r2.tail && r2.head + len > r2.tail then Fronted(r2, None)
      else if len < HEADER then Fronted(r2, None)
      else Fronted(r2, Some(r2.head))
  }

  /** PopBlock. */
  function Pop(r: Ring, len: nat): Ring {
    r.(head := r.head + len)
  }

  // ---- which records a ring holds ----

  /** FrontBlock would jump from offset `w` to the start of the buffer. */
  predicate AtMark(s: seq<byte>, w: nat)
    requires HEADER <= |s|
  {
    w + HEADER > |s| || (LenAt(s, w) == HEADER && DiscardAt(s, w))
  }

  /** Cursors sit on header boundaries, and once used the buffer starts with a header. */
  predicate Primed(r: Ring)
    requires Sane(r)
  {
    && (r.head == 0 || HEADER <= r.head)
    && (r.tail == 0 || HEADER <= r.tail)
    && (0 < r.head || 0 < r.tail ==> HEADER <= LenAt(r.bytes, 0))
  }

  /**
   * The queued records tile the buffer exactly: `front` lies in [head, tail), or, once
   * the producer has wrapped, `front` lies in [head, mark) and `back` in [0, tail).
   */
  predicate Holds(r: Ring, front: seq<Record>, back: seq<Record>, mark: nat) {
    && Sane(r) && Primed(r)
    && if r.head <= r.tail then
         back == [] && r.bytes[r.head..r.tail] == Flat(front)
       else
         && r.head <= mark <= |r.bytes| && AtMark(r.bytes, mark)
         && r.bytes[r.head..mark] == Flat(front)
         && r.bytes[..r.tail] == Flat(back)
  }

  ghost predicate Represents(r: Ring, q: seq<Record>) {
    exists front, back, mark :: Holds(r, front, back, mark) && q == front + back
  }

  /** The next push of `n` bytes goes back to the start of the buffer. */
  predicate NeedsWrap(r: Ring, n: nat) {
    r.tail >= r.head && r.tail + HEADER + n > |r.bytes|
  }

  /** The producer may wrap only when the consumer has left the start of the buffer. */
  predicate WrapSafe(r: Ring, n: nat) {
    NeedsWrap(r, n) ==> 0 < r.head
  }

  /** The producer has wrapped but nothing is committed at the start of the buffer yet. */
  predicate Hollow(r: Ring) {
    r.tail == 0 < r.head
  }

  /** The consumer may look for a block unless it would jump into a hollow start. */
  predicate FrontSafe(r: Ring)
    requires Sane(r)
  {
    Hollow(r) ==> !AtMark(r.bytes, r.head)
  }

  /** The `n + 22` bytes from `tail` are free of queued records. */
  predicate RegionFree(r: Ring, n: nat) {
    && r.tail + HEADER + n <= |r.bytes|
    && (r.tail < r.head ==> r.tail + HEADER + n < r.head)
  }

  // ---- records and their bytes ----

  lemma {:induction false} FlatAppend(a: seq<Record>, b: seq<Record>)
    ensures Flat(a + b) == Flat(a) + Flat(b)
  {
    hide RecordBytes;
    if a == [] {
      assert a + b == b;
    } else {
      var x, y, z := RecordBytes(a[0]), Flat(a[1..]), Flat(b);
      assert Flat(a + b) == x + (y + z) by {
        FlatAppend(a[1..], b);
        assert (a + b)[1..] == a[1..] + b && (a + b)[0] == a[0];
      }
      assert x + (y + z) == (x + y) + z;
    }
  }

  lemma FlatOne(r: Record)
    ensures Flat([r]) == RecordBytes(r)
  {
    assert [r][1..] == [];
  }

  /** Where the bytes of a queue lie, its first record can be read back. */
  lemma FirstReadsBack(s: seq<byte>, p: nat, e: nat, q: seq<Record>)
    requires p <= e <= |s| < 0x8000_0000
    requires q != [] && s[p..e] == Flat(q)
    ensures p + HEADER + |q[0].data| <= e
    ensures LenAt(s, p) == HEADER + |q[0].data| == |RecordBytes(q[0])|
    ensures !DiscardAt(s, p) && DataLenAt(s, p) == |q[0].data|
    ensures RecordAt(s, p) == q[0]
    ensures s[p + |RecordBytes(q[0])|..e] == Flat(q[1..])
  {
    hide Header, LenAt, DataLenAt, RecordAt;
    var r := q[0];
    var n := |r.data|;
    var t := Flat(q[1..]);
    var w := s[p..e];
    SplitRecord(w, r, t);
    assert w[0..HEADER] == w[..HEADER] && w[HEADER + n..e - p] == w[HEADER + n..];
    SliceOfSlice(s, p, e, 0, HEADER);
    SliceOfSlice(s, p, e, HEADER, HEADER + n);
    SliceOfSlice(s, p, e, HEADER + n, e - p);
    HeaderReadsBack(s, p, r.fd, r.remote, r.mtype, n);
  }

  lemma SplitRecord(w: seq<byte>, r: Record, t: seq<byte>)
    requires w == RecordBytes(r) + t
    ensures HEADER + |r.data| <= |w|
    ensures w[..HEADER] == Header(HEADER + |r.data|, r.fd, r.remote, r.mtype, |r.data|)
    ensures w[HEADER..HEADER + |r.data|] == r.data
    ensures w[HEADER + |r.data|..] == t
  {
    var h := Header(HEADER + |r.data|, r.fd, r.remote, r.mtype, |r.data|);
    assert w == h + r.data + t;
  }

  /** The bytes determine the queue: no ring stands for two different sequences of records. */
  lemma {:induction false} SegmentDetermined(s: seq<byte>, p: nat, e1: nat, e2: nat, q1: seq<Record>, q2: seq<Record>)
    requires p <= e1 <= |s| && p <= e2 <= |s| && HEADER <= |s| < 0x8000_0000
    requires s[p..e1] == Flat(q1) && s[p..e2] == Flat(q2)
    requires e1 == e2 || (AtMark(s, e1) && AtMark(s, e2))
    ensures q1 == q2
    decreases |q1|
  {
    assert |Flat(q1)| == e1 - p && |Flat(q2)| == e2 - p;
    if q1 != [] {
      FirstReadsBack(s, p, e1, q1);
    }
    if q2 != [] {
      FirstReadsBack(s, p, e2, q2);
    }
    if q1 != [] && q2 != [] {
      assert |RecordBytes(q1[0])| == |RecordBytes(q2[0])|;
      SegmentDetermined(s, p + |RecordBytes(q1[0])|, e1, e2, q1[1..], q2[1..]);
      assert q1 == [q1[0]] + q1[1..] && q2 == [q2[0]] + q2[1..];
    }
  }

  lemma QueueIsDetermined(r: Ring, q1: seq<Record>, q2: seq<Record>)
    requires Represents(r, q1) && Represents(r, q2)
    ensures q1 == q2
  {
    var f1, b1, m1 :| Holds(r, f1, b1, m1) && q1 == f1 + b1;
    var f2, b2, m2 :| Holds(r, f2, b2, m2) && q2 == f2 + b2;
    if r.head <= r.tail {
      SegmentDetermined(r.bytes, r.head, r.tail, r.tail, f1, f2);
    } else {
      SegmentDetermined(r.bytes, r.head, m1, m2, f1, f2);
      assert r.bytes[0..r.tail] == r.bytes[..r.tail];
      SegmentDetermined(r.bytes, 0, r.tail, r.tail, b1, b2);
    }
  }
}
