/**
 * The receiving side step by step: the receive loop drives the producer of the interleaved
 * ring, test by test and byte by byte, while workers take their turns. Between two calls of
 * recvTcpMsg more bytes may arrive, and records of other connections may be pushed.
 */
module ServerSteps {
  import opened Bytes
  import opened Framing
  import opened RingModel
  import opened RingSteps
  import opened NetMessages
  import opened ServerRuns
  import P = RingProtocol
  import I = RingInterleaving

  datatype Stage = Stage(sys: I.System, rest: seq<byte>, received: seq<byte>)

  datatype Act = Receive(chunk: seq<byte>) | Queue(step: I.Step)

  /** The producer is at work for the watched connection. */
  predicate Ours(s: Stage, w: Watched) {
    !s.sys.producer.Idle? && s.sys.producer.call.fd == w.fd
  }

  /** What recvTcpMsg does for the watched connection, and the worker's assert. */
  predicate Follows(s: Stage, step: I.Step, w: Watched)
    requires I.Enabled(s.sys, step) && I.InBounds(s.sys, step)
  {
    match step
    case TestGap(call) =>
      call.fd == w.fd ==> call.mtype == w.mtype && call.remote == 0 && NextCut(s.rest, w.max) == Frame(call.n)
    case Put(offset, value) =>
      Ours(s, w) ==> offset < |s.rest| && value == s.rest[offset]
    case End =>
      Ours(s, w) ==> Copied(s)
    case Take => LenAt(s.sys.ring.bytes, s.sys.ring.head) <= w.max
    case _ => true
  }

  /** The payload of the region being filled is the front of the read buffer. */
  predicate Copied(s: Stage)
    requires s.sys.producer.Filling?
  {
    var (p, n) := (s.sys.ring.tail + HEADER, s.sys.producer.call.n);
    n <= |s.rest| && p + n <= |s.sys.ring.bytes| && s.sys.ring.bytes[p..p + n] == s.rest[..n]
  }

  predicate Allowed(s: Stage, a: Act, w: Watched) {
    match a
    case Receive(_) => s.sys.producer.Idle?
    case Queue(step) =>
      I.Enabled(s.sys, step) && I.InBounds(s.sys, step) && I.Guarded(s.sys, step) && Follows(s, step, w)
  }

  function After(s: Stage, a: Act, w: Watched): Stage
    requires Allowed(s, a, w)
  {
    match a
    case Receive(chunk) => s.(rest := s.rest + chunk, received := s.received + chunk)
    case Queue(step) =>
      var rest := if step.End? && Ours(s, w) then s.rest[s.sys.producer.call.n..] else s.rest;
      Stage(I.Next(s.sys, step), rest, s.received)
  }

  /**
   * `frames` have been committed for the connection, the buffered bytes parse to the frames
   * still to come, and a reservation in progress is for the next of them.
   */
  ghost predicate Accounted(s: Stage, w: Watched, frames: seq<seq<byte>>) {
    && I.Inv(s.sys)
    && Of(s.sys.committed, w.fd) == Messages(frames, w.fd, w.mtype)
    && s.received == Concat(frames) + s.rest
    && (var p := Parse(s.rest, w.max); Parse(s.received, w.max) == Parsed(frames + p.frames, p.rest))
    && (Ours(s, w) ==>
          var c := s.sys.producer.call; c.mtype == w.mtype && c.remote == 0 && NextCut(s.rest, w.max) == Frame(c.n))
    && (forall i :: 0 <= i < |s.sys.delivered| ==> HEADER + |s.sys.delivered[i].record.data| <= w.max)
  }

  ghost predicate Kept(s: Stage, w: Watched) {
    exists frames :: Accounted(s, w, frames)
  }

  predicate Begun(s: Stage) {
    I.Initial(s.sys) && s.rest == [] && s.received == []
  }

  lemma BegunKept(s: Stage, w: Watched)
    requires Begun(s)
    ensures Kept(s, w)
  {
    hide Parse, I.Inv;
    I.InitialInv(s.sys);
    ConcatNone();
    assert [] + Parse([], w.max).frames == Parse([], w.max).frames;
    assert Messages([], w.fd, w.mtype) == [];
    assert Accounted(s, w, []);
  }

  lemma ReceiveKept(s: Stage, a: Act, w: Watched)
    requires Kept(s, w) && a.Receive? && Allowed(s, a, w)
    ensures Kept(After(s, a, w), w)
  {
    hide Parse, Concat, Of, Messages, I.Inv, NextCut;
    var frames :| Accounted(s, w, frames);
    ParseAfterMore(s.received, frames, s.rest, a.chunk, w.max);
    Assoc(Concat(frames), s.rest, a.chunk);
    assert Accounted(After(s, a, w), w, frames);
  }

  /** A step that commits nothing and hands nothing over. */
  lemma QuietKept(s: Stage, a: Act, w: Watched)
    requires Kept(s, w) && a.Queue? && !a.step.End? && !a.step.Take? && Allowed(s, a, w)
    ensures Kept(After(s, a, w), w)
  {
    hide Parse, Concat, Of, Messages, I.Inv, NextCut, FrontSafe, P.Inv;
    var frames :| Accounted(s, w, frames);
    I.StepInv(s.sys, a.step);
    assert Accounted(After(s, a, w), w, frames);
  }

  lemma TakeKept(s: Stage, a: Act, w: Watched)
    requires Kept(s, w) && a.Queue? && a.step.Take? && Allowed(s, a, w)
    ensures Kept(After(s, a, w), w)
  {
    hide Parse, Concat, Of, Messages, I.Inv, NextCut;
    var frames :| Accounted(s, w, frames);
    I.StepInv(s.sys, a.step);
    HeldLength(s.sys);
    assert Accounted(After(s, a, w), w, frames);
  }

  /** The length in a held block is that of its record with the header. */
  lemma HeldLength(s: I.System)
    requires I.Inv(s) && s.consumer.Holding? && P.InBounds(I.Coarse(s), P.Take)
    ensures LenAt(s.ring.bytes, s.ring.head) == HEADER + |RecordAt(s.ring.bytes, s.ring.head).data|
  {
    hide Header, Flat, LenAt, RecordAt;
    var front, back, mark := P.Unfold(I.Coarse(s));
    PopRemoves(s.ring, front, back, mark);
  }

  lemma EndKept(s: Stage, a: Act, w: Watched)
    requires Kept(s, w) && a.Queue? && a.step.End? && Allowed(s, a, w)
    ensures Kept(After(s, a, w), w)
  {
    hide Parse, Concat, Of, Messages, I.Inv, NextCut;
    var frames :| Accounted(s, w, frames);
    I.StepInv(s.sys, a.step);
    var t := After(s, a, w);
    var rec := t.sys.committed[|s.sys.committed|];
    OfAppend(s.sys.committed, [rec], w.fd);
    OfOne(rec, w.fd);
    if Ours(s, w) {
      var f := s.rest[..s.sys.producer.call.n];
      assert rec == Record(w.fd, 0, w.mtype, f);
      ParseStep(s.rest, w.max);
      MessagesAppend(frames, [f], w.fd, w.mtype);
      MessagesOne(f, w.fd, w.mtype);
      ConcatSnoc(frames, f);
      assert s.rest == f + t.rest;
      Assoc(Concat(frames), f, t.rest);
      Assoc(frames, [f], Parse(t.rest, w.max).frames);
      assert Accounted(t, w, frames + [f]);
    } else {
      Assoc(Of(s.sys.committed, w.fd), [], []);
      assert Accounted(t, w, frames);
    }
  }

  lemma OfOne(rec: Record, fd: int32)
    ensures Of([rec], fd) == if rec.fd == fd then [rec] else []
  {
    assert [rec][1..] == [];
  }

  lemma MessagesOne(f: seq<byte>, fd: int32, mtype: byte)
    ensures Messages([f], fd, mtype) == [Record(fd, 0, mtype, f)]
  {
  }

  predicate StepRun(ss: seq<Stage>, acts: seq<Act>, w: Watched) {
    && |ss| == |acts| + 1
    && Begun(ss[0])
    && forall i :: 0 <= i < |acts| ==> Allowed(ss[i], acts[i], w) && ss[i + 1] == After(ss[i], acts[i], w)
  }

  lemma {:induction false} RunKept(ss: seq<Stage>, acts: seq<Act>, w: Watched, k: nat)
    requires StepRun(ss, acts, w) && k < |ss|
    ensures Kept(ss[k], w)
  {
    hide Kept, Allowed, After;
    if k == 0 {
      BegunKept(ss[0], w);
    } else {
      RunKept(ss, acts, w, k - 1);
      ActKept(ss[k - 1], acts[k - 1], w);
    }
  }

  /** Nothing is queued, and no complete frame is waiting. */
  predicate Done(s: Stage, w: Watched) {
    s.sys.ring.head == s.sys.ring.tail && !NextCut(s.rest, w.max).Frame?
  }

  /**
   * In every state of every interleaving of arrivals, tests, copying, commits and workers'
   * turns: a connection's records have been handed over as the first frames of the one-shot
   * parse of all that has arrived, each once and in order, none too long for the worker;
   * when nothing is queued and no frame waits, they are all the frames, and the remainder
   * is buffered.
   */
  lemma HandedOverIsParsed(ss: seq<Stage>, acts: seq<Act>, w: Watched, k: nat)
    requires StepRun(ss, acts, w) && k < |ss|
    ensures var (s, p) := (ss[k], Parse(ss[k].received, w.max));
      && Of(P.Records(s.sys.delivered), w.fd) <= Messages(p.frames, w.fd, w.mtype)
      && (Done(s, w) ==>
            Of(P.Records(s.sys.delivered), w.fd) == Messages(p.frames, w.fd, w.mtype) && s.rest == p.rest)
    ensures var d := ss[k].sys.delivered; forall i :: 0 <= i < |d| ==> HEADER + |d[i].record.data| <= w.max
  {
    hide Parse, Concat, Of, Messages, NextCut, Represents, I.Inv, P.Inv;
    RunKept(ss, acts, w, k);
    var s := ss[k];
    var frames :| Accounted(s, w, frames);
    var q := QueueIn(s.sys);
    var more := Parse(s.rest, w.max).frames;
    OfAppend(P.Records(s.sys.delivered), q, w.fd);
    MessagesAppend(frames, more, w.fd, w.mtype);
    if Done(s, w) {
      EmptyAtTail(s.sys.ring, q);
      ParseStop(s.rest, w.max);
      Assoc(P.Records(s.sys.delivered), [], []);
      Assoc(frames, [], []);
    }
  }

  lemma QueueIn(s: I.System) returns (q: seq<Record>)
    requires I.Inv(s)
    ensures Represents(s.ring, q) && s.committed == P.Records(s.delivered) + q
  {
    q := I.QueueOf(s);
  }

  // ---- a frame gets through ----

  /** From `ss[0]` on, one allowed act after another. */
  predicate Path(ss: seq<Stage>, acts: seq<Act>, w: Watched) {
    && |ss| == |acts| + 1
    && forall i :: 0 <= i < |acts| ==> Allowed(ss[i], acts[i], w) && ss[i + 1] == After(ss[i], acts[i], w)
  }

  ghost predicate Reaches(s: Stage, t: Stage, w: Watched) {
    exists ss, acts :: Path(ss, acts, w) && ss[0] == s && ss[|acts|] == t
  }

  lemma Stay(s: Stage, w: Watched)
    ensures Reaches(s, s, w)
  {
    assert Path([s], [], w);
  }

  lemma OneMore(s: Stage, t: Stage, a: Act, w: Watched)
    requires Reaches(s, t, w) && Allowed(t, a, w)
    ensures Reaches(s, After(t, a, w), w)
  {
    hide Allowed, After;
    var ss, acts :| Path(ss, acts, w) && ss[0] == s && ss[|acts|] == t;
    var (ss1, acts1) := (ss + [After(t, a, w)], acts + [a]);
    assert Path(ss1, acts1, w);
    assert ss1[0] == s && ss1[|acts1|] == After(t, a, w);
  }

  /** The watched connection's next frame, of `n` bytes, has room behind the tail of an empty queue. */
  predicate Roomy(s: Stage, w: Watched, n: nat) {
    && Sane(s.sys.ring) && s.sys.ring.head == s.sys.ring.tail && s.sys.ring.tail + HEADER + n <= |s.sys.ring.bytes|
    && NextCut(s.rest, w.max) == Frame(n)
  }

  /** The four tests, one after the other, grant the region. */
  lemma TestsPass(s: Stage, w: Watched, n: nat) returns (t: Stage)
    requires Roomy(s, w, n) && s.sys.producer.Idle?
    ensures Reaches(s, t, w) && t.rest == s.rest && t.received == s.received
    ensures var c := I.Call(w.fd, 0, w.mtype, n);
      && t.sys.producer == I.Filling(c)
      && t.sys.ring.tail == s.sys.ring.tail && t.sys.ring.head == s.sys.ring.head
      && |t.sys.ring.bytes| == |s.sys.ring.bytes|
    ensures t.sys.consumer == s.sys.consumer && t.sys.committed == s.sys.committed && t.sys.delivered == s.sys.delivered
  {
    hide Header, Splice, NextCut, Reaches;
    var c := I.Call(w.fd, 0, w.mtype, n);
    Stay(s, w);
    OneMore(s, s, Queue(I.TestGap(c)), w);
    var s1 := After(s, Queue(I.TestGap(c)), w);
    OneMore(s, s1, Queue(I.TestWrap), w);
    var s2 := After(s1, Queue(I.TestWrap), w);
    OneMore(s, s2, Queue(I.TestBehind), w);
    var s3 := After(s2, Queue(I.TestBehind), w);
    OneMore(s, s3, Queue(I.TestRoom), w);
    t := After(s3, Queue(I.TestRoom), w);
  }

  /** One byte of the frame is copied to its place. */
  lemma CopyOne(v: Stage, w: Watched, n: nat, k: nat)
    requires v.sys.producer == I.Filling(I.Call(w.fd, 0, w.mtype, n)) && k < n <= |v.rest|
    requires Sane(v.sys.ring) && v.sys.ring.tail + HEADER + n <= |v.sys.ring.bytes|
    ensures Allowed(v, Queue(I.Put(k, v.rest[k])), w)
    ensures var p := v.sys.ring.tail + HEADER + k;
      After(v, Queue(I.Put(k, v.rest[k])), w) ==
        v.(sys := v.sys.(ring := v.sys.ring.(bytes := v.sys.ring.bytes[p := v.rest[k]])))
  {
    P.PutWrites(I.Coarse(v.sys), P.Put(k, v.rest[k]));
  }

  /** The first `k` bytes are copied. */
  lemma {:induction false} CopySome(s: Stage, u: Stage, w: Watched, n: nat, k: nat) returns (t: Stage)
    requires Reaches(s, u, w) && u.sys.producer == I.Filling(I.Call(w.fd, 0, w.mtype, n))
    requires k <= n <= |u.rest| && Sane(u.sys.ring) && u.sys.ring.tail + HEADER + n <= |u.sys.ring.bytes|
    ensures Reaches(s, t, w) && t == u.(sys := u.sys.(ring := u.sys.ring.(bytes := t.sys.ring.bytes)))
    ensures |t.sys.ring.bytes| == |u.sys.ring.bytes|
    ensures var p := u.sys.ring.tail + HEADER; t.sys.ring.bytes[p..p + k] == u.rest[..k]
    decreases k
  {
    hide Reaches, Allowed, After;
    if k == 0 {
      t := u;
    } else {
      var v := CopySome(s, u, w, n, k - 1);
      var a := Queue(I.Put(k - 1, u.rest[k - 1]));
      CopyOne(v, w, n, k - 1);
      OneMore(s, v, a, w);
      t := After(v, a, w);
      var p := u.sys.ring.tail + HEADER;
      assert t.sys.ring.bytes[p..p + k] == v.sys.ring.bytes[p..p + k - 1] + [u.rest[k - 1]];
      assert u.rest[..k] == u.rest[..k - 1] + [u.rest[k - 1]];
    }
  }

  /** With all bytes copied, the push is finished. */
  lemma EndsIt(s: Stage, v: Stage, w: Watched, n: nat) returns (x: Stage)
    requires Reaches(s, v, w) && v.sys.producer == I.Filling(I.Call(w.fd, 0, w.mtype, n))
    requires n <= |v.rest| && Sane(v.sys.ring) && v.sys.ring.tail + HEADER + n <= |v.sys.ring.bytes|
    requires var p := v.sys.ring.tail + HEADER; v.sys.ring.bytes[p..p + n] == v.rest[..n]
    ensures Reaches(s, x, w) && x.rest == v.rest[n..] && x.received == v.received
    ensures x.sys == I.System(v.sys.ring.(tail := v.sys.ring.tail + HEADER + n), I.Idle, v.sys.consumer,
                              v.sys.committed + [Record(w.fd, 0, w.mtype, v.rest[..n])], v.sys.delivered)
  {
    hide Reaches;
    OneMore(s, v, Queue(I.End), w);
    x := After(v, Queue(I.End), w);
  }

  lemma KeptAlong(s: Stage, t: Stage, w: Watched)
    requires Kept(s, w) && Reaches(s, t, w)
    ensures Kept(t, w)
  {
    hide Kept, Allowed, After;
    var ss, acts :| Path(ss, acts, w) && ss[0] == s && ss[|acts|] == t;
    for i := 0 to |acts|
      invariant Kept(ss[i], w)
    {
      ActKept(ss[i], acts[i], w);
    }
  }

  lemma ActKept(s: Stage, a: Act, w: Watched)
    requires Kept(s, w) && Allowed(s, a, w)
    ensures Kept(After(s, a, w), w)
  {
    hide Kept, Allowed, After;
    if a.Receive? {
      ReceiveKept(s, a, w);
    } else if a.step.End? {
      EndKept(s, a, w);
    } else if a.step.Take? {
      TakeKept(s, a, w);
    } else {
      QuietKept(s, a, w);
    }
  }

  lemma InvMeans(s: I.System)
    requires I.Inv(s)
    ensures P.Inv(I.Coarse(s))
  {
  }

  /** A worker looks and finds the only record. */
  lemma Looks(s: Stage, x: Stage, w: Watched) returns (y: Stage)
    requires Reaches(s, x, w) && I.Inv(x.sys) && x.sys.consumer.Free?
    requires |x.sys.committed| == |x.sys.delivered| + 1
    requires x.sys.ring.head <= x.sys.ring.tail && 0 < x.sys.ring.tail
    ensures Reaches(s, y, w) && Allowed(x, Queue(I.Look(0)), w) && y == After(x, Queue(I.Look(0)), w)
    ensures y.sys.consumer.Holding? && y.sys.committed == x.sys.committed && y.sys.delivered == x.sys.delivered
    ensures y.rest == x.rest && y.received == x.received
  {
    hide Reaches, Header, Flat, ToInt32;
    var front, back, mark := P.Unfold(I.Coarse(x.sys));
    FrontFinds(x.sys.ring, front, back, mark);
    assert |x.sys.committed| == |x.sys.delivered| + |front + back|;
    P.StepInBounds(I.Coarse(x.sys), P.Look(0));
    OneMore(s, x, Queue(I.Look(0)), w);
    y := After(x, Queue(I.Look(0)), w);
  }

  lemma LooksOn(x: Stage, w: Watched)
    requires I.Inv(x.sys) && Allowed(x, Queue(I.Look(0)), w) && x.sys.ring.head <= x.sys.ring.tail
    ensures var y := After(x, Queue(I.Look(0)), w).sys.ring; y.head <= y.tail
  {
    hide I.Inv;
    I.HeadMovesOn(x.sys, I.Look(0));
  }

  /** Taking the only record leaves the cursors at one place. */
  lemma TakesLast(s: I.System)
    requires I.Inv(s) && I.Enabled(s, I.Take) && I.InBounds(s, I.Take) && s.ring.head <= s.ring.tail
    requires |s.committed| == |s.delivered| + 1
    ensures var t := I.Next(s, I.Take); t.ring.head == t.ring.tail
  {
    hide Flat, ToInt32, Header;
    var front, back, mark := P.Unfold(I.Coarse(s));
    assert |s.committed| == |s.delivered| + |front + back|;
    PopRemoves(s.ring, front, back, mark);
    assert front[1..] == [] && |front| == 1;
    OneRecord(s.ring, front);
  }

  lemma OneRecord(r: Ring, front: seq<Record>)
    requires r.head <= r.tail <= |r.bytes| && r.bytes[r.head..r.tail] == Flat(front) && |front| == 1
    ensures |RecordBytes(front[0])| == r.tail - r.head
  {
    assert front == [front[0]];
    FlatOne(front[0]);
  }

  /** A worker looks at the only record, and takes it. */
  lemma TakenUp(s: Stage, x: Stage, w: Watched, rec: Record) returns (t: Stage)
    requires Reaches(s, x, w) && Kept(x, w) && x.sys.consumer.Free? && HEADER + |rec.data| <= w.max
    requires |x.sys.committed| == |x.sys.delivered| + 1 && x.sys.committed[|x.sys.delivered|] == rec
    requires x.sys.ring.head <= x.sys.ring.tail && 0 < x.sys.ring.tail
    ensures Reaches(s, t, w) && t.rest == x.rest && t.received == x.received
    ensures |t.sys.delivered| == |x.sys.delivered| + 1 && t.sys.delivered[|x.sys.delivered|].record == rec
    ensures t.sys.ring.head == t.sys.ring.tail
  {
    hide Reaches, I.Inv, P.Inv, RecordAt, LenAt, DataLenAt, Parse, Concat, Of, Messages, NextCut;
    assert I.Inv(x.sys);
    var y := Looks(s, x, w);
    assert I.Inv(y.sys) by {
      QuietKept(x, Queue(I.Look(0)), w);
    }
    InvMeans(y.sys);
    P.StepInBounds(I.Coarse(y.sys), P.Take);
    P.NextDelivery(I.Coarse(y.sys));
    HeldLength(y.sys);
    OneMore(s, y, Queue(I.Take), w);
    t := After(y, Queue(I.Take), w);
    LooksOn(x, w);
    TakesLast(y.sys);
  }

  /**
   * A frame with room in an empty queue, short enough for the worker, gets through: there
   * is a run of the steps above that ends with the frame in the worker's hands.
   */
  lemma FrameGetsThrough(s: Stage, w: Watched, n: nat) returns (t: Stage)
    requires Kept(s, w) && Roomy(s, w, n) && HEADER + n <= w.max
    requires s.sys.producer.Idle? && s.sys.consumer.Free?
    ensures Reaches(s, t, w) && 0 < n <= |s.rest| && t.rest == s.rest[n..] && t.received == s.received
    ensures |t.sys.delivered| == |s.sys.delivered| + 1
    ensures t.sys.delivered[|s.sys.delivered|].record == Record(w.fd, 0, w.mtype, s.rest[..n])
    ensures !NextCut(t.rest, w.max).Frame? ==> Done(t, w)
  {
    hide Reaches, NextCut, Kept, Roomy, I.Inv, P.Inv, RecordAt, LenAt, DataLenAt, Header;
    CutFits(s.rest, w.max);
    assert Sane(s.sys.ring) && NextCut(s.rest, w.max) == Frame(n) by { RoomyMeans(s, w, n); }
    var u := TestsPass(s, w, n);
    RoomyMeans(s, w, n);
    var v := CopySome(s, u, w, n, n);
    var x := EndsIt(s, v, w, n);
    KeptAlong(s, x, w);
    NothingQueued(s, w);
    t := TakenUp(s, x, w, Record(w.fd, 0, w.mtype, s.rest[..n]));
  }

  lemma NothingQueued(s: Stage, w: Watched)
    requires Kept(s, w) && s.sys.ring.head == s.sys.ring.tail
    ensures |s.sys.committed| == |s.sys.delivered|
  {
    hide I.Inv, Represents, Parse, Concat, Of, Messages, NextCut;
    var frames :| Accounted(s, w, frames);
    var q := QueueIn(s.sys);
    EmptyAtTail(s.sys.ring, q);
  }

  lemma RoomyMeans(s: Stage, w: Watched, n: nat)
    requires Roomy(s, w, n)
    ensures Sane(s.sys.ring) && s.sys.ring.head == s.sys.ring.tail
    ensures s.sys.ring.tail + HEADER + n <= |s.sys.ring.bytes| && NextCut(s.rest, w.max) == Frame(n)
  {
  }
}
