/** Whole runs of uninterrupted Push and FrontBlock/PopBlock calls against a plain FIFO. */
module RingRuns {
  import opened Bytes
  import opened RingModel
  import opened RingSteps

  datatype Op = Push(record: Record) | Take

  datatype Outcome = Accepted | Refused | Got(record: Record) | Nothing

  /** The copy of a message of `n` bytes stays inside the buffer. */
  predicate PushFits(r: Ring, n: nat) {
    WrapSafe(r, n) || HEADER + n <= |r.bytes|
  }

  /** Push: reserve, copy the message, finish. */
  function PushTo(r: Ring, rec: Record): (Ring, Outcome)
    requires Sane(r) && PushFits(r, |rec.data|)
  {
    var res := Reserve(r, rec.fd, rec.remote, rec.mtype, |rec.data|);
    if res.slot.None? then (res.ring, Refused)
    else (Commit(Fill(res.ring, res.slot.value, rec.data), |rec.data|), Accepted)
  }

  predicate TakeInside(r: Ring) {
    && Sane(r)
    && var o := Front(r);
       o.block.Some? ==>
         BlockInside(o.ring.bytes, o.block.value) && 0 <= LenAt(o.ring.bytes, o.block.value)
  }

  /** FrontBlock, a copy of the block, and PopBlock of its length. */
  function TakeFrom(r: Ring): (Ring, Outcome)
    requires TakeInside(r)
  {
    var o := Front(r);
    if o.block.None? then (o.ring, Nothing)
    else
      (Pop(o.ring, LenAt(o.ring.bytes, o.block.value)), Got(RecordAt(o.ring.bytes, o.block.value)))
  }

  predicate Defined(r: Ring, op: Op) {
    match op
    case Push(rec) => Sane(r) && WrapSafe(r, |rec.data|)
    case Take => TakeInside(r)
  }

  function Apply(r: Ring, op: Op): (Ring, Outcome)
    requires Defined(r, op)
  {
    match op
    case Push(rec) => PushTo(r, rec)
    case Take => TakeFrom(r)
  }

  /** The reference: a FIFO that may refuse a push unless it is empty. */
  predicate FifoStep(q: seq<Record>, op: Op, out: Outcome, q': seq<Record>) {
    match op
    case Push(rec) => (out == Accepted && q' == q + [rec]) || (out == Refused && q' == q && q != [])
    case Take => if q == [] then out == Nothing && q' == [] else out == Got(q[0]) && q' == q[1..]
  }

  /** The producer is behind the consumer, and the record does not fit before `head`. */
  predicate NoRoom(r: Ring, n: nat) {
    r.tail < r.head <= r.tail + HEADER + n
  }

  /** When the producer goes back to the start, the record fits before `head`. */
  predicate SafeWrap(r: Ring, n: nat) {
    NeedsWrap(r, n) ==> HEADER + n < r.head
  }

  /** Copying the message into the reserved payload and finishing appends the record. */
  lemma FillAppends(r: Ring, front: seq<Record>, back: seq<Record>, mark: nat, rec: Record)
    requires Holds(r, front, back, mark) && RegionFree(r, |rec.data|)
    requires r.bytes[r.tail..r.tail + HEADER] == Header(HEADER + |rec.data|, rec.fd, rec.remote, rec.mtype, |rec.data|)
    ensures var r1 := Commit(Fill(r, r.tail + HEADER, rec.data), |rec.data|);
      if r.head <= r.tail then Holds(r1, front + [rec], [], mark)
      else Holds(r1, front, back + [rec], mark)
  {
    hide Flat, Header, ToInt32;
    var (t, n) := (r.tail, |rec.data|);
    var r1 := Fill(r, t + HEADER, rec.data);
    assert r1.bytes[t..t + HEADER] == r.bytes[t..t + HEADER];
    if t == 0 {
      assert r1.bytes[0..4] == r.bytes[0..4];
    }
    RegionWrite(r, r1.bytes, front, back, mark, n);
    assert r1.bytes[t..t + HEADER + n] == RecordBytes(rec) by {
      assert r1.bytes[t..t + HEADER + n] == r1.bytes[t..t + HEADER] + r1.bytes[t + HEADER..t + HEADER + n];
    }
    CommitAppends(r1, front, back, mark, rec);
  }

  lemma RepresentsBoth(r: Ring, front: seq<Record>, back: seq<Record>, mark: nat, q: seq<Record>)
    requires Holds(r, front, back, mark) && q == front + back
    ensures Represents(r, q)
  {
  }

  lemma PushRefinesFifo(r: Ring, q: seq<Record>, rec: Record)
    requires Represents(r, q) && WrapSafe(r, |rec.data|)
    ensures var (r', out) := PushTo(r, rec);
      && (out == Accepted ==> Represents(r', q + [rec]))
      && (out == Refused ==> Represents(r', q) && (!NeedsWrap(r, |rec.data|) ==> r' == r))
  {
    hide Holds, Header, Reserve, Wrap, NeedsWrap, WrapSafe, Splice;
    var front, back, mark :| Holds(r, front, back, mark) && q == front + back;
    var n := |rec.data|;
    HoldsFacts(r, front, back, mark);
    ReserveKeeps(r, front, back, mark, rec.fd, rec.remote, rec.mtype, n);
    WrapKeeps(r, front, back, mark, n);
    var res := Reserve(r, rec.fd, rec.remote, rec.mtype, n);
    var mark1 := if NeedsWrap(r, n) then r.tail else mark;
    if res.slot.None? {
      RepresentsBoth(res.ring, front, back, mark1, q);
    } else {
      FillAppends(res.ring, front, back, mark1, rec);
      var r' := Commit(Fill(res.ring, res.slot.value, rec.data), n);
      if res.ring.head <= res.ring.tail {
        assert back == [] by { HoldsFacts(res.ring, front, back, mark1); }
        RepresentsBoth(r', front + [rec], [], mark1, q + [rec]);
      } else {
        RepresentsBoth(r', front, back + [rec], mark1, q + [rec]);
      }
    }
  }

  /** The outcome FIFO order asks of a push. */
  ghost predicate PushRight(r: Ring, q: seq<Record>, rec: Record)
    requires Sane(r) && PushFits(r, |rec.data|)
  {
    var (r', out) := PushTo(r, rec);
    Represents(r', if out == Accepted then q + [rec] else q)
  }

  /**
   * A push that stays in the buffer is right exactly when it does not wrap while `head` is
   * still 0: there it forgets every queued record.
   */
  lemma PushRightIff(r: Ring, q: seq<Record>, rec: Record)
    requires Represents(r, q) && PushFits(r, |rec.data|)
    ensures PushRight(r, q, rec) <==> WrapSafe(r, |rec.data|)
  {
    if WrapSafe(r, |rec.data|) {
      PushRefinesFifo(r, q, rec);
    } else {
      PushForgets(r, q, rec);
      var r' := PushTo(r, rec).0;
      if Represents(r', q + [rec]) {
        QueueIsDetermined(r', [rec], q + [rec]);
      }
    }
  }

  lemma PushForgets(r: Ring, q: seq<Record>, rec: Record)
    requires Represents(r, q) && PushFits(r, |rec.data|) && !WrapSafe(r, |rec.data|)
    ensures q != [] && PushTo(r, rec).1 == Accepted && Represents(PushTo(r, rec).0, [rec])
  {
    hide Flat, Header, ToInt32, RecordBytes;
    var front, back, mark :| Holds(r, front, back, mark) && q == front + back;
    FlatEmpty(front);
    assert |r.bytes[0..r.tail]| == r.tail;
    var n := |rec.data|;
    var res := Reserve(r, rec.fd, rec.remote, rec.mtype, n);
    EmptyRing(res.ring);
    FillAppends(res.ring, [], [], 0, rec);
    assert [] + [rec] == [rec] + [];
  }

  lemma TakeRefinesFifo(r: Ring, q: seq<Record>)
    requires Represents(r, q) && FrontSafe(r)
    ensures TakeInside(r)
    ensures var (r', out) := TakeFrom(r);
      if q == [] then out == Nothing && Represents(r', []) else out == Got(q[0]) && Represents(r', q[1..])
  {
    FrontRightIff(r, q);
    hide RecordAt, DataLenAt, LenAt, Represents;
  }

  /** A push is refused exactly when the record does not fit before `head`, where it is or after wrapping. */
  lemma RefusedIff(r: Ring, rec: Record)
    requires Sane(r) && WrapSafe(r, |rec.data|)
    ensures PushTo(r, rec).1 == Refused <==>
      NoRoom(r, |rec.data|) || (NeedsWrap(r, |rec.data|) && !SafeWrap(r, |rec.data|))
    ensures PushTo(r, rec).1 == Refused <==>
      if r.tail < r.head then r.head <= r.tail + 22 + |rec.data|
      else r.tail + 22 + |rec.data| > |r.bytes| && r.head <= 22 + |rec.data|
  {
    hide Header, Marker, Splice;
  }

  /** Where the producer is behind the consumer and the start is not hollow, records are queued. */
  lemma BehindMeansQueued(r: Ring, q: seq<Record>)
    requires Represents(r, q) && !Hollow(r) && r.tail < r.head
    ensures q != []
  {
    var front, back, mark: nat :| Holds(r, front, back, mark) && q == front + back;
    FlatEmpty(back);
    assert |r.bytes[..r.tail]| == r.tail;
  }

  /** With SafeWrap the start of the buffer is never left hollow between two calls. */
  lemma SafeWrapNeverHollow(r: Ring, q: seq<Record>, op: Op)
    requires Represents(r, q) && !Hollow(r) && Defined(r, op)
    requires op.Push? ==> SafeWrap(r, |op.record.data|)
    ensures !Hollow(Apply(r, op).0)
    ensures op.Push? && NeedsWrap(r, |op.record.data|) ==> Apply(r, op).1 == Accepted
  {
    if op.Take? {
      var front, back, mark :| Holds(r, front, back, mark) && q == front + back;
      if r.tail == 0 {
        assert |r.bytes[0..0]| == 0;
        FlatEmpty(front);
        FrontFinds(r, front, back, mark);
      }
    }
  }

  lemma StepRefinesFifo(r: Ring, q: seq<Record>, op: Op) returns (q': seq<Record>)
    requires Represents(r, q) && !Hollow(r) && Defined(r, op)
    requires op.Push? ==> SafeWrap(r, |op.record.data|)
    ensures Represents(Apply(r, op).0, q') && !Hollow(Apply(r, op).0)
    ensures FifoStep(q, op, Apply(r, op).1, q')
    ensures op.Push? ==> (Apply(r, op).1 == Refused <==> NoRoom(r, |op.record.data|))
  {
    hide Represents, Reserve, Front, Fill, Commit;
    SafeWrapNeverHollow(r, q, op);
    if op.Push? {
      RefusedIff(r, op.record);
      if NoRoom(r, |op.record.data|) {
        BehindMeansQueued(r, q);
      }
      PushRefinesFifo(r, q, op.record);
      q' := if Apply(r, op).1 == Accepted then q + [op.record] else q;
    } else {
      TakeRefinesFifo(r, q);
      q' := if q == [] then [] else q[1..];
    }
  }

  /** On every queue a take is possible, and a push that fits before `head` if it wraps. */
  lemma AlwaysDefined(r: Ring, q: seq<Record>, op: Op)
    requires Represents(r, q) && !Hollow(r)
    ensures op.Take? ==> Defined(r, op)
    ensures op.Push? ==>
      var n := 22 + |op.record.data|;
      (r.tail < r.head || r.tail + n <= |r.bytes| || n < r.head) ==> Defined(r, op) && SafeWrap(r, |op.record.data|)
  {
    if op.Take? {
      TakeRefinesFifo(r, q);
    }
  }

  /** A run of calls, each push keeping SafeWrap, with the outcomes the callers see. */
  ghost predicate RingRun(rs: seq<Ring>, ops: seq<Op>, outs: seq<Outcome>) {
    && |rs| == |ops| + 1 == |outs| + 1
    && HEADER <= |rs[0].bytes| < 0x8000_0000 && rs[0].head == rs[0].tail == 0
    && forall i :: 0 <= i < |ops| ==>
         && Defined(rs[i], ops[i])
         && (ops[i].Push? ==> SafeWrap(rs[i], |ops[i].record.data|))
         && (rs[i + 1], outs[i]) == Apply(rs[i], ops[i])
  }

  ghost predicate FifoRun(qs: seq<seq<Record>>, ops: seq<Op>, outs: seq<Outcome>) {
    && |qs| == |ops| + 1 == |outs| + 1
    && qs[0] == []
    && forall i :: 0 <= i < |ops| ==> FifoStep(qs[i], ops[i], outs[i], qs[i + 1])
  }

  lemma EmptyRing(r: Ring)
    requires HEADER <= |r.bytes| < 0x8000_0000 && r.head == r.tail == 0
    ensures Holds(r, [], [], 0) && Represents(r, []) && !Hollow(r)
  {
    assert Holds(r, [], [], 0);
  }

  lemma FifoRunExtend(qs: seq<seq<Record>>, ops: seq<Op>, outs: seq<Outcome>, q': seq<Record>)
    requires 0 < |ops| == |outs| && FifoRun(qs, ops[..|ops| - 1], outs[..|ops| - 1])
    requires FifoStep(qs[|ops| - 1], ops[|ops| - 1], outs[|ops| - 1], q')
    ensures FifoRun(qs + [q'], ops, outs)
  {
    hide FifoStep;
    var (k, qs1) := (|ops| - 1, qs + [q']);
    forall i | 0 <= i < |ops| ensures FifoStep(qs1[i], ops[i], outs[i], qs1[i + 1]) {
      if i < k {
        assert FifoStep(qs[i], ops[..k][i], outs[..k][i], qs[i + 1]);
      }
    }
  }

  /**
   * Through any number of wraps, every outcome is one the plain FIFO gives, and a push is
   * refused exactly when the record does not fit between `tail` and `head`.
   */
  lemma {:induction false} RunRefinesFifo(rs: seq<Ring>, ops: seq<Op>, outs: seq<Outcome>)
    returns (qs: seq<seq<Record>>)
    requires RingRun(rs, ops, outs)
    ensures FifoRun(qs, ops, outs)
    ensures forall i :: 0 <= i < |rs| ==> Represents(rs[i], qs[i]) && !Hollow(rs[i])
    ensures forall i :: 0 <= i < |ops| && ops[i].Push? ==>
      (outs[i] == Refused <==> NoRoom(rs[i], |ops[i].record.data|))
    decreases |ops|
  {
    hide Represents, Apply, Defined, SafeWrap, FifoStep, NoRoom;
    if ops == [] {
      qs := [[]];
      EmptyRing(rs[0]);
    } else {
      var k := |ops| - 1;
      var init := RunRefinesFifo(rs[..k + 1], ops[..k], outs[..k]);
      assert rs[..k + 1][k] == rs[k];
      var next := StepRefinesFifo(rs[k], init[k], ops[k]);
      assert (rs[k + 1], outs[k]) == Apply(rs[k], ops[k]);
      FifoRunExtend(init, ops, outs, next);
      qs := init + [next];
      forall i | 0 <= i < |ops| && ops[i].Push?
        ensures outs[i] == Refused <==> NoRoom(rs[i], |ops[i].record.data|)
      {
        if i < k {
          assert ops[..k][i] == ops[i] && outs[..k][i] == outs[i] && rs[..k + 1][i] == rs[i];
        }
      }
      forall i | 0 <= i < |rs| ensures Represents(rs[i], qs[i]) && !Hollow(rs[i]) {
        if i <= k {
          assert rs[..k + 1][i] == rs[i] && qs[i] == init[i];
        }
      }
    }
  }
}
