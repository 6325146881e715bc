/**
 * One producer and several consumers on one ring. The producer reserves, fills and
 * finishes a push without holding the consumers' lock; a consumer takes the lock, looks
 * at the oldest block, copies it, pops it and releases the lock.
 */
module RingProtocol {
  import opened Bytes
  import opened RingModel
  import opened RingSteps

  datatype Producer = Idle | Filling(fd: int32, remote: uint64, mtype: byte, n: nat)

  datatype Consumer = Free | Holding(worker: nat)

  datatype Delivery = Delivery(worker: nat, record: Record)

  datatype System = System(
    ring: Ring,
    producer: Producer,
    consumer: Consumer,
    committed: seq<Record>,
    delivered: seq<Delivery>)

  datatype Step =
    | Begin(fd: int32, remote: uint64, mtype: byte, n: nat)
    | Put(offset: nat, value: byte)
    | End
    | Look(worker: nat)
    | Take

  function Records(ds: seq<Delivery>): seq<Record> {
    seq(|ds|, i requires 0 <= i < |ds| => ds[i].record)
  }

  /** The order in which one thread makes its calls, and mutual exclusion of the workers. */
  predicate Enabled(s: System, step: Step) {
    match step
    case Begin(_, _, _, _) => s.producer.Idle?
    case Put(offset, _) => s.producer.Filling? && offset < s.producer.n
    case End => s.producer.Filling?
    case Look(_) => s.consumer.Free?
    case Take => s.consumer.Holding?
  }

  /** The two places where the code relies on the cursors being far enough apart. */
  predicate Guarded(s: System, step: Step)
    requires Sane(s.ring)
  {
    match step
    case Begin(_, _, _, n) => WrapSafe(s.ring, n)
    case Look(_) => FrontSafe(s.ring)
    case _ => true
  }

  /** Every byte the step touches lies inside the buffer. */
  predicate InBounds(s: System, step: Step) {
    && Sane(s.ring)
    && match step
       case Put(offset, _) => s.ring.tail + HEADER + offset < |s.ring.bytes|
       case End => s.producer.Filling? && s.ring.tail + HEADER + s.producer.n <= |s.ring.bytes|
       case Take => BlockInside(s.ring.bytes, s.ring.head) && 0 <= LenAt(s.ring.bytes, s.ring.head)
       case _ => true
  }

  function Next(s: System, step: Step): System
    requires Enabled(s, step) && InBounds(s, step)
  {
    match step
    case Begin(fd, remote, mtype, n) =>
      var res := Reserve(s.ring, fd, remote, mtype, n);
      s.(ring := res.ring, producer := if res.slot.Some? then Filling(fd, remote, mtype, n) else Idle)
    case Put(offset, value) =>
      s.(ring := Fill(s.ring, s.ring.tail + HEADER + offset, [value]))
    case End =>
      var p := s.producer;
      var payload := s.ring.bytes[s.ring.tail + HEADER..s.ring.tail + HEADER + p.n];
      s.(ring := Commit(s.ring, p.n), producer := Idle,
         committed := s.committed + [Record(p.fd, p.remote, p.mtype, payload)])
    case Look(worker) =>
      var o := Front(s.ring);
      s.(ring := o.ring, consumer := if o.block.Some? then Holding(worker) else Free)
    case Take =>
      s.(ring := Pop(s.ring, LenAt(s.ring.bytes, s.ring.head)), consumer := Free,
         delivered := s.delivered + [Delivery(s.consumer.worker, RecordAt(s.ring.bytes, s.ring.head))])
  }

  predicate Initial(s: System) {
    && HEADER <= |s.ring.bytes| < 0x8000_0000
    && s.ring.head == s.ring.tail == 0
    && s.producer.Idle? && s.consumer.Free?
    && s.committed == [] && s.delivered == []
  }

  predicate Layout(s: System, front: seq<Record>, back: seq<Record>, mark: nat) {
    && Holds(s.ring, front, back, mark)
    && s.committed == Records(s.delivered) + (front + back)
    && (s.producer.Filling? ==>
          && RegionFree(s.ring, s.producer.n)
          && s.ring.bytes[s.ring.tail..s.ring.tail + HEADER]
             == Header(HEADER + s.producer.n, s.producer.fd, s.producer.remote, s.producer.mtype, s.producer.n))
    && (s.consumer.Holding? ==> front != [])
  }

  /** Committed records are the delivered ones followed by the queued ones, in order. */
  ghost predicate Inv(s: System) {
    exists front, back, mark :: Layout(s, front, back, mark)
  }

  lemma Unfold(s: System) returns (front: seq<Record>, back: seq<Record>, mark: nat)
    requires Inv(s)
    ensures Layout(s, front, back, mark)
  {
    var f, b, m: nat :| Layout(s, f, b, m);
    return f, b, m;
  }

  lemma InitialInv(s: System)
    requires Initial(s)
    ensures Inv(s)
  {
    assert Layout(s, [], [], 0);
  }

  lemma StepInBounds(s: System, step: Step)
    requires Inv(s) && Enabled(s, step)
    ensures InBounds(s, step)
  {
    var front, back, mark :| Layout(s, front, back, mark);
    if step.Take? {
      PopRemoves(s.ring, front, back, mark);
    }
  }

  lemma BeginInv(s: System, step: Step)
    requires step.Begin? && Inv(s) && Enabled(s, step) && InBounds(s, step) && Guarded(s, step)
    ensures Inv(Next(s, step))
  {
    hide Flat, Header;
    var front, back, mark :| Layout(s, front, back, mark);
    ReserveKeeps(s.ring, front, back, mark, step.fd, step.remote, step.mtype, step.n);
    assert Layout(Next(s, step), front, back, if NeedsWrap(s.ring, step.n) then s.ring.tail else mark);
  }

  lemma PutInv(s: System, step: Step)
    requires step.Put? && Inv(s) && Enabled(s, step) && InBounds(s, step)
    ensures Inv(Next(s, step))
  {
    hide Flat, Header;
    var front, back, mark :| Layout(s, front, back, mark);
    var s1 := Next(s, step);
    var (b, b1, t) := (s.ring.bytes, s1.ring.bytes, s.ring.tail);
    assert b1[t..t + HEADER] == b[t..t + HEADER];
    if t == 0 {
      assert b1[0..4] == b[0..4];
    }
    RegionWrite(s.ring, b1, front, back, mark, s.producer.n);
    assert Layout(s1, front, back, mark);
  }

  /** A put writes its byte into the payload, at its offset, and nothing else. */
  lemma PutWrites(s: System, step: Step)
    requires step.Put? && Enabled(s, step) && InBounds(s, step)
    ensures var (t, p) := (Next(s, step), s.ring.tail + 22 + step.offset);
      && t == s.(ring := s.ring.(bytes := s.ring.bytes[p := step.value]))
  {
    var p := s.ring.tail + HEADER + step.offset;
    assert Splice(s.ring.bytes, p, [step.value]) == s.ring.bytes[p := step.value];
  }

  lemma EndInv(s: System, step: Step)
    requires step.End? && Inv(s) && Enabled(s, step) && InBounds(s, step)
    ensures Inv(Next(s, step))
  {
    hide Flat, Header, Holds;
    var front, back, mark :| Layout(s, front, back, mark);
    var s1 := Next(s, step);
    var rec := s1.committed[|s.committed|];
    var t := s.ring.tail;
    var e := t + HEADER + s.producer.n;
    assert s.ring.bytes[t..e] == s.ring.bytes[t..t + HEADER] + s.ring.bytes[t + HEADER..e] == RecordBytes(rec);
    CommitAppends(s.ring, front, back, mark, rec);
    HoldsFacts(s.ring, front, back, mark);
    if s.ring.head <= t {
      assert Layout(s1, front + [rec], [], mark);
    } else {
      assert Layout(s1, front, back + [rec], mark);
    }
  }

  lemma LookInv(s: System, step: Step)
    requires step.Look? && Inv(s) && Enabled(s, step) && InBounds(s, step) && Guarded(s, step)
    ensures Inv(Next(s, step))
  {
    hide Flat, Header;
    var front, back, mark :| Layout(s, front, back, mark);
    FrontFinds(s.ring, front, back, mark);
    if front == [] && back != [] {
      assert front + back == back + [];
      assert Layout(Next(s, step), back, [], 0);
    } else {
      assert Layout(Next(s, step), front, back, mark);
    }
  }

  lemma TakeInv(s: System, step: Step)
    requires step.Take? && Inv(s) && Enabled(s, step) && InBounds(s, step)
    ensures Inv(Next(s, step))
  {
    hide Flat, Header;
    var front, back, mark :| Layout(s, front, back, mark);
    PopRemoves(s.ring, front, back, mark);
    var s1 := Next(s, step);
    assert Records(s1.delivered) == Records(s.delivered) + [front[0]];
    assert s.committed == (Records(s.delivered) + [front[0]]) + (front[1..] + back);
    assert Layout(s1, front[1..], back, mark);
  }

  /** Every enabled step is safe in memory, and a guarded one keeps the invariant. */
  lemma StepInv(s: System, step: Step)
    requires Inv(s) && Enabled(s, step) && Guarded(s, step)
    ensures InBounds(s, step) && Inv(Next(s, step))
  {
    StepInBounds(s, step);
    match step
    case Begin(_, _, _, _) => BeginInv(s, step);
    case Put(_, _) => PutInv(s, step);
    case End => EndInv(s, step);
    case Look(_) => LookInv(s, step);
    case Take => TakeInv(s, step);
  }

  /** The guards are exact: the invariant survives a step if and only if the step is guarded. */
  lemma GuardsAreExact(s: System, step: Step)
    requires Inv(s) && Enabled(s, step)
    ensures InBounds(s, step)
    ensures Inv(Next(s, step)) <==> Guarded(s, step)
  {
    StepInBounds(s, step);
    if Guarded(s, step) {
      StepInv(s, step);
    } else if Inv(Next(s, step)) {
      hide Flat, Header, Holds;
      var front, back, mark :| Layout(s, front, back, mark);
      var s1 := Next(s, step);
      var f, b, m :| Layout(s1, f, b, m);
      assert f + b == front + back by {
        var k := |Records(s.delivered)|;
        assert s.committed[k..] == front + back && s1.committed[k..] == f + b;
      }
      if step.Begin? {
        assert Represents(s.ring, front + back) && Represents(s1.ring, front + back);
        ReserveRightIff(s.ring, front + back, step.fd, step.remote, step.mtype, step.n);
      } else {
        StaleBlock(s.ring, front, back, mark);
      }
    }
  }

  // ---- whole runs ----

  /** A run: every step is enabled and guarded, and leads to the next state. */
  predicate Execution(ss: seq<System>, steps: seq<Step>) {
    && |ss| == |steps| + 1
    && Initial(ss[0])
    && forall i :: 0 <= i < |steps| ==>
         && Enabled(ss[i], steps[i])
         && InBounds(ss[i], steps[i])
         && Guarded(ss[i], steps[i])
         && ss[i + 1] == Next(ss[i], steps[i])
  }

  lemma {:induction false} ExecutionInv(ss: seq<System>, steps: seq<Step>, k: nat)
    requires Execution(ss, steps) && k < |ss|
    ensures Inv(ss[k])
  {
    if k == 0 {
      InitialInv(ss[0]);
    } else {
      ExecutionInv(ss, steps, k - 1);
      StepInv(ss[k - 1], steps[k - 1]);
    }
  }

  /**
   * In every state of every run the committed records are the delivered ones, each to one
   * worker and in commit order, followed by exactly the records the ring stands for.
   */
  lemma DeliveredInCommitOrder(ss: seq<System>, steps: seq<Step>, k: nat)
    requires Execution(ss, steps) && k < |ss|
    ensures exists q :: Represents(ss[k].ring, q) && ss[k].committed == Records(ss[k].delivered) + q
  {
    ExecutionInv(ss, steps, k);
    var front, back, mark :| Layout(ss[k], front, back, mark);
    assert Represents(ss[k].ring, front + back);
  }

  /** A worker that looks and finds nothing has seen every committed record delivered. */
  lemma NothingFoundMeansAllDelivered(ss: seq<System>, steps: seq<Step>, k: nat)
    requires Execution(ss, steps) && k < |steps| && steps[k].Look?
    ensures ss[k + 1].consumer.Free? <==> ss[k].committed == Records(ss[k].delivered)
  {
    ExecutionInv(ss, steps, k);
    hide Flat, Header, Holds;
    var front, back, mark :| Layout(ss[k], front, back, mark);
    FrontFinds(ss[k].ring, front, back, mark);
    assert ss[k].committed == Records(ss[k].delivered) <==> front + back == [] by {
      assert |ss[k].committed| == |ss[k].delivered| + |front + back|;
    }
  }

  /**
   * While a worker holds a block, no producer step changes a byte of it, and no consumer
   * step ever writes into the buffer, so a reserved region keeps what the producer wrote.
   */
  lemma NoInterference(s: System, step: Step)
    requires Inv(s) && Enabled(s, step) && Guarded(s, step) && InBounds(s, step)
    ensures step.Look? || step.Take? ==> Next(s, step).ring.bytes == s.ring.bytes
    ensures s.consumer.Holding? && !step.Take? ==>
      && InBounds(Next(s, step), Take)
      && Next(s, step).ring.head == s.ring.head
      && InBounds(s, Take)
      && RecordAt(Next(s, step).ring.bytes, s.ring.head) == RecordAt(s.ring.bytes, s.ring.head)
  {
    hide Inv, Guarded, RecordAt, LenAt, DataLenAt;
    if s.consumer.Holding? && !step.Take? {
      StepInBounds(s, Take);
      StepInv(s, step);
      var s1 := Next(s, step);
      StepInBounds(s1, Take);
      NextDelivery(s);
      NextDelivery(s1);
    }
  }

  /** The block a worker holds is the oldest committed record not yet delivered. */
  lemma NextDelivery(s: System)
    requires Inv(s) && s.consumer.Holding? && InBounds(s, Take)
    ensures |s.delivered| < |s.committed|
    ensures RecordAt(s.ring.bytes, s.ring.head) == s.committed[|s.delivered|]
  {
    var front, back, mark :| Layout(s, front, back, mark);
    PopRemoves(s.ring, front, back, mark);
  }

  /**
   * A block pointer kept after the pop is not protected: once the producer goes back to
   * the start of the buffer, a worker reading there sees the header of the new message.
   */
  lemma LateReadSeesNewHeader(s: System, step: Step)
    requires Inv(s) && s.consumer.Holding? && InBounds(s, Take) && s.ring.head == 0
    requires step.Begin? && s.producer.Idle?
    requires var t := Next(s, Take); NeedsWrap(t.ring, step.n) && HEADER + step.n < t.ring.head
    ensures var t := Next(s, Take);
      && InBounds(t, step)
      && var u := Next(t, step);
         u.producer.Filling? && BlockInside(u.ring.bytes, 0)
         && var seen := RecordAt(u.ring.bytes, 0);
            seen.fd == step.fd && seen.remote == step.remote && seen.mtype == step.mtype && |seen.data| == step.n
  {
    hide Inv, RecordAt, BlockInside, Reserve, NeedsWrap;
    TakeInv(s, Take);
    AtStart(Next(s, Take), step);
  }

  /** A granted reservation at offset 0 shows its own header there. */
  lemma AtStart(t: System, step: Step)
    requires Inv(t) && Enabled(t, step) && step.Begin?
    requires NeedsWrap(t.ring, step.n) && HEADER + step.n < t.ring.head
    ensures InBounds(t, step)
    ensures var u := Next(t, step);
      && u.producer.Filling? && BlockInside(u.ring.bytes, 0)
      && var seen := RecordAt(u.ring.bytes, 0);
         seen.fd == step.fd && seen.remote == step.remote && seen.mtype == step.mtype && |seen.data| == step.n
  {
    hide Header, Flat, ToInt32;
    StepInBounds(t, step);
    var front, back, mark :| Layout(t, front, back, mark);
    ReserveKeeps(t.ring, front, back, mark, step.fd, step.remote, step.mtype, step.n);
    WrapKeeps(t.ring, front, back, mark, step.n);
    HeaderReadsBack(Next(t, step).ring.bytes, 0, step.fd, step.remote, step.mtype, step.n);
  }
}
