/**
 * The producer and the workers on one ring, with the reservation taken apart: each of its
 * tests is a step of its own, and workers take their turns between any two of them. While
 * it tests, a producer is idle as far as RingProtocol is concerned.
 */
module RingInterleaving {
  import opened Bytes
  import opened RingModel
  import opened RingSteps
  import P = RingProtocol

  /** The arguments of a reservation. */
  datatype Call = Call(fd: int32, remote: uint64, mtype: byte, n: nat)

  /** How far the reservation has come; `behind` is what the third test found. */
  datatype Producer =
    | Idle
    | Gapped(call: Call)
    | Wrapped(call: Call)
    | Tested(call: Call, behind: bool)
    | Filling(call: Call)

  datatype System = System(
    ring: Ring,
    producer: Producer,
    consumer: P.Consumer,
    committed: seq<Record>,
    delivered: seq<P.Delivery>)

  datatype Step =
    | TestGap(call: Call)
    | TestWrap
    | TestBehind
    | TestRoom
    | Put(offset: nat, value: byte)
    | End
    | Look(worker: nat)
    | Take

  function Coarse(s: System): P.System {
    var p := if s.producer.Filling?
             then P.Filling(s.producer.call.fd, s.producer.call.remote, s.producer.call.mtype, s.producer.call.n)
             else P.Idle;
    P.System(s.ring, p, s.consumer, s.committed, s.delivered)
  }

  predicate Testing(step: Step) {
    step.TestGap? || step.TestWrap? || step.TestBehind? || step.TestRoom?
  }

  function CoarseStep(step: Step): P.Step
    requires !Testing(step)
  {
    match step
    case Put(offset, value) => P.Put(offset, value)
    case End => P.End
    case Look(worker) => P.Look(worker)
    case Take => P.Take
  }

  /** The order of the calls and of the tests, and mutual exclusion of the workers. */
  predicate Enabled(s: System, step: Step) {
    match step
    case TestGap(_) => s.producer.Idle?
    case TestWrap => s.producer.Gapped?
    case TestBehind => s.producer.Wrapped?
    case TestRoom => s.producer.Tested?
    case _ => P.Enabled(Coarse(s), CoarseStep(step))
  }

  /** The last test: no room before `head`. */
  predicate Refuses(s: System)
    requires s.producer.Tested?
  {
    s.producer.behind && s.ring.tail + HEADER + s.producer.call.n >= s.ring.head
  }

  predicate InGap(r: Ring) {
    r.tail >= r.head && r.tail + HEADER > |r.bytes|
  }

  /** Every byte the step touches lies inside the buffer. */
  predicate InBounds(s: System, step: Step)
    requires Enabled(s, step)
  {
    && Sane(s.ring)
    && match step
       case TestGap(_) => true
       case TestWrap => NeedsWrap(s.ring, s.producer.call.n) ==> s.ring.tail + 5 <= |s.ring.bytes|
       case TestBehind => true
       case TestRoom => Refuses(s) || s.ring.tail + HEADER <= |s.ring.bytes|
       case _ => P.InBounds(Coarse(s), CoarseStep(step))
  }

  function Next(s: System, step: Step): System
    requires Enabled(s, step) && InBounds(s, step)
  {
    var (r, p) := (s.ring, s.producer);
    match step
    case TestGap(call) =>
      s.(ring := if InGap(r) then r.(tail := 0) else r, producer := Gapped(call))
    case TestWrap =>
      s.(ring := if NeedsWrap(r, p.call.n) then Ring(Splice(r.bytes, r.tail, Marker()), r.head, 0) else r,
         producer := Wrapped(p.call))
    case TestBehind =>
      s.(producer := Tested(p.call, r.tail < r.head))
    case TestRoom =>
      if Refuses(s) then s.(producer := Idle)
      else
        var h := Header(HEADER + p.call.n, p.call.fd, p.call.remote, p.call.mtype, p.call.n);
        s.(ring := r.(bytes := Splice(r.bytes, r.tail, h)), producer := Filling(p.call))
    case _ =>
      var t := P.Next(Coarse(s), CoarseStep(step));
      System(t.ring, if step.End? then Idle else p, t.consumer, t.committed, t.delivered)
  }

  /** What each step relies on, when it is taken. */
  predicate Guarded(s: System, step: Step)
    requires Enabled(s, step) && Sane(s.ring)
  {
    match step
    case TestGap(_) => InGap(s.ring) ==> 0 < s.ring.head
    case TestWrap =>
      NeedsWrap(s.ring, s.producer.call.n) ==>
        (0 < s.ring.head || s.ring.tail == 0) && s.ring.tail + 5 <= |s.ring.bytes|
    case TestRoom =>
      !s.producer.behind ==> s.ring.tail + HEADER + s.producer.call.n <= |s.ring.bytes|
    case Look(_) => FrontSafe(s.ring)
    case _ => true
  }

  /** A producer that was not behind the consumers does not come to be so while it tests. */
  ghost predicate Inv(s: System) {
    && P.Inv(Coarse(s))
    && (s.producer.Tested? && !s.producer.behind ==> s.ring.head <= s.ring.tail)
  }

  predicate Initial(s: System) {
    P.Initial(Coarse(s)) && s.producer.Idle?
  }

  lemma InitialInv(s: System)
    requires Initial(s)
    ensures Inv(s)
  {
    P.InitialInv(Coarse(s));
  }

  // ---- the tests ----

  /** Only the ring changed, and it stands for the same records. */
  lemma SameQueue(s: System, t: System, front: seq<Record>, back: seq<Record>, f: seq<Record>, b: seq<Record>, m: nat)
    requires s.committed == P.Records(s.delivered) + (front + back) && f + b == front + back
    requires t.committed == s.committed && t.delivered == s.delivered && !t.producer.Filling?
    requires Holds(t.ring, f, b, m) && (t.consumer.Holding? ==> f != [])
    ensures P.Inv(Coarse(t))
  {
    hide Holds;
    assert P.Layout(Coarse(t), f, b, m);
  }

  lemma GapInv(s: System, step: Step)
    requires step.TestGap? && Inv(s) && Enabled(s, step) && InBounds(s, step) && Guarded(s, step)
    ensures Inv(Next(s, step))
  {
    hide RecordBytes, ToInt32;
    var front, back, mark := P.Unfold(Coarse(s));
    var r := s.ring;
    if InGap(r) {
      assert Holds(r.(tail := 0), front, [], r.tail);
      SameQueue(s, Next(s, step), front, back, front, [], r.tail);
    } else {
      SameQueue(s, Next(s, step), front, back, front, back, mark);
    }
  }

  lemma WrapInv(s: System, step: Step)
    requires step.TestWrap? && Inv(s) && Enabled(s, step) && InBounds(s, step) && Guarded(s, step)
    ensures Inv(Next(s, step))
  {
    hide Flat, ToInt32, Marker;
    var front, back, mark := P.Unfold(Coarse(s));
    var (r, r1) := (s.ring, Next(s, step).ring);
    if NeedsWrap(r, s.producer.call.n) {
      hide Splice;
      MarkHolds(r, front, back, mark);
      SameQueue(s, Next(s, step), front, back, front, [], r.tail);
    } else {
      SameQueue(s, Next(s, step), front, back, front, back, mark);
    }
  }

  lemma RoomInv(s: System, step: Step)
    requires step.TestRoom? && Inv(s) && Enabled(s, step) && InBounds(s, step) && Guarded(s, step)
    ensures Inv(Next(s, step))
  {
    hide Flat, ToInt32, Header;
    var front, back, mark := P.Unfold(Coarse(s));
    var (r, t, c) := (s.ring, Next(s, step), s.producer.call);
    if !Refuses(s) {
      assert RegionFree(r, c.n);
      if r.tail == 0 {
        HeaderReadsBack(t.ring.bytes, 0, c.fd, c.remote, c.mtype, c.n);
      }
      RegionWrite(r, t.ring.bytes, front, back, mark, c.n);
      assert P.Layout(Coarse(t), front, back, mark);
    } else {
      SameQueue(s, t, front, back, front, back, mark);
    }
  }

  /** A worker goes back to the start of the buffer. */
  predicate Jumps(s: System, step: Step)
    requires Sane(s.ring)
  {
    step.Look? && Front(s.ring).ring.head != s.ring.head
  }

  /** Without a jump the head moves on and does not pass the tail. */
  lemma HeadMovesOn(s: System, step: Step)
    requires Inv(s) && Enabled(s, step) && InBounds(s, step) && (step.Look? || step.Take?)
    requires step.Look? ==> FrontSafe(s.ring)
    ensures var t := Next(s, step);
      && t.producer == s.producer && t.ring.bytes == s.ring.bytes && t.ring.tail == s.ring.tail
      && (!Jumps(s, step) ==> s.ring.head <= t.ring.head)
      && (s.ring.head <= s.ring.tail ==> t.ring.head <= s.ring.tail)
  {
    hide Flat, ToInt32, Header;
    var front, back, mark := P.Unfold(Coarse(s));
    if step.Look? {
      FrontFinds(s.ring, front, back, mark);
    } else {
      PopRemoves(s.ring, front, back, mark);
    }
  }

  lemma OtherInv(s: System, step: Step)
    requires !Testing(step) && Inv(s) && Enabled(s, step) && InBounds(s, step) && Guarded(s, step)
    ensures Inv(Next(s, step))
  {
    hide P.Inv, FrontSafe;
    P.StepInv(Coarse(s), CoarseStep(step));
    if s.producer.Tested? && !s.producer.behind {
      HeadMovesOn(s, step);
    }
    assert Coarse(Next(s, step)) == P.Next(Coarse(s), CoarseStep(step));
  }

  /** Every guarded step stays inside the buffer and keeps the invariant. */
  lemma StepInv(s: System, step: Step)
    requires Inv(s) && Enabled(s, step) && Sane(s.ring) && Guarded(s, step)
    ensures InBounds(s, step) && Inv(Next(s, step))
  {
    hide P.Inv, FrontSafe;
    if !Testing(step) {
      P.StepInBounds(Coarse(s), CoarseStep(step));
    }
    match step {
      case TestGap(_) => GapInv(s, step);
      case TestWrap => WrapInv(s, step);
      case TestBehind =>
        assert Coarse(Next(s, step)) == Coarse(s);
      case TestRoom => RoomInv(s, step);
      case _ => OtherInv(s, step);
    }
  }

  // ---- the guards are exact ----

  /** Two rings that stand for the queue of one moment stand for the same records. */
  lemma QueueOf(s: System) returns (q: seq<Record>)
    requires P.Inv(Coarse(s))
    ensures Represents(s.ring, q) && s.committed == P.Records(s.delivered) + q
  {
    var front, back, mark := P.Unfold(Coarse(s));
    q := front + back;
  }

  lemma SameRest(s: System, t: System, q: seq<Record>, q': seq<Record>)
    requires s.committed == P.Records(s.delivered) + q && t.committed == P.Records(t.delivered) + q'
    requires s.committed == t.committed && s.delivered == t.delivered
    ensures q == q'
  {
    var k := |P.Records(s.delivered)|;
    assert s.committed[k..] == q && t.committed[k..] == q';
  }

  lemma UnguardedTest(s: System, step: Step)
    requires Inv(s) && Enabled(s, step) && Sane(s.ring) && !Guarded(s, step) && InBounds(s, step)
    requires step.TestGap? || step.TestWrap?
    ensures !Inv(Next(s, step))
  {
    hide P.Inv, Represents, Splice, Marker;
    var (r, t) := (s.ring, Next(s, step));
    var q := QueueOf(s);
    assert 0 == r.head < r.tail && t.ring.head == t.ring.tail == 0;
    if Inv(t) {
      var q' := QueueOf(t);
      SameRest(s, t, q, q');
      QueuedBytes(r, q);
      QueuedBytes(t.ring, q');
    }
  }

  /** The guards are exact: a step is safe in memory and keeps the invariant if and only if it is guarded. */
  lemma GuardsAreExact(s: System, step: Step)
    requires Inv(s) && Enabled(s, step)
    ensures Sane(s.ring)
    ensures InBounds(s, step) && Inv(Next(s, step)) <==> Guarded(s, step)
  {
    hide P.Inv, FrontSafe;
    var q := QueueOf(s);
    assert Sane(s.ring) by { RepresentsSane(s.ring, q); }
    if Guarded(s, step) {
      StepInv(s, step);
    } else if InBounds(s, step) {
      if step.TestGap? || step.TestWrap? {
        UnguardedTest(s, step);
      } else if step.TestRoom? {
        if Inv(Next(s, step)) {
          NoRegion(s, step);
        }
      } else {
        P.GuardsAreExact(Coarse(s), CoarseStep(step));
        assert Coarse(Next(s, step)) == P.Next(Coarse(s), CoarseStep(step));
      }
    }
  }

  lemma RepresentsSane(r: Ring, q: seq<Record>)
    requires Represents(r, q)
    ensures Sane(r)
  {
  }

  lemma NoRegion(s: System, step: Step)
    requires step.TestRoom? && Enabled(s, step) && Sane(s.ring) && InBounds(s, step) && !Guarded(s, step)
    ensures !Inv(Next(s, step))
  {
    hide Header, Splice;
    if Inv(Next(s, step)) {
      var front, back, mark := P.Unfold(Coarse(Next(s, step)));
    }
  }

  // ---- whole runs ----

  /** A run: every step is enabled and guarded, and leads to the next state. */
  ghost predicate Execution(ss: seq<System>, steps: seq<Step>) {
    && |ss| == |steps| + 1
    && Initial(ss[0])
    && forall i :: 0 <= i < |steps| ==>
         && Enabled(ss[i], steps[i])
         && InBounds(ss[i], steps[i])
         && Guarded(ss[i], steps[i])
         && ss[i + 1] == Next(ss[i], steps[i])
  }

  lemma {:induction false} ExecutionInv(ss: seq<System>, steps: seq<Step>, k: nat)
    requires Execution(ss, steps) && k < |ss|
    ensures Inv(ss[k])
  {
    hide Inv, Enabled, Guarded, Next;
    if k == 0 {
      InitialInv(ss[0]);
    } else {
      ExecutionInv(ss, steps, k - 1);
      var (s, step) := (ss[k - 1], steps[k - 1]);
      assert Enabled(s, step) && InBounds(s, step) && Guarded(s, step) && ss[k] == Next(s, step);
      StepInv(s, step);
    }
  }

  /** In every state of every run the committed records are the delivered and then the queued ones. */
  lemma DeliveredInCommitOrder(ss: seq<System>, steps: seq<Step>, k: nat)
    requires Execution(ss, steps) && k < |ss|
    ensures exists q :: Represents(ss[k].ring, q) && ss[k].committed == P.Records(ss[k].delivered) + q
  {
    hide Represents, Execution;
    ExecutionInv(ss, steps, k);
    var q := QueueOf(ss[k]);
  }

  // ---- what the callers can see to ----

  /** What the tests that are done have found is still so. */
  predicate Settled(s: System) {
    match s.producer
    case Gapped(call) => NeedsWrap(s.ring, call.n) ==> 0 < s.ring.head && s.ring.tail + HEADER <= |s.ring.bytes|
    case Wrapped(call) => s.ring.head <= s.ring.tail ==> s.ring.tail + HEADER + call.n <= |s.ring.bytes|
    case Tested(call, behind) => !behind ==> s.ring.tail + HEADER + call.n <= |s.ring.bytes|
    case _ => true
  }

  /** The guards of one atomic reservation and one look, and no jump while a reservation is tested. */
  predicate Careful(s: System, step: Step)
    requires Sane(s.ring)
  {
    match step
    case TestGap(call) => WrapSafe(s.ring, call.n)
    case Look(_) => FrontSafe(s.ring) && (s.producer.Idle? || s.producer.Filling? || !Jumps(s, step))
    case _ => true
  }

  /**
   * The unlocked tests need no guard of their own: if a reservation begins where the atomic
   * one is safe and no worker goes back to the start before it is through, every test is
   * guarded, whatever turns the workers take in between.
   */
  lemma CarefulIsGuarded(s: System, step: Step)
    requires Inv(s) && Settled(s) && Enabled(s, step) && Sane(s.ring) && Careful(s, step)
    ensures Guarded(s, step) && InBounds(s, step)
    ensures Settled(Next(s, step))
  {
    hide P.Inv, FrontSafe, Represents, P.InBounds, P.Next;
    assert Guarded(s, step);
    StepInv(s, step);
    if step.Look? || step.Take? {
      WorkersSettled(s, step);
    }
  }

  lemma WorkersSettled(s: System, step: Step)
    requires Inv(s) && Settled(s) && Enabled(s, step) && InBounds(s, step) && (step.Look? || step.Take?)
    requires step.Look? ==> FrontSafe(s.ring) && (s.producer.Idle? || s.producer.Filling? || !Jumps(s, step))
    ensures Settled(Next(s, step))
  {
    hide P.Inv;
    HeadMovesOn(s, step);
  }

  lemma {:induction false} CarefulRuns(ss: seq<System>, steps: seq<Step>, k: nat)
    requires |ss| == |steps| + 1 && Initial(ss[0]) && k < |ss|
    requires forall i :: 0 <= i < |steps| ==>
      && Enabled(ss[i], steps[i]) && Sane(ss[i].ring) && Careful(ss[i], steps[i])
      && (InBounds(ss[i], steps[i]) ==> ss[i + 1] == Next(ss[i], steps[i]))
    ensures Inv(ss[k]) && Settled(ss[k])
    ensures forall i :: 0 <= i < k ==> InBounds(ss[i], steps[i]) && Guarded(ss[i], steps[i])
  {
    hide Inv, Enabled, Guarded, InBounds, Next, Settled, Careful;
    if k == 0 {
      InitialInv(ss[0]);
      assert Settled(ss[0]) by { Unsettled(ss[0]); }
    } else {
      CarefulRuns(ss, steps, k - 1);
      var (s, step) := (ss[k - 1], steps[k - 1]);
      assert Enabled(s, step) && Careful(s, step);
      CarefulIsGuarded(s, step);
      StepInv(s, step);
    }
  }

  lemma Unsettled(s: System)
    requires s.producer.Idle?
    ensures Settled(s)
  {
  }

  // ---- what the tests find ----

  /** The reservation of `call`, all four tests at once. */
  function AllTests(s: System, call: Call): (t: System)
    requires s.producer.Idle? && Sane(s.ring)
  {
    var s1 := Next(s, TestGap(call));
    var s2 := Next(s1, TestWrap);
    var s3 := Next(s2, TestBehind);
    Next(s3, TestRoom)
  }

  /** With no worker in between, the tests are the atomic reservation: the ring, and where the payload goes. */
  lemma TestsAreReserve(s: System, call: Call)
    requires s.producer.Idle? && Sane(s.ring)
    ensures var (t, o) := (AllTests(s, call), Reserve(s.ring, call.fd, call.remote, call.mtype, call.n));
      && t.ring == o.ring
      && t.producer == (if o.slot.Some? then Filling(call) else Idle)
      && (o.slot.Some? ==> o.slot.value == t.ring.tail + HEADER)
      && t.consumer == s.consumer && t.committed == s.committed && t.delivered == s.delivered
  {
    hide Header, Marker, Splice;
  }

  /**
   * With workers in between: the reservation that began its third test in state `s` ends in
   * a granted region if and only if the tail was not behind the head then, or 22 bytes and
   * the message end before the head now.
   */
  lemma GrantedIff(s: System, t: System)
    requires Enabled(s, TestBehind) && InBounds(s, TestBehind)
    requires t.producer == Next(s, TestBehind).producer && InBounds(t, TestRoom)
    ensures Next(t, TestRoom).producer.Filling? <==>
      s.ring.head <= s.ring.tail || t.ring.tail + 22 + s.producer.call.n < t.ring.head
    ensures !Next(t, TestRoom).producer.Filling? ==> Next(t, TestRoom) == t.(producer := Idle)
  {
    hide Header, Splice;
  }
}
