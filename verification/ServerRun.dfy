/**
 * Runs of the receiving side: chunks of one connection arrive and are drained into the
 * queue by RecvMsg, records of other connections are pushed in between, and workers take
 * the oldest record, in any order of events.
 */
module ServerRuns {
  import opened Bytes
  import opened Framing
  import opened RingModel
  import opened RingSteps
  import opened RingRuns
  import opened NetMessages

  /** The connection that is watched, and the receiver's length limit. */
  datatype Watched = Watched(fd: int32, mtype: byte, max: nat)

  /** `rest` is what the connection's read buffer holds; `received` and `delivered` are the past. */
  datatype Server = Server(ring: Ring, rest: seq<byte>, received: seq<byte>, delivered: seq<Record>)

  datatype Event = Arrive(chunk: seq<byte>) | Other(record: Record) | Deliver

  /** The assert of the worker on the block it looks at: header and payload, within the limit. */
  predicate WithinLimit(r: Ring, max: nat)
    requires TakeInside(r)
  {
    var o := Front(r);
    o.block.Some? ==> LenAt(o.ring.bytes, o.block.value) <= max
  }

  predicate Enabled(s: Server, e: Event, w: Watched) {
    match e
    case Arrive(chunk) => SafeAll(s.ring, s.rest + chunk, w.fd, w.mtype, w.max)
    case Other(record) => record.fd != w.fd && Sane(s.ring) && WrapSafe(s.ring, |record.data|)
    case Deliver => TakeInside(s.ring) && FrontSafe(s.ring) && WithinLimit(s.ring, w.max)
  }

  function Next(s: Server, e: Event, w: Watched): Server
    requires Enabled(s, e, w)
  {
    match e
    case Arrive(chunk) =>
      var d := TakeAll(s.ring, s.rest + chunk, w.fd, w.mtype, w.max);
      Server(d.ring, d.rest, s.received + chunk, s.delivered)
    case Other(record) => s.(ring := PushTo(s.ring, record).0)
    case Deliver =>
      var (ring, out) := TakeFrom(s.ring);
      s.(ring := ring, delivered := s.delivered + if out.Got? then [out.record] else [])
  }

  /** The records of the watched connection among `rs`, in order. */
  function Of(rs: seq<Record>, fd: int32): seq<Record> {
    if rs == [] then [] else (if rs[0].fd == fd then [rs[0]] else []) + Of(rs[1..], fd)
  }

  lemma {:induction false} OfAppend(a: seq<Record>, b: seq<Record>, fd: int32)
    ensures Of(a + b, fd) == Of(a, fd) + Of(b, fd)
  {
    if a == [] {
      assert a + b == b;
    } else {
      var x := if a[0].fd == fd then [a[0]] else [];
      assert Of(a + b, fd) == x + (Of(a[1..], fd) + Of(b, fd)) by {
        OfAppend(a[1..], b, fd);
        assert (a + b)[1..] == a[1..] + b && (a + b)[0] == a[0];
      }
      Assoc(x, Of(a[1..], fd), Of(b, fd));
    }
  }

  lemma {:induction false} OfMessages(frames: seq<seq<byte>>, fd: int32, mtype: byte)
    ensures Of(Messages(frames, fd, mtype), fd) == Messages(frames, fd, mtype)
  {
    var m := Messages(frames, fd, mtype);
    if frames != [] {
      OfMessages(frames[1..], fd, mtype);
      assert m[1..] == Messages(frames[1..], fd, mtype);
      assert m == [m[0]] + m[1..];
    }
  }

  /**
   * `frames` have been cut so far: what was delivered and what is queued of the connection
   * are those frames, and the buffered bytes parse to the frames still to come.
   */
  ghost predicate Accounts(s: Server, w: Watched, frames: seq<seq<byte>>, q: seq<Record>) {
    && Represents(s.ring, q)
    && Of(s.delivered + q, w.fd) == Messages(frames, w.fd, w.mtype)
    && (forall i :: 0 <= i < |s.delivered| ==> HEADER + |s.delivered[i].data| <= w.max)
    && s.received == Concat(frames) + s.rest
    && var p := Parse(s.rest, w.max); Parse(s.received, w.max) == Parsed(frames + p.frames, p.rest)
  }

  ghost predicate Inv(s: Server, w: Watched) {
    exists frames, q :: Accounts(s, w, frames, q)
  }

  predicate Initial(s: Server) {
    && HEADER <= |s.ring.bytes| < 0x8000_0000 && s.ring.head == s.ring.tail == 0
    && s.rest == [] && s.received == [] && s.delivered == []
  }

  lemma InitialInv(s: Server, w: Watched)
    requires Initial(s)
    ensures Inv(s, w)
  {
    hide Represents, Parse;
    EmptyRing(s.ring);
    ConcatNone();
    assert [] + Parse([], w.max).frames == Parse([], w.max).frames;
    assert Messages([], w.fd, w.mtype) == [];
    assert Accounts(s, w, [], []);
  }

  lemma ArriveInv(s: Server, e: Event, w: Watched)
    requires Inv(s, w) && e.Arrive? && Enabled(s, e, w)
    ensures Inv(Next(s, e, w), w)
  {
    hide Represents, SafeAll, TakeAll, NextCut, Parse, Concat, CutsTo, Of, Messages, Stops;
    var frames, q :| Accounts(s, w, frames, q);
    var b := s.rest + e.chunk;
    TakeAllRefines(s.ring, q, b, w.fd, w.mtype, w.max);
    var d := TakeAll(s.ring, b, w.fd, w.mtype, w.max);
    var p := Parse(d.rest, w.max);
    CutsArePrefix(b, d.frames, d.rest, w.max);
    ParseAfterMore(s.received, frames, s.rest, e.chunk, w.max);
    ConcatAppend(frames, d.frames);
    Assoc(Concat(frames), s.rest, e.chunk);
    Assoc(Concat(frames), Concat(d.frames), d.rest);
    Assoc(frames, d.frames, p.frames);
    var more := Messages(d.frames, w.fd, w.mtype);
    Assoc(s.delivered, q, more);
    OfAppend(s.delivered + q, more, w.fd);
    OfMessages(d.frames, w.fd, w.mtype);
    MessagesAppend(frames, d.frames, w.fd, w.mtype);
    assert Accounts(Next(s, e, w), w, frames + d.frames, q + more);
  }

  lemma MessagesAppend(a: seq<seq<byte>>, b: seq<seq<byte>>, fd: int32, mtype: byte)
    ensures Messages(a + b, fd, mtype) == Messages(a, fd, mtype) + Messages(b, fd, mtype)
  {
  }

  lemma OtherInv(s: Server, e: Event, w: Watched)
    requires Inv(s, w) && e.Other? && Enabled(s, e, w)
    ensures Inv(Next(s, e, w), w)
  {
    hide Represents, Parse, Concat, Reserve, Messages, WrapSafe;
    var frames, q :| Accounts(s, w, frames, q);
    PushRefinesFifo(s.ring, q, e.record);
    Assoc(s.delivered, q, [e.record]);
    OfAppend(s.delivered + q, [e.record], w.fd);
    assert [e.record][1..] == [] && Of([e.record], w.fd) == [];
    Assoc(Of(s.delivered + q, w.fd), [], []);
    var q' := if PushTo(s.ring, e.record).1 == Accepted then q + [e.record] else q;
    assert Accounts(Next(s, e, w), w, frames, q');
  }

  lemma DeliverInv(s: Server, e: Event, w: Watched)
    requires Inv(s, w) && e.Deliver? && Enabled(s, e, w)
    ensures Inv(Next(s, e, w), w)
  {
    hide Represents, Parse, Concat, TakeFrom, Messages, Of, TakeInside, WithinLimit;
    var frames, q :| Accounts(s, w, frames, q);
    TakeRefinesFifo(s.ring, q);
    LimitOfOldest(s.ring, q, w.max);
    if q == [] {
      assert s.delivered + [] == s.delivered;
      assert Accounts(Next(s, e, w), w, frames, []);
    } else {
      assert q == [q[0]] + q[1..];
      Assoc(s.delivered, [q[0]], q[1..]);
      assert Accounts(Next(s, e, w), w, frames, q[1..]);
    }
  }

  /** The limit is one on the oldest record. */
  lemma LimitOfOldest(r: Ring, q: seq<Record>, max: nat)
    requires Represents(r, q) && FrontSafe(r) && TakeInside(r)
    ensures q != [] ==> (WithinLimit(r, max) <==> HEADER + |q[0].data| <= max)
  {
    hide RecordAt, LenAt, DataLenAt, Represents;
    FrontRightIff(r, q);
  }

  predicate Run(ss: seq<Server>, es: seq<Event>, w: Watched) {
    && |ss| == |es| + 1
    && Initial(ss[0])
    && forall i :: 0 <= i < |es| ==> Enabled(ss[i], es[i], w) && ss[i + 1] == Next(ss[i], es[i], w)
  }

  lemma {:induction false} RunInv(ss: seq<Server>, es: seq<Event>, w: Watched, k: nat)
    requires Run(ss, es, w) && k < |ss|
    ensures Inv(ss[k], w)
  {
    hide Inv, Enabled, Next;
    if k == 0 {
      InitialInv(ss[0], w);
    } else {
      RunInv(ss, es, w, k - 1);
      match es[k - 1] {
        case Arrive(_) => ArriveInv(ss[k - 1], es[k - 1], w);
        case Other(_) => OtherInv(ss[k - 1], es[k - 1], w);
        case Deliver => DeliverInv(ss[k - 1], es[k - 1], w);
      }
    }
  }

  /** The queue is empty and no complete frame is waiting in the read buffer. */
  predicate CaughtUp(s: Server, w: Watched) {
    s.ring.head == s.ring.tail && !NextCut(s.rest, w.max).Frame?
  }

  lemma EmptyAtTail(r: Ring, q: seq<Record>)
    requires Represents(r, q) && r.head == r.tail
    ensures q == []
  {
    var front, back, mark: nat :| Holds(r, front, back, mark) && q == front + back;
    FlatEmpty(front);
    assert |r.bytes[r.head..r.tail]| == 0;
  }

  /**
   * In every state of every run, with frames refused or not: the workers have been handed
   * the first frames of the one-shot parse of all that has arrived, each once and in order;
   * and when the server has caught up they have been handed all of them, and exactly the
   * parser's remainder is buffered. None of them was too long for the worker.
   */
  lemma DeliveredIsParsed(ss: seq<Server>, es: seq<Event>, w: Watched, k: nat)
    requires Run(ss, es, w) && k < |ss|
    ensures var p := Parse(ss[k].received, w.max);
      && Of(ss[k].delivered, w.fd) <= Messages(p.frames, w.fd, w.mtype)
      && (CaughtUp(ss[k], w) ==>
            Of(ss[k].delivered, w.fd) == Messages(p.frames, w.fd, w.mtype) && ss[k].rest == p.rest)
    ensures forall i :: 0 <= i < |ss[k].delivered| ==> HEADER + |ss[k].delivered[i].data| <= w.max
  {
    hide Represents, Parse, Concat, Of, Messages, NextCut;
    RunInv(ss, es, w, k);
    var s := ss[k];
    var frames, q :| Accounts(s, w, frames, q);
    var more := Parse(s.rest, w.max).frames;
    OfAppend(s.delivered, q, w.fd);
    MessagesAppend(frames, more, w.fd, w.mtype);
    assert Messages(frames, w.fd, w.mtype) == Of(s.delivered, w.fd) + Of(q, w.fd);
    if CaughtUp(s, w) {
      EmptyAtTail(s.ring, q);
      ParseStop(s.rest, w.max);
      Assoc(s.delivered, [], []);
      Assoc(frames, [], []);
    }
  }

  /**
   * Two runs that have received the same bytes and caught up have delivered the same, and
   * hold back the same bytes, however the stream was split, whatever was refused on the
   * way, whatever the size of the queue and whatever came from other connections.
   */
  lemma DeliveryIndependent(ss: seq<Server>, es: seq<Event>, tt: seq<Server>, fs: seq<Event>, w: Watched)
    requires Run(ss, es, w) && Run(tt, fs, w)
    requires var (s, t) := (ss[|es|], tt[|fs|]); s.received == t.received && CaughtUp(s, w) && CaughtUp(t, w)
    ensures Of(ss[|es|].delivered, w.fd) == Of(tt[|fs|].delivered, w.fd) && ss[|es|].rest == tt[|fs|].rest
  {
    DeliveredIsParsed(ss, es, w, |es|);
    DeliveredIsParsed(tt, fs, w, |fs|);
  }

  /** One frame arrives at an empty queue with room, and is handed over. */
  lemma OneFrameArrives(size: nat, frame: seq<byte>, w: Watched) returns (ss: seq<Server>)
    requires 22 + |frame| <= size < 0x8000_0000 && 22 + |frame| <= w.max
    requires 4 <= |frame| && FromBE(frame[..4]) == |frame|
    ensures Run(ss, [Arrive(frame), Deliver], w) && |ss| == 3 && |ss[0].ring.bytes| == size
    ensures ss[2].delivered == [Record(w.fd, 0, w.mtype, frame)] && CaughtUp(ss[2], w)
  {
    hide Represents, FromBE, PushTo, TakeFrom, TakeInside, SafeAll, TakeAll;
    var s0 := Server(Ring(seq(size, _ => 0), 0, 0), [], [], []);
    assert [] + frame == frame;
    EmptyRing(s0.ring);
    OneCut(s0.ring, frame, w);
    var s1 := Next(s0, Arrive(frame), w);
    var rec := Record(w.fd, 0, w.mtype, frame);
    TakeRefinesFifo(s1.ring, [rec]);
    LimitOfOldest(s1.ring, [rec], w.max);
    var s2 := Next(s1, Deliver, w);
    LastTaken(s1.ring, rec);
    ss := [s0, s1, s2];
  }

  lemma OneCut(r: Ring, frame: seq<byte>, w: Watched)
    requires Represents(r, []) && r.head == r.tail == 0 && 22 + |frame| <= |r.bytes|
    requires 4 <= |frame| <= w.max && FromBE(frame[..4]) == |frame|
    ensures SafeAll(r, frame, w.fd, w.mtype, w.max)
    ensures var d := TakeAll(r, frame, w.fd, w.mtype, w.max);
      && d.rest == [] && Represents(d.ring, [Record(w.fd, 0, w.mtype, frame)])
      && d.ring.head == 0 && d.ring.tail == 22 + |frame| && |d.ring.bytes| == |r.bytes|
  {
    hide FromBE, Header, Splice;
    assert NextCut(frame, w.max) == Frame(|frame|);
    TakeOneRefines(r, [], frame, w.fd, w.mtype, w.max);
    assert frame[..|frame|] == frame && frame[|frame|..] == [];
    assert [] + [Record(w.fd, 0, w.mtype, frame)] == [Record(w.fd, 0, w.mtype, frame)];
  }

  lemma LastTaken(r: Ring, rec: Record)
    requires Represents(r, [rec]) && r.head == 0 && r.tail == 22 + |rec.data|
    ensures TakeInside(r) && TakeFrom(r).0 == r.(head := r.tail)
  {
    hide Flat, ToInt32, Header;
    var front, back, mark: nat :| Holds(r, front, back, mark) && [rec] == front + back;
    assert front == [rec] == front + [] && back == [];
    FrontFinds(r, front, back, mark);
    PopRemoves(r, front, back, mark);
  }
}
