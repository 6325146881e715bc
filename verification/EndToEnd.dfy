/**
 * From RPC calls on one side to decoded calls in the workers' hands on the other: encoder,
 * send path, any split of the stream, receive loop, ring queue and the worker's copy.
 */
module EndToEnd {
  import opened Bytes
  import opened Framing
  import opened RpcCodec
  import Ring = RingModel
  import NetMessages
  import Send = SendPath
  import P = RingProtocol
  import Server = ServerRuns
  import Steps = ServerSteps

  datatype Call = Call(ret: uint32, name: seq<byte>, payload: seq<byte>)

  /** A call the encoder accepts and the receiver's limit lets through. */
  predicate Encodable(c: Call, max: nat) {
    |c.name| <= MAX_NAME && 12 + |c.name| + |c.payload| <= max
  }

  predicate AllEncodable(cs: seq<Call>, max: nat) {
    max < 0x8000_0000 && forall i :: 0 <= i < |cs| ==> Encodable(cs[i], max)
  }

  function Wire(cs: seq<Call>, max: nat): (w: seq<seq<byte>>)
    requires AllEncodable(cs, max)
    ensures |w| == |cs|
  {
    if cs == [] then [] else [Pack(cs[0].ret, cs[0].name, cs[0].payload)] + Wire(cs[1..], max)
  }

  lemma {:induction false} WireAt(cs: seq<Call>, max: nat, i: nat)
    requires AllEncodable(cs, max) && i < |cs|
    ensures Wire(cs, max)[i] == Pack(cs[i].ret, cs[i].name, cs[i].payload)
  {
    hide Pack;
    if i != 0 {
      WireAt(cs[1..], max, i - 1);
    }
  }

  /** A packed call at the front of a stream is cut off whole. */
  lemma PackIsOneFrame(c: Call, rest: seq<byte>, max: nat)
    requires Encodable(c, max) && max < 0x8000_0000
    ensures var p := Pack(c.ret, c.name, c.payload);
      NextCut(p + rest, max) == Frame(|p|)
  {
    hide Pack, FromBE;
    PackFields(c.ret, c.name, c.payload);
    var p := Pack(c.ret, c.name, c.payload);
    assert (p + rest)[..4] == p[0..4];
  }

  lemma {:induction false} ParseWire(cs: seq<Call>, max: nat)
    requires AllEncodable(cs, max)
    ensures Parse(Concat(Wire(cs, max)), max) == Parsed(Wire(cs, max), [])
    decreases |cs|
  {
    hide Pack, NextCut, Parse;
    if cs == [] {
      assert Concat(Wire(cs, max)) == [];
      EmptyWaits(max);
      ParseStop([], max);
    } else {
      var (p, rest) := (Pack(cs[0].ret, cs[0].name, cs[0].payload), Wire(cs[1..], max));
      PackIsOneFrame(cs[0], Concat(rest), max);
      ConcatCons(p, rest);
      ParseStep(p + Concat(rest), max);
      assert (p + Concat(rest))[..|p|] == p && (p + Concat(rest))[|p|..] == Concat(rest);
      ParseWire(cs[1..], max);
    }
  }

  lemma EmptyWaits(max: nat)
    ensures !NextCut([], max).Frame?
  {
  }

  /** The receiver decodes frame `i` to call `i`. */
  predicate DecodesTo(frame: seq<byte>, c: Call) {
    var d := Decode(frame);
    d.Accepted? && d.ret == c.ret && d.name == c.name && Payload(frame, d) == c.payload
  }

  lemma WireDecodes(cs: seq<Call>, max: nat)
    requires AllEncodable(cs, max)
    ensures forall i :: 0 <= i < |cs| ==> DecodesTo(Wire(cs, max)[i], cs[i])
  {
    hide Pack, Decode, Payload;
    forall i | 0 <= i < |cs| ensures DecodesTo(Wire(cs, max)[i], cs[i]) {
      WireAt(cs, max, i);
      RoundTripIff(cs[i].ret, cs[i].name, cs[i].payload);
    }
  }

  /** However the stream is split, the parser gets exactly the calls, in order, and nothing is left. */
  lemma CallsParseIntact(cs: seq<Call>, chunks: seq<seq<byte>>, max: nat)
    requires AllEncodable(cs, max) && Concat(chunks) == Concat(Wire(cs, max))
    ensures var p := Feed([], chunks, max);
      && p.rest == [] && |p.frames| == |cs|
      && forall i :: 0 <= i < |cs| ==> DecodesTo(p.frames[i], cs[i])
  {
    hide Wire, Parse, Feed, DecodesTo;
    ChunksDoNotMatter(chunks, chunks, max);
    ParseWire(cs, max);
    WireDecodes(cs, max);
  }

  /** Under backpressure the frames delivered so far are the first calls, none lost or repeated. */
  lemma DeliveredAreFirstCalls(cs: seq<Call>, arrivals: seq<Arrival>, max: nat)
    requires AllEncodable(cs, max) && ArrivalRun(arrivals, max) && Received(arrivals) == Concat(Wire(cs, max))
    ensures var f := Delivered(arrivals);
      && |f| <= |cs|
      && (forall i :: 0 <= i < |f| ==> DecodesTo(f[i], cs[i]))
      && Parse(Buffered(arrivals), max) == Parsed(Wire(cs, max)[|f|..], [])
  {
    hide Wire, Parse, DecodesTo, ArrivalRun, Received, Delivered, Buffered;
    NothingLostUnderBackpressure(arrivals, max);
    ParseWire(cs, max);
    WireDecodes(cs, max);
    var (f, p) := (Delivered(arrivals), Parse(Buffered(arrivals), max));
    assert Wire(cs, max) == f + p.frames;
    assert forall i :: 0 <= i < |f| ==> (f + p.frames)[i] == f[i];
  }

  /** From any prefix of the stream the receiver cuts the first calls. */
  lemma PrefixParses(cs: seq<Call>, s: seq<byte>, max: nat)
    requires AllEncodable(cs, max) && s <= Concat(Wire(cs, max))
    ensures Parse(s, max).frames <= Wire(cs, max)
  {
    hide Wire, Parse, AllEncodable;
    var all := Concat(Wire(cs, max));
    ParseWire(cs, max);
    ParseAppend(s, all[|s|..], max);
    assert s + all[|s|..] == all;
  }

  lemma SentIsPrefix(conns: seq<Send.Conn>, scripts: seq<seq<Send.SendOutcome>>, events: seq<Send.Event>)
    requires Send.Run(conns, scripts, events)
    ensures conns[|events|].wire <= Send.AllWritten(events)
  {
    Send.SendStreamConserved(conns, scripts, events);
    hide Send.Run, Send.AllWritten;
  }

  /**
   * At any moment of any run of the sender, open or failed, whatever part of the sent
   * bytes has been parsed: the frames are the first calls.
   */
  lemma SentCallsParseInOrder(conns: seq<Send.Conn>, scripts: seq<seq<Send.SendOutcome>>, events: seq<Send.Event>,
                              cs: seq<Call>, chunks: seq<seq<byte>>, max: nat)
    requires Send.Run(conns, scripts, events) && AllEncodable(cs, max)
    requires Send.AllWritten(events) == Concat(Wire(cs, max))
    requires Concat(chunks) <= conns[|events|].wire
    ensures var f := Feed([], chunks, max).frames;
      && |f| <= |cs|
      && (forall i :: 0 <= i < |f| ==> DecodesTo(f[i], cs[i]))
    ensures Concat(chunks) == Concat(Wire(cs, max)) ==> |Feed([], chunks, max).frames| == |cs|
  {
    hide Wire, Parse, DecodesTo, Feed, Send.Step, Send.AllWritten, AllEncodable, Concat;
    SentIsPrefix(conns, scripts, events);
    PrefixParses(cs, Concat(chunks), max);
    ParseWire(cs, max);
    WireDecodes(cs, max);
    ChunksDoNotMatter(chunks, chunks, max);
  }

  // ---- up to the workers ----

  /** The copy a worker makes under the lock is read back as the record it was made from. */
  lemma CopyReadsBack(rec: Ring.Record)
    requires Ring.HEADER + |rec.data| < 0x8000_0000
    ensures var s := Ring.RecordBytes(rec);
      Ring.DataLenAt(s, 0) == |rec.data| && Ring.RecordAt(s, 0) == rec
  {
    hide Ring.Header;
    var s := Ring.RecordBytes(rec);
    Ring.FlatOne(rec);
    assert s[0..|s|] == s;
    Ring.FirstReadsBack(s, 0, |s|, [rec]);
  }

  /** What a worker finds in its copy of the block decodes to the call. */
  predicate HandsOver(rec: Ring.Record, c: Call, w: Server.Watched) {
    rec.fd == w.fd && rec.mtype == w.mtype && DecodesTo(rec.data, c)
  }

  /** A worker can take the packed call: with the header of the block it is within the limit. */
  predicate FitsWorker(c: Call, max: nat) {
    Ring.HEADER + 12 + |c.name| + |c.payload| <= max
  }

  /** Records that are the first frames of what has arrived are the first calls. */
  lemma FirstCalls(cs: seq<Call>, f: seq<Ring.Record>, received: seq<byte>, w: Server.Watched)
    requires AllEncodable(cs, w.max) && received <= Concat(Wire(cs, w.max))
    requires f <= NetMessages.Messages(Parse(received, w.max).frames, w.fd, w.mtype)
    ensures |f| <= |cs|
    ensures forall i :: 0 <= i < |f| ==>
      HandsOver(f[i], cs[i], w) && |f[i].data| == 12 + |cs[i].name| + |cs[i].payload|
  {
    hide Wire, Parse, DecodesTo, Concat, Pack;
    var p := Parse(received, w.max);
    PrefixParses(cs, received, w.max);
    WireDecodes(cs, w.max);
    var m := NetMessages.Messages(p.frames, w.fd, w.mtype);
    forall i | 0 <= i < |f|
      ensures HandsOver(f[i], cs[i], w) && |f[i].data| == 12 + |cs[i].name| + |cs[i].payload|
    {
      assert f[i] == m[i] && p.frames[i] == Wire(cs, w.max)[i];
      WireAt(cs, w.max, i);
    }
  }

  lemma AllCalls(cs: seq<Call>, f: seq<Ring.Record>, w: Server.Watched)
    requires AllEncodable(cs, w.max)
    requires f == NetMessages.Messages(Parse(Concat(Wire(cs, w.max)), w.max).frames, w.fd, w.mtype)
    ensures |f| == |cs| && Parse(Concat(Wire(cs, w.max)), w.max).rest == []
  {
    hide Wire, Parse, Concat;
    ParseWire(cs, w.max);
  }

  /** The records of one connection are among those handed over. */
  lemma {:induction false} OfAmong(rs: seq<Ring.Record>, fd: int32)
    ensures forall x :: x in Server.Of(rs, fd) ==> x in rs
  {
    if rs != [] {
      OfAmong(rs[1..], fd);
    }
  }

  lemma OfWithin(rs: seq<Ring.Record>, fd: int32, max: nat)
    requires forall i :: 0 <= i < |rs| ==> Ring.HEADER + |rs[i].data| <= max
    ensures forall i :: 0 <= i < |Server.Of(rs, fd)| ==> Ring.HEADER + |Server.Of(rs, fd)[i].data| <= max
  {
    OfAmong(rs, fd);
    forall i | 0 <= i < |Server.Of(rs, fd)| ensures Ring.HEADER + |Server.Of(rs, fd)[i].data| <= max {
      assert Server.Of(rs, fd)[i] in rs;
    }
  }

  /**
   * In every state of every run of the receiving side the workers have been handed the
   * first calls, each once and in order, all of a length the worker can take; when the
   * whole stream has arrived and the server has caught up they have been handed all of
   * them, and nothing is left in the buffer.
   */
  lemma CallsArriveIntact(cs: seq<Call>, ss: seq<Server.Server>, es: seq<Server.Event>, w: Server.Watched, k: nat)
    requires AllEncodable(cs, w.max) && Server.Run(ss, es, w) && k < |ss|
    requires ss[k].received <= Concat(Wire(cs, w.max))
    ensures var f := Server.Of(ss[k].delivered, w.fd);
      && |f| <= |cs|
      && (forall i :: 0 <= i < |f| ==> HandsOver(f[i], cs[i], w) && FitsWorker(cs[i], w.max))
      && (Server.CaughtUp(ss[k], w) && ss[k].received == Concat(Wire(cs, w.max)) ==>
            |f| == |cs| && ss[k].rest == [])
  {
    hide Wire, Parse, HandsOver, Server.Run, Server.CaughtUp, Server.Of, AllEncodable, Concat;
    var s := ss[k];
    var f := Server.Of(s.delivered, w.fd);
    Server.DeliveredIsParsed(ss, es, w, k);
    FirstCalls(cs, f, s.received, w);
    OfWithin(s.delivered, w.fd, w.max);
    if Server.CaughtUp(s, w) && s.received == Concat(Wire(cs, w.max)) {
      AllCalls(cs, f, w);
    }
  }

  /**
   * The same with every test, copied byte, commit and worker's turn a step of its own, in
   * any interleaving.
   */
  lemma CallsHandedOver(cs: seq<Call>, ss: seq<Steps.Stage>, acts: seq<Steps.Act>, w: Server.Watched, k: nat)
    requires AllEncodable(cs, w.max) && Steps.StepRun(ss, acts, w) && k < |ss|
    requires ss[k].received <= Concat(Wire(cs, w.max))
    ensures var f := Server.Of(P.Records(ss[k].sys.delivered), w.fd);
      && |f| <= |cs|
      && (forall i :: 0 <= i < |f| ==> HandsOver(f[i], cs[i], w) && FitsWorker(cs[i], w.max))
      && (Steps.Done(ss[k], w) && ss[k].received == Concat(Wire(cs, w.max)) ==>
            |f| == |cs| && ss[k].rest == [])
  {
    hide Wire, Parse, HandsOver, Steps.StepRun, Steps.Done, Server.Of, AllEncodable, Concat;
    var s := ss[k];
    var f := Server.Of(P.Records(s.sys.delivered), w.fd);
    Steps.HandedOverIsParsed(ss, acts, w, k);
    FirstCalls(cs, f, s.received, w);
    OfWithin(P.Records(s.sys.delivered), w.fd, w.max);
    if Steps.Done(s, w) && s.received == Concat(Wire(cs, w.max)) {
      AllCalls(cs, f, w);
    }
  }

  /** A call that is too long for the worker, though not for the network thread, is never handed over. */
  lemma LongCallStops(cs: seq<Call>, ss: seq<Steps.Stage>, acts: seq<Steps.Act>, w: Server.Watched, k: nat, i: nat)
    requires AllEncodable(cs, w.max) && Steps.StepRun(ss, acts, w) && k < |ss|
    requires ss[k].received <= Concat(Wire(cs, w.max))
    requires i < |cs| && 22 + 12 + |cs[i].name| + |cs[i].payload| > w.max
    ensures |Server.Of(P.Records(ss[k].sys.delivered), w.fd)| <= i
  {
    hide Wire, HandsOver, Steps.StepRun, Steps.Done, Server.Of, AllEncodable, Concat;
    CallsHandedOver(cs, ss, acts, w, k);
  }

  /**
   * The whole path: at any moment of any run of the sender, open or failed, and of any
   * interleaving on the receiving side, which has got some of the sent bytes in whatever
   * chunks.
   */
  lemma SentCallsReachWorkers(conns: seq<Send.Conn>, scripts: seq<seq<Send.SendOutcome>>, events: seq<Send.Event>,
                              cs: seq<Call>, ss: seq<Steps.Stage>, acts: seq<Steps.Act>, w: Server.Watched, k: nat)
    requires Send.Run(conns, scripts, events) && AllEncodable(cs, w.max)
    requires Send.AllWritten(events) == Concat(Wire(cs, w.max))
    requires Steps.StepRun(ss, acts, w) && k < |ss| && ss[k].received <= conns[|events|].wire
    ensures var f := Server.Of(P.Records(ss[k].sys.delivered), w.fd);
      && |f| <= |cs|
      && (forall i :: 0 <= i < |f| ==> HandsOver(f[i], cs[i], w) && FitsWorker(cs[i], w.max))
      && (Steps.Done(ss[k], w) && ss[k].received == Send.AllWritten(events) ==> |f| == |cs|)
  {
    hide Wire, Steps.StepRun, Steps.Done, Server.Of, Send.Step, Send.AllWritten, AllEncodable, Concat, HandsOver;
    hide FitsWorker;
    SentIsPrefix(conns, scripts, events);
    CallsHandedOver(cs, ss, acts, w, k);
  }

  /** The calls that are cut as one frame and decoded whole are exactly the encodable ones. */
  lemma EncodableIff(c: Call, max: nat)
    requires max < 0x8000_0000 && 12 + |c.name| + |c.payload| < 0x8000_0000
    ensures var p := Pack(c.ret, c.name, c.payload);
      (NextCut(p, max) == Frame(|p|) && DecodesTo(p, c)) <==> |c.name| <= 244 && |p| <= max
    ensures Encodable(c, max) <==> |c.name| <= 244 && 12 + |c.name| + |c.payload| <= max
  {
    hide Pack, FromBE, Decode, Payload;
    var p := Pack(c.ret, c.name, c.payload);
    RoundTripIff(c.ret, c.name, c.payload);
    PackFields(c.ret, c.name, c.payload);
    assert p[..4] == p[0..4];
  }
}
