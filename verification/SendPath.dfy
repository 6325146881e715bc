/** The TCP send path: a socket that takes what it likes, and the buffer for the rest. */
module SendPath {
  import opened Bytes
  import opened BlockPools
  import opened BlockBuffers
  import opened BlockChains
  import opened Overlays

  // ---- the stream of one connection ----

  /**
   * What has gone out, what waits in the send buffer, whether the write watcher is armed,
   * and everything the callers have asked to be written. A connection is closed once a
   * call has failed, or has not returned when the observation ends.
   */
  datatype Conn = Conn(wire: seq<byte>, pending: seq<byte>, armed: bool, written: seq<byte>, open: bool)

  datatype Outcome = Done | Fatal | Blocked

  datatype Event = Write(data: seq<byte>) | Writable

  /** The write-ready callback: some of the pending bytes go out; all of them when it returns 0. */
  ghost predicate FlushStep(c: Conn, c': Conn, res: Outcome) {
    exists k: nat :: FlushedBy(c, c', res, k)
  }

  predicate FlushedBy(c: Conn, c': Conn, res: Outcome, k: nat) {
    && k <= |c.pending|
    && c' == Conn(c.wire + c.pending[..k], c.pending[k..], c.armed, c.written, c.open && res == Done)
    && (res == Done ==> k == |c.pending|)
  }

  /** A write: the pending bytes first, then the new ones; what is left waits and arms the watcher. */
  ghost predicate WriteStep(c: Conn, data: seq<byte>, c': Conn, res: Outcome) {
    exists k: nat :: WrittenBy(c, data, c', res, k)
  }

  predicate WrittenBy(c: Conn, data: seq<byte>, c': Conn, res: Outcome, k: nat) {
    && k <= |c.pending + data|
    && c'.wire == c.wire + (c.pending + data)[..k]
    && c'.written == c.written + data
    && c'.open == (c.open && res == Done)
    && (res == Done ==>
          && |c.pending| <= k
          && c'.pending == (c.pending + data)[k..]
          && c'.armed == (c'.pending != []))
  }

  ghost predicate Step(c: Conn, e: Event, c': Conn, res: Outcome) {
    match e
    case Write(data) => WriteStep(c, data, c', res)
    case Writable => FlushStep(c, c', res)
  }

  /** What one call of send may do: take some bytes, be interrupted, find no room, or fail. */
  datatype SendOutcome = Sent(n: nat) | Interrupted | WouldBlock | Broken

  predicate Later(was: seq<SendOutcome>, now: seq<SendOutcome>) {
    |now| <= |was| && now == was[|was| - |now|..]
  }

  /** The socket's answers between two moments. */
  function Used(was: seq<SendOutcome>, now: seq<SendOutcome>): (u: seq<SendOutcome>)
    requires Later(was, now)
    ensures was == u + now
  {
    was[..|was| - |now|]
  }

  /**
   * How a call ends, by the answers it got: it fails exactly when the last of them is a
   * broken connection, none before that was, and it is left waiting only when there are no
   * more answers.
   */
  predicate Told(was: seq<SendOutcome>, now: seq<SendOutcome>, res: Outcome) {
    && Later(was, now)
    && var u := Used(was, now);
       && (forall i :: 0 <= i < |u| - 1 ==> u[i] != Broken)
       && (res == Fatal <==> u != [] && u[|u| - 1] == Broken)
       && (res == Blocked ==> now == [])
  }

  lemma ToldNothing(s: seq<SendOutcome>)
    ensures Told(s, s, Done)
  {
  }

  /** One call after another: the first one has not failed. */
  lemma ToldTwice(a: seq<SendOutcome>, b: seq<SendOutcome>, c: seq<SendOutcome>, res: Outcome)
    requires Told(a, b, Done) && Told(b, c, res)
    ensures Told(a, c, res)
  {
    UsedTwice(a, b, c);
    hide Used;
    var (u, v) := (Used(a, b), Used(b, c));
    assert u != [] ==> u[|u| - 1] != Broken;
  }

  lemma UsedTwice(a: seq<SendOutcome>, b: seq<SendOutcome>, c: seq<SendOutcome>)
    requires Later(a, b) && Later(b, c)
    ensures Later(a, c) && Used(a, c) == Used(a, b) + Used(b, c)
  {
    var (i, j) := (|a| - |b|, |a| - |c|);
    assert b[|b| - |c|..] == a[i..][|b| - |c|..] == a[j..];
    assert Used(b, c) == a[i..][..j - i] == a[i..j];
    assert a[..j] == a[..i] + a[i..j];
  }

  /** Nothing is lost, repeated or reordered, and pending bytes keep the watcher armed. */
  ghost predicate Conserved(c: Conn) {
    if c.open then c.wire + c.pending == c.written && (c.pending != [] ==> c.armed)
    else c.wire <= c.written
  }

  lemma FlushConserves(c: Conn, c': Conn, res: Outcome, k: nat)
    requires c.open && Conserved(c) && FlushedBy(c, c', res, k)
    ensures Conserved(c')
  {
    assert c.pending == c.pending[..k] + c.pending[k..];
    assert c'.wire + c'.pending == c.written;
  }

  lemma WriteConserves(c: Conn, data: seq<byte>, c': Conn, res: Outcome, k: nat)
    requires c.open && Conserved(c) && WrittenBy(c, data, c', res, k)
    ensures Conserved(c')
  {
    var all := c.pending + data;
    assert all == all[..k] + all[k..];
    assert c.wire + all == c'.written;
    assert c.wire + all == c'.wire + all[k..];
  }

  lemma StepConserves(c: Conn, e: Event, c': Conn, res: Outcome)
    requires c.open && Conserved(c) && Step(c, e, c', res)
    ensures Conserved(c') && c'.open == (res == Done)
  {
    match e
    case Write(data) =>
      var k: nat :| WrittenBy(c, data, c', res, k);
      WriteConserves(c, data, c', res, k);
    case Writable =>
      var k: nat :| FlushedBy(c, c', res, k);
      FlushConserves(c, c', res, k);
  }

  ghost predicate OneStep(c: Conn, script: seq<SendOutcome>, e: Event, c': Conn, script': seq<SendOutcome>) {
    exists res :: Step(c, e, c', res) && Told(script, script', res)
  }

  /** What a run has kept so far. */
  ghost predicate Kept(c: Conn, was: seq<SendOutcome>, now: seq<SendOutcome>, written: seq<byte>) {
    && Conserved(c) && c.written == written
    && if c.open then Told(was, now, Done) else ClosedFor(was, now)
  }

  lemma OneStepKeeps(c: Conn, was: seq<SendOutcome>, script: seq<SendOutcome>, written: seq<byte>,
                     e: Event, c': Conn, script': seq<SendOutcome>)
    requires c.open && Kept(c, was, script, written) && OneStep(c, script, e, c', script')
    ensures Kept(c', was, script', written + match e case Write(data) => data case Writable => [])
  {
    hide Told, ClosedFor, Step, Conserved;
    var res :| Step(c, e, c', res) && Told(script, script', res);
    StepConserves(c, e, c', res);
    StepWrites(c, e, c', res);
    ToldTwice(was, script, script', res);
    ToldCloses(was, script', res);
  }

  /** A run, with the answers the socket has left at each moment. */
  ghost predicate Run(cs: seq<Conn>, scripts: seq<seq<SendOutcome>>, es: seq<Event>) {
    && |cs| == |scripts| == |es| + 1
    && cs[0] == Conn([], [], cs[0].armed, [], true)
    && forall i | 0 <= i < |es| :: cs[i].open && OneStep(cs[i], scripts[i], es[i], cs[i + 1], scripts[i + 1])
  }

  function AllWritten(es: seq<Event>): seq<byte> {
    if es == [] then []
    else AllWritten(es[..|es| - 1]) + match es[|es| - 1] case Write(data) => data case Writable => []
  }

  /** Why a connection is closed: the last answer was a broken connection, or there is none left. */
  predicate ClosedFor(was: seq<SendOutcome>, now: seq<SendOutcome>) {
    Later(was, now) && ((Used(was, now) != [] && Used(was, now)[|Used(was, now)| - 1] == Broken) || now == [])
  }

  /**
   * Over every run of writes and write-ready callbacks, whatever the socket takes: bytes
   * sent followed by bytes pending are the written data in order, and after a failure
   * what was sent is a prefix of it; an open connection with pending bytes is armed. A
   * connection is open as long as no answer was a broken connection, and is closed only by
   * such an answer or when no answer is left.
   */
  lemma SendStreamConserved(cs: seq<Conn>, scripts: seq<seq<SendOutcome>>, es: seq<Event>)
    requires Run(cs, scripts, es)
    ensures var c := cs[|es|];
      && Conserved(c)
      && c.written == AllWritten(es)
      && (c.open ==> Told(scripts[0], scripts[|es|], Done))
      && (!c.open ==> ClosedFor(scripts[0], scripts[|es|]))
  {
    assert Kept(cs[|es|], scripts[0], scripts[|es|], AllWritten(es)) by {
      RunKeeps(cs, scripts, es);
    }
  }

  lemma {:induction false} RunKeeps(cs: seq<Conn>, scripts: seq<seq<SendOutcome>>, es: seq<Event>)
    requires Run(cs, scripts, es)
    ensures Kept(cs[|es|], scripts[0], scripts[|es|], AllWritten(es))
    decreases |es|
  {
    if es == [] {
      ToldNothing(scripts[0]);
    } else {
      hide Kept, OneStep;
      var k := |es| - 1;
      assert Run(cs[..k + 1], scripts[..k + 1], es[..k]);
      RunKeeps(cs[..k + 1], scripts[..k + 1], es[..k]);
      OneStepKeeps(cs[k], scripts[0], scripts[k], AllWritten(es[..k]), es[k], cs[k + 1], scripts[k + 1]);
    }
  }

  lemma StepWrites(c: Conn, e: Event, c': Conn, res: Outcome)
    requires Step(c, e, c', res)
    ensures c'.written == c.written + match e case Write(data) => data case Writable => []
  {
    if e.Writable? {
      assert c.written + [] == c.written;
    }
  }

  lemma ToldCloses(was: seq<SendOutcome>, now: seq<SendOutcome>, res: Outcome)
    requires Told(was, now, res)
    ensures res != Done ==> ClosedFor(was, now)
  {
  }

  // ---- the code ----

  datatype SendResult = Bytes(n: nat) | Again(interrupted: bool) | Error | Unanswered

  /** The result of a call is the next answer of the socket. */
  predicate Answered(was: seq<SendOutcome>, now: seq<SendOutcome>, r: SendResult) {
    if r.Unanswered? then was == now == []
    else
      && was != [] && now == was[1..]
      && (r.Error? <==> was[0] == Broken)
      && (r.Bytes? <==> was[0].Sent?)
      && (r.Again? ==> (r.interrupted <==> was[0] == Interrupted))
  }

  /** One more answer, which was not a broken connection, or was. */
  lemma ToldMore(was: seq<SendOutcome>, s: seq<SendOutcome>, now: seq<SendOutcome>, r: SendResult)
    requires Told(was, s, Done) && Answered(s, now, r)
    ensures r.Unanswered? ==> Told(was, now, Blocked)
    ensures r.Error? ==> Told(was, now, Fatal)
    ensures r.Bytes? || r.Again? ==> Told(was, now, Done)
    ensures r.Again? && !r.interrupted ==> LastIs(was, now, WouldBlock)
    ensures r.Bytes? || (r.Again? && r.interrupted) ==> !LastIs(was, now, WouldBlock)
  {
    if !r.Unanswered? {
      UsedMore(was, s);
      hide Used;
    }
  }

  lemma UsedMore(was: seq<SendOutcome>, s: seq<SendOutcome>)
    requires Later(was, s) && s != []
    ensures Later(was, s[1..]) && Used(was, s[1..]) == Used(was, s) + [s[0]]
  {
    var u := Used(was, s);
    assert was == u + s;
    assert s == [s[0]] + s[1..];
    assert was == (u + [s[0]]) + s[1..];
  }

  /** The peer's side of a connection; the script is any finite schedule of outcomes. */
  class Socket {
    var script: seq<SendOutcome>
    var wire: seq<byte>

    constructor (script: seq<SendOutcome>)
      ensures this.script == script && wire == []
    {
      this.script := script;
      wire := [];
    }

    method Send(data: seq<byte>) returns (r: SendResult)
      modifies this
      ensures Answered(old(script), script, r)
      ensures if r.Bytes? then r.n <= |data| && wire == old(wire) + data[..r.n] else wire == old(wire)
    {
      if script == [] {
        return Unanswered;
      }
      var o := script[0];
      script := script[1..];
      match o
      case Sent(n) =>
        var k := Min(n, |data|);
        wire := wire + data[..k];
        r := Bytes(k);
      case Interrupted => r := Again(true);
      case WouldBlock => r := Again(false);
      case Broken => r := Error;
    }
  }

  class BufferEventEv {
    const sock: Socket
    const sendBuffer: BlockBuffer
    var armed: bool
    ghost var written: seq<byte>
    ghost var open: bool

    ghost predicate Valid()
      reads this, sendBuffer, sendBuffer.mgr, sendBuffer.mgr.free, sendBuffer.Blocks()
      reads set b | b in sendBuffer.Chain :: b.buffer
    {
      sendBuffer.Valid()
    }

    ghost function View(): Conn
      reads this, sock, sendBuffer`Parts
    {
      Conn(sock.wire, sendBuffer.Contents(), armed, written, open)
    }

    constructor (sock: Socket, mgr: BufferBlockMgr)
      requires mgr.Valid() && sock.wire == []
      ensures Valid() && this.sock == sock && sendBuffer.mgr == mgr && fresh(sendBuffer)
      ensures View() == Conn([], [], false, [], true)
    {
      this.sock := sock;
      sendBuffer := new BlockBuffer(mgr);
      armed := false;
      written := [];
      open := true;
    }

    /** One turn of the inner loop: send, and take what was sent out of the buffer. */
    method SendAndMove(data: seq<byte>) returns (r: SendResult)
      requires Valid() && |data| <= |sendBuffer.Contents()| && data == sendBuffer.Contents()[..|data|]
      modifies sock, sendBuffer, sendBuffer.mgr, sendBuffer.Blocks()
      ensures Valid() && sendBuffer.Left()
      ensures Answered(old(sock.script), sock.script, r)
      ensures if r.Bytes? then r.n <= |data| && Progressed(old(View()), View(), r.n) else View() == old(View())
    {
      hide BlockBuffer.Valid, BlockBuffer.Contents, Overlay, Splice, Freed, Released;
      sendBuffer.ValidOwns();
      sendBuffer.NothingLeft();
      r := sock.Send(data);
      var len := 0;
      if r.Bytes? {
        len := r.n;
      } else if !(r.Again? && r.interrupted) {
        return;
      }
      var moved := sendBuffer.Move(null, 0, len);
    }

    /** The inner loop of FlushSendBuffer: send from one place in memory, moving the buffer along. */
    method SendHead(buffer: array<byte>, pos: nat, bufferlen: nat) returns (res: Outcome, ghost k: nat)
      requires Valid() && 0 < bufferlen && pos + bufferlen <= buffer.Length && bufferlen <= |sendBuffer.Contents()|
      requires buffer[pos..pos + bufferlen] == sendBuffer.Contents()[..bufferlen]
      modifies sock, sendBuffer, sendBuffer.mgr, sendBuffer.Blocks()
      ensures Valid() && sendBuffer.Left()
      ensures |sock.script| <= |old(sock.script)| && (res == Done ==> |sock.script| < |old(sock.script)|)
      ensures Progressed(old(View()), View(), k)
      ensures Told(old(sock.script), sock.script, res)
      ensures res == Done ==> k == bufferlen || LastIs(old(sock.script), sock.script, WouldBlock)
    {
      hide BlockBuffer.Valid, BlockBuffer.Contents, Freed, Told, LastIs;
      ghost var c := View();
      ToldNothing(sock.script);
      sendBuffer.ValidOwns();
      sendBuffer.NothingLeft();
      var sendbytes: nat := 0;
      while sendbytes < bufferlen
        invariant Valid() && sendBuffer.Left()
        invariant sendbytes <= bufferlen && Progressed(c, View(), sendbytes)
        invariant buffer[pos..pos + bufferlen] == c.pending[..bufferlen]
        invariant Told(old(sock.script), sock.script, Done)
        invariant |sock.script| <= |old(sock.script)|
        invariant sendbytes == 0 || |sock.script| < |old(sock.script)|
        decreases |sock.script|
      {
        ghost var c1 := View();
        ghost var (free, issued, own) := (sendBuffer.mgr.free, sendBuffer.mgr.issued, sendBuffer.Blocks());
        StillAtHead(buffer[..], pos, bufferlen, c, c1, sendbytes);
        ghost var script := sock.script;
        var r := SendAndMove(buffer[pos + sendbytes..pos + bufferlen]);
        ToldMore(old(sock.script), script, sock.script, r);
        FreedTrans(old(sendBuffer.mgr.free), old(sendBuffer.mgr.issued), old(sendBuffer.Blocks()),
                   free, issued, own, sendBuffer.mgr.free, sendBuffer.mgr.issued, sendBuffer.Blocks());
        if r.Unanswered? {
          return Blocked, sendbytes;
        }
        if r.Error? {
          return Fatal, sendbytes;
        }
        if r.Again? && !r.interrupted {
          break;
        }
        if r.Bytes? {
          ProgressedMore(c, c1, sendbytes, r.n);
          sendbytes := sendbytes + r.n;
        }
      }
      return Done, sendbytes;
    }

    /** One turn of the outer loop: send what lies in the head block. */
    method FlushTurn() returns (res: Outcome, ghost k: nat)
      requires Valid() && 0 < |sendBuffer.Contents()|
      modifies sock, sendBuffer, sendBuffer.mgr, sendBuffer.Blocks()
      ensures Valid() && sendBuffer.Left()
      ensures |sock.script| <= |old(sock.script)| && (res == Done ==> |sock.script| < |old(sock.script)|)
      ensures Progressed(old(View()), View(), k)
      ensures Told(old(sock.script), sock.script, res)
    {
      hide BlockBuffer.Valid, BlockBuffer.Contents, Freed, Progressed, Told;
      var buffer, pos, bufferlen := sendBuffer.GetBufferToRead();
      assert buffer != null && bufferlen > 0;
      res, k := SendHead(buffer, pos, bufferlen);
    }

    /** Returns 0 (Done) only with an empty buffer: the break on a full socket leaves the inner loop alone. */
    method FlushSendBuffer() returns (res: Outcome)
      requires Valid() && open
      modifies sock, sendBuffer, sendBuffer.mgr, sendBuffer.Blocks(), this`open
      ensures Valid() && sendBuffer.Left()
      ensures FlushStep(old(View()), View(), res)
      ensures |sock.script| <= |old(sock.script)|
      ensures Told(old(sock.script), sock.script, res)
    {
      hide BlockBuffer.Valid, BlockBuffer.Contents, Freed, Progressed, FlushedBy, SetOf, Told;
      ToldNothing(sock.script);
      ghost var c := View();
      ghost var sent: nat := 0;
      NoneYet(c);
      sendBuffer.ValidOwns();
      sendBuffer.NothingLeft();
      var total := sendBuffer.GetTotalLen();
      while total > 0
        invariant Valid() && open && sendBuffer.Left() && total == |sendBuffer.Contents()|
        invariant Progressed(c, View(), sent)
        invariant Told(old(sock.script), sock.script, Done)
        invariant |sock.script| <= |old(sock.script)|
        decreases |sock.script|
      {
        ghost var c1 := View();
        ghost var (free, issued, own) := (sendBuffer.mgr.free, sendBuffer.mgr.issued, sendBuffer.Blocks());
        ghost var (k, script) := (0, sock.script);
        res, k := FlushTurn();
        ToldTwice(old(sock.script), script, sock.script, res);
        FreedTrans(old(sendBuffer.mgr.free), old(sendBuffer.mgr.issued), old(sendBuffer.Blocks()),
                   free, issued, own, sendBuffer.mgr.free, sendBuffer.mgr.issued, sendBuffer.Blocks());
        ProgressedTwice(c, c1, View(), sent, k);
        sent := sent + k;
        if res != Done {
          FlushEnds(c, View(), res, sent);
          open := false;
          return;
        }
        total := sendBuffer.GetTotalLen();
      }
      res := Done;
      FlushEnds(c, View(), Done, sent);
    }

    /** The second loop of sendTcpData: offer the caller's bytes to the socket directly. */
    method SendDirect(data: seq<byte>) returns (res: Outcome, sendbytes: nat)
      modifies sock
      ensures sendbytes <= |data| && sock.wire == old(sock.wire) + data[..sendbytes]
      ensures |sock.script| <= |old(sock.script)|
      ensures Told(old(sock.script), sock.script, res)
      ensures res == Done ==> (sendbytes < |data| <==> LastIs(old(sock.script), sock.script, WouldBlock))
    {
      hide Told, LastIs;
      ToldNothing(sock.script);
      NoAnswer(sock.script);
      sendbytes := 0;
      while sendbytes < |data|
        invariant sendbytes <= |data| && sock.wire == old(sock.wire) + data[..sendbytes]
        invariant |sock.script| <= |old(sock.script)|
        invariant Told(old(sock.script), sock.script, Done)
        invariant !LastIs(old(sock.script), sock.script, WouldBlock)
        decreases |sock.script|
      {
        ghost var script := sock.script;
        var r := sock.Send(data[sendbytes..]);
        ToldMore(old(sock.script), script, sock.script, r);
        if r.Unanswered? {
          return Blocked, sendbytes;
        }
        if r.Error? {
          return Fatal, sendbytes;
        }
        if r.Again? && !r.interrupted {
          break;
        }
        if r.Bytes? {
          assert data[..sendbytes] + data[sendbytes..][..r.n] == data[..sendbytes + r.n];
          sendbytes := sendbytes + r.n;
        }
      }
      res := Done;
    }

    /** sendTcpData behind the flush: send directly, and keep what the socket did not take. */
    method SendNew(data: seq<byte>) returns (res: Outcome, ghost n: nat)
      requires Valid() && sendBuffer.Contents() == []
      modifies this`armed, this`open, sock, sendBuffer, sendBuffer.mgr
      modifies Footprint(sendBuffer.Blocks()), Footprint(sendBuffer.mgr.free)
      ensures Valid() && sendBuffer.Accounted()
      ensures NewBy(old(View()), data, View(), res, n)
      ensures Told(old(sock.script), sock.script, res)
      ensures res == Done ==> (n < |data| <==> LastIs(old(sock.script), sock.script, WouldBlock))
    {
      hide BlockBuffer.Valid, BlockBuffer.Contents, Moved, SetOf, Told, LastIs;
      sendBuffer.ValidOwns();
      sendBuffer.NothingMoved();
      var sendbytes;
      res, sendbytes := SendDirect(data);
      n := sendbytes;
      if res != Done {
        open := false;
        return;
      }
      if sendbytes < |data| {
        KeepForLater(data[sendbytes..]);
      }
    }

    method SendTcpData(data: seq<byte>) returns (res: Outcome)
      requires Valid() && open
      modifies this, sock, sendBuffer, sendBuffer.mgr
      modifies Footprint(sendBuffer.Blocks()), Footprint(sendBuffer.mgr.free)
      ensures Valid() && sendBuffer.Accounted()
      ensures WriteStep(old(View()), data, View(), res)
      ensures Told(old(sock.script), sock.script, res)
    {
      hide BlockBuffer.Valid, BlockBuffer.Contents, Moved, Freed, FlushedBy, WrittenBy, NewBy, Told, LastIs;
      ghost var c := View();
      res := FlushSendBuffer();
      sendBuffer.LeftAccounted();
      ghost var c1 := View();
      ghost var k: nat :| FlushedBy(c, c1, res, k);
      written := written + data;
      if res != Done {
        FlushFailed(c, data, c1, res, k);
        return;
      }
      FlushDone(c, c1, k);
      var total := sendBuffer.GetTotalLen();
      if total > 0 {
        assert false;
      } else if armed {
        armed := false;
      }
      ghost var (free, issued, own) := (sendBuffer.mgr.free, sendBuffer.mgr.issued, sendBuffer.Blocks());
      FreedWithin(old(sendBuffer.mgr.free), old(sendBuffer.mgr.issued), old(sendBuffer.Blocks()), free, issued, own);
      ghost var (c2, n, script) := (View(), 0, sock.script);
      res, n := SendNew(data);
      ToldTwice(old(sock.script), script, sock.script, res);
      sendBuffer.LeftThenAccounted(free, issued, own);
      SentDirectly(c, data, c2, View(), res, n);
    }

    /** Insert what the socket did not take, and start the write watcher. */
    method KeepForLater(rest: seq<byte>)
      requires Valid() && sendBuffer.Contents() == []
      modifies this`armed, sendBuffer, sendBuffer.mgr
      modifies Footprint(sendBuffer.Blocks()), Footprint(sendBuffer.mgr.free)
      ensures Valid() && sendBuffer.Accounted()
      ensures View() == old(View()).(pending := rest, armed := true)
    {
      hide BlockBuffer.Valid, BlockBuffer.Contents, Moved;
      sendBuffer.Insert(rest);
      EmptyBefore(rest);
      armed := true;
    }
  }

  /** The last answer between two moments. */
  predicate LastIs(was: seq<SendOutcome>, now: seq<SendOutcome>, o: SendOutcome) {
    Later(was, now) && Used(was, now) != [] && Used(was, now)[|Used(was, now)| - 1] == o
  }

  lemma NoAnswer(s: seq<SendOutcome>)
    ensures !LastIs(s, s, WouldBlock)
  {
  }

  lemma EmptyBefore(t: seq<byte>)
    ensures [] + t == t
  {
  }

  lemma FreedWithin(free0: set<Block>, issued0: set<Block>, own0: set<Block>,
                    free1: set<Block>, issued1: set<Block>, own1: set<Block>)
    requires Freed(free0, issued0, own0, free1, issued1, own1)
    ensures Footprint(own1) <= Footprint(own0)
    ensures Footprint(free1) <= Footprint(free0) + Footprint(own0)
  {
  }

  lemma FlushFailed(c: Conn, data: seq<byte>, c1: Conn, res: Outcome, k: nat)
    requires FlushedBy(c, c1, res, k) && res != Done
    ensures WriteStep(c, data, c1.(written := c1.written + data), res)
  {
    assert (c.pending + data)[..k] == c.pending[..k];
    assert WrittenBy(c, data, c1.(written := c1.written + data), res, k);
  }

  lemma FlushDone(c: Conn, c1: Conn, k: nat)
    requires FlushedBy(c, c1, Done, k)
    ensures c1 == Conn(c.wire + c.pending, [], c.armed, c.written, c.open)
  {
  }

  /** With nothing pending, `n` bytes of the data went out, and the rest waits unless the socket failed. */
  predicate NewBy(c: Conn, data: seq<byte>, c': Conn, res: Outcome, n: nat) {
    && n <= |data|
    && var c1 := c.(wire := c.wire + data[..n]);
       c' == if res != Done then c1.(open := false)
             else if n < |data| then c1.(pending := data[n..], armed := true)
             else c1
  }

  /** After the flush: the step is complete, whatever is left being kept for later. */
  lemma SentDirectly(c: Conn, data: seq<byte>, c1: Conn, c2: Conn, res: Outcome, n: nat)
    requires c.open && c1 == Conn(c.wire + c.pending, [], false, c.written + data, c.open)
    requires NewBy(c1, data, c2, res, n)
    ensures WriteStep(c, data, c2, res)
  {
    WireAfter(c, data, n);
    assert WrittenBy(c, data, c2, res, |c.pending| + n);
  }

  lemma WireAfter(c: Conn, data: seq<byte>, n: nat)
    requires n <= |data|
    ensures c.wire + c.pending + data[..n] == c.wire + (c.pending + data)[..|c.pending| + n]
    ensures data[n..] == (c.pending + data)[|c.pending| + n..]
  {
  }

  /** The bytes at the cached address plus `s` are the unread bytes of the buffer. */
  lemma StillAtHead(memory: seq<byte>, pos: nat, n: nat, c: Conn, c1: Conn, s: nat)
    requires s <= n && pos + n <= |memory| && n <= |c.pending|
    requires memory[pos..pos + n] == c.pending[..n] && Progressed(c, c1, s)
    ensures n - s <= |c1.pending| && memory[pos + s..pos + n] == c1.pending[..n - s]
  {
    SliceOfSlice(memory, pos, pos + n, s, n);
    assert c.pending[..n][s..n] == c.pending[s..][..n - s];
  }

  lemma ProgressedMore(c: Conn, c1: Conn, s: nat, n: nat)
    requires Progressed(c, c1, s) && n <= |c1.pending|
    ensures Progressed(c, c1.(wire := c1.wire + c1.pending[..n], pending := c1.pending[n..]), s + n)
  {
    assert c.pending[s..][n..] == c.pending[s + n..];
    assert c.pending[..s] + c.pending[s..][..n] == c.pending[..s + n];
  }

  lemma ProgressedTwice(c: Conn, c1: Conn, c2: Conn, s: nat, n: nat)
    requires Progressed(c, c1, s) && Progressed(c1, c2, n)
    ensures Progressed(c, c2, s + n)
  {
    ProgressedMore(c, c1, s, n);
  }

  lemma NoneYet(c: Conn)
    ensures Progressed(c, c, 0)
  {
  }

  /** A flush that stops after `k` bytes; it returns 0 with nothing pending. */
  lemma FlushEnds(c: Conn, c1: Conn, res: Outcome, k: nat)
    requires c.open && Progressed(c, c1, k) && (res == Done ==> c1.pending == [])
    ensures FlushStep(c, c1.(open := res == Done), res)
  {
    assert FlushedBy(c, c1.(open := res == Done), res, k);
  }

  /** `k` pending bytes have gone out, and nothing else has happened. */
  predicate Progressed(c: Conn, c': Conn, k: nat) {
    k <= |c.pending| && c' == c.(wire := c.wire + c.pending[..k], pending := c.pending[k..])
  }
}
