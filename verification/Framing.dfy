/** Cutting length-prefixed frames out of a byte stream, however the stream arrives. */
module Framing {
  import opened Bytes

  /** What recvTcpMsg makes of the buffered bytes; Abort is the failing assert on an empty read. */
  datatype Cut = Frame(n: nat) | Wait | TooLong | Abort

  function DeclaredLen(s: seq<byte>): nat
    requires 4 <= |s|
  {
    FromBE(s[..4])
  }

  function NextCut(s: seq<byte>, max: nat): (c: Cut)
    ensures c.Frame? ==> 0 < c.n <= |s|
  {
    if |s| < 4 then Wait
    else
      var n := DeclaredLen(s);
      if n > max then TooLong
      else if n > |s| then Wait
      else if n == 0 then Abort
      else Frame(n)
  }

  datatype Parsed = Parsed(frames: seq<seq<byte>>, rest: seq<byte>)

  /** The one-shot parser: every complete frame, up to the first place where it must stop. */
  function Parse(s: seq<byte>, max: nat): Parsed
    decreases |s|
  {
    var c := NextCut(s, max);
    if !c.Frame? then Parsed([], s)
    else
      var p := Parse(s[c.n..], max);
      Parsed([s[..c.n]] + p.frames, p.rest)
  }

  /** More bytes behind a complete frame do not change where it ends. */
  lemma CutStable(s: seq<byte>, t: seq<byte>, max: nat)
    ensures NextCut(s, max) != Wait ==> NextCut(s + t, max) == NextCut(s, max)
  {
    if 4 <= |s| {
      assert (s + t)[..4] == s[..4];
    }
  }

  /** Bytes that arrive later continue the parse of what was left over. */
  lemma {:induction false} ParseAppend(s: seq<byte>, t: seq<byte>, max: nat)
    ensures var (p, p') := (Parse(s, max), Parse(Parse(s, max).rest + t, max));
      Parse(s + t, max) == Parsed(p.frames + p'.frames, p'.rest)
    decreases |s|
  {
    hide NextCut;
    CutStable(s, t, max);
    var c := NextCut(s, max);
    if c.Frame? {
      CutFits(s, max);
      ParseAppend(s[c.n..], t, max);
      assert (s + t)[c.n..] == s[c.n..] + t && (s + t)[..c.n] == s[..c.n];
      var p := Parse(s[c.n..], max);
      var p' := Parse(p.rest + t, max);
      Assoc([s[..c.n]], p.frames, p'.frames);
    } else {
      Assoc(Parse(s + t, max).frames, [], []);
    }
  }

  lemma ParseStep(s: seq<byte>, max: nat)
    requires NextCut(s, max).Frame?
    ensures var n := NextCut(s, max).n;
      Parse(s, max) == Parsed([s[..n]] + Parse(s[n..], max).frames, Parse(s[n..], max).rest)
  {
    hide NextCut;
    CutFits(s, max);
  }

  lemma ParseStop(s: seq<byte>, max: nat)
    requires !NextCut(s, max).Frame?
    ensures Parse(s, max) == Parsed([], s)
  {
    hide NextCut;
  }

  lemma CutFits(s: seq<byte>, max: nat)
    ensures NextCut(s, max).Frame? ==> 0 < NextCut(s, max).n <= |s|
  {
  }

  /** Receiving chunk by chunk, each chunk parsed as far as it goes. */
  function Feed(rest: seq<byte>, chunks: seq<seq<byte>>, max: nat): Parsed
    decreases |chunks|
  {
    if chunks == [] then Parsed([], rest)
    else
      var p := Parse(rest + chunks[0], max);
      var q := Feed(p.rest, chunks[1..], max);
      Parsed(p.frames + q.frames, q.rest)
  }

  lemma {:induction false} FeedIsParse(rest: seq<byte>, chunks: seq<seq<byte>>, max: nat)
    requires !NextCut(rest, max).Frame?
    ensures Feed(rest, chunks, max) == Parse(rest + Concat(chunks), max)
    decreases |chunks|
  {
    hide NextCut;
    if chunks == [] {
      Assoc(rest, [], []);
    } else {
      hide Parse;
      var p := Parse(rest + chunks[0], max);
      ParseRestIsStuck(rest + chunks[0], max);
      FeedIsParse(p.rest, chunks[1..], max);
      ParseAppend(rest + chunks[0], Concat(chunks[1..]), max);
      Assoc(rest, chunks[0], Concat(chunks[1..]));
    }
  }

  lemma {:induction false} ParseRestIsStuck(s: seq<byte>, max: nat)
    ensures !NextCut(Parse(s, max).rest, max).Frame?
    ensures s == Concat(Parse(s, max).frames) + Parse(s, max).rest
    decreases |s|
  {
    hide NextCut, Parse;
    CutFits(s, max);
    var c := NextCut(s, max);
    if c.Frame? {
      ParseStep(s, max);
      ParseRestIsStuck(s[c.n..], max);
      var p := Parse(s[c.n..], max);
      ConcatCons(s[..c.n], p.frames);
      Assoc(s[..c.n], Concat(p.frames), p.rest);
      assert s == s[..c.n] + s[c.n..];
    } else {
      ParseStop(s, max);
      ConcatNone();
      Assoc(s, [], []);
    }
  }

  /** The frames do not depend on how the stream was split, and neither does what is left. */
  lemma ChunksDoNotMatter(chunks: seq<seq<byte>>, chunks': seq<seq<byte>>, max: nat)
    requires Concat(chunks) == Concat(chunks')
    ensures Feed([], chunks, max) == Parse(Concat(chunks), max) == Feed([], chunks', max)
  {
    hide Parse, Feed, Concat;
    FeedIsParse([], chunks, max);
    FeedIsParse([], chunks', max);
    Assoc(Concat(chunks), [], []);
  }

  // ---- a queue that may refuse ----

  /** `frames` have been cut from the front of `s`, one by one, and `rest` is left. */
  predicate CutsTo(s: seq<byte>, frames: seq<seq<byte>>, rest: seq<byte>, max: nat)
    decreases |frames|
  {
    if frames == [] then rest == s
    else
      var c := NextCut(s, max);
      c.Frame? && frames[0] == s[..c.n] && CutsTo(s[c.n..], frames[1..], rest, max)
  }

  lemma {:induction false} CutsArePrefix(s: seq<byte>, frames: seq<seq<byte>>, rest: seq<byte>, max: nat)
    requires CutsTo(s, frames, rest, max)
    ensures Parse(s, max) == Parsed(frames + Parse(rest, max).frames, Parse(rest, max).rest)
    ensures s == Concat(frames) + rest
    decreases |frames|
  {
    hide NextCut, Parse;
    var p := Parse(rest, max);
    if frames == [] {
      Assoc(p.frames, [], []);
      Assoc(rest, [], []);
    } else {
      CutFits(s, max);
      ParseStep(s, max);
      var c := NextCut(s, max);
      CutsArePrefix(s[c.n..], frames[1..], rest, max);
      assert frames == [frames[0]] + frames[1..];
      Assoc([frames[0]], frames[1..], p.frames);
      Assoc(s[..c.n], Concat(frames[1..]), rest);
      assert s == s[..c.n] + s[c.n..];
    }
  }

  /** One arrival: a chunk is appended, some frames are cut off, and a refusal may stop it early. */
  datatype Arrival = Arrival(chunk: seq<byte>, frames: seq<seq<byte>>, rest: seq<byte>)

  function Received(arrivals: seq<Arrival>): seq<byte> {
    if arrivals == [] then [] else Received(arrivals[..|arrivals| - 1]) + arrivals[|arrivals| - 1].chunk
  }

  function Delivered(arrivals: seq<Arrival>): seq<seq<byte>> {
    if arrivals == [] then [] else Delivered(arrivals[..|arrivals| - 1]) + arrivals[|arrivals| - 1].frames
  }

  function Buffered(arrivals: seq<Arrival>): seq<byte> {
    if arrivals == [] then [] else arrivals[|arrivals| - 1].rest
  }

  predicate ArrivalRun(arrivals: seq<Arrival>, max: nat)
    decreases |arrivals|
  {
    arrivals == [] ||
    var (init, a) := (arrivals[..|arrivals| - 1], arrivals[|arrivals| - 1]);
    ArrivalRun(init, max) && CutsTo(Buffered(init) + a.chunk, a.frames, a.rest, max)
  }

  /**
   * With any mix of accepted and refused frames, over any arrivals: the bytes received
   * are the delivered frames followed by the bytes still buffered, and the delivered
   * frames are the first ones of the one-shot parse; the buffered bytes parse to the others.
   */
  lemma {:induction false} NothingLostUnderBackpressure(arrivals: seq<Arrival>, max: nat)
    requires ArrivalRun(arrivals, max)
    ensures Received(arrivals) == Concat(Delivered(arrivals)) + Buffered(arrivals)
    ensures var p := Parse(Buffered(arrivals), max);
      Parse(Received(arrivals), max) == Parsed(Delivered(arrivals) + p.frames, p.rest)
    decreases |arrivals|
  {
    hide NextCut, Parse, Concat, CutsTo;
    if arrivals == [] {
      Assoc(Parse([], max).frames, [], []);
      ConcatNone();
    } else {
      var k := |arrivals| - 1;
      var (init, a) := (arrivals[..k], arrivals[k]);
      NothingLostUnderBackpressure(init, max);
      var (b, f) := (Buffered(init), Delivered(init));
      var p := Parse(a.rest, max);
      CutsArePrefix(b + a.chunk, a.frames, a.rest, max);
      ParseAfterMore(Received(init), f, b, a.chunk, max);
      ConcatAppend(f, a.frames);
      Assoc(Concat(f), b, a.chunk);
      Assoc(Concat(f), Concat(a.frames), a.rest);
      Assoc(f, a.frames, p.frames);
    }
  }

  lemma ConcatNone()
    ensures Concat<byte>([]) == []
  {
  }

  /** If the buffered bytes parse to what is missing, they still do after more have come. */
  lemma ParseAfterMore(all: seq<byte>, done: seq<seq<byte>>, b: seq<byte>, t: seq<byte>, max: nat)
    requires Parse(all, max) == Parsed(done + Parse(b, max).frames, Parse(b, max).rest)
    ensures Parse(all + t, max) == Parsed(done + Parse(b + t, max).frames, Parse(b + t, max).rest)
  {
    hide NextCut, Parse;
    ParseAppend(all, t, max);
    ParseAppend(b, t, max);
    Assoc(done, Parse(b, max).frames, Parse(Parse(b, max).rest + t, max).frames);
  }

  /** A drain that is never refused cuts what the parser cuts. */
  lemma {:induction false} ParseCuts(s: seq<byte>, max: nat)
    ensures CutsTo(s, Parse(s, max).frames, Parse(s, max).rest, max)
    decreases |s|
  {
    hide NextCut, Parse;
    CutFits(s, max);
    var c := NextCut(s, max);
    if c.Frame? {
      ParseStep(s, max);
      ParseCuts(s[c.n..], max);
      var p := Parse(s[c.n..], max);
      assert ([s[..c.n]] + p.frames)[1..] == p.frames;
    } else {
      ParseStop(s, max);
    }
  }
}
