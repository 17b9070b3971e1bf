// The incremental SSE decoder: framing over arbitrary chunks, and the round trip with the frame writer.
module Sse {
  import opened Wrappers
  import opened SseFields
  import opened Texts

  const LF: Byte := 10
  const CR: Byte := 13
  const BLANK_LF: Bytes := [LF, LF]
  const BLANK_CRLF: Bytes := [CR, LF, CR, LF]

  // ----- Frames -----

  datatype Popped = Popped(block: Bytes, rest: Bytes)

  function CutAt(s: Bytes, at: nat, marker: Bytes): Popped
    requires at + |marker| <= |s|
  {
    Popped(s[..at], s[at + |marker|..])
  }

  /** `_pop_frame`: the CRLF boundary is looked for first, wherever it stands. */
  function Pop(s: Bytes): (r: Option<Popped>)
    ensures r.Some? ==> |r.value.rest| < |s|
  {
    var crlf, lf := FindFrom(s, BLANK_CRLF, 0), FindFrom(s, BLANK_LF, 0);
    if crlf != -1 then Some(CutAt(s, crlf, BLANK_CRLF))
    else if lf != -1 then Some(CutAt(s, lf, BLANK_LF))
    else None
  }

  /** All complete frames of a buffer, and what is left over. */
  function Frames(s: Bytes): (seq<Bytes>, Bytes)
    decreases |s|
  {
    match Pop(s)
    case None => ([], s)
    case Some(p) =>
      var (more, rest) := Frames(p.rest);
      ([p.block] + more, rest)
  }

  /** The frames that come out when the stream arrives in chunks. */
  function FramesOf(chunks: seq<Bytes>): (seq<Bytes>, Bytes) {
    if chunks == [] then ([], [])
    else
      var (before, buffer) := FramesOf(chunks[..|chunks| - 1]);
      var (more, rest) := Frames(buffer + chunks[|chunks| - 1]);
      (before + more, rest)
  }

  function Concat(chunks: seq<Bytes>): Bytes {
    if chunks == [] then [] else Concat(chunks[..|chunks| - 1]) + chunks[|chunks| - 1]
  }

  /** No blank line inside: the block could not have been cut earlier. */
  ghost predicate Clean(block: Bytes) {
    forall i :: !MatchAt(block, BLANK_LF, i)
  }

  ghost predicate AllClean(frames: seq<Bytes>) {
    forall f <- frames :: Clean(f)
  }

  lemma MatchInPrefix(u: Bytes, v: Bytes, p: Bytes, i: int)
    ensures MatchAt(u, p, i) ==> MatchAt(u + v, p, i)
    ensures MatchAt(u + v, p, i) && i + |p| <= |u| ==> MatchAt(u, p, i)
  {
    if 0 <= i && i + |p| <= |u| {
      assert (u + v)[i..i + |p|] == u[i..i + |p|];
    }
  }

  /** A first match that lies in the prefix is its first match too, and the other way round. */
  lemma FirstInPrefix(u: Bytes, v: Bytes, p: Bytes)
    ensures FindFrom(u, p, 0) != -1 ==> FindFrom(u + v, p, 0) == FindFrom(u, p, 0)
    ensures FindFrom(u + v, p, 0) != -1 && FindFrom(u + v, p, 0) + |p| <= |u| ==> FindFrom(u, p, 0) == FindFrom(u + v, p, 0)
  {
    FindIsFirst(u, p, 0);
    FindIsFirst(u + v, p, 0);
    forall i ensures MatchAt(u, p, i) ==> MatchAt(u + v, p, i)
      ensures MatchAt(u + v, p, i) && i + |p| <= |u| ==> MatchAt(u, p, i)
    {
      MatchInPrefix(u, v, p, i);
    }
  }

  /** A blank line before the CRLF boundary lies inside the block it ends. */
  lemma BlankBeforeBoundary(s: Bytes, i: nat, j: nat)
    requires MatchAt(s, BLANK_CRLF, i) && MatchAt(s, BLANK_LF, j) && j + 2 < i + 4
    ensures MatchAt(s[..i], BLANK_LF, j)
  {
    assert s[i..i + 4][0] == s[i] && s[i..i + 4][1] == s[i + 1] && s[i..i + 4][2] == s[i + 2];
    assert s[j..j + 2][0] == s[j] && s[j..j + 2][1] == s[j + 1];
    assert j + 2 <= i;
    assert s[..i][j..j + 2] == s[j..j + 2];
  }

  /** What a prefix pops is popped from the whole stream, if that block holds no blank line. */
  lemma PopStable(u: Bytes, v: Bytes)
    requires Pop(u).Some?
    requires Pop(u + v).Some? ==> Clean(Pop(u + v).value.block)
    ensures Pop(u + v) == Some(Popped(Pop(u).value.block, Pop(u).value.rest + v))
  {
    FirstInPrefix(u, v, BLANK_CRLF);
    FirstInPrefix(u, v, BLANK_LF);
    FindIsFirst(u + v, BLANK_CRLF, 0);
    FindIsFirst(u + v, BLANK_LF, 0);
    var crlf, lf := FindFrom(u, BLANK_CRLF, 0), FindFrom(u, BLANK_LF, 0);
    var s := u + v;
    if crlf != -1 {
      CutInPrefix(u, v, crlf, BLANK_CRLF);
    } else {
      var late := FindFrom(s, BLANK_CRLF, 0);
      if late != -1 {
        BlankBeforeBoundary(s, late, lf);
        assert false;
      }
      CutInPrefix(u, v, lf, BLANK_LF);
    }
  }

  lemma CutInPrefix(u: Bytes, v: Bytes, at: nat, marker: Bytes)
    requires at + |marker| <= |u|
    ensures CutAt(u + v, at, marker) == Popped(CutAt(u, at, marker).block, CutAt(u, at, marker).rest + v)
  {
  }

  /** Feeding the rest later gives the same frames and the same leftover. */
  lemma {:induction false} FramesExtend(u: Bytes, v: Bytes)
    requires AllClean(Frames(u + v).0)
    ensures Frames(u + v) == (TwoFeeds(u, v), Frames(Frames(u).1 + v).1)
    ensures AllClean(Frames(u).0)
    decreases |u|
  {
    if Pop(u).Some? {
      var p := Pop(u).value;
      if Pop(u + v).Some? {
        assert Pop(u + v).value.block in Frames(u + v).0;
      }
      PopStable(u, v);
      assert Frames(u + v).0 == [p.block] + Frames(p.rest + v).0;
      assert forall f <- Frames(p.rest + v).0 :: f in Frames(u + v).0;
      FramesExtend(p.rest, v);
      TwoFeedsAfterFrame(u, v);
      assert forall f <- Frames(u).0 :: f == p.block || f in Frames(p.rest).0;
    } else {
      assert Frames(u) == ([], u);
      assert [] + Frames(u + v).0 == Frames(u + v).0;
    }
  }

  lemma {:induction false} CleanStreamsIgnoreChunks(chunks: seq<Bytes>)
    requires AllClean(Frames(Concat(chunks)).0)
    ensures FramesOf(chunks) == Frames(Concat(chunks))
  {
    if chunks == [] {
      assert FindFrom<Byte>([], BLANK_CRLF, 0) == -1 && FindFrom<Byte>([], BLANK_LF, 0) == -1;
    } else {
      FramesExtend(Concat(chunks[..|chunks| - 1]), chunks[|chunks| - 1]);
      CleanStreamsIgnoreChunks(chunks[..|chunks| - 1]);
    }
  }

  /** A prefix that reaches past the first boundary pops the same frame. */
  lemma PopOfPrefix(u: Bytes, v: Bytes)
    requires Pop(u + v).Some? && |v| <= |Pop(u + v).value.rest|
    ensures Pop(u).Some? && Pop(u).value.block == Pop(u + v).value.block
    ensures Pop(u + v).value.rest == Pop(u).value.rest + v
  {
    FirstInPrefix(u, v, BLANK_CRLF);
    FirstInPrefix(u, v, BLANK_LF);
    var crlf, lf := FindFrom(u + v, BLANK_CRLF, 0), FindFrom(u + v, BLANK_LF, 0);
    if crlf != -1 {
      CutInPrefix(u, v, crlf, BLANK_CRLF);
    } else {
      CutInPrefix(u, v, lf, BLANK_LF);
    }
  }

  /** The frames of a stream that arrives as `u`, then `v`. */
  function TwoFeeds(u: Bytes, v: Bytes): seq<Bytes> {
    Frames(u).0 + Frames(Frames(u).1 + v).0
  }

  lemma TwoFeedsAfterFrame(u: Bytes, v: Bytes)
    requires Pop(u).Some?
    ensures TwoFeeds(u, v) == [Pop(u).value.block] + TwoFeeds(Pop(u).value.rest, v)
  {
    var p := Pop(u).value;
    var first, later := Frames(p.rest).0, Frames(Frames(p.rest).1 + v).0;
    assert Frames(u) == ([p.block] + first, Frames(p.rest).1);
    assert ([p.block] + first) + later == [p.block] + (first + later);
  }

  lemma TailsDiffer(block: Bytes, a: seq<Bytes>, b: seq<Bytes>)
    requires a != b
    ensures [block] + a != [block] + b
  {
    assert ([block] + a)[1..] == a && ([block] + b)[1..] == b;
  }

  /** Where to split a stream with a blank line inside a frame so that it shows. */
  lemma {:induction false} SplitThatShows(s: Bytes) returns (u: Bytes, v: Bytes)
    requires !AllClean(Frames(s).0)
    ensures u + v == s && TwoFeeds(u, v) != Frames(s).0
    decreases |s|
  {
    var p := Pop(s).value;
    if Clean(p.block) {
      assert forall f <- Frames(s).0 :: f == p.block || f in Frames(p.rest).0;
      var x: Bytes;
      x, v := SplitThatShows(p.rest);
      u := s[..|s| - |v|];
      SplitDeeper(s, u, x, v);
    } else {
      u, v := EarlierCut(s);
    }
  }

  /** A split of what follows the first frame is a split of the whole. */
  lemma SplitDeeper(s: Bytes, u: Bytes, x: Bytes, v: Bytes)
    requires Pop(s).Some? && Pop(s).value.rest == x + v && u == s[..|s| - |v|]
    requires TwoFeeds(x, v) != Frames(x + v).0
    ensures u + v == s && TwoFeeds(u, v) != Frames(s).0
  {
    var p := Pop(s).value;
    assert s[|s| - |v|..] == v by {
      assert p.rest[|x|..] == v && s[|s| - |p.rest|..] == p.rest;
    }
    assert u + v == s;
    PopOfPrefix(u, v);
    SameFront(Pop(u).value.rest, x, v);
    TwoFeedsAfterFrame(u, v);
    TailsDiffer(p.block, TwoFeeds(x, v), Frames(p.rest).0);
  }

  lemma SameFront(a: Bytes, b: Bytes, v: Bytes)
    requires a + v == b + v
    ensures a == b
  {
    assert |a| == |b|;
    assert a == (a + v)[..|a|] && b == (b + v)[..|b|];
  }

  /** The earliest blank line of the first frame, cut right after it. */
  lemma EarlierCut(s: Bytes) returns (u: Bytes, v: Bytes)
    requires Pop(s).Some? && !Clean(Pop(s).value.block)
    ensures u + v == s && TwoFeeds(u, v) != Frames(s).0
  {
    var block, tail := Pop(s).value.block, s[|Pop(s).value.block|..];
    var i: nat :| MatchAt(block, BLANK_LF, i);
    var j := EarliestBlank(s, block, tail, i);
    u, v := s[..j + 2], s[j + 2..];
    assert u + v == s;
    PopAtFirstBlank(u, v, j);
    assert Frames(s).0[0] == block;
    assert TwoFeeds(u, v)[0] == u[..j] by {
      TwoFeedsAfterFrame(u, v);
    }
  }

  lemma EarliestBlank(s: Bytes, block: Bytes, tail: Bytes, i: nat) returns (j: nat)
    requires s == block + tail && Pop(s).Some? && Pop(s).value.block == block && MatchAt(block, BLANK_LF, i)
    ensures j + 2 <= |block| && FindFrom(s, BLANK_LF, 0) == j
    ensures FindFrom(s, BLANK_CRLF, 0) == |block|
  {
    FindIsFirst(s, BLANK_LF, 0);
    MatchInPrefix(block, tail, BLANK_LF, i);
    j := FindFrom(s, BLANK_LF, 0);
  }

  lemma PopAtFirstBlank(u: Bytes, v: Bytes, j: nat)
    requires |u| == j + 2 && FindFrom(u + v, BLANK_LF, 0) == j && FindFrom(u + v, BLANK_CRLF, 0) > j
    ensures Pop(u) == Some(Popped(u[..j], []))
  {
    FirstInPrefix(u, v, BLANK_CRLF);
    FirstInPrefix(u, v, BLANK_LF);
  }

  /**
   * Exactly when the chunking does not matter: every chunking of a stream gives the frames and the
   * leftover that feeding it at once gives, if and only if none of those frames has a blank line in it.
   */
  lemma ChunkingIsIrrelevantExactlyWhen(s: Bytes)
    ensures (forall chunks | Concat(chunks) == s :: FramesOf(chunks) == Frames(s)) <==> AllClean(Frames(s).0)
  {
    if AllClean(Frames(s).0) {
      forall chunks | Concat(chunks) == s ensures FramesOf(chunks) == Frames(s) {
        CleanStreamsIgnoreChunks(chunks);
      }
    } else {
      var u, v := SplitThatShows(s);
      TwoChunks(u, v);
    }
  }

  lemma OneChunk(u: Bytes)
    ensures Concat([u]) == u && FramesOf([u]) == Frames(u)
  {
    assert [u][..0] == [];
    assert [] + u == u;
    assert FramesOf([]) == ([], []);
    assert [] + Frames(u).0 == Frames(u).0;
  }

  lemma TwoChunks(u: Bytes, v: Bytes)
    ensures Concat([u, v]) == u + v && FramesOf([u, v]).0 == TwoFeeds(u, v)
  {
    assert [u, v][..1] == [u];
    OneChunk(u);
  }

  ghost predicate NoCr(s: Bytes) {
    forall i | 0 <= i < |s| :: s[i] != CR
  }

  /** A first frame holds no blank line if the stream has no CR, or no double LF. */
  lemma FirstFrameIsClean(s: Bytes)
    requires Pop(s).Some? && (NoCr(s) || Clean(s))
    ensures Clean(Pop(s).value.block)
  {
    var block := Pop(s).value.block;
    assert s == block + s[|block|..];
    FindIsFirst(s, BLANK_CRLF, 0);
    FindIsFirst(s, BLANK_LF, 0);
    if MatchAt(s, BLANK_CRLF, |block|) {
      assert s[|block|..|block| + 4][0] == s[|block|];
    }
    forall i ensures !MatchAt(block, BLANK_LF, i) {
      MatchInPrefix(block, s[|block|..], BLANK_LF, i);
    }
  }

  lemma SuffixIsClean(s: Bytes, k: nat)
    requires k <= |s| && Clean(s)
    ensures Clean(s[k..])
  {
    forall i ensures !MatchAt(s[k..], BLANK_LF, i) {
      if 0 <= i && i + 2 <= |s| - k {
        assert s[k + i..k + i + 2] == s[k..][i..i + 2];
        assert !MatchAt(s, BLANK_LF, k + i);
      }
    }
  }

  /** In particular for a stream without CR, and for a stream without a double LF. */
  lemma {:induction false} PlainStreamsAreClean(s: Bytes)
    requires NoCr(s) || Clean(s)
    ensures AllClean(Frames(s).0)
    decreases |s|
  {
    if Pop(s).Some? {
      var p := Pop(s).value;
      FirstFrameIsClean(s);
      assert p.rest == s[|s| - |p.rest|..];
      if Clean(s) {
        SuffixIsClean(s, |s| - |p.rest|);
      }
      PlainStreamsAreClean(p.rest);
    }
  }

  // ----- The decoder in place -----

  /** UTF-8 decoding of one block. */
  type Decoder = Bytes -> Option<string>

  datatype FeedError = TooLong | MalformedUtf8

  /** The events of the frames; a frame that is no UTF-8 contributes none here, and ends the feed below. */
  function EventsOf(decode: Decoder, frames: seq<Bytes>): seq<SseEvent> {
    if |frames| == 0 then []
    else EventOf(decode, frames[0]) + EventsOf(decode, frames[1..])
  }

  function EventOf(decode: Decoder, frame: Bytes): seq<SseEvent> {
    var text := decode(frame);
    if text.Some? then AsSeq(Parsed(text.value)) else []
  }

  predicate Decodable(decode: Decoder, frames: seq<Bytes>) {
    forall frame <- frames :: decode(frame).Some?
  }

  function Prefixed(events: seq<SseEvent>, r: (Bytes, Result<seq<SseEvent>, FeedError>)): (Bytes, Result<seq<SseEvent>, FeedError>) {
    if r.1.Ok? then (r.0, Ok(events + r.1.value)) else r
  }

  function AsSeq(e: Option<SseEvent>): seq<SseEvent> {
    if e.Some? then [e.value] else []
  }

  lemma PrefixedTwice(a: seq<SseEvent>, b: seq<SseEvent>, r: (Bytes, Result<seq<SseEvent>, FeedError>))
    ensures Prefixed(a, Prefixed(b, r)) == Prefixed(a + b, r)
    ensures Prefixed([], r) == r
  {
    if r.1.Ok? {
      assert a + (b + r.1.value) == (a + b) + r.1.value;
      assert [] + r.1.value == r.1.value;
    }
  }

  /** The loop of `feed`: a frame that is not UTF-8 is consumed, and the events before it are lost. */
  function Drain(decode: Decoder, buffer: Bytes): (Bytes, Result<seq<SseEvent>, FeedError>)
    decreases |buffer|
  {
    match Pop(buffer)
    case None => (buffer, Ok([]))
    case Some(p) =>
      match decode(p.block)
      case None => (p.rest, Err(MalformedUtf8))
      case Some(text) =>
        Prefixed(AsSeq(Parsed(text)), Drain(decode, p.rest))
  }

  function Feed(decode: Decoder, limit: Option<nat>, buffer: Bytes, chunk: Bytes): (Bytes, Result<seq<SseEvent>, FeedError>) {
    if chunk == [] then (buffer, Ok([]))
    else if limit.Some? && |buffer + chunk| > limit.value then (buffer + chunk, Err(TooLong))
    else Drain(decode, buffer + chunk)
  }

  class SseDecoder {
    const decode: Decoder
    const limit: Option<nat>
    var buffer: Bytes

    constructor (decode: Decoder, limit: Option<nat>)
      ensures this.decode == decode && this.limit == limit && buffer == []
    {
      this.decode, this.limit, buffer := decode, limit, [];
    }

    method PopFrame() returns (block: Option<Bytes>)
      modifies this
      ensures match Pop(old(buffer))
              case None => block.None? && buffer == old(buffer)
              case Some(p) => block == Some(p.block) && buffer == p.rest
    {
      var at := FindFrom(buffer, BLANK_CRLF, 0);
      if at != -1 {
        block := Some(buffer[..at]);
        buffer := buffer[at + |BLANK_CRLF|..];
        return;
      }
      at := FindFrom(buffer, BLANK_LF, 0);
      if at != -1 {
        block := Some(buffer[..at]);
        buffer := buffer[at + |BLANK_LF|..];
        return;
      }
      block := None;
    }

    method FeedChunk(chunk: Bytes) returns (r: Result<seq<SseEvent>, FeedError>)
      modifies this
      ensures (buffer, r) == Feed(decode, limit, old(buffer), chunk)
    {
      if chunk == [] {
        return Ok([]);
      }
      buffer := buffer + chunk;
      if limit.Some? && |buffer| > limit.value {
        return Err(TooLong);
      }
      var events := [];
      PrefixedTwice([], [], Drain(decode, buffer));
      while true
        invariant Drain(decode, old(buffer) + chunk) == Prefixed(events, Drain(decode, buffer))
        decreases |buffer|
      {
        var block := PopFrame();
        if block.None? {
          assert events + [] == events;
          return Ok(events);
        }
        var text := decode(block.value);
        if text.None? {
          return Err(MalformedUtf8);
        }
        var parsed := ParseBlock(text.value);
        PrefixedTwice(events, AsSeq(parsed), Drain(decode, buffer));
        if parsed.Some? {
          events := events + [parsed.value];
        } else {
          assert events + [] == events;
        }
      }
    }
  }

  lemma {:induction false} DrainIsFrames(decode: Decoder, buffer: Bytes)
    requires Decodable(decode, Frames(buffer).0)
    ensures Drain(decode, buffer) == (Frames(buffer).1, Ok(EventsOf(decode, Frames(buffer).0)))
    decreases |buffer|
  {
    if Pop(buffer).Some? {
      var p := Pop(buffer).value;
      assert Frames(buffer).0[0] == p.block && Frames(buffer).0[1..] == Frames(p.rest).0;
      DrainIsFrames(decode, p.rest);
    }
  }

  lemma {:induction false} EventsAppend(decode: Decoder, a: seq<Bytes>, b: seq<Bytes>)
    ensures EventsOf(decode, a + b) == EventsOf(decode, a) + EventsOf(decode, b)
  {
    if |a| == 0 {
      assert a + b == b;
    } else {
      assert (a + b)[1..] == a[1..] + b;
      EventsAppend(decode, a[1..], b);
    }
  }

  /** Everything a decoder without a size limit returns for a stream that arrives in chunks. */
  function FeedAll(decode: Decoder, chunks: seq<Bytes>): (Bytes, Result<seq<SseEvent>, FeedError>) {
    if chunks == [] then ([], Ok([]))
    else
      match FeedAll(decode, chunks[..|chunks| - 1])
      case (buffer, Err(e)) => (buffer, Err(e))
      case (buffer, Ok(before)) => Prefixed(before, Feed(decode, None, buffer, chunks[|chunks| - 1]))
  }

  lemma {:induction false} LeftoverHoldsNoFrame(s: Bytes)
    ensures Pop(Frames(s).1).None?
    decreases |s|
  {
    if Pop(s).Some? {
      LeftoverHoldsNoFrame(Pop(s).value.rest);
    }
  }

  lemma {:induction false} BuffersHoldNoFrame(chunks: seq<Bytes>)
    ensures Pop(FramesOf(chunks).1).None?
  {
    if chunks == [] {
      assert FindFrom<Byte>([], BLANK_CRLF, 0) == -1 && FindFrom<Byte>([], BLANK_LF, 0) == -1;
    } else {
      LeftoverHoldsNoFrame(FramesOf(chunks[..|chunks| - 1]).1 + chunks[|chunks| - 1]);
    }
  }

  lemma {:induction false} FeedAllIsFrames(decode: Decoder, chunks: seq<Bytes>)
    requires Decodable(decode, FramesOf(chunks).0)
    ensures FeedAll(decode, chunks) == (FramesOf(chunks).1, Ok(EventsOf(decode, FramesOf(chunks).0)))
  {
    if chunks != [] {
      var front, last := chunks[..|chunks| - 1], chunks[|chunks| - 1];
      var (before, buffer) := FramesOf(front);
      var more := Frames(buffer + last).0;
      assert FramesOf(chunks).0[..|before|] == before && FramesOf(chunks).0[|before|..] == more;
      FeedAllIsFrames(decode, front);
      DrainIsFrames(decode, buffer + last);
      EventsAppend(decode, before, more);
      if last == [] {
        assert buffer + last == buffer;
        BuffersHoldNoFrame(front);
        assert more == [] && before + [] == before;
      }
    }
  }

  /**
   * For a stream whose frames are all UTF-8 and hold no blank line, the events and the leftover
   * buffer depend on the concatenated bytes alone.
   */
  lemma EventsIgnoreChunks(decode: Decoder, chunks: seq<Bytes>)
    requires AllClean(Frames(Concat(chunks)).0)
    requires Decodable(decode, Frames(Concat(chunks)).0)
    ensures FeedAll(decode, chunks) == (Frames(Concat(chunks)).1, Ok(EventsOf(decode, Frames(Concat(chunks)).0)))
  {
    CleanStreamsIgnoreChunks(chunks);
    FeedAllIsFrames(decode, chunks);
  }
}
