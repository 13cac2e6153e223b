/** How many header bytes a printed request puts on the count that the header-size limit is about. */
module Counting {
  import opened Ascii
  import opened HttpTypes
  import opened ByteMachine
  import opened Tracking
  import opened Segments
  import opened Framing
  import opened HeaderLines
  import opened HeaderBlocks
  import opened Requests

  // ----- the count along a text ------------------------------------------------------------------

  lemma {:induction false} StepByteCount(c: Config, ch: char)
    ensures StepByte(c, ch).count <= c.count
    decreases Rank(c.p.state)
  {
    var o := Micro(c.p, ch);
    if o.act == Reexecute {
      ReexecuteDecreasesRank(c.p, ch);
      LookAgain(c, ch, o);
      StepByteCount(Apply(c, o), ch);
    } else {
      Bites(c, ch, o);
    }
  }

  lemma NextCount(c: Config, ch: char)
    ensures Next(c, ch).count <= c.count + 1
    ensures !ParsingHeader(c.p.state) ==> Next(c, ch).count <= c.count
  {
    if Running(c) {
      NextSteps(c, ch);
      StepByteCount(Counted(c), ch);
    }
  }

  lemma {:induction false} CountGrows(c: Config, s: string)
    ensures Feed(c, s).count <= c.count + |s|
  {
    if s != [] {
      CountGrows(c, s[..|s| - 1]);
      NextCount(Feed(c, s[..|s| - 1]), s[|s| - 1]);
    }
  }

  /** Nowhere in the text are more than `bound` header bytes on the count. */
  ghost predicate Light(c: Config, s: string, bound: nat) {
    forall key {:trigger Unfold(key)} :: Unfold(key) ==> forall n :: 0 <= n <= |s| ==> Feed(c, s[..n]).count <= bound
  }

  lemma {:induction false} LightShort(c: Config, s: string, bound: nat)
    requires c.count + |s| <= bound
    ensures Light(c, s, bound)
  {
    forall n | 0 <= n <= |s|
      ensures Feed(c, s[..n]).count <= bound
    {
      CountGrows(c, s[..n]);
    }
  }

  lemma {:induction false} LightJoin(c: Config, a: string, b: string, bound: nat)
    requires Light(c, a, bound) && Light(Feed(c, a), b, bound)
    ensures Light(c, a + b, bound)
  {
    assert Unfold(0);
    forall n | 0 <= n <= |a + b|
      ensures Feed(c, (a + b)[..n]).count <= bound
    {
      if n <= |a| {
        assert (a + b)[..n] == a[..n];
      } else {
        assert (a + b)[..n] == a + b[..n - |a|];
        FeedConcat(c, a, b[..n - |a|]);
      }
    }
  }

  // ----- bodies ----------------------------------------------------------------------------------

  /** Body bytes short of the last one leave the count as it is. */
  lemma {:induction false} BodyCount(c: Config, data: string, n: nat)
    requires Running(c) && ReadsBody(c.p.state) && (c.p.state.Chunk? ==> c.p.flags.chunked)
    requires n < |data| == c.p.contentLength < UNSET
    ensures Feed(c, data[..n]).count == c.count && ReadsBody(Feed(c, data[..n]).p.state)
  {
    var refs := RunOf(c, data);
    RunOfIsRun(c, data);
    assert data[..0] == [];
    BodyRun(refs, data, 0, n);
    StrideEnd(refs, data, 0, n, DataKind.BodyText, false);
  }

  /** And so does the last one. */
  lemma {:induction false} WholeBodyCount(c: Config, data: string)
    requires Running(c) && ReadsBody(c.p.state) && (c.p.state.Chunk? ==> c.p.flags.chunked)
    requires 0 < |data| == c.p.contentLength < UNSET
    ensures Feed(c, data).count <= c.count
  {
    var n := |data| - 1;
    BodyCount(c, data, n);
    NextCount(Feed(c, data[..n]), data[n]);
  }

  lemma {:induction false} LightBody(c: Config, data: string, bound: nat)
    requires Running(c) && ReadsBody(c.p.state) && (c.p.state.Chunk? ==> c.p.flags.chunked)
    requires 0 < |data| == c.p.contentLength < UNSET && c.count <= bound
    ensures Light(c, data, bound) && Feed(c, data).count <= c.count
  {
    WholeBodyCount(c, data);
    forall n | 0 <= n <= |data|
      ensures Feed(c, data[..n]).count <= c.count
    {
      if n < |data| {
        BodyCount(c, data, n);
      } else {
        assert data[..n] == data;
      }
    }
  }

  /** The byte after which the count starts again. */
  lemma ResetByte(c: Config, ch: char)
    requires Running(c) && Micro(c.p, ch).act != Reexecute && Micro(c.p, ch).resetCount
    ensures Next(c, ch).count == 0
  {
    NextSteps(c, ch);
    Bites(Counted(c), ch, Micro(c.p, ch));
  }

  lemma SizeLineResets(c: Config)
    requires Running(c) && c.p.flags.chunked && (c.p.state == Chunk(Size) || c.p.state == Chunk(Parameters))
    ensures Feed(c, "\r\n").count == 0
  {
    SizeLineCR(c);
    FeedTwo(c, CR, LF);
    ResetByte(Next(c, CR), LF);
  }

  /** After a size line the count starts again. */
  lemma SizeLineCount(c: Config, size: string, extension: string)
    requires Running(c) && ReadsSize(c.p) && IsSize(size) && IsExtension(extension)
    ensures Feed(c, size + extension + "\r\n").count == 0
  {
    ChunkSizeIsExact(c, size);
    if extension != [] {
      ParametersRead(Feed(c, size), extension);
    }
    FeedConcat(c, size, extension);
    FeedConcat(c, size + extension, "\r\n");
    SizeLineResets(Feed(c, size + extension));
  }

  /** The line end behind the data of a chunk is not counted. */
  lemma ChunkEndCount(c: Config)
    requires Running(c) && c.p.state == Chunk(DataAlmostDone) && c.p.flags.chunked && c.p.contentLength == 0
    requires c.count == 0
    ensures Light(c, "\r\n", 0) && Feed(c, "\r\n").count == 0
  {
    var d := Next(c, CR);
    Bite(c, CR, Micro(c.p, CR));
    NextCount(c, CR);
    NextCount(d, LF);
    FeedTwo(c, CR, LF);
    FeedOne(c, CR);
    forall n | 0 <= n <= 2
      ensures Feed(c, "\r\n"[..n]).count <= 0
    {
      if n == 1 {
        assert "\r\n"[..1] == [CR];
      } else if n == 2 {
        assert "\r\n"[..2] == "\r\n";
      }
    }
  }

  lemma {:induction false} LightMore(c: Config, s: string, bound: nat, more: nat)
    requires Light(c, s, bound) && bound <= more
    ensures Light(c, s, more)
  {
    assert Unfold(0);
  }

  lemma ChunkDataCount(c: Config, data: string, bound: nat)
    requires Running(c) && c.p.state == Chunk(ChunkData) && c.p.flags.chunked && 0 < |data| == c.p.contentLength < UNSET
    requires c.count == 0
    ensures Light(c, data + "\r\n", bound) && Feed(c, data + "\r\n").count == 0
  {
    LightBody(c, data, 0);
    Framing.BodyRead(c, data);
    ChunkEndCount(Feed(c, data));
    FeedConcat(c, data, "\r\n");
    LightJoin(c, data, "\r\n", 0);
    LightMore(c, data + "\r\n", 0, bound);
  }

  /** The size line of a chunk is all that it puts on the count. */
  predicate ChunkFits(k: BodyChunk, bound: nat) {
    |k.size| + |k.extension| + 2 <= bound
  }

  lemma ChunkCount(c: Config, k: BodyChunk, bound: nat)
    requires Running(c) && ReadsSize(c.p) && IsChunk(k) && ChunkFits(k, bound) && c.count == 0
    ensures Light(c, ChunkText(k), bound) && Feed(c, ChunkText(k)).count == 0
  {
    var line := k.size + k.extension + "\r\n";
    LightShort(c, line, bound);
    SizeLineRead(c, k.size, k.extension);
    SizeLineCount(c, k.size, k.extension);
    ChunkDataCount(Feed(c, line), k.data, bound);
    FeedConcat(c, line, k.data + "\r\n");
    LightJoin(c, line, k.data + "\r\n", bound);
  }

  lemma {:induction false} ChunksCount(c: Config, chunks: seq<BodyChunk>, bound: nat)
    requires Running(c) && ReadsSize(c.p) && c.count == 0
    requires forall k :: k in chunks ==> IsChunk(k) && ChunkFits(k, bound)
    ensures Light(c, ChunksText(chunks), bound) && Feed(c, ChunksText(chunks)).count == 0
    decreases |chunks|
  {
    if chunks == [] {
      LightShort(c, "", bound);
    } else {
      var first := ChunkText(chunks[0]);
      ChunkCount(c, chunks[0], bound);
      ChunkRead(c, chunks[0]);
      ChunksCount(Feed(c, first), chunks[1..], bound);
      FeedConcat(c, first, ChunksText(chunks[1..]));
      LightJoin(c, first, ChunksText(chunks[1..]), bound);
    }
  }

  /** Trailers and the empty line behind them stay on the count. */
  function Left(trailers: seq<Line>): nat {
    |LinesText(trailers)| + 2
  }

  lemma LastChunkCount(c: Config, size: string, extension: string, trailers: seq<Line>, end: string,
                       bound: nat)
    requires Running(c) && ReadsSize(c.p) && IsSize(size) && HexValue(size) == 0 && IsExtension(extension)
    requires c.count == 0 && |size| + |extension| + 2 <= bound && Left(trailers) <= bound && IsLineEnd(end)
    ensures var t := size + extension + "\r\n" + (LinesText(trailers) + end);
            Light(c, t, bound) && Feed(c, t).count <= Left(trailers)
  {
    var line := size + extension + "\r\n";
    var rest := LinesText(trailers) + end;
    LightShort(c, line, bound);
    SizeLineCount(c, size, extension);
    LightShort(Feed(c, line), rest, bound);
    FeedConcat(c, line, rest);
    CountGrows(Feed(c, line), rest);
    LightJoin(c, line, rest, bound);
  }

  // ----- requests --------------------------------------------------------------------------------

  /** What a request puts on the count, with `left` bytes from the one before, stays within the bound. */
  predicate Fits(r: Request, left: nat, bound: nat) {
    && left + |HeadText(r)| + 2 <= bound
    && (r.body.Chunked? ==>
          && (forall k :: k in r.body.chunks ==> ChunkFits(k, bound))
          && |r.body.size| + |r.body.extension| + 2 <= bound
          && Left(r.body.trailers) <= bound)
  }

  /** What it leaves to the next one. */
  function LeftBy(b: Body): nat {
    if b.Chunked? then Left(b.trailers) else 0
  }

  lemma HeadersOverCount(c: Config)
    requires Running(c) && c.p.state.HeadersAlmostDone? && AreOver(c.p)
    ensures Next(c, LF).count == 0
  {
    var o := HeadersAlmostDoneByte(c.p, LF);
    var d := Counted(c);
    NextSteps(c, LF);
    LookAgain(d, LF, o);
    Bites(Apply(d, o), LF, HeadersDoneByte(o.p, LF));
  }

  /** After the empty line the count starts again. */
  lemma EmptyLineCount(c: Config, p: Fields, trace: seq<Event>, end: string)
    requires Within(c, p, trace) && AreOver(p) && IsLineEnd(end)
    ensures Feed(c, end).count == 0
  {
    SettledFeed(c, end);
    var d := EmptyLineParts(Settled(c), end);
    HeadersOverCount(d);
  }

  lemma BodyFits(d: Config, r: Request, p: Fields, trace: seq<Event>, left: nat, bound: nat)
    requires HeadersOver(d, p, trace) && FitsRequest(p, r) && IsRequest(p.lenient, r) && Fits(r, left, bound)
    requires d.count == 0
    ensures Light(d, Requests.BodyText(r.body), bound) && Feed(d, Requests.BodyText(r.body)).count <= LeftBy(r.body)
  {
    RequestIsFramed(p, r);
    match r.body
    case NoBody => LightShort(d, "", bound);
    case Sized(data) => LightBody(d, data, bound);
    case Chunked(_, _, _, _, _) => ChunkedBodyFits(d, r.body, bound);
  }

  lemma ChunkedTextInTwo(b: Body)
    requires b.Chunked?
    ensures Requests.BodyText(b)
         == ChunksText(b.chunks) + (b.size + b.extension + "\r\n" + (LinesText(b.trailers) + b.empty))
  {
  }

  lemma ChunkedBodyFits(d: Config, b: Body, bound: nat)
    requires Running(d) && ReadsSize(d.p) && IsChunkedBody(d.p.lenient, d.p.flags, b) && d.count == 0
    requires forall k :: k in b.chunks ==> ChunkFits(k, bound)
    requires |b.size| + |b.extension| + 2 <= bound && Left(b.trailers) <= bound
    ensures Light(d, Requests.BodyText(b), bound) && Feed(d, Requests.BodyText(b)).count <= Left(b.trailers)
  {
    var chunks := ChunksText(b.chunks);
    var last := b.size + b.extension + "\r\n" + (LinesText(b.trailers) + b.empty);
    ChunkedTextInTwo(b);
    ChunksCount(d, b.chunks, bound);
    ChunksRead(d, b.chunks);
    LastChunkCount(Feed(d, chunks), b.size, b.extension, b.trailers, b.empty, bound);
    FeedConcat(d, chunks, last);
    LightJoin(d, chunks, last, bound);
  }

  lemma RequestFits(c: Config, r: Request, bound: nat)
    requires Running(c) && c.p.state.StartReq? && IsRequest(c.p.lenient, r) && Fits(r, c.count, bound)
    ensures Light(c, RequestText(r), bound) && Feed(c, RequestText(r)).count <= LeftBy(r.body)
  {
    var head := HeadText(r);
    var p := AfterHead(c.p, r);
    var t := c.trace + HeadEvents(r);
    HeadRead(c, r);
    HeadFits(c.p, r);
    RequestIsFramed(p, r);
    EmptyLineIs(c.p.lenient, r);
    EmptyLineRead(Feed(c, head), p, t, r.empty);
    EmptyLineCount(Feed(c, head), p, t, r.empty);
    FeedConcat(c, head, r.empty);
    LightShort(c, head + r.empty, bound);
    BodyFits(Feed(c, head + r.empty), r, p, t, c.count, bound);
    FeedConcat(c, head + r.empty, Requests.BodyText(r.body));
    LightJoin(c, head + r.empty, Requests.BodyText(r.body), bound);
  }

  /** One after the other, each with what the one before has left. */
  predicate AllFit(rs: seq<Request>, left: nat, bound: nat) {
    if rs == [] then left <= bound else Fits(rs[0], left, bound) && AllFit(rs[1..], LeftBy(rs[0].body), bound)
  }

  lemma {:induction false} FitsLess(rs: seq<Request>, left: nat, less: nat, bound: nat)
    requires AllFit(rs, left, bound) && less <= left
    ensures AllFit(rs, less, bound)
  {
  }

  /** Pipelined requests that fit one by one fit together. */
  lemma {:induction false} PipelineFits(c: Config, rs: seq<Request>, bound: nat)
    requires Running(c) && c.p.state.StartReq? && AreRequests(c.p.lenient, rs) && ArePipelined(rs)
    requires AllFit(rs, c.count, bound)
    ensures Light(c, RequestsText(rs), bound)
    decreases |rs|
  {
    if rs == [] {
      LightShort(c, "", bound);
    } else {
      var text := RequestText(rs[0]);
      var d := Feed(c, text);
      RequestFits(c, rs[0], bound);
      RequestRoundTrip(c, rs[0]);
      FitsLess(rs[1..], LeftBy(rs[0].body), d.count, bound);
      if |rs| > 1 {
        PipelineFits(d, rs[1..], bound);
      } else {
        LightShort(d, RequestsText(rs[1..]), bound);
      }
      LightJoin(c, text, RequestsText(rs[1..]), bound);
    }
  }

  /** What the requests leave on the count. */
  function LeftAfter(rs: seq<Request>, left: nat): nat {
    if rs == [] then left else LeftAfter(rs[1..], LeftBy(rs[0].body))
  }

  lemma {:induction false} LeftLess(rs: seq<Request>, left: nat, less: nat)
    requires less <= left
    ensures LeftAfter(rs, less) <= LeftAfter(rs, left)
  {
  }

  lemma {:induction false} PipelineLeft(c: Config, rs: seq<Request>, bound: nat)
    requires Running(c) && c.p.state.StartReq? && IsPipeline(c.p.lenient, rs) && AllFit(rs, c.count, bound)
    ensures Feed(c, RequestsText(rs)).count <= LeftAfter(rs, c.count)
    decreases |rs|
  {
    if rs != [] {
      var d := Feed(c, RequestText(rs[0]));
      FirstLeft(c, rs, bound);
      if |rs| > 1 {
        RestIsPipeline(c, rs);
        FitsLess(rs[1..], LeftBy(rs[0].body), d.count, bound);
        PipelineLeft(d, rs[1..], bound);
        LeftLess(rs[1..], LeftBy(rs[0].body), d.count);
      }
      FirstRead(c, rs);
    }
  }

  lemma {:induction false} FirstLeft(c: Config, rs: seq<Request>, bound: nat)
    requires Running(c) && c.p.state.StartReq? && IsPipeline(c.p.lenient, rs) && AllFit(rs, c.count, bound) && rs != []
    ensures Feed(c, RequestText(rs[0])).count <= LeftBy(rs[0].body)
    ensures |rs| == 1 ==> LeftAfter(rs, c.count) == LeftBy(rs[0].body)
  {
    assert Unfold(0);
    RequestFits(c, rs[0], bound);
  }
}
