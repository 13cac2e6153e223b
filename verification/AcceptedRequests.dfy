/** The parser accepts nothing but the texts of well-formed requests. */
module AcceptedRequests {
  import opened Ascii
  import opened HttpTypes
  import opened ByteMachine
  import opened Callbacks
  import opened HttpParser
  import opened Tracking
  import opened Knowledge
  import opened Segments
  import opened Framing
  import opened RequestLine
  import opened HeaderLines
  import opened HeaderBlocks
  import opened Requests
  import opened Refusals
  import opened Acceptance
  import opened AcceptedLines

  // ----- bodies ------------------------------------------------------------------------------------

  lemma MidBody(p: Fields, ch: char)
    requires ReadsBody(p.state) && (p.state.Chunk? ==> p.flags.chunked) && 1 < p.contentLength < UNSET
    ensures var o := Micro(p, ch);
            o.act == Consume && o.p == p.(contentLength := p.contentLength - 1)
  {
  }

  /** Short of its length, a body goes on. */
  lemma {:induction false} BodyGoesOnWith(c: Config, s: string)
    requires Running(c) && ReadsBody(c.p.state) && (c.p.state.Chunk? ==> c.p.flags.chunked)
    requires |s| < c.p.contentLength < UNSET
    ensures Running(Feed(c, s)) && Feed(c, s).p == c.p.(contentLength := c.p.contentLength - |s|)
  {
    if s != [] {
      var t, ch := s[..|s| - 1], s[|s| - 1];
      BodyGoesOnWith(c, t);
      MidBody(Feed(c, t).p, ch);
      Bite(Feed(c, t), ch, Micro(Feed(c, t).p, ch));
    }
  }

  lemma {:induction false} SplitData(c: Config, s: string) returns (data: string, rest: string)
    requires Running(c) && ReadsBody(c.p.state) && (c.p.state.Chunk? ==> c.p.flags.chunked)
    requires 0 < c.p.contentLength < UNSET && Accepts(c, s)
    ensures s == data + rest && |data| == c.p.contentLength && Accepts(Feed(c, data), rest)
  {
    var n := c.p.contentLength;
    if |s| < n {
      BodyGoesOnWith(c, s);
      assert s == s + [];
      AcceptsRest(c, s, []);
      AcceptsNothing(Feed(c, s));
    }
    data, rest := s[..n], s[n..];
    assert s == data + rest;
    AcceptsRest(c, data, rest);
  }

  lemma {:induction false} LFIsNext(d: Config, s: string) returns (rest: string)
    requires Running(d) && d.p.state.Chunk? && d.p.flags.chunked && Accepts(d, s)
    requires d.p.state.chunk.SizeAlmostDone? || d.p.state.chunk.DataDone?
    ensures s == [LF] + rest && Accepts(Next(d, LF), rest)
  {
    AcceptsNext(d, s);
    if s[0] != LF {
      ChunkEndRefused(d, s[0]);
    }
    rest := s[1..];
  }

  lemma {:induction false} CRIsNext(d: Config, s: string) returns (rest: string)
    requires Running(d) && d.p.state == State.Chunk(DataAlmostDone) && d.p.flags.chunked && d.p.contentLength == 0
    requires Accepts(d, s)
    ensures s == [CR] + rest && Accepts(Next(d, CR), rest)
  {
    AcceptsNext(d, s);
    if s[0] != CR {
      ChunkEndRefused(d, s[0]);
    }
    rest := s[1..];
  }

  /** The data of a chunk and the line end behind it. */
  lemma {:induction false} SplitChunkData(d: Config, s: string) returns (data: string, rest: string)
    requires Running(d) && d.p.state == State.Chunk(ChunkData) && d.p.flags.chunked && 0 < d.p.contentLength < UNSET
    requires Accepts(d, s)
    ensures s == data + "\r\n" + rest && |data| == d.p.contentLength && Accepts(Feed(d, data + "\r\n"), rest)
  {
    var more;
    data, more := SplitData(d, s);
    Framing.BodyRead(d, data);
    var e := Feed(d, data);
    var behind := CRIsNext(e, more);
    ChunkDataCR(e);
    rest := LFIsNext(Next(e, CR), behind);
    FeedTwo(e, CR, LF);
    FeedConcat(d, data, "\r\n");
    LineEndInTwo(data, rest);
  }

  lemma LineEndInTwo(a: string, b: string)
    ensures a + ([CR] + ([LF] + b)) == a + "\r\n" + b
  {
  }

  /** The size at the start of a size line. */
  lemma {:induction false} SplitSize(c: Config, s: string) returns (size: string, rest: string)
    requires Running(c) && ReadsSize(c.p) && Accepts(c, s)
    ensures s == size + rest && IsSize(size) && Accepts(Feed(c, size), rest)
    ensures rest != [] && (rest[0] == CR || rest[0] == ';' || rest[0] == ' ')
  {
    AcceptsNext(c, s);
    if Unhex(s[0]) < 0 {
      SizeStartRefused(c, s[0]);
    }
    size, rest := SplitSpan(ch => Unhex(ch) >= 0, s);
    assert size != [] && size[0] == s[0];
    AcceptsRest(c, size, rest);
    ChunkSizeIsExact(c, size);
    AcceptsNext(Feed(c, size), rest);
    if rest[0] != CR && rest[0] != ';' && rest[0] != ' ' {
      SizeRefused(Feed(c, size), rest[0]);
    }
  }

  /** The extension, and the CR behind it. */
  lemma {:induction false} SplitExtension(d: Config, s: string) returns (extension: string, rest: string)
    requires Running(d) && d.p.state == State.Chunk(Size) && d.p.flags.chunked && Accepts(d, s)
    requires s != [] && (s[0] == CR || s[0] == ';' || s[0] == ' ')
    ensures s == extension + [CR] + rest && IsExtension(extension) && Accepts(Next(Feed(d, extension), CR), rest)
    ensures var e := Next(Feed(d, extension), CR);
            Running(e) && e.p == d.p.(state := State.Chunk(SizeAlmostDone))
  {
    var more;
    extension, more := SplitSpan(ch => ch != CR, s);
    assert extension != [] ==> extension[0] == s[0];
    AcceptsRest(d, extension, more);
    if extension != [] {
      ParametersRead(d, extension);
    }
    AcceptsNext(Feed(d, extension), more);
    SizeLineCR(Feed(d, extension));
    rest := more[1..];
    assert more == [CR] + rest;
    TwoParts(extension, [CR], rest);
  }

  lemma {:induction false} SplitSizeLine(c: Config, s: string) returns (size: string, extension: string, rest: string)
    requires Running(c) && ReadsSize(c.p) && Accepts(c, s)
    ensures s == size + extension + "\r\n" + rest && IsSize(size) && IsExtension(extension)
    ensures Accepts(Feed(c, size + extension + "\r\n"), rest)
  {
    var s1, s2;
    size, s1 := SplitSize(c, s);
    ChunkSizeIsExact(c, size);
    extension, s2 := SplitExtension(Feed(c, size), s1);
    rest := LFIsNext(Next(Feed(Feed(c, size), extension), CR), s2);
    FeedConcat(c, size, extension);
    FeedConcat(c, size + extension, "\r\n");
    FeedTwo(Feed(c, size + extension), CR, LF);
    SizeLineInParts(size, extension, rest);
  }

  lemma SizeLineInParts(size: string, extension: string, rest: string)
    ensures size + (extension + [CR] + ([LF] + rest)) == size + extension + "\r\n" + rest
  {
  }

  // ----- chunked bodies ----------------------------------------------------------------------------

  function SizeLine(size: string, extension: string): string {
    size + extension + "\r\n"
  }

  /** Chunks that have been read, the size line of the last one, and what follows. */
  ghost predicate ChunksAreSplit(c: Config, s: string, chunks: seq<BodyChunk>, size: string, extension: string,
                                 rest: string) {
    forall key {:trigger Unfold(key)} :: Unfold(key) ==>
      && s == ChunksText(chunks) + SizeLine(size, extension) + rest && (forall k :: k in chunks ==> IsChunk(k))
      && IsSize(size) && HexValue(size) == 0 && IsExtension(extension)
      && Accepts(Feed(Feed(c, ChunksText(chunks)), SizeLine(size, extension)), rest)
  }

  lemma {:induction false} NoChunks(c: Config, s: string, size: string, extension: string, rest: string)
    requires s == SizeLine(size, extension) + rest && IsSize(size) && HexValue(size) == 0 && IsExtension(extension)
    requires Accepts(Feed(c, SizeLine(size, extension)), rest)
    ensures ChunksAreSplit(c, s, [], size, extension, rest)
  {
    assert "" + SizeLine(size, extension) == SizeLine(size, extension);
  }

  lemma {:induction false} FirstChunkText(k: BodyChunk, chunks: seq<BodyChunk>)
    ensures ChunksText([k] + chunks) == ChunkText(k) + ChunksText(chunks)
  {
    assert ([k] + chunks)[1..] == chunks;
  }

  lemma {:induction false} OneMoreChunk(c: Config, s: string, k: BodyChunk, more: string, chunks: seq<BodyChunk>,
                                        size: string, extension: string, rest: string)
    requires s == ChunkText(k) + more && IsChunk(k)
    requires ChunksAreSplit(Feed(c, ChunkText(k)), more, chunks, size, extension, rest)
    ensures ChunksAreSplit(c, s, [k] + chunks, size, extension, rest)
  {
    assert Unfold(0);
    FirstChunkText(k, chunks);
    FeedConcat(c, ChunkText(k), ChunksText(chunks));
    FourParts(ChunkText(k), ChunksText(chunks), SizeLine(size, extension), rest);
  }

  /** One chunk. */
  lemma {:induction false} SplitChunk(c: Config, s: string, size: string, extension: string, more: string)
    returns (k: BodyChunk, rest: string)
    requires Running(c) && ReadsSize(c.p) && s == SizeLine(size, extension) + more
    requires IsSize(size) && HexValue(size) > 0 && IsExtension(extension)
    requires Accepts(Feed(c, SizeLine(size, extension)), more)
    ensures s == ChunkText(k) + rest && IsChunk(k) && Accepts(Feed(c, ChunkText(k)), rest)
    ensures var d := Feed(c, ChunkText(k)); Running(d) && ReadsSize(d.p) && d.p == c.p.(contentLength := 0)
  {
    var d, line := Feed(c, SizeLine(size, extension)), SizeLine(size, extension);
    SizeLineRead(c, size, extension);
    var data;
    data, rest := SplitChunkData(d, more);
    k := BodyChunk(size, extension, data);
    FeedConcat(c, line, data + "\r\n");
    TwoParts(line, data + "\r\n", rest);
    ChunkRead(c, k);
  }

  lemma {:induction false} SplitChunks(c: Config, s: string)
    returns (chunks: seq<BodyChunk>, size: string, extension: string, rest: string)
    requires Running(c) && ReadsSize(c.p) && Accepts(c, s)
    ensures ChunksAreSplit(c, s, chunks, size, extension, rest)
    decreases |s|
  {
    var more;
    size, extension, more := SplitSizeLine(c, s);
    if HexValue(size) == 0 {
      chunks, rest := [], more;
      NoChunks(c, s, size, extension, rest);
    } else {
      var k, behind := SplitChunk(c, s, size, extension, more);
      chunks, size, extension, rest := SplitChunks(Feed(c, ChunkText(k)), behind);
      OneMoreChunk(c, s, k, behind, chunks, size, extension, rest);
      chunks := [k] + chunks;
    }
  }

  /** A header block or trailers do not start with a blank. */
  lemma {:induction false} StartIsFresh(d: Config, s: string)
    requires Running(d) && d.p.state.HeaderFieldStart? && Accepts(d, s)
    ensures StartsFresh(s)
  {
    AcceptsNext(d, s);
    if IsBlankByte(s[0]) {
      NameRefused(d, s[0]);
    }
  }

  /** A chunked body that has been read, and what follows. */
  ghost predicate BodyIsSplit(c: Config, s: string, b: Body, rest: string) {
    forall key {:trigger Unfold(key)} :: Unfold(key) ==>
      s == Requests.BodyText(b) + rest && Accepts(Feed(c, Requests.BodyText(b)), rest)
  }

  /** The size line of the last chunk leads to the trailers. */
  lemma {:induction false} LastSizeLine(c: Config, chunks: seq<BodyChunk>, size: string, extension: string)
    requires Running(c) && ReadsSize(c.p) && (forall k :: k in chunks ==> IsChunk(k))
    requires IsSize(size) && HexValue(size) == 0 && IsExtension(extension)
    ensures var d := Feed(Feed(c, ChunksText(chunks)), SizeLine(size, extension));
            && Within(d, d.p, d.trace) && d.p.state.HeaderFieldStart? && Running(d)
            && d.p.lenient == c.p.lenient && d.p.flags == c.p.flags.(trailing := true)
  {
    ChunksRead(c, chunks);
    SizeLineRead(Feed(c, ChunksText(chunks)), size, extension);
  }

  lemma {:induction false} ChunkedIsSplit(c: Config, s: string, chunks: seq<BodyChunk>, size: string, extension: string,
                                          s1: string, trailers: seq<Line>, empty: string, rest: string, flags: Flags)
    requires ChunksAreSplit(c, s, chunks, size, extension, s1)
    requires LinesAreSplit(Feed(Feed(c, ChunksText(chunks)), SizeLine(size, extension)), s1, c.p.lenient,
                           flags.(trailing := true), trailers, empty, rest)
    ensures var b := Chunked(chunks, size, extension, trailers, empty);
            BodyIsSplit(c, s, b, rest) && IsChunkedBody(c.p.lenient, flags, b)
  {
    assert Unfold(0);
    var a, l, t := ChunksText(chunks), SizeLine(size, extension), LinesText(trailers);
    FeedConcat(c, a, l);
    FeedConcat(c, a + l, t);
    FeedConcat(c, a + l + t, empty);
    FiveTexts(a, l, t, empty, rest);
  }

  lemma FiveTexts(a: string, b: string, c: string, d: string, e: string)
    ensures a + b + (c + d + e) == a + b + c + d + e
  {
  }

  lemma {:induction false} SplitChunkedBody(c: Config, s: string) returns (b: Body, rest: string)
    requires Running(c) && ReadsSize(c.p) && Accepts(c, s)
    ensures BodyIsSplit(c, s, b, rest) && IsChunkedBody(c.p.lenient, c.p.flags, b)
  {
    var chunks, size, extension, s1 := SplitChunks(c, s);
    var trailers, empty;
    trailers, empty, rest := SplitTrailers(c, s, chunks, size, extension, s1);
    b := Chunked(chunks, size, extension, trailers, empty);
    ChunkedIsSplit(c, s, chunks, size, extension, s1, trailers, empty, rest, c.p.flags);
  }

  lemma {:induction false} SplitTrailers(c: Config, s: string, chunks: seq<BodyChunk>, size: string, extension: string,
                                         s1: string) returns (trailers: seq<Line>, empty: string, rest: string)
    requires Running(c) && ReadsSize(c.p) && ChunksAreSplit(c, s, chunks, size, extension, s1)
    ensures LinesAreSplit(Feed(Feed(c, ChunksText(chunks)), SizeLine(size, extension)), s1, c.p.lenient,
                          c.p.flags.(trailing := true), trailers, empty, rest)
  {
    assert Unfold(0);
    var d := Feed(Feed(c, ChunksText(chunks)), SizeLine(size, extension));
    LastSizeLine(c, chunks, size, extension);
    StartIsFresh(d, s1);
    trailers, empty, rest := SplitLines(d, s1, d.p, d.trace);
  }

  // ----- heads -------------------------------------------------------------------------------------

  /** The head of a request that has been read, and what follows. */
  ghost predicate HeadIsSplit(c: Config, s: string, r: Request, rest: string) {
    forall key {:trigger Uncover(key)} :: Uncover(key) ==>
      && s == HeadText(r) + r.empty + rest && IsHead(c.p.lenient, r)
      && Running(Feed(c, HeadText(r) + r.empty)) && Accepts(Feed(c, HeadText(r) + r.empty), rest)
  }

  /** A request line. */
  lemma {:induction false} SplitRequestLine(c: Config, s: string) returns (r: Request, rest: string)
    requires Running(c) && c.p.state.StartReq? && Accepts(c, s) && !AreLineEnds(s)
    ensures s == LineOf(r) + rest && Accepts(Feed(c, LineOf(r)), rest) && r.lines == []
    ensures AreLineEnds(r.lead) && r.spaces != [] && AreSpaces(r.spaces) && r.protocol.Valid()
    ensures EndsUrl(UrlFold(r.verb == CONNECT, r.url))
  {
    var lead, s1 := SplitLineEnds(s);
    AcceptsRest(c, lead, s1);
    LineEndsSkipped(c, lead);
    var m, spaces, url, s4 := SplitMethodAndUrl(Feed(c, lead), s1);
    var v;
    v, rest := SplitProtocol(Feed(Feed(c, lead), MethodString(m) + spaces + url), s4);
    r := Request(lead, m, spaces, url, v, [], "\n", NoBody);
    FeedConcat(c, lead, MethodString(m) + spaces + url);
    FeedConcat(c, lead + (MethodString(m) + spaces + url), v.Text());
    LineTextIs(r, rest);
  }

  lemma LineTextIs(r: Request, rest: string)
    ensures LineOf(r) == r.lead + (MethodString(r.verb) + r.spaces + r.url) + r.protocol.Text()
    ensures LineOf(r) + rest == r.lead + (MethodString(r.verb) + r.spaces + r.url + (r.protocol.Text() + rest))
  {
  }

  lemma {:induction false} SplitLineEnds(s: string) returns (a: string, b: string)
    requires !AreLineEnds(s)
    ensures s == a + b && AreLineEnds(a) && b != [] && b[0] != CR && b[0] != LF
  {
    var k := FirstOther(s);
    a, b := s[..k], s[k..];
  }

  lemma {:induction false} SplitMethodAndUrl(c: Config, s: string)
    returns (m: Method, spaces: string, url: string, rest: string)
    requires Running(c) && c.p.state.StartReq? && s != [] && s[0] != CR && s[0] != LF && Accepts(c, s)
    ensures s == MethodString(m) + spaces + url + rest && spaces != [] && AreSpaces(spaces)
    ensures EndsUrl(UrlFold(m == CONNECT, url)) && rest != [] && EndsWord(rest[0])
    ensures var d := Feed(c, MethodString(m) + spaces + url);
            Running(d) && d.p.state == UrlFold(m == CONNECT, url) && Accepts(d, rest)
  {
    var s1, more;
    m, s1 := SplitMethod(c, s);
    var start := MethodString(m) + " ";
    more, url, rest := SplitUrl(Feed(c, start), s1);
    spaces := " " + more;
    FeedConcat(c, start, more);
    FeedConcat(c, start + more, url);
    assert start + more == MethodString(m) + spaces;
    MethodTextIs(start, more, url, rest);
  }

  lemma MethodTextIs(start: string, more: string, url: string, rest: string)
    ensures start + (more + url + rest) == start + more + url + rest
  {
  }

  /** The header lines behind a request line. */
  lemma {:induction false} SplitHead(c: Config, s: string) returns (r: Request, rest: string)
    requires Running(c) && c.p.state.StartReq? && Accepts(c, s) && !AreLineEnds(s)
    ensures HeadIsSplit(c, s, r, rest) && r.body.NoBody?
  {
    var line, s1 := SplitRequestLine(c, s);
    var d := Feed(c, LineOf(line));
    RequestLineRead(c, line);
    LineIsOver(c, line);
    StartIsFresh(d, s1);
    var lines, empty;
    lines, empty, rest :=
      SplitLines(d, s1, AfterRequestLine(c.p, line), c.trace + [MessageBegin, Data(UrlText, line.url)]);
    r := line.(lines := lines, empty := empty, body := NoBody);
    HeadIs(c, s, line, s1, r, rest);
  }

  lemma {:induction false} LineIsOver(c: Config, r: Request)
    requires Running(c) && c.p.state.StartReq? && AreLineEnds(r.lead) && r.spaces != [] && AreSpaces(r.spaces)
    requires EndsUrl(UrlFold(r.verb == CONNECT, r.url)) && r.protocol.Valid()
    ensures var d := Feed(c, LineOf(r)); Running(d) && d.p.state.HeaderFieldStart?
  {
    var start := r.lead + (MethodString(r.verb) + r.spaces) + r.url;
    MethodAndUrlRead(c, r);
    ProtocolSegment(Feed(c, start), r.protocol);
    FeedConcat(c, start, r.protocol.Text());
  }

  lemma {:induction false} HeadIs(c: Config, s: string, line: Request, s1: string, r: Request, rest: string)
    requires s == LineOf(line) + s1 && r == line.(lines := r.lines, empty := r.empty, body := NoBody)
    requires AreLineEnds(r.lead) && r.spaces != [] && AreSpaces(r.spaces) && r.protocol.Valid()
    requires EndsUrl(UrlFold(r.verb == CONNECT, r.url))
    requires LinesAreSplit(Feed(c, LineOf(line)), s1, c.p.lenient, NO_FLAGS, r.lines, r.empty, rest)
    ensures HeadIsSplit(c, s, r, rest)
  {
    assert Unfold(0);
    assert LineOf(r) == LineOf(line);
    FeedConcat(c, LineOf(r), LinesText(r.lines));
    FeedConcat(c, HeadText(r), r.empty);
    FourParts(LineOf(r), LinesText(r.lines), r.empty, rest);
    RunsToTheEnd(Feed(c, HeadText(r) + r.empty), rest);
  }

  lemma {:induction false} RunsToTheEnd(d: Config, s: string)
    requires Accepts(d, s)
    ensures Running(d)
  {
    assert s == [] + s;
    AcceptsRest(d, [], s);
  }

  // ----- requests ----------------------------------------------------------------------------------

  /** Where the headers are over, and what they say. */
  lemma {:induction false} HeadIsOver(c: Config, s: string, r: Request, rest: string)
    requires Running(c) && c.p.state.StartReq? && HeadIsSplit(c, s, r, rest)
    ensures !AreInConflict(HeadFlags(r))
    ensures var p := AfterHead(c.p, r);
            && HeadersOver(Feed(c, HeadText(r) + r.empty), p, c.trace + HeadEvents(r)) && AreOver(p)
            && p.flags == HeadFlags(r) && p.contentLength == DeclaredLength(r) <= UNSET && p.verb == r.verb
            && p.lenient == c.p.lenient
  {
    assert Uncover(0);
    HeadIsExact(c, r);
    HeadLinesOver(c, r);
  }

  lemma {:induction false} HeadLinesOver(c: Config, r: Request)
    requires Running(c) && c.p.state.StartReq? && IsHead(c.p.lenient, r) && !AreInConflict(HeadFlags(r))
    ensures var p := AfterHead(c.p, r);
            && HeadersOver(Feed(c, HeadText(r) + r.empty), p, c.trace + HeadEvents(r)) && AreOver(p)
            && p.contentLength == DeclaredLength(r) <= UNSET
  {
    assert Unfold(0);
    HeadLinesRead(c, r);
    LengthInRange(c.p.lenient, NO_FLAGS, UNSET, r.lines);
    FeedConcat(c, HeadText(r), r.empty);
    EmptyLineRead(Feed(c, HeadText(r)), AfterHead(c.p, r), c.trace + HeadEvents(r), r.empty);
  }

  /** The body that the headers declare. */
  lemma {:induction false} SplitBody(d: Config, s: string, r: Request, p: Fields, trace: seq<Event>)
    returns (b: Body, rest: string)
    requires HeadersOver(d, p, trace) && AreOver(p) && Accepts(d, s)
    requires p.flags == HeadFlags(r) && p.contentLength == DeclaredLength(r) <= UNSET && p.verb == r.verb
    ensures BodyIsSplit(d, s, b, rest) && IsFramed(p.lenient, r.(body := b))
  {
    if !HasBody(p) {
      b, rest := NoBody, s;
      assert "" + s == s;
    } else if p.flags.chunked {
      b, rest := SplitChunkedBody(d, s);
    } else {
      var data;
      data, rest := SplitData(d, s);
      b := Sized(data);
    }
  }

  /** A request that has been read, and what follows. */
  ghost predicate RequestIsSplit(c: Config, s: string, r: Request, rest: string) {
    forall key {:trigger Uncover(key)} :: Uncover(key) ==>
      s == RequestText(r) + rest && IsRequest(c.p.lenient, r) && Accepts(Feed(c, RequestText(r)), rest)
  }

  lemma {:induction false} RequestIs(c: Config, s: string, h: Request, s1: string, b: Body, rest: string)
    requires HeadIsSplit(c, s, h, s1) && !AreInConflict(HeadFlags(h))
    requires BodyIsSplit(Feed(c, HeadText(h) + h.empty), s1, b, rest) && IsFramed(c.p.lenient, h.(body := b))
    ensures RequestIsSplit(c, s, h.(body := b), rest)
  {
    assert Uncover(0) && Unfold(0);
    var r := h.(body := b);
    FeedConcat(c, HeadText(h) + h.empty, Requests.BodyText(b));
    assert HeadText(r) == HeadText(h) && RequestText(r) == HeadText(h) + h.empty + Requests.BodyText(b);
    TwoParts(HeadText(h) + h.empty, Requests.BodyText(b), rest);
  }

  lemma {:induction false} SplitRequest(c: Config, s: string) returns (r: Request, rest: string)
    requires Running(c) && c.p.state.StartReq? && Accepts(c, s) && !AreLineEnds(s)
    ensures RequestIsSplit(c, s, r, rest)
  {
    var h, s1 := SplitHead(c, s);
    HeadIsOver(c, s, h, s1);
    AcceptsBody(c, s, h, s1);
    var b;
    b, rest := SplitBody(Feed(c, HeadText(h) + h.empty), s1, h, AfterHead(c.p, h), c.trace + HeadEvents(h));
    RequestIs(c, s, h, s1, b, rest);
    r := h.(body := b);
  }

  lemma AcceptsBody(c: Config, s: string, h: Request, s1: string)
    requires HeadIsSplit(c, s, h, s1)
    ensures Accepts(Feed(c, HeadText(h) + h.empty), s1)
  {
    assert Uncover(0);
  }

  /** Requests that have been read, and line ends behind them. */
  ghost predicate AreSplit(lenient: bool, s: string, rs: seq<Request>, ends: string) {
    forall key {:trigger Unfold(key)} :: Unfold(key) ==>
      s == RequestsText(rs) + ends && AreLineEnds(ends) && AreRequests(lenient, rs) && ArePipelined(rs)
  }

  lemma {:induction false} NoRequests(lenient: bool, ends: string)
    requires AreLineEnds(ends)
    ensures AreSplit(lenient, ends, [], ends)
  {
    assert "" + ends == ends;
  }

  lemma {:induction false} OneRequest(lenient: bool, r: Request)
    requires IsRequest(lenient, r)
    ensures RequestsText([r]) == RequestText(r) && AreRequests(lenient, [r]) && ArePipelined([r])
  {
    assert [r][1..] == [];
    assert RequestText(r) + "" == RequestText(r);
  }

  lemma {:induction false} LastOfAll(c: Config, s: string, r: Request, ends: string)
    requires RequestIsSplit(c, s, r, ends) && AreLineEnds(ends)
    ensures AreSplit(c.p.lenient, s, [r], ends)
  {
    assert Uncover(0);
    OneRequest(c.p.lenient, r);
  }

  lemma {:induction false} OneMoreRequest(c: Config, s: string, r: Request, more: string, rs: seq<Request>,
                                          ends: string)
    requires RequestIsSplit(c, s, r, more) && AreSplit(c.p.lenient, more, rs, ends) && KeptAlive(r)
    ensures AreSplit(c.p.lenient, s, [r] + rs, ends)
  {
    assert Uncover(0) && Unfold(0);
    assert ([r] + rs)[1..] == rs;
    TwoParts(RequestText(r), RequestsText(rs), ends);
  }

  /** Where a request leads. */
  lemma {:induction false} RequestLeads(c: Config, s: string, r: Request, rest: string)
    requires Running(c) && c.p.state.StartReq? && RequestIsSplit(c, s, r, rest)
    ensures var d := Feed(c, RequestText(r));
            && Running(d) && d.p.lenient == c.p.lenient && Accepts(d, rest)
            && d.p.state == if KeptAlive(r) then StartReq else Dead
    ensures |rest| < |s|
  {
    assert Uncover(0);
    RequestRoundTrip(c, r);
    RequestIsLong(r);
  }

  lemma RequestIsLong(r: Request)
    ensures |RequestText(r)| > 0
  {
    MethodLetters(r.verb);
  }

  lemma {:induction false} OnlyLineEnds(d: Config, s: string)
    requires Running(d) && d.p.state.Dead? && Accepts(d, s)
    ensures AreLineEnds(s)
  {
    assert Unfold(0);
    DeadIsExact(d, s);
  }

  /** Whatever the machine accepts, from where a message starts to where it is between two messages, is the text of
      well-formed requests one after the other, and line ends behind them. */
  lemma {:induction false} SplitRequests(c: Config, s: string) returns (rs: seq<Request>, ends: string)
    requires Running(c) && c.p.state.StartReq? && Accepts(c, s)
    ensures AreSplit(c.p.lenient, s, rs, ends)
    decreases |s|
  {
    if AreLineEnds(s) {
      rs, ends := [], s;
      NoRequests(c.p.lenient, s);
    } else {
      var r, more := SplitRequest(c, s);
      RequestLeads(c, s, r, more);
      if KeptAlive(r) {
        rs, ends := SplitRequests(Feed(c, RequestText(r)), more);
        OneMoreRequest(c, s, r, more, rs, ends);
        rs := [r] + rs;
      } else {
        OnlyLineEnds(Feed(c, RequestText(r)), more);
        rs, ends := [r], more;
        LastOfAll(c, s, r, more);
      }
    }
  }

  /** And the other way round: such a text is accepted, with the callbacks of its requests. */
  lemma {:induction false} RequestsAreAccepted(lenient: bool, s: string, rs: seq<Request>, ends: string)
    requires AreSplit(lenient, s, rs, ends)
    ensures Accepts(Start(lenient), s) && Feed(Start(lenient), s).trace == RequestsEvents(rs)
  {
    assert Unfold(0);
    var d := Feed(Start(lenient), RequestsText(rs));
    PipelineRoundTrip(Start(lenient), rs);
    assert [] + RequestsEvents(rs) == RequestsEvents(rs);
    FeedConcat(Start(lenient), RequestsText(rs), ends);
    EndIsBetween(rs);
    LineEndsBetween(d, ends);
  }

  lemma {:induction false} EndIsBetween(rs: seq<Request>)
    ensures IsBetween(EndState(rs))
    decreases |rs|
  {
    if rs != [] {
      EndIsBetween(rs[1..]);
    }
  }

  lemma {:induction false} LineEndsBetween(d: Config, ends: string)
    requires Running(d) && IsBetween(d.p.state) && AreLineEnds(ends)
    ensures var e := Feed(d, ends); Running(e) && IsBetween(e.p.state) && e.trace == d.trace
  {
    if d.p.state.StartReq? {
      LineEndsSkipped(d, ends);
    } else {
      DeadIsExact(d, ends);
    }
  }

  /** The language of the parser: it reads a stream without an error, and is between two messages at its end, if and
      only if the stream is well-formed requests one after the other, all but the last of which keep the connection
      alive, and line ends behind them. */
  lemma {:induction false} LanguageIsExact(lenient: bool, s: string)
    ensures Accepts(Start(lenient), s) <==> exists rs, ends :: AreSplit(lenient, s, rs, ends)
  {
    if Accepts(Start(lenient), s) {
      var rs, ends := SplitRequests(Start(lenient), s);
      assert AreSplit(lenient, s, rs, ends);
    }
    if rs, ends :| AreSplit(lenient, s, rs, ends) {
      RequestsAreAccepted(lenient, s, rs, ends);
    }
  }

  /** What a parser between two messages has been fed, in buffers cut in any way, are well-formed requests, and it has
      made their callbacks. */
  lemma {:induction false} FedIsPrinted(parser: Parser) returns (rs: seq<Request>, ends: string)
    requires parser.Valid() && parser.errno == OK && (parser.state.StartReq? || parser.state.Dead?)
    ensures AreSplit(parser.lenient, parser.fed, rs, ends) && Join(parser.trace) == RequestsEvents(rs)
  {
    ParserIsBetween(parser);
    rs, ends := SplitRequests(Start(parser.lenient), parser.fed);
    RequestsAreAccepted(parser.lenient, parser.fed, rs, ends);
  }

  lemma {:induction false} ParserIsBetween(parser: Parser)
    requires parser.Valid() && parser.errno == OK && (parser.state.StartReq? || parser.state.Dead?)
    ensures Accepts(Start(parser.lenient), parser.fed)
    ensures Join(parser.trace) == Feed(Start(parser.lenient), parser.fed).trace
  {
  }
}
