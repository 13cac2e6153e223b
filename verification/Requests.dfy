/** Printed requests, one after the other, are read back as they were printed. */
module Requests {
  import opened Ascii
  import opened HttpTypes
  import opened ByteMachine
  import opened Tracking
  import opened Knowledge
  import opened Segments
  import opened Framing
  import opened RequestLine
  import opened HeaderLines
  import opened HeaderBlocks

  /** No body, a body of declared length, or a chunked body with trailers. */
  datatype Body =
    | NoBody
    | Sized(data: string)
    | Chunked(chunks: seq<BodyChunk>, size: string, extension: string, trailers: seq<Line>, empty: string)

  /** A request, with the line ends in front of it, the spaces between its method and its URL, and the line end that
      makes the empty line behind its headers. */
  datatype Request = Request(lead: string, verb: Method, spaces: string, url: string, protocol: Protocol,
                             lines: seq<Line>, empty: string, body: Body)

  // ----- what is printed -------------------------------------------------------------------------

  function BodyText(b: Body): string {
    match b
    case NoBody => ""
    case Sized(data) => data
    case Chunked(chunks, size, extension, trailers, empty) =>
      ChunksText(chunks) + (size + extension + "\r\n") + LinesText(trailers) + empty
  }

  function LineOf(r: Request): string {
    r.lead + (MethodString(r.verb) + r.spaces) + r.url + r.protocol.Text()
  }

  /** The request line and the headers. */
  function HeadText(r: Request): string {
    LineOf(r) + LinesText(r.lines)
  }

  function RequestText(r: Request): string {
    HeadText(r) + r.empty + BodyText(r.body)
  }

  // ----- what the headers say --------------------------------------------------------------------

  function HeadFlags(r: Request): Flags {
    LinesFlags(NO_FLAGS, r.lines)
  }

  function DeclaredLength(r: Request): nat {
    LinesLength(UNSET, r.lines)
  }

  predicate DeclaresBody(r: Request) {
    HeadFlags(r).chunked || 0 < DeclaredLength(r) < UNSET
  }

  predicate AsksForUpgrade(r: Request) {
    (HeadFlags(r).upgrade && HeadFlags(r).connectionUpgrade) || r.verb == CONNECT
  }

  /** The flags at the end of the message, with what the trailers set. */
  function EndFlags(r: Request): Flags {
    if r.body.Chunked? then LinesFlags(HeadFlags(r).(trailing := true), r.body.trailers) else HeadFlags(r)
  }

  /** Version 1.1 is kept alive unless `close` is seen, version 1.0 or 0.9 only if `keep-alive` is. */
  predicate KeptAlive(r: Request) {
    if r.protocol.Major() > 0 && r.protocol.Minor() > 0 then !EndFlags(r).close else EndFlags(r).keepAlive
  }

  // ----- what is called back ---------------------------------------------------------------------

  function BodyEvents(b: Body): seq<Event> {
    match b
    case NoBody => []
    case Sized(data) => [Data(DataKind.BodyText, data)]
    case Chunked(chunks, _, _, trailers, _) =>
      ChunksEvents(chunks) + [ChunkHeader(0)] + LinesEvents(trailers) + [ChunkComplete]
  }

  function HeadEvents(r: Request): seq<Event> {
    [MessageBegin, Data(UrlText, r.url)] + LinesEvents(r.lines)
  }

  function RequestEvents(r: Request): seq<Event> {
    HeadEvents(r) + [HeadersComplete(r.verb, AsksForUpgrade(r))] + BodyEvents(r.body) + [MessageComplete(KeptAlive(r))]
  }

  // ----- what is well formed ---------------------------------------------------------------------

  /** A chunked body, in a message whose headers have set these flags. */
  predicate IsChunkedBody(lenient: bool, flags: Flags, b: Body) {
    && b.Chunked? && (forall k :: k in b.chunks ==> IsChunk(k))
    && IsSize(b.size) && HexValue(b.size) == 0 && IsExtension(b.extension)
    && AreReadable(lenient, flags.(trailing := true), b.trailers) && IsLineEnd(b.empty)
  }

  /** The body is the one that the headers declare: none after CONNECT. */
  predicate IsFramed(lenient: bool, r: Request) {
    if r.verb == CONNECT || !DeclaresBody(r) then r.body.NoBody?
    else if HeadFlags(r).chunked then IsChunkedBody(lenient, HeadFlags(r), r.body)
    else r.body.Sized? && |r.body.data| == DeclaredLength(r)
  }

  predicate IsWellFormed(lenient: bool, r: Request) {
    && AreLineEnds(r.lead) && r.spaces != [] && AreSpaces(r.spaces) && r.protocol.Valid()
    && EndsUrl(UrlFold(r.verb == CONNECT, r.url))
    && AreReadable(lenient, NO_FLAGS, r.lines) && IsLineEnd(r.empty)
    && !(HeadFlags(r).chunked && HeadFlags(r).contentLength)
    && IsFramed(lenient, r)
  }

  ghost predicate IsRequest(lenient: bool, r: Request) {
    forall key {:trigger Unfold(key)} :: Unfold(key) ==> IsWellFormed(lenient, r)
  }

  // ----- the header block ------------------------------------------------------------------------

  /** The fields after the request line. */
  function AfterRequestLine(p: Fields, r: Request): Fields {
    p.(state := HeaderFieldStart, verb := r.verb, flags := NO_FLAGS, contentLength := UNSET,
       httpMajor := r.protocol.Major(), httpMinor := r.protocol.Minor())
  }

  /** Up to the end of the URL. */
  lemma {:induction false} MethodAndUrlRead(c: Config, r: Request)
    requires Running(c) && c.p.state.StartReq? && AreLineEnds(r.lead) && r.spaces != [] && AreSpaces(r.spaces)
    requires EndsUrl(UrlFold(r.verb == CONNECT, r.url))
    ensures At(Feed(c, r.lead + (MethodString(r.verb) + r.spaces) + r.url),
               AfterMethod(c.p, r.verb).(state := UrlFold(r.verb == CONNECT, r.url)),
               c.trace + [MessageBegin] + [Data(UrlText, r.url)])
  {
    var start := MethodString(r.verb) + r.spaces;
    LineEndsSkipped(c, r.lead);
    var d := Feed(c, r.lead);
    MethodAndSpaces(d, r.verb, r.spaces);
    UrlSegment(Feed(d, start), r.url);
    FeedConcat(c, r.lead, start);
    FeedConcat(c, r.lead + start, r.url);
  }

  lemma {:induction false} RequestLineRead(c: Config, r: Request)
    requires Running(c) && c.p.state.StartReq? && AreLineEnds(r.lead) && r.spaces != [] && AreSpaces(r.spaces)
    requires EndsUrl(UrlFold(r.verb == CONNECT, r.url)) && r.protocol.Valid()
    ensures Within(Feed(c, LineOf(r)), AfterRequestLine(c.p, r), c.trace + [MessageBegin, Data(UrlText, r.url)])
  {
    var start := r.lead + (MethodString(r.verb) + r.spaces) + r.url;
    MethodAndUrlRead(c, r);
    ProtocolSegment(Feed(c, start), r.protocol);
    FeedConcat(c, start, r.protocol.Text());
    Assoc(c.trace, [MessageBegin], [Data(UrlText, r.url)]);
  }

  /** The fields after the header lines. */
  function AfterHead(p: Fields, r: Request): Fields {
    AfterLines(AfterRequestLine(p, r), r.lines)
  }

  lemma HeadLinesRead(c: Config, r: Request)
    requires Running(c) && c.p.state.StartReq? && AreLineEnds(r.lead) && r.spaces != [] && AreSpaces(r.spaces)
    requires EndsUrl(UrlFold(r.verb == CONNECT, r.url)) && r.protocol.Valid()
    requires AreReadable(c.p.lenient, NO_FLAGS, r.lines)
    ensures Within(Feed(c, HeadText(r)), AfterHead(c.p, r), c.trace + HeadEvents(r))
  {
    var line := LineOf(r);
    var start := [MessageBegin, Data(UrlText, r.url)];
    RequestLineRead(c, r);
    LinesRead(Feed(c, line), r.lines, AfterRequestLine(c.p, r), c.trace + start);
    FeedConcat(c, line, LinesText(r.lines));
    Assoc(c.trace, start, LinesEvents(r.lines));
  }

  lemma HeadRead(c: Config, r: Request)
    requires Running(c) && c.p.state.StartReq? && IsRequest(c.p.lenient, r)
    ensures Within(Feed(c, HeadText(r)), AfterHead(c.p, r), c.trace + HeadEvents(r))
  {
    assert Unfold(0);
    HeadLinesRead(c, r);
  }

  // ----- the empty line --------------------------------------------------------------------------

  /** Past the headers of a message: not in its trailers, and without the two header fields that exclude each other. */
  predicate AreOver(p: Fields) {
    !p.flags.trailing && !(p.flags.chunked && p.flags.contentLength)
  }

  predicate Upgrades(p: Fields) {
    (p.flags.upgrade && p.flags.connectionUpgrade) || p.verb == CONNECT
  }

  predicate HasBody(p: Fields) {
    p.verb != CONNECT && (p.flags.chunked || 0 < p.contentLength != UNSET)
  }

  function StateAfter(p: Fields): State {
    if ShouldKeepAlive(p) then StartReq else Dead
  }

  function AfterHeaders(p: Fields): Fields {
    p.(upgrade := Upgrades(p),
       state := if !HasBody(p) then StateAfter(p)
                else if p.flags.chunked then State.Chunk(SizeStart)
                else BodyIdentity)
  }

  /** Past the empty line after the headers. */
  predicate HeadersOver(d: Config, p: Fields, trace: seq<Event>) {
    var q := AfterHeaders(p);
    && d.p == q.(headerState := d.p.headerState, index := d.p.index)
    && d.last == (if q.upgrade && !HasBody(p) then Exit else Consume)
    && d.trace == trace + [HeadersComplete(p.verb, q.upgrade)] +
                  if HasBody(p) then [] else [MessageComplete(ShouldKeepAlive(p))]
  }

  lemma HeadersEndLF(c: Config)
    requires Running(c) && c.p.state.HeadersAlmostDone? && AreOver(c.p)
    ensures HeadersOver(Next(c, LF), c.p, c.trace)
  {
    var o := HeadersAlmostDoneByte(c.p, LF);
    BiteTwice(c, LF, o, HeadersDoneByte(o.p, LF));
  }

  /** The empty line after the headers decides on upgrade and body, and ends a message without a body. */
  lemma EmptyLineRead(c: Config, p: Fields, trace: seq<Event>, end: string)
    requires Within(c, p, trace) && AreOver(p) && IsLineEnd(end)
    ensures HeadersOver(Feed(c, end), p, trace)
  {
    SettledFeed(c, end);
    var d := EmptyLineParts(Settled(c), end);
    HeadersEndLF(d);
  }

  /** A message is over. */
  predicate Over(e: Config, lenient: bool, keepAlive: bool, upgrade: bool, trace: seq<Event>) {
    && e.last == (if upgrade then Exit else Consume) && e.p.upgrade == upgrade && e.p.lenient == lenient
    && e.p.state == (if keepAlive then StartReq else Dead) && e.trace == trace
  }

  // ----- the body --------------------------------------------------------------------------------

  /** The byte that completes an identity body. */
  lemma LastBodyByte(c: Config, ch: char, r: Config)
    requires Leads(c, ch, r) && c.p.state.MessageDone?
    ensures Over(r, c.p.lenient, ShouldKeepAlive(c.p), c.p.upgrade, c.trace + [MessageComplete(ShouldKeepAlive(c.p))])
  {
    LeadsOn(c, ch, r, CompleteMessage(c.p, false, if c.p.upgrade then Exit else Consume));
  }

  lemma SizedBodyRead(c: Config, data: string)
    requires Running(c) && c.p.state.BodyIdentity? && 0 < |data| == c.p.contentLength < UNSET
    requires |c.trace| > 0 && c.trace[|c.trace| - 1].HeadersComplete?
    ensures Over(Feed(c, data), c.p.lenient, ShouldKeepAlive(c.p), c.p.upgrade,
                 c.trace + [Data(DataKind.BodyText, data)] + [MessageComplete(ShouldKeepAlive(c.p))])
  {
    var d := BodyDelivered(c, data);
    LastBodyByte(d, data[|data| - 1], Feed(c, data));
  }

  /** The fields after the size line of the last chunk, and after the trailers. */
  function AfterTrailers(p: Fields, trailers: seq<Line>): Fields {
    AfterLines(AfterSizeLine(p, 0), trailers)
  }

  /** The empty line behind the trailers. */
  lemma TrailersOver(c: Config, p: Fields, trace: seq<Event>, end: string)
    requires Within(c, p, trace) && p.flags.trailing && IsLineEnd(end)
    ensures Over(Feed(c, end), p.lenient, ShouldKeepAlive(p), p.upgrade,
                 trace + [ChunkComplete, MessageComplete(ShouldKeepAlive(p))])
  {
    SettledFeed(c, end);
    TrailersEnd(Settled(c), end);
  }

  /** The last chunk, the trailers and the empty line. */
  lemma LastChunkAndTrailers(c: Config, size: string, extension: string, trailers: seq<Line>, end: string)
    requires Running(c) && ReadsSize(c.p) && IsSize(size) && HexValue(size) == 0 && IsExtension(extension)
    requires AreReadable(c.p.lenient, c.p.flags.(trailing := true), trailers) && IsLineEnd(end)
    ensures var keepAlive := ShouldKeepAlive(AfterTrailers(c.p, trailers));
            Over(Feed(c, size + extension + "\r\n" + LinesText(trailers) + end), c.p.lenient, keepAlive, c.p.upgrade,
                 c.trace + [ChunkHeader(0)] + LinesEvents(trailers) + [ChunkComplete, MessageComplete(keepAlive)])
  {
    var line := size + extension + "\r\n";
    SizeLineRead(c, size, extension);
    var d := Feed(c, line);
    FeedConcat(c, line, LinesText(trailers));
    LinesRead(d, trailers, d.p, d.trace);
    var e := Feed(d, LinesText(trailers));
    FeedConcat(c, line + LinesText(trailers), end);
    TrailersOver(e, AfterTrailers(c.p, trailers), d.trace + LinesEvents(trailers), end);
  }

  /** A chunked body; a trailer can still decide whether the connection is kept alive. */
  lemma ChunkedBodyRead(c: Config, b: Body)
    requires Running(c) && ReadsSize(c.p) && IsChunkedBody(c.p.lenient, c.p.flags, b)
    ensures var keepAlive := ShouldKeepAlive(AfterTrailers(c.p, b.trailers));
            Over(Feed(c, BodyText(b)), c.p.lenient, keepAlive, c.p.upgrade,
                 c.trace + BodyEvents(b) + [MessageComplete(keepAlive)])
  {
    var chunks := ChunksText(b.chunks);
    var rest := b.size + b.extension + "\r\n" + LinesText(b.trailers) + b.empty;
    var d := Feed(c, chunks);
    ChunksRead(c, b.chunks);
    LastChunkAndTrailers(d, b.size, b.extension, b.trailers, b.empty);
    SameTrailers(c.p, d.p, b.trailers);
    FeedConcat(c, chunks, rest);
    ChunkedTextIs(b);
    ChunkedEventsAdd(c.trace, b, MessageComplete(ShouldKeepAlive(AfterTrailers(c.p, b.trailers))));
  }

  lemma SameTrailers(p: Fields, q: Fields, trailers: seq<Line>)
    requires q == p || q == p.(contentLength := 0)
    ensures AfterTrailers(p, trailers) == AfterTrailers(q, trailers)
  {
  }

  lemma ChunkedTextIs(b: Body)
    requires b.Chunked?
    ensures BodyText(b) == ChunksText(b.chunks) + (b.size + b.extension + "\r\n" + LinesText(b.trailers) + b.empty)
  {
  }

  lemma ChunkedEventsAdd(trace: seq<Event>, b: Body, done: Event)
    requires b.Chunked?
    ensures trace + ChunksEvents(b.chunks) + [ChunkHeader(0)] + LinesEvents(b.trailers) + [ChunkComplete, done]
         == trace + BodyEvents(b) + [done]
  {
  }

  // ----- requests --------------------------------------------------------------------------------

  /** The fields after the headers of `r`, `p`, say about it what its text does. */
  predicate FitsRequest(p: Fields, r: Request) {
    && p.verb == r.verb && p.flags == HeadFlags(r) && p.contentLength == DeclaredLength(r) <= UNSET
    && p.httpMajor == r.protocol.Major() && p.httpMinor == r.protocol.Minor()
  }

  lemma HeadFits(p: Fields, r: Request)
    requires IsRequest(p.lenient, r)
    ensures FitsRequest(AfterHead(p, r), r)
  {
    assert Unfold(0);
    LengthInRange(p.lenient, NO_FLAGS, UNSET, r.lines);
  }

  lemma RequestIsFramed(p: Fields, r: Request)
    requires FitsRequest(p, r) && IsRequest(p.lenient, r)
    ensures AreOver(p) && Upgrades(p) == AsksForUpgrade(r)
    ensures HasBody(p) <==> !r.body.NoBody?
    ensures r.body.Sized? ==> !p.flags.chunked && |r.body.data| == p.contentLength
    ensures r.body.Chunked? ==> p.flags.chunked && IsChunkedBody(p.lenient, p.flags, r.body)
  {
    assert Unfold(0);
  }

  lemma KeepAliveIs(p: Fields, r: Request)
    requires FitsRequest(p, r)
    ensures !r.body.Chunked? ==> ShouldKeepAlive(p) == KeptAlive(r)
    ensures r.body.Chunked? ==> ShouldKeepAlive(AfterTrailers(p, r.body.trailers)) == KeptAlive(r)
  {
  }

  lemma KeepAliveSame(p: Fields, q: Fields, trailers: seq<Line>)
    requires q == p.(headerState := q.headerState, index := q.index, state := q.state, upgrade := q.upgrade)
    ensures ShouldKeepAlive(p) == ShouldKeepAlive(q)
    ensures ShouldKeepAlive(AfterTrailers(p, trailers)) == ShouldKeepAlive(AfterTrailers(q, trailers))
  {
  }

  lemma BodyRead(d: Config, r: Request, p: Fields, trace: seq<Event>)
    requires HeadersOver(d, p, trace) && FitsRequest(p, r) && IsRequest(p.lenient, r)
    ensures Over(Feed(d, BodyText(r.body)), p.lenient, KeptAlive(r), AsksForUpgrade(r),
                 trace + [HeadersComplete(r.verb, AsksForUpgrade(r))] + BodyEvents(r.body) +
                 [MessageComplete(KeptAlive(r))])
  {
    var head := trace + [HeadersComplete(r.verb, AsksForUpgrade(r))];
    RequestIsFramed(p, r);
    KeepAliveIs(p, r);
    assert head + [] == head;
    if r.body.Sized? {
      KeepAliveSame(p, d.p, []);
      SizedBodyRead(d, r.body.data);
    } else if r.body.Chunked? {
      KeepAliveSame(p, d.p, r.body.trailers);
      ChunkedBodyRead(d, r.body);
    }
  }

  lemma EmptyLineIs(lenient: bool, r: Request)
    requires IsRequest(lenient, r)
    ensures IsLineEnd(r.empty)
  {
    assert Unfold(0);
  }

  /** Every well-formed request is read back as it was printed. */
  lemma RequestRoundTrip(c: Config, r: Request)
    requires Running(c) && c.p.state.StartReq? && IsRequest(c.p.lenient, r)
    ensures Over(Feed(c, RequestText(r)), c.p.lenient, KeptAlive(r), AsksForUpgrade(r), c.trace + RequestEvents(r))
  {
    var head := HeadText(r);
    var p := AfterHead(c.p, r);
    var t := c.trace + HeadEvents(r);
    HeadRead(c, r);
    HeadFits(c.p, r);
    RequestIsFramed(p, r);
    EmptyLineIs(c.p.lenient, r);
    EmptyLineRead(Feed(c, head), p, t, r.empty);
    FeedConcat(c, head, r.empty);
    BodyRead(Feed(c, head + r.empty), r, p, t);
    FeedConcat(c, head + r.empty, BodyText(r.body));
    RequestEventsAdd(c.trace, r);
  }

  lemma RequestEventsAdd(trace: seq<Event>, r: Request)
    ensures trace + HeadEvents(r) + [HeadersComplete(r.verb, AsksForUpgrade(r))] + BodyEvents(r.body) +
            [MessageComplete(KeptAlive(r))]
         == trace + RequestEvents(r)
  {
  }

  function RequestsText(rs: seq<Request>): string {
    if rs == [] then "" else RequestText(rs[0]) + RequestsText(rs[1..])
  }

  function RequestsEvents(rs: seq<Request>): seq<Event> {
    if rs == [] then [] else RequestEvents(rs[0]) + RequestsEvents(rs[1..])
  }

  ghost predicate AreRequests(lenient: bool, rs: seq<Request>) {
    rs == [] || (IsRequest(lenient, rs[0]) && AreRequests(lenient, rs[1..]))
  }

  /** All but the last one keep the connection alive. */
  predicate ArePipelined(rs: seq<Request>) {
    |rs| <= 1 || (KeptAlive(rs[0]) && ArePipelined(rs[1..]))
  }

  function EndState(rs: seq<Request>): State {
    if rs == [] then StartReq else if |rs| == 1 && !KeptAlive(rs[0]) then Dead else EndState(rs[1..])
  }

  /** Pipelined requests are read back as they were printed. */
  lemma {:induction false} PipelineRoundTrip(c: Config, rs: seq<Request>)
    requires Running(c) && c.p.state.StartReq? && AreRequests(c.p.lenient, rs) && ArePipelined(rs)
    ensures var e := Feed(c, RequestsText(rs));
            Running(e) && e.trace == c.trace + RequestsEvents(rs) && e.p.state == EndState(rs)
    decreases |rs|
  {
    if rs == [] {
      assert c.trace + [] == c.trace;
    } else {
      var text := RequestText(rs[0]);
      RequestRoundTrip(c, rs[0]);
      FeedConcat(c, text, RequestsText(rs[1..]));
      Assoc(c.trace, RequestEvents(rs[0]), RequestsEvents(rs[1..]));
      if |rs| > 1 || KeptAlive(rs[0]) {
        PipelineRoundTrip(Feed(c, text), rs[1..]);
      } else {
        LastRequest(rs);
      }
    }
  }

  /** Past a message, with or without a return for an upgrade. */
  predicate Returns(e: Config, upgrade: bool) {
    e.p.upgrade == upgrade && e.last == if upgrade then Exit else Consume
  }

  lemma {:induction false} FirstRead(c: Config, rs: seq<Request>)
    requires rs != []
    ensures Feed(c, RequestsText(rs)) == Feed(Feed(c, RequestText(rs[0])), RequestsText(rs[1..]))
    ensures |rs| == 1 ==> Feed(c, RequestsText(rs)) == Feed(c, RequestText(rs[0]))
  {
    FeedConcat(c, RequestText(rs[0]), RequestsText(rs[1..]));
    if |rs| == 1 {
      LastRequest(rs);
    }
  }

  lemma {:induction false} RequestReturns(c: Config, r: Request)
    requires Running(c) && c.p.state.StartReq? && IsRequest(c.p.lenient, r)
    ensures var e := Feed(c, RequestText(r));
            && Returns(e, AsksForUpgrade(r)) && e.p.lenient == c.p.lenient
            && (KeptAlive(r) ==> e.p.state.StartReq?)
  {
    RequestRoundTrip(c, r);
  }

  /** Requests that can be sent one after the other. */
  ghost predicate IsPipeline(lenient: bool, rs: seq<Request>) {
    forall key {:trigger Unfold(key)} :: Unfold(key) ==> AreRequests(lenient, rs) && ArePipelined(rs)
  }

  lemma {:induction false} RestIsPipeline(c: Config, rs: seq<Request>)
    requires Running(c) && c.p.state.StartReq? && IsPipeline(c.p.lenient, rs) && |rs| > 1
    ensures var d := Feed(c, RequestText(rs[0]));
            Running(d) && d.p.state.StartReq? && IsPipeline(d.p.lenient, rs[1..])
    ensures |rs[1..]| > 0 && rs[1..][|rs| - 2] == rs[|rs| - 1]
  {
    assert Unfold(0);
    RequestReturns(c, rs[0]);
  }

  lemma {:induction false} OnlyReturns(c: Config, rs: seq<Request>)
    requires Running(c) && c.p.state.StartReq? && IsPipeline(c.p.lenient, rs) && |rs| == 1
    ensures Returns(Feed(c, RequestsText(rs)), AsksForUpgrade(rs[0]))
  {
    assert Unfold(0);
    RequestReturns(c, rs[0]);
    FirstRead(c, rs);
  }

  /** http_parser_execute returns behind the last of them exactly if it asks for an upgrade. */
  lemma {:induction false} PipelineReturns(c: Config, rs: seq<Request>, last: Request)
    requires Running(c) && c.p.state.StartReq? && IsPipeline(c.p.lenient, rs) && rs != [] && rs[|rs| - 1] == last
    ensures Returns(Feed(c, RequestsText(rs)), AsksForUpgrade(last))
    decreases |rs|
  {
    if |rs| > 1 {
      RestIsPipeline(c, rs);
      FirstRead(c, rs);
      PipelineReturns(Feed(c, RequestText(rs[0])), rs[1..], last);
    } else {
      OnlyReturns(c, rs);
    }
  }

  lemma LastRequest(rs: seq<Request>)
    requires |rs| == 1
    ensures RequestsText(rs[1..]) == "" && RequestsEvents(rs) == RequestEvents(rs[0])
  {
    assert rs[1..] == [];
  }
}
