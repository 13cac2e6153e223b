/** What holds of the machine in every state it can reach. */
module Invariant {
  import opened Ascii
  import opened HttpTypes
  import opened ByteMachine
  import opened Grammar

  /** The largest Content-Length and the largest chunk size that the overflow tests let through. */
  const MAX_CONTENT_LENGTH: nat := 18446744073709551609
  const MAX_CHUNK_SIZE: nat := 18446744073709551599

  /** No header has been read yet. */
  predicate Fresh(p: Fields) {
    p.flags == NO_FLAGS && p.contentLength == UNSET
  }

  /** What the flags and content_length say to each other while headers or trailers are read. */
  predicate HeaderFacts(p: Fields) {
    && (p.flags.trailing ==> p.flags.chunked)
    && (p.flags.contentLength ==> p.contentLength <= MAX_CONTENT_LENGTH)
    && (!p.flags.trailing && !p.flags.contentLength ==> p.contentLength == UNSET)
  }

  /** The header states that can arise while a field name is read, with `index` inside the word. */
  predicate FieldScan(h: HeaderState, index: nat) {
    && IsFieldNameState(h)
    && (h.SeenC? ==> index == 0)
    && (h.SeenCO? ==> index == 1)
    && (h.SeenCON? ==> index == 2)
    && (h.MatchingConnection? ==> 3 <= index < 9)
    && (h.MatchingProxyConnection? ==> index < 15)
    && (h.MatchingContentLength? ==> 3 <= index < 13)
    && (h.MatchingTransferEncoding? ==> index < 16)
    && (h.MatchingUpgrade? ==> index < 6)
  }

  /** The same for header values. */
  predicate ValueScan(h: HeaderState, index: nat) {
    && IsValueState(h)
    && (h.MatchingChunked? ==> index < 6)
    && (h.MatchingKeepAlive? ==> index < 9)
    && (h.MatchingClose? ==> index < 4)
    && (h.MatchingUpgradeToken? ==> index < 6)
    && (h.TokenStart? ==> index == 0)
  }

  /** The header states in which a line of a header value can end. */
  predicate IsValueState(h: HeaderState) {
    h.General? || h.ContentLength? || h.TokenStart? || h.MatchingToken? || h.TransferChunked? ||
    MatchesToken(h) || CompleteToken(h)
  }

  predicate ValueFacts(p: Fields) {
    HeaderFacts(p) && (p.headerState.ContentLength? ==> p.flags.contentLength)
  }

  predicate ChunkFacts(p: Fields) {
    p.flags.chunked && !p.flags.trailing && !p.flags.contentLength
  }

  predicate AfterFieldName(s: State) {
    s.HeaderValueDiscardWs? || s.HeaderValueDiscardWsAlmostDone? || s.HeaderValueDiscardLws?
  }

  predicate AroundValue(s: State) {
    s.HeaderValueStart? || s.HeaderValueLws? || s.HeaderAlmostDone?
  }

  predicate StateInv(p: Fields) {
    var s := p.state;
    if s.HeaderFieldStart? || s.HeadersAlmostDone? then HeaderFacts(p)
    else if s.HeaderField? then HeaderFacts(p) && FieldScan(p.headerState, p.index)
    else if AfterFieldName(s) then HeaderFacts(p) && IsFieldNameState(p.headerState)
    else if s.HeaderValue? then ValueFacts(p) && ValueScan(p.headerState, p.index)
    else if AroundValue(s) then ValueFacts(p) && IsValueState(p.headerState)
    else if s.HeadersDone? then
      HeaderFacts(p) && !p.flags.trailing && !(p.flags.chunked && p.flags.contentLength)
    else if s.Chunk? then
      && ChunkFacts(p)
      && (s.chunk.SizeStart? || p.contentLength <= MAX_CHUNK_SIZE)
      && (s.chunk.ChunkData? ==> 0 < p.contentLength)
      && (s.chunk.DataAlmostDone? || s.chunk.DataDone? ==> p.contentLength == 0)
    else if s.BodyIdentity? then
      !p.flags.chunked && !p.flags.trailing && p.flags.contentLength && 0 < p.contentLength <= MAX_CONTENT_LENGTH
    else if s.MessageDone? then p.flags.trailing || (p.flags.contentLength && p.contentLength == 0)
    else if s.Dead? || s.StartReq? then true
    else if s.ReqMethod? then Fresh(p) && 1 <= p.index <= |MethodString(p.verb)|
    else Fresh(p)  // the URL and version states
  }

  /** The places of the callback grammar that go with a parser state. */
  predicate PlaceInv(p: Fields, g: Place) {
    var s := p.state;
    var trailing := p.flags.trailing;
    if s.HeaderFieldStart? || s.HeadersAlmostDone? then
      if trailing then g.LastChunkOpen? || g.InTrailerValue? else g.InUrl? || g.InValue?
    else if s.HeaderField? || AfterFieldName(s) then if trailing then g.InTrailerField? else g.InField?
    else if s.HeaderValue? || AroundValue(s) then if trailing then g.InTrailerValue? else g.InValue?
    else if s.HeadersDone? then g.HeadersOver?
    else if s.Chunk? then
      match s.chunk
      case ChunkData => g.ChunkOpen? || g.InChunk?
      case DataAlmostDone => g.InChunk?
      case DataDone => g.InChunk?
      case _ => g.HeadersOver? || g.ChunkClosed?
    else if s.BodyIdentity? then g.HeadersOver? || g.InBody?
    else if s.MessageDone? then if trailing then g.LastChunkClosed? else g.InBody?
    else if s.Dead? then g.Closed?
    else if s.StartReq? then g.Idle?
    else if s.ReqMethod? || s.ReqSpacesBeforeUrl? then g.Begun?
    else g.InUrl?  // the URL and version states
  }

  predicate FieldsInv(p: Fields) {
    p.errno == OK && p.index <= 18 && StateInv(p)
  }

  predicate Survives(act: Act) {
    act == Consume || act == Exit || act == Reexecute
  }

  /** No `assert` fails, an error is reported exactly when the pass fails, and a chunk size starts
      with the count of header bytes at zero. */
  predicate Sound(o: Outcome) {
    && o.act != AssertionFails
    && (o.act == Fail ==> o.p.errno != OK && o.p.errno != HeaderOverflow && o.event == None)
    && (o.act != Fail ==> o.p.errno == OK && (AtSizeStart(o.p.state) ==> o.resetCount))
  }

  /** What one pass through the switch does to the invariant on the fields. */
  predicate PassKeeps(o: Outcome) {
    Sound(o) && (o.act != Fail ==> FieldsInv(o.p))
  }

  /** What it does to the place in the callback grammar. */
  predicate PassAdvances(g: Place, o: Outcome) {
    Survives(o.act) ==> PlaceInv(o.p, match o.event case None => g case Some(e) => Advance(g, e))
  }

  lemma StartReqPass(p: Fields, ch: char, g: Place)
    requires FieldsInv(p) && PlaceInv(p, g) && p.state.StartReq?
    ensures PassKeeps(StartReqByte(p, ch))
    ensures PassAdvances(g, StartReqByte(p, ch))
  {
  }

  lemma MethodKeeps(p: Fields, ch: char)
    requires FieldsInv(p) && p.state.ReqMethod?
    ensures PassKeeps(MethodByte(p, ch))
  {
  }

  lemma MethodAdvances(p: Fields, ch: char, g: Place)
    requires PlaceInv(p, g) && p.state.ReqMethod?
    ensures PassAdvances(g, MethodByte(p, ch))
  {
  }

  lemma UrlKeeps(p: Fields, ch: char)
    requires FieldsInv(p) && (p.state.ReqSpacesBeforeUrl? || p.state.Url?)
    ensures PassKeeps(UrlByte(p, ch))
  {
  }

  lemma UrlAdvances(p: Fields, ch: char, g: Place)
    requires PlaceInv(p, g) && (p.state.ReqSpacesBeforeUrl? || p.state.Url?)
    requires !p.flags.trailing
    ensures PassAdvances(g, UrlByte(p, ch))
  {
  }

  lemma VersionPass(p: Fields, ch: char, g: Place)
    requires FieldsInv(p) && PlaceInv(p, g) && p.state.Version?
    ensures PassKeeps(VersionByte(p, p.state.version, ch))
    ensures PassAdvances(g, VersionByte(p, p.state.version, ch))
  {
  }

  lemma FieldStartKeeps(p: Fields, ch: char)
    requires FieldsInv(p) && p.state.HeaderFieldStart?
    ensures PassKeeps(FieldStartByte(p, ch))
  {
  }

  lemma FieldStartAdvances(p: Fields, ch: char, g: Place)
    requires FieldsInv(p) && PlaceInv(p, g) && p.state.HeaderFieldStart?
    ensures PassAdvances(g, FieldStartByte(p, ch))
  {
  }

  lemma FieldNextScans(h: HeaderState, index: nat, c: char)
    requires FieldScan(h, index)
    ensures FieldScan(FieldNext(h, index, c), FieldIndex(h, index))
  {
  }

  lemma FieldKeeps(p: Fields, ch: char)
    requires FieldsInv(p) && p.state.HeaderField?
    ensures PassKeeps(FieldByte(p, ch))
  {
    FieldNextScans(p.headerState, p.index, Token(ch));
  }

  lemma FieldAdvances(p: Fields, ch: char, g: Place)
    requires FieldsInv(p) && PlaceInv(p, g) && p.state.HeaderField?
    ensures PassAdvances(g, FieldByte(p, ch))
  {
  }

  lemma DiscardLwsPass(p: Fields, ch: char, g: Place)
    requires FieldsInv(p) && PlaceInv(p, g) && p.state.HeaderValueDiscardLws?
    ensures PassKeeps(DiscardLwsByte(p, ch))
    ensures PassAdvances(g, DiscardLwsByte(p, ch))
  {
  }

  lemma ValueStartKeeps(p: Fields, ch: char)
    requires FieldsInv(p) && (p.state.HeaderValueStart? || p.state.HeaderValueDiscardWs?)
    ensures PassKeeps(ValueStartByte(p, ch))
  {
  }

  lemma ValueStartAdvances(p: Fields, ch: char, g: Place)
    requires PlaceInv(p, g) && (p.state.HeaderValueStart? || p.state.HeaderValueDiscardWs?)
    ensures PassAdvances(g, ValueStartByte(p, ch))
  {
  }

  lemma DiscardWsKeeps(p: Fields, ch: char)
    requires FieldsInv(p) && p.state.HeaderValueDiscardWs?
    ensures PassKeeps(DiscardWsByte(p, ch))
  {
    if ch != ' ' && ch != '\t' && ch != CR && ch != LF {
      ValueStartKeeps(p, ch);
      assert DiscardWsByte(p, ch) == ValueStartByte(p, ch);
    }
  }

  lemma DiscardWsAdvances(p: Fields, ch: char, g: Place)
    requires PlaceInv(p, g) && p.state.HeaderValueDiscardWs?
    ensures PassAdvances(g, DiscardWsByte(p, ch))
  {
    if ch != ' ' && ch != '\t' && ch != CR && ch != LF {
      ValueStartAdvances(p, ch, g);
      assert DiscardWsByte(p, ch) == ValueStartByte(p, ch);
    }
  }

  lemma ValueNextScans(h: HeaderState, index: nat, ch: char)
    requires ValueScan(h, index)
    ensures ValueScan(ValueNext(h, index, ch), ValueIndex(h, index, ch))
    ensures ValueNext(h, index, ch).ContentLength? ==> h.ContentLength?
  {
  }

  lemma ValueLengthBounded(h: HeaderState, length: nat, ch: char)
    requires h.ContentLength? ==> length <= MAX_CONTENT_LENGTH
    ensures var r := ValueLength(h, length, ch);
            r.Some? ==> if h.ContentLength? then r.value <= MAX_CONTENT_LENGTH else r.value == length
  {
  }

  lemma ValueStepKeeps(p: Fields, ch: char)
    requires FieldsInv(p) && p.state.HeaderValue?
    ensures PassKeeps(ValueStep(p, ch))
  {
    ValueNextScans(p.headerState, p.index, ch);
    ValueLengthBounded(p.headerState, p.contentLength, ch);
  }

  lemma ValueKeeps(p: Fields, ch: char)
    requires FieldsInv(p) && p.state.HeaderValue?
    ensures PassKeeps(ValueByte(p, ch))
  {
    if ch == CR || ch == LF {
      LineEndKeeps(p);
    } else {
      ValueStepKeeps(p, ch);
    }
  }

  lemma LineEndKeeps(p: Fields)
    requires FieldsInv(p) && p.state.HeaderValue?
    ensures PassKeeps(Eat(p.(state := HeaderAlmostDone))) && PassKeeps(Again(p.(state := HeaderAlmostDone)))
  {
  }

  lemma ValueAdvances(p: Fields, ch: char, g: Place)
    requires FieldsInv(p) && PlaceInv(p, g) && p.state.HeaderValue?
    ensures PassAdvances(g, ValueByte(p, ch))
  {
  }

  lemma ValueLwsPass(p: Fields, ch: char, g: Place)
    requires FieldsInv(p) && PlaceInv(p, g) && p.state.HeaderValueLws?
    ensures PassKeeps(ValueLwsByte(p, ch))
    ensures PassAdvances(g, ValueLwsByte(p, ch))
  {
  }

  lemma HeadersAlmostDonePass(p: Fields, ch: char, g: Place)
    requires FieldsInv(p) && PlaceInv(p, g) && p.state.HeadersAlmostDone?
    ensures PassKeeps(HeadersAlmostDoneByte(p, ch))
    ensures PassAdvances(g, HeadersAlmostDoneByte(p, ch))
  {
  }

  lemma HeadersDoneKeeps(p: Fields, ch: char)
    requires FieldsInv(p) && p.state.HeadersDone?
    ensures PassKeeps(HeadersDoneByte(p, ch))
  {
  }

  lemma HeadersDoneAdvances(p: Fields, ch: char, g: Place)
    requires FieldsInv(p) && PlaceInv(p, g) && p.state.HeadersDone?
    ensures PassAdvances(g, HeadersDoneByte(p, ch))
  {
  }

  lemma ChunkSizeKeeps(p: Fields, ch: char)
    requires FieldsInv(p) && p.state.Chunk? && (p.state.chunk.SizeStart? || p.state.chunk.Size?)
    ensures PassKeeps(ChunkByte(p, p.state.chunk, ch))
  {
  }

  lemma ChunkKeeps(p: Fields, ch: char)
    requires FieldsInv(p) && p.state.Chunk? && !p.state.chunk.SizeStart? && !p.state.chunk.Size?
    ensures PassKeeps(ChunkByte(p, p.state.chunk, ch))
  {
    if p.state.chunk.Parameters? || p.state.chunk.SizeAlmostDone? {
      SizeLineKeeps(p, ch);
    } else {
      ChunkDataKeeps(p, ch);
    }
  }

  lemma SizeLineKeeps(p: Fields, ch: char)
    requires FieldsInv(p) && (p.state == Chunk(Parameters) || p.state == Chunk(SizeAlmostDone))
    ensures PassKeeps(ChunkByte(p, p.state.chunk, ch))
  {
  }

  lemma ChunkDataKeeps(p: Fields, ch: char)
    requires FieldsInv(p) && p.state.Chunk?
    requires p.state.chunk.ChunkData? || p.state.chunk.DataAlmostDone? || p.state.chunk.DataDone?
    ensures PassKeeps(ChunkByte(p, p.state.chunk, ch))
  {
  }

  lemma ChunkAdvances(p: Fields, ch: char, g: Place)
    requires FieldsInv(p) && PlaceInv(p, g) && p.state.Chunk?
    ensures PassAdvances(g, ChunkByte(p, p.state.chunk, ch))
  {
    var s := p.state.chunk;
    if s.ChunkData? || s.DataAlmostDone? || s.DataDone? {
      ChunkDataAdvances(p, ch, g);
    } else {
      SizeLineAdvances(p, ch, g);
    }
  }

  lemma SizeLineAdvances(p: Fields, ch: char, g: Place)
    requires FieldsInv(p) && PlaceInv(p, g) && p.state.Chunk?
    requires !p.state.chunk.ChunkData? && !p.state.chunk.DataAlmostDone? && !p.state.chunk.DataDone?
    ensures PassAdvances(g, ChunkByte(p, p.state.chunk, ch))
  {
  }

  lemma ChunkDataAdvances(p: Fields, ch: char, g: Place)
    requires FieldsInv(p) && PlaceInv(p, g) && p.state.Chunk?
    requires p.state.chunk.ChunkData? || p.state.chunk.DataAlmostDone? || p.state.chunk.DataDone?
    ensures PassAdvances(g, ChunkByte(p, p.state.chunk, ch))
  {
  }

  lemma BodyIdentityPass(p: Fields, ch: char, g: Place)
    requires FieldsInv(p) && PlaceInv(p, g) && p.state.BodyIdentity?
    ensures PassKeeps(BodyByte(p, ch, MessageDone, Reexecute))
    ensures PassAdvances(g, BodyByte(p, ch, MessageDone, Reexecute))
  {
  }

  lemma MessageDonePass(p: Fields, ch: char, g: Place)
    requires FieldsInv(p) && PlaceInv(p, g) && p.state.MessageDone?
    ensures PassKeeps(CompleteMessage(p, false, if p.upgrade then Exit else Consume))
    ensures PassAdvances(g, CompleteMessage(p, false, if p.upgrade then Exit else Consume))
  {
  }

  predicate InRequestLine(s: State) {
    s.Dead? || s.StartReq? || s.ReqMethod? || s.ReqSpacesBeforeUrl? || s.Url? || s.Version?
  }

  lemma RequestLinePass(p: Fields, ch: char, g: Place)
    requires FieldsInv(p) && PlaceInv(p, g) && InRequestLine(p.state)
    ensures PassKeeps(Micro(p, ch)) && PassAdvances(g, Micro(p, ch))
  {
    match p.state
    case StartReq => StartReqPass(p, ch, g);
    case ReqMethod => MethodKeeps(p, ch); MethodAdvances(p, ch, g);
    case Version(_) => VersionPass(p, ch, g);
    case Dead =>
    case _ => UrlKeeps(p, ch); UrlAdvances(p, ch, g);
  }

  lemma HeaderPass(p: Fields, ch: char, g: Place)
    requires FieldsInv(p) && PlaceInv(p, g)
    requires p.state.HeaderFieldStart? || p.state.HeaderField? || AfterFieldName(p.state)
    ensures PassKeeps(Micro(p, ch)) && PassAdvances(g, Micro(p, ch))
  {
    match p.state
    case HeaderFieldStart => FieldStartKeeps(p, ch); FieldStartAdvances(p, ch, g);
    case HeaderField => FieldKeeps(p, ch); FieldAdvances(p, ch, g);
    case HeaderValueDiscardWs => DiscardWsKeeps(p, ch); DiscardWsAdvances(p, ch, g);
    case HeaderValueDiscardLws => DiscardLwsPass(p, ch, g);
    case HeaderValueDiscardWsAlmostDone =>
  }

  lemma HeaderValuePass(p: Fields, ch: char, g: Place)
    requires FieldsInv(p) && PlaceInv(p, g)
    requires p.state.HeaderValue? || AroundValue(p.state)
    ensures PassKeeps(Micro(p, ch)) && PassAdvances(g, Micro(p, ch))
  {
    match p.state
    case HeaderValueStart => ValueStartKeeps(p, ch); ValueStartAdvances(p, ch, g);
    case HeaderValue => ValueKeeps(p, ch); ValueAdvances(p, ch, g);
    case HeaderValueLws => ValueLwsPass(p, ch, g);
    case HeaderAlmostDone =>
  }

  lemma BodyPass(p: Fields, ch: char, g: Place)
    requires FieldsInv(p) && PlaceInv(p, g)
    requires p.state.HeadersAlmostDone? || p.state.HeadersDone? || p.state.Chunk? || p.state.BodyIdentity? ||
             p.state.MessageDone?
    ensures PassKeeps(Micro(p, ch)) && PassAdvances(g, Micro(p, ch))
  {
    match p.state
    case HeadersAlmostDone => HeadersAlmostDonePass(p, ch, g);
    case HeadersDone => HeadersDoneKeeps(p, ch); HeadersDoneAdvances(p, ch, g);
    case Chunk(s) =>
      if s.SizeStart? || s.Size? { ChunkSizeKeeps(p, ch); } else { ChunkKeeps(p, ch); }
      ChunkAdvances(p, ch, g);
    case BodyIdentity => BodyIdentityPass(p, ch, g);
    case MessageDone => MessageDonePass(p, ch, g);
  }

  lemma Pass(p: Fields, ch: char, g: Place)
    requires FieldsInv(p) && PlaceInv(p, g)
    ensures PassKeeps(Micro(p, ch)) && PassAdvances(g, Micro(p, ch))
  {
    var s := p.state;
    if InRequestLine(s) {
      RequestLinePass(p, ch, g);
    } else if s.HeaderFieldStart? || s.HeaderField? || AfterFieldName(s) {
      HeaderPass(p, ch, g);
    } else if s.HeaderValue? || AroundValue(s) {
      HeaderValuePass(p, ch, g);
    } else {
      BodyPass(p, ch, g);
    }
  }

  /** A place that goes with a state. */
  function SomePlace(p: Fields): Place {
    var s := p.state;
    var trailing := p.flags.trailing;
    if s.HeaderFieldStart? || s.HeadersAlmostDone? then if trailing then LastChunkOpen else InUrl
    else if s.HeaderField? || AfterFieldName(s) then if trailing then InTrailerField else InField
    else if s.HeaderValue? || AroundValue(s) then if trailing then InTrailerValue else InValue
    else if s.HeadersDone? || s.BodyIdentity? then HeadersOver
    else if s.Chunk? then if ParsingHeader(s) then ChunkClosed else InChunk
    else if s.MessageDone? then if trailing then LastChunkClosed else InBody
    else if s.Dead? then Closed
    else if s.StartReq? then Idle
    else if s.ReqMethod? || s.ReqSpacesBeforeUrl? then Begun
    else InUrl
  }

  lemma SomePlaceFits(p: Fields)
    ensures PlaceInv(p, SomePlace(p))
  {
  }

  lemma PassIsSound(p: Fields, ch: char)
    requires FieldsInv(p)
    ensures PassKeeps(Micro(p, ch))
  {
    SomePlaceFits(p);
    Pass(p, ch, SomePlace(p));
  }

  // ----- reachable configurations --------------------------------------------------------------

  ghost predicate Inv(c: Config) {
    && Survives(c.last)
    && FieldsInv(c.p)
    && PlaceInv(c.p, PlaceOf(c.trace))
    && (AtSizeStart(c.p.state) ==> c.count == 0)
  }

  /** What is left of the invariant once an error has been reported. */
  ghost predicate InvOrFailed(c: Config) {
    if c.last == Fail then c.p.errno != OK && PlaceOf(c.trace) != Wrong else Inv(c)
  }

  lemma ApplyInv(c: Config, o: Outcome)
    requires PlaceInv(c.p, PlaceOf(c.trace)) && PassKeeps(o) && PassAdvances(PlaceOf(c.trace), o)
    ensures InvOrFailed(Apply(c, o))
  {
    if o.event.Some? {
      EmitAdvances(c.trace, o.event.value);
    }
  }

  lemma {:induction false} StepByteInv(c: Config, ch: char)
    requires FieldsInv(c.p) && PlaceInv(c.p, PlaceOf(c.trace))
    ensures InvOrFailed(StepByte(c, ch))
    decreases Rank(c.p.state)
  {
    var o := Micro(c.p, ch);
    Pass(c.p, ch, PlaceOf(c.trace));
    ApplyInv(c, o);
    if o.act == Reexecute {
      ReexecuteDecreasesRank(c.p, ch);
      StepByteInv(Apply(c, o), ch);
    }
  }

  lemma NextInv(c: Config, ch: char)
    requires InvOrFailed(c)
    ensures InvOrFailed(Next(c, ch))
  {
    if Running(c) {
      StepByteInv(if ParsingHeader(c.p.state) then c.(count := c.count + 1) else c, ch);
    }
  }

  /** The invariant holds in every configuration reachable from http_parser_init, and no `assert` of
      the source ever fails. */
  lemma {:induction false} ReachableInv(lenient: bool, data: string)
    ensures InvOrFailed(Feed(Start(lenient), data))
  {
    if data != [] {
      ReachableInv(lenient, data[..|data| - 1]);
      NextInv(Feed(Start(lenient), data[..|data| - 1]), data[|data| - 1]);
    }
  }
}
