/** The parser knows its message: URL, headers and body length, in every state it can reach. */
module Knowledge {
  import opened Ascii
  import opened HttpTypes
  import opened UrlMachine
  import opened ByteMachine
  import opened Invariant
  import opened Tracking
  import opened Message
  import opened Evidence
  import opened Meaning

  // ----- the headers, in the states that leave them alone ----------------------------------------

  predicate LeavesHeaders(p: Fields, o: Outcome) {
    Survives(o.act) ==>
      if o.event == Some(MessageBegin) then PartOf(o.p.state).Whole? && o.p.flags == NO_FLAGS
      else
        && PartOf(o.p.state).Whole? && SameEvidence(p.flags, o.p.flags)
        && (o.event.Some? && o.event.value.Data? ==> !o.event.value.kind.FieldText? && !o.event.value.kind.ValueText?)
  }

  lemma LeavesHeadersKnown(p: Fields, m: Message, o: Outcome)
    requires PartOf(p.state).Whole? && HeadersKnown(p, m) && LeavesHeaders(p, o)
    ensures HeadersLearnt(m, o)
  {
    if Survives(o.act) {
      SameFlagsEvident(p.flags, o.p.flags, m.headers);
    }
  }

  lemma SameFlagsEvident(flags: Flags, flags': Flags, headers: seq<Header>)
    requires FlagsEvident(flags, headers, Whole)
    ensures SameEvidence(flags, flags') ==> FlagsEvident(flags', headers, Whole)
    ensures FlagsEvident(NO_FLAGS, [], Whole)
  {
    assert Unfold(0);
  }

  lemma StartLeavesHeaders(p: Fields, ch: char)
    requires p.state.StartReq?
    ensures LeavesHeaders(p, StartReqByte(p, ch))
  {
  }

  lemma MethodLeavesHeaders(p: Fields, ch: char)
    requires p.state.ReqMethod?
    ensures LeavesHeaders(p, MethodByte(p, ch))
  {
  }

  lemma VersionLeavesHeaders(p: Fields, ch: char)
    requires p.state.Version?
    ensures LeavesHeaders(p, VersionByte(p, p.state.version, ch))
  {
  }

  lemma RequestLineLeavesHeaders(p: Fields, ch: char)
    requires InRequestLine(p.state) && !p.state.Url? && !p.state.ReqSpacesBeforeUrl?
    ensures LeavesHeaders(p, Micro(p, ch))
  {
    if p.state.StartReq? {
      StartLeavesHeaders(p, ch);
    } else if p.state.ReqMethod? {
      MethodLeavesHeaders(p, ch);
    } else if p.state.Version? {
      VersionLeavesHeaders(p, ch);
    }
  }

  lemma UrlLeavesHeaders(p: Fields, ch: char)
    requires p.state.Url? || p.state.ReqSpacesBeforeUrl?
    ensures LeavesHeaders(p, UrlByte(p, ch))
  {
  }

  predicate InBody(s: State) {
    s.Chunk? || s.BodyIdentity? || s.MessageDone?
  }

  lemma ChunkSizeLeavesHeaders(p: Fields, first: bool, ch: char)
    requires p.state.Chunk?
    ensures LeavesHeaders(p, ChunkSizeByte(p, first, ch))
  {
  }

  lemma ChunkLeavesHeaders(p: Fields, ch: char)
    requires p.state.Chunk?
    ensures LeavesHeaders(p, ChunkByte(p, p.state.chunk, ch))
  {
    var s := p.state.chunk;
    if s.SizeStart? || s.Size? {
      ChunkSizeLeavesHeaders(p, s.SizeStart?, ch);
    } else if s.ChunkData? {
      assert ChunkByte(p, s, ch) == BodyByte(p, ch, Chunk(DataAlmostDone), Consume);
    } else if s.SizeAlmostDone? {
      assert ChunkByte(p, s, ch) == ChunkSizeAlmostDoneByte(p, ch);
    }
  }

  lemma BodyLeavesHeaders(p: Fields, ch: char)
    requires InBody(p.state)
    ensures LeavesHeaders(p, Micro(p, ch))
  {
    if p.state.Chunk? {
      ChunkLeavesHeaders(p, ch);
    } else if p.state.BodyIdentity? {
      assert Micro(p, ch) == BodyByte(p, ch, MessageDone, Reexecute);
    } else {
      assert Micro(p, ch) == CompleteMessage(p, false, if p.upgrade then Exit else Consume);
    }
  }

  lemma HeadersEndLeavesHeaders(p: Fields, ch: char)
    requires p.state.HeadersAlmostDone? || p.state.HeadersDone?
    ensures LeavesHeaders(p, Micro(p, ch))
  {
  }

  /** The byte is a blank where a continuation line starts. */
  predicate FitsState(s: State, ch: char) {
    s.HeaderValueStart? ==> ch == ' ' || ch == '\t'
  }

  lemma HeadersPass(p: Fields, m: Message, ch: char)
    requires FieldsInv(p) && HeadersKnown(p, m) && FitsState(p.state, ch)
    ensures HeadersLearnt(m, Micro(p, ch))
  {
    var s := p.state;
    if PartOf(s).Whole? && !s.HeaderFieldStart? {
      OtherLeavesHeaders(p, ch);
      LeavesHeadersKnown(p, m, Micro(p, ch));
    } else if s.HeaderFieldStart? {
      FieldStartHeaders(p, m, ch);
    } else if s.HeaderField? {
      FieldHeaders(p, m, ch);
    } else {
      ValueStatesHeaders(p, m, ch);
    }
  }

  lemma OtherLeavesHeaders(p: Fields, ch: char)
    requires PartOf(p.state).Whole? && !p.state.HeaderFieldStart?
    ensures LeavesHeaders(p, Micro(p, ch))
  {
    var s := p.state;
    if s.Url? || s.ReqSpacesBeforeUrl? {
      UrlLeavesHeaders(p, ch);
    } else if InRequestLine(s) {
      RequestLineLeavesHeaders(p, ch);
    } else if InBody(s) {
      BodyLeavesHeaders(p, ch);
    } else {
      HeadersEndLeavesHeaders(p, ch);
    }
  }

  lemma ValueStatesHeaders(p: Fields, m: Message, ch: char)
    requires FieldsInv(p) && HeadersKnown(p, m) && FitsState(p.state, ch)
    requires !PartOf(p.state).Whole? && !p.state.HeaderField?
    ensures HeadersLearnt(m, Micro(p, ch))
  {
    var s := p.state;
    if s.HeaderValue? {
      ValueHeaders(p, m, ch);
    } else if s.HeaderValueDiscardWs? {
      DiscardWsHeaders(p, m, ch);
    } else if s.HeaderValueDiscardLws? {
      EmptyValueHeaders(p, m, ch);
    } else if s.HeaderValueStart? {
      FoldHeaders(p, m, ch);
    } else if s.HeaderValueLws? {
      ValueLwsHeaders(p, m, ch);
    } else {
      LineEndHeaders(p, m, ch);
    }
  }

  // ----- the URL ---------------------------------------------------------------------------------

  /** Where parse_url_char gets on a URL, from where http_parser_parse_url and the request line start. */
  function UrlFold(isConnect: bool, url: string): State {
    if url == [] then if isConnect then Url(ServerStart) else ReqSpacesBeforeUrl
    else ParseUrlChar(UrlFold(isConnect, url[..|url| - 1]), url[|url| - 1])
  }

  lemma UrlFoldNext(isConnect: bool, url: string, ch: char)
    ensures UrlFold(isConnect, url + [ch]) == ParseUrlChar(UrlFold(isConnect, url), ch)
  {
    assert (url + [ch])[..|url|] == url;
  }

  lemma {:induction false} DeadStaysDead(isConnect: bool, url: string, n: nat)
    requires n <= |url| && UrlFold(isConnect, url) != Dead
    ensures UrlFold(isConnect, url[..n]) != Dead
    decreases |url| - n
  {
    if n < |url| {
      DeadStaysDead(isConnect, url, n + 1);
      assert url[..n + 1][..n] == url[..n];
    } else {
      assert url[..n] == url;
    }
  }

  /** The URL read so far drives the URL machine to the parser's state; a URL that is over drives it to
      a state in which a URL can end. */
  predicate UrlKnown(p: Fields, m: Message) {
    var s := p.state;
    if s.Dead? || s.StartReq? then true
    else if s.ReqMethod? || s.ReqSpacesBeforeUrl? then m.url == []
    else if s.Url? then m.url != [] && UrlFold(p.verb == CONNECT, m.url) == s
    else m.url != [] && EndsUrl(UrlFold(p.verb == CONNECT, m.url))
  }

  predicate UrlLearnt(m: Message, o: Outcome) {
    Survives(o.act) ==> UrlKnown(o.p, SawOption(m, o.event))
  }

  lemma UrlByteUrl(p: Fields, m: Message, ch: char)
    requires (p.state.Url? || p.state.ReqSpacesBeforeUrl?) && UrlKnown(p, m)
    ensures UrlLearnt(m, UrlByte(p, ch))
  {
    UrlFoldNext(p.verb == CONNECT, m.url, ch);
  }

  lemma MethodByteUrl(p: Fields, m: Message, ch: char)
    requires p.state.ReqMethod? && UrlKnown(p, m)
    ensures UrlLearnt(m, MethodByte(p, ch))
  {
  }

  // ----- how much of the body has been read ------------------------------------------------------

  /** The states in which a header block or the trailers are read. */
  predicate InHeaderBlock(s: State) {
    s.HeaderFieldStart? || s.HeadersAlmostDone? || !PartOf(s).Whole?
  }

  /** The bytes of the body so far, against the chunk sizes announced and the bytes still to come. */
  predicate BodyCounted(p: Fields, m: Message) {
    var s := p.state;
    if s.Dead? || s.StartReq? then
      && (p.flags.chunked ==> |m.body| == m.announced)
      && (!p.flags.chunked && !p.flags.contentLength ==> m.body == "")
    else if s.Chunk? then |m.body| + (if s.chunk.ChunkData? then p.contentLength else 0) == m.announced
    else if s.MessageDone? then
      if p.flags.trailing then p.flags.chunked && |m.body| == m.announced else !p.flags.chunked
    else if s.BodyIdentity? then true
    else if p.flags.trailing then |m.body| == m.announced
    else m.body == "" && m.announced == 0
  }

  predicate BodyLearnt(m: Message, o: Outcome) {
    Survives(o.act) ==> BodyCounted(o.p, SawOption(m, o.event))
  }

  /** A pass within a header block. */
  predicate StaysInHeaders(p: Fields, o: Outcome) {
    Survives(o.act) ==>
      && InHeaderBlock(o.p.state) && o.p.verb == p.verb && o.p.flags.trailing == p.flags.trailing
      && (o.event.Some? ==> o.event.value.Data? && (o.event.value.kind.FieldText? || o.event.value.kind.ValueText?))
  }

  lemma StaysInHeadersLearns(p: Fields, m: Message, o: Outcome)
    requires InHeaderBlock(p.state) && StaysInHeaders(p, o) && UrlKnown(p, m) && BodyCounted(p, m)
    ensures UrlLearnt(m, o) && BodyLearnt(m, o)
  {
  }

  lemma FieldStartStays(p: Fields, ch: char)
    ensures StaysInHeaders(p, FieldStartByte(p, ch))
  {
  }

  lemma FieldStays(p: Fields, ch: char)
    requires p.state.HeaderField?
    ensures StaysInHeaders(p, FieldByte(p, ch))
  {
  }

  lemma ValueStartStays(p: Fields, ch: char)
    ensures StaysInHeaders(p, ValueStartByte(p, ch))
  {
  }

  lemma ValueStays(p: Fields, ch: char)
    requires p.state.HeaderValue?
    ensures StaysInHeaders(p, ValueByte(p, ch))
  {
  }

  lemma LineEndStays(p: Fields, ch: char)
    requires p.state.HeaderAlmostDone? || p.state.HeaderValueLws? || p.state.HeaderValueDiscardWsAlmostDone? ||
             p.state.HeaderValueDiscardLws?
    ensures StaysInHeaders(p, Micro(p, ch))
  {
  }

  lemma HeaderBlockStays(p: Fields, ch: char)
    requires InHeaderBlock(p.state) && !p.state.HeadersAlmostDone?
    ensures StaysInHeaders(p, Micro(p, ch))
  {
    var s := p.state;
    if s.HeaderFieldStart? {
      FieldStartStays(p, ch);
    } else if s.HeaderField? {
      FieldStays(p, ch);
    } else if s.HeaderValue? {
      ValueStays(p, ch);
    } else if s.HeaderValueStart? || s.HeaderValueDiscardWs? {
      ValueStartStays(p, ch);
      assert Micro(p, ch) == if s.HeaderValueStart? then ValueStartByte(p, ch) else DiscardWsByte(p, ch);
    } else {
      LineEndStays(p, ch);
    }
  }

  // ----- URL and body in the other states --------------------------------------------------------

  ghost predicate UrlAndBody(p: Fields, m: Message) {
    UrlKnown(p, m) && BodyCounted(p, m)
  }

  ghost predicate UrlAndBodyLearnt(m: Message, o: Outcome) {
    UrlLearnt(m, o) && BodyLearnt(m, o)
  }

  lemma StartUrlAndBody(p: Fields, m: Message, ch: char)
    requires p.state.StartReq? && UrlAndBody(p, m)
    ensures UrlAndBodyLearnt(m, StartReqByte(p, ch))
  {
  }

  lemma RequestLineUrlAndBody(p: Fields, m: Message, ch: char)
    requires FieldsInv(p) && (p.state.ReqMethod? || p.state.Url? || p.state.ReqSpacesBeforeUrl?) && UrlAndBody(p, m)
    ensures UrlAndBodyLearnt(m, Micro(p, ch))
  {
    if p.state.ReqMethod? {
      MethodByteUrl(p, m, ch);
    } else {
      UrlByteUrl(p, m, ch);
    }
  }

  lemma VersionUrlAndBody(p: Fields, m: Message, ch: char)
    requires FieldsInv(p) && p.state.Version? && UrlAndBody(p, m)
    ensures UrlAndBodyLearnt(m, VersionByte(p, p.state.version, ch))
  {
  }

  lemma HeadersAlmostDoneUrlAndBody(p: Fields, m: Message, ch: char)
    requires FieldsInv(p) && p.state.HeadersAlmostDone? && UrlAndBody(p, m)
    ensures UrlAndBodyLearnt(m, HeadersAlmostDoneByte(p, ch))
  {
  }

  lemma HeadersDoneUrlAndBody(p: Fields, m: Message, ch: char)
    requires FieldsInv(p) && p.state.HeadersDone? && UrlAndBody(p, m)
    ensures UrlAndBodyLearnt(m, HeadersDoneByte(p, ch))
  {
  }

  /** A pass that makes no callback and stays outside the chunk data. */
  predicate StaysInChunk(p: Fields, o: Outcome) {
    Survives(o.act) ==>
      o.event.None? && o.p.state.Chunk? && !o.p.state.chunk.ChunkData? && o.p.verb == p.verb
  }

  lemma StaysInChunkLearns(p: Fields, m: Message, o: Outcome)
    requires p.state.Chunk? && !p.state.chunk.ChunkData? && UrlAndBody(p, m) && StaysInChunk(p, o)
    ensures UrlAndBodyLearnt(m, o)
  {
  }

  lemma ChunkSizeStays(p: Fields, first: bool, ch: char)
    ensures StaysInChunk(p, ChunkSizeByte(p, first, ch))
  {
  }

  lemma ChunkBodyUrlAndBody(p: Fields, m: Message, ch: char)
    requires FieldsInv(p) && UrlAndBody(p, m) && ReadsBody(p.state)
    ensures UrlAndBodyLearnt(m, if p.state.Chunk? then BodyByte(p, ch, Chunk(DataAlmostDone), Consume)
                                else BodyByte(p, ch, MessageDone, Reexecute))
  {
  }

  lemma ChunkSizeDoneUrlAndBody(p: Fields, m: Message, ch: char)
    requires FieldsInv(p) && p.state == Chunk(SizeAlmostDone) && UrlAndBody(p, m)
    ensures UrlAndBodyLearnt(m, ChunkSizeAlmostDoneByte(p, ch))
  {
  }

  lemma ChunkUrlAndBody(p: Fields, m: Message, ch: char)
    requires FieldsInv(p) && p.state.Chunk? && UrlAndBody(p, m)
    ensures UrlAndBodyLearnt(m, ChunkByte(p, p.state.chunk, ch))
  {
    var s := p.state.chunk;
    if s.SizeStart? || s.Size? {
      ChunkSizeStays(p, s.SizeStart?, ch);
      StaysInChunkLearns(p, m, ChunkByte(p, s, ch));
    } else if s.ChunkData? {
      ChunkBodyUrlAndBody(p, m, ch);
    } else if s.SizeAlmostDone? {
      ChunkSizeDoneUrlAndBody(p, m, ch);
    } else if s.DataDone? {
    } else {
      StaysInChunkLearns(p, m, ChunkByte(p, s, ch));
    }
  }

  lemma MessageDoneUrlAndBody(p: Fields, m: Message)
    requires FieldsInv(p) && p.state.MessageDone? && UrlAndBody(p, m)
    ensures UrlAndBodyLearnt(m, CompleteMessage(p, false, if p.upgrade then Exit else Consume))
  {
  }

  lemma UrlAndBodyPass(p: Fields, m: Message, ch: char)
    requires FieldsInv(p) && UrlAndBody(p, m)
    ensures UrlAndBodyLearnt(m, Micro(p, ch))
  {
    var s := p.state;
    if InHeaderBlock(s) && !s.HeadersAlmostDone? {
      HeaderBlockStays(p, ch);
      StaysInHeadersLearns(p, m, Micro(p, ch));
    } else if s.ReqMethod? || s.Url? || s.ReqSpacesBeforeUrl? {
      RequestLineUrlAndBody(p, m, ch);
    } else if s.Chunk? {
      ChunkUrlAndBody(p, m, ch);
    } else {
      OtherUrlAndBody(p, m, ch);
    }
  }

  lemma OtherUrlAndBody(p: Fields, m: Message, ch: char)
    requires FieldsInv(p) && UrlAndBody(p, m)
    requires p.state.Dead? || p.state.StartReq? || p.state.Version? || p.state.HeadersAlmostDone? ||
             p.state.HeadersDone? || p.state.BodyIdentity? || p.state.MessageDone?
    ensures UrlAndBodyLearnt(m, Micro(p, ch))
  {
    match p.state
    case Dead =>
    case StartReq => StartUrlAndBody(p, m, ch);
    case Version(_) => VersionUrlAndBody(p, m, ch);
    case HeadersAlmostDone => HeadersAlmostDoneUrlAndBody(p, m, ch);
    case HeadersDone => HeadersDoneUrlAndBody(p, m, ch);
    case BodyIdentity => ChunkBodyUrlAndBody(p, m, ch);
    case MessageDone => MessageDoneUrlAndBody(p, m);
  }

  // ----- the declared length of the body ---------------------------------------------------------

  /** What a length field is evidence of, by state: the value of a Content-Length header, the part of it
      that has not been read, or the part that has. */
  ghost predicate LengthKnown(p: Fields, m: Message) {
    var s := p.state;
    if s.BodyIdentity? then Evident(m.headers, Whole, BodyLength(p.contentLength + |m.body|))
    else if s.MessageDone? then p.flags.trailing || Evident(m.headers, Whole, BodyLength(|m.body|))
    else if s.Dead? || s.StartReq? then
      p.flags.contentLength && !p.flags.chunked && p.verb != CONNECT ==> Evident(m.headers, Whole, BodyLength(|m.body|))
    else if PartOf(s).Open? then
      p.flags.contentLength && !p.headerState.ContentLength? ==>
        Evident(m.headers, Open, BodyLength(p.contentLength))
    else if InHeaderBlock(s) || s.HeadersDone? then
      p.flags.contentLength ==> Evident(m.headers, PartOf(s), BodyLength(p.contentLength))
    else true
  }

  ghost predicate LengthLearnt(m: Message, o: Outcome) {
    Survives(o.act) ==> LengthKnown(o.p, SawOption(m, o.event))
  }

  lemma FieldStartLength(p: Fields, m: Message, ch: char)
    requires p.state.HeaderFieldStart? && !m.naming && LengthKnown(p, m)
    ensures LengthLearnt(m, FieldStartByte(p, ch))
  {
    var f := BodyLength(p.contentLength);
    if Evident(m.headers, Whole, f) {
      EvidentNewHeader(m.headers, Header([ch], ""), f);
    }
  }

  lemma FieldLength(p: Fields, m: Message, ch: char)
    requires p.state.HeaderField? && HeadersKnown(p, m) && LengthKnown(p, m)
    ensures LengthLearnt(m, FieldByte(p, ch))
  {
    var f := BodyLength(p.contentLength);
    var last := m.headers[|m.headers| - 1];
    if Evident(m.headers, Naming, f) {
      EvidentNaming(m.headers, Header(last.name + [ch], last.value), Naming, f);
    }
  }

  /** The last header's value grows, after a byte that leads to `q`. */
  lemma LongerValueLength(q: Fields, m: Message, ch: char, part: Part)
    requires q.state.HeaderValue? && |m.headers| > 0 && !part.Whole?
    requires q.flags.contentLength && !q.headerState.ContentLength? ==>
               Evident(m.headers, part, BodyLength(q.contentLength))
    ensures LengthKnown(q, SawValue(m, [ch]))
  {
    var f := BodyLength(q.contentLength);
    var last := m.headers[|m.headers| - 1];
    if q.flags.contentLength && !q.headerState.ContentLength? {
      if part.Naming? {
        EvidentNaming(m.headers, Header(last.name, last.value + [ch]), Open, f);
      } else {
        EvidentValue(m.headers, ch, f);
      }
    }
  }

  lemma ValueStartLength(p: Fields, m: Message, ch: char)
    requires FieldsInv(p) && (p.state.HeaderValueDiscardWs? || p.state.HeaderValueStart?)
    requires |m.headers| > 0 && LengthKnown(p, m) && FitsState(p.state, ch)
    ensures LengthLearnt(m, ValueStartByte(p, ch))
  {
    ValueStartShape(p, ch);
    var q := ValueStartByte(p, ch).p;
    if StartsValue(p, q, ch) {
      LongerValueLength(q, m, ch, PartOf(p.state));
    }
  }

  lemma ValueStepLength(p: Fields, m: Message, ch: char)
    requires p.state.HeaderValue? && |m.headers| > 0 && LengthKnown(p, m) && ValueScan(p.headerState, p.index)
    ensures LengthLearnt(m, ValueStep(p, ch))
  {
    var o := ValueStep(p, ch);
    if o.act.Consume? {
      ValueNextScans(p.headerState, p.index, ch);
      LongerValueLength(o.p, m, ch, Open);
    }
  }

  lemma ValueLength(p: Fields, m: Message, ch: char)
    requires p.state.HeaderValue? && HeadersKnown(p, m) && LengthKnown(p, m) && ValueScan(p.headerState, p.index)
    ensures LengthLearnt(m, ValueByte(p, ch))
  {
    if ch != CR && ch != LF {
      ValueStepLength(p, m, ch);
    }
  }

  /** A header is complete: its length is the declared one. */
  lemma ValueLwsLength(p: Fields, m: Message, ch: char)
    requires p.state.HeaderValueLws? && |m.headers| > 0 && LengthKnown(p, m)
    requires ValueKnown(p.headerState, p.index, p.contentLength, m.headers[|m.headers| - 1])
    ensures LengthLearnt(m, ValueLwsByte(p, ch))
  {
    if ch != ' ' && ch != '\t' {
      FinishedFlagsLength(p.headerState, p.flags);
      if p.flags.contentLength {
        CompleteLength(p, m.headers);
      }
      HeaderOverLength(ValueLwsByte(p, ch).p, m);
    }
  }

  lemma HeaderOverLength(q: Fields, m: Message)
    requires q.state.HeaderFieldStart?
    requires q.flags.contentLength ==> Evident(m.headers, Whole, BodyLength(q.contentLength))
    ensures LengthKnown(q, m)
  {
  }

  lemma FinishedFlagsLength(h: HeaderState, flags: Flags)
    ensures FinishedFlags(h, flags).contentLength == flags.contentLength
    ensures FinishedFlags(h, flags).trailing == flags.trailing
  {
  }

  lemma CompleteLength(p: Fields, headers: seq<Header>)
    requires |headers| > 0 && ValueKnown(p.headerState, p.index, p.contentLength, headers[|headers| - 1])
    requires !p.headerState.ContentLength? ==> Evident(headers, Open, BodyLength(p.contentLength))
    ensures Evident(headers, Whole, BodyLength(p.contentLength))
  {
    var f := BodyLength(p.contentLength);
    if p.headerState.ContentLength? {
      assert Says(headers[|headers| - 1], f) by { assert Unfold(0); }
      LastSays(headers, f);
    } else {
      EvidentComplete(headers, f);
    }
  }

  lemma EmptyValueLength(p: Fields, m: Message, ch: char)
    requires FieldsInv(p) && p.state.HeaderValueDiscardLws? && |m.headers| > 0 && LengthKnown(p, m)
    ensures LengthLearnt(m, DiscardLwsByte(p, ch))
  {
    var o := DiscardLwsByte(p, ch);
    if o.act.Reexecute? {
      EmptyLength(o.p, m);
    }
  }

  lemma EmptyLength(q: Fields, m: Message)
    requires q.state.HeaderFieldStart? && |m.headers| > 0
    requires q.flags.contentLength ==> Evident(m.headers, Naming, BodyLength(q.contentLength))
    ensures LengthKnown(q, SawValue(m, []))
  {
    var f := BodyLength(q.contentLength);
    var last := m.headers[|m.headers| - 1];
    if q.flags.contentLength {
      EvidentNaming(m.headers, Header(last.name, last.value + []), Whole, f);
    }
  }

  lemma HeadersAlmostDoneLength(p: Fields, m: Message, ch: char)
    requires p.state.HeadersAlmostDone? && LengthKnown(p, m)
    ensures LengthLearnt(m, HeadersAlmostDoneByte(p, ch))
  {
  }

  lemma HeadersDoneLength(p: Fields, m: Message, ch: char)
    requires FieldsInv(p) && p.state.HeadersDone? && LengthKnown(p, m) && BodyCounted(p, m)
    ensures LengthLearnt(m, HeadersDoneByte(p, ch))
  {
  }

  lemma BodyIdentityLength(p: Fields, m: Message, ch: char)
    requires FieldsInv(p) && p.state.BodyIdentity? && LengthKnown(p, m)
    ensures LengthLearnt(m, BodyByte(p, ch, MessageDone, Reexecute))
  {
  }

  lemma MessageDoneLength(p: Fields, m: Message)
    requires FieldsInv(p) && p.state.MessageDone? && LengthKnown(p, m) && BodyCounted(p, m)
    ensures LengthLearnt(m, CompleteMessage(p, false, if p.upgrade then Exit else Consume))
  {
  }

  lemma LengthPass(p: Fields, m: Message, ch: char)
    requires FieldsInv(p) && HeadersKnown(p, m) && BodyCounted(p, m) && LengthKnown(p, m) && FitsState(p.state, ch)
    ensures LengthLearnt(m, Micro(p, ch))
  {
    var s := p.state;
    if PartOf(s).Open? {
      OpenLengthPass(p, m, ch);
    } else if PartOf(s).Naming? || s.HeaderFieldStart? {
      NameLengthPass(p, m, ch);
    } else if s.HeadersAlmostDone? {
      HeadersAlmostDoneLength(p, m, ch);
    } else if s.HeadersDone? {
      HeadersDoneLength(p, m, ch);
    } else if s.BodyIdentity? {
      BodyIdentityLength(p, m, ch);
    } else if s.MessageDone? {
      MessageDoneLength(p, m);
    } else if s.Chunk? {
      ChunkLength(p, m, ch);
    } else {
      RequestLineLength(p, m, ch);
    }
  }

  lemma NameLengthPass(p: Fields, m: Message, ch: char)
    requires FieldsInv(p) && HeadersKnown(p, m) && LengthKnown(p, m)
    requires PartOf(p.state).Naming? || p.state.HeaderFieldStart?
    ensures LengthLearnt(m, Micro(p, ch))
  {
    var s := p.state;
    if s.HeaderFieldStart? {
      FieldStartLength(p, m, ch);
    } else if s.HeaderField? {
      FieldLength(p, m, ch);
    } else {
      NamedLengthPass(p, m, ch);
    }
  }

  lemma NamedLengthPass(p: Fields, m: Message, ch: char)
    requires FieldsInv(p) && AfterFieldName(p.state) && |m.headers| > 0 && LengthKnown(p, m)
    ensures LengthLearnt(m, Micro(p, ch))
  {
    if p.state.HeaderValueDiscardWs? {
      DiscardWsLength(p, m, ch);
    } else if p.state.HeaderValueDiscardLws? {
      EmptyValueLength(p, m, ch);
    }
  }

  lemma OpenLengthPass(p: Fields, m: Message, ch: char)
    requires FieldsInv(p) && HeadersKnown(p, m) && LengthKnown(p, m) && FitsState(p.state, ch)
    requires PartOf(p.state).Open?
    ensures LengthLearnt(m, Micro(p, ch))
  {
    var s := p.state;
    if s.HeaderValue? {
      ValueLength(p, m, ch);
    } else if s.HeaderValueStart? {
      ValueStartLength(p, m, ch);
    } else if s.HeaderValueLws? {
      ValueLwsLength(p, m, ch);
    }
  }

  lemma DiscardWsLength(p: Fields, m: Message, ch: char)
    requires FieldsInv(p) && p.state.HeaderValueDiscardWs? && |m.headers| > 0 && LengthKnown(p, m)
    ensures LengthLearnt(m, DiscardWsByte(p, ch))
  {
    if ch != ' ' && ch != '\t' && ch != CR && ch != LF {
      assert DiscardWsByte(p, ch) == ValueStartByte(p, ch);
      ValueStartLength(p, m, ch);
    }
  }

  /** The chunk states, which no Content-Length reaches. */
  lemma ChunkLength(p: Fields, m: Message, ch: char)
    requires FieldsInv(p) && p.state.Chunk?
    ensures LengthLearnt(m, ChunkByte(p, p.state.chunk, ch))
  {
    var s := p.state.chunk;
    if s.SizeStart? || s.Size? {
      ChunkSizeStays(p, s.SizeStart?, ch);
    }
  }

  lemma UrlLength(p: Fields, m: Message, ch: char)
    requires FieldsInv(p) && (p.state.Url? || p.state.ReqSpacesBeforeUrl?)
    ensures LengthLearnt(m, UrlByte(p, ch))
  {
    var o := UrlByte(p, ch);
    UrlByteFlags(p, ch);
    if Survives(o.act) {
      NoLengthYet(o.p, SawOption(m, o.event));
    }
  }

  lemma UrlByteFlags(p: Fields, ch: char)
    ensures var o := UrlByte(p, ch);
            o.p.flags == p.flags && (Survives(o.act) ==> !o.p.state.BodyIdentity? && !o.p.state.MessageDone?)
  {
  }

  /** Before the headers there is no length to know of. */
  lemma NoLengthYet(p: Fields, m: Message)
    requires !p.flags.contentLength && !p.state.BodyIdentity? && !p.state.MessageDone?
    ensures LengthKnown(p, m)
  {
  }

  lemma RequestLineLength(p: Fields, m: Message, ch: char)
    requires FieldsInv(p) && InRequestLine(p.state) && LengthKnown(p, m)
    ensures LengthLearnt(m, Micro(p, ch))
  {
    if p.state.Url? || p.state.ReqSpacesBeforeUrl? {
      UrlLength(p, m, ch);
    } else if p.state.ReqMethod? {
      assert Micro(p, ch) == MethodByte(p, ch);
    } else if p.state.Version? {
      assert Micro(p, ch) == VersionByte(p, p.state.version, ch);
    } else if p.state.StartReq? {
      assert Micro(p, ch) == StartReqByte(p, ch);
    }
  }

  // ----- whole runs ------------------------------------------------------------------------------

  /** The parser's fields say what the callbacks have said of the current message. */
  ghost predicate Knows(p: Fields, m: Message) {
    HeadersKnown(p, m) && UrlAndBody(p, m) && LengthKnown(p, m)
  }

  lemma KnowsPass(p: Fields, m: Message, ch: char)
    requires FieldsInv(p) && Knows(p, m) && FitsState(p.state, ch)
    ensures var o := Micro(p, ch);
            Survives(o.act) ==> Knows(o.p, SawOption(m, o.event))
  {
    HeadersPass(p, m, ch);
    UrlAndBodyPass(p, m, ch);
    LengthPass(p, m, ch);
  }

  /** The jump to a continuation line is made on a blank only, which is looked at again at once. */
  predicate JumpsOnBlank(o: Outcome, ch: char) {
    Survives(o.act) && o.p.state.HeaderValueStart? ==> o.act.Reexecute? && (ch == ' ' || ch == '\t')
  }

  lemma FoldJump(p: Fields, ch: char)
    ensures JumpsOnBlank(Micro(p, ch), ch)
  {
    if PartOf(p.state).Whole? && !p.state.HeaderFieldStart? {
      OtherLeavesHeaders(p, ch);
    } else {
      HeaderFoldJump(p, ch);
    }
  }

  lemma HeaderFoldJump(p: Fields, ch: char)
    requires InHeaderBlock(p.state)
    ensures JumpsOnBlank(Micro(p, ch), ch)
  {
    var s := p.state;
    if s.HeaderValueStart? || s.HeaderValueDiscardWs? {
      ValueStartShape(p, ch);
    } else if s.HeaderField? {
      assert Micro(p, ch) == FieldByte(p, ch);
    } else if s.HeaderFieldStart? {
      assert Micro(p, ch) == FieldStartByte(p, ch);
    } else if s.HeaderValue? {
      assert Micro(p, ch) == ValueByte(p, ch);
    } else if s.HeadersAlmostDone? {
      assert Micro(p, ch) == HeadersAlmostDoneByte(p, ch);
    }
  }

  ghost predicate Knowing(c: Config) {
    forall key {:trigger Unfold(key)} :: Unfold(key) ==> FieldsInv(c.p) && Knows(c.p, MessageOf(c.trace))
  }

  ghost predicate FailsOrKnows(c: Config) {
    forall key {:trigger Unfold(key)} :: Unfold(key) ==> c.last == Fail || (Knowing(c) && !c.p.state.HeaderValueStart?)
  }

  lemma {:induction false} KnowingMeans(c: Config)
    requires Knowing(c)
    ensures FieldsInv(c.p) && Knows(c.p, MessageOf(c.trace))
  {
    assert Unfold(0);
  }

  lemma ApplyKnows(c: Config, o: Outcome)
    requires Survives(o.act) && FieldsInv(o.p) && Knows(o.p, SawOption(MessageOf(c.trace), o.event))
    ensures Knowing(Apply(c, o))
  {
    if o.event.Some? {
      EmitSaw(c.trace, o.event.value);
    }
  }

  lemma {:induction false} StepByteKnows(c: Config, ch: char)
    requires Knowing(c) && FitsState(c.p.state, ch)
    ensures FailsOrKnows(StepByte(c, ch))
    decreases Rank(c.p.state)
  {
    var o := Micro(c.p, ch);
    KnowingMeans(c);
    PassIsSound(c.p, ch);
    KnowsPass(c.p, MessageOf(c.trace), ch);
    FoldJump(c.p, ch);
    if Survives(o.act) {
      ApplyKnows(c, o);
    }
    if o.act == Reexecute {
      ReexecuteDecreasesRank(c.p, ch);
      StepByteKnows(Apply(c, o), ch);
    }
  }

  lemma {:induction false} FailsOrKnowsMeans(c: Config)
    requires FailsOrKnows(c)
    ensures c.last == Fail || (Knowing(c) && !c.p.state.HeaderValueStart?)
  {
    assert Unfold(0);
  }

  lemma {:induction false} NextKnows(c: Config, ch: char)
    requires Running(c) && Knowing(c) && !c.p.state.HeaderValueStart?
    ensures FailsOrKnows(Next(c, ch))
  {
    var d := if ParsingHeader(c.p.state) then c.(count := c.count + 1) else c;
    CountedKnows(c, d);
    FirstPassKnows(d, ch);
    NextIs(c, d, ch);
  }

  lemma {:induction false} FirstPassKnows(c: Config, ch: char)
    requires Knowing(c) && !c.p.state.HeaderValueStart?
    ensures FailsOrKnows(StepByte(c, ch))
  {
    StepByteKnows(c, ch);
  }

  lemma {:induction false} NextIs(c: Config, d: Config, ch: char)
    requires Running(c) && d == if ParsingHeader(c.p.state) then c.(count := c.count + 1) else c
    ensures Next(c, ch) == StepByte(d, ch)
  {
  }

  /** The count of header bytes plays no part. */
  lemma {:induction false} CountedKnows(c: Config, d: Config)
    requires Knowing(c) && !c.p.state.HeaderValueStart? && d == c.(count := d.count)
    ensures Knowing(d) && d.p == c.p
  {
  }

  lemma StartKnows(lenient: bool)
    ensures Knowing(Start(lenient))
  {
    assert FlagsEvident(NO_FLAGS, [], Whole);
  }

  /** In every state the parser can reach without an error, it knows its message. */
  lemma {:induction false} ReachableKnows(lenient: bool, data: string)
    ensures var c := Feed(Start(lenient), data);
            c.last == Fail || (Running(c) && Knowing(c) && !c.p.state.HeaderValueStart?)
  {
    if data == [] {
      StartKnows(lenient);
    } else {
      ReachableKnows(lenient, data[..|data| - 1]);
      var c := Feed(Start(lenient), data[..|data| - 1]);
      if Running(c) {
        NextKnows(c, data[|data| - 1]);
        FailsOrKnowsMeans(Next(c, data[|data| - 1]));
      }
      NextRuns(c, data[|data| - 1]);
      ReachableInv(lenient, data);
    }
  }

  lemma NextRuns(c: Config, ch: char)
    requires Survives(c.last) ==> Running(c)
    ensures Survives(Next(c, ch).last) ==> Running(Next(c, ch))
  {
    if Running(c) {
      StepByteEnds(if ParsingHeader(c.p.state) then c.(count := c.count + 1) else c, ch);
    }
  }
}
