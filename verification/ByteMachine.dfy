/** The parser as a byte-at-a-time machine: the reference that `Execute` is proved against.

    `Micro` is one pass through the switch of http_parser_execute for one byte, `StepByte` follows
    the `goto reexecute` jumps, `Next` also does the header-size counting, and `Feed` folds `Next`
    over a string.  The machine has no buffers, no marks, no inner loops and no header-size limit,
    and does not check the bytes of a header value whose `headerState` is General. */
module ByteMachine {
  import opened Ascii
  import opened HttpTypes
  import opened UrlMachine

  /** How one pass through the switch ends: the byte is consumed, looked at again, consumed with a
      return from http_parser_execute, refused with an error, or an `assert` of the source fails. */
  datatype Act = Consume | Reexecute | Exit | Fail | AssertionFails

  datatype Outcome = Outcome(p: Fields, event: Option<Event>, resetCount: bool, act: Act)

  function Eat(p: Fields): Outcome {
    Outcome(p, None, false, Consume)
  }

  function EatWith(p: Fields, e: Event): Outcome {
    Outcome(p, Some(e), false, Consume)
  }

  function Again(p: Fields): Outcome {
    Outcome(p, None, false, Reexecute)
  }

  function Error(p: Fields, e: Errno): Outcome {
    Outcome(p.(errno := e), None, false, Fail)
  }

  function Assertion(p: Fields, holds: bool, o: Outcome): Outcome {
    if holds then o else Outcome(p, None, false, AssertionFails)
  }

  // ----- end of message ------------------------------------------------------------------------

  /** http_message_needs_eof, for a parser of type HTTP_REQUEST. */
  predicate MessageNeedsEof(p: Fields) {
    false
  }

  /** http_should_keep_alive. */
  predicate ShouldKeepAlive(p: Fields) {
    (if p.httpMajor > 0 && p.httpMinor > 0 then !p.flags.close else p.flags.keepAlive) && !MessageNeedsEof(p)
  }

  /** UPDATE_STATE(NEW_MESSAGE()); CALLBACK_NOTIFY(message_complete). */
  function CompleteMessage(p: Fields, resetCount: bool, act: Act): Outcome {
    Outcome(p.(state := if ShouldKeepAlive(p) then StartReq else Dead),
            Some(MessageComplete(ShouldKeepAlive(p))), resetCount, act)
  }

  // ----- request line --------------------------------------------------------------------------

  /** The first guess at the method, from its first letter. */
  function FirstMethod(ch: char): Option<Method> {
    if ch == 'A' then Some(ACL)
    else if ch == 'B' then Some(BIND)
    else if ch == 'C' then Some(CONNECT)
    else if ch == 'D' then Some(DELETE)
    else if ch == 'G' then Some(GET)
    else if ch == 'H' then Some(HEAD)
    else if ch == 'L' then Some(LOCK)
    else if ch == 'M' then Some(MKCOL)
    else if ch == 'N' then Some(NOTIFY)
    else if ch == 'O' then Some(OPTIONS)
    else if ch == 'P' then Some(POST)
    else if ch == 'R' then Some(REPORT)
    else if ch == 'S' then Some(SUBSCRIBE)
    else if ch == 'T' then Some(TRACE)
    else if ch == 'U' then Some(UNLOCK)
    else None
  }

  function SwitchFromPost(index: nat, ch: char): (r: Option<Method>)
    ensures r.Some? ==> index < |MethodString(r.value)|
  {
    if index != 1 then None
    else if ch == 'U' then Some(PUT)
    else if ch == 'A' then Some(PATCH)
    else if ch == 'R' then Some(PROPFIND)
    else None
  }

  function SwitchFromMkcol(index: nat, ch: char): (r: Option<Method>)
    ensures r.Some? ==> index < |MethodString(r.value)|
  {
    if index == 1 && ch == 'O' then Some(MOVE)
    else if index == 1 && ch == 'E' then Some(MERGE)
    else if index == 1 && ch == '-' then Some(MSEARCH)
    else if index == 2 && ch == 'A' then Some(MKACTIVITY)
    else if index == 3 && ch == 'A' then Some(MKCALENDAR)
    else None
  }

  function SwitchFromUnlock(index: nat, ch: char): (r: Option<Method>)
    ensures r.Some? ==> index < |MethodString(r.value)|
  {
    if index == 2 && ch == 'S' then Some(UNSUBSCRIBE)
    else if index == 2 && ch == 'B' then Some(UNBIND)
    else if index == 3 && ch == 'I' then Some(UNLINK)
    else None
  }

  /** The mid-word switches: the method to go on with when `ch` does not fit `m` at `index`. */
  function SwitchMethod(m: Method, index: nat, ch: char): (r: Option<Method>)
    ensures r.Some? ==> index < |MethodString(r.value)|
  {
    match m
    case POST => SwitchFromPost(index, ch)
    case CONNECT =>
      if index == 1 && ch == 'H' then Some(CHECKOUT) else if index == 2 && ch == 'P' then Some(COPY) else None
    case MKCOL => SwitchFromMkcol(index, ch)
    case SUBSCRIBE => if index == 1 && ch == 'E' then Some(SEARCH) else None
    case REPORT => if index == 2 && ch == 'B' then Some(REBIND) else None
    case PROPFIND => if index == 4 && ch == 'P' then Some(PROPPATCH) else None
    case PUT => if index == 2 && ch == 'R' then Some(PURGE) else None
    case LOCK => if index == 1 && ch == 'I' then Some(LINK) else None
    case UNLOCK => SwitchFromUnlock(index, ch)
    case _ => None
  }

  function StartReqByte(p: Fields, ch: char): Outcome {
    if ch == CR || ch == LF then Eat(p)
    else
      var q := p.(flags := NO_FLAGS, contentLength := UNSET);
      if !IsAlpha(ch) then Error(q, InvalidMethod)
      else
        match FirstMethod(ch)
        case None => Error(q.(verb := DELETE, index := 1), InvalidMethod)
        case Some(m) => EatWith(q.(verb := m, index := 1, state := ReqMethod), MessageBegin)
  }

  function MethodByte(p: Fields, ch: char): Outcome {
    var word := MethodString(p.verb);
    if ch == NUL then Error(p, InvalidMethod)
    else if p.index > |word| then Assertion(p, false, Eat(p))  // would read past the method string
    else if p.index == |word| && ch == ' ' then Eat(p.(state := ReqSpacesBeforeUrl, index := p.index + 1))
    else if p.index < |word| && ch == word[p.index] then Eat(p.(index := p.index + 1))
    else
      match SwitchMethod(p.verb, p.index, ch)
      case None => Error(p, InvalidMethod)
      case Some(m) => Eat(p.(verb := m, index := p.index + 1))
  }

  function UrlByte(p: Fields, ch: char): Outcome {
    var from := if p.state.ReqSpacesBeforeUrl? && p.verb == CONNECT then Url(ServerStart) else p.state;
    var next := ParseUrlChar(from, ch);
    if p.state.ReqSpacesBeforeUrl? && ch == ' ' then Eat(p)
    else if EndsUrl(p.state) && ch == ' ' then Eat(p.(state := Version(HttpStart)))
    else if EndsUrl(p.state) && (ch == CR || ch == LF) then
      Eat(p.(httpMajor := 0, httpMinor := 9,
             state := if ch == CR then Version(LineAlmostDone) else HeaderFieldStart))
    else if p.state.Url? && (ch == ' ' || ch == CR || ch == LF) then Error(p, InvalidUrl)
    else if next.Dead? then Error(p.(state := Dead), InvalidUrl)
    else EatWith(p.(state := next), Data(UrlText, [ch]))
  }

  /** The URL states in which a space or a line end finishes the URL. */
  predicate EndsUrl(s: State) {
    s.Url? && !s.url.Schema? && !s.url.SchemaSlash? && !s.url.SchemaSlashSlash? && !s.url.ServerStart?
  }

  /** The state after a byte of the HTTP version, Dead when it is refused. */
  function VersionNext(s: VersionState, ch: char): (next: State)
    ensures next.Dead? || next.Version? || next.HeaderFieldStart?
  {
    match s
    case HttpStart => if ch == 'H' then Version(HttpH) else if ch == ' ' then Version(s) else Dead
    case HttpH => if ch == 'T' then Version(HttpHT) else Dead
    case HttpHT => if ch == 'T' then Version(HttpHTT) else Dead
    case HttpHTT => if ch == 'P' then Version(HttpHTTP) else Dead
    case HttpHTTP => if ch == '/' then Version(FirstHttpMajor) else Dead
    case FirstHttpMajor => if '1' <= ch <= '9' then Version(HttpMajor) else Dead
    case HttpMajor => if ch == '.' then Version(FirstHttpMinor) else if IsNum(ch) then Version(s) else Dead
    case FirstHttpMinor => if IsNum(ch) then Version(HttpMinor) else Dead
    case HttpMinor =>
      if ch == CR then Version(LineAlmostDone)
      else if ch == LF then HeaderFieldStart
      else if IsNum(ch) then Version(s)
      else Dead
    case LineAlmostDone => if ch == LF then HeaderFieldStart else Dead
  }

  function VersionErrno(s: VersionState): Errno {
    match s
    case HttpStart => InvalidConstant
    case HttpH => StrictError
    case HttpHT => StrictError
    case HttpHTT => StrictError
    case HttpHTTP => StrictError
    case LineAlmostDone => LfExpected
    case _ => InvalidVersion
  }

  predicate IsNumberState(s: VersionState) {
    s.FirstHttpMajor? || s.HttpMajor? || s.FirstHttpMinor? || s.HttpMinor?
  }

  function VersionByte(p: Fields, s: VersionState, ch: char): Outcome {
    var next := VersionNext(s, ch);
    if next.Dead? then Error(p, VersionErrno(s))
    else if IsNumberState(s) && IsNum(ch) then VersionDigit(p, s, DigitValue(ch), next)
    else Eat(p.(state := next))
  }

  function VersionDigit(p: Fields, s: VersionState, digit: nat, next: State): Outcome {
    var major := if s.FirstHttpMajor? then digit else if s.HttpMajor? then p.httpMajor * 10 + digit else p.httpMajor;
    var minor := if s.FirstHttpMinor? then digit else if s.HttpMinor? then p.httpMinor * 10 + digit else p.httpMinor;
    var q := p.(httpMajor := major, httpMinor := minor);
    if (s.HttpMajor? && major > 999) || (s.HttpMinor? && minor > 999) then Error(q, InvalidVersion)
    else Eat(q.(state := next))
  }

  /** STRICT_CHECK(ch != want), then go to state `s`. */
  function Expect(p: Fields, ch: char, want: char, s: State): Outcome {
    if ch == want then Eat(p.(state := s)) else Error(p, StrictError)
  }

  // ----- header fields -------------------------------------------------------------------------

  /** The guess at the header's name, from its first (lower-cased) byte. */
  function FirstHeaderState(c: char): HeaderState {
    if c == 'c' then SeenC
    else if c == 'p' then MatchingProxyConnection
    else if c == 't' then MatchingTransferEncoding
    else if c == 'u' then MatchingUpgrade
    else General
  }

  function FieldStartByte(p: Fields, ch: char): Outcome {
    if ch == CR then Eat(p.(state := HeadersAlmostDone))
    else if ch == LF then Again(p.(state := HeadersAlmostDone))
    else if !IsToken(ch) then Error(p, InvalidHeaderToken)
    else
      EatWith(p.(index := 0, state := HeaderField, headerState := FirstHeaderState(Token(ch))),
              Data(FieldText, [ch]))
  }

  /** The constant that a header state is part-way through, or "". */
  function WordOf(h: HeaderState): string {
    match h
    case MatchingConnection => "connection"
    case MatchingProxyConnection => "proxy-connection"
    case MatchingContentLength => "content-length"
    case MatchingTransferEncoding => "transfer-encoding"
    case MatchingUpgrade => "upgrade"
    case MatchingChunked => "chunked"
    case MatchingKeepAlive => "keep-alive"
    case MatchingClose => "close"
    case MatchingUpgradeToken => "upgrade"
    case _ => ""
  }

  /** One byte `c` at `index` of the constant that `h` is matching: `found` once its last byte has
      matched, `lost` on a mismatch. */
  function MatchWord(h: HeaderState, index: nat, c: char, found: HeaderState, lost: HeaderState): HeaderState {
    var word := WordOf(h);
    if index >= |word| || c != word[index] then lost else if index == |word| - 1 then found else h
  }

  /** The header states that advance `index` on every byte of a field name. */
  predicate CountsField(h: HeaderState) {
    h.SeenC? || h.SeenCO? || h.SeenCON? || h.MatchingConnection? || h.MatchingProxyConnection? ||
    h.MatchingContentLength? || h.MatchingTransferEncoding? || h.MatchingUpgrade?
  }

  /** The header states that can arise while a field name is read. */
  predicate IsFieldNameState(h: HeaderState) {
    CountsField(h) || h.General? || h.Connection? || h.ContentLength? || h.TransferEncoding? || h.Upgrade?
  }

  function FieldIndex(h: HeaderState, index: nat): nat {
    if CountsField(h) then index + 1 else index
  }

  /** The header state after one more (lower-cased) byte of a field name. */
  function FieldNext(h: HeaderState, index: nat, c: char): HeaderState {
    match h
    case SeenC => if c == 'o' then SeenCO else General
    case SeenCO => if c == 'n' then SeenCON else General
    case SeenCON => if c == 'n' then MatchingConnection else if c == 't' then MatchingContentLength else General
    case MatchingConnection => MatchWord(h, index + 1, c, Connection, General)
    case MatchingProxyConnection => MatchWord(h, index + 1, c, Connection, General)
    case MatchingContentLength => MatchWord(h, index + 1, c, ContentLength, General)
    case MatchingTransferEncoding => MatchWord(h, index + 1, c, TransferEncoding, General)
    case MatchingUpgrade => MatchWord(h, index + 1, c, Upgrade, General)
    case _ => if c != ' ' then General else h
  }

  function FieldByte(p: Fields, ch: char): Outcome {
    if IsToken(ch) then
      Assertion(p, IsFieldNameState(p.headerState),
                EatWith(p.(index := FieldIndex(p.headerState, p.index),
                           headerState := FieldNext(p.headerState, p.index, Token(ch))),
                        Data(FieldText, [ch])))
    else if ch == ':' then Eat(p.(state := HeaderValueDiscardWs))
    else Error(p, InvalidHeaderToken)
  }

  // ----- header values -------------------------------------------------------------------------

  function DiscardWsByte(p: Fields, ch: char): Outcome {
    if ch == ' ' || ch == '\t' then Eat(p)
    else if ch == CR then Eat(p.(state := HeaderValueDiscardWsAlmostDone))
    else if ch == LF then Eat(p.(state := HeaderValueDiscardLws))
    else ValueStartByte(p, ch)
  }

  /** The guess at a connection token, from its first (lower-cased) byte. */
  function FirstTokenState(c: char, other: HeaderState): HeaderState {
    if c == 'k' then MatchingKeepAlive
    else if c == 'c' then MatchingClose
    else if c == 'u' then MatchingUpgradeToken
    else other
  }

  /** The header state after the first byte of a line of a header value. */
  function ValueStartNext(h: HeaderState, ch: char): HeaderState {
    match h
    case TransferEncoding => if Lower(ch) == 'c' then MatchingChunked else General
    case Connection => FirstTokenState(Lower(ch), MatchingToken)
    case ContentLength => h
    case TokenStart => h
    case _ => General
  }

  function ValueStartByte(p: Fields, ch: char): Outcome {
    var length := p.headerState.ContentLength?;
    var flags := if p.headerState.Upgrade? then p.flags.(upgrade := true)
                 else if length then p.flags.(contentLength := true)
                 else p.flags;
    if length && !IsNum(ch) then Error(p.(state := HeaderValue, index := 0), InvalidContentLength)
    else if length && p.flags.contentLength then
      Error(p.(state := HeaderValue, index := 0), UnexpectedContentLength)
    else
      EatWith(p.(state := HeaderValue, index := 0, headerState := ValueStartNext(p.headerState, ch),
                 flags := flags, contentLength := if length then DigitValue(ch) else p.contentLength),
              Data(ValueText, [ch]))
  }

  /** The flag that a connection token, once complete, stands for. */
  function ConnectionFlag(h: HeaderState, flags: Flags): (r: Flags)
    ensures r.chunked == flags.chunked && r.trailing == flags.trailing
    ensures r.upgrade == flags.upgrade && r.contentLength == flags.contentLength
  {
    match h
    case ConnectionKeepAlive => flags.(keepAlive := true)
    case ConnectionClose => flags.(close := true)
    case ConnectionUpgrade => flags.(connectionUpgrade := true)
    case _ => flags
  }

  /** One more digit of a length in `base`; None when the source's overflow test refuses it. */
  function LengthStep(length: nat, base: nat, digit: nat): (r: Option<nat>)
    requires (base == 10 || base == 16) && digit < base
    ensures r.Some? ==> r.value == (if base == 10 then length * 10 else length * 16) + digit < UNSET
    ensures r.Some? <==> length <= if base == 10 then 1844674407370955160 else 1152921504606846974
  {
    var t := Wrap64(Wrap64(length * base) + digit);
    if (UNSET - base) / base < length then None else Some(t)
  }

  predicate MatchesToken(h: HeaderState) {
    h.MatchingChunked? || h.MatchingKeepAlive? || h.MatchingClose? || h.MatchingUpgradeToken?
  }

  predicate CompleteToken(h: HeaderState) {
    h.ConnectionKeepAlive? || h.ConnectionClose? || h.ConnectionUpgrade?
  }

  /** A comma that ends an element of a Connection value. */
  predicate EndsElement(h: HeaderState, ch: char) {
    ch == ',' && (h.MatchingToken? || CompleteToken(h))
  }

  function ValueIndex(h: HeaderState, index: nat, ch: char): nat {
    if MatchesToken(h) then index + 1 else if EndsElement(h, ch) then 0 else index
  }

  /** The header state after one more byte of a header value. */
  function ValueNext(h: HeaderState, index: nat, ch: char): HeaderState {
    var c := Lower(ch);
    match h
    case ContentLength => h
    case MatchingChunked => MatchWord(h, index + 1, c, TransferChunked, General)
    case TokenStart =>
      FirstTokenState(c, if IsToken(c) then MatchingToken
                         else if c == ' ' || c == '\t' then TokenStart
                         else General)
    case MatchingKeepAlive => MatchWord(h, index + 1, c, ConnectionKeepAlive, MatchingToken)
    case MatchingClose => MatchWord(h, index + 1, c, ConnectionClose, MatchingToken)
    case MatchingUpgradeToken => MatchWord(h, index + 1, c, ConnectionUpgrade, MatchingToken)
    case MatchingToken => if ch == ',' then TokenStart else h
    case TransferChunked => if ch != ' ' then General else h
    case _ =>
      if !CompleteToken(h) then General
      else if ch == ',' then TokenStart
      else if ch != ' ' then MatchingToken
      else h
  }

  /** content_length after one more byte of a header value; None when the byte is refused. */
  function ValueLength(h: HeaderState, length: nat, ch: char): Option<nat> {
    if !h.ContentLength? || ch == ' ' then Some(length)
    else if !IsNum(ch) then None
    else LengthStep(length, 10, DigitValue(ch))
  }

  function ValueStep(p: Fields, ch: char): Outcome {
    var h := p.headerState;
    var length := ValueLength(h, p.contentLength, ch);
    if h.Connection? || h.TransferEncoding? then Assertion(p, false, Eat(p))
    else if length == None then Error(p, InvalidContentLength)
    else
      EatWith(p.(index := ValueIndex(h, p.index, ch), headerState := ValueNext(h, p.index, ch),
                 contentLength := length.value,
                 flags := if EndsElement(h, ch) then ConnectionFlag(h, p.flags) else p.flags),
              Data(ValueText, [ch]))
  }

  function ValueByte(p: Fields, ch: char): Outcome {
    if ch == CR then Eat(p.(state := HeaderAlmostDone))
    else if ch == LF then Again(p.(state := HeaderAlmostDone))
    else if !p.headerState.General? && !p.lenient && !IsHeaderChar(ch) then Error(p, InvalidHeaderToken)
    else ValueStep(p, ch)
  }

  /** The flags once a header is finished. */
  function FinishedFlags(h: HeaderState, flags: Flags): Flags {
    if h.TransferChunked? then flags.(chunked := true) else ConnectionFlag(h, flags)
  }

  function ValueLwsByte(p: Fields, ch: char): Outcome {
    if ch == ' ' || ch == '\t' then Again(p.(state := HeaderValueStart))
    else Again(p.(state := HeaderFieldStart, flags := FinishedFlags(p.headerState, p.flags)))
  }

  function DiscardLwsByte(p: Fields, ch: char): Outcome {
    if ch == ' ' || ch == '\t' then Eat(p.(state := HeaderValueDiscardWs))
    else
      Outcome(p.(state := HeaderFieldStart, flags := FinishedFlags(p.headerState, p.flags)),
              Some(Data(ValueText, [])), false, Reexecute)
  }

  // ----- end of headers and bodies -------------------------------------------------------------

  function HeadersAlmostDoneByte(p: Fields, ch: char): Outcome {
    if ch != LF then Error(p, StrictError)
    else if p.flags.trailing then Outcome(p.(state := MessageDone), Some(ChunkComplete), false, Reexecute)
    else if p.flags.chunked && p.flags.contentLength then Error(p, UnexpectedContentLength)
    else
      var upgrade := (p.flags.upgrade && p.flags.connectionUpgrade) || p.verb == CONNECT;
      Outcome(p.(state := HeadersDone, upgrade := upgrade), Some(HeadersComplete(p.verb, upgrade)), false,
              Reexecute)
  }

  function HeadersDoneByte(p: Fields, ch: char): Outcome {
    var hasBody := p.flags.chunked || (p.contentLength > 0 && p.contentLength != UNSET);
    if ch != LF then Error(p, StrictError)
    else if p.upgrade && (p.verb == CONNECT || !hasBody) then CompleteMessage(p, true, Exit)
    else if p.flags.chunked then Outcome(p.(state := Chunk(SizeStart)), None, true, Consume)
    else if hasBody then Outcome(p.(state := BodyIdentity), None, true, Consume)
    else CompleteMessage(p, true, Consume)
  }

  /** A body state reading a buffer of one byte. */
  function BodyByte(p: Fields, ch: char, done: State, act: Act): Outcome {
    var e := Data(BodyText, [ch]);
    if p.contentLength == 0 || p.contentLength == UNSET then Assertion(p, false, Eat(p))
    else if p.contentLength == 1 then Outcome(p.(contentLength := 0, state := done), Some(e), false, act)
    else EatWith(p.(contentLength := p.contentLength - 1), e)
  }

  function ChunkSizeByte(p: Fields, first: bool, ch: char): Outcome {
    var digit := Unhex(ch);
    var length := if digit == -1 then None
                  else if first then Some(digit)
                  else LengthStep(p.contentLength, 16, digit);
    if !first && ch == CR then Eat(p.(state := Chunk(SizeAlmostDone)))
    else if !first && (ch == ';' || ch == ' ') then Eat(p.(state := Chunk(Parameters)))
    else if digit == -1 then Error(p, InvalidChunkSize)
    else if length == None then Error(p, InvalidContentLength)
    else Eat(p.(contentLength := length.value, state := Chunk(Size)))
  }

  function ChunkSizeAlmostDoneByte(p: Fields, ch: char): Outcome {
    var last := p.contentLength == 0;
    if ch != LF then Error(p, StrictError)
    else
      Outcome(p.(flags := if last then p.flags.(trailing := true) else p.flags,
                 state := if last then HeaderFieldStart else Chunk(ChunkData)),
              Some(ChunkHeader(p.contentLength)), true, Consume)
  }

  function ChunkByte(p: Fields, s: ChunkState, ch: char): Outcome {
    match s
    case SizeStart => ChunkSizeByte(p, true, ch)
    case Size => ChunkSizeByte(p, false, ch)
    case Parameters => if ch == CR then Eat(p.(state := Chunk(SizeAlmostDone))) else Eat(p)
    case SizeAlmostDone => ChunkSizeAlmostDoneByte(p, ch)
    case ChunkData => BodyByte(p, ch, Chunk(DataAlmostDone), Consume)
    case DataAlmostDone => Assertion(p, p.contentLength == 0, Expect(p, ch, CR, Chunk(DataDone)))
    case DataDone =>
      if ch != LF then Error(p, StrictError)
      else Outcome(p.(state := Chunk(SizeStart)), Some(ChunkComplete), true, Consume)
  }

  // ----- the whole switch ----------------------------------------------------------------------

  /** The case of the switch for the current state.  Every chunk state asserts F_CHUNKED. */
  function Micro(p: Fields, ch: char): Outcome {
    match p.state
    case Dead => if ch == CR || ch == LF then Eat(p) else Error(p, ClosedConnection)
    case StartReq => StartReqByte(p, ch)
    case ReqMethod => MethodByte(p, ch)
    case ReqSpacesBeforeUrl => UrlByte(p, ch)
    case Url(_) => UrlByte(p, ch)
    case Version(s) => VersionByte(p, s, ch)
    case HeaderFieldStart => FieldStartByte(p, ch)
    case HeaderField => FieldByte(p, ch)
    case HeaderValueDiscardWs => DiscardWsByte(p, ch)
    case HeaderValueDiscardWsAlmostDone => Expect(p, ch, LF, HeaderValueDiscardLws)
    case HeaderValueDiscardLws => DiscardLwsByte(p, ch)
    case HeaderValueStart => ValueStartByte(p, ch)
    case HeaderValue => ValueByte(p, ch)
    case HeaderValueLws => ValueLwsByte(p, ch)
    case HeaderAlmostDone => if ch == LF then Eat(p.(state := HeaderValueLws)) else Error(p, LfExpected)
    case HeadersAlmostDone => HeadersAlmostDoneByte(p, ch)
    case HeadersDone => HeadersDoneByte(p, ch)
    case Chunk(s) => Assertion(p, p.flags.chunked, ChunkByte(p, s, ch))
    case BodyIdentity => BodyByte(p, ch, MessageDone, Reexecute)
    case MessageDone => CompleteMessage(p, false, if p.upgrade then Exit else Consume)
  }

  /** Bounds the chain of `goto reexecute` jumps on one byte. */
  function Rank(s: State): nat {
    match s
    case HeaderValue => 5
    case HeaderAlmostDone => 4
    case HeaderValueLws => 4
    case HeaderValueDiscardLws => 4
    case HeaderFieldStart => 3
    case HeadersAlmostDone => 2
    case HeadersDone => 1
    case BodyIdentity => 1
    case _ => 0
  }

  /** The states that a `goto reexecute` can lead to. */
  predicate IsReexecuted(s: State) {
    s.HeaderAlmostDone? || s.HeaderValueStart? || s.HeaderFieldStart? || s.HeadersAlmostDone? || s.HeadersDone? ||
    s.MessageDone?
  }

  lemma ReexecuteDecreasesRank(p: Fields, ch: char)
    ensures var o := Micro(p, ch);
            o.act == Reexecute ==> Rank(o.p.state) < Rank(p.state) && IsReexecuted(o.p.state)
  {
    if Rank(p.state) == 0 {
      RankZeroConsumes(p, ch);
    }
  }

  lemma RankZeroConsumes(p: Fields, ch: char)
    requires Rank(p.state) == 0
    ensures Micro(p, ch).act != Reexecute
  {
  }

  // ----- runs ----------------------------------------------------------------------------------

  /** Adds a callback to a trace, joining it with a data callback of the same kind before it. */
  function Emit(trace: seq<Event>, e: Event): seq<Event> {
    if e.Data? && |trace| > 0 && trace[|trace| - 1].Data? && trace[|trace| - 1].kind == e.kind then
      trace[..|trace| - 1] + [Data(e.kind, trace[|trace| - 1].text + e.text)]
    else
      trace + [e]
  }

  function EmitOption(trace: seq<Event>, e: Option<Event>): seq<Event> {
    match e
    case None => trace
    case Some(e) => Emit(trace, e)
  }

  /** A run so far: the fields, the number of header bytes since the last reset, the callbacks with
      adjacent data callbacks joined, and how the last byte ended. */
  datatype Config = Config(p: Fields, count: nat, trace: seq<Event>, last: Act)

  function Start(lenient: bool): Config {
    Config(InitialFields(lenient), 0, [], Consume)
  }

  predicate Running(c: Config) {
    c.last == Consume || c.last == Exit
  }

  function Apply(c: Config, o: Outcome): Config {
    Config(o.p, if o.resetCount then 0 else c.count, EmitOption(c.trace, o.event), o.act)
  }

  function StepByte(c: Config, ch: char): Config
    decreases Rank(c.p.state)
  {
    var o := Micro(c.p, ch);
    if o.act == Reexecute then ReexecuteDecreasesRank(c.p, ch); StepByte(Apply(c, o), ch) else Apply(c, o)
  }

  /** A byte is looked at again until it is consumed or refused. */
  lemma {:induction false} StepByteEnds(c: Config, ch: char)
    ensures StepByte(c, ch).last != Reexecute
    decreases Rank(c.p.state)
  {
    var o := Micro(c.p, ch);
    if o.act == Reexecute {
      ReexecuteDecreasesRank(c.p, ch);
      StepByteEnds(Apply(c, o), ch);
    }
  }

  /** The machine on one byte.  After an error it stays as it is. */
  function Next(c: Config, ch: char): Config {
    if !Running(c) then c
    else StepByte(if ParsingHeader(c.p.state) then c.(count := c.count + 1) else c, ch)
  }

  function Feed(c: Config, data: string): Config {
    if data == [] then c else Next(Feed(c, data[..|data| - 1]), data[|data| - 1])
  }

  lemma {:induction false} FeedConcat(c: Config, a: string, b: string)
    ensures Feed(c, a + b) == Feed(Feed(c, a), b)
    decreases |b|
  {
    if b == [] {
      assert a + b == a;
    } else {
      var n := |b| - 1;
      assert (a + b)[..|a + b| - 1] == a + b[..n];
      FeedConcat(c, a, b[..n]);
    }
  }

  /** One more byte of a string. */
  lemma FeedNext(c: Config, data: string, i: nat)
    requires i < |data|
    ensures Feed(c, data[..i + 1]) == Next(Feed(c, data[..i]), data[i])
  {
    assert data[..i + 1][..i] == data[..i];
  }
}
