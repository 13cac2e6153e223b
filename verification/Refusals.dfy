/** What the parser refuses, and with which error: at each place of a message the bytes that may follow, as
    characters. */
module Refusals {
  import opened Ascii
  import opened HttpTypes
  import opened ByteMachine
  import opened UrlMachine
  import opened Knowledge
  import opened Segments
  import opened Framing
  import opened RequestLine
  import opened HeaderLines
  import opened HeaderBlocks
  import opened Requests

  /** The byte is refused with this error, and nothing is called back. */
  predicate RefusedWith(r: Config, c: Config, e: Errno) {
    r.last == Fail && r.p.errno == e && r.trace == c.trace
  }

  // ----- the request line ------------------------------------------------------------------------

  /** A byte that leads out of the URL automaton. */
  lemma UrlByteRefused(c: Config, ch: char)
    requires Running(c) && (c.p.state.ReqSpacesBeforeUrl? || c.p.state.Url?) && ch != ' ' && ch != CR && ch != LF
    requires var from := if c.p.state.ReqSpacesBeforeUrl? && c.p.verb == CONNECT then Url(ServerStart) else c.p.state;
             ParseUrlChar(from, ch) == Dead
    ensures RefusedWith(Next(c, ch), c, InvalidUrl)
  {
    Bite(c, ch, UrlByte(c.p, ch));
  }

  /** A URL that ends too early: before it starts, in the schema, or in front of the server. */
  lemma UrlEndRefused(c: Config, ch: char)
    requires Running(c) && (c.p.state.ReqSpacesBeforeUrl? || (c.p.state.Url? && !EndsUrl(c.p.state)))
    requires ch == CR || ch == LF || (ch == ' ' && c.p.state.Url?)
    ensures RefusedWith(Next(c, ch), c, InvalidUrl)
  {
    Bite(c, ch, UrlByte(c.p, ch));
  }

  /** The word in front of a version, and the states within it. */
  const HTTP_SLASH := "HTTP/"

  function HttpState(k: nat): State
    requires k <= 5
  {
    Version([HttpStart, HttpH, HttpHT, HttpHTT, HttpHTTP, FirstHttpMajor][k])
  }

  /** Within it only its next letter may follow; in front of it, also spaces. */
  lemma HttpRefused(c: Config, k: nat, ch: char)
    requires Running(c) && k < 5 && c.p.state == HttpState(k) && ch != HTTP_SLASH[k] && (k == 0 ==> ch != ' ')
    ensures RefusedWith(Next(c, ch), c, if k == 0 then InvalidConstant else StrictError)
  {
    Bite(c, ch, Micro(c.p, ch));
  }

  /** A major number starts with a digit other than zero, goes on with digits and ends in a dot; a minor number starts
      with a digit, goes on with digits and ends in a line end. */
  lemma NumberRefused(c: Config, ch: char)
    requires Running(c) && c.p.state.Version? && IsNumberState(c.p.state.version)
    requires match c.p.state.version
             case FirstHttpMajor => !('1' <= ch <= '9')
             case HttpMajor => !('0' <= ch <= '9') && ch != '.'
             case FirstHttpMinor => !('0' <= ch <= '9')
             case _ => !('0' <= ch <= '9') && ch != CR && ch != LF
    ensures RefusedWith(Next(c, ch), c, InvalidVersion)
  {
    Bite(c, ch, Micro(c.p, ch));
  }

  /** Behind the CR of a request line. */
  lemma RequestLineEndRefused(c: Config, ch: char)
    requires Running(c) && c.p.state == Version(LineAlmostDone) && ch != LF
    ensures RefusedWith(Next(c, ch), c, LfExpected)
  {
    Bite(c, ch, Micro(c.p, ch));
  }

  // ----- header lines ----------------------------------------------------------------------------

  /** A header line starts with a token character, and its name goes on with them up to a colon. */
  lemma NameRefused(c: Config, ch: char)
    requires Running(c) && !IsToken(ch)
    requires (c.p.state.HeaderFieldStart? && ch != CR && ch != LF) || (c.p.state.HeaderField? && ch != ':')
    ensures RefusedWith(Next(c, ch), c, InvalidHeaderToken)
  {
    Bite(c, ch, Micro(c.p, ch));
  }

  /** Behind the CR of a header line, of a line without a value, and of the empty line. */
  lemma LineEndRefused(c: Config, ch: char)
    requires Running(c) && ch != LF
    requires c.p.state.HeaderAlmostDone? || c.p.state.HeaderValueDiscardWsAlmostDone? || c.p.state.HeadersAlmostDone?
    ensures RefusedWith(Next(c, ch), c, if c.p.state.HeaderAlmostDone? then LfExpected else StrictError)
  {
    Bite(c, ch, Micro(c.p, ch));
  }

  /** A second Content-Length header of a message is refused on the first digit of its value, whatever its number. */
  lemma SecondLengthRefused(c: Config, ch: char)
    requires Running(c) && c.p.state.HeaderValueDiscardWs? && c.p.headerState.ContentLength? && c.p.flags.contentLength
    requires ch != CR && ch != LF && !IsBlankByte(ch)
    ensures RefusedWith(Next(c, ch), c, if '0' <= ch <= '9' then UnexpectedContentLength else InvalidContentLength)
  {
    Bite(c, ch, ValueStartByte(c.p, ch));
  }

  // ----- the end of the headers ------------------------------------------------------------------

  /** Headers that declare a chunked body and a length at the same time. */
  predicate AreInConflict(flags: Flags) {
    flags.chunked && flags.contentLength
  }

  lemma ConflictByte(c: Config)
    requires Running(c) && c.p.state.HeadersAlmostDone? && !c.p.flags.trailing && AreInConflict(c.p.flags)
    ensures RefusedWith(Next(c, LF), c, UnexpectedContentLength)
  {
    Bite(c, LF, HeadersAlmostDoneByte(c.p, LF));
  }

  /** The empty line behind them is refused on its LF. */
  lemma EmptyLineRefused(c: Config, p: Fields, trace: seq<Event>, end: string)
    requires Within(c, p, trace) && !p.flags.trailing && AreInConflict(p.flags) && IsLineEnd(end)
    ensures var r := Feed(c, end); r.last == Fail && r.p.errno == UnexpectedContentLength && r.trace == trace
  {
    SettledFeed(c, end);
    var d := EmptyLineParts(Settled(c), end);
    ConflictByte(d);
  }

  /** A request line and header lines that are well formed, and an empty line. */
  ghost predicate IsHead(lenient: bool, r: Request) {
    forall key {:trigger Unfold(key)} :: Unfold(key) ==>
      && AreLineEnds(r.lead) && r.spaces != [] && AreSpaces(r.spaces) && r.protocol.Valid()
      && EndsUrl(UrlFold(r.verb == CONNECT, r.url)) && AreReadable(lenient, NO_FLAGS, r.lines) && IsLineEnd(r.empty)
  }

  /** The head of a request is accepted if and only if its headers do not declare both framings; otherwise it is refused
      on the last byte of its empty line, and the embedder is not told that the headers are complete. */
  lemma HeadIsExact(c: Config, r: Request)
    requires Running(c) && c.p.state.StartReq? && IsHead(c.p.lenient, r)
    ensures var e := Feed(c, HeadText(r) + r.empty);
            if AreInConflict(HeadFlags(r)) then
              e.last == Fail && e.p.errno == UnexpectedContentLength && e.trace == c.trace + HeadEvents(r)
            else
              && Running(e) && |c.trace + HeadEvents(r)| < |e.trace|
              && e.trace[..|c.trace + HeadEvents(r)| + 1]
                 == c.trace + HeadEvents(r) + [HeadersComplete(r.verb, AsksForUpgrade(r))]
  {
    assert Unfold(0);
    var p, t := AfterHead(c.p, r), c.trace + HeadEvents(r);
    HeadLinesRead(c, r);
    FeedConcat(c, HeadText(r), r.empty);
    if AreInConflict(HeadFlags(r)) {
      EmptyLineRefused(Feed(c, HeadText(r)), p, t, r.empty);
    } else {
      EmptyLineRead(Feed(c, HeadText(r)), p, t, r.empty);
    }
  }

  // ----- chunks ----------------------------------------------------------------------------------

  /** A chunk size starts with a byte that `unhex` gives a value. */
  lemma SizeStartRefused(c: Config, ch: char)
    requires Running(c) && ReadsSize(c.p) && Unhex(ch) < 0
    ensures RefusedWith(Next(c, ch), c, InvalidChunkSize)
  {
    Bite(c, ch, Micro(c.p, ch));
  }

  /** It goes on with them up to a CR, a semicolon or a space. */
  lemma SizeRefused(c: Config, ch: char)
    requires Running(c) && c.p.state == State.Chunk(Size) && c.p.flags.chunked && Unhex(ch) < 0
    requires ch != CR && ch != ';' && ch != ' '
    ensures RefusedWith(Next(c, ch), c, InvalidChunkSize)
  {
    Bite(c, ch, Micro(c.p, ch));
  }

  /** Behind the CR of a size line, and around the one behind the data. */
  lemma ChunkEndRefused(c: Config, ch: char)
    requires Running(c) && c.p.state.Chunk? && c.p.flags.chunked
    requires match c.p.state.chunk
             case SizeAlmostDone => ch != LF
             case DataAlmostDone => ch != CR && c.p.contentLength == 0
             case DataDone => ch != LF
             case _ => false
    ensures RefusedWith(Next(c, ch), c, StrictError)
  {
    Bite(c, ch, Micro(c.p, ch));
  }

  // ----- behind a message that closes the connection -----------------------------------------------

  /** The first byte that is neither CR nor LF, or the end. */
  function FirstOther(s: string): (k: nat)
    ensures k <= |s| && AreLineEnds(s[..k]) && (k < |s| ==> s[k] != CR && s[k] != LF)
  {
    if s == [] then 0
    else
      var k := FirstOther(s[..|s| - 1]);
      assert s[..|s| - 1][..k] == s[..k];
      if k < |s| - 1 || (s[|s| - 1] != CR && s[|s| - 1] != LF) then k else |s|
  }

  lemma DeadByte(c: Config, ch: char)
    requires Running(c) && c.p.state.Dead?
    ensures if ch == CR || ch == LF then At(Next(c, ch), c.p, c.trace)
            else RefusedWith(Next(c, ch), c, ClosedConnection)
  {
    Bite(c, ch, Micro(c.p, ch));
  }

  /** Nothing but line ends is accepted behind such a message, and the first other byte is refused. */
  lemma {:induction false} DeadIsExact(c: Config, s: string)
    requires Running(c) && c.p.state.Dead?
    ensures var r := Feed(c, s);
            && (Running(r) <==> AreLineEnds(s))
            && (if AreLineEnds(s) then r.p == c.p && r.trace == c.trace
                else RefusedWith(r, c, ClosedConnection) && Running(Feed(c, s[..FirstOther(s)])) &&
                     RefusedWith(Feed(c, s[..FirstOther(s) + 1]), c, ClosedConnection))
  {
    if AreLineEnds(s) {
      DeadSkips(c, s);
    } else {
      var k := FirstOther(s);
      OtherIsThere(s);
      DeadSkips(c, s[..k]);
      DeadByte(Feed(c, s[..k]), s[k]);
      FeedNext(c, s, k);
      StaysRefused(c, s, k + 1);
    }
  }

  lemma {:induction false} StaysRefused(c: Config, s: string, n: nat)
    requires n <= |s| && Feed(c, s[..n]).last == Fail
    ensures Feed(c, s) == Feed(c, s[..n])
  {
    assert s == s[..n] + s[n..];
    FeedConcat(c, s[..n], s[n..]);
    FailsOn(Feed(c, s[..n]), s[n..]);
  }

  lemma OtherIsThere(s: string)
    ensures AreLineEnds(s) || FirstOther(s) < |s|
  {
    assert s[..|s|] == s;
  }

  lemma {:induction false} DeadSkips(c: Config, s: string)
    requires Running(c) && c.p.state.Dead? && AreLineEnds(s)
    ensures var r := Feed(c, s); Running(r) && r.p == c.p && r.trace == c.trace && (s != [] ==> r.last == Consume)
  {
    if s != [] {
      DeadSkips(c, s[..|s| - 1]);
      DeadByte(Feed(c, s[..|s| - 1]), s[|s| - 1]);
    }
  }
}
