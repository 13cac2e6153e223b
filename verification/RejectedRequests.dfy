/** Behind printed requests, in buffers cut in any way: a request with both framings, and bytes behind a message that
    closes the connection. */
module RejectedRequests {
  import opened Ascii
  import opened HttpTypes
  import opened ByteMachine
  import opened Callbacks
  import opened Invariant
  import opened Tracking
  import opened Segments
  import opened HttpParser
  import opened RequestLine
  import opened HeaderLines
  import opened HeaderBlocks
  import opened Requests
  import opened Refusals
  import opened Counting
  import opened Clean
  import opened Calm
  import opened Cuts
  import opened Streams
  import opened Rejections

  // ----- texts one after the other -----------------------------------------------------------------

  lemma {:induction false} HeedsLess(c: Config, text: string, slack: nat)
    requires Undisturbed(c, text, slack, true)
    ensures Undisturbed(c, text, slack, false)
  {
    forall k | 0 <= k <= |text|
      ensures Smooth(c, text, k, slack, false)
    {
      assert Smooth(c, text, k, slack, true);
    }
  }

  lemma {:induction false} UndisturbedJoin(c: Config, a: string, b: string, slack: nat)
    requires Undisturbed(c, a, slack, false) && Undisturbed(Feed(c, a), b, slack, false)
    requires Feed(c, a).last == Consume && Feed(c, a).p.lenient == c.p.lenient
    ensures Undisturbed(c, a + b, slack, false)
  {
    forall k | 0 <= k <= |a + b|
      ensures Smooth(c, a + b, k, slack, false)
    {
      if k < |a| {
        SmoothFirst(c, a, b, k, slack);
      } else {
        SmoothSecond(c, a, b, k - |a|, slack);
      }
    }
  }

  lemma {:induction false} SmoothFirst(c: Config, a: string, b: string, k: nat, slack: nat)
    requires Undisturbed(c, a, slack, false) && k < |a|
    ensures Smooth(c, a + b, k, slack, false)
  {
    assert Smooth(c, a, k, slack, false);
    assert (a + b)[..k] == a[..k] && (a + b)[k] == a[k];
  }

  lemma {:induction false} SmoothSecond(c: Config, a: string, b: string, k: nat, slack: nat)
    requires Undisturbed(Feed(c, a), b, slack, false) && k <= |b|
    requires Feed(c, a).last == Consume && Feed(c, a).p.lenient == c.p.lenient
    ensures Smooth(c, a + b, |a| + k, slack, false)
  {
    assert Smooth(Feed(c, a), b, k, slack, false);
    assert (a + b)[..|a| + k] == a + b[..k];
    FeedConcat(c, a, b[..k]);
    if k < |b| {
      assert (a + b)[|a| + k] == b[k];
    }
    if k == 0 {
      assert b[..0] == [];
    }
  }

  /** Printed requests that leave the connection in `state`, with room for `more` header bytes behind them. */
  ghost predicate AreBefore(lenient: bool, rs: seq<Request>, calls: nat, state: State, more: nat) {
    forall key {:trigger Uncover(key)} :: Uncover(key) ==>
      && AreSendable(lenient, rs, calls) && (rs != [] ==> !AsksForUpgrade(rs[|rs| - 1]))
      && EndState(rs) == state && LeftAfter(rs, 0) + more <= Room(calls)
  }

  /** What they leave. */
  lemma {:induction false} BeforeRead(lenient: bool, rs: seq<Request>, calls: nat, state: State, more: nat)
    requires AreBefore(lenient, rs, calls, state, more)
    ensures Undisturbed(Start(lenient), RequestsText(rs), calls, false)
    ensures var d := Feed(Start(lenient), RequestsText(rs));
            && d.last == Consume && d.trace == RequestsEvents(rs) && d.p.state == state && !d.p.upgrade
            && d.p.lenient == lenient && d.count + more <= Room(calls)
  {
    assert Uncover(0);
    RequestsUndisturbed(lenient, rs, calls);
    BeforeCount(lenient, rs, calls);
    FeedLenient(Start(lenient), RequestsText(rs));
    if rs != [] {
      SendableEnd(lenient, rs, calls);
    }
  }

  lemma {:induction false} BeforeCount(lenient: bool, rs: seq<Request>, calls: nat)
    requires AreSendable(lenient, rs, calls)
    ensures Feed(Start(lenient), RequestsText(rs)).count <= LeftAfter(rs, 0)
  {
    assert Unfold(0);
    PipelineLeft(Start(lenient), rs, Room(calls));
  }

  // ----- lenient_http_headers is the embedder's ----------------------------------------------------

  lemma PassLenient(p: Fields, ch: char)
    ensures Micro(p, ch).p.lenient == p.lenient
  {
    var s := p.state;
    if InRequestLine(s) {
      RequestLineLenient(p, ch);
    } else if s.Chunk? {
      ChunkLenient(p, s.chunk, ch);
    } else if s.HeaderField? {
      assert Micro(p, ch) == FieldByte(p, ch);
    } else if s.HeaderValue? {
      assert Micro(p, ch) == ValueByte(p, ch);
    }
  }

  lemma RequestLineLenient(p: Fields, ch: char)
    requires InRequestLine(p.state)
    ensures Micro(p, ch).p.lenient == p.lenient
  {
  }

  lemma ChunkLenient(p: Fields, s: ChunkState, ch: char)
    requires p.state == State.Chunk(s)
    ensures ChunkByte(p, s, ch).p.lenient == p.lenient
  {
  }

  lemma {:induction false} StepByteLenient(c: Config, ch: char)
    ensures StepByte(c, ch).p.lenient == c.p.lenient
    decreases Rank(c.p.state)
  {
    var o := Micro(c.p, ch);
    PassLenient(c.p, ch);
    if o.act == Reexecute {
      ReexecuteDecreasesRank(c.p, ch);
      LookAgain(c, ch, o);
      StepByteLenient(Apply(c, o), ch);
    } else {
      Bites(c, ch, o);
    }
  }

  lemma {:induction false} FeedLenient(c: Config, s: string)
    ensures Feed(c, s).p.lenient == c.p.lenient
  {
    if s != [] {
      var d := Feed(c, s[..|s| - 1]);
      FeedLenient(c, s[..|s| - 1]);
      if Running(d) {
        NextSteps(d, s[|s| - 1]);
        StepByteLenient(Counted(d), s[|s| - 1]);
      }
    }
  }

  // ----- behind a message that closes the connection -------------------------------------------------

  lemma {:induction false} LineEndsUndisturbed(d: Config, ends: string, slack: nat)
    requires d.last == Consume && d.p.state.Dead? && AreLineEnds(ends) && d.count + |ends| <= Room(slack)
    ensures Undisturbed(d, ends, slack, false)
  {
    RoomIsRoom(slack);
    forall k | 0 <= k <= |ends|
      ensures Smooth(d, ends, k, slack, false)
    {
      DeadIsExact(d, ends[..k]);
      DeadSkips(d, ends[..k]);
      CountGrows(d, ends[..k]);
      SurplusGrows(Feed(d, ends[..k]).count, Room(slack), slack);
    }
  }

  lemma SurplusGrows(a: nat, b: nat, slack: nat)
    requires a <= b
    ensures a + Surplus(a, slack) <= b + Surplus(b, slack)
  {
  }

  lemma {:induction false} ClosedText(lenient: bool, rs: seq<Request>, ends: string, calls: nat)
    requires AreBefore(lenient, rs, calls, Dead, |ends|) && AreLineEnds(ends)
    ensures var d := Feed(Start(lenient), RequestsText(rs) + ends);
            && Undisturbed(Start(lenient), RequestsText(rs) + ends, calls, false)
            && d.last == Consume && d.p.state.Dead? && d.trace == RequestsEvents(rs) && !d.p.upgrade
  {
    var c := Feed(Start(lenient), RequestsText(rs));
    BeforeRead(lenient, rs, calls, Dead, |ends|);
    LineEndsUndisturbed(c, ends, calls);
    UndisturbedJoin(Start(lenient), RequestsText(rs), ends, calls);
    FeedConcat(Start(lenient), RequestsText(rs), ends);
    DeadSkips(c, ends);
  }

  lemma {:induction false} ClosedByte(lenient: bool, text: string, ch: char)
    requires var d := Feed(Start(lenient), text); d.last == Consume && d.p.state.Dead?
    requires ch != CR && ch != LF
    ensures RefusesBehind(Start(lenient), text, ch)
    ensures var r := Feed(Start(lenient), text + [ch]);
            r.p.errno == ClosedConnection && r.trace == Feed(Start(lenient), text).trace
  {
    FeedLast(Start(lenient), text, ch);
    DeadByte(Feed(Start(lenient), text), ch);
  }

  /** Nothing is pending behind a callback that is none of data. */
  lemma NothingLags(raw: seq<Event>, trace: seq<Event>)
    requires Lags(raw, trace) && trace != [] && !trace[|trace| - 1].Data?
    ensures Join(raw) == trace
  {
    assert Unfold(0);
  }

  lemma {:induction false} RequestsEndWithMessage(rs: seq<Request>)
    requires rs != []
    ensures RequestsEvents(rs) != [] && RequestsEvents(rs)[|RequestsEvents(rs)| - 1].MessageComplete?
    decreases |rs|
  {
    if |rs| > 1 {
      RequestsEndWithMessage(rs[1..]);
    } else {
      LastRequest(rs);
    }
  }

  /** Requests of which the last one closes the connection, line ends, and a byte that is none: the calls fail at that
      byte, in whatever buffer it comes, and the callbacks are those of the requests. */
  method ReceiveBehindClose(lenient: bool, rs: seq<Request>, ends: string, ch: char, rest: string, before: seq<string>,
                            data: string) returns (parser: Parser, m: nat)
    requires rs != [] && AreBefore(lenient, rs, |before| + 1, Dead, |ends|) && AreLineEnds(ends)
    requires ch != CR && ch != LF && AreBuffers(before) && |data| < 0x8000_0000
    requires Concat(before) + data == RequestsText(rs) + ends + [ch] + rest
    requires |Concat(before)| <= |RequestsText(rs)| + |ends|
    ensures parser.errno == ClosedConnection && m == |RequestsText(rs)| + |ends| - |Concat(before)|
    ensures Join(parser.trace) == RequestsEvents(rs)
  {
    var text := RequestsText(rs) + ends;
    ClosedText(lenient, rs, ends, |before| + 1);
    ClosedByte(lenient, text, ch);
    parser, m := ReceiveTextAndByte(lenient, text, ch, rest, before, data);
    RequestsEndWithMessage(rs);
    NothingLags(parser.trace, RequestsEvents(rs));
  }

  /** Line ends alone are read without an error. */
  method ReceiveLineEnds(lenient: bool, rs: seq<Request>, ends: string, before: seq<string>, data: string)
    returns (parser: Parser, n: nat)
    requires rs != [] && AreBefore(lenient, rs, |before| + 1, Dead, |ends|) && AreLineEnds(ends)
    requires AreBuffers(before) && |data| < 0x8000_0000 && Concat(before) + data == RequestsText(rs) + ends
    requires |Concat(before)| < |RequestsText(rs)| + |ends|
    ensures parser.errno == OK && n == |data| && parser.state.Dead? && Join(parser.trace) == RequestsEvents(rs)
  {
    var text := RequestsText(rs) + ends;
    ClosedText(lenient, rs, ends, |before| + 1);
    assert text + "" == text && |Concat(before) + data| == |text|;
    parser, n := ReceiveText(lenient, text, "", before, data);
  }

  // ----- a request with both framings --------------------------------------------------------------

  /** A head that is well formed, but declares a chunked body and a length at the same time. */
  ghost predicate IsConflict(lenient: bool, r: Request) {
    forall key {:trigger Uncover(key)} :: Uncover(key) ==>
      && IsHead(lenient, r) && AreInConflict(HeadFlags(r))
      && forall l :: l in r.lines ==> TailPasses(lenient, WholeValue(l))
  }

  /** Up to the LF of its empty line. */
  function UpToLF(r: Request): string {
    HeadText(r) + if r.empty == "\n" then "" else "\r"
  }

  lemma {:induction false} EmptyLineHalves(r: Request)
    requires IsLineEnd(r.empty)
    ensures HeadText(r) + r.empty == UpToLF(r) + [LF]
    ensures UpToLF(r) + (if r.empty == "\n" then "\r" else "") == HeadText(r) + "\r"
  {
    if r.empty == "\r\n" {
      assert r.empty == "\r" + [LF];
      assert HeadText(r) + r.empty == HeadText(r) + "\r" + [LF];
    }
  }

  lemma {:induction false} HeadIsRead(d: Config, r: Request)
    requires Running(d) && d.p.state.StartReq? && IsHead(d.p.lenient, r)
    ensures Within(Feed(d, HeadText(r)), AfterHead(d.p, r), d.trace + HeadEvents(r)) && HeadText(r) != ""
  {
    assert Unfold(0);
    HeadLinesRead(d, r);
  }

  lemma {:induction false} EmptyLineCR(c: Config, p: Fields, trace: seq<Event>)
    requires Within(c, p, trace)
    ensures var e := Feed(c, "\r");
            At(e, p.(state := HeadersAlmostDone, headerState := e.p.headerState, index := e.p.index), trace)
  {
    SettledFeed(c, "\r");
    FeedOne(Settled(c), CR);
    Bite(Settled(c), CR, FieldStartByte(Settled(c).p, CR));
  }

  lemma {:induction false} HeadAndCR(d: Config, r: Request)
    requires Running(d) && d.p.state.StartReq? && IsHead(d.p.lenient, r)
    ensures var e := Feed(d, HeadText(r) + "\r");
            At(e, AfterHead(d.p, r).(state := HeadersAlmostDone, headerState := e.p.headerState, index := e.p.index),
               d.trace + HeadEvents(r))
  {
    HeadIsRead(d, r);
    EmptyLineCR(Feed(d, HeadText(r)), AfterHead(d.p, r), d.trace + HeadEvents(r));
    FeedConcat(d, HeadText(r), "\r");
  }

  lemma {:induction false} HeadIsClean(rules: Rules, r: Request)
    requires forall l :: l in r.lines ==> TailPasses(rules.lenient, WholeValue(l))
    ensures IsClean(rules, [] + HeadEvents(r))
  {
    var bare := r.(body := NoBody);
    HeadClean(rules, bare);
    assert [] + HeadEvents(r) == HeadEvents(bare);
  }

  lemma {:induction false} HeadUndisturbed(d: Config, r: Request, slack: nat)
    requires d.last == Consume && d.p.state.StartReq? && !d.p.upgrade && IsHead(d.p.lenient, r)
    requires forall l :: l in r.lines ==> TailPasses(d.p.lenient, WholeValue(l))
    requires d.count + |HeadText(r)| + 1 <= Room(slack)
    ensures Undisturbed(d, HeadText(r) + "\r", slack, false)
  {
    var c, text := d.(trace := []), HeadText(r) + "\r";
    RoomIsRoom(slack);
    HeadAndCR(c, r);
    HeadIsClean(Rules(d.p.lenient, false), r);
    LightShort(c, text, Room(slack));
    LightHasRoom(c, text, slack, Room(slack));
    UndisturbedStream(c, text, slack);
    UndisturbedFresh(d, text, slack);
    HeedsLess(d, text, slack);
  }

  lemma {:induction false} SmoothIsConsumed(c: Config, text: string, k: nat, slack: nat)
    requires Undisturbed(c, text, slack, false) && 0 < k < |text|
    ensures Feed(c, text[..k]).last == Consume
  {
    assert Smooth(c, text, k, slack, false);
  }

  /** Where the head leads, up to the LF that is refused. */
  lemma {:induction false} ConflictText(d: Config, r: Request, slack: nat)
    requires d.last == Consume && d.p.state.StartReq? && !d.p.upgrade && IsConflict(d.p.lenient, r)
    requires d.count + |HeadText(r)| + 1 <= Room(slack)
    ensures Undisturbed(d, UpToLF(r), slack, false) && RefusesBehind(d, UpToLF(r), LF)
    ensures var e := Feed(d, UpToLF(r) + [LF]);
            e.p.errno == UnexpectedContentLength && e.trace == d.trace + HeadEvents(r)
  {
    assert Uncover(0);
    HeadEmptyLine(d.p.lenient, r);
    EmptyLineHalves(r);
    HeadUndisturbed(d, r, slack);
    UndisturbedPrefix(d, UpToLF(r), if r.empty == "\n" then "\r" else "", slack, false);
    HeadIsExact(d, r);
    FeedLast(d, UpToLF(r), LF);
    UpToLFIsConsumed(d, r, slack);
  }

  lemma {:induction false} HeadEmptyLine(lenient: bool, r: Request)
    requires IsHead(lenient, r)
    ensures IsLineEnd(r.empty)
  {
    assert Unfold(0);
  }

  lemma {:induction false} UpToLFIsConsumed(d: Config, r: Request, slack: nat)
    requires Running(d) && d.p.state.StartReq? && IsHead(d.p.lenient, r) && IsLineEnd(r.empty)
    requires Undisturbed(d, HeadText(r) + "\r", slack, false) && HeadText(r) != ""
    ensures Feed(d, UpToLF(r)).last == Consume && !Feed(d, UpToLF(r)).p.state.HeaderValue?
  {
    var text := HeadText(r) + "\r";
    HeadAndCR(d, r);
    if r.empty == "\n" {
      assert text[..|HeadText(r)|] == HeadText(r) == UpToLF(r);
      SmoothIsConsumed(d, text, |HeadText(r)|, slack);
      HeadIsRead(d, r);
    }
  }

  /** Requests, and one that declares both framings: the calls fail on the last byte of its empty line, in whatever
      buffer it comes, with the error for that, and the embedder is not told that its headers are complete. */
  method ReceiveConflict(lenient: bool, rs: seq<Request>, r: Request, rest: string, before: seq<string>, data: string)
    returns (parser: Parser, m: nat)
    requires AreBefore(lenient, rs, |before| + 1, StartReq, |HeadText(r)| + 1) && IsConflict(lenient, r)
    requires AreBuffers(before) && |data| < 0x8000_0000
    requires Concat(before) + data == RequestsText(rs) + HeadText(r) + r.empty + rest
    requires |Concat(before)| < |RequestsText(rs)| + |HeadText(r)| + |r.empty|
    ensures parser.errno == UnexpectedContentLength
    ensures m == |RequestsText(rs)| + |HeadText(r)| + |r.empty| - 1 - |Concat(before)|
    ensures Lags(parser.trace, RequestsEvents(rs) + HeadEvents(r))
  {
    var text := RequestsText(rs) + UpToLF(r);
    ConflictBehind(lenient, rs, r, rest, |before| + 1);
    parser, m := ReceiveTextAndByte(lenient, text, LF, rest, before, data);
  }

  lemma {:induction false} ConflictBehind(lenient: bool, rs: seq<Request>, r: Request, rest: string, calls: nat)
    requires AreBefore(lenient, rs, calls, StartReq, |HeadText(r)| + 1) && IsConflict(lenient, r)
    ensures var text := RequestsText(rs) + UpToLF(r);
            && Undisturbed(Start(lenient), text, calls, false) && RefusesBehind(Start(lenient), text, LF)
            && |UpToLF(r)| == |HeadText(r)| + |r.empty| - 1
            && RequestsText(rs) + HeadText(r) + r.empty + rest == text + [LF] + rest
    ensures var e := Feed(Start(lenient), RequestsText(rs) + UpToLF(r) + [LF]);
            e.p.errno == UnexpectedContentLength && e.trace == RequestsEvents(rs) + HeadEvents(r)
  {
    var d := Feed(Start(lenient), RequestsText(rs));
    BeforeRead(lenient, rs, calls, StartReq, |HeadText(r)| + 1);
    ConflictText(d, r, calls);
    ConflictIsHead(lenient, r);
    EmptyLineHalves(r);
    TextHalves(RequestsText(rs), HeadText(r), r.empty, UpToLF(r), rest);
    UndisturbedJoin(Start(lenient), RequestsText(rs), UpToLF(r), calls);
    ReadBehind(Start(lenient), RequestsText(rs), UpToLF(r), LF);
  }

  lemma TextHalves(a: string, head: string, end: string, half: string, rest: string)
    requires head + end == half + [LF]
    ensures |half| == |head| + |end| - 1 && a + head + end + rest == a + half + [LF] + rest
  {
    assert a + head + end == a + (head + end) == a + half + [LF];
    assert |head + end| == |half| + 1;
  }

  lemma {:induction false} ReadBehind(c: Config, a: string, b: string, ch: char)
    ensures Feed(c, a + b) == Feed(Feed(c, a), b) && Feed(c, a + b + [ch]) == Feed(Feed(c, a), b + [ch])
  {
    FeedConcat(c, a, b);
    FeedLast(c, a + b, ch);
    FeedLast(Feed(c, a), b, ch);
  }

  lemma {:induction false} ConflictIsHead(lenient: bool, r: Request)
    requires IsConflict(lenient, r)
    ensures IsLineEnd(r.empty)
  {
    assert Uncover(0);
    HeadEmptyLine(lenient, r);
  }
}
