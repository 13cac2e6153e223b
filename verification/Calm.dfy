/** Streams on which nothing gives a reason to stop: what the callbacks and the count of header bytes of
    a whole run say about every byte on the way. */
module Calm {
  import opened Ascii
  import opened HttpTypes
  import opened ByteMachine
  import opened Invariant
  import opened Tracking
  import opened Knowledge
  import opened Segments
  import opened HeaderLines
  import opened HeaderBlocks
  import opened Clean
  import opened Framing
  import opened Requests
  import opened Counting

  /** At most this much is nread beyond the number of header bytes, if it is at most `slack` by the cut: never
      more than there are header bytes. */
  function Surplus(count: nat, slack: nat): nat {
    if count < slack then count else slack
  }

  /** From `c`, the machine at position `k` of a stream gives no reason to stop short of its end, however the stream
      is cut, as long as the cut adds no more than `slack` to nread.  An embedder that heeds upgrades takes one as a
      reason. */
  ghost predicate Smooth(c: Config, stream: string, k: nat, slack: nat, heeds: bool)
    requires k <= |stream|
  {
    var d := Feed(c, stream[..k]);
    && Running(d) && (heeds ==> !d.p.upgrade) && (0 < k < |stream| ==> d.last == Consume)
    && d.count + Surplus(d.count, slack) < HTTP_MAX_HEADER_SIZE
    && (k < |stream| && d.p.state.HeaderValue? ==> c.p.lenient || IsHeaderChar(stream[k]))
  }

  /** From `c`, the machine reads the whole stream without an error, a return before its end, an upgrade that is
      heeded, or a header that is too long, and every byte of a header value passes IS_HEADER_CHAR. */
  ghost predicate Undisturbed(c: Config, stream: string, slack: nat, heeds: bool) {
    forall k {:trigger Smooth(c, stream, k, slack, heeds)} :: 0 <= k <= |stream| ==> Smooth(c, stream, k, slack, heeds)
  }

  // ----- whole streams ----------------------------------------------------------------------------

  /** There are never too many header bytes, with what a cut may add. */
  ghost predicate HasRoomFor(c: Config, stream: string, slack: nat) {
    forall k {:trigger Feed(c, stream[..k])} :: 0 <= k <= |stream| ==>
      Feed(c, stream[..k]).count + Surplus(Feed(c, stream[..k]).count, slack) < HTTP_MAX_HEADER_SIZE
  }

  lemma {:induction false} LightHasRoom(c: Config, stream: string, slack: nat, bound: nat)
    requires Light(c, stream, bound) && bound + Surplus(bound, slack) < HTTP_MAX_HEADER_SIZE
    ensures HasRoomFor(c, stream, slack)
  {
    assert Unfold(0);
  }

  lemma ExitMeansUpgrade(c: Config, data: string)
    ensures data != [] && Feed(c, data).last == Exit && Running(Feed(c, data[..|data| - 1])) ==> Feed(c, data).p.upgrade
  {
    if data != [] && Running(Feed(c, data[..|data| - 1])) {
      var i := |data| - 1;
      var d := Feed(c, data[..i]);
      NextSteps(d, data[i]);
      ExitByte(Counted(d), data[i]);
    }
  }

  /** What the callbacks of the whole run say about one byte of a header value. */
  lemma {:induction false} CharShows(c: Config, stream: string, k: nat, rules: Rules)
    requires k <= |stream| && HasValue(c) && Running(Feed(c, stream)) && IsClean(rules, Feed(c, stream).trace)
    ensures var d := Feed(c, stream[..k]);
            && Running(d) && IsClean(rules, d.trace)
            && (k < |stream| && d.p.state.HeaderValue? ==> rules.lenient || IsHeaderChar(stream[k]))
  {
    FeedClean(rules, c, stream, k);
    if k < |stream| && Feed(c, stream[..k]).p.state.HeaderValue? {
      FeedClean(rules, c, stream, k + 1);
      FeedNext(c, stream, k);
      FeedHasValue(c, stream[..k]);
      ValueByteShows(rules, Feed(c, stream[..k]), stream[k]);
    }
  }

  /** Without an upgrade there is no return before the end of the buffer. */
  lemma {:induction false} NoUpgradeOnTheWay(c: Config, stream: string, k: nat, rules: Rules)
    requires k <= |stream| && !c.p.upgrade && !rules.upgrades
    requires Running(Feed(c, stream)) && IsClean(rules, Feed(c, stream).trace)
    ensures var d := Feed(c, stream[..k]); !d.p.upgrade && (0 < k ==> d.last == Consume)
  {
    FeedClean(rules, c, stream, k);
    FeedShows(rules, c, stream[..k]);
    if 0 < k {
      FeedClean(rules, c, stream, k - 1);
      assert stream[..k][..k - 1] == stream[..k - 1];
      ExitMeansUpgrade(c, stream[..k]);
    }
  }

  /** A stream is undisturbed if the run as a whole shows no reason to stop: no error at the end, no upgrade and no
      byte of a value that IS_HEADER_CHAR refuses in the callbacks, and never too many header bytes. */
  lemma {:induction false} UndisturbedStream(c: Config, stream: string, slack: nat)
    requires Running(Feed(c, stream)) && IsClean(Rules(c.p.lenient, false), Feed(c, stream).trace)
    requires HasRoomFor(c, stream, slack) && !c.p.upgrade && HasValue(c)
    ensures Undisturbed(c, stream, slack, true)
  {
    var rules := Rules(c.p.lenient, false);
    forall k | 0 <= k <= |stream|
      ensures Smooth(c, stream, k, slack, true)
    {
      CharShows(c, stream, k, rules);
      NoUpgradeOnTheWay(c, stream, k, rules);
    }
  }

  lemma {:induction false} UndisturbedNext(lenient: bool, stream: string, n: nat, slack: nat)
    requires Undisturbed(Start(lenient), stream, slack, true) && n < |stream|
    requires IsClean(Rules(lenient, false), Feed(Start(lenient), stream[..n]).trace)
    ensures IsClean(Rules(lenient, false), Feed(Start(lenient), stream[..n + 1]).trace)
  {
    var c := Feed(Start(lenient), stream[..n]);
    assert Smooth(Start(lenient), stream, n, slack, true) && Smooth(Start(lenient), stream, n + 1, slack, true);
    ReachableInv(lenient, stream[..n]);
    ReachableKnows(lenient, stream[..n]);
    FailsOrKnowsMeans(c);
    FeedNext(Start(lenient), stream, n);
    NextSteps(c, stream[n]);
    StepByteKeepsClean(Rules(lenient, false), Counted(c), stream[n]);
  }

  lemma {:induction false} UndisturbedClean(lenient: bool, stream: string, n: nat, slack: nat)
    requires Undisturbed(Start(lenient), stream, slack, true) && n <= |stream|
    ensures IsClean(Rules(lenient, false), Feed(Start(lenient), stream[..n]).trace)
  {
    if n == 0 {
      assert stream[..0] == [];
    } else {
      UndisturbedClean(lenient, stream, n - 1, slack);
      UndisturbedNext(lenient, stream, n - 1, slack);
    }
  }

  /** Exactly then: a stream from the start is undisturbed if and only if the run as a whole shows it. */
  lemma {:induction false} UndisturbedIsExact(lenient: bool, stream: string, slack: nat)
    ensures var e := Feed(Start(lenient), stream);
            Undisturbed(Start(lenient), stream, slack, true) ==
            (Running(e) && IsClean(Rules(lenient, false), e.trace) && HasRoomFor(Start(lenient), stream, slack))
  {
    var n := |stream|;
    var e := Feed(Start(lenient), stream);
    assert stream[..n] == stream;
    if Undisturbed(Start(lenient), stream, slack, true) {
      assert Smooth(Start(lenient), stream, n, slack, true);
      UndisturbedClean(lenient, stream, n, slack);
      forall k | 0 <= k <= n
        ensures Feed(Start(lenient), stream[..k]).count + Surplus(Feed(Start(lenient), stream[..k]).count, slack)
              < HTTP_MAX_HEADER_SIZE
      {
        assert Smooth(Start(lenient), stream, k, slack, true);
      }
    } else if Running(e) && IsClean(Rules(lenient, false), e.trace) && HasRoomFor(Start(lenient), stream, slack) {
      UndisturbedStream(Start(lenient), stream, slack);
    }
  }

  /** What the callbacks have been before plays no part. */
  lemma {:induction false} FreshTrace(c: Config, s: string)
    ensures var d := Feed(c, s);
            var e := Feed(c.(trace := []), s);
            d.p == e.p && d.count == e.count && d.last == e.last
  {
    if s != [] {
      var t := s[..|s| - 1];
      FreshTrace(c, t);
      NextFresh(Feed(c, t), Feed(c.(trace := []), t), s[|s| - 1]);
    }
  }

  lemma {:induction false} NextFresh(d: Config, e: Config, ch: char)
    requires d.p == e.p && d.count == e.count && d.last == e.last
    ensures Next(d, ch).p == Next(e, ch).p
    ensures Next(d, ch).count == Next(e, ch).count && Next(d, ch).last == Next(e, ch).last
  {
    if Running(d) {
      NextSteps(d, ch);
      NextSteps(e, ch);
      StepByteFresh(Counted(d), Counted(e), ch);
    }
  }

  lemma {:induction false} StepByteFresh(d: Config, e: Config, ch: char)
    requires d.p == e.p && d.count == e.count
    ensures var a := StepByte(d, ch);
            var b := StepByte(e, ch);
            a.p == b.p && a.count == b.count && a.last == b.last
    decreases Rank(d.p.state)
  {
    var o := Micro(d.p, ch);
    if o.act == Reexecute {
      ReexecuteDecreasesRank(d.p, ch);
      LookAgain(d, ch, o);
      LookAgain(e, ch, o);
      StepByteFresh(Apply(d, o), Apply(e, o), ch);
    } else {
      Bites(d, ch, o);
      Bites(e, ch, o);
    }
  }

  lemma {:induction false} UndisturbedFresh(c: Config, stream: string, slack: nat)
    requires Undisturbed(c.(trace := []), stream, slack, true)
    ensures Undisturbed(c, stream, slack, true)
  {
    forall k | 0 <= k <= |stream|
      ensures Smooth(c, stream, k, slack, true)
    {
      assert Smooth(c.(trace := []), stream, k, slack, true);
      FreshTrace(c, stream[..k]);
    }
  }

  // ----- printed requests -------------------------------------------------------------------------

  /** Without lenient_http_headers, the values of header and trailer lines pass IS_HEADER_CHAR, but for their first
      bytes. */
  predicate HasHeaderChars(lenient: bool, r: Request) {
    && (forall l :: l in r.lines ==> TailPasses(lenient, WholeValue(l)))
    && (r.body.Chunked? ==> forall l :: l in r.body.trailers ==> TailPasses(lenient, WholeValue(l)))
  }

  /** Requests whose callbacks are clean. */
  predicate AreClean(rules: Rules, rs: seq<Request>) {
    || rs == []
    || (HasHeaderChars(rules.lenient, rs[0]) && (AsksForUpgrade(rs[0]) ==> rules.upgrades) && AreClean(rules, rs[1..]))
  }

  /** All but the last one ask for no upgrade. */
  predicate OnlyLastUpgrades(rs: seq<Request>) {
    |rs| <= 1 || (!AsksForUpgrade(rs[0]) && OnlyLastUpgrades(rs[1..]))
  }

  lemma {:induction false} LinesClean(rules: Rules, lines: seq<Line>)
    requires forall l :: l in lines ==> TailPasses(rules.lenient, WholeValue(l))
    ensures IsClean(rules, LinesEvents(lines))
    decreases |lines|
  {
    if lines != [] {
      CleanPair(rules, Data(FieldText, lines[0].name), Data(ValueText, WholeValue(lines[0])));
      LinesClean(rules, lines[1..]);
      CleanConcat(rules, LineEvents(lines[0]), LinesEvents(lines[1..]));
    }
  }

  lemma {:induction false} HeadClean(rules: Rules, r: Request)
    requires HasHeaderChars(rules.lenient, r)
    ensures IsClean(rules, HeadEvents(r))
  {
    var start := [MessageBegin, Data(UrlText, r.url)];
    CleanPair(rules, MessageBegin, Data(UrlText, r.url));
    LinesClean(rules, r.lines);
    CleanConcat(rules, start, LinesEvents(r.lines));
  }

  lemma {:induction false} ChunksClean(rules: Rules, chunks: seq<BodyChunk>)
    ensures IsClean(rules, ChunksEvents(chunks))
    decreases |chunks|
  {
    if chunks != [] {
      var k := chunks[0];
      var data := Data(DataKind.BodyText, k.data);
      CleanPair(rules, ChunkHeader(|k.data|), data);
      CleanNext(rules, [ChunkHeader(|k.data|), data], ChunkComplete);
      assert ChunkEvents(k) == [ChunkHeader(|k.data|), data] + [ChunkComplete];
      ChunksClean(rules, chunks[1..]);
      CleanConcat(rules, ChunkEvents(k), ChunksEvents(chunks[1..]));
    }
  }

  lemma {:induction false} BodyClean(rules: Rules, b: Body)
    requires b.Chunked? ==> forall l :: l in b.trailers ==> TailPasses(rules.lenient, WholeValue(l))
    ensures IsClean(rules, BodyEvents(b))
  {
    match b
    case NoBody =>
    case Sized(data) =>
      var e := Data(DataKind.BodyText, data);
      CleanNext(rules, [], e);
      assert [] + [e] == [e];
    case Chunked(chunks, _, _, trailers, _) => ChunkedClean(rules, chunks, trailers);
  }

  lemma {:induction false} ChunkedClean(rules: Rules, chunks: seq<BodyChunk>, trailers: seq<Line>)
    requires forall l :: l in trailers ==> TailPasses(rules.lenient, WholeValue(l))
    ensures IsClean(rules, ChunksEvents(chunks) + [ChunkHeader(0)] + LinesEvents(trailers) + [ChunkComplete])
  {
    ChunksClean(rules, chunks);
    LinesClean(rules, trailers);
    CleanNext(rules, ChunksEvents(chunks), ChunkHeader(0));
    CleanConcat(rules, ChunksEvents(chunks) + [ChunkHeader(0)], LinesEvents(trailers));
    CleanNext(rules, ChunksEvents(chunks) + [ChunkHeader(0)] + LinesEvents(trailers), ChunkComplete);
  }

  lemma {:induction false} RequestClean(rules: Rules, r: Request)
    requires HasHeaderChars(rules.lenient, r) && (AsksForUpgrade(r) ==> rules.upgrades)
    ensures IsClean(rules, RequestEvents(r))
  {
    HeadClean(rules, r);
    BodyClean(rules, r.body);
    var over := HeadersComplete(r.verb, AsksForUpgrade(r));
    CleanNext(rules, HeadEvents(r), over);
    CleanConcat(rules, HeadEvents(r) + [over], BodyEvents(r.body));
    CleanNext(rules, HeadEvents(r) + [over] + BodyEvents(r.body), MessageComplete(KeptAlive(r)));
  }

  lemma {:induction false} RequestsClean(rules: Rules, rs: seq<Request>)
    requires AreClean(rules, rs)
    ensures IsClean(rules, RequestsEvents(rs))
    decreases |rs|
  {
    if rs != [] {
      RequestClean(rules, rs[0]);
      RequestsClean(rules, rs[1..]);
      CleanConcat(rules, RequestEvents(rs[0]), RequestsEvents(rs[1..]));
    }
  }

  // ----- a return before the end of a buffer ------------------------------------------------------

  lemma {:induction false} FinishedConcat(a: seq<Event>, b: seq<Event>)
    ensures Finished(a + b) == Finished(a) + Finished(b)
  {
    if b == [] {
      assert a + b == a;
    } else {
      var n := |b| - 1;
      FinishedConcat(a, b[..n]);
      FinishedNext(a + b[..n], b[n]);
      FinishedNext(b[..n], b[n]);
      assert a + b[..n] + [b[n]] == a + b && b[..n] + [b[n]] == b;
    }
  }

  lemma {:induction false} NoneFinished(es: seq<Event>)
    requires forall e :: e in es ==> !e.MessageComplete?
    ensures Finished(es) == 0
  {
    if es != [] {
      NoneFinished(es[..|es| - 1]);
    }
  }

  lemma {:induction false} LinesNotFinished(lines: seq<Line>)
    ensures forall e :: e in LinesEvents(lines) ==> !e.MessageComplete?
    decreases |lines|
  {
    if lines != [] {
      LinesNotFinished(lines[1..]);
    }
  }

  lemma {:induction false} ChunksNotFinished(chunks: seq<BodyChunk>)
    ensures forall e :: e in ChunksEvents(chunks) ==> !e.MessageComplete?
    decreases |chunks|
  {
    if chunks != [] {
      ChunksNotFinished(chunks[1..]);
    }
  }

  /** A request is one message. */
  lemma {:induction false} RequestFinished(r: Request)
    ensures Finished(RequestEvents(r)) == 1
  {
    var t := HeadEvents(r) + [HeadersComplete(r.verb, AsksForUpgrade(r))] + BodyEvents(r.body);
    LinesNotFinished(r.lines);
    if r.body.Chunked? {
      LinesNotFinished(r.body.trailers);
      ChunksNotFinished(r.body.chunks);
    }
    NoneFinished(t);
    FinishedNext(t, MessageComplete(KeptAlive(r)));
  }

  /** Two returns come with two messages. */
  lemma {:induction false} TwoReturns(c: Config, a: string, b: string)
    requires a != "" && b != "" && Feed(c, a).last == Exit && Feed(Feed(c, a), b).last == Exit
    ensures Finished(c.trace) + 2 <= Finished(Feed(Feed(c, a), b).trace)
  {
    ReturnCounts(c, a);
    ReturnCounts(Feed(c, a), b);
  }

  /** Within one message there is no return. */
  lemma {:induction false} ReturnIsLast(c: Config, s: string, k: nat)
    requires 0 < k < |s| && Feed(c, s).last == Exit && Finished(Feed(c, s).trace) == Finished(c.trace) + 1
    ensures Feed(c, s[..k]).last != Exit
  {
    var a, b := s[..k], s[k..];
    assert s == a + b;
    FeedConcat(c, a, b);
    if Feed(c, a).last == Exit {
      TwoReturns(c, a, b);
    }
  }

  /** Requests that can be sent one after the other, all but the last of which ask for no upgrade. */
  ghost predicate AreCalm(lenient: bool, rs: seq<Request>) {
    forall key {:trigger Unfold(key)} :: Unfold(key) ==>
      AreRequests(lenient, rs) && ArePipelined(rs) && OnlyLastUpgrades(rs)
  }

  lemma {:induction false} FirstIsCalm(c: Config, rs: seq<Request>)
    requires Running(c) && c.p.state.StartReq? && AreCalm(c.p.lenient, rs) && rs != []
    requires IsClean(Rules(true, false), c.trace)
    ensures IsRequest(c.p.lenient, rs[0]) && (|rs| > 1 ==> !AsksForUpgrade(rs[0]))
    ensures |rs| > 1 ==>
              var d := Feed(c, RequestText(rs[0]));
              && Running(d) && d.p.state.StartReq? && AreCalm(d.p.lenient, rs[1..])
              && !d.p.upgrade && IsClean(Rules(true, false), d.trace)
    ensures RequestsText(rs) == RequestText(rs[0]) + RequestsText(rs[1..])
    ensures |rs| == 1 ==> RequestsText(rs) == RequestText(rs[0])
  {
    assert Unfold(0);
    if |rs| > 1 {
      CalmRequest(c, rs[0]);
    } else {
      LastRequest(rs);
    }
  }

  /** Nor is there one within such requests. */
  lemma {:induction false} RequestsReturn(c: Config, rs: seq<Request>, k: nat)
    requires Running(c) && c.p.state.StartReq? && AreCalm(c.p.lenient, rs)
    requires !c.p.upgrade && IsClean(Rules(true, false), c.trace) && 0 < k < |RequestsText(rs)|
    ensures Feed(c, RequestsText(rs)[..k]).last != Exit
    decreases |rs|
  {
    var text := RequestText(rs[0]);
    FirstIsCalm(c, rs);
    if |rs| == 1 {
      FirstReturns(c, rs[0], k, true);
    } else {
      MoreReturns(c, text, RequestsText(rs[1..]), k);
      if k <= |text| {
        FirstReturns(c, rs[0], k, false);
      } else {
        RequestsReturn(Feed(c, text), rs[1..], k - |text|);
      }
    }
  }

  lemma {:induction false} MoreReturns(c: Config, text: string, rest: string, k: nat)
    requires k <= |text| + |rest|
    ensures Feed(c, (text + rest)[..k])
         == if k <= |text| then Feed(c, text[..k]) else Feed(Feed(c, text), rest[..k - |text|])
  {
    PrefixOfTwo(text, rest, k);
    if |text| < k {
      FeedConcat(c, text, rest[..k - |text|]);
    }
  }

  lemma {:induction false} FirstReturns(c: Config, r: Request, k: nat, isLast: bool)
    requires Running(c) && c.p.state.StartReq? && IsRequest(c.p.lenient, r) && 0 < k <= |RequestText(r)|
    requires !c.p.upgrade && IsClean(Rules(true, false), c.trace)
    requires if isLast then k < |RequestText(r)| else !AsksForUpgrade(r)
    ensures Feed(c, RequestText(r)[..k]).last != Exit
  {
    if AsksForUpgrade(r) {
      LastRequestReturns(c, r, k);
    } else {
      CalmRequest(c, r);
      NoUpgradeOnTheWay(c, RequestText(r), k, Rules(true, false));
    }
  }

  lemma PrefixOfTwo(a: string, b: string, k: nat)
    requires k <= |a| + |b|
    ensures (a + b)[..k] == if k <= |a| then a[..k] else a + b[..k - |a|]
  {
  }

  /** A request that asks for no upgrade. */
  lemma {:induction false} CalmRequest(c: Config, r: Request)
    requires Running(c) && c.p.state.StartReq? && IsRequest(c.p.lenient, r) && !AsksForUpgrade(r)
    requires IsClean(Rules(true, false), c.trace)
    ensures var d := Feed(c, RequestText(r));
            && Running(d) && !d.p.upgrade && d.p.lenient == c.p.lenient && IsClean(Rules(true, false), d.trace)
            && (KeptAlive(r) ==> d.p.state.StartReq?)
  {
    RequestRoundTrip(c, r);
    RequestClean(Rules(true, false), r);
    CleanConcat(Rules(true, false), c.trace, RequestEvents(r));
  }

  lemma {:induction false} LastRequestReturns(c: Config, r: Request, k: nat)
    requires Running(c) && c.p.state.StartReq? && IsRequest(c.p.lenient, r) && AsksForUpgrade(r)
    requires 0 < k < |RequestText(r)|
    ensures Feed(c, RequestText(r)[..k]).last != Exit
  {
    RequestRoundTrip(c, r);
    RequestFinished(r);
    FinishedConcat(c.trace, RequestEvents(r));
    ReturnIsLast(c, RequestText(r), k);
  }

  /** The number of header bytes for which there is room, however they are cut into `slack` pieces; more than
      40000, whatever the number of pieces. */
  function Room(slack: nat): nat {
    if 2 * slack <= HTTP_MAX_HEADER_SIZE then HTTP_MAX_HEADER_SIZE - slack - 1 else HTTP_MAX_HEADER_SIZE / 2 - 1
  }

  lemma RoomIsRoom(slack: nat)
    ensures Room(slack) + Surplus(Room(slack), slack) < HTTP_MAX_HEADER_SIZE
    ensures Room(slack) > 40000
  {
  }

  /** Well-formed requests that can be sent in any number of buffers, `calls`: all but the last keep the connection
      alive and ask for no upgrade, and there is room for every header text and chunk size line. */
  ghost predicate AreSendable(lenient: bool, rs: seq<Request>, calls: nat) {
    forall key {:trigger Unfold(key)} :: Unfold(key) ==>
      && AreRequests(lenient, rs) && ArePipelined(rs) && OnlyLastUpgrades(rs) && AreClean(Rules(lenient, true), rs)
      && AllFit(rs, 0, Room(calls))
  }

  lemma {:induction false} SendableFits(lenient: bool, rs: seq<Request>, calls: nat)
    requires AreSendable(lenient, rs, calls)
    ensures Light(Start(lenient), RequestsText(rs), Room(calls))
  {
    assert Unfold(0);
    PipelineFits(Start(lenient), rs, Room(calls));
  }

  lemma {:induction false} SendableRead(lenient: bool, rs: seq<Request>, calls: nat)
    requires AreSendable(lenient, rs, calls)
    ensures var e := Feed(Start(lenient), RequestsText(rs));
            Running(e) && e.trace == RequestsEvents(rs) && e.p.state == EndState(rs)
  {
    assert Unfold(0);
    PipelineRoundTrip(Start(lenient), rs);
    assert [] + RequestsEvents(rs) == RequestsEvents(rs);
  }

  lemma {:induction false} SendableClean(lenient: bool, rs: seq<Request>, calls: nat)
    requires AreSendable(lenient, rs, calls)
    ensures IsClean(Rules(lenient, true), Feed(Start(lenient), RequestsText(rs)).trace)
  {
    assert Unfold(0);
    SendableRead(lenient, rs, calls);
    RequestsClean(Rules(lenient, true), rs);
  }

  lemma {:induction false} SendableReturn(lenient: bool, rs: seq<Request>, calls: nat, k: nat)
    requires AreSendable(lenient, rs, calls) && 0 < k < |RequestsText(rs)|
    ensures Feed(Start(lenient), RequestsText(rs)[..k]).last != Exit
  {
    assert Unfold(0);
    RequestsReturn(Start(lenient), rs, k);
  }

  /** What has been read at the end. */
  lemma {:induction false} SendableEnd(lenient: bool, rs: seq<Request>, calls: nat)
    requires AreSendable(lenient, rs, calls) && rs != []
    ensures var e := Feed(Start(lenient), RequestsText(rs));
            var upgrade := AsksForUpgrade(rs[|rs| - 1]);
            && e.trace == RequestsEvents(rs) && e.p.state == EndState(rs)
            && e.p.upgrade == upgrade && e.last == if upgrade then Exit else Consume
  {
    assert Unfold(0);
    SendableRead(lenient, rs, calls);
    PipelineReturns(Start(lenient), rs, rs[|rs| - 1]);
  }

  /** The stream of printed requests is undisturbed, up to an upgrade that the last one may ask for. */
  lemma {:induction false} RequestsUndisturbed(lenient: bool, rs: seq<Request>, calls: nat)
    requires AreSendable(lenient, rs, calls)
    ensures Undisturbed(Start(lenient), RequestsText(rs), calls, false)
  {
    var c := Start(lenient);
    var stream := RequestsText(rs);
    RoomIsRoom(calls);
    SendableFits(lenient, rs, calls);
    SendableRead(lenient, rs, calls);
    SendableClean(lenient, rs, calls);
    LightHasRoom(c, stream, calls, Room(calls));
    forall k | 0 <= k <= |stream|
      ensures Smooth(c, stream, k, calls, false)
    {
      CharShows(c, stream, k, Rules(lenient, true));
      if 0 < k < |stream| {
        SendableReturn(lenient, rs, calls, k);
      }
    }
  }

  // ----- printed chunked bodies -------------------------------------------------------------------

  /** A chunked body that can be sent in `slack` buffers. */
  predicate IsSendableBody(lenient: bool, flags: Flags, b: Body, slack: nat) {
    && IsChunkedBody(lenient, flags, b)
    && (forall k :: k in b.chunks ==> ChunkFits(k, Room(slack)))
    && |b.size| + |b.extension| + 2 <= Room(slack) && Left(b.trailers) <= Room(slack)
    && (forall l :: l in b.trailers ==> TailPasses(lenient, WholeValue(l)))
  }

  lemma {:induction false} ChunkedEventsClean(rules: Rules, b: Body, done: Event)
    requires b.Chunked? && (forall l :: l in b.trailers ==> TailPasses(rules.lenient, WholeValue(l)))
    requires IsCleanEvent(rules, done)
    ensures IsClean(rules, [] + BodyEvents(b) + [done])
  {
    BodyClean(rules, b);
    CleanNext(rules, BodyEvents(b), done);
    assert [] + BodyEvents(b) == BodyEvents(b);
  }

  /** The stream of a printed chunked body is undisturbed, from where the first chunk size starts. */
  lemma {:induction false} BodyUndisturbed(c: Config, b: Body, slack: nat)
    requires Running(c) && ReadsSize(c.p) && !c.p.upgrade && c.count == 0
    requires IsSendableBody(c.p.lenient, c.p.flags, b, slack)
    ensures Undisturbed(c, Requests.BodyText(b), slack, true)
  {
    var d := c.(trace := []);
    RoomIsRoom(slack);
    ChunkedBodyFits(d, b, Room(slack));
    ChunkedBodyRead(d, b);
    ChunkedEventsClean(Rules(c.p.lenient, false), b, MessageComplete(ShouldKeepAlive(AfterTrailers(c.p, b.trailers))));
    LightHasRoom(d, Requests.BodyText(b), slack, Room(slack));
    UndisturbedStream(d, Requests.BodyText(b), slack);
    UndisturbedFresh(c, Requests.BodyText(b), slack);
  }
}
