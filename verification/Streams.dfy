/** A parser fed a whole stream, cut into buffers in any way. */
module Streams {
  import opened HttpTypes
  import opened ByteMachine
  import opened Grammar
  import opened Invariant
  import opened Callbacks
  import opened Tracking
  import opened Message
  import opened Limits
  import opened Stops
  import opened HttpParser
  import opened HeaderLines
  import opened HeaderBlocks
  import opened Framing
  import opened Requests
  import opened Calm
  import opened Cuts

  /** What a call does to a buffer is determined: it consumes it up to one position, or fails at one position for
      one reason. */
  lemma OutcomeIsDetermined(parser: Parser, refs: seq<Config>, data: string, n: nat, m: nat)
    requires |refs| == |data| + 1 && parser.Failure(refs, data, n)
    ensures parser.Failure(refs, data, m) ==> m == n
    ensures !Ends(refs, data, m, parser.base, parser.lenient)
  {
    var s, why :| 0 <= s <= n && parser.FailedFrom(refs, data, s, n, why);
    if parser.Failure(refs, data, m) {
      var t, reason :| 0 <= t <= m && parser.FailedFrom(refs, data, t, m, reason);
      StopsOnce(refs, data, n, why, m, reason, parser.base, parser.lenient);
    }
    if Ends(refs, data, m, parser.base, parser.lenient) {
      EndsOrStops(refs, data, m, n, why, parser.base, parser.lenient);
    }
  }

  /** A call consumes what it is to consume. */
  lemma EndsAreConsumed(parser: Parser, refs: seq<Config>, data: string, e: nat, n: nat)
    requires IsRun(refs, data) && Ends(refs, data, e, parser.base, parser.lenient) && parser.Valid()
    requires if parser.errno == OK then parser.Consumed(refs, data, n) else parser.Failure(refs, data, n)
    ensures n == e && parser.errno == OK
  {
    if parser.errno == OK {
      EndsOnce(refs, data, e, n, parser.base, parser.lenient);
    } else {
      OutcomeIsDetermined(parser, refs, data, n, e);
    }
  }

  /** One buffer: all of it is read, without an error or an upgrade that is heeded, exactly if the parser gets through
      it. */
  method ReceiveOne(parser: Parser, data: string, heeds: bool) returns (n: nat)
    requires parser.Valid() && 0 < |data| < 0x8000_0000
    modifies parser
    ensures parser.Valid()
    ensures var refs := RunOf(old(parser.Reference()), data);
            (n == |data| && parser.errno == OK && (heeds ==> !parser.upgrade)) ==
            (old(parser.errno) == OK && Goes(refs, data, old(parser.surplus), parser.lenient, heeds))
    ensures n == |data| && parser.errno == OK ==>
              && parser.fed == old(parser.fed) + data
              && parser.surplus == SurplusAt(RunOf(old(parser.Reference()), data), |data|, old(parser.surplus))
  {
    ghost var refs, ok := RunOf(parser.Reference(), data), parser.errno == OK;
    RunOfIsRun(parser.Reference(), data);
    n := parser.Execute(data);
    if ok && Goes(refs, data, parser.base, parser.lenient, heeds) {
      assert Uncover(0);
      EndsAreConsumed(parser, refs, data, |data|, n);
    }
    if n == |data| && parser.errno == OK {
      assert data[..n] == data;
      assert Unfold(0);
    }
  }

  /** Where a parser is after the first `i` buffers. */
  ghost predicate Received(parser: Parser, c: Config, surplus: nat, buffers: seq<string>, i: nat, heeds: bool)
    requires AreBuffers(buffers) && i <= |buffers|
    reads parser
  {
    forall key {:trigger Uncover(key)} :: Uncover(key) ==>
      if parser.errno == OK then
        && GoesThrough(c, surplus, buffers[..i], heeds) && parser.surplus == SurplusAfter(c, surplus, buffers[..i])
        && parser.Reference() == Feed(c, Concat(buffers[..i]))
      else !GoesThrough(c, surplus, buffers[..i], heeds)
  }

  /** Feeds the buffers to a parser, until a call does not read all of its buffer or announces an upgrade that is
      heeded.  It gets through them exactly if no byte is refused: by the byte-at-a-time machine, by the header-size
      limit with the surplus that the cut makes, or, where the value loop looks at it, by IS_HEADER_CHAR.  Then the
      parser has the fields of the byte-at-a-time machine and has made its callbacks, up to how data is cut into
      callbacks, and nread is the number of header bytes and that surplus: at most one for each buffer, and at most
      twice the number of header bytes. */
  method Receive(parser: Parser, buffers: seq<string>, heeds: bool) returns (received: nat)
    requires parser.Valid() && parser.errno == OK && AreBuffers(buffers)
    modifies parser
    ensures received <= |buffers| && parser.Valid()
    ensures (received == |buffers| && parser.errno == OK) ==
            GoesThrough(old(parser.Reference()), old(parser.surplus), buffers, heeds)
    ensures received == |buffers| && parser.errno == OK ==>
              var c := Feed(old(parser.Reference()), Concat(buffers));
              && parser.Reference() == c && parser.Snapshot() == c.p && Join(parser.trace) == c.trace
              && parser.surplus == SurplusAfter(old(parser.Reference()), old(parser.surplus), buffers)
              && parser.nread == c.count + parser.surplus
              && parser.surplus <= old(parser.surplus) + |buffers| && parser.surplus <= c.count
  {
    ghost var c, s := parser.Reference(), parser.surplus;
    assert buffers[..0] == [];
    received := 0;
    while received < |buffers|
      invariant received <= |buffers| && parser.Valid() && Received(parser, c, s, buffers, received, heeds)
    {
      var n := ReceiveNext(parser, buffers, received, heeds, c, s);
      if (heeds && parser.upgrade) || n != |buffers[received]| {
        NotThrough(c, s, buffers, received + 1, heeds);
        return;
      }
      received := received + 1;
    }
    assert buffers[..received] == buffers;
    assert Uncover(0);
    if parser.errno == OK {
      ThroughBound(c, s, buffers, heeds);
    }
  }

  method ReceiveNext(parser: Parser, buffers: seq<string>, i: nat, heeds: bool, ghost c: Config, ghost s: nat)
    returns (n: nat)
    requires AreBuffers(buffers) && i < |buffers| && parser.Valid() && Received(parser, c, s, buffers, i, heeds)
    requires c.p.lenient == parser.lenient
    modifies parser
    ensures parser.Valid()
    ensures if (heeds && parser.upgrade) || n != |buffers[i]| then !GoesThrough(c, s, buffers[..i + 1], heeds)
            else Received(parser, c, s, buffers, i + 1, heeds)
  {
    assert Uncover(0);
    GoesThroughNext(c, s, buffers, i, heeds);
    ConcatNext(buffers, i);
    FeedConcat(c, Concat(buffers[..i]), buffers[i]);
    FeedConcat(Start(parser.lenient), parser.fed, buffers[i]);
    n := ReceiveOne(parser, buffers[i], heeds);
  }

  /** However an undisturbed stream is cut, a new parser gets through it. */
  lemma {:induction false} UndisturbedIsReceived(lenient: bool, buffers: seq<string>, slack: nat, heeds: bool)
    requires AreBuffers(buffers) && Undisturbed(Start(lenient), Concat(buffers), slack, heeds) && |buffers| <= slack
    ensures GoesThrough(Start(lenient), 0, buffers, heeds)
  {
    UndisturbedGoes(Start(lenient), 0, buffers, slack, heeds);
  }

  lemma {:induction false} UndisturbedBoth(lenient: bool, buffers: seq<string>, others: seq<string>, slack: nat,
                                           heeds: bool)
    requires Concat(buffers) == Concat(others) && AreBuffers(buffers) && AreBuffers(others)
    requires |buffers| <= slack && |others| <= slack
    ensures Undisturbed(Start(lenient), Concat(buffers), slack, heeds) ==>
              GoesThrough(Start(lenient), 0, buffers, heeds) && GoesThrough(Start(lenient), 0, others, heeds)
  {
    if Undisturbed(Start(lenient), Concat(buffers), slack, heeds) {
      UndisturbedIsReceived(lenient, buffers, slack, heeds);
      UndisturbedIsReceived(lenient, others, slack, heeds);
    }
  }

  /** Two cuts of one stream lead to the same fields and the same callbacks, and to different values of nread
      only as far as the surplus goes, if both get through; which they do if the stream is undisturbed. */
  method ReceiveTwice(lenient: bool, buffers: seq<string>, others: seq<string>, heeds: bool)
    returns (p: Parser, n: nat, q: Parser, m: nat)
    requires Concat(buffers) == Concat(others) && AreBuffers(buffers) && AreBuffers(others)
    ensures n == |buffers| && p.errno == OK && m == |others| && q.errno == OK ==>
              && p.Snapshot() == q.Snapshot() && Join(p.trace) == Join(q.trace)
              && p.nread - SurplusAfter(Start(lenient), 0, buffers) == q.nread - SurplusAfter(Start(lenient), 0, others)
    ensures Undisturbed(Start(lenient), Concat(buffers), |buffers| + |others|, heeds) ==>
              n == |buffers| && p.errno == OK && m == |others| && q.errno == OK
  {
    p := new Parser(lenient);
    q := new Parser(lenient);
    n := Receive(p, buffers, heeds);
    m := Receive(q, others, heeds);
    UndisturbedBoth(lenient, buffers, others, |buffers| + |others|, heeds);
  }

  // ----- a text and where it ends ------------------------------------------------------------------

  /** A text and what follows it, up to a buffer and behind it. */
  lemma TextInTwo(text: string, rest: string, before: string, data: string)
    requires before + data == text + rest && |before| <= |text| <= |before| + |data|
    ensures text == before + data[..|text| - |before|]
    ensures rest == "" ==> |text| - |before| == |data|
  {
    assert before + data[..|text| - |before|] == (before + data)[..|text|] == text;
    assert |before + data| == |text| + |rest|;
  }

  /** Where an undisturbed text ends within a buffer: with the buffer, or with a return. */
  lemma {:induction false} TextWithin(c: Config, text: string, rest: string, before: string, data: string, e: nat,
                                      slack: nat, surplus: nat)
    requires Undisturbed(c, text, slack, false) && (rest != "" ==> Feed(c, text).last == Exit)
    requires before + data == text + rest && |before| < |before| + e == |text| && e <= |data|
    requires surplus <= Feed(c, before).count && surplus <= slack
    ensures Ends(RunOf(Feed(c, before), data), data, e, surplus, c.p.lenient)
  {
    TextInTwo(text, rest, before, data);
    FeedConcat(c, before, data[..e]);
    EndsWithin(c, before, data, e, surplus, slack, false);
  }

  lemma TextIsRead(c: Config, text: string, rest: string, before: string, data: string, e: nat)
    requires before + data == text + rest && |before| + e == |text| && e <= |data|
    ensures Feed(Feed(c, before), data[..e]) == Feed(c, text)
  {
    TextInTwo(text, rest, before, data);
    FeedConcat(c, before, data[..e]);
  }

  lemma {:induction false} BeforeGoes(c: Config, text: string, rest: string, before: seq<string>, data: string)
    returns (e: nat)
    requires AreBuffers(before) && Undisturbed(c, text, |before| + 1, false)
    requires Concat(before) + data == text + rest && |Concat(before)| < |text|
    ensures e == |text| - |Concat(before)| <= |data| && data != ""
    ensures GoesThrough(c, 0, before, false)
    ensures SurplusAfter(c, 0, before) <= |before| && SurplusAfter(c, 0, before) <= Feed(c, Concat(before)).count
  {
    assert |Concat(before) + data| == |text| + |rest|;
    e := |text| - |Concat(before)|;
    TextInTwo(text, rest, Concat(before), data);
    UndisturbedPrefix(c, Concat(before), data[..e], |before| + 1, false);
    UndisturbedGoes(c, 0, before, |before| + 1, false);
    ThroughBound(c, 0, before, false);
  }

  /** A call on the buffer in which a stream ends. */
  method ReceiveEnd(parser: Parser, data: string, ghost e: nat) returns (n: nat)
    requires parser.Valid() && parser.errno == OK && 0 < |data| < 0x8000_0000
    requires Ends(RunOf(parser.Reference(), data), data, e, parser.surplus, parser.lenient)
    modifies parser
    ensures parser.Valid() && parser.errno == OK && n == e <= |data|
    ensures var c := Feed(old(parser.Reference()), data[..e]);
            Join(parser.trace) == c.trace && parser.state == c.p.state && parser.upgrade == c.p.upgrade
  {
    ghost var refs := RunOf(parser.Reference(), data);
    RunOfIsRun(parser.Reference(), data);
    n := parser.Execute(data);
    EndsAreConsumed(parser, refs, data, e, n);
  }

  /** A new parser gets through the first buffers, and a stream ends in the one behind them. */
  ghost predicate GoesUpTo(lenient: bool, before: seq<string>, data: string, e: nat)
    requires AreBuffers(before)
  {
    forall key {:trigger Uncover(key)} :: Uncover(key) ==>
      && GoesThrough(Start(lenient), 0, before, false)
      && Ends(RunOf(Feed(Start(lenient), Concat(before)), data), data, e, SurplusAfter(Start(lenient), 0, before),
              lenient)
  }

  method ReceiveUpTo(lenient: bool, before: seq<string>, data: string, ghost e: nat) returns (parser: Parser, n: nat)
    requires AreBuffers(before) && 0 < |data| < 0x8000_0000 && GoesUpTo(lenient, before, data, e)
    ensures parser.errno == OK && n == e <= |data|
    ensures var c := Feed(Feed(Start(lenient), Concat(before)), data[..e]);
            Join(parser.trace) == c.trace && parser.state == c.p.state && parser.upgrade == c.p.upgrade
  {
    assert Uncover(0);
    parser := new Parser(lenient);
    var _ := Receive(parser, before, false);
    n := ReceiveEnd(parser, data, e);
  }

  lemma {:induction false} TextGoes(lenient: bool, text: string, rest: string, before: seq<string>, data: string)
    returns (e: nat)
    requires AreBuffers(before) && Undisturbed(Start(lenient), text, |before| + 1, false)
    requires Concat(before) + data == text + rest && |Concat(before)| < |text|
    requires rest != "" ==> Feed(Start(lenient), text).last == Exit
    ensures e == |text| - |Concat(before)| <= |data| && data != "" && GoesUpTo(lenient, before, data, e)
  {
    e := BeforeGoes(Start(lenient), text, rest, before, data);
    TextWithin(Start(lenient), text, rest, Concat(before), data, e, |before| + 1,
               SurplusAfter(Start(lenient), 0, before));
  }

  /** An undisturbed text, and what follows it behind a return, in buffers cut in any way, `before` and the one in which
      the text ends: the text is consumed, and the callbacks are those of the byte-at-a-time machine. */
  method ReceiveText(lenient: bool, text: string, rest: string, before: seq<string>, data: string)
    returns (parser: Parser, n: nat)
    requires AreBuffers(before) && Undisturbed(Start(lenient), text, |before| + 1, false)
    requires |data| < 0x8000_0000 && Concat(before) + data == text + rest && |Concat(before)| < |text|
    requires rest != "" ==> Feed(Start(lenient), text).last == Exit
    ensures parser.errno == OK && n == |text| - |Concat(before)|
    ensures var c := Feed(Start(lenient), text);
            Join(parser.trace) == c.trace && parser.state == c.p.state && parser.upgrade == c.p.upgrade
  {
    ghost var e := TextGoes(lenient, text, rest, before, data);
    TextIsRead(Start(lenient), text, rest, Concat(before), data, e);
    parser, n := ReceiveUpTo(lenient, before, data, e);
  }

  /** Printed requests, pipelined and sent in buffers cut in any way, `before` and the buffer in which they end: all of
      them is read without an error, and the callbacks are those of the requests that were printed, up to how data is
      cut into callbacks.  If the last one asks for an upgrade, the call on the last buffer returns right behind it,
      and what follows is left to the other protocol. */
  method ReceiveRequests(lenient: bool, rs: seq<Request>, rest: string, before: seq<string>, data: string)
    returns (parser: Parser, n: nat)
    requires rs != [] && AreSendable(lenient, rs, |before| + 1) && (rest != "" ==> AsksForUpgrade(rs[|rs| - 1]))
    requires AreBuffers(before) && |data| < 0x8000_0000 && Concat(before) + data == RequestsText(rs) + rest
    requires |Concat(before)| < |RequestsText(rs)|
    ensures parser.errno == OK && Join(parser.trace) == RequestsEvents(rs) && parser.state == EndState(rs)
    ensures n == |RequestsText(rs)| - |Concat(before)| && parser.upgrade == AsksForUpgrade(rs[|rs| - 1])
  {
    RequestsUndisturbed(lenient, rs, |before| + 1);
    SendableEnd(lenient, rs, |before| + 1);
    parser, n := ReceiveText(lenient, RequestsText(rs), rest, before, data);
  }

  /** A printed chunked body, in buffers cut in any way, for a parser that has read the headers: the callbacks
      are those for its chunks, its trailers and the end of the message, with the keep-alive decision that the trailers
      leave, and the body that they deliver is the data of the chunks. */
  method ReceiveChunked(parser: Parser, b: Body, buffers: seq<string>)
    requires parser.Valid() && parser.errno == OK && parser.state == State.Chunk(SizeStart) && !parser.upgrade
    requires AreBuffers(buffers) && Concat(buffers) == Requests.BodyText(b)
    requires IsSendableBody(parser.lenient, parser.flags, b, |buffers|)
    modifies parser
    ensures parser.Valid() && parser.errno == OK
    ensures var keepAlive := ShouldKeepAlive(AfterTrailers(old(parser.Snapshot()), b.trailers));
            && Join(parser.trace) == old(Join(parser.trace)) + BodyEvents(b) + [MessageComplete(keepAlive)]
            && parser.state == if keepAlive then StartReq else Dead
    ensures MessageOf(parser.trace).body == old(MessageOf(parser.trace).body) + ChunksData(b.chunks)
  {
    ghost var c, t := parser.Reference(), parser.trace;
    SizeStartIsReady(parser);
    BodyUndisturbed(c, b, |buffers|);
    UndisturbedGoes(c, 0, buffers, |buffers|, true);
    ChunkedBodyRead(c, b);
    var _ := Receive(parser, buffers, true);
    JoinKeepsMessage(t);
    JoinKeepsMessage(parser.trace);
    BodyEventsBody(c.trace, b, MessageComplete(ShouldKeepAlive(AfterTrailers(c.p, b.trailers))));
  }

  lemma SizeStartIsReady(parser: Parser)
    requires parser.Valid() && parser.errno == OK && parser.state == State.Chunk(SizeStart)
    ensures var c := parser.Reference();
            && Running(c) && ReadsSize(c.p) && c.count == 0 && parser.surplus == 0
            && parser.Snapshot() == c.p && Join(parser.trace) == c.trace
  {
    ReachableInv(parser.lenient, parser.fed);
  }

  /** The body that is delivered with the callbacks for a chunked body. */
  lemma {:induction false} BodyEventsBody(trace: seq<Event>, b: Body, done: Event)
    requires b.Chunked? && IsNoData(done)
    ensures MessageOf(trace + BodyEvents(b) + [done]).body == MessageOf(trace).body + ChunksData(b.chunks)
  {
    var lines := LinesEvents(b.trailers);
    LinesNoData(b.trailers);
    EndNoData(lines, done);
    ChunkedBody(trace, b.chunks, [ChunkHeader(0)] + lines + [ChunkComplete] + [done]);
    EventsInParts(trace, ChunksEvents(b.chunks), lines, done);
  }

  lemma EndNoData(lines: seq<Event>, done: Event)
    requires (forall e :: e in lines ==> IsNoData(e)) && IsNoData(done)
    ensures forall e :: e in [ChunkHeader(0)] + lines + [ChunkComplete] + [done] ==> IsNoData(e)
  {
  }

  lemma EventsInParts(trace: seq<Event>, chunks: seq<Event>, lines: seq<Event>, done: Event)
    ensures trace + (chunks + [ChunkHeader(0)] + lines + [ChunkComplete]) + [done]
         == trace + chunks + ([ChunkHeader(0)] + lines + [ChunkComplete] + [done])
  {
  }

  lemma {:induction false} LinesNoData(lines: seq<Line>)
    ensures forall e :: e in LinesEvents(lines) ==> IsNoData(e)
    decreases |lines|
  {
    if lines != [] {
      LinesNoData(lines[1..]);
    }
  }

  /** The callbacks of a parser without an error come in the order of the grammar, at a place that
      goes with its state; after a message that does not keep the connection alive there is none. */
  lemma CallbacksInOrder(parser: Parser)
    requires parser.Valid() && parser.errno == OK
    ensures PlaceOf(parser.trace) != Wrong && PlaceInv(parser.Snapshot(), PlaceOf(parser.trace))
    ensures forall i :: 0 <= i < |parser.trace| - 1 ==> parser.trace[i] != MessageComplete(false)
  {
    ReachableInv(parser.lenient, parser.fed);
    RunInOrder(parser.Reference());
    JoinKeepsPlace(parser.trace);
    CloseIsLast(parser.trace);
  }

  lemma {:induction false} RunInOrder(c: Config)
    requires Running(c) && InvOrFailed(c)
    ensures PlaceInv(c.p, PlaceOf(c.trace)) && PlaceOf(c.trace) != Wrong
  {
    PlaceIsRight(c.p, PlaceOf(c.trace));
  }

  lemma PlaceIsRight(p: Fields, g: Place)
    requires PlaceInv(p, g)
    ensures g != Wrong
  {
  }
}
