/** Callbacks without an upgrade and with header values that pass IS_HEADER_CHAR: what the callbacks of a whole run
    say about every byte on the way. */
module Clean {
  import opened Ascii
  import opened HttpTypes
  import opened ByteMachine
  import opened Grammar
  import opened Invariant
  import opened Tracking
  import opened Knowledge
  import opened Segments
  import opened HeaderLines

  /** Every byte of a header value but the first one is looked at by IS_HEADER_CHAR, unless the header is a general
      one, or lenient_http_headers is set. */
  predicate TailPasses(lenient: bool, text: string) {
    text == "" || AreHeaderChars(lenient, text[1..])
  }

  /** What callbacks may show: with lenient_http_headers any byte of a value, and upgrades or not. */
  datatype Rules = Rules(lenient: bool, upgrades: bool)

  predicate IsCleanEvent(rules: Rules, e: Event) {
    match e
    case Data(k, text) => k.ValueText? ==> TailPasses(rules.lenient, text)
    case HeadersComplete(_, upgrade) => rules.upgrades || !upgrade
    case _ => true
  }

  predicate IsClean(rules: Rules, trace: seq<Event>) {
    trace == [] || (IsClean(rules, trace[..|trace| - 1]) && IsCleanEvent(rules, trace[|trace| - 1]))
  }

  lemma {:induction false} CleanNext(rules: Rules, trace: seq<Event>, e: Event)
    ensures IsClean(rules, trace + [e]) <==> IsClean(rules, trace) && IsCleanEvent(rules, e)
  {
    assert (trace + [e])[..|trace|] == trace;
  }

  lemma CharsConcat(lenient: bool, a: string, b: string)
    ensures AreHeaderChars(lenient, a + b) <==> AreHeaderChars(lenient, a) && AreHeaderChars(lenient, b)
  {
    if !lenient && AreHeaderChars(lenient, a + b) {
      forall i | 0 <= i < |a|
        ensures IsHeaderChar(a[i])
      {
        assert (a + b)[i] == a[i];
      }
      forall i | 0 <= i < |b|
        ensures IsHeaderChar(b[i])
      {
        assert (a + b)[|a| + i] == b[i];
      }
    }
  }

  lemma TailConcat(lenient: bool, a: string, b: string)
    requires a != ""
    ensures TailPasses(lenient, a + b) <==> TailPasses(lenient, a) && AreHeaderChars(lenient, b)
  {
    assert (a + b)[1..] == a[1..] + b;
    CharsConcat(lenient, a[1..], b);
  }

  /** The last callback, if it hands over a value. */
  function OpenValue(trace: seq<Event>): string {
    if trace != [] && trace[|trace| - 1].Data? && trace[|trace| - 1].kind.ValueText? then trace[|trace| - 1].text
    else ""
  }

  /** The text that a value grows by passes, if it is not the first of the value. */
  lemma {:induction false} CleanEmit(rules: Rules, trace: seq<Event>, e: Event)
    requires IsClean(rules, Emit(trace, e))
    ensures IsClean(rules, trace) && (e.HeadersComplete? ==> rules.upgrades || !e.upgrade)
    ensures e.Data? && e.kind.ValueText? && OpenValue(trace) != "" ==> AreHeaderChars(rules.lenient, e.text)
  {
    var t := Emit(trace, e);
    if |t| == |trace| {
      var last := trace[|trace| - 1];
      var before := trace[..|trace| - 1];
      CleanNext(rules, before, Data(e.kind, last.text + e.text));
      if last.text != "" {
        TailConcat(rules.lenient, last.text, e.text);
      }
      CleanNext(rules, before, last);
      assert before + [last] == trace;
    } else {
      CleanNext(rules, trace, e);
    }
  }

  /** A callback that keeps the callbacks clean. */
  predicate KeepsClean(rules: Rules, trace: seq<Event>, e: Event) {
    match e
    case Data(k, text) =>
      k.ValueText? ==> AreHeaderChars(rules.lenient, text) || (|text| == 1 && OpenValue(trace) == "")
    case HeadersComplete(_, upgrade) => rules.upgrades || !upgrade
    case _ => true
  }

  lemma KeepsTail(lenient: bool, a: string, b: string)
    requires TailPasses(lenient, a) && (AreHeaderChars(lenient, b) || (|b| == 1 && a == ""))
    ensures TailPasses(lenient, a + b)
  {
    if a == "" {
      assert a + b == b;
    } else {
      TailConcat(lenient, a, b);
    }
  }

  lemma {:induction false} CleanJoined(rules: Rules, before: seq<Event>, k: DataKind, a: string, b: string)
    requires IsClean(rules, before + [Data(k, a)])
    requires k.ValueText? ==> AreHeaderChars(rules.lenient, b) || (|b| == 1 && a == "")
    ensures IsClean(rules, before + [Data(k, a + b)])
  {
    CleanNext(rules, before, Data(k, a));
    CleanNext(rules, before, Data(k, a + b));
    if k.ValueText? {
      KeepsTail(rules.lenient, a, b);
    }
  }

  lemma {:induction false} CleanOn(rules: Rules, trace: seq<Event>, e: Event)
    requires IsClean(rules, trace) && KeepsClean(rules, trace, e)
    ensures IsClean(rules, Emit(trace, e))
  {
    if |Emit(trace, e)| == |trace| {
      var last := trace[|trace| - 1];
      assert trace[..|trace| - 1] + [last] == trace;
      CleanJoined(rules, trace[..|trace| - 1], e.kind, last.text, e.text);
    } else {
      CleanNext(rules, trace, e);
    }
  }

  lemma {:induction false} CleanConcat(rules: Rules, a: seq<Event>, b: seq<Event>)
    ensures IsClean(rules, a + b) <==> IsClean(rules, a) && IsClean(rules, b)
    decreases |b|
  {
    if b == [] {
      assert a + b == a;
    } else {
      var t := b[..|b| - 1];
      CleanConcat(rules, a, t);
      assert a + b == a + t + [b[|b| - 1]];
      CleanNext(rules, a + t, b[|b| - 1]);
    }
  }

  lemma {:induction false} CleanPair(rules: Rules, a: Event, b: Event)
    ensures IsClean(rules, [a, b]) <==> IsCleanEvent(rules, a) && IsCleanEvent(rules, b)
  {
    CleanNext(rules, [], a);
    CleanNext(rules, [a], b);
    assert [] + [a] == [a] && [a] + [b] == [a, b];
  }

  // ----- what holds at the end held on the way ----------------------------------------------------

  lemma {:induction false} ApplyClean(rules: Rules, c: Config, o: Outcome)
    requires IsClean(rules, Apply(c, o).trace)
    ensures IsClean(rules, c.trace)
    ensures o.event.Some? && o.event.value.HeadersComplete? ==> rules.upgrades || !o.event.value.upgrade
  {
    if o.event.Some? {
      CleanEmit(rules, c.trace, o.event.value);
    }
  }

  lemma {:induction false} StepByteClean(rules: Rules, c: Config, ch: char)
    requires IsClean(rules, StepByte(c, ch).trace)
    ensures IsClean(rules, c.trace)
    decreases Rank(c.p.state)
  {
    var o := Micro(c.p, ch);
    if o.act == Reexecute {
      ReexecuteDecreasesRank(c.p, ch);
      LookAgain(c, ch, o);
      StepByteClean(rules, Apply(c, o), ch);
    } else {
      Bites(c, ch, o);
    }
    ApplyClean(rules, c, o);
  }

  lemma {:induction false} FeedClean(rules: Rules, c: Config, s: string, n: nat)
    requires n <= |s| && Running(Feed(c, s)) && IsClean(rules, Feed(c, s).trace)
    ensures Running(Feed(c, s[..n])) && IsClean(rules, Feed(c, s[..n]).trace)
    decreases |s| - n
  {
    if n < |s| {
      FeedClean(rules, c, s, n + 1);
      FeedNext(c, s, n);
      var d := Feed(c, s[..n]);
      if Running(d) {
        NextSteps(d, s[n]);
        StepByteClean(rules, Counted(d), s[n]);
      }
    } else {
      assert s[..n] == s;
    }
  }

  // ----- an upgrade shows in the callbacks --------------------------------------------------------

  /** The field is set where the headers end, and nowhere else. */
  lemma UpgradePass(p: Fields, ch: char)
    ensures var o := Micro(p, ch);
            o.p.upgrade && !p.upgrade ==> o.event == Some(HeadersComplete(p.verb, true))
  {
    var s := p.state;
    if InRequestLine(s) {
      RequestLineUpgrade(p, ch);
    } else if InMessageBody(s) {
      BodyUpgrade(p, ch);
    } else if s.HeadersAlmostDone? {
      HeadersEndUpgrade(p, ch);
    } else {
      HeaderUpgrade(p, ch);
    }
  }

  predicate InMessageBody(s: State) {
    s.Chunk? || s.HeadersDone? || s.BodyIdentity? || s.MessageDone?
  }

  lemma RequestLineUpgrade(p: Fields, ch: char)
    requires InRequestLine(p.state)
    ensures Micro(p, ch).p.upgrade == p.upgrade && !Micro(p, ch).p.state.HeaderValue?
  {
  }

  lemma BodyUpgrade(p: Fields, ch: char)
    requires InMessageBody(p.state)
    ensures Micro(p, ch).p.upgrade == p.upgrade && !Micro(p, ch).p.state.HeaderValue?
  {
    if p.state.Chunk? {
      ChunkUpgrade(p, p.state.chunk, ch);
    }
  }

  lemma ChunkUpgrade(p: Fields, s: ChunkState, ch: char)
    requires p.state == Chunk(s)
    ensures ChunkByte(p, s, ch).p.upgrade == p.upgrade && !ChunkByte(p, s, ch).p.state.HeaderValue?
  {
  }

  lemma HeadersEndUpgrade(p: Fields, ch: char)
    requires p.state.HeadersAlmostDone?
    ensures var o := Micro(p, ch);
            && (o.p.upgrade && !p.upgrade ==> o.event == Some(HeadersComplete(p.verb, true)))
            && (o.event.Some? && o.event.value.HeadersComplete? ==> o.event.value.upgrade == o.p.upgrade)
            && !o.p.state.HeaderValue?
  {
  }

  /** A header block or trailers, short of the empty line behind them. */
  predicate InHeaderLines(s: State) {
    !InRequestLine(s) && !InMessageBody(s) && !s.HeadersAlmostDone?
  }

  lemma HeaderUpgrade(p: Fields, ch: char)
    requires InHeaderLines(p.state)
    ensures Micro(p, ch).p.upgrade == p.upgrade
  {
    var s := p.state;
    if s.HeaderField? {
      assert Micro(p, ch) == FieldByte(p, ch);
    } else if s.HeaderValue? {
      assert Micro(p, ch) == ValueByte(p, ch);
    }
  }

  ghost predicate UpgradeShows(rules: Rules, c: Config) {
    IsClean(rules, c.trace) && !rules.upgrades ==> !c.p.upgrade
  }

  lemma {:induction false} PassShows(rules: Rules, c: Config, ch: char)
    requires UpgradeShows(rules, c)
    ensures UpgradeShows(rules, Apply(c, Micro(c.p, ch)))
  {
    var o := Micro(c.p, ch);
    UpgradePass(c.p, ch);
    if IsClean(rules, Apply(c, o).trace) {
      ApplyClean(rules, c, o);
    }
  }

  lemma {:induction false} StepByteShows(rules: Rules, c: Config, ch: char)
    requires UpgradeShows(rules, c)
    ensures UpgradeShows(rules, StepByte(c, ch))
    decreases Rank(c.p.state)
  {
    var o := Micro(c.p, ch);
    PassShows(rules, c, ch);
    if o.act == Reexecute {
      ReexecuteDecreasesRank(c.p, ch);
      LookAgain(c, ch, o);
      StepByteShows(rules, Apply(c, o), ch);
    } else {
      Bites(c, ch, o);
    }
  }

  lemma {:induction false} FeedShows(rules: Rules, c: Config, s: string)
    requires UpgradeShows(rules, c)
    ensures UpgradeShows(rules, Feed(c, s))
  {
    if s != [] {
      var d := Feed(c, s[..|s| - 1]);
      FeedShows(rules, c, s[..|s| - 1]);
      if Running(d) {
        NextSteps(d, s[|s| - 1]);
        StepByteShows(rules, Counted(d), s[|s| - 1]);
      }
    }
  }

  // ----- a byte of a header value shows in the callbacks ------------------------------------------

  /** Within a header value, some of it has been handed over. */
  predicate HasValue(c: Config) {
    c.p.state.HeaderValue? ==> OpenValue(c.trace) != ""
  }

  /** A byte leads into a header value only by being handed over. */
  lemma ValueIsOpen(p: Fields, ch: char)
    ensures var o := Micro(p, ch);
            o.p.state.HeaderValue? && (o.act == Consume || o.act == Exit) ==> o.event == Some(Data(ValueText, [ch]))
  {
    var s := p.state;
    if InRequestLine(s) {
      RequestLineUpgrade(p, ch);
    } else if InMessageBody(s) {
      BodyUpgrade(p, ch);
    } else if s.HeadersAlmostDone? {
      HeadersEndUpgrade(p, ch);
    } else if s.HeaderField? {
      assert Micro(p, ch) == FieldByte(p, ch);
    } else if s.HeaderValue? {
      assert Micro(p, ch) == ValueByte(p, ch);
    }
  }

  lemma EmitOpens(trace: seq<Event>, ch: char)
    ensures OpenValue(Emit(trace, Data(ValueText, [ch]))) != ""
  {
  }

  lemma {:induction false} StepByteHasValue(c: Config, ch: char)
    ensures Running(StepByte(c, ch)) ==> HasValue(StepByte(c, ch))
    decreases Rank(c.p.state)
  {
    var o := Micro(c.p, ch);
    if o.act == Reexecute {
      ReexecuteDecreasesRank(c.p, ch);
      LookAgain(c, ch, o);
      StepByteHasValue(Apply(c, o), ch);
    } else {
      Bites(c, ch, o);
      ValueIsOpen(c.p, ch);
      EmitOpens(c.trace, ch);
    }
  }

  lemma {:induction false} FeedHasValue(c: Config, s: string)
    requires HasValue(c) && Running(Feed(c, s))
    ensures HasValue(Feed(c, s))
  {
    if s != [] {
      var d := Feed(c, s[..|s| - 1]);
      if Running(d) {
        NextSteps(d, s[|s| - 1]);
        StepByteHasValue(Counted(d), s[|s| - 1]);
      }
    }
  }

  lemma ValueByteShows(rules: Rules, c: Config, ch: char)
    requires Running(c) && c.p.state.HeaderValue? && HasValue(c)
    requires Running(Next(c, ch)) && IsClean(rules, Next(c, ch).trace)
    ensures rules.lenient || IsHeaderChar(ch)
  {
    if ch != CR && ch != LF {
      var o := Micro(c.p, ch);
      ValueOutcome(c.p, ch);
      NextSteps(c, ch);
      Bites(Counted(c), ch, o);
      CleanEmit(rules, c.trace, Data(ValueText, [ch]));
      assert [ch][0] == ch;
    }
  }

  lemma ValueOutcome(p: Fields, ch: char)
    requires p.state.HeaderValue? && ch != CR && ch != LF
    ensures var o := Micro(p, ch);
            o.act == Fail || o.act == AssertionFails || (o.act == Consume && o.event == Some(Data(ValueText, [ch])))
  {
  }

  // ----- and the other way round ------------------------------------------------------------------

  /** A byte that gives no reason to stop. */
  predicate IsHarmless(lenient: bool, p: Fields, ch: char) {
    p.state.HeaderValue? ==> lenient || IsHeaderChar(ch)
  }

  lemma PlaceOfValue(trace: seq<Event>)
    requires PlaceOf(trace).InField? || PlaceOf(trace).InTrailerField?
    ensures OpenValue(trace) == ""
  {
  }

  lemma OneChar(lenient: bool, ch: char)
    requires lenient || IsHeaderChar(ch)
    ensures AreHeaderChars(lenient, [ch])
  {
  }

  lemma HeaderLineKeepsClean(rules: Rules, p: Fields, trace: seq<Event>, ch: char)
    requires InHeaderLines(p.state) && IsHarmless(rules.lenient, p, ch) && FitsState(p.state, ch)
    requires PlaceInv(p, PlaceOf(trace))
    ensures var o := Micro(p, ch);
            Survives(o.act) && o.event.Some? ==> KeepsClean(rules, trace, o.event.value)
  {
    var s := p.state;
    if rules.lenient || IsHeaderChar(ch) {
      OneChar(rules.lenient, ch);
    }
    if AfterFieldName(s) {
      PlaceOfValue(trace);
    }
    if s.HeaderField? {
      assert Micro(p, ch) == FieldByte(p, ch);
    } else if s.HeaderValue? && ch != CR && ch != LF {
      ValueOutcome(p, ch);
    }
  }

  lemma RequestLineEvents(p: Fields, ch: char)
    requires InRequestLine(p.state)
    ensures var e := Micro(p, ch).event;
            e.Some? ==> !e.value.HeadersComplete? && (e.value.Data? ==> e.value.kind.UrlText?)
  {
  }

  lemma BodyEventsOnly(p: Fields, ch: char)
    requires InMessageBody(p.state)
    ensures var e := Micro(p, ch).event;
            e.Some? ==> !e.value.HeadersComplete? && (e.value.Data? ==> e.value.kind.BodyText?)
  {
  }

  lemma HeadersEndEvents(p: Fields, ch: char)
    requires p.state.HeadersAlmostDone?
    ensures var e := Micro(p, ch).event; e.Some? ==> !e.value.Data?
  {
  }

  lemma PassKeepsClean(rules: Rules, p: Fields, trace: seq<Event>, ch: char)
    requires IsHarmless(rules.lenient, p, ch) && FitsState(p.state, ch) && PlaceInv(p, PlaceOf(trace))
    ensures var o := Micro(p, ch);
            Survives(o.act) && !o.p.upgrade && o.event.Some? ==> KeepsClean(rules, trace, o.event.value)
  {
    var s := p.state;
    if InRequestLine(s) {
      RequestLineEvents(p, ch);
    } else if InMessageBody(s) {
      BodyEventsOnly(p, ch);
    } else if s.HeadersAlmostDone? {
      HeadersEndUpgrade(p, ch);
      HeadersEndEvents(p, ch);
    } else {
      HeaderLineKeepsClean(rules, p, trace, ch);
    }
  }

  /** The field upgrade does not change any more once the headers have ended. */
  lemma {:induction false} UpgradeIsLast(c: Config, ch: char)
    requires c.p.state.HeadersDone? || c.p.state.MessageDone?
    ensures StepByte(c, ch).p.upgrade == c.p.upgrade
  {
    var o := Micro(c.p, ch);
    EndsAtOnce(c.p, ch);
    BodyUpgrade(c.p, ch);
    Bites(c, ch, o);
  }

  lemma EndsAtOnce(p: Fields, ch: char)
    requires p.state.HeadersDone? || p.state.MessageDone?
    ensures Micro(p, ch).act != Reexecute
  {
  }

  /** Where a byte that is looked at again leads to, and the upgrade. */
  lemma LookedAtAgain(p: Fields, ch: char)
    requires Micro(p, ch).act == Reexecute
    ensures var o := Micro(p, ch);
            && !o.p.state.HeaderValue?
            && (o.p.upgrade == p.upgrade || o.p.state.HeadersDone? || o.p.state.MessageDone?)
  {
    ReexecuteDecreasesRank(p, ch);
    var s := p.state;
    if InRequestLine(s) {
      RequestLineUpgrade(p, ch);
    } else if InMessageBody(s) {
      BodyUpgrade(p, ch);
    } else if s.HeadersAlmostDone? {
      HeadersEndGoesOn(p, ch);
    } else {
      HeaderUpgrade(p, ch);
    }
  }

  lemma HeadersEndGoesOn(p: Fields, ch: char)
    requires p.state.HeadersAlmostDone? && Micro(p, ch).act == Reexecute
    ensures Micro(p, ch).p.state.HeadersDone? || Micro(p, ch).p.state.MessageDone?
  {
  }

  lemma {:induction false} StepByteKeepsClean(rules: Rules, c: Config, ch: char)
    requires FieldsInv(c.p) && PlaceInv(c.p, PlaceOf(c.trace)) && !c.p.upgrade && IsClean(rules, c.trace)
    requires IsHarmless(rules.lenient, c.p, ch) && FitsState(c.p.state, ch)
    requires Running(StepByte(c, ch)) && !StepByte(c, ch).p.upgrade
    ensures IsClean(rules, StepByte(c, ch).trace)
    decreases Rank(c.p.state)
  {
    var o := Micro(c.p, ch);
    var d := Apply(c, o);
    PassKeepsClean(rules, c.p, c.trace, ch);
    if o.act == Reexecute {
      ReexecuteDecreasesRank(c.p, ch);
      LookAgain(c, ch, o);
      LookedAtAgain(c.p, ch);
      if o.p.state.HeadersDone? || o.p.state.MessageDone? {
        UpgradeIsLast(d, ch);
      }
    } else {
      Bites(c, ch, o);
    }
    if o.event.Some? {
      CleanOn(rules, c.trace, o.event.value);
    }
    if o.act == Reexecute {
      Pass(c.p, ch, PlaceOf(c.trace));
      ApplyInv(c, o);
      FoldJump(c.p, ch);
      StepByteKeepsClean(rules, d, ch);
    }
  }

  // ----- messages that are over -------------------------------------------------------------------

  /** The number of messages whose end has been called back. */
  function Finished(trace: seq<Event>): nat {
    if trace == [] then 0 else Finished(trace[..|trace| - 1]) + if trace[|trace| - 1].MessageComplete? then 1 else 0
  }

  lemma {:induction false} FinishedNext(trace: seq<Event>, e: Event)
    ensures Finished(trace + [e]) == Finished(trace) + if e.MessageComplete? then 1 else 0
  {
    assert (trace + [e])[..|trace|] == trace;
  }

  lemma {:induction false} FinishedEmit(trace: seq<Event>, e: Event)
    ensures Finished(Emit(trace, e)) == Finished(trace) + if e.MessageComplete? then 1 else 0
  {
    if |Emit(trace, e)| == |trace| {
      var before := trace[..|trace| - 1];
      var last := trace[|trace| - 1];
      FinishedNext(before, last);
      FinishedNext(before, Data(e.kind, last.text + e.text));
      assert before + [last] == trace;
    } else {
      FinishedNext(trace, e);
    }
  }

  lemma {:induction false} PassFinishes(c: Config, o: Outcome)
    ensures Finished(c.trace) <= Finished(Apply(c, o).trace)
    ensures o.event.Some? && o.event.value.MessageComplete? ==> Finished(c.trace) < Finished(Apply(c, o).trace)
  {
    if o.event.Some? {
      FinishedEmit(c.trace, o.event.value);
    }
  }

  /** A return from http_parser_execute comes with the end of a message. */
  lemma ReturnFinishes(p: Fields, ch: char)
    ensures var o := Micro(p, ch);
            o.act == Exit ==> o.event.Some? && o.event.value.MessageComplete?
  {
    if InRequestLine(p.state) {
      RequestLineGoesOn(p, ch);
    } else if p.state.Chunk? || p.state.BodyIdentity? {
      BodyGoesOn(p, ch);
    } else if !p.state.HeadersDone? && !p.state.MessageDone? {
      HeadersGoOn(p, ch);
    }
  }

  lemma {:induction false} StepByteFinishes(c: Config, ch: char)
    ensures var d := StepByte(c, ch);
            Finished(c.trace) <= Finished(d.trace) && (d.last == Exit ==> Finished(c.trace) < Finished(d.trace))
    decreases Rank(c.p.state)
  {
    var o := Micro(c.p, ch);
    PassFinishes(c, o);
    if o.act == Reexecute {
      ReexecuteDecreasesRank(c.p, ch);
      LookAgain(c, ch, o);
      StepByteFinishes(Apply(c, o), ch);
    } else {
      Bites(c, ch, o);
      ReturnFinishes(c.p, ch);
    }
  }

  lemma {:induction false} FeedKeepsFinished(c: Config, s: string)
    ensures Finished(c.trace) <= Finished(Feed(c, s).trace)
  {
    if s != [] {
      FeedKeepsFinished(c, s[..|s| - 1]);
      var d := Feed(c, s[..|s| - 1]);
      if Running(d) {
        NextSteps(d, s[|s| - 1]);
        StepByteFinishes(Counted(d), s[|s| - 1]);
      }
    }
  }

  /** A byte after which http_parser_execute returns ends a message. */
  lemma {:induction false} ReturnCounts(c: Config, s: string)
    requires s != [] && Feed(c, s).last == Exit
    ensures Finished(c.trace) < Finished(Feed(c, s).trace)
  {
    var d := Feed(c, s[..|s| - 1]);
    FeedKeepsFinished(c, s[..|s| - 1]);
    if Running(d) {
      NextSteps(d, s[|s| - 1]);
      StepByteFinishes(Counted(d), s[|s| - 1]);
    }
  }
}
