/** Where the cut of a stream decides whether a parser gets through it: within a header value that it jumps over. */
module ValueCuts {
  import opened Ascii
  import opened HttpTypes
  import opened ByteMachine
  import opened Tracking
  import opened Limits
  import opened Stops
  import opened Text
  import opened Knowledge
  import opened HeaderLines
  import opened HeaderBlocks
  import opened RequestLine
  import opened Requests
  import opened Counting
  import opened Clean
  import opened Calm
  import opened Cuts

  /** Within a header value of which the parser does not look at every byte. */
  predicate InGeneral(c: Config) {
    Running(c) && c.p.state.HeaderValue? && c.p.headerState.General?
  }

  predicate HasNoLineEnd(s: string) {
    CR !in s && LF !in s
  }

  lemma GeneralRun(c: Config, s: string)
    requires InGeneral(c) && HasNoLineEnd(s)
    ensures var refs := RunOf(c, s);
            && IsRun(refs, s) && InGeneral(refs[|s|]) && refs[|s|].p == c.p && refs[|s|].count == c.count + |s|
            && Stride(refs, s, 0, |s|, ValueText, true) && refs[|s|] == Feed(c, s)
    ensures forall lenient :: s != "" && (lenient || IsHeaderChar(s[0])) ==> Checked(RunOf(c, s), s, 0, |s|, lenient)
  {
    var refs := RunOf(c, s);
    RunOfIsRun(c, s);
    ValueRun(refs, s, 0, |s|);
    StrideEnd(refs, s, 0, |s|, ValueText, true);
    assert s[..|s|] == s;
    forall lenient | s != "" && (lenient || IsHeaderChar(s[0]))
      ensures Checked(refs, s, 0, |s|, lenient)
    {
      JumpChecked(refs, s, 0, |s|, lenient);
    }
  }

  // ----- one buffer --------------------------------------------------------------------------------

  lemma {:induction false} GeneralSurplus(c: Config, data: string, surplus: nat)
    requires InGeneral(c) && HasNoLineEnd(data) && data != ""
    ensures var refs := RunOf(c, data);
            Since(refs, |data|, surplus) == surplus && SurplusAt(refs, |data|, surplus) == surplus + 1
  {
    var refs := RunOf(c, data);
    GeneralRun(c, data);
    StrideSince(refs, data, 0, |data|, ValueText, surplus);
    ScanEndsInside(refs, data, 0, ValueText);
  }

  predicate FirstPasses(lenient: bool, data: string)
    requires data != ""
  {
    lenient || IsHeaderChar(data[0])
  }

  /** The limit lets the end of the buffer pass, `surplus` bytes having been counted twice before it. */
  predicate RoomBehind(count: nat, surplus: nat, data: string) {
    count + surplus + |data| < HTTP_MAX_HEADER_SIZE
  }

  lemma {:induction false} GeneralPasses(c: Config, data: string, surplus: nat, lenient: bool)
    requires InGeneral(c) && HasNoLineEnd(data) && data != ""
    requires FirstPasses(lenient, data) && RoomBehind(c.count, surplus, data)
    ensures Ends(RunOf(c, data), data, |data|, surplus, lenient)
  {
    var refs := RunOf(c, data);
    GeneralRun(c, data);
    ScanClearsAll(refs, data, 0, ValueText, surplus, lenient);
    GeneralSurplus(c, data, surplus);
  }

  lemma {:induction false} GeneralStops(c: Config, data: string, surplus: nat, lenient: bool)
    requires InGeneral(c) && HasNoLineEnd(data) && data != ""
    requires Ends(RunOf(c, data), data, |data|, surplus, lenient)
    ensures FirstPasses(lenient, data) && RoomBehind(c.count, surplus, data)
  {
    var refs := RunOf(c, data);
    EndPasses(refs, data, |data|, 0, surplus, lenient);
    GeneralRun(c, data);
    ScanEndsInside(refs, data, 0, ValueText);
    GeneralSurplus(c, data, surplus);
  }

  // ----- all buffers -------------------------------------------------------------------------------

  /** The first byte of every buffer passes IS_HEADER_CHAR. */
  predicate FirstsPass(lenient: bool, buffers: seq<string>)
    requires AreBuffers(buffers)
  {
    forall i :: 0 <= i < |buffers| ==> FirstPasses(lenient, buffers[i])
  }

  lemma FirstsPassNext(lenient: bool, buffers: seq<string>, data: string)
    requires AreBuffers(buffers) && AreBuffers(buffers + [data]) && data != ""
    ensures FirstsPass(lenient, buffers + [data]) <==> FirstsPass(lenient, buffers) && FirstPasses(lenient, data)
  {
    assert forall i :: 0 <= i < |buffers| ==> (buffers + [data])[i] == buffers[i];
    assert (buffers + [data])[|buffers|] == data;
  }

  lemma InTwo(a: string, b: string)
    requires HasNoLineEnd(a + b)
    ensures HasNoLineEnd(a) && HasNoLineEnd(b)
  {
    forall x | x in a || x in b
      ensures x in a + b
    {
    }
  }

  /** After the buffers the machine is at `d` and nread is `s` beyond its count; a parser has got through or not. */
  ghost predicate Known(c: Config, surplus: nat, buffers: seq<string>, heeds: bool, d: Config, s: nat, ok: bool)
    requires AreBuffers(buffers)
  {
    forall key {:trigger Unfold(key)} :: Unfold(key) ==>
      && d == Feed(c, Concat(buffers)) && s == SurplusAfter(c, surplus, buffers)
      && ok == GoesThrough(c, surplus, buffers, heeds)
  }

  /** One more buffer. */
  lemma {:induction false} KnownNext(c: Config, surplus: nat, buffers: seq<string>, heeds: bool, d: Config, s: nat,
                                     ok: bool, data: string)
    requires AreBuffers(buffers) && Known(c, surplus, buffers, heeds, d, s, ok) && 0 < |data| < 0x8000_0000
    ensures AreBuffers(buffers + [data])
    ensures Known(c, surplus, buffers + [data], heeds, Feed(d, data), SurplusAt(RunOf(d, data), |data|, s),
                  ok && Goes(RunOf(d, data), data, s, c.p.lenient, heeds))
  {
    assert Unfold(0);
    assert (buffers + [data])[..|buffers|] == buffers;
    FeedConcat(c, Concat(buffers), data);
  }

  /** The buffer is in the value. */
  lemma {:induction false} GeneralNext(d: Config, s: nat, heeds: bool, data: string, lenient: bool)
    requires InGeneral(d) && (heeds ==> !d.p.upgrade) && data != "" && HasNoLineEnd(data)
    ensures var e := Feed(d, data); InGeneral(e) && e.p == d.p && e.count == d.count + |data|
    ensures SurplusAt(RunOf(d, data), |data|, s) == s + 1
    ensures Goes(RunOf(d, data), data, s, lenient, heeds) ==
            (FirstPasses(lenient, data) && RoomBehind(d.count, s, data))
  {
    GeneralRun(d, data);
    GeneralSurplus(d, data, s);
    assert Uncover(0);
    if Ends(RunOf(d, data), data, |data|, s, lenient) {
      GeneralStops(d, data, s, lenient);
    }
    if FirstPasses(lenient, data) && RoomBehind(d.count, s, data) {
      GeneralPasses(d, data, s, lenient);
    }
  }

  lemma {:induction false} KnownGrows(c: Config, surplus: nat, buffers: seq<string>, heeds: bool, d: Config, s: nat,
                                      ok: bool, data: string)
    returns (e: Config, t: nat, through: bool)
    requires AreBuffers(buffers) && Known(c, surplus, buffers, heeds, d, s, ok) && 0 < |data| < 0x8000_0000
    requires InGeneral(d) && (heeds ==> !d.p.upgrade) && HasNoLineEnd(data)
    ensures AreBuffers(buffers + [data]) && Known(c, surplus, buffers + [data], heeds, e, t, through)
    ensures InGeneral(e) && e.p == d.p && e.count == d.count + |data| && t == s + 1
    ensures through == (ok && FirstPasses(c.p.lenient, data) && RoomBehind(d.count, s, data))
  {
    KnownNext(c, surplus, buffers, heeds, d, s, ok, data);
    GeneralNext(d, s, heeds, data, c.p.lenient);
    e, t := Feed(d, data), SurplusAt(RunOf(d, data), |data|, s);
    through := ok && Goes(RunOf(d, data), data, s, c.p.lenient, heeds);
  }

  /** Buffers in such a value: what their cut makes of nread, and whether a parser gets through them. */
  lemma {:induction false} GeneralKnown(c: Config, surplus: nat, head: seq<string>, heeds: bool, d: Config, s: nat,
                                        ok: bool, buffers: seq<string>)
    returns (e: Config, t: nat, through: bool)
    requires AreBuffers(head) && Known(c, surplus, head, heeds, d, s, ok)
    requires AreBuffers(buffers) && InGeneral(d) && HasNoLineEnd(Concat(buffers)) && (heeds ==> !d.p.upgrade)
    ensures AreBuffers(head + buffers) && Known(c, surplus, head + buffers, heeds, e, t, through)
    ensures InGeneral(e) && e.p == d.p && e.count == d.count + |Concat(buffers)| && t == s + |buffers|
    ensures through <==> ok && FirstsPass(c.p.lenient, buffers) &&
                         (buffers == [] || e.count + t - 1 < HTTP_MAX_HEADER_SIZE)
    decreases |buffers|
  {
    if buffers == [] {
      assert head + buffers == head;
      e, t, through := d, s, ok;
    } else {
      var init, last := LastParts(buffers);
      e, t, through := GeneralKnown(c, surplus, head, heeds, d, s, ok, init);
      e, t, through := KnownGrows(c, surplus, head + init, heeds, e, t, through, last);
      assert (head + init) + [last] == head + buffers;
      FirstsPassNext(c.p.lenient, init, last);
    }
  }

  lemma LastParts(buffers: seq<string>) returns (init: seq<string>, last: string)
    requires AreBuffers(buffers) && buffers != [] && HasNoLineEnd(Concat(buffers))
    ensures buffers == init + [last] && |init| < |buffers| && AreBuffers(init) && 0 < |last| < 0x8000_0000
    ensures |Concat(buffers)| == |Concat(init)| + |last| && HasNoLineEnd(Concat(init)) && HasNoLineEnd(last)
  {
    init, last := buffers[..|buffers| - 1], buffers[|buffers| - 1];
    InTwo(Concat(init), last);
  }

  /** Whatever has been read before, within such a value a parser gets through the buffers exactly if the first byte
      of each passes IS_HEADER_CHAR, whatever the other bytes are, and the limit leaves room for all of them and one
      more for each cut. */
  lemma {:induction false} ValueCutsAreExact(c: Config, surplus: nat, head: seq<string>, buffers: seq<string>,
                                             heeds: bool)
    requires AreBuffers(head) && AreBuffers(buffers) && buffers != [] && HasNoLineEnd(Concat(buffers))
    requires InGeneral(Feed(c, Concat(head))) && (heeds ==> !Feed(c, Concat(head)).p.upgrade)
    ensures AreBuffers(head + buffers)
    ensures GoesThrough(c, surplus, head + buffers, heeds) <==>
              && GoesThrough(c, surplus, head, heeds) && FirstsPass(c.p.lenient, buffers)
              && Feed(c, Concat(head)).count + SurplusAfter(c, surplus, head) + |Concat(buffers)| + |buffers| - 1
                 < HTTP_MAX_HEADER_SIZE
  {
    var d, s, ok := Feed(c, Concat(head)), SurplusAfter(c, surplus, head), GoesThrough(c, surplus, head, heeds);
    var e, t, through := GeneralKnown(c, surplus, head, heeds, d, s, ok, buffers);
    assert Unfold(0);
  }

  // ----- one stream, two cuts ----------------------------------------------------------------------

  lemma ConcatOne(a: string)
    ensures Concat([a]) == a
  {
    assert [a][..0] == [];
  }

  /** One value, in one buffer and in two. */
  lemma TwoCuts(a: string, b: string, lenient: bool)
    requires a != "" && b != "" && |a| + |b| < HTTP_MAX_HEADER_SIZE
    ensures AreBuffers([a + b]) && Concat([a + b]) == a + b && AreBuffers([a, b]) && Concat([a, b]) == a + b
    ensures FirstsPass(lenient, [a + b]) <==> FirstPasses(lenient, a)
    ensures FirstsPass(lenient, [a, b]) <==> FirstPasses(lenient, a) && FirstPasses(lenient, b)
  {
    ConcatOne(a + b);
    ConcatOne(a);
    assert [a, b][..1] == [a];
    FirstsPassNext(lenient, [], a + b);
    FirstsPassNext(lenient, [], a);
    FirstsPassNext(lenient, [a], b);
    assert [] + [a + b] == [a + b] && [] + [a] == [a] && [a] + [b] == [a, b];
  }

  /** One stream, whose head leads into such a value: a parser gets through it with the value in one buffer, and not
      with the value in two, if the second one starts with a byte that IS_HEADER_CHAR refuses or the limit leaves room
      for no further byte. */
  lemma {:induction false} CutMatters(c: Config, surplus: nat, head: seq<string>, a: string, b: string, heeds: bool)
    requires AreBuffers(head) && GoesThrough(c, surplus, head, heeds)
    requires InGeneral(Feed(c, Concat(head))) && (heeds ==> !Feed(c, Concat(head)).p.upgrade)
    requires a != "" && b != "" && HasNoLineEnd(a + b) && FirstPasses(c.p.lenient, a)
    requires var n := Feed(c, Concat(head)).count + SurplusAfter(c, surplus, head) + |a| + |b|;
             n < HTTP_MAX_HEADER_SIZE && (FirstPasses(c.p.lenient, b) ==> n + 1 == HTTP_MAX_HEADER_SIZE)
    ensures AreBuffers(head + [a + b]) && Concat(head + [a + b]) == Concat(head) + a + b
    ensures AreBuffers(head + [a, b]) && Concat(head + [a, b]) == Concat(head) + a + b
    ensures GoesThrough(c, surplus, head + [a + b], heeds) && !GoesThrough(c, surplus, head + [a, b], heeds)
  {
    TwoCuts(a, b, c.p.lenient);
    ValueCutsAreExact(c, surplus, head, [a + b], heeds);
    ValueCutsAreExact(c, surplus, head, [a, b], heeds);
    SameStream(head, a, b);
  }

  lemma SameStream(head: seq<string>, a: string, b: string)
    ensures Concat(head + [a + b]) == Concat(head) + a + b && Concat(head + [a, b]) == Concat(head) + a + b
  {
    assert (head + [a + b])[..|head|] == head;
    assert (head + [a, b])[..|head| + 1] == head + [a] && (head + [a])[..|head|] == head;
    assert Concat(head) + (a + b) == Concat(head) + a + b;
  }

  // ----- a head that leads there -------------------------------------------------------------------

  /** A request with one header, and its text up to the value of it. */
  function Example(): Request {
    Request("", GET, " ", "/", Versioned(" ", "1", "1", "\r\n"), [ExampleLine()], "\r\n", NoBody)
  }

  function ExampleLine(): Line {
    Line("A", "", "x", [], "\r\n")
  }

  const HEAD := "GET / HTTP/1.1\r\nA:x"

  lemma ExampleVersion()
    ensures AreVersion("1", "1") && Decimal("1") == 1
  {
    OneDigit('1');
    assert "1" == ['1'];
  }

  lemma ExampleUrl()
    ensures UrlFold(false, "/") == Url(Path) && EndsUrl(UrlFold(false, "/"))
  {
    assert "/"[..0] == "";
  }

  lemma ExampleFolded()
    ensures Folded(ExampleLine().name) == "a"
  {
    FoldedNext("", 'A');
    assert "" + ['A'] == ExampleLine().name;
  }

  lemma ExampleIsLine()
    ensures IsLine(ExampleLine()) && IsName(ExampleLine().name)
  {
  }

  lemma ExampleName()
    ensures Folded(ExampleLine().name) == "a" && IsLine(ExampleLine()) && WholeValue(ExampleLine()) == "x"
  {
    ExampleFolded();
    ExampleIsLine();
    assert "x" + MoreValue([]) == "x";
  }

  lemma ExampleText()
    ensures RequestText(Example()) == HEAD + "\r\n\r\n"
  {
    var l := ExampleLine();
    assert [l][1..] == [];
    assert LineText(l) == "A:x\r\n";
    assert LinesText([l]) == "A:x\r\n";
  }

  lemma ExampleLines(lenient: bool)
    ensures AreReadable(lenient, NO_FLAGS, [ExampleLine()])
    ensures LinesFlags(NO_FLAGS, [ExampleLine()]) == NO_FLAGS && LinesLength(UNSET, [ExampleLine()]) == UNSET
  {
    ExampleName();
    assert [ExampleLine()][1..] == [];
  }

  lemma ExampleIsRequest(lenient: bool)
    ensures IsRequest(lenient, Example()) && !AsksForUpgrade(Example())
  {
    ExampleVersion();
    ExampleUrl();
    ExampleLines(lenient);
  }

  lemma {:induction false} ExampleFits(lenient: bool, calls: nat)
    ensures AreClean(Rules(lenient, true), [Example()]) && AllFit([Example()], 0, Room(calls))
  {
    var r := Example();
    ExampleName();
    ExampleText();
    RoomIsRoom(calls);
    assert [r][1..] == [] && [ExampleLine()][0] == ExampleLine();
    assert HasHeaderChars(lenient, r);
  }

  lemma {:induction false} ExampleIsSendable(lenient: bool, calls: nat)
    ensures AreSendable(lenient, [Example()], calls) && RequestsText([Example()]) == HEAD + "\r\n\r\n"
  {
    ExampleIsRequest(lenient);
    ExampleFits(lenient, calls);
    ExampleText();
    assert [Example()][1..] == [];
    assert RequestsText([Example()]) == RequestText(Example()) + "";
  }

  /** A line with a name that the parser does not know leads there. */
  lemma {:induction false} LineLeads(c: Config, l: Line)
    requires BetweenHeaders(c) && IsLine(l) && l.value != [] && !IsKnownLine(l)
    ensures InGeneral(Feed(c, l.name + ":" + l.lead + l.value))
  {
    var name := l.name + ":" + l.lead;
    LineStart(c, l);
    FeedConcat(c, name, l.value);
    GeneralValue(Feed(c, name), l.value);
  }

  lemma {:induction false} ExampleLineRead(lenient: bool)
    ensures BetweenHeaders(Feed(Start(lenient), LineOf(Example())))
  {
    ExampleVersion();
    ExampleUrl();
    RequestLineRead(Start(lenient), Example());
  }

  lemma ExampleParts()
    ensures HEAD == LineOf(Example()) + (ExampleLine().name + ":" + ExampleLine().lead + ExampleLine().value)
  {
  }

  lemma {:induction false} ExampleLeads(lenient: bool)
    ensures InGeneral(Feed(Start(lenient), HEAD))
  {
    var line, l := LineOf(Example()), ExampleLine();
    ExampleName();
    ExampleParts();
    ExampleLineRead(lenient);
    LineLeads(Feed(Start(lenient), line), l);
    FeedConcat(Start(lenient), line, l.name + ":" + l.lead + l.value);
  }

  lemma {:induction false} CountsBytes(c: Config, s: string)
    ensures Feed(c, s).count <= c.count + |s|
  {
    LightShort(c, s, c.count + |s|);
    assert Unfold(0) && s[..|s|] == s;
  }

  /** A parser gets through such a head, from the start of a connection. */
  lemma {:induction false} HeadIsReached(lenient: bool)
    ensures AreBuffers([HEAD]) && Concat([HEAD]) == HEAD && GoesThrough(Start(lenient), 0, [HEAD], false)
    ensures InGeneral(Feed(Start(lenient), HEAD)) && Feed(Start(lenient), HEAD).count <= |HEAD|
    ensures SurplusAfter(Start(lenient), 0, [HEAD]) <= 1
  {
    ExampleIsSendable(lenient, 1);
    RequestsUndisturbed(lenient, [Example()], 1);
    UndisturbedPrefix(Start(lenient), HEAD, "\r\n\r\n", 1, false);
    ConcatOne(HEAD);
    UndisturbedGoes(Start(lenient), 0, [HEAD], 1, false);
    ThroughBound(Start(lenient), 0, [HEAD], false);
    ExampleLeads(lenient);
    CountsBytes(Start(lenient), HEAD);
  }

  /** From the start of a connection: the same bytes in two cuts, with and without an error. */
  lemma {:induction false} SameBytes(ch: char)
    requires !IsHeaderChar(ch) && ch != CR && ch != LF
    ensures Concat([HEAD, "y" + [ch]]) == Concat([HEAD, "y", [ch]]) && AreBuffers([HEAD, "y" + [ch]])
    ensures AreBuffers([HEAD, "y", [ch]])
    ensures GoesThrough(Start(false), 0, [HEAD, "y" + [ch]], false)
    ensures !GoesThrough(Start(false), 0, [HEAD, "y", [ch]], false)
  {
    HeadIsReached(false);
    CutMatters(Start(false), 0, [HEAD], "y", [ch], false);
    assert [HEAD] + ["y" + [ch]] == [HEAD, "y" + [ch]] && [HEAD] + ["y", [ch]] == [HEAD, "y", [ch]];
  }
}
