/** A parser that is fed a stream with something wrong in it, cut into buffers in any way: where it stops, and with
    which error. */
module Rejections {
  import opened Ascii
  import opened HttpTypes
  import opened ByteMachine
  import opened Callbacks
  import opened Tracking
  import opened Limits
  import opened Stops
  import opened HttpParser
  import opened Calm
  import opened Cuts
  import opened Streams

  // ----- one buffer --------------------------------------------------------------------------------

  /** The bytes before `n` pass, and the machine refuses the one at `n`, which passes otherwise. */
  ghost predicate RefusesAt(refs: seq<Config>, data: string, n: nat, surplus: nat, lenient: bool)
    requires |refs| == |data| + 1
  {
    forall key {:trigger Uncover(key)} :: Uncover(key) ==>
      && n < |data| && Quiet(refs, data, 0, n, surplus, lenient) && MayPass(refs, data, n, surplus, lenient)
      && Running(refs[n]) && refs[n + 1].last == Fail
  }

  /** A turn that stops has its culprit there. */
  lemma {:induction false} CulpritIs(refs: seq<Config>, data: string, n: nat, s: nat, m: nat, why: Reason, surplus: nat,
                                     lenient: bool)
    requires |refs| == |data| + 1 && RefusesAt(refs, data, n, surplus, lenient)
    requires StopsFrom(refs, data, s, m, why, surplus, lenient)
    ensures CulpritOf(refs, data, s, m, why, surplus) == n
  {
    var f := CulpritOf(refs, data, s, m, why, surplus);
    assert Uncover(0);
    Culprit(refs, data, s, m, why, surplus, lenient);
    if f < n {
      QuietAt(refs, data, 0, n, f, surplus, lenient);
    } else if n < f {
      if n < s {
        QuietAt(refs, data, 0, s, n, surplus, lenient);
      } else {
        InsideScan(refs, data, s, f, n, lenient);
      }
    }
  }

  /** So a call stops there, for this reason and no other. */
  lemma {:induction false} StopsAt(refs: seq<Config>, data: string, n: nat, m: nat, why: Reason, surplus: nat,
                                   lenient: bool)
    requires |refs| == |data| + 1 && RefusesAt(refs, data, n, surplus, lenient)
    requires Stops.Stops(refs, data, m, why, surplus, lenient)
    ensures m == n && why.Refused?
  {
    var s :| 0 <= s <= m && StopsFrom(refs, data, s, m, why, surplus, lenient);
    CulpritIs(refs, data, n, s, m, why, surplus, lenient);
    assert Uncover(0);
  }

  /** And it does not consume the buffer up to some other position. */
  lemma {:induction false} DoesNotEnd(refs: seq<Config>, data: string, n: nat, e: nat, surplus: nat, lenient: bool)
    requires |refs| == |data| + 1 && IsRun(refs, data) && RefusesAt(refs, data, n, surplus, lenient)
    ensures !Ends(refs, data, e, surplus, lenient)
  {
    assert Uncover(0);
    if Ends(refs, data, e, surplus, lenient) {
      if n < e {
        EndPasses(refs, data, e, n, surplus, lenient);
      } else {
        QuietAt(refs, data, 0, n, e - 1, surplus, lenient);
      }
    }
  }

  /** A call on such a buffer: it fails at that byte with the machine's error and fields, and has made its callbacks up
      to at most one piece of pending data. */
  method ReceiveRefused(parser: Parser, data: string, ghost n: nat) returns (m: nat)
    requires parser.Valid() && parser.errno == OK && |data| < 0x8000_0000
    requires RefusesAt(RunOf(parser.Reference(), data), data, n, parser.surplus, parser.lenient)
    modifies parser
    ensures m == n < |data| && parser.errno != OK
    ensures var r := Feed(old(parser.Reference()), data[..n + 1]);
            parser.Snapshot() == r.p && Lags(parser.trace, r.trace)
  {
    ghost var refs := RunOf(parser.Reference(), data);
    RunOfIsRun(parser.Reference(), data);
    assert n < |data| by {
      assert Uncover(0);
    }
    m := parser.Execute(data);
    RefusalIsReported(parser, refs, data, n, m);
  }

  lemma {:induction false} RefusalIsReported(parser: Parser, refs: seq<Config>, data: string, n: nat, m: nat)
    requires |refs| == |data| + 1 && IsRun(refs, data)
    requires RefusesAt(refs, data, n, parser.base, parser.lenient)
    requires if parser.errno == OK then m <= |data| && parser.Consumed(refs, data, m)
             else parser.Failure(refs, data, m)
    requires parser.Valid()
    ensures m == n < |data| && parser.errno != OK
    ensures parser.Snapshot() == refs[n + 1].p && Lags(parser.trace, refs[n + 1].trace)
  {
    if parser.errno == OK {
      ConsumedEnds(parser, refs, data, m);
      DoesNotEnd(refs, data, n, m, parser.base, parser.lenient);
    } else {
      var s, why :| 0 <= s <= m && parser.FailedFrom(refs, data, s, m, why);
      StopsAt(refs, data, n, m, why, parser.base, parser.lenient);
    }
  }

  lemma {:induction false} ConsumedEnds(parser: Parser, refs: seq<Config>, data: string, m: nat)
    requires |refs| == |data| + 1 && parser.Valid() && parser.errno == OK && parser.Consumed(refs, data, m)
    ensures Ends(refs, data, m, parser.base, parser.lenient)
  {
  }

  // ----- a stream in buffers -----------------------------------------------------------------------

  lemma TextAndByte(text: string, ch: char, rest: string, before: string, data: string)
    requires before + data == text + [ch] + rest && |before| <= |text|
    ensures |text| - |before| < |data| && data[|text| - |before|] == ch
    ensures text == before + data[..|text| - |before|]
  {
    assert |before + data| == |text| + 1 + |rest|;
    assert before + data[..|text| - |before|] == (before + data)[..|text|] == text;
    assert (before + data)[|text|] == ch;
  }

  /** The machine reads the text and refuses the byte behind it, which is not for IS_HEADER_CHAR to refuse. */
  ghost predicate RefusesBehind(c: Config, text: string, ch: char) {
    var d := Feed(c, text);
    && d.last == Consume && Next(d, ch).last == Fail
    && (d.p.state.HeaderValue? ==> c.p.lenient || IsHeaderChar(ch))
  }

  lemma {:induction false} ByteInBuffer(c: Config, text: string, ch: char, rest: string, before: string, data: string,
                                        n: nat)
    requires before + data == text + [ch] + rest && |before| + n == |text|
    ensures n < |data| && data[n] == ch && text == before + data[..n]
    ensures var refs := RunOf(Feed(c, before), data); refs[n] == Feed(c, text) && refs[n + 1] == Next(Feed(c, text), ch)
  {
    TextAndByte(text, ch, rest, before, data);
    FeedConcat(c, before, data[..n]);
    FeedNext(Feed(c, before), data, n);
  }

  lemma {:induction false} RefusedWithin(c: Config, text: string, ch: char, rest: string, before: string, data: string,
                                         n: nat, slack: nat, surplus: nat)
    requires Undisturbed(c, text, slack, false) && RefusesBehind(c, text, ch)
    requires before + data == text + [ch] + rest && |before| + n == |text|
    requires surplus <= Feed(c, before).count && surplus <= slack
    ensures RefusesAt(RunOf(Feed(c, before), data), data, n, surplus, c.p.lenient)
  {
    var refs := RunOf(Feed(c, before), data);
    ByteInBuffer(c, text, ch, rest, before, data, n);
    TextIsQuiet(c, before, data, n, surplus, slack);
    RoomBehindText(c, before, data, n, surplus, slack);
    RefusesThere(refs, data, n, surplus, c.p.lenient);
  }

  lemma {:induction false} RefusesThere(refs: seq<Config>, data: string, n: nat, surplus: nat, lenient: bool)
    requires |refs| == |data| + 1 && n < |data| && Quiet(refs, data, 0, n, surplus, lenient) && Running(refs[n])
    requires HasRoom(refs, n, surplus) && refs[n + 1].last == Fail
    requires refs[n].p.state.HeaderValue? ==> lenient || IsHeaderChar(data[n])
    ensures RefusesAt(refs, data, n, surplus, lenient)
  {
  }

  lemma {:induction false} TextIsQuiet(c: Config, before: string, data: string, n: nat, surplus: nat, slack: nat)
    requires n < |data| && Undisturbed(c, before + data[..n], slack, false)
    requires surplus <= Feed(c, before).count && surplus <= slack && RunOf(Feed(c, before), data)[n].last == Consume
    ensures Quiet(RunOf(Feed(c, before), data), data, 0, n, surplus, c.p.lenient)
  {
    var refs := RunOf(Feed(c, before), data);
    forall k | 0 <= k < n
      ensures Passes(refs, data, k, surplus, c.p.lenient)
    {
      MayPassWithin(c, before, data, n, k, surplus, slack, false);
    }
  }

  lemma {:induction false} RoomBehindText(c: Config, before: string, data: string, n: nat, surplus: nat, slack: nat)
    requires n < |data| && Undisturbed(c, before + data[..n], slack, false)
    requires surplus <= Feed(c, before).count && surplus <= slack
    ensures HasRoom(RunOf(Feed(c, before), data), n, surplus) && Running(RunOf(Feed(c, before), data)[n])
  {
    var refs := RunOf(Feed(c, before), data);
    RunOfIsRun(Feed(c, before), data);
    SmoothWithin(c, before, data, n, n, slack, false);
    assert data[..0] == [];
    SinceBound(refs, data, n, surplus);
  }

  /** Buffers before the one with the byte. */
  lemma {:induction false} BeforeByte(c: Config, text: string, ch: char, rest: string, before: seq<string>,
                                      data: string) returns (n: nat)
    requires AreBuffers(before) && Undisturbed(c, text, |before| + 1, false)
    requires Concat(before) + data == text + [ch] + rest && |Concat(before)| <= |text|
    ensures |Concat(before)| + n == |text| && GoesThrough(c, 0, before, false)
    ensures SurplusAfter(c, 0, before) <= |before| && SurplusAfter(c, 0, before) <= Feed(c, Concat(before)).count
    ensures Feed(c, text + [ch]) == Feed(Feed(c, Concat(before)), data[..n + 1]) && n < |data|
  {
    n := |text| - |Concat(before)|;
    TextAndByte(text, ch, rest, Concat(before), data);
    UndisturbedPrefix(c, Concat(before), data[..n], |before| + 1, false);
    UndisturbedGoes(c, 0, before, |before| + 1, false);
    ThroughBound(c, 0, before, false);
    FeedConcat(c, Concat(before), data[..n + 1]);
    assert Concat(before) + data[..n + 1] == text + [ch];
  }

  /** A new parser gets through the first buffers, and the machine refuses a byte of the one behind them. */
  ghost predicate RefusesIn(lenient: bool, before: seq<string>, data: string, n: nat)
    requires AreBuffers(before)
  {
    forall key {:trigger Unfold(key)} :: Unfold(key) ==>
      && GoesThrough(Start(lenient), 0, before, false)
      && RefusesAt(RunOf(Feed(Start(lenient), Concat(before)), data), data, n, SurplusAfter(Start(lenient), 0, before),
                   lenient)
  }

  lemma {:induction false} ByteIsRefused(lenient: bool, text: string, ch: char, rest: string, before: seq<string>,
                                         data: string) returns (n: nat)
    requires AreBuffers(before) && Undisturbed(Start(lenient), text, |before| + 1, false)
    requires RefusesBehind(Start(lenient), text, ch)
    requires Concat(before) + data == text + [ch] + rest && |Concat(before)| <= |text|
    ensures |Concat(before)| + n == |text| && n < |data| && RefusesIn(lenient, before, data, n)
    ensures Feed(Start(lenient), text + [ch]) == Feed(Feed(Start(lenient), Concat(before)), data[..n + 1])
  {
    n := BeforeByte(Start(lenient), text, ch, rest, before, data);
    RefusedWithin(Start(lenient), text, ch, rest, Concat(before), data, n, |before| + 1,
                  SurplusAfter(Start(lenient), 0, before));
  }

  method ReceiveIn(lenient: bool, before: seq<string>, data: string, ghost n: nat) returns (parser: Parser, m: nat)
    requires AreBuffers(before) && n < |data| < 0x8000_0000 && RefusesIn(lenient, before, data, n)
    ensures m == n && parser.errno != OK
    ensures var r := Feed(Feed(Start(lenient), Concat(before)), data[..n + 1]);
            parser.Snapshot() == r.p && Lags(parser.trace, r.trace)
  {
    parser := new Parser(lenient);
    assert Unfold(0);
    var _ := Receive(parser, before, false);
    m := ReceiveRefused(parser, data, n);
  }

  /** An undisturbed text and a byte that is refused behind it, in buffers cut in any way: the calls fail at that byte,
      with the fields and the error of the byte-at-a-time machine. */
  method ReceiveTextAndByte(lenient: bool, text: string, ch: char, rest: string, before: seq<string>, data: string)
    returns (parser: Parser, m: nat)
    requires AreBuffers(before) && Undisturbed(Start(lenient), text, |before| + 1, false)
    requires RefusesBehind(Start(lenient), text, ch) && |data| < 0x8000_0000
    requires Concat(before) + data == text + [ch] + rest && |Concat(before)| <= |text|
    ensures m == |text| - |Concat(before)| && parser.errno != OK
    ensures var r := Feed(Start(lenient), text + [ch]); parser.Snapshot() == r.p && Lags(parser.trace, r.trace)
  {
    ghost var n := ByteIsRefused(lenient, text, ch, rest, before, data);
    parser, m := ReceiveIn(lenient, before, data, n);
  }
}
