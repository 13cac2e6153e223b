/** A stream cut into buffers: whether a parser gets through it, and what the cut adds to nread. */
module Cuts {
  import opened Ascii
  import opened HttpTypes
  import opened ByteMachine
  import opened Tracking
  import opened Segments
  import opened Limits
  import opened Stops
  import opened Calm

  function Concat(buffers: seq<string>): string {
    if buffers == [] then [] else Concat(buffers[..|buffers| - 1]) + buffers[|buffers| - 1]
  }

  /** Buffers are not empty and shorter than 2^31 bytes. */
  predicate AreBuffers(buffers: seq<string>) {
    forall i :: 0 <= i < |buffers| ==> 0 < |buffers[i]| < 0x8000_0000
  }

  lemma ConcatNext(buffers: seq<string>, i: nat)
    requires i < |buffers|
    ensures Concat(buffers[..i + 1]) == Concat(buffers[..i]) + buffers[i]
  {
    assert buffers[..i + 1][..i] == buffers[..i];
  }

  /** A parser gets through one buffer: every byte passes, and so does the end of the buffer.  An embedder that
      heeds upgrades goes no further than a buffer with which one is announced. */
  ghost predicate Goes(refs: seq<Config>, data: string, surplus: nat, lenient: bool, heeds: bool)
    requires |refs| == |data| + 1
  {
    forall key {:trigger Uncover(key)} :: Uncover(key) ==>
      Ends(refs, data, |data|, surplus, lenient) && (heeds ==> !refs[|data|].p.upgrade)
  }

  /** What nread is beyond the number of header bytes after all buffers. */
  ghost function SurplusAfter(c: Config, surplus: nat, buffers: seq<string>): nat {
    if buffers == [] then surplus
    else
      var n := |buffers| - 1;
      SurplusAt(RunOf(Feed(c, Concat(buffers[..n])), buffers[n]), |buffers[n]|, SurplusAfter(c, surplus, buffers[..n]))
  }

  /** A parser gets through all buffers. */
  ghost predicate GoesThrough(c: Config, surplus: nat, buffers: seq<string>, heeds: bool)
    requires AreBuffers(buffers)
  {
    buffers == [] ||
    var n := |buffers| - 1;
    && GoesThrough(c, surplus, buffers[..n], heeds)
    && Goes(RunOf(Feed(c, Concat(buffers[..n])), buffers[n]), buffers[n], SurplusAfter(c, surplus, buffers[..n]),
            c.p.lenient, heeds)
  }

  /** Who does not get through the first buffers does not get through all of them. */
  lemma {:induction false} NotThrough(c: Config, surplus: nat, buffers: seq<string>, i: nat, heeds: bool)
    requires AreBuffers(buffers) && i <= |buffers| && !GoesThrough(c, surplus, buffers[..i], heeds)
    ensures !GoesThrough(c, surplus, buffers, heeds)
    decreases |buffers|
  {
    if i < |buffers| {
      var n := |buffers| - 1;
      assert buffers[..n][..i] == buffers[..i];
      NotThrough(c, surplus, buffers[..n], i, heeds);
    } else {
      assert buffers[..i] == buffers;
    }
  }

  /** One more buffer. */
  lemma {:induction false} GoesThroughNext(c: Config, surplus: nat, buffers: seq<string>, i: nat, heeds: bool)
    requires AreBuffers(buffers) && i < |buffers|
    ensures var refs := RunOf(Feed(c, Concat(buffers[..i])), buffers[i]);
            var s := SurplusAfter(c, surplus, buffers[..i]);
            && GoesThrough(c, surplus, buffers[..i + 1], heeds) ==
               (GoesThrough(c, surplus, buffers[..i], heeds) && Goes(refs, buffers[i], s, c.p.lenient, heeds))
            && SurplusAfter(c, surplus, buffers[..i + 1]) == SurplusAt(refs, |buffers[i]|, s)
  {
    assert buffers[..i + 1][..i] == buffers[..i];
  }

  // ----- the surplus is never more than the count --------------------------------------------------

  lemma {:induction false} StepByteKeeps(c: Config, ch: char)
    ensures StepByte(c, ch).count == c.count || StepByte(c, ch).count == 0
    decreases Rank(c.p.state)
  {
    var o := Micro(c.p, ch);
    if o.act == Reexecute {
      ReexecuteDecreasesRank(c.p, ch);
      LookAgain(c, ch, o);
      StepByteKeeps(Apply(c, o), ch);
    } else {
      Bites(c, ch, o);
    }
  }

  lemma NextKeeps(c: Config, ch: char)
    ensures Next(c, ch).count >= c.count || Next(c, ch).count == 0
  {
    if Running(c) {
      NextSteps(c, ch);
      StepByteKeeps(Counted(c), ch);
    }
  }

  lemma {:induction false} SinceBound(refs: seq<Config>, data: string, k: nat, surplus: nat)
    requires IsRun(refs, data) && k <= |data| && surplus <= refs[0].count
    ensures Since(refs, k, surplus) <= refs[k].count && Since(refs, k, surplus) <= surplus
  {
    if k > 0 {
      SinceBound(refs, data, k - 1, surplus);
      NextKeeps(refs[k - 1], data[k - 1]);
      assert refs[k] == Next(refs[k - 1], data[k - 1]) by {
        assert Unfold(0);
      }
    }
  }

  /** A byte that is scanned inside a header field or value is a header byte. */
  lemma InsideCounts(refs: seq<Config>, data: string, i: nat)
    requires IsRun(refs, data) && i < |data| && Running(refs[i])
    requires Inside(refs[i].p.state, refs[i + 1].p.state)
    ensures refs[i + 1].count == refs[i].count + 1
  {
    if refs[i].p.state.HeaderField? {
      InsideField(refs[i].p, data[i]);
    } else {
      if data[i] == CR || data[i] == LF {
        LineEndLeaves(refs, data, i);
      }
      InsideValue(refs[i].p, data[i]);
    }
    OnePassByte(refs, data, i);
  }

  lemma InsideField(p: Fields, ch: char)
    requires p.state.HeaderField?
    ensures Micro(p, ch).act != Reexecute && !Micro(p, ch).resetCount
  {
  }

  lemma InsideValue(p: Fields, ch: char)
    requires p.state.HeaderValue? && ch != LF
    ensures Micro(p, ch).act != Reexecute && !Micro(p, ch).resetCount
  {
  }

  lemma SurplusBound(refs: seq<Config>, data: string, surplus: nat)
    requires IsRun(refs, data) && data != [] && surplus <= refs[0].count && Running(refs[|data| - 1])
    ensures SurplusAt(refs, |data|, surplus) <= refs[|data|].count
    ensures SurplusAt(refs, |data|, surplus) <= surplus + 1
  {
    var n := |data| - 1;
    SinceBound(refs, data, n + 1, surplus);
    if EndsInside(refs) {
      SinceBound(refs, data, n, surplus);
      InsideCounts(refs, data, n);
    }
  }

  /** However a parser has got through a stream, nread is beyond the number of header bytes by at most one for each
      buffer, and never by more than there are header bytes. */
  lemma {:induction false} ThroughBound(c: Config, surplus: nat, buffers: seq<string>, heeds: bool)
    requires AreBuffers(buffers) && GoesThrough(c, surplus, buffers, heeds) && surplus <= c.count
    ensures SurplusAfter(c, surplus, buffers) <= surplus + |buffers|
    ensures SurplusAfter(c, surplus, buffers) <= Feed(c, Concat(buffers)).count
    decreases |buffers|
  {
    if buffers != [] {
      var n := |buffers| - 1;
      var before := Concat(buffers[..n]);
      ThroughBound(c, surplus, buffers[..n], heeds);
      BufferBound(Feed(c, before), buffers[n], SurplusAfter(c, surplus, buffers[..n]), c.p.lenient, heeds);
      FeedConcat(c, before, buffers[n]);
    }
  }

  lemma {:induction false} BufferBound(c: Config, data: string, surplus: nat, lenient: bool, heeds: bool)
    requires data != [] && surplus <= c.count && Goes(RunOf(c, data), data, surplus, lenient, heeds)
    ensures var s := SurplusAt(RunOf(c, data), |data|, surplus);
            s <= surplus + 1 && s <= Feed(c, data).count
  {
    var refs := RunOf(c, data);
    assert Uncover(0);
    RunOfIsRun(c, data);
    LastRuns(refs, data, surplus, lenient);
    SurplusBound(refs, data, surplus);
    assert data[..|data|] == data && data[..0] == [];
  }

  lemma {:induction false} LastRuns(refs: seq<Config>, data: string, surplus: nat, lenient: bool)
    requires IsRun(refs, data) && data != [] && Ends(refs, data, |data|, surplus, lenient)
    ensures Running(refs[|data| - 1])
  {
    assert Unfold(0);
    var n := |data| - 1;
    assert refs[n + 1] == Next(refs[n], data[n]);
  }

  // ----- undisturbed streams -----------------------------------------------------------------------

  lemma UndisturbedPrefix(c: Config, a: string, b: string, slack: nat, heeds: bool)
    requires Undisturbed(c, a + b, slack, heeds)
    ensures Undisturbed(c, a, slack, heeds)
  {
    forall k | 0 <= k <= |a|
      ensures Smooth(c, a, k, slack, heeds)
    {
      assert Smooth(c, a + b, k, slack, heeds);
      assert (a + b)[..k] == a[..k];
      if k < |a| {
        assert (a + b)[k] == a[k];
      }
    }
  }

  /** Where the machine is within a buffer, up to byte `e` of which the stream is undisturbed. */
  lemma SmoothWithin(c: Config, before: string, data: string, e: nat, k: nat, slack: nat, heeds: bool)
    requires k <= e <= |data| && Undisturbed(c, before + data[..e], slack, heeds)
    ensures var d := Feed(Feed(c, before), data[..k]);
            && Running(d) && (heeds ==> !d.p.upgrade) && (0 < k < e ==> d.last == Consume)
            && d.count + Surplus(d.count, slack) < HTTP_MAX_HEADER_SIZE
            && (k < e && d.p.state.HeaderValue? ==> c.p.lenient || IsHeaderChar(data[k]))
  {
    var stream := before + data[..e];
    assert Smooth(c, stream, |before| + k, slack, heeds);
    assert stream[..|before| + k] == before + data[..k];
    FeedConcat(c, before, data[..k]);
    if k < e {
      assert stream[|before| + k] == data[k];
    }
  }

  lemma {:induction false} MayPassWithin(c: Config, before: string, data: string, e: nat, k: nat, surplus: nat,
                                         slack: nat, heeds: bool)
    requires k < e <= |data| && Undisturbed(c, before + data[..e], slack, heeds)
    requires surplus <= Feed(c, before).count && surplus <= slack
    ensures var refs := RunOf(Feed(c, before), data);
            && MayPass(refs, data, k, surplus, c.p.lenient)
            && (k + 1 < e ==> Passes(refs, data, k, surplus, c.p.lenient))
  {
    var d := Feed(c, before);
    var refs := RunOf(d, data);
    RunOfIsRun(d, data);
    SmoothWithin(c, before, data, e, k, slack, heeds);
    SmoothWithin(c, before, data, e, k + 1, slack, heeds);
    SinceBound(refs, data, k, surplus);
    assert data[..0] == [];
  }

  /** A parser gets through a buffer of an undisturbed stream, or to the end of the stream in it. */
  lemma {:induction false} EndsWithin(c: Config, before: string, data: string, e: nat, surplus: nat, slack: nat,
                                      heeds: bool)
    requires 0 < e <= |data| && Undisturbed(c, before + data[..e], slack, heeds)
    requires surplus <= Feed(c, before).count && surplus <= slack
    requires e < |data| ==> Feed(Feed(c, before), data[..e]).last == Exit
    ensures var refs := RunOf(Feed(c, before), data);
            && Ends(refs, data, e, surplus, c.p.lenient) && (heeds ==> !refs[e].p.upgrade)
  {
    var refs := RunOf(Feed(c, before), data);
    RunOfIsRun(Feed(c, before), data);
    SmoothWithin(c, before, data, e, e, slack, heeds);
    SinceBound(refs, data, e, surplus);
    forall k | 0 <= k < e - 1
      ensures Passes(refs, data, k, surplus, c.p.lenient)
    {
      MayPassWithin(c, before, data, e, k, surplus, slack, heeds);
    }
    MayPassWithin(c, before, data, e, e - 1, surplus, slack, heeds);
  }

  /** However an undisturbed stream is cut, a parser gets through it. */
  lemma {:induction false} UndisturbedGoes(c: Config, surplus: nat, buffers: seq<string>, slack: nat, heeds: bool)
    requires AreBuffers(buffers) && Undisturbed(c, Concat(buffers), slack, heeds)
    requires surplus <= c.count && surplus + |buffers| <= slack
    ensures GoesThrough(c, surplus, buffers, heeds)
    decreases |buffers|
  {
    if buffers != [] {
      var n := |buffers| - 1;
      var before := Concat(buffers[..n]);
      var data := buffers[n];
      assert data[..|data|] == data;
      UndisturbedPrefix(c, before, data, slack, heeds);
      UndisturbedGoes(c, surplus, buffers[..n], slack, heeds);
      ThroughBound(c, surplus, buffers[..n], heeds);
      EndsWithin(c, before, data, |data|, SurplusAfter(c, surplus, buffers[..n]), slack, heeds);
    }
  }
}
