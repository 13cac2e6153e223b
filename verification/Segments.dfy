/** The machine over a stretch of bytes, for proofs about printed messages. */
module Segments {
  import opened Ascii
  import opened HttpTypes
  import opened ByteMachine
  import opened Tracking

  /** The machine consumed everything and has these fields and callbacks; the count of header bytes
      plays no part in what it does. */
  predicate At(c: Config, p: Fields, trace: seq<Event>) {
    c.last == Consume && c.p == p && c.trace == trace
  }

  /** A byte that one pass decides. */
  lemma {:induction false} Bite(c: Config, ch: char, o: Outcome)
    requires Running(c) && o == Micro(c.p, ch) && o.act != Reexecute
    ensures Next(c, ch).p == o.p && Next(c, ch).last == o.act && Next(c, ch).trace == EmitOption(c.trace, o.event)
  {
  }

  /** A byte that is looked at twice. */
  lemma {:induction false} BiteTwice(c: Config, ch: char, o: Outcome, o': Outcome)
    requires Running(c) && o == Micro(c.p, ch) && o.act == Reexecute
    requires o' == Micro(o.p, ch) && o'.act != Reexecute
    ensures Next(c, ch).p == o'.p && Next(c, ch).last == o'.act
    ensures Next(c, ch).trace == EmitOption(EmitOption(c.trace, o.event), o'.event)
  {
    var d := Counted(c);
    NextSteps(c, ch);
    LookAgain(d, ch, o);
    Bites(Apply(d, o), ch, o');
  }

  lemma {:induction false} NextSteps(c: Config, ch: char)
    requires Running(c)
    ensures Next(c, ch) == StepByte(Counted(c), ch)
  {
  }

  lemma {:induction false} LookAgain(c: Config, ch: char, o: Outcome)
    requires o == Micro(c.p, ch) && o.act == Reexecute
    ensures StepByte(c, ch) == StepByte(Apply(c, o), ch)
  {
  }

  lemma {:induction false} Bites(c: Config, ch: char, o: Outcome)
    requires o == Micro(c.p, ch) && o.act != Reexecute
    ensures StepByte(c, ch) == Apply(c, o)
  {
  }

  lemma FeedOne(c: Config, ch: char)
    ensures Feed(c, [ch]) == Next(c, ch)
  {
    assert [ch][..0] == [];
  }

  lemma FeedLast(c: Config, s: string, ch: char)
    ensures Feed(c, s + [ch]) == Next(Feed(c, s), ch)
  {
    assert (s + [ch])[..|s|] == s;
  }

  lemma FeedFirst(c: Config, ch: char, s: string)
    ensures Feed(c, [ch] + s) == Feed(Next(c, ch), s)
  {
    FeedConcat(c, [ch], s);
    FeedOne(c, ch);
  }

  lemma FeedTwo(c: Config, a: char, b: char)
    ensures Feed(c, [a, b]) == Next(Next(c, a), b)
  {
    assert [a, b] == [a] + [b];
    FeedFirst(c, a, [b]);
    FeedOne(Next(c, a), b);
  }

  predicate IsLineEnd(s: string) {
    s == "\r\n" || s == "\n"
  }

  /** An error is for good. */
  lemma {:induction false} FailsOn(c: Config, s: string)
    requires !Running(c)
    ensures Feed(c, s) == c
  {
    if s != [] {
      FailsOn(c, s[..|s| - 1]);
    }
  }

  /** How the byte before ended plays no part. */
  lemma StepIgnoresLast(c: Config, d: Config, ch: char)
    requires c.p == d.p && c.count == d.count && c.trace == d.trace
    ensures StepByte(c, ch) == StepByte(d, ch)
  {
    var o := Micro(c.p, ch);
    assert Apply(c, o) == Apply(d, o);
  }

  /** The empty line after a header block or trailers, down to its LF: one CR and LF, or LF alone. */
  lemma EmptyLineParts(c: Config, end: string) returns (d: Config)
    requires Running(c) && c.p.state.HeaderFieldStart? && IsLineEnd(end)
    ensures At(d, c.p.(state := HeadersAlmostDone), c.trace) && Feed(c, end) == Next(d, LF)
  {
    if end == "\n" {
      d := c.(p := c.p.(state := HeadersAlmostDone), last := Consume);
      FeedOne(c, LF);
      LookAgain(Counted(c), LF, Micro(c.p, LF));
      StepIgnoresLast(Apply(Counted(c), Micro(c.p, LF)), Counted(d), LF);
    } else {
      d := Next(c, CR);
      Bite(c, CR, Micro(c.p, CR));
      FeedTwo(c, CR, LF);
    }
  }
}
