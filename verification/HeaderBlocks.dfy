/** Lists of header lines, in a header block or behind the last chunk: what they do to the fields. */
module HeaderBlocks {
  import opened HttpTypes
  import opened ByteMachine
  import opened Invariant
  import opened Text
  import opened Evidence
  import opened Framing
  import opened HeaderLines
  import opened ConnectionLists

  /** The flags after a header line. */
  function LineFlags(flags: Flags, l: Line): (r: Flags)
    ensures r.trailing == flags.trailing
  {
    var name := Folded(l.name);
    if l.value == [] then flags
    else if IsConnectionName(l.name) then ContinuedFlags(flags, l.value, l.more)
    else if name == "transfer-encoding" then
      flags.(chunked := flags.chunked || (l.more == [] && IsChunkedValue(l.value)))
    else if name == "content-length" then flags.(contentLength := true)
    else flags.(upgrade := flags.upgrade || name == "upgrade")
  }

  /** content_length after a header line. */
  function LineLength(length: nat, l: Line): nat {
    if l.value != [] && Folded(l.name) == "content-length" then Decimal(l.value) else length
  }

  /** A Content-Length line whose value is a number in range, and the first one of the message. */
  predicate IsLengthLine(flags: Flags, l: Line) {
    IsNumeral(l.value) && Decimal(l.value) <= MAX_CONTENT_LENGTH && l.more == [] && !flags.contentLength
  }

  /** A header line that the parser accepts, whatever its name. */
  predicate IsReadable(lenient: bool, flags: Flags, l: Line) {
    var name := Folded(l.name);
    && IsLine(l)
    && (l.value != [] && name == "content-length" ==> IsLengthLine(flags, l))
    && (name == "transfer-encoding" ==> CodingPasses(lenient, l.value))
    && (IsConnectionName(l.name) ==> ListPasses(lenient, l.value) && MorePasses(lenient, l.value, l.more))
  }

  function AfterLine(p: Fields, l: Line): Fields {
    p.(flags := LineFlags(p.flags, l), contentLength := LineLength(p.contentLength, l))
  }

  /** Between two header lines: the fields are `p`, but for what belongs to a single line, and these callbacks have
      been made once the next byte shows that the last header is not continued. */
  predicate Within(c: Config, p: Fields, trace: seq<Event>) {
    && BetweenHeaders(c) && Settled(c).trace == trace && NoOpenName(trace)
    && Settled(c).p == p.(headerState := Settled(c).p.headerState, index := Settled(c).p.index)
  }

  /** Every line is handed over, and changes the flags and the length as its name and value say. */
  lemma LineRead(c: Config, l: Line, p: Fields, trace: seq<Event>)
    requires Within(c, p, trace) && IsReadable(p.lenient, p.flags, l)
    ensures Within(Feed(c, LineText(l)), AfterLine(p, l), trace + LineEvents(l))
  {
    if l.value == [] {
      EmptyLine(c, l);
    } else if IsConnectionName(l.name) {
      ConnectionLine(c, l);
    } else if Folded(l.name) == "transfer-encoding" {
      CodingLine(c, l);
    } else if Folded(l.name) == "content-length" {
      LengthLine(c, l);
    } else {
      GeneralLine(c, l);
    }
  }

  // ----- lists of lines --------------------------------------------------------------------------

  function LinesText(lines: seq<Line>): string {
    if lines == [] then "" else LineText(lines[0]) + LinesText(lines[1..])
  }

  function LinesEvents(lines: seq<Line>): seq<Event> {
    if lines == [] then [] else LineEvents(lines[0]) + LinesEvents(lines[1..])
  }

  function LinesFlags(flags: Flags, lines: seq<Line>): (r: Flags)
    ensures r.trailing == flags.trailing
    decreases |lines|
  {
    if lines == [] then flags else LinesFlags(LineFlags(flags, lines[0]), lines[1..])
  }

  function LinesLength(length: nat, lines: seq<Line>): nat
    decreases |lines|
  {
    if lines == [] then length else LinesLength(LineLength(length, lines[0]), lines[1..])
  }

  /** Each line is acceptable after those before it. */
  predicate AreReadable(lenient: bool, flags: Flags, lines: seq<Line>)
    decreases |lines|
  {
    || lines == []
    || (IsReadable(lenient, flags, lines[0]) && AreReadable(lenient, LineFlags(flags, lines[0]), lines[1..]))
  }

  function AfterLines(p: Fields, lines: seq<Line>): Fields {
    p.(flags := LinesFlags(p.flags, lines), contentLength := LinesLength(p.contentLength, lines))
  }

  /** A length that has been declared is in range. */
  lemma {:induction false} LengthInRange(lenient: bool, flags: Flags, length: nat, lines: seq<Line>)
    requires AreReadable(lenient, flags, lines) && length <= UNSET
    ensures LinesLength(length, lines) <= UNSET
    decreases |lines|
  {
    if lines != [] {
      LengthInRange(lenient, LineFlags(flags, lines[0]), LineLength(length, lines[0]), lines[1..]);
    }
  }

  /** Header lines in any order, known and unknown, are read as they were printed. */
  lemma {:induction false} LinesRead(c: Config, lines: seq<Line>, p: Fields, trace: seq<Event>)
    requires Within(c, p, trace) && AreReadable(p.lenient, p.flags, lines)
    ensures Within(Feed(c, LinesText(lines)), AfterLines(p, lines), trace + LinesEvents(lines))
    decreases |lines|
  {
    if lines == [] {
      assert trace + [] == trace;
    } else {
      var d := Feed(c, LineText(lines[0]));
      LineRead(c, lines[0], p, trace);
      LinesRead(d, lines[1..], AfterLine(p, lines[0]), trace + LineEvents(lines[0]));
      FeedConcat(c, LineText(lines[0]), LinesText(lines[1..]));
      Assoc(trace, LineEvents(lines[0]), LinesEvents(lines[1..]));
    }
  }
}
