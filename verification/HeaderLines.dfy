/** Header lines: what each kind of line does, exactly. */
module HeaderLines {
  import opened Ascii
  import opened HttpTypes
  import opened ByteMachine
  import opened Invariant
  import opened Callbacks
  import opened Tracking
  import opened Text
  import opened Evidence
  import opened Meaning
  import opened Promises
  import opened Segments

  // ----- between two header lines ----------------------------------------------------------------

  predicate IsBlankByte(ch: char) {
    ch == ' ' || ch == '\t'
  }

  /** Where a header line, or the empty line after the headers, may start. */
  predicate BetweenHeaders(c: Config) {
    Running(c) && (c.p.state.HeaderFieldStart? || c.p.state.HeaderValueLws? || c.p.state.HeaderValueDiscardLws?)
  }

  /** The same place, once the next byte shows that the last header is not continued. */
  function Settled(c: Config): Config {
    if c.p.state.HeaderFieldStart? then c
    else
      Config(c.p.(state := HeaderFieldStart, flags := FinishedFlags(c.p.headerState, c.p.flags)), c.count,
             if c.p.state.HeaderValueDiscardLws? then Emit(c.trace, Data(ValueText, [])) else c.trace, c.last)
  }

  lemma SettledNext(c: Config, ch: char)
    requires BetweenHeaders(c) && !IsBlankByte(ch)
    ensures Next(c, ch) == Next(Settled(c), ch)
  {
    var o := Micro(c.p, ch);
    if !c.p.state.HeaderFieldStart? {
      var d := c.(count := c.count + 1);
      LookAgain(d, ch, o);
      StepIgnoresLast(Apply(d, o), Settled(c).(count := c.count + 1), ch);
    }
  }

  // ----- the name --------------------------------------------------------------------------------

  predicate IsName(name: string) {
    name != [] && forall i :: 0 <= i < |name| ==> IsToken(name[i])
  }

  /** From `c`, between headers, the machine has read a name. */
  ghost predicate NameAt(c: Config, r: Config, name: string) {
    && r.last == Consume && r.p.state.HeaderField?
    && r.p == c.p.(state := HeaderField, headerState := r.p.headerState, index := r.p.index)
    && r.trace == Emit(c.trace, Data(FieldText, name))
    && FieldScan(r.p.headerState, r.p.index) && NameKnown(r.p.headerState, r.p.index, Folded(name))
  }

  lemma FirstNameByte(c: Config, ch: char)
    requires Running(c) && c.p.state.HeaderFieldStart? && IsToken(ch)
    ensures NameAt(c, Next(c, ch), [ch])
  {
    Bite(c, ch, FieldStartByte(c.p, ch));
    FirstNameState(ch);
  }

  lemma FirstNameState(ch: char)
    requires IsToken(ch)
    ensures var h := FirstHeaderState(Token(ch));
            FieldScan(h, 0) && NameKnown(h, 0, Folded([ch]))
  {
    TokenFolds(ch);
    FirstNameKnown(Token(ch));
    FoldedNext("", ch);
    assert "" + [ch] == [ch];
  }

  lemma NameByte(c: Config, r: Config, name: string, ch: char)
    requires NameAt(c, r, name) && IsToken(ch)
    ensures NameAt(c, Next(r, ch), name + [ch])
  {
    Bite(r, ch, FieldByte(r.p, ch));
    TokenFolds(ch);
    FieldNextScans(r.p.headerState, r.p.index, Token(ch));
    NameNext(r.p.headerState, r.p.index, Folded(name), Token(ch));
    FoldedNext(name, ch);
    EmitTwice(c.trace, FieldText, name, [ch]);
  }

  lemma {:induction false} NameRead(c: Config, name: string)
    requires Running(c) && c.p.state.HeaderFieldStart? && IsName(name)
    ensures NameAt(c, Feed(c, name), name)
  {
    var t := name[..|name| - 1];
    assert name == t + [name[|name| - 1]];
    if t == [] {
      FirstNameByte(c, name[0]);
    } else {
      NameRead(c, t);
      NameByte(c, Feed(c, t), t, name[|name| - 1]);
    }
  }

  /** After the colon: the header state is decided by the name. */
  ghost predicate NameOver(c: Config, r: Config, name: string) {
    && r.last == Consume && r.p.state.HeaderValueDiscardWs?
    && r.p == c.p.(state := HeaderValueDiscardWs, headerState := r.p.headerState, index := r.p.index)
    && r.trace == Emit(c.trace, Data(FieldText, name))
    && IsFieldNameState(r.p.headerState) && NameDecides(r.p.headerState, Folded(name))
  }

  lemma ColonByte(c: Config, r: Config, name: string)
    requires NameAt(c, r, name)
    ensures NameOver(c, Next(r, ':'), name)
  {
    Bite(r, ':', FieldByte(r.p, ':'));
    NameKnownDecides(r.p.headerState, r.p.index, Folded(name));
  }

  lemma NameSegment(c: Config, name: string)
    requires Running(c) && c.p.state.HeaderFieldStart? && IsName(name)
    ensures NameOver(c, Feed(c, name + ":"), name)
  {
    NameRead(c, name);
    ColonByte(c, Feed(c, name), name);
    FeedLast(c, name, ':');
  }

  /** A text that does not start with a blank reads the same before and after settling. */
  lemma {:induction false} SettledFeed(c: Config, s: string)
    requires BetweenHeaders(c) && s != [] && !IsBlankByte(s[0])
    ensures Feed(c, s) == Feed(Settled(c), s)
  {
    if |s| == 1 {
      assert s == [s[0]];
      FeedOne(c, s[0]);
      FeedOne(Settled(c), s[0]);
      SettledNext(c, s[0]);
    } else {
      SettledFeed(c, s[..|s| - 1]);
    }
  }

  // ----- blanks and line ends --------------------------------------------------------------------

  /** Without lenient_http_headers, no byte that IS_HEADER_CHAR refuses. */
  predicate AreHeaderChars(lenient: bool, text: string) {
    lenient || forall i :: 0 <= i < |text| ==> IsHeaderChar(text[i])
  }

  /** A line end after a value that is not empty. */
  lemma ValueLineEnd(c: Config, end: string)
    requires Running(c) && c.p.state.HeaderValue? && IsLineEnd(end)
    ensures At(Feed(c, end), c.p.(state := HeaderValueLws), c.trace)
  {
    if end == "\n" {
      FeedOne(c, LF);
      ValueLF(c);
    } else {
      FeedTwo(c, CR, LF);
      ValueCR(c);
      AlmostDoneLF(Next(c, CR));
    }
  }

  lemma ValueLF(c: Config)
    requires Running(c) && c.p.state.HeaderValue?
    ensures At(Next(c, LF), c.p.(state := HeaderValueLws), c.trace)
  {
    var o := ValueByte(c.p, LF);
    BiteTwice(c, LF, o, Micro(o.p, LF));
  }

  lemma ValueCR(c: Config)
    requires Running(c) && c.p.state.HeaderValue?
    ensures At(Next(c, CR), c.p.(state := HeaderAlmostDone), c.trace)
  {
    Bite(c, CR, ValueByte(c.p, CR));
  }

  lemma AlmostDoneLF(c: Config)
    requires Running(c) && (c.p.state.HeaderAlmostDone? || c.p.state.HeaderValueDiscardWsAlmostDone?)
    ensures At(Next(c, LF),
               c.p.(state := if c.p.state.HeaderAlmostDone? then HeaderValueLws else HeaderValueDiscardLws),
               c.trace)
  {
    Bite(c, LF, Micro(c.p, LF));
  }

  /** A line end after an empty value. */
  lemma EmptyLineEnd(c: Config, end: string)
    requires Running(c) && c.p.state.HeaderValueDiscardWs? && IsLineEnd(end)
    ensures At(Feed(c, end), c.p.(state := HeaderValueDiscardLws), c.trace)
  {
    if end == "\n" {
      FeedOne(c, LF);
      Bite(c, LF, DiscardWsByte(c.p, LF));
    } else {
      FeedTwo(c, CR, LF);
      Bite(c, CR, DiscardWsByte(c.p, CR));
      AlmostDoneLF(Next(c, CR));
    }
  }

  // ----- values ----------------------------------------------------------------------------------

  /** A value as it is handed over: not empty, no line end in it, no blank in front. */
  predicate IsValue(v: string) {
    v != [] && CR !in v && LF !in v && !IsBlankByte(v[0])
  }

  /** The first byte of a value. */
  lemma FirstValueByte(c: Config, ch: char)
    requires Running(c) && c.p.state.HeaderValueDiscardWs? && ch != CR && ch != LF && !IsBlankByte(ch)
    ensures var r := Next(c, ch);
            if r.last == Consume then StartsValue(c.p, r.p, ch) && r.trace == Emit(c.trace, Data(ValueText, [ch]))
            else
              && r.last == Fail && c.p.headerState.ContentLength?
              && r.p.errno == if IsNum(ch) then UnexpectedContentLength else InvalidContentLength
  {
    assert DiscardWsByte(c.p, ch) == ValueStartByte(c.p, ch);
    ValueStartShape(c.p, ch);
    Bite(c, ch, ValueStartByte(c.p, ch));
  }

  /** A further byte of a value. */
  lemma ValueByteRead(c: Config, ch: char, v: string, trace: seq<Event>)
    requires Running(c) && c.p.state.HeaderValue? && ch != CR && ch != LF
    requires c.p.headerState.General? || c.p.lenient || IsHeaderChar(ch)
    requires c.trace == Emit(trace, Data(ValueText, v))
    ensures var r := Next(c, ch);
            var o := ValueStep(c.p, ch);
            && r.p == o.p && r.last == o.act
            && (o.act == Consume ==> r.trace == Emit(trace, Data(ValueText, v + [ch])))
  {
    Bite(c, ch, ValueByte(c.p, ch));
    EmitTwice(trace, ValueText, v, [ch]);
  }

  /** A byte that IS_HEADER_CHAR refuses. */
  lemma RefusedValueByte(c: Config, ch: char)
    requires Running(c) && c.p.state.HeaderValue? && ch != CR && ch != LF
    requires !c.p.headerState.General? && !c.p.lenient && !IsHeaderChar(ch)
    ensures Next(c, ch).last == Fail && Next(c, ch).p.errno == InvalidHeaderToken
  {
    Bite(c, ch, ValueByte(c.p, ch));
  }

  // ----- Content-Length --------------------------------------------------------------------------

  /** A value of Content-Length that is accepted. */
  predicate IsLength(v: string) {
    IsNumeral(v) && Decimal(v) <= MAX_CONTENT_LENGTH
  }

  /** The error for the first byte of a value that makes it none: that of IS_HEADER_CHAR, which is applied to all bytes
      but the first one, comes before that for a byte that is no digit or one too many. */
  function LengthError(lenient: bool, v: string): Errno {
    if |v| > 1 && !IsLength(v[..|v| - 1]) then LengthError(lenient, v[..|v| - 1])
    else if |v| > 1 && !lenient && !IsHeaderChar(v[|v| - 1]) then InvalidHeaderToken
    else InvalidContentLength
  }

  /** From `c`, at a Content-Length value, the machine is past `v`: it holds the value of its digits,
      or has refused it. */
  predicate LengthRead(c: Config, r: Config, v: string) {
    if IsLength(v) then
      At(r, c.p.(state := HeaderValue, index := 0, contentLength := Decimal(v),
                 flags := c.p.flags.(contentLength := true)),
         Emit(c.trace, Data(ValueText, v)))
    else r.last == Fail && r.p.errno == LengthError(c.p.lenient, v)
  }

  predicate ReadsLength(p: Fields) {
    p.state.HeaderValueDiscardWs? && p.headerState.ContentLength? && !p.flags.contentLength
  }

  lemma FirstLengthByte(c: Config, ch: char)
    requires Running(c) && ReadsLength(c.p) && ch != CR && ch != LF && !IsBlankByte(ch)
    ensures LengthRead(c, Next(c, ch), [ch])
  {
    FirstValueByte(c, ch);
    OneDigit(ch);
  }

  lemma OneDigit(ch: char)
    ensures IsNumeral([ch]) <==> IsNum(ch)
    ensures IsNum(ch) ==> Decimal([ch]) == DigitValue(ch)
  {
    assert [ch] == "" + [ch];
    DecimalNext("", ch);
    assert [ch][0] == ch;
  }

  lemma {:induction false} LengthErrorNext(lenient: bool, v: string, ch: char)
    requires v != []
    ensures LengthError(lenient, v + [ch])
         == if !IsLength(v) then LengthError(lenient, v)
            else if !lenient && !IsHeaderChar(ch) then InvalidHeaderToken
            else InvalidContentLength
  {
    assert (v + [ch])[..|v|] == v;
  }

  lemma {:induction false} NextLengthByte(c: Config, r: Config, v: string, ch: char)
    requires Running(c) && ReadsLength(c.p) && v != [] && LengthRead(c, r, v) && ch != CR && ch != LF
    ensures LengthRead(c, Next(r, ch), v + [ch])
  {
    NumeralNext(v, ch);
    LengthErrorNext(c.p.lenient, v, ch);
    if Running(r) {
      LengthByte(r.p, v, ch);
      Bite(r, ch, ValueByte(r.p, ch));
      EmitTwice(c.trace, ValueText, v, [ch]);
    } else {
      DecimalGrows(v, ch);
    }
  }

  lemma {:induction false} LengthByte(p: Fields, v: string, ch: char)
    requires p.headerState.ContentLength? && p.contentLength == Decimal(v) <= MAX_CONTENT_LENGTH && ch != CR && ch != LF
    ensures var o := ValueByte(p, ch);
            if (IsNum(ch) || ch == ' ') && Decimal(v + [ch]) <= MAX_CONTENT_LENGTH then
              && o.act == Consume && o.event == Some(Data(ValueText, [ch]))
              && o.p == p.(contentLength := Decimal(v + [ch]))
            else
              && o.act == Fail
              && o.p.errno == if !p.lenient && !IsHeaderChar(ch) then InvalidHeaderToken else InvalidContentLength
  {
    DecimalNext(v, ch);
  }

  lemma DecimalGrows(v: string, ch: char)
    ensures Decimal(v) <= Decimal(v + [ch])
  {
    DecimalNext(v, ch);
  }

  lemma NumeralNext(v: string, ch: char)
    requires v != []
    ensures IsNumeral(v + [ch]) <==> IsNumeral(v) && (IsNum(ch) || ch == ' ')
  {
    var w := v + [ch];
    assert w[0] == v[0] && w[|v|] == ch;
    if IsNumeral(w) {
      forall i | 0 <= i < |v|
        ensures IsNum(v[i]) || v[i] == ' '
      {
        assert w[i] == v[i];
      }
    }
  }

  /** A Content-Length value is accepted exactly when it is made up of a digit, digits and spaces, and
      its number is in range; then content_length is that number. */
  lemma {:induction false} ContentLengthIsExact(c: Config, v: string)
    requires Running(c) && ReadsLength(c.p) && IsValue(v)
    ensures LengthRead(c, Feed(c, v), v)
  {
    var t := v[..|v| - 1];
    var ch := v[|v| - 1];
    assert v == t + [ch];
    if t == [] {
      FirstLengthByte(c, ch);
      FeedOne(c, ch);
    } else {
      ContentLengthIsExact(c, t);
      NextLengthByte(c, Feed(c, t), t, ch);
    }
  }

  // ----- Transfer-Encoding -----------------------------------------------------------------------

  /** The header state knows whether `v` is `chunked`, the start of it, or neither. */
  predicate CodingKnown(h: HeaderState, index: nat, v: string) {
    if h.MatchingChunked? then index < 6 && Folded(v) == "chunked"[..index + 1]
    else if h.TransferChunked? then IsChunkedValue(v)
    else h.General? && !IsChunkedValue(v) && !(Folded(v) <= "chunked")
  }

  lemma {:induction false} TrimEndShorter(s: string)
    ensures |TrimEnd(s)| <= |s|
  {
    if s != [] {
      TrimEndShorter(s[..|s| - 1]);
    }
  }

  lemma CodingDecides(h: HeaderState, index: nat, v: string)
    requires CodingKnown(h, index, v)
    ensures h.TransferChunked? <==> IsChunkedValue(v)
  {
    if h.MatchingChunked? {
      TrimEndShorter(v);
    }
  }

  lemma FirstCoding(ch: char)
    requires ch != CR
    ensures CodingKnown(ValueStartNext(TransferEncoding, ch), 0, [ch])
  {
    LowerFolds(ch, 'c');
    FoldedNext("", ch);
    TrimEndShorter([ch]);
    assert "" + [ch] == [ch];
    assert Folded([ch])[0] == Fold(ch);
  }

  /** A text that is not on the way to `chunked` never gets there. */
  lemma LostCoding(v: string, ch: char)
    requires !IsChunkedValue(v) && !(Folded(v) <= "chunked")
    ensures !IsChunkedValue(v + [ch]) && !(Folded(v + [ch]) <= "chunked")
  {
    FoldedNext(v, ch);
    TrimEndNext(v, ch);
    assert Folded(v) <= Folded(v) + [Fold(ch)];
  }

  /** The byte that parts a text from `chunked`. */
  lemma MissedCoding(index: nat, v: string, ch: char)
    requires index < 6 && Folded(v) == "chunked"[..index + 1] && Fold(ch) != "chunked"[index + 1]
    ensures !IsChunkedValue(v + [ch]) && !(Folded(v + [ch]) <= "chunked")
  {
    FoldedNext(v, ch);
    TrimEndNext(v, ch);
    TrimEndShorter(v);
    var w := Folded(v + [ch]);
    assert w[index + 1] == Fold(ch);
    Differs(w, "chunked", index + 1);
  }

  lemma AfterCoding(v: string, ch: char)
    requires IsChunkedValue(v) && ch != ' '
    ensures !IsChunkedValue(v + [ch]) && !(Folded(v + [ch]) <= "chunked")
  {
    FoldedNext(v, ch);
    TrimEndNext(v, ch);
    TrimEndShorter(v);
  }

  lemma NextCoding(h: HeaderState, index: nat, v: string, ch: char)
    requires CodingKnown(h, index, v) && ch != CR
    ensures CodingKnown(ValueNext(h, index, ch), ValueIndex(h, index, ch), v + [ch])
  {
    if h.MatchingChunked? {
      MatchStep(h, index, ch);
      if Fold(ch) == "chunked"[index + 1] {
        WordGrows("chunked", index, v, ch);
        TrimEndNext(v, ch);
      } else {
        MissedCoding(index, v, ch);
      }
    } else if h.TransferChunked? {
      if ch == ' ' {
        TrimEndNext(v, ch);
      } else {
        AfterCoding(v, ch);
      }
    } else {
      LostCoding(v, ch);
    }
  }

  /** From `c`, at a Transfer-Encoding value, the machine is past `v`. */
  predicate CodingRead(c: Config, r: Config, v: string) {
    && r.last == Consume && r.trace == Emit(c.trace, Data(ValueText, v))
    && r.p == c.p.(state := HeaderValue, headerState := r.p.headerState, index := r.p.index)
    && CodingKnown(r.p.headerState, r.p.index, v)
  }

  /** A text from which nothing leads to `chunked` any more: the header is a general one by then. */
  predicate IsLostCoding(v: string) {
    !IsChunkedValue(v) && !(Folded(v) <= "chunked")
  }

  /** Every byte but the first one passes IS_HEADER_CHAR, or is not looked at. */
  predicate CodingPasses(lenient: bool, v: string) {
    forall i :: 0 < i < |v| ==> lenient || IsHeaderChar(v[i]) || IsLostCoding(v[..i])
  }

  lemma CodingPassesNext(lenient: bool, v: string, ch: char)
    requires v != []
    ensures CodingPasses(lenient, v + [ch]) <==>
            CodingPasses(lenient, v) && (lenient || IsHeaderChar(ch) || IsLostCoding(v))
  {
    var w := v + [ch];
    assert w[..|v|] == v;
    forall i | 0 < i < |v|
      ensures w[i] == v[i] && w[..i] == v[..i]
    {
    }
    if CodingPasses(lenient, w) {
      forall i | 0 < i < |v|
        ensures lenient || IsHeaderChar(v[i]) || IsLostCoding(v[..i])
      {
        assert lenient || IsHeaderChar(w[i]) || IsLostCoding(w[..i]);
      }
    }
  }

  lemma LostCodingIsGeneral(h: HeaderState, index: nat, v: string)
    requires CodingKnown(h, index, v)
    ensures h.General? <==> IsLostCoding(v)
  {
  }

  /** From `c`, at a Transfer-Encoding value, the machine is past `v`, or has refused a byte of it. */
  predicate CodingOutcome(c: Config, r: Config, v: string) {
    if CodingPasses(c.p.lenient, v) then CodingRead(c, r, v) else r.last == Fail && r.p.errno == InvalidHeaderToken
  }

  lemma CodingByteRead(c: Config, r: Config, v: string, ch: char)
    requires CodingRead(c, r, v) && ch != CR && ch != LF
    requires r.p.headerState.General? || c.p.lenient || IsHeaderChar(ch)
    ensures CodingRead(c, Next(r, ch), v + [ch])
  {
    NextCoding(r.p.headerState, r.p.index, v, ch);
    ValueByteRead(r, ch, v, c.trace);
  }

  lemma NextCodingByte(c: Config, r: Config, v: string, ch: char)
    requires CodingOutcome(c, r, v) && ch != CR && ch != LF && v != []
    ensures CodingOutcome(c, Next(r, ch), v + [ch])
  {
    CodingPassesNext(c.p.lenient, v, ch);
    if CodingPasses(c.p.lenient, v) {
      LostCodingIsGeneral(r.p.headerState, r.p.index, v);
      if c.p.lenient || IsHeaderChar(ch) || IsLostCoding(v) {
        CodingByteRead(c, r, v, ch);
      } else {
        RefusedValueByte(r, ch);
      }
    }
  }

  /** A Transfer-Encoding value is accepted exactly when every byte passes that IS_HEADER_CHAR is applied to. */
  lemma {:induction false} CodingIsExact(c: Config, v: string)
    requires Running(c) && c.p.state.HeaderValueDiscardWs? && c.p.headerState.TransferEncoding? && IsValue(v)
    ensures CodingOutcome(c, Feed(c, v), v)
  {
    var t := v[..|v| - 1];
    var ch := v[|v| - 1];
    assert v == t + [ch];
    if t == [] {
      FirstValueByte(c, ch);
      FirstCoding(ch);
      FeedOne(c, ch);
    } else {
      CodingIsExact(c, t);
      NextCodingByte(c, Feed(c, t), t, ch);
    }
  }

  // ----- continuation lines ----------------------------------------------------------------------

  /** A line of a value after its first one: the line end before it, and its text, which starts with a blank. */
  datatype Continuation = Continuation(end: string, text: string)

  predicate IsContinuation(k: Continuation) {
    IsLineEnd(k.end) && k.text != [] && IsBlankByte(k.text[0]) && CR !in k.text && LF !in k.text
  }

  function MoreText(more: seq<Continuation>): string {
    if more == [] then "" else more[0].end + more[0].text + MoreText(more[1..])
  }

  /** What is handed over of it. */
  function MoreValue(more: seq<Continuation>): string {
    if more == [] then "" else more[0].text + MoreValue(more[1..])
  }

  /** Header states in which a continuation makes the header a general one. */
  predicate LosesRest(h: HeaderState) {
    h.General? || h.MatchingChunked? || h.TransferChunked? || h.MatchingToken? || MatchesConnectionToken(h) ||
    CompleteToken(h)
  }

  /** The blank that continues a header. */
  lemma FoldByte(c: Config, blank: char)
    requires Running(c) && c.p.state.HeaderValueLws? && IsBlankByte(blank) && LosesRest(c.p.headerState)
    ensures At(Next(c, blank), c.p.(state := HeaderValue, headerState := General, index := 0),
               Emit(c.trace, Data(ValueText, [blank])))
  {
    var o := ValueLwsByte(c.p, blank);
    BiteTwice(c, blank, o, ValueStartByte(o.p, blank));
  }

  /** One more byte of a value that the parser does not look at; `v` has been read of it. */
  lemma GeneralByte(c: Config, ch: char, p: Fields, trace: seq<Event>, v: string)
    requires At(c, p, Emit(trace, Data(ValueText, v))) && p.state.HeaderValue? && p.headerState.General?
    requires ch != CR && ch != LF
    ensures At(Next(c, ch), p, Emit(trace, Data(ValueText, v + [ch])))
  {
    ValueByteRead(c, ch, v, trace);
    GeneralStaysPut(p, ch);
  }

  lemma InitOf(v: string, s: string)
    requires s != [] && CR !in s && LF !in s
    ensures var t := s[..|s| - 1];
            var ch := s[|s| - 1];
            CR !in t && LF !in t && ch != CR && ch != LF && v + t + [ch] == v + s
  {
  }

  /** More of them. */
  lemma {:induction false} GeneralRest(c: Config, s: string, p: Fields, trace: seq<Event>, v: string)
    requires At(c, p, Emit(trace, Data(ValueText, v))) && p.state.HeaderValue? && p.headerState.General?
    requires CR !in s && LF !in s
    ensures At(Feed(c, s), p, Emit(trace, Data(ValueText, v + s)))
  {
    if s == [] {
      assert v + s == v;
    } else {
      var t := s[..|s| - 1];
      var ch := s[|s| - 1];
      InitOf(v, s);
      GeneralRest(c, t, p, trace, v);
      GeneralByte(Feed(c, t), ch, p, trace, v + t);
    }
  }

  /** The headers whose values are parsed. */
  predicate IsParsedState(h: HeaderState) {
    h.Connection? || h.ContentLength? || h.TransferEncoding?
  }

  function InGeneralValue(p: Fields): Fields {
    p.(state := HeaderValue, headerState := General, index := 0,
       flags := if p.headerState.Upgrade? then p.flags.(upgrade := true) else p.flags)
  }

  lemma FirstGeneralByte(c: Config, ch: char)
    requires Running(c) && c.p.state.HeaderValueDiscardWs? && ch != CR && ch != LF && !IsBlankByte(ch)
    requires IsFieldNameState(c.p.headerState) && !IsParsedState(c.p.headerState)
    ensures At(Next(c, ch), InGeneralValue(c.p), Emit(c.trace, Data(ValueText, [ch])))
  {
    FirstValueByte(c, ch);
  }

  /** A value that the parser does not look at: that of Upgrade, which sets a flag, or of a header that the parser
      does not know. */
  lemma {:induction false} GeneralValue(c: Config, v: string)
    requires Running(c) && c.p.state.HeaderValueDiscardWs? && IsValue(v)
    requires IsFieldNameState(c.p.headerState) && !IsParsedState(c.p.headerState)
    ensures At(Feed(c, v), InGeneralValue(c.p), Emit(c.trace, Data(ValueText, v)))
  {
    FirstGeneralByte(c, v[0]);
    GeneralRest(Next(c, v[0]), v[1..], InGeneralValue(c.p), c.trace, [v[0]]);
    FeedFirst(c, v[0], v[1..]);
    assert [v[0]] + v[1..] == v;
  }

  lemma JoinText(v: string, text: string)
    requires text != []
    ensures v + [text[0]] + text[1..] == v + text
  {
  }

  lemma LostBlank(c: Config, k: Continuation, p: Fields, trace: seq<Event>, v: string)
    requires At(c, p, Emit(trace, Data(ValueText, v))) && p.state.HeaderValue? && LosesRest(p.headerState)
    requires IsContinuation(k)
    ensures At(Feed(c, k.end + [k.text[0]]), p.(headerState := General, index := 0),
               Emit(trace, Data(ValueText, v + [k.text[0]])))
  {
    ValueLineEnd(c, k.end);
    FoldByte(Feed(c, k.end), k.text[0]);
    FeedLast(c, k.end, k.text[0]);
    EmitTwice(trace, ValueText, v, [k.text[0]]);
  }

  lemma {:induction false} LostContinuation(c: Config, k: Continuation, p: Fields, trace: seq<Event>, v: string)
    requires At(c, p, Emit(trace, Data(ValueText, v))) && p.state.HeaderValue? && LosesRest(p.headerState)
    requires IsContinuation(k)
    ensures At(Feed(c, k.end + k.text), p.(headerState := General, index := 0),
               Emit(trace, Data(ValueText, v + k.text)))
  {
    var start := k.end + [k.text[0]];
    var rest := k.text[1..];
    LostBlank(c, k, p, trace, v);
    GeneralRest(Feed(c, start), rest, p.(headerState := General, index := 0), trace, v + [k.text[0]]);
    FeedConcat(c, start, rest);
    JoinText(k.end, k.text);
    JoinText(v, k.text);
  }

  /** Whatever continues such a header is handed over, and changes nothing. */
  lemma {:induction false} LostContinuations(c: Config, more: seq<Continuation>, p: Fields, trace: seq<Event>,
                                             v: string)
    requires At(c, p, Emit(trace, Data(ValueText, v))) && p.state.HeaderValue? && LosesRest(p.headerState)
    requires more != [] && forall k :: k in more ==> IsContinuation(k)
    ensures At(Feed(c, MoreText(more)), p.(headerState := General, index := 0),
               Emit(trace, Data(ValueText, v + MoreValue(more))))
    decreases |more|
  {
    var k := more[0];
    LostContinuation(c, k, p, trace, v);
    assert v + k.text + MoreValue(more[1..]) == v + MoreValue(more);
    if |more| == 1 {
      assert MoreText(more) == k.end + k.text && v + MoreValue(more) == v + k.text;
    } else {
      var d := Feed(c, k.end + k.text);
      LostContinuations(d, more[1..], p.(headerState := General, index := 0), trace, v + k.text);
      FeedConcat(c, k.end + k.text, MoreText(more[1..]));
    }
  }

  // ----- whole lines -----------------------------------------------------------------------------

  /** The line end, if any, that a text ends in. */
  function LineEndOf(s: string): (end: string)
    ensures |end| <= |s| && s == s[..|s| - |end|] + end && (end == "" || IsLineEnd(end))
  {
    var n := |s|;
    if n > 1 && s[n - 2] == CR && s[n - 1] == LF then "\r\n" else if n > 0 && s[n - 1] == LF then "\n" else ""
  }

  /** What may stand between the colon and the value: blanks, and line ends that blanks follow. */
  predicate IsLead(s: string)
    decreases |s|
  {
    if s == [] then true
    else
      var t := s[..|s| - 1];
      IsBlankByte(s[|s| - 1]) && IsLead(t[..|t| - |LineEndOf(t)|])
  }

  lemma LeadBlank(c: Config, blank: char)
    requires Running(c) && (c.p.state.HeaderValueDiscardWs? || c.p.state.HeaderValueDiscardLws?) && IsBlankByte(blank)
    ensures At(Next(c, blank), c.p.(state := HeaderValueDiscardWs), c.trace)
  {
    Bite(c, blank, Micro(c.p, blank));
  }

  lemma LeadParts(s: string) returns (u: string, end: string, blank: char)
    requires s != [] && IsLead(s)
    ensures s == u + end + [blank] && IsLead(u) && (end == "" || IsLineEnd(end)) && IsBlankByte(blank)
  {
    var t := s[..|s| - 1];
    end := LineEndOf(t);
    u := t[..|t| - |end|];
    blank := s[|s| - 1];
    LastByte(s);
  }

  lemma LastByte(s: string)
    requires s != []
    ensures s == s[..|s| - 1] + [s[|s| - 1]]
  {
  }

  lemma {:induction false} LeadRead(c: Config, s: string)
    requires Running(c) && c.p.state.HeaderValueDiscardWs? && IsLead(s)
    ensures var r := Feed(c, s); Running(r) && r.p == c.p && r.trace == c.trace && (s == [] || r.last == Consume)
    decreases |s|
  {
    if s != [] {
      var u, end, blank := LeadParts(s);
      LeadRead(c, u);
      LeadStep(c, u, end, blank);
    }
  }

  /** One more blank, behind a line end or not. */
  lemma LeadStep(c: Config, u: string, end: string, blank: char)
    requires var r := Feed(c, u); Running(r) && r.p == c.p && r.trace == c.trace
    requires c.p.state.HeaderValueDiscardWs? && (end == "" || IsLineEnd(end)) && IsBlankByte(blank)
    ensures At(Feed(c, u + end + [blank]), c.p, c.trace)
  {
    FeedLast(c, u + end, blank);
    if end == "" {
      assert u + end == u;
    } else {
      EmptyLineEnd(Feed(c, u), end);
      FeedConcat(c, u, end);
    }
    LeadBlank(Feed(c, u + end), blank);
  }

  /** A header line: name, colon, blanks, value, what continues it, and the line end. */
  datatype Line = Line(name: string, lead: string, value: string, more: seq<Continuation>, end: string)

  predicate IsLine(l: Line) {
    && IsName(l.name) && IsLead(l.lead) && IsLineEnd(l.end)
    && (if l.value == [] then l.more == [] else IsValue(l.value))
    && forall k :: k in l.more ==> IsContinuation(k)
  }

  function LineText(l: Line): string {
    l.name + ":" + l.lead + l.value + MoreText(l.more) + l.end
  }

  /** The value that is handed over. */
  function WholeValue(l: Line): string {
    l.value + MoreValue(l.more)
  }

  function LineEvents(l: Line): seq<Event> {
    [Data(FieldText, l.name), Data(ValueText, WholeValue(l))]
  }

  predicate IsKnownLine(l: Line) {
    IsKnownName(Folded(l.name))
  }

  /** No header name is open at the end of the callbacks. */
  predicate NoOpenName(trace: seq<Event>) {
    trace == [] || !trace[|trace| - 1].Data? || !trace[|trace| - 1].kind.FieldText?
  }

  lemma LineStart(c: Config, l: Line)
    requires BetweenHeaders(c) && IsLine(l)
    ensures NameOver(Settled(c), Feed(c, l.name + ":" + l.lead), l.name)
  {
    var s := l.name + ":";
    assert s[0] == l.name[0] && IsToken(s[0]);
    SettledFeed(c, s);
    NameSegment(Settled(c), l.name);
    LeadRead(Feed(c, s), l.lead);
    FeedConcat(c, s, l.lead);
  }

  /** The end of a line, after a value that has been read from `c`. */
  lemma LineFinish(r: Config, end: string)
    requires Running(r) && r.p.state.HeaderValue? && IsLineEnd(end)
    ensures var e := Feed(r, end);
            && BetweenHeaders(e) && Settled(e).trace == r.trace
            && Settled(e).p == r.p.(state := HeaderFieldStart, flags := FinishedFlags(r.p.headerState, r.p.flags))
  {
    ValueLineEnd(r, end);
  }

  lemma EmptyFinish(r: Config, end: string)
    requires Running(r) && r.p.state.HeaderValueDiscardWs? && IsFieldNameState(r.p.headerState) && IsLineEnd(end)
    ensures var e := Feed(r, end);
            && BetweenHeaders(e) && Settled(e).trace == Emit(r.trace, Data(ValueText, []))
            && Settled(e).p == r.p.(state := HeaderFieldStart)
  {
    EmptyLineEnd(r, end);
  }

  lemma LineEmits(trace: seq<Event>, name: string, value: string)
    requires NoOpenName(trace)
    ensures Emit(Emit(trace, Data(FieldText, name)), Data(ValueText, value))
         == trace + [Data(FieldText, name), Data(ValueText, value)]
  {
  }

  /** A line did nothing but make its two callbacks, and change `p` into `q`. */
  predicate LineDone(c: Config, e: Config, l: Line, q: Fields) {
    && BetweenHeaders(e) && Settled(e).trace == Settled(c).trace + LineEvents(l)
    && Settled(e).p == q.(headerState := e.p.headerState, index := e.p.index)
  }

  lemma LineParts(c: Config, l: Line)
    ensures Feed(c, LineText(l)) == Feed(Feed(Feed(Feed(c, l.name + ":" + l.lead), l.value), MoreText(l.more)), l.end)
  {
    FeedConcat(c, l.name + ":" + l.lead, l.value);
    FeedConcat(c, l.name + ":" + l.lead + l.value, MoreText(l.more));
    FeedConcat(c, l.name + ":" + l.lead + l.value + MoreText(l.more), l.end);
  }

  /** The rest of a line after its value, if a continuation makes the header a general one. */
  lemma LostRest(r: Config, l: Line, p: Fields, trace: seq<Event>)
    requires At(r, p, Emit(trace, Data(ValueText, l.value))) && p.state.HeaderValue? && LosesRest(p.headerState)
    requires IsLine(l)
    ensures var e := Feed(Feed(r, MoreText(l.more)), l.end);
            && BetweenHeaders(e) && Settled(e).trace == Emit(trace, Data(ValueText, WholeValue(l)))
            && Settled(e).p == p.(state := HeaderFieldStart, headerState := e.p.headerState, index := e.p.index,
                                  flags := if l.more == [] then FinishedFlags(p.headerState, p.flags) else p.flags)
  {
    if l.more == [] {
      assert WholeValue(l) == l.value;
    } else {
      LostContinuations(r, l.more, p, trace, l.value);
    }
    LineFinish(Feed(r, MoreText(l.more)), l.end);
  }

  /** A line without a value does nothing, whatever its name. */
  lemma EmptyLine(c: Config, l: Line)
    requires BetweenHeaders(c) && IsLine(l) && l.value == [] && NoOpenName(Settled(c).trace)
    ensures LineDone(c, Feed(c, LineText(l)), l, Settled(c).p)
  {
    var d := Feed(c, l.name + ":" + l.lead);
    LineStart(c, l);
    LineParts(c, l);
    LineEmits(Settled(c).trace, l.name, WholeValue(l));
    assert l.value == "" && MoreText(l.more) == "" && WholeValue(l) == "";
    EmptyFinish(d, l.end);
  }

  /** A line whose value the parser does not look at.  An Upgrade line with a value sets F_UPGRADE; any other
      line that the parser does not know changes nothing. */
  lemma GeneralLine(c: Config, l: Line)
    requires BetweenHeaders(c) && IsLine(l) && l.value != [] && NoOpenName(Settled(c).trace)
    requires !IsKnownLine(l) || Folded(l.name) == "upgrade"
    ensures var p := Settled(c).p;
            LineDone(c, Feed(c, LineText(l)), l,
                     p.(flags := p.flags.(upgrade := p.flags.upgrade || Folded(l.name) == "upgrade")))
  {
    var d := Feed(c, l.name + ":" + l.lead);
    LineStart(c, l);
    LineParts(c, l);
    LineEmits(Settled(c).trace, l.name, WholeValue(l));
    GeneralValue(d, l.value);
    LostRest(Feed(d, l.value), l, InGeneralValue(d.p), d.trace);
  }

  /** A Content-Length line that is not continued. */
  lemma LengthLine(c: Config, l: Line)
    requires BetweenHeaders(c) && IsLine(l) && Folded(l.name) == "content-length" && NoOpenName(Settled(c).trace)
    requires IsNumeral(l.value) && Decimal(l.value) <= MAX_CONTENT_LENGTH && !Settled(c).p.flags.contentLength
    requires l.more == []
    ensures var p := Settled(c).p;
            LineDone(c, Feed(c, LineText(l)), l,
                     p.(contentLength := Decimal(l.value), flags := p.flags.(contentLength := true)))
  {
    var d := Feed(c, l.name + ":" + l.lead);
    LineStart(c, l);
    LineParts(c, l);
    LineEmits(Settled(c).trace, l.name, WholeValue(l));
    ContentLengthIsExact(d, l.value);
    assert WholeValue(l) == l.value;
    LineFinish(Feed(d, l.value), l.end);
  }

  function LengthLineOf(n: nat): Line {
    Line("Content-Length", " ", DecimalText(n), [], "\r\n")
  }

  lemma LengthName()
    ensures IsName("Content-Length") && Folded("Content-Length") == "content-length"
  {
  }

  lemma LengthLineIs(n: nat)
    ensures IsLine(LengthLineOf(n)) && Folded(LengthLineOf(n).name) == "content-length"
    ensures IsNumeral(LengthLineOf(n).value) && Decimal(LengthLineOf(n).value) == n
  {
    LengthName();
    DecimalIsRead(n);
    assert forall ch :: ch in DecimalText(n) ==> IsNum(ch);
    assert IsLead(" ");
  }

  lemma LengthLineText(n: nat)
    ensures LineText(LengthLineOf(n)) == "Content-Length: " + DecimalText(n) + "\r\n"
  {
    assert MoreText([]) == "" && "Content-Length" + ":" + " " == "Content-Length: ";
  }

  /** A printed length is read as its number. */
  lemma PrintedLengthRead(c: Config, n: nat)
    requires BetweenHeaders(c) && NoOpenName(Settled(c).trace) && !Settled(c).p.flags.contentLength
    ensures var r := Feed(c, "Content-Length: " + DecimalText(n) + "\r\n");
            if n <= MAX_CONTENT_LENGTH then
              var p := Settled(c).p;
              LineDone(c, r, LengthLineOf(n), p.(contentLength := n, flags := p.flags.(contentLength := true)))
            else r.last == Fail
  {
    LengthLineIs(n);
    LengthLineText(n);
    if n <= MAX_CONTENT_LENGTH {
      LengthLine(c, LengthLineOf(n));
    } else {
      LengthTooLong(c, LengthLineOf(n));
    }
  }

  lemma LengthTooLong(c: Config, l: Line)
    requires BetweenHeaders(c) && IsLine(l) && Folded(l.name) == "content-length" && !Settled(c).p.flags.contentLength
    requires IsNumeral(l.value) && Decimal(l.value) > MAX_CONTENT_LENGTH
    ensures Feed(c, LineText(l)).last == Fail
  {
    var d := Feed(c, l.name + ":" + l.lead);
    LineStart(c, l);
    LineParts(c, l);
    ContentLengthIsExact(d, l.value);
    FailsOn(Feed(d, l.value), MoreText(l.more));
    FailsOn(Feed(d, l.value), l.end);
  }

  /** A Content-Length line cannot be continued: the blank that would do so is refused. */
  lemma ContinuedLength(c: Config, v: string, end: string, blank: char)
    requires Running(c) && ReadsLength(c.p) && IsValue(v) && IsLineEnd(end) && IsBlankByte(blank)
    requires IsNumeral(v) && Decimal(v) <= MAX_CONTENT_LENGTH
    ensures var r := Feed(c, v + end + [blank]); r.last == Fail && r.p.errno == InvalidContentLength
  {
    ContentLengthIsExact(c, v);
    FeedConcat(c, v, end);
    ValueLineEnd(Feed(c, v), end);
    FeedLast(c, v + end, blank);
    RefusedBlank(Feed(c, v + end), blank);
  }

  lemma RefusedBlank(c: Config, blank: char)
    requires Running(c) && c.p.state.HeaderValueLws? && c.p.headerState.ContentLength? && IsBlankByte(blank)
    ensures Next(c, blank).last == Fail && Next(c, blank).p.errno == InvalidContentLength
  {
    var o := ValueLwsByte(c.p, blank);
    BiteTwice(c, blank, o, ValueStartByte(o.p, blank));
  }

  /** A Transfer-Encoding line sets F_CHUNKED exactly when it is not continued and its value is `chunked`, in any
      case, and spaces. */
  lemma CodingLine(c: Config, l: Line)
    requires BetweenHeaders(c) && IsLine(l) && Folded(l.name) == "transfer-encoding" && NoOpenName(Settled(c).trace)
    requires l.value != []
    requires CodingPasses(c.p.lenient, l.value)
    ensures var p := Settled(c).p;
            LineDone(c, Feed(c, LineText(l)), l,
                     p.(flags := p.flags.(chunked := p.flags.chunked || (l.more == [] && IsChunkedValue(l.value)))))
  {
    var d := Feed(c, l.name + ":" + l.lead);
    LineStart(c, l);
    LineParts(c, l);
    LineEmits(Settled(c).trace, l.name, WholeValue(l));
    CodingIsExact(d, l.value);
    var r := Feed(d, l.value);
    LostRest(r, l, r.p, d.trace);
    CodingFlags(r.p.headerState, r.p.index, l.value, d.p.flags);
  }

  lemma CodingFlags(h: HeaderState, index: nat, v: string, flags: Flags)
    requires CodingKnown(h, index, v)
    ensures FinishedFlags(h, flags) == flags.(chunked := flags.chunked || IsChunkedValue(v))
  {
    CodingDecides(h, index, v);
  }

  /** A Transfer-Encoding line that is continued sets nothing, up to the end of the header and beyond. */
  lemma ContinuedCoding(c: Config, l: Line)
    requires BetweenHeaders(c) && IsLine(l) && Folded(l.name) == "transfer-encoding" && NoOpenName(Settled(c).trace)
    requires l.more != []
    requires CodingPasses(c.p.lenient, l.value)
    ensures LineDone(c, Feed(c, LineText(l)), l, Settled(c).p)
  {
    CodingLine(c, l);
  }

  /** The callbacks do not show whether a value was continued, and so do not determine the flags: of two lines with the
      same callbacks, only the one that is not continued sets F_CHUNKED. */
  lemma FlagsAreNotShown(c: Config, l: Line, m: Line)
    requires BetweenHeaders(c) && NoOpenName(Settled(c).trace) && !Settled(c).p.flags.chunked
    requires CodingPasses(c.p.lenient, l.value) && CodingPasses(c.p.lenient, m.value)
    requires IsLine(l) && IsLine(m) && Folded(l.name) == "transfer-encoding" && m.name == l.name
    requires l.more == [] && IsChunkedValue(l.value) && m.more != [] && WholeValue(l) == WholeValue(m)
    ensures LineEvents(l) == LineEvents(m)
    ensures Settled(Feed(c, LineText(l))).p.flags.chunked && !Settled(Feed(c, LineText(m))).p.flags.chunked
  {
    CodingLine(c, l);
    ContinuedCoding(c, m);
  }

  /** There are such lines. */
  lemma SameWholeValue(name: string)
    requires IsName(name)
    ensures var l := Line(name, "", "chunked ", [], "\r\n");
            var m := Line(name, "", "chunked", [Continuation("\r\n", " ")], "\r\n");
            IsLine(l) && IsLine(m) && IsChunkedValue(l.value) && WholeValue(l) == WholeValue(m)
  {
    OneContinuation(Continuation("\r\n", " "));
    ChunkedAndSpace("chunked");
    assert "chunked" + " " == "chunked ";
    assert "chunked " + MoreValue([]) == "chunked ";
  }

  lemma OneContinuation(k: Continuation)
    ensures MoreValue([k]) == k.text
  {
    assert [k][1..] == [] && k.text + "" == k.text;
  }

  lemma ChunkedAndSpace(v: string)
    requires v == "chunked"
    ensures IsChunkedValue(v + " ")
  {
    TrimEndNext(v, ' ');
    var w := Folded(v);
    assert w == v;
  }
}
