/** The way back from what the parser accepts to what was printed: header lines. */
module AcceptedLines {
  import opened Ascii
  import opened HttpTypes
  import opened ByteMachine
  import opened Invariant
  import opened Text
  import opened Evidence
  import opened Promises
  import opened Segments
  import opened HeaderLines
  import opened ConnectionLists
  import opened HeaderBlocks
  import opened Refusals
  import opened Acceptance

  /** The text does not start with a blank, which would continue a header. */
  predicate StartsFresh(s: string) {
    s != [] && !IsBlankByte(s[0])
  }

  // ----- the name ----------------------------------------------------------------------------------

  lemma {:induction false} AcceptsSettled(c: Config, s: string)
    requires BetweenHeaders(c) && Accepts(c, s) && StartsFresh(s)
    ensures Accepts(Settled(c), s)
  {
    assert Unfold(0);
    SettledFeed(c, s);
  }

  lemma {:induction false} SplitName(c: Config, s: string) returns (name: string, rest: string)
    requires BetweenHeaders(c) && Accepts(c, s) && StartsFresh(s) && s[0] != CR && s[0] != LF
    ensures s == name + ":" + rest && IsName(name)
    ensures NameOver(Settled(c), Feed(c, name + ":"), name) && Accepts(Feed(c, name + ":"), rest)
  {
    AcceptsSettled(c, s);
    name, rest := SplitNameFrom(Settled(c), s);
    SettledFeed(c, name + ":");
  }

  lemma {:induction false} SplitNameFrom(d: Config, s: string) returns (name: string, rest: string)
    requires Running(d) && d.p.state.HeaderFieldStart? && Accepts(d, s) && s != [] && s[0] != CR && s[0] != LF
    ensures s == name + ":" + rest && IsName(name)
    ensures NameOver(d, Feed(d, name + ":"), name) && Accepts(Feed(d, name + ":"), rest)
  {
    var more;
    AcceptsNext(d, s);
    if !IsToken(s[0]) {
      NameRefused(d, s[0]);
    }
    name, more := SplitSpan(ch => IsToken(ch), s);
    assert name != [] && name[0] == s[0];
    AcceptsRest(d, name, more);
    NameRead(d, name);
    rest := ColonIsNext(Feed(d, name), more);
    NameSegment(d, name);
    FeedLast(d, name, ':');
    TwoParts(name, ":", rest);
  }

  lemma {:induction false} ColonIsNext(d: Config, s: string) returns (rest: string)
    requires Running(d) && d.p.state.HeaderField? && Accepts(d, s) && (s != [] ==> !IsToken(s[0]))
    ensures s == ":" + rest && Accepts(Next(d, ':'), rest)
  {
    AcceptsNext(d, s);
    if s[0] != ':' {
      NameRefused(d, s[0]);
    }
    rest := s[1..];
  }

  // ----- what stands in front of the value -----------------------------------------------------------

  lemma {:induction false} LeadGrows(lead: string, end: string, blank: char)
    requires IsLead(lead) && (end == "" || IsLineEnd(end)) && IsBlankByte(blank)
    ensures IsLead(lead + end + [blank])
  {
    var s, t := lead + end + [blank], lead + end;
    assert s[..|s| - 1] == t;
    if lead != [] {
      assert IsBlankByte(lead[|lead| - 1]);
      assert t[|lead| - 1] == lead[|lead| - 1];
    }
    LineEndOfLead(lead, end);
    assert t[..|t| - |end|] == lead;
  }

  lemma LineEndOfLead(lead: string, end: string)
    requires (lead != [] ==> IsBlankByte(lead[|lead| - 1])) && (end == "" || IsLineEnd(end))
    ensures LineEndOf(lead + end) == end
  {
    var t := lead + end;
    if end == "" {
      assert t == lead;
    } else if end == "\n" {
      assert t[|t| - 1] == LF && (lead != [] ==> t[|t| - 2] == lead[|lead| - 1]);
    } else {
      assert t[|t| - 1] == LF && t[|t| - 2] == CR;
    }
  }

  lemma EmptyEndRefused(d: Config)
    requires Running(d) && d.p.state.HeaderValueDiscardWs?
    ensures !IsBetween(Next(d, CR).p.state)
    ensures forall ch :: ch != LF ==> !Running(Next(Next(d, CR), ch))
  {
    Bite(d, CR, DiscardWsByte(d.p, CR));
    forall ch | ch != LF
      ensures !Running(Next(Next(d, CR), ch))
    {
      LineEndRefused(Next(d, CR), ch);
    }
  }

  /** IsLead, for proofs that only pass it on. */
  ghost predicate IsLeadText(s: string) {
    forall key {:trigger Unfold(key)} :: Unfold(key) ==> IsLead(s)
  }

  lemma {:induction false} LeadTextGrows(lead: string, end: string, blank: char)
    requires IsLeadText(lead) && (end == "" || IsLineEnd(end)) && IsBlankByte(blank)
    ensures IsLeadText(lead + end + [blank])
  {
    assert Unfold(0);
    LeadGrows(lead, end, blank);
  }

  lemma {:induction false} LeadTextRead(c: Config, s: string)
    requires Running(c) && c.p.state.HeaderValueDiscardWs? && IsLeadText(s)
    ensures var r := Feed(c, s); Running(r) && r.p == c.p && r.trace == c.trace
  {
    assert Unfold(0);
    LeadRead(c, s);
  }

  /** Where the lead ends: with the value, or with the line end of a line without one. */
  ghost predicate LeadEnds(c: Config, lead: string, end: string, rest: string) {
    && IsLeadText(lead) && Accepts(Feed(c, lead + end), rest) && StartsFresh(rest)
    && if end == "" then IsTextByte(rest[0]) else IsLineEnd(end)
  }

  lemma {:induction false} SplitLead(c: Config, acc: string, s: string)
    returns (lead: string, end: string, rest: string)
    requires Running(c) && c.p.state.HeaderValueDiscardWs? && IsLeadText(acc) && Accepts(Feed(c, acc), s)
    ensures acc + s == lead + end + rest && LeadEnds(c, lead, end, rest)
    decreases |s|
  {
    LeadTextRead(c, acc);
    AcceptsNext(Feed(c, acc), s);
    assert acc + "" == acc;
    if IsBlankByte(s[0]) {
      MoreLead(c, acc, "", s);
      lead, end, rest := SplitLead(c, acc + "" + [s[0]], s[1..]);
    } else if s[0] == CR || s[0] == LF {
      var behind;
      end, behind := SplitEmptyEnd(c, acc, s);
      if IsBlankByte(behind[0]) {
        MoreLead(c, acc, end, behind);
        lead, end, rest := SplitLead(c, acc + end + [behind[0]], behind[1..]);
      } else {
        lead, rest := acc, behind;
      }
    } else {
      lead, end, rest := acc, "", s;
    }
  }

  lemma {:induction false} SplitEmptyEnd(c: Config, acc: string, s: string) returns (end: string, rest: string)
    requires Running(c) && c.p.state.HeaderValueDiscardWs? && IsLeadText(acc) && Accepts(Feed(c, acc), s)
    requires s != [] && (s[0] == CR || s[0] == LF)
    ensures acc + s == acc + end + rest && |rest| < |s| && IsLineEnd(end)
    ensures Accepts(Feed(c, acc + end), rest) && rest != []
  {
    var d := Feed(c, acc);
    LeadTextRead(c, acc);
    EmptyEndRefused(d);
    end, rest := SplitEnd(d, s);
    EmptyLineEnd(d, end);
    AcceptsNext(Feed(d, end), rest);
    FeedConcat(c, acc, end);
    TwoParts(acc, end, rest);
  }

  /** A blank that goes on with the lead. */
  lemma {:induction false} MoreLead(c: Config, acc: string, end: string, s: string)
    requires IsLeadText(acc) && (end == "" || IsLineEnd(end))
    requires Accepts(Feed(c, acc + end), s) && s != [] && IsBlankByte(s[0])
    ensures var more := acc + end + [s[0]];
            IsLeadText(more) && Accepts(Feed(c, more), s[1..]) && more + s[1..] == acc + end + s
  {
    AcceptsFirst(Feed(c, acc + end), s);
    LeadTextGrows(acc, end, s[0]);
    FeedLast(c, acc + end, s[0]);
  }

  // ----- the value -----------------------------------------------------------------------------------

  predicate IsTextByte(ch: char) {
    ch != CR && ch != LF
  }

  lemma ValueStays(p: Fields, ch: char)
    requires (p.state.HeaderValueDiscardWs? && !IsBlankByte(ch)) || p.state.HeaderValue? || p.state.HeaderValueStart?
    requires IsTextByte(ch)
    ensures Micro(p, ch).act != Reexecute && (Micro(p, ch).act == Consume ==> Micro(p, ch).p.state.HeaderValue?)
    ensures Micro(p, ch).act != Exit
  {
  }

  /** Within a value the machine stays there up to the next line end. */
  lemma {:induction false} TextStays(c: Config, s: string)
    requires Running(Feed(c, s)) && CR !in s && LF !in s && (s != [] || c.p.state.HeaderValue?)
    requires c.p.state.HeaderValue? || (c.p.state.HeaderValueDiscardWs? && !IsBlankByte(s[0]))
    ensures Feed(c, s).p.state.HeaderValue?
  {
    if s != [] {
      var t, ch := s[..|s| - 1], s[|s| - 1];
      InitOf([], s);
      if t != [] {
        if !Running(Feed(c, t)) {
          FailsOn(Feed(c, t), [ch]);
        } else {
          TextStays(c, t);
        }
      }
      if Running(Feed(c, t)) {
        ValueStays(Feed(c, t).p, ch);
        Bite(Feed(c, t), ch, Micro(Feed(c, t).p, ch));
      }
    }
  }

  lemma {:induction false} SplitValue(d: Config, s: string) returns (v: string, rest: string)
    requires Running(d) && d.p.state.HeaderValueDiscardWs? && Accepts(d, s) && StartsFresh(s) && IsTextByte(s[0])
    ensures s == v + rest && IsValue(v) && Running(Feed(d, v)) && Feed(d, v).p.state.HeaderValue?
    ensures Accepts(Feed(d, v), rest) && rest != [] && !IsTextByte(rest[0])
  {
    v, rest := SplitSpan(ch => IsTextByte(ch), s);
    assert v != [] && v[0] == s[0];
    AcceptsRest(d, v, rest);
    TextStays(d, v);
    AcceptsNext(Feed(d, v), rest);
  }

  /** What is accepted of a value, by the name of its header. */
  predicate ValueFits(lenient: bool, flags: Flags, name: string, v: string) {
    && (Folded(name) == "content-length" ==>
          IsNumeral(v) && Decimal(v) <= MAX_CONTENT_LENGTH && !flags.contentLength)
    && (Folded(name) == "transfer-encoding" ==> CodingPasses(lenient, v))
    && (IsConnectionName(name) ==> ListPasses(lenient, v))
  }

  lemma {:induction false} ValueIsFit(d: Config, name: string, v: string)
    requires Running(d) && d.p.state.HeaderValueDiscardWs? && NameDecides(d.p.headerState, Folded(name)) && IsValue(v)
    requires Running(Feed(d, v))
    ensures ValueFits(d.p.lenient, d.p.flags, name, v)
  {
    if d.p.headerState.ContentLength? {
      LengthIsFit(d, v);
    } else if d.p.headerState.TransferEncoding? {
      CodingIsExact(d, v);
    } else if d.p.headerState.Connection? {
      ListIsExact(d, v);
    }
  }

  lemma {:induction false} LengthIsFit(d: Config, v: string)
    requires Running(d) && d.p.state.HeaderValueDiscardWs? && d.p.headerState.ContentLength? && IsValue(v)
    requires Running(Feed(d, v))
    ensures IsNumeral(v) && Decimal(v) <= MAX_CONTENT_LENGTH && !d.p.flags.contentLength
  {
    if d.p.flags.contentLength {
      SecondLengthRefused(d, v[0]);
      FeedFirst(d, v[0], v[1..]);
      assert v == [v[0]] + v[1..];
      FailsOn(Next(d, v[0]), v[1..]);
    } else {
      ContentLengthIsExact(d, v);
    }
  }

  // ----- continuation lines --------------------------------------------------------------------------

  lemma ValueEndRefused(d: Config)
    requires Running(d) && d.p.state.HeaderValue?
    ensures !IsBetween(Next(d, CR).p.state)
    ensures forall ch :: ch != LF ==> !Running(Next(Next(d, CR), ch))
  {
    ValueCR(d);
    forall ch | ch != LF
      ensures !Running(Next(Next(d, CR), ch))
    {
      LineEndRefused(Next(d, CR), ch);
    }
  }

  /** A line end behind a value, and what comes next. */
  lemma {:induction false} SplitValueEnd(r: Config, s: string) returns (end: string, rest: string)
    requires Running(r) && r.p.state.HeaderValue? && Accepts(r, s) && s != [] && !IsTextByte(s[0])
    ensures s == end + rest && IsLineEnd(end) && Accepts(Feed(r, end), rest) && rest != []
    ensures Running(Feed(r, end)) && Feed(r, end).p == r.p.(state := HeaderValueLws)
  {
    ValueEndRefused(r);
    end, rest := SplitEnd(r, s);
    ValueLineEnd(r, end);
    AcceptsNext(Feed(r, end), rest);
  }

  lemma FoldIsValue(c: Config, blank: char)
    requires Running(c) && c.p.state.HeaderValueLws? && IsBlankByte(blank) && Running(Next(c, blank))
    ensures Next(c, blank).p.state.HeaderValue?
  {
    var o := ValueLwsByte(c.p, blank);
    ValueStays(o.p, blank);
    BiteTwice(c, blank, o, ValueStartByte(o.p, blank));
  }

  /** What is left of a line of a value. */
  lemma {:induction false} SplitText(d: Config, s: string) returns (text: string, rest: string)
    requires Running(d) && d.p.state.HeaderValue? && Accepts(d, s)
    ensures s == text + rest && CR !in text && LF !in text && rest != [] && !IsTextByte(rest[0])
    ensures Running(Feed(d, text)) && Feed(d, text).p.state.HeaderValue? && Accepts(Feed(d, text), rest)
  {
    text, rest := SplitSpan(ch => IsTextByte(ch), s);
    AcceptsRest(d, text, rest);
    TextStays(d, text);
    AcceptsNext(Feed(d, text), rest);
  }

  /** The text of a continuation. */
  lemma {:induction false} SplitContinuation(e: Config, s: string) returns (text: string, rest: string)
    requires Running(e) && e.p.state.HeaderValueLws? && Accepts(e, s) && s != [] && IsBlankByte(s[0])
    ensures s == text + rest && text != [] && IsBlankByte(text[0]) && CR !in text && LF !in text
    ensures Running(Feed(e, text)) && Feed(e, text).p.state.HeaderValue? && Accepts(Feed(e, text), rest)
    ensures rest != [] && !IsTextByte(rest[0])
  {
    var more;
    AcceptsFirst(e, s);
    FoldIsValue(e, s[0]);
    more, rest := SplitText(Next(e, s[0]), s[1..]);
    text := [s[0]] + more;
    FeedFirst(e, s[0], more);
    TwoParts([s[0]], more, rest);
  }

  /** Continuations and their text. */
  ghost predicate AreMore(more: seq<Continuation>, text: string) {
    forall key {:trigger Unfold(key)} :: Unfold(key) ==>
      text == MoreText(more) && forall k :: k in more ==> IsContinuation(k)
  }

  lemma {:induction false} MoreGrow(k: Continuation, more: seq<Continuation>, text: string)
    requires AreMore(more, text) && IsContinuation(k)
    ensures AreMore([k] + more, k.end + k.text + text)
  {
    assert Unfold(0);
    assert ([k] + more)[1..] == more;
  }

  lemma NoMore()
    ensures AreMore([], "")
  {
  }

  lemma {:induction false} SplitMore(r: Config, s: string)
    returns (more: seq<Continuation>, text: string, end: string, rest: string)
    requires Running(r) && r.p.state.HeaderValue? && Accepts(r, s) && s != [] && !IsTextByte(s[0])
    ensures s == text + end + rest && AreMore(more, text) && IsLineEnd(end) && StartsFresh(rest)
    ensures Running(Feed(r, text)) && Feed(r, text).p.state.HeaderValue? && Accepts(Feed(Feed(r, text), end), rest)
    decreases |s|
  {
    var behind;
    end, behind := SplitValueEnd(r, s);
    if IsBlankByte(behind[0]) {
      var first, next := SplitContinuation(Feed(r, end), behind);
      var k := Continuation(end, first);
      var others, tail;
      FeedConcat(r, k.end, k.text);
      others, tail, end, rest := SplitMore(Feed(r, k.end + k.text), next);
      MoreGrow(k, others, tail);
      more, text := [k] + others, k.end + k.text + tail;
      FeedConcat(r, k.end + k.text, tail);
      FiveParts(k.end, k.text, tail, end, rest);
    } else {
      more, text, rest := [], "", behind;
      NoMore();
      assert "" + end == end;
    }
  }

  lemma FiveParts(a: string, b: string, c: string, d: string, e: string)
    ensures a + (b + (c + d + e)) == a + b + c + d + e
  {
  }

  /** A list that goes on where an element is still to start is read on. */
  lemma {:induction false} MoreIsFit(c: Config, r: Config, v: string, w: string, more: seq<Continuation>)
    requires ListRead(c, r, v, w) && (forall k :: k in more ==> IsContinuation(k)) && Running(Feed(r, MoreText(more)))
    ensures MorePasses(c.p.lenient, w, more)
    decreases |more|
  {
    if more != [] && AwaitsElement(w) {
      var k := more[0];
      FeedConcat(r, k.end + k.text, MoreText(more[1..]));
      if !Running(Feed(r, k.end + k.text)) {
        FailsOn(Feed(r, k.end + k.text), MoreText(more[1..]));
      }
      ContinuationIsFit(c, r, v, w, k);
      MoreIsFit(c, Feed(r, k.end + k.text), v + k.text, JoinedList(w, k.text), more[1..]);
    }
  }

  lemma {:induction false} ContinuationIsFit(c: Config, r: Config, v: string, w: string, k: Continuation)
    requires ListRead(c, r, v, w) && AwaitsElement(w) && IsContinuation(k) && Running(Feed(r, k.end + k.text))
    ensures RestPasses(c.p.lenient, w + " ", k.text[1..])
    ensures ListRead(c, Feed(r, k.end + k.text), v + k.text, JoinedList(w, k.text))
  {
    var blank, rest := [k.text[0]], k.text[1..];
    BlankOfList(c, r, v, w, k);
    RestOfList(c, Feed(r, k.end + blank), v + blank, w + " ", rest);
    FeedConcat(r, k.end + blank, rest);
    JoinText(k.end, k.text);
    JoinText(v, k.text);
  }

  lemma BlankFirst(k: Continuation, tail: string) returns (rest: string)
    requires k.text != []
    ensures k.end + k.text + tail == k.end + [k.text[0]] + rest
  {
    rest := k.text[1..] + tail;
    assert k.text == [k.text[0]] + k.text[1..];
  }

  lemma {:induction false} LengthRefusesMore(r: Config, k: Continuation, tail: string)
    requires Running(r) && r.p.state.HeaderValue? && r.p.headerState.ContentLength? && IsContinuation(k)
    ensures !Running(Feed(r, k.end + k.text + tail))
  {
    var rest := BlankFirst(k, tail);
    ValueLineEnd(r, k.end);
    RefusedBlank(Feed(r, k.end), k.text[0]);
    FeedLast(r, k.end, k.text[0]);
    FeedConcat(r, k.end + [k.text[0]], rest);
    FailsOn(Feed(r, k.end + [k.text[0]]), rest);
  }

  lemma {:induction false} LengthHasNoMore(r: Config, more: seq<Continuation>)
    requires Running(r) && r.p.state.HeaderValue? && r.p.headerState.ContentLength?
    requires (forall k :: k in more ==> IsContinuation(k)) && Running(Feed(r, MoreText(more)))
    ensures more == []
  {
    if more != [] {
      assert more[0] in more;
      LengthRefusesMore(r, more[0], MoreText(more[1..]));
    }
  }

  // ----- whole lines ---------------------------------------------------------------------------------

  /** What is accepted of the continuations of a value. */
  lemma {:induction false} RestIsFit(d: Config, name: string, v: string, more: seq<Continuation>)
    requires Running(d) && d.p.state.HeaderValueDiscardWs? && NameDecides(d.p.headerState, Folded(name)) && IsValue(v)
    requires (forall k :: k in more ==> IsContinuation(k))
    requires Running(Feed(d, v)) && Feed(d, v).p.state.HeaderValue? && Running(Feed(Feed(d, v), MoreText(more)))
    ensures Folded(name) == "content-length" ==> more == []
    ensures IsConnectionName(name) ==> MorePasses(d.p.lenient, v, more)
  {
    if d.p.headerState.ContentLength? {
      LengthIsFit(d, v);
      ContentLengthIsExact(d, v);
      LengthHasNoMore(Feed(d, v), more);
    } else if d.p.headerState.Connection? {
      ListIsExact(d, v);
      MoreIsFit(d, Feed(d, v), v, v, more);
    }
  }

  /** A line that has been read, and what follows it. */
  ghost predicate LineIsSplit(c: Config, s: string, lenient: bool, flags: Flags, l: Line, rest: string) {
    forall key {:trigger Unfold(key)} :: Unfold(key) ==>
      && s == LineText(l) + rest && IsReadable(lenient, flags, l)
      && Accepts(Feed(c, LineText(l)), rest) && StartsFresh(rest)
  }

  /** A line without a value. */
  lemma {:induction false} EmptyLineIsSplit(c: Config, s: string, flags: Flags, name: string, lead: string, end: string,
                                            rest: string) returns (l: Line)
    requires IsName(name) && s == name + ":" + (lead + end + rest) && end != ""
    requires LeadEnds(Feed(c, name + ":"), lead, end, rest)
    ensures LineIsSplit(c, s, c.p.lenient, flags, l, rest)
  {
    assert Unfold(0);
    l := Line(name, lead, [], [], end);
    FeedConcat(c, name + ":", lead + end);
    EmptyLineText(l);
    TwoParts(name + ":", lead + end, rest);
  }

  lemma EmptyLineText(l: Line)
    requires l.value == [] && l.more == []
    ensures LineText(l) == l.name + ":" + (l.lead + l.end)
  {
    assert MoreText([]) == "" && l.name + ":" + l.lead + "" + "" == l.name + ":" + l.lead;
  }

  /** A line with a value. */
  lemma {:induction false} ValueLineIsSplit(c: Config, s: string, d: Config, l: Line, text: string, rest: string)
    requires IsName(l.name) && IsLeadText(l.lead) && IsLineEnd(l.end) && IsValue(l.value) && AreMore(l.more, text)
    requires s == l.name + ":" + l.lead + l.value + text + l.end + rest && StartsFresh(rest)
    requires d == Feed(c, l.name + ":" + l.lead) && Running(d) && d.p.state.HeaderValueDiscardWs?
    requires NameDecides(d.p.headerState, Folded(l.name)) && Running(Feed(d, l.value))
    requires Feed(d, l.value).p.state.HeaderValue? && Running(Feed(Feed(d, l.value), text))
    requires Accepts(Feed(Feed(Feed(d, l.value), text), l.end), rest)
    ensures LineIsSplit(c, s, d.p.lenient, d.p.flags, l, rest)
  {
    assert Unfold(0);
    ValueIsFit(d, l.name, l.value);
    RestIsFit(d, l.name, l.value, l.more);
    LineParts(c, l);
  }

  lemma {:induction false} SplitLeadOf(d: Config, s: string) returns (lead: string, end: string, rest: string)
    requires Running(d) && d.p.state.HeaderValueDiscardWs? && Accepts(d, s)
    ensures s == lead + end + rest && LeadEnds(d, lead, end, rest)
  {
    assert Feed(d, "") == d && "" + s == s;
    lead, end, rest := SplitLead(d, "", s);
  }

  lemma {:induction false} SplitLine(c: Config, s: string) returns (l: Line, rest: string)
    requires BetweenHeaders(c) && Accepts(c, s) && StartsFresh(s) && IsTextByte(s[0])
    ensures LineIsSplit(c, s, Settled(c).p.lenient, Settled(c).p.flags, l, rest)
  {
    var name, s1 := SplitName(c, s);
    var lead, end, s2 := SplitLeadOf(Feed(c, name + ":"), s1);
    if end == "" {
      l, rest := SplitValueLine(c, s, name, lead, s1, s2);
    } else {
      rest := s2;
      l := EmptyLineIsSplit(c, s, Settled(c).p.flags, name, lead, end, rest);
    }
  }

  lemma {:induction false} LeadWithValue(c: Config, name: string, lead: string, s1: string, s2: string)
    requires BetweenHeaders(c) && NameOver(Settled(c), Feed(c, name + ":"), name)
    requires s1 == lead + "" + s2 && LeadEnds(Feed(c, name + ":"), lead, "", s2)
    ensures s1 == lead + s2
    ensures var d, q := Feed(c, name + ":" + lead), Settled(c).p;
            && Running(d) && d.p == Feed(c, name + ":").p && d.p.state.HeaderValueDiscardWs? && Accepts(d, s2)
            && d.p.lenient == q.lenient && d.p.flags == q.flags
            && NameDecides(d.p.headerState, Folded(name))
  {
    assert lead + "" == lead;
    FeedConcat(c, name + ":", lead);
    LeadTextRead(Feed(c, name + ":"), lead);
  }

  /** A value, its continuations and the line end. */
  lemma {:induction false} SplitWholeValue(d: Config, s: string)
    returns (v: string, more: seq<Continuation>, text: string, end: string, rest: string)
    requires Running(d) && d.p.state.HeaderValueDiscardWs? && Accepts(d, s) && StartsFresh(s) && IsTextByte(s[0])
    ensures s == v + text + end + rest && IsValue(v) && AreMore(more, text) && IsLineEnd(end) && StartsFresh(rest)
    ensures Running(Feed(d, v)) && Feed(d, v).p.state.HeaderValue? && Running(Feed(Feed(d, v), text))
    ensures Accepts(Feed(Feed(Feed(d, v), text), end), rest)
  {
    var behind;
    v, behind := SplitValue(d, s);
    more, text, end, rest := SplitMore(Feed(d, v), behind);
    FourParts(v, text, end, rest);
  }

  lemma FourParts(a: string, b: string, c: string, d: string)
    ensures a + (b + c + d) == a + b + c + d
  {
  }

  lemma LineInParts(name: string, lead: string, v: string, text: string, end: string, rest: string)
    ensures name + ":" + (lead + (v + text + end + rest)) == name + ":" + lead + v + text + end + rest
  {
  }

  lemma {:induction false} SplitValueLine(c: Config, s: string, name: string, lead: string, s1: string, s2: string)
    returns (l: Line, rest: string)
    requires BetweenHeaders(c) && IsName(name) && NameOver(Settled(c), Feed(c, name + ":"), name)
    requires s == name + ":" + s1 && s1 == lead + "" + s2 && LeadEnds(Feed(c, name + ":"), lead, "", s2)
    ensures LineIsSplit(c, s, Settled(c).p.lenient, Settled(c).p.flags, l, rest)
  {
    var d := Feed(c, name + ":" + lead);
    LeadWithValue(c, name, lead, s1, s2);
    var v, more, text, end;
    v, more, text, end, rest := SplitWholeValue(d, s2);
    l := Line(name, lead, v, more, end);
    LineInParts(name, lead, v, text, end, rest);
    ValueLineIsSplit(c, s, d, l, text, rest);
  }

  // ----- lists of lines ------------------------------------------------------------------------------

  /** Lines that have been read, the empty line behind them, and what follows. */
  ghost predicate LinesAreSplit(c: Config, s: string, lenient: bool, flags: Flags, lines: seq<Line>, empty: string,
                                rest: string) {
    forall key {:trigger Unfold(key)} :: Unfold(key) ==>
      && s == LinesText(lines) + empty + rest && AreReadable(lenient, flags, lines) && IsLineEnd(empty)
      && Accepts(Feed(Feed(c, LinesText(lines)), empty), rest)
  }

  lemma EmptyLineEndRefused(d: Config)
    requires Running(d) && d.p.state.HeaderFieldStart?
    ensures !IsBetween(Next(d, CR).p.state)
    ensures forall ch :: ch != LF ==> !Running(Next(Next(d, CR), ch))
  {
    Bite(d, CR, FieldStartByte(d.p, CR));
    forall ch | ch != LF
      ensures !Running(Next(Next(d, CR), ch))
    {
      LineEndRefused(Next(d, CR), ch);
    }
  }

  lemma {:induction false} SplitEmptyLine(c: Config, s: string) returns (empty: string, rest: string)
    requires BetweenHeaders(c) && Accepts(c, s) && StartsFresh(s) && !IsTextByte(s[0])
    ensures s == empty + rest && IsLineEnd(empty) && Accepts(Feed(c, empty), rest)
  {
    AcceptsSettled(c, s);
    EmptyLineEndRefused(Settled(c));
    empty, rest := SplitEnd(Settled(c), s);
    SettledFeed(c, empty);
  }

  lemma {:induction false} NoLines(c: Config, s: string, lenient: bool, flags: Flags, empty: string, rest: string)
    requires s == empty + rest && IsLineEnd(empty) && Accepts(Feed(c, empty), rest)
    ensures LinesAreSplit(c, s, lenient, flags, [], empty, rest)
  {
    assert "" + empty == empty;
  }

  lemma {:induction false} FirstOfLines(lenient: bool, flags: Flags, l: Line, lines: seq<Line>)
    requires IsReadable(lenient, flags, l) && AreReadable(lenient, LineFlags(flags, l), lines)
    ensures AreReadable(lenient, flags, [l] + lines)
  {
    assert ([l] + lines)[1..] == lines;
  }

  lemma {:induction false} FirstText(l: Line, lines: seq<Line>)
    ensures LinesText([l] + lines) == LineText(l) + LinesText(lines)
  {
    assert ([l] + lines)[1..] == lines;
  }

  lemma {:induction false} OneMoreLine(c: Config, s: string, lenient: bool, flags: Flags, l: Line, more: string,
                                       lines: seq<Line>, empty: string, rest: string)
    requires LineIsSplit(c, s, lenient, flags, l, more)
    requires LinesAreSplit(Feed(c, LineText(l)), more, lenient, LineFlags(flags, l), lines, empty, rest)
    ensures LinesAreSplit(c, s, lenient, flags, [l] + lines, empty, rest)
  {
    assert Unfold(0);
    FirstOfLines(lenient, flags, l, lines);
    FirstText(l, lines);
    FeedConcat(c, LineText(l), LinesText(lines));
    FourParts(LineText(l), LinesText(lines), empty, rest);
  }

  lemma {:induction false} LineGoesOn(c: Config, s: string, p: Fields, trace: seq<Event>, l: Line, rest: string)
    requires Within(c, p, trace) && LineIsSplit(c, s, p.lenient, p.flags, l, rest)
    ensures var d := Feed(c, LineText(l));
            && Within(d, AfterLine(p, l), trace + LineEvents(l)) && Accepts(d, rest) && StartsFresh(rest)
    ensures |rest| < |s|
  {
    assert Unfold(0);
    LineRead(c, l, p, trace);
  }

  lemma {:induction false} SplitLines(c: Config, s: string, p: Fields, trace: seq<Event>)
    returns (lines: seq<Line>, empty: string, rest: string)
    requires Within(c, p, trace) && Accepts(c, s) && StartsFresh(s)
    ensures LinesAreSplit(c, s, p.lenient, p.flags, lines, empty, rest)
    decreases |s|
  {
    if IsTextByte(s[0]) {
      var l, more := SplitLine(c, s);
      LineGoesOn(c, s, p, trace, l, more);
      lines, empty, rest := SplitLines(Feed(c, LineText(l)), more, AfterLine(p, l), trace + LineEvents(l));
      OneMoreLine(c, s, p.lenient, p.flags, l, more, lines, empty, rest);
      lines := [l] + lines;
    } else {
      lines := [];
      empty, rest := SplitEmptyLine(c, s);
      NoLines(c, s, p.lenient, p.flags, empty, rest);
    }
  }
}
