/** What the parser's fields mean: they say what the callbacks of the current message said. */
module Meaning {
  import opened Ascii
  import opened HttpTypes
  import opened ByteMachine
  import opened Invariant
  import opened Text
  import opened Message
  import opened Evidence

  // ----- header names ----------------------------------------------------------------------------

  /** Some header name that the parser knows starts with `w`. */
  predicate StartsKnownName(w: string) {
    w <= "connection" || w <= "proxy-connection" || w <= "content-length" || w <= "transfer-encoding" || w <= "upgrade"
  }

  /** `w` is the case-folded name read so far. */
  ghost predicate NameKnown(h: HeaderState, index: nat, w: string) {
    forall key {:trigger Unfold(key)} :: Unfold(key) ==>
      if h.General? then !StartsKnownName(w)
      else if h.SeenC? then w == "c"
      else if h.SeenCO? then w == "co"
      else if h.SeenCON? then w == "con"
      else if h.Connection? then w == "connection" || w == "proxy-connection"
      else if h.ContentLength? then w == "content-length"
      else if h.TransferEncoding? then w == "transfer-encoding"
      else if h.Upgrade? then w == "upgrade"
      else CountsField(h) && index + 1 < |WordOf(h)| && w == WordOf(h)[..index + 1]
  }

  /** Two words that differ at `i`. */
  lemma Differs(v: string, word: string, i: nat)
    requires i < |v| && (i < |word| ==> v[i] != word[i])
    ensures !(v <= word)
  {
  }

  lemma FirstNameKnown(c: char)
    ensures NameKnown(FirstHeaderState(c), 0, [c])
  {
    assert Unfold(0);
    if c != 'c' && c != 'p' && c != 't' && c != 'u' {
      NoOtherName([c], 0);
      Differs([c], "connection", 0);
      Differs([c], "content-length", 0);
    }
  }

  /** Only the names with the right first letter are in question. */
  lemma NoOtherName(v: string, at: nat)
    requires at < |v| && (at > 0 ==> v[0] == 'c' || v[0] == 'p' || v[0] == 't' || v[0] == 'u')
    requires at == 0 ==> v[0] != 'c' && v[0] != 'p' && v[0] != 't' && v[0] != 'u'
    ensures v[0] != 'c' ==> !(v <= "connection") && !(v <= "content-length")
    ensures v[0] != 'p' ==> !(v <= "proxy-connection")
    ensures v[0] != 't' ==> !(v <= "transfer-encoding")
    ensures v[0] != 'u' ==> !(v <= "upgrade")
  {
  }

  lemma LongerName(w: string, c: char)
    requires !StartsKnownName(w)
    ensures !StartsKnownName(w + [c])
  {
  }

  /** A name that no longer fits the word it was matching. */
  lemma LostName(h: HeaderState, index: nat, w: string, c: char)
    requires NameKnown(h, index, w) && FieldScan(h, index) && FieldNext(h, index, c).General? && c != ' '
    ensures !StartsKnownName(w + [c])
  {
    assert Unfold(0);
    var v := w + [c];
    if h.General? {
      LongerName(w, c);
    } else {
      assert v[0] == w[0];
      NoOtherName(v, 1);
      if v[0] == 'c' {
        LostC(h, index, w, c);
      } else if h.Connection? || h.MatchingProxyConnection? {
        Differs(v, "proxy-connection", |w|);
      } else if h.TransferEncoding? || h.MatchingTransferEncoding? {
        Differs(v, "transfer-encoding", |w|);
      } else {
        Differs(v, "upgrade", |w|);
      }
    }
  }

  lemma LostC(h: HeaderState, index: nat, w: string, c: char)
    requires NameKnown(h, index, w) && FieldScan(h, index) && FieldNext(h, index, c).General? && c != ' '
    requires !h.General? && |w| > 0 && w[0] == 'c'
    ensures !(w + [c] <= "connection") && !(w + [c] <= "content-length")
  {
    assert Unfold(0);
    var v := w + [c];
    if h.MatchingConnection? || h.Connection? {
      assert v[3] == w[3] == 'n';
      Differs(v, "content-length", 3);
      Differs(v, "connection", |w|);
    } else if h.MatchingContentLength? || h.ContentLength? {
      assert v[3] == w[3] == 't';
      Differs(v, "connection", 3);
      Differs(v, "content-length", |w|);
    } else {
      Differs(v, "connection", |w|);
      Differs(v, "content-length", |w|);
    }
  }

  predicate IsMatchingName(h: HeaderState) {
    h.MatchingConnection? || h.MatchingProxyConnection? || h.MatchingContentLength? || h.MatchingTransferEncoding? ||
    h.MatchingUpgrade?
  }

  function FoundName(h: HeaderState): HeaderState {
    match h
    case MatchingContentLength => ContentLength
    case MatchingTransferEncoding => TransferEncoding
    case MatchingUpgrade => Upgrade
    case _ => Connection
  }

  /** A name that still fits. */
  lemma KeptName(h: HeaderState, index: nat, w: string, c: char)
    requires NameKnown(h, index, w) && FieldScan(h, index) && !FieldNext(h, index, c).General? && c != ' '
    ensures NameKnown(FieldNext(h, index, c), FieldIndex(h, index), w + [c])
  {
    if IsMatchingName(h) {
      MatchNameStep(h, index, c);
      KeptWord(h, index, w, c, WordOf(h));
    } else {
      assert Unfold(0);
    }
  }

  lemma MatchNameStep(h: HeaderState, index: nat, c: char)
    requires IsMatchingName(h) && FieldScan(h, index) && !FieldNext(h, index, c).General?
    ensures index + 1 < |WordOf(h)| && c == WordOf(h)[index + 1]
    ensures FieldNext(h, index, c) == if index + 2 == |WordOf(h)| then FoundName(h) else h
  {
  }

  lemma KeptWord(h: HeaderState, index: nat, w: string, c: char, word: string)
    requires IsMatchingName(h) && NameKnown(h, index, w) && word == WordOf(h)
    requires index + 1 < |word| && c == word[index + 1]
    ensures NameKnown(if index + 2 == |word| then FoundName(h) else h, index + 1, w + [c])
  {
    assert w + [c] == word[..index + 2] by { assert Unfold(0); }
    if index + 2 == |word| {
      FoundKnown(h, index + 1, w + [c]);
    }
  }

  lemma FoundKnown(h: HeaderState, index: nat, w: string)
    requires IsMatchingName(h) && w == WordOf(h)
    ensures NameKnown(FoundName(h), index, w)
  {
  }

  lemma NameNext(h: HeaderState, index: nat, w: string, c: char)
    requires NameKnown(h, index, w) && FieldScan(h, index) && c != ' '
    ensures NameKnown(FieldNext(h, index, c), FieldIndex(h, index), w + [c])
  {
    if FieldNext(h, index, c).General? {
      LostName(h, index, w, c);
    } else {
      KeptName(h, index, w, c);
    }
  }

  // ----- header values ---------------------------------------------------------------------------

  predicate IsTokenState(h: HeaderState) {
    h.TokenStart? || h.MatchingToken? || h.MatchingKeepAlive? || h.MatchingClose? || h.MatchingUpgradeToken? ||
    CompleteToken(h)
  }

  /** The connection token that a header state has read in full. */
  function TokenOf(h: HeaderState): string {
    match h
    case ConnectionKeepAlive => KEEP_ALIVE
    case ConnectionClose => CLOSE
    case ConnectionUpgrade => UPGRADE
    case _ => ""
  }

  /** `e` is the element of the list that is being read. */
  ghost predicate TokenKnown(h: HeaderState, index: nat, e: string) {
    forall key {:trigger Unfold(key)} :: Unfold(key) ==>
      if h.TokenStart? then TrimStart(e) == ""
      else if CompleteToken(h) then IsElement(e, TokenOf(h))
      else h.MatchingToken? || (index < |WordOf(h)| && Folded(TrimStart(e)) == WordOf(h)[..index + 1])
  }

  /** `h` has the header read so far as its last argument. */
  ghost predicate ValueKnown(h: HeaderState, index: nat, length: nat, header: Header) {
    forall key {:trigger Unfold(key)} :: Unfold(key) ==>
      if h.ContentLength? then Says(header, BodyLength(length))
      else if h.TransferChunked? then Says(header, ChunkedCoding)
      else if h.MatchingChunked? then
        && Folded(header.name) == "transfer-encoding"
        && index < |WordOf(h)| && Folded(header.value) == WordOf(h)[..index + 1]
      else if IsTokenState(h) then IsConnectionName(header.name) && TokenKnown(h, index, LastElement(header.value))
      else h.General?
  }

  predicate MatchesConnectionToken(h: HeaderState) {
    h.MatchingKeepAlive? || h.MatchingClose? || h.MatchingUpgradeToken?
  }

  lemma WordLetters(h: HeaderState, i: nat)
    requires MatchesToken(h) && i < |WordOf(h)|
    ensures 'a' <= WordOf(h)[i] <= 'z' || WordOf(h)[i] == '-'
  {
  }

  /** One more byte that fits, on a text `s` that is the start of `word` in any case. */
  lemma WordGrows(word: string, index: nat, s: string, ch: char)
    requires index + 1 < |word| && Folded(s) == word[..index + 1] && Fold(ch) == word[index + 1]
    ensures Folded(s + [ch]) == word[..index + 2] && (index + 2 == |word| ==> Folded(s + [ch]) == word)
  {
    FoldedNext(s, ch);
  }

  /** The same for an element of a list. */
  lemma ElementGrows(word: string, index: nat, e: string, ch: char)
    requires index + 1 < |word| && Folded(TrimStart(e)) == word[..index + 1] && Fold(ch) == word[index + 1]
    requires ch != ' '
    ensures Folded(TrimStart(e + [ch])) == word[..index + 2]
    ensures index + 2 == |word| ==> IsElement(e + [ch], word)
  {
    TrimStartNext(e, ch);
    WordGrows(word, index, TrimStart(e), ch);
    TrimEndNext(TrimStart(e), ch);
  }

  /** What follows a state once its word is complete, and when it is missed. */
  function Complete(h: HeaderState): HeaderState {
    match h
    case MatchingChunked => TransferChunked
    case MatchingKeepAlive => ConnectionKeepAlive
    case MatchingClose => ConnectionClose
    case _ => ConnectionUpgrade
  }

  lemma MatchStep(h: HeaderState, index: nat, ch: char)
    requires MatchesToken(h) && ValueScan(h, index) && ch != CR
    ensures var h' := ValueNext(h, index, ch);
            var word := WordOf(h);
            && index + 1 < |word| && word[index + 1] != ' '
            && h' == if Fold(ch) != word[index + 1] then (if h.MatchingChunked? then General else MatchingToken)
                     else if index + 2 == |word| then Complete(h)
                     else h
    ensures !h.MatchingChunked? ==> TokenOf(Complete(h)) == WordOf(h)
    ensures h.MatchingChunked? ==> WordOf(h) == "chunked"
  {
    WordLetters(h, index + 1);
    LowerFolds(ch, WordOf(h)[index + 1]);
  }

  lemma TokenStarted(h: HeaderState, index: nat, e: string, ch: char)
    requires h.TokenStart? && TokenKnown(h, index, e) && ValueScan(h, index) && ch != CR
    ensures IsTokenState(ValueNext(h, index, ch)) ==> TokenKnown(ValueNext(h, index, ch), index, e + [ch])
  {
    assert Unfold(0);
    TrimStartNext(e, ch);
    FoldedNext("", ch);
    LowerFolds(ch, 'k');
    LowerFolds(ch, 'c');
    LowerFolds(ch, 'u');
    assert TrimStart(e) + [ch] == "" + [ch];
  }

  lemma ElementThenSpace(e: string, word: string)
    requires IsElement(e, word)
    ensures IsElement(e + [' '], word)
  {
    TrimStartNext(e, ' ');
    TrimEndNext(TrimStart(e), ' ');
  }

  lemma TokenComplete(h: HeaderState, index: nat, e: string, ch: char)
    requires CompleteToken(h) && TokenKnown(h, index, e) && ch != ','
    ensures var h' := ValueNext(h, index, ch);
            TokenKnown(h', index, e + [ch]) && (h'.MatchingToken? || h' == h)
  {
    assert IsElement(e, TokenOf(h)) by { assert Unfold(0); }
    if ch == ' ' {
      ElementThenSpace(e, TokenOf(h));
    }
  }

  lemma TokenText(h: HeaderState, index: nat, e: string)
    requires MatchesConnectionToken(h) && TokenKnown(h, index, e)
    ensures index < |WordOf(h)| && Folded(TrimStart(e)) == WordOf(h)[..index + 1]
  {
    assert Unfold(0);
  }

  /** One more byte leads from `h` to `h'`, as MatchStep says. */
  lemma TokenMatching(h: HeaderState, h': HeaderState, index: nat, e: string, ch: char, word: string)
    requires MatchesConnectionToken(h) && word == WordOf(h) && index + 1 < |word| && word[index + 1] != ' '
    requires Folded(TrimStart(e)) == word[..index + 1]
    requires h' == if Fold(ch) != word[index + 1] then MatchingToken else if index + 2 == |word| then Complete(h) else h
    requires CompleteToken(h') ==> TokenOf(h') == word
    ensures IsTokenState(h') && TokenKnown(h', index + 1, e + [ch])
  {
    if Fold(ch) == word[index + 1] {
      ElementGrows(word, index, e, ch);
      StillMatches(h, h', index + 1, e + [ch], word);
    }
  }

  lemma StillMatches(h: HeaderState, h': HeaderState, index: nat, e: string, word: string)
    requires MatchesConnectionToken(h) && word == WordOf(h) && index < |word|
    requires (h' == h && Folded(TrimStart(e)) == word[..index + 1]) ||
             (CompleteToken(h') && TokenOf(h') == word && IsElement(e, word))
    ensures TokenKnown(h', index, e)
  {
  }

  /** One more byte of an element. */
  lemma TokenGoesOn(h: HeaderState, index: nat, e: string, ch: char)
    requires IsTokenState(h) && TokenKnown(h, index, e) && ValueScan(h, index) && ch != CR && ch != ','
    ensures var h' := ValueNext(h, index, ch);
            if IsTokenState(h') then TokenKnown(h', ValueIndex(h, index, ch), e + [ch]) else h'.General?
  {
    if h.TokenStart? {
      TokenStarted(h, index, e, ch);
    } else if CompleteToken(h) {
      TokenComplete(h, index, e, ch);
    } else if !h.MatchingToken? {
      MatchStep(h, index, ch);
      TokenText(h, index, e);
      TokenMatching(h, ValueNext(h, index, ch), index, e, ch, WordOf(h));
    }
  }

  lemma TokenNext(h: HeaderState, index: nat, v: string, ch: char)
    requires IsTokenState(h) && TokenKnown(h, index, LastElement(v)) && ValueScan(h, index) && ch != CR
    ensures var h' := ValueNext(h, index, ch);
            if IsTokenState(h') then TokenKnown(h', ValueIndex(h, index, ch), LastElement(v + [ch])) else h'.General?
  {
    ElementsNext(v, ch);
    if ch == ',' {
      CommaNext(h, index);
    } else {
      TokenGoesOn(h, index, LastElement(v), ch);
    }
  }

  /** A comma starts a new element, or is missed. */
  lemma CommaNext(h: HeaderState, index: nat)
    requires IsTokenState(h) && ValueScan(h, index)
    ensures var h' := ValueNext(h, index, ',');
            h'.General? || (IsTokenState(h') && TokenKnown(h', 0, ""))
  {
    assert Lower(',') == ',';
  }

  lemma ChunkedNext(h: HeaderState, index: nat, header: Header, ch: char)
    requires h.MatchingChunked? || h.TransferChunked?
    requires ValueKnown(h, index, 0, header) && ValueScan(h, index) && ch != CR
    ensures ValueKnown(ValueNext(h, index, ch), ValueIndex(h, index, ch), 0, Header(header.name, header.value + [ch]))
  {
    assert Unfold(0);
    TrimEndNext(header.value, ch);
    if h.MatchingChunked? {
      MatchStep(h, index, ch);
      if !ValueNext(h, index, ch).General? {
        WordGrows("chunked", index, header.value, ch);
      }
    }
  }

  lemma LengthNext(index: nat, length: nat, header: Header, ch: char)
    requires ValueKnown(ContentLength, index, length, header)
    ensures var r := ValueLength(ContentLength, length, ch);
            r.Some? ==> ValueKnown(ContentLength, index, r.value, Header(header.name, header.value + [ch]))
  {
    assert Unfold(0);
    DecimalNext(header.value, ch);
  }

  /** One more byte of a header value. */
  lemma ValueStepKnown(h: HeaderState, index: nat, length: nat, header: Header, ch: char)
    requires ValueKnown(h, index, length, header) && ValueScan(h, index) && ch != CR
    ensures var r := ValueLength(h, length, ch);
            r.Some? ==> ValueKnown(ValueNext(h, index, ch), ValueIndex(h, index, ch), r.value,
                                   Header(header.name, header.value + [ch]))
  {
    assert Unfold(0);
    if h.ContentLength? {
      LengthNext(index, length, header, ch);
    } else if h.MatchingChunked? || h.TransferChunked? {
      ChunkedNext(h, index, header, ch);
    } else if IsTokenState(h) {
      TokenNext(h, index, header.value, ch);
    }
  }

  // ----- the headers -----------------------------------------------------------------------------

  function PartOf(s: State): Part {
    if s.HeaderField? || AfterFieldName(s) then Naming else if s.HeaderValue? || AroundValue(s) then Open else Whole
  }

  /** What the parser holds of the headers of the message `m` that its callbacks have described. */
  ghost predicate HeadersKnown(p: Fields, m: Message) {
    var part := PartOf(p.state);
    && m.naming == part.Naming?
    && (!part.Whole? ==> |m.headers| > 0)
    && FlagsEvident(p.flags, m.headers, part)
    && (part.Naming? ==> NamingKnown(p, m.headers[|m.headers| - 1]))
    && (part.Open? ==> ValueKnown(p.headerState, p.index, p.contentLength, m.headers[|m.headers| - 1]))
  }

  ghost predicate NamingKnown(p: Fields, h: Header) {
    h.value == "" && NameKnown(p.headerState, p.index, Folded(h.name))
  }

  function SawOption(m: Message, e: Option<Event>): Message {
    match e
    case None => m
    case Some(e) => Saw(m, e)
  }

  ghost predicate HeadersLearnt(m: Message, o: Outcome) {
    Survives(o.act) ==> HeadersKnown(o.p, SawOption(m, o.event))
  }

  lemma NewHeaderKnown(p: Fields, m: Message, ch: char)
    requires p.state.HeaderField? && !m.naming && FlagsEvident(p.flags, m.headers, Whole)
    requires NameKnown(p.headerState, p.index, Folded([ch]))
    ensures HeadersKnown(p, SawName(m, [ch]))
  {
    FlagsNewHeader(p.flags, m.headers, Header([ch], ""));
  }

  lemma LongerNameKnown(p: Fields, m: Message, ch: char)
    requires p.state.HeaderField? && m.naming && |m.headers| > 0 && FlagsEvident(p.flags, m.headers, Naming)
    requires var last := m.headers[|m.headers| - 1];
             last.value == "" && NameKnown(p.headerState, p.index, Folded(last.name + [ch]))
    ensures HeadersKnown(p, SawName(m, [ch]))
  {
    FlagsNaming(p.flags, m.headers, Header(m.headers[|m.headers| - 1].name + [ch], ""), Naming);
  }

  function LongerValue(headers: seq<Header>, ch: char): seq<Header>
    requires |headers| > 0
  {
    var last := headers[|headers| - 1];
    headers[..|headers| - 1] + [Header(last.name, last.value + [ch])]
  }

  lemma LongerValueKnown(p: Fields, m: Message, ch: char)
    requires p.state.HeaderValue? && |m.headers| > 0 && FlagsEvident(p.flags, LongerValue(m.headers, ch), Open)
    requires var last := m.headers[|m.headers| - 1];
             ValueKnown(p.headerState, p.index, p.contentLength, Header(last.name, last.value + [ch]))
    ensures HeadersKnown(p, SawValue(m, [ch]))
  {
  }

  lemma FieldStartHeaders(p: Fields, m: Message, ch: char)
    requires p.state.HeaderFieldStart? && HeadersKnown(p, m)
    ensures HeadersLearnt(m, FieldStartByte(p, ch))
  {
    var o := FieldStartByte(p, ch);
    if o.event.Some? {
      TokenFolds(ch);
      FirstNameKnown(Token(ch));
      FoldedNext("", ch);
      assert "" + [ch] == [ch];
      NewHeaderKnown(o.p, m, ch);
    }
  }

  lemma FieldHeaders(p: Fields, m: Message, ch: char)
    requires p.state.HeaderField? && HeadersKnown(p, m) && FieldScan(p.headerState, p.index)
    ensures HeadersLearnt(m, FieldByte(p, ch))
  {
    var o := FieldByte(p, ch);
    if o.event.Some? {
      var last := m.headers[|m.headers| - 1];
      TokenFolds(ch);
      NameNext(p.headerState, p.index, Folded(last.name), Token(ch));
      FoldedNext(last.name, ch);
      LongerNameKnown(o.p, m, ch);
    }
  }

  /** What the first byte of a line of a value does when it is accepted, leading from `p` to `q`. */
  predicate StartsValue(p: Fields, q: Fields, ch: char) {
    var h := p.headerState;
    && (h.ContentLength? ==> IsNum(ch) && !p.flags.contentLength)
    && q == p.(state := HeaderValue, index := 0, headerState := ValueStartNext(h, ch),
               flags := if h.Upgrade? then p.flags.(upgrade := true)
                        else if h.ContentLength? then p.flags.(contentLength := true)
                        else p.flags,
               contentLength := if h.ContentLength? then DigitValue(ch) else p.contentLength)
  }

  lemma ValueStartShape(p: Fields, ch: char)
    ensures var o := ValueStartByte(p, ch);
            Survives(o.act) ==>
              o.act.Consume? && StartsValue(p, o.p, ch) && o.event == Some(Data(ValueText, [ch])) && o.p.verb == p.verb
  {
  }

  /** The first byte of a value. */
  lemma ValueStartHeaders(p: Fields, m: Message, q: Fields, ch: char)
    requires p.state.HeaderValueDiscardWs? && HeadersKnown(p, m) && ch != CR && IsFieldNameState(p.headerState)
    requires StartsValue(p, q, ch)
    ensures HeadersKnown(q, SawValue(m, [ch]))
  {
    var last := m.headers[|m.headers| - 1];
    assert last.value + [ch] == [ch];
    FlagsNaming(p.flags, m.headers, Header(last.name, [ch]), Open);
    FirstValueFlags(p.headerState, p.index, p.flags, q.flags, LongerValue(m.headers, ch));
    FirstValueKnown(p.headerState, p.index, q.contentLength, Header(last.name, [ch]), ch);
    LongerValueKnown(q, m, ch);
  }

  lemma FirstValueFlags(h: HeaderState, index: nat, flags: Flags, flags': Flags, headers: seq<Header>)
    requires FlagsEvident(flags, headers, Open) && |headers| > 0
    requires NameKnown(h, index, Folded(headers[|headers| - 1].name))
    requires flags' == if h.Upgrade? then flags.(upgrade := true)
                       else if h.ContentLength? then flags.(contentLength := true)
                       else flags
    ensures FlagsEvident(flags', headers, Open)
  {
    assert Unfold(0);
    if h.Upgrade? {
      LastSaysByNow(headers, UpgradeHeader);
    }
  }

  lemma FirstValueKnown(h: HeaderState, index: nat, length: nat, header: Header, ch: char)
    requires IsFieldNameState(h) && NameKnown(h, index, Folded(header.name)) && header.value == [ch] && ch != CR
    requires h.ContentLength? ==> IsNum(ch) && length == DigitValue(ch)
    ensures ValueKnown(ValueStartNext(h, ch), 0, length, header)
  {
    assert Unfold(0);
    var v := header.value;
    assert "" + [ch] == v;
    if h.ContentLength? {
      DecimalNext("", ch);
    } else if h.TransferEncoding? {
      LowerFolds(ch, 'c');
      FoldedNext("", ch);
    } else if h.Connection? {
      FirstTokenKnown(ch);
    }
  }

  lemma FirstElement(ch: char)
    ensures LastElement([ch]) == (if ch == ',' then "" else [ch])
    ensures !IsBlank(ch) && ch != ',' ==> Folded(TrimStart(LastElement([ch]))) == [Fold(ch)]
  {
    assert "" + [ch] == [ch];
    ElementsNext("", ch);
    TrimStartNext("", ch);
    FoldedNext("", ch);
  }

  lemma FirstTokenKnown(ch: char)
    requires ch != CR
    ensures var h := FirstTokenState(Lower(ch), MatchingToken);
            IsTokenState(h) && TokenKnown(h, 0, LastElement([ch]))
  {
    FirstElement(ch);
    LowerFolds(ch, 'k');
    LowerFolds(ch, 'c');
    LowerFolds(ch, 'u');
  }

  /** The blank that starts a continuation line. */
  lemma FoldKnown(h: HeaderState, index: nat, length: nat, header: Header, ch: char)
    requires ValueKnown(h, index, length, header) && IsValueState(h) && !h.ContentLength? && (ch == ' ' || ch == '\t')
    ensures ValueKnown(ValueStartNext(h, ch), 0, length, Header(header.name, header.value + [ch]))
  {
    assert Unfold(0);
    if h.TokenStart? {
      ElementsNext(header.value, ch);
      TrimStartNext(LastElement(header.value), ch);
    }
  }

  lemma FoldHeaders(p: Fields, m: Message, ch: char)
    requires p.state.HeaderValueStart? && HeadersKnown(p, m) && IsValueState(p.headerState) && (ch == ' ' || ch == '\t')
    ensures HeadersLearnt(m, ValueStartByte(p, ch))
  {
    ValueStartShape(p, ch);
    var q := ValueStartByte(p, ch).p;
    if StartsValue(p, q, ch) {
      FlagsValue(p.flags, m.headers, ch);
      FoldKnown(p.headerState, p.index, p.contentLength, m.headers[|m.headers| - 1], ch);
      LongerValueKnown(q, m, ch);
    }
  }

  /** A complete element that a comma ends sets a flag. */
  lemma CommaFlags(h: HeaderState, index: nat, length: nat, flags: Flags, headers: seq<Header>, before: Header)
    requires ValueKnown(h, index, length, before) && CompleteToken(h)
    requires |headers| > 0 && headers[|headers| - 1] == Header(before.name, before.value + [','])
    requires FlagsEvident(flags, headers, Open)
    ensures FlagsEvident(ConnectionFlag(h, flags), headers, Open)
  {
    assert Unfold(0);
    assert IsElement(LastElement(before.value), TokenOf(h));
    CommaEndsElement(before.value, TokenOf(h));
    LastSaysByNow(headers, ConnectionToken(TokenOf(h)));
  }

  /** The flags after one more byte of a value. */
  function StepFlags(h: HeaderState, flags: Flags, ch: char): Flags {
    if EndsElement(h, ch) then ConnectionFlag(h, flags) else flags
  }

  lemma StepFlagsEvident(p: Fields, headers: seq<Header>, ch: char)
    requires |headers| > 0 && FlagsEvident(p.flags, headers, Open)
    requires ValueKnown(p.headerState, p.index, p.contentLength, headers[|headers| - 1])
    ensures FlagsEvident(StepFlags(p.headerState, p.flags, ch), LongerValue(headers, ch), Open)
  {
    FlagsValue(p.flags, headers, ch);
    if EndsElement(p.headerState, ch) && CompleteToken(p.headerState) {
      CommaFlags(p.headerState, p.index, p.contentLength, p.flags, LongerValue(headers, ch), headers[|headers| - 1]);
    }
  }

  lemma ValueStepHeaders(p: Fields, m: Message, ch: char)
    requires p.state.HeaderValue? && HeadersKnown(p, m) && ValueScan(p.headerState, p.index) && ch != CR
    ensures HeadersLearnt(m, ValueStep(p, ch))
  {
    var o := ValueStep(p, ch);
    if o.act.Consume? {
      StepFlagsEvident(p, m.headers, ch);
      ValueStepKnown(p.headerState, p.index, p.contentLength, m.headers[|m.headers| - 1], ch);
      LongerValueKnown(o.p, m, ch);
    }
  }

  lemma ValueHeaders(p: Fields, m: Message, ch: char)
    requires p.state.HeaderValue? && HeadersKnown(p, m) && ValueScan(p.headerState, p.index)
    ensures HeadersLearnt(m, ValueByte(p, ch))
  {
    if ch != CR && ch != LF {
      ValueStepHeaders(p, m, ch);
    }
  }

  /** The end of a header sets the flag that its last element stands for. */
  lemma FinishedFlagsEvident(h: HeaderState, index: nat, length: nat, flags: Flags, headers: seq<Header>)
    requires |headers| > 0 && ValueKnown(h, index, length, headers[|headers| - 1]) && FlagsEvident(flags, headers, Open)
    ensures FlagsEvident(FinishedFlags(h, flags), headers, Whole)
  {
    FlagsComplete(flags, headers);
    if h.TransferChunked? || CompleteToken(h) {
      FinishedHeader(h, index, length, flags, headers);
    }
  }

  lemma FinishedHeader(h: HeaderState, index: nat, length: nat, flags: Flags, headers: seq<Header>)
    requires |headers| > 0 && ValueKnown(h, index, length, headers[|headers| - 1])
    requires FlagsEvident(flags, headers, Whole)
    requires h.TransferChunked? || CompleteToken(h)
    ensures FlagsEvident(FinishedFlags(h, flags), headers, Whole)
  {
    assert Unfold(0);
    if h.TransferChunked? {
      LastSays(headers, ChunkedCoding);
    } else {
      var v := headers[|headers| - 1].value;
      assert IsElement(LastElement(v), TokenOf(h));
      LastSays(headers, ConnectionToken(TokenOf(h)));
    }
  }

  /** The header is complete, and leads to `q`. */
  lemma WholeHeaderKnown(q: Fields, m: Message)
    requires q.state.HeaderFieldStart? && !m.naming && FlagsEvident(q.flags, m.headers, Whole)
    ensures HeadersKnown(q, m)
  {
  }

  lemma ValueLwsHeaders(p: Fields, m: Message, ch: char)
    requires p.state.HeaderValueLws? && HeadersKnown(p, m)
    ensures HeadersLearnt(m, ValueLwsByte(p, ch))
  {
    if ch != ' ' && ch != '\t' {
      FinishedFlagsEvident(p.headerState, p.index, p.contentLength, p.flags, m.headers);
      WholeHeaderKnown(ValueLwsByte(p, ch).p, m);
    }
  }

  /** Nothing is known of a state but its part. */
  lemma SamePartKnown(p: Fields, s: State, m: Message)
    requires HeadersKnown(p, m) && PartOf(s) == PartOf(p.state)
    ensures HeadersKnown(p.(state := s), m)
  {
  }

  lemma LineEndHeaders(p: Fields, m: Message, ch: char)
    requires p.state.HeaderAlmostDone? || p.state.HeaderValueDiscardWsAlmostDone?
    requires HeadersKnown(p, m)
    ensures HeadersLearnt(m, Micro(p, ch))
  {
    SamePartKnown(p, if p.state.HeaderAlmostDone? then HeaderValueLws else HeaderValueDiscardLws, m);
  }

  /** A header whose value is empty. */
  lemma EmptyValueHeaders(p: Fields, m: Message, ch: char)
    requires p.state.HeaderValueDiscardLws? && HeadersKnown(p, m) && IsFieldNameState(p.headerState)
    ensures HeadersLearnt(m, DiscardLwsByte(p, ch))
  {
    if ch != ' ' && ch != '\t' {
      EmptyHeaderKnown(DiscardLwsByte(p, ch).p, m);
    }
  }

  lemma EmptyHeaderKnown(q: Fields, m: Message)
    requires q.state.HeaderFieldStart? && |m.headers| > 0 && FlagsEvident(q.flags, m.headers, Naming)
    requires m.headers[|m.headers| - 1].value == ""
    ensures HeadersKnown(q, SawValue(m, []))
  {
    var last := m.headers[|m.headers| - 1];
    assert last.value + [] == "";
    FlagsNaming(q.flags, m.headers, last, Whole);
  }

  lemma DiscardWsHeaders(p: Fields, m: Message, ch: char)
    requires p.state.HeaderValueDiscardWs? && HeadersKnown(p, m) && IsFieldNameState(p.headerState)
    ensures HeadersLearnt(m, DiscardWsByte(p, ch))
  {
    if ch != ' ' && ch != '\t' && ch != CR && ch != LF {
      assert DiscardWsByte(p, ch) == ValueStartByte(p, ch);
      ValueStartShape(p, ch);
      var q := ValueStartByte(p, ch).p;
      if StartsValue(p, q, ch) {
        ValueStartHeaders(p, m, q, ch);
      }
    }
  }
}
