/** What an embedder can rely on: the parser's fields against the callbacks it has had. */
module Promises {
  import opened HttpTypes
  import opened ByteMachine
  import opened Invariant
  import opened Tracking
  import opened Text
  import opened Message
  import opened Evidence
  import opened Meaning
  import opened Knowledge
  import opened HttpParser

  /** The message that an embedder has put together from the callbacks of a parser. */
  ghost function Received(parser: Parser): Message
    reads parser
  {
    MessageOf(parser.trace)
  }

  lemma ParserKnows(parser: Parser)
    requires parser.Valid() && parser.errno == OK
    ensures FieldsInv(parser.Snapshot()) && Knows(parser.Snapshot(), Received(parser))
  {
    JoinKeepsMessage(parser.trace);
    ReachableKnows(parser.lenient, parser.fed);
    KnowingMeans(parser.Reference());
  }

  /** The case-folded name that has been read decides the header state, and nothing else does. */
  predicate NameDecides(h: HeaderState, w: string) {
    && (h.Connection? <==> w == "connection" || w == "proxy-connection")
    && (h.ContentLength? <==> w == "content-length")
    && (h.TransferEncoding? <==> w == "transfer-encoding")
    && (h.Upgrade? <==> w == "upgrade")
  }

  lemma NameKnownDecides(h: HeaderState, index: nat, w: string)
    requires NameKnown(h, index, w)
    ensures NameDecides(h, w)
  {
    assert Unfold(0);
    if h.General? {
      GeneralIsNoName(w);
    } else if IsMatchingName(h) {
      PartIsNoName(w, WordOf(h), index + 1);
    }
  }

  lemma GeneralIsNoName(w: string)
    requires !StartsKnownName(w)
    ensures w != "connection" && w != "proxy-connection" && w != "content-length" && w != "transfer-encoding" &&
            w != "upgrade"
  {
    assert w <= w;
  }

  predicate IsKnownName(w: string) {
    w == "connection" || w == "proxy-connection" || w == "content-length" || w == "transfer-encoding" || w == "upgrade"
  }

  /** No known name is the start of another. */
  lemma PartIsNoName(w: string, word: string, n: nat)
    requires IsKnownName(word) && 0 < n < |word| && w == word[..n]
    ensures !IsKnownName(w)
  {
    assert w[0] == word[0];
    if n > 3 {
      assert w[3] == word[3];
    }
  }

  lemma HeaderIsRecognised(p: Fields, m: Message)
    requires HeadersKnown(p, m) && AfterFieldName(p.state)
    ensures |m.headers| > 0 && NameDecides(p.headerState, Folded(m.headers[|m.headers| - 1].name))
  {
    NameKnownDecides(p.headerState, p.index, Folded(m.headers[|m.headers| - 1].name));
  }

  /** After the colon of a header field, header_state names a known header exactly when the field name
      is that name, in any case. */
  lemma HeaderRecognition(parser: Parser)
    requires parser.Valid() && parser.errno == OK && AfterFieldName(parser.state)
    ensures var headers := Received(parser).headers;
            |headers| > 0 && NameDecides(parser.headerState, Folded(headers[|headers| - 1].name))
  {
    ParserKnows(parser);
    HeaderIsRecognised(parser.Snapshot(), Received(parser));
  }

  /** A flag is set only if a header of this message says so. */
  lemma FlagsAreEarned(parser: Parser)
    requires parser.Valid() && parser.errno == OK && PartOf(parser.state).Whole?
    ensures var headers := Received(parser).headers;
            && (parser.flags.chunked ==> exists i :: 0 <= i < |headers| && Says(headers[i], ChunkedCoding))
            && (parser.flags.upgrade ==> exists i :: 0 <= i < |headers| && Says(headers[i], UpgradeHeader))
            && (parser.flags.close ==> exists i :: 0 <= i < |headers| && Says(headers[i], ConnectionToken("close")))
            && (parser.flags.keepAlive ==>
                  exists i :: 0 <= i < |headers| && Says(headers[i], ConnectionToken("keep-alive")))
            && (parser.flags.connectionUpgrade ==>
                  exists i :: 0 <= i < |headers| && Says(headers[i], ConnectionToken("upgrade")))
  {
    ParserKnows(parser);
    assert Unfold(0);
    var headers := Received(parser).headers;
    forall f | Evident(headers, Whole, f)
      ensures exists i :: 0 <= i < |headers| && Says(headers[i], f)
    {
      var i :| 0 <= i < |headers| && SaysAt(headers, Whole, f, i);
    }
  }

  /** A body sent with a Content-Length: delivered and still to come add up to the declared length. */
  lemma BodyConservation(parser: Parser)
    requires parser.Valid() && parser.errno == OK && parser.state.BodyIdentity?
    ensures parser.contentLength > 0
    ensures var m := Received(parser);
            exists i :: 0 <= i < |m.headers| && Says(m.headers[i], BodyLength(|m.body| + parser.contentLength))
  {
    ParserKnows(parser);
    BodyIsDeclared(parser.Snapshot(), Received(parser));
  }

  lemma BodyIsDeclared(p: Fields, m: Message)
    requires FieldsInv(p) && LengthKnown(p, m) && p.state.BodyIdentity?
    ensures p.contentLength > 0
    ensures exists i :: 0 <= i < |m.headers| && Says(m.headers[i], BodyLength(|m.body| + p.contentLength))
  {
    assert Unfold(0);
    var f := BodyLength(|m.body| + p.contentLength);
    var i :| 0 <= i < |m.headers| && SaysAt(m.headers, Whole, f, i);
  }

  /** Chunked: what chunk headers announced is what was delivered and what is still to come. */
  lemma ChunkConservation(parser: Parser)
    requires parser.Valid() && parser.errno == OK && parser.state.Chunk?
    ensures var m := Received(parser);
            m.announced == |m.body| + if parser.state.chunk.ChunkData? then parser.contentLength else 0
  {
    ParserKnows(parser);
  }

  /** A complete message has the body that its headers or its chunk sizes promised. */
  lemma CompleteBody(parser: Parser)
    requires parser.Valid() && parser.errno == OK && BetweenMessages(parser.state)
    ensures var m := Received(parser);
            if parser.flags.chunked then |m.body| == m.announced
            else if !parser.flags.contentLength then m.body == ""
            else parser.verb == CONNECT || exists i :: 0 <= i < |m.headers| && Says(m.headers[i], BodyLength(|m.body|))
  {
    ParserKnows(parser);
    assert Unfold(0);
    var m := Received(parser);
    if !parser.flags.chunked && parser.flags.contentLength && parser.verb != CONNECT {
      var i :| 0 <= i < |m.headers| && SaysAt(m.headers, Whole, BodyLength(|m.body|), i);
    }
  }

  /** The states after the URL of a request. */
  predicate PastUrl(s: State) {
    !BetweenMessages(s) && !s.ReqMethod? && !s.ReqSpacesBeforeUrl? && !s.Url?
  }

  /** The URL of an accepted request line drives parse_url_char, from where http_parser_parse_url starts it,
      to one of the states in which a URL may end; no byte of it leads to s_dead. */
  lemma UrlIsAccepted(parser: Parser)
    requires parser.Valid() && parser.errno == OK && PastUrl(parser.state)
    ensures var url := Received(parser).url;
            && EndsUrl(UrlFold(parser.verb == CONNECT, url))
            && forall n :: 0 <= n <= |url| ==> UrlFold(parser.verb == CONNECT, url[..n]) != Dead
  {
    ParserKnows(parser);
    var url := Received(parser).url;
    forall n | 0 <= n <= |url|
      ensures UrlFold(parser.verb == CONNECT, url[..n]) != Dead
    {
      DeadStaysDead(parser.verb == CONNECT, url, n);
    }
  }

  /** While a URL is read, the request parser is in the state of the URL splitter. */
  lemma UrlStatesAgree(parser: Parser)
    requires parser.Valid() && parser.errno == OK && parser.state.Url?
    ensures UrlFold(parser.verb == CONNECT, Received(parser).url) == parser.state
  {
    ParserKnows(parser);
  }
}
