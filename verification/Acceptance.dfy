/** The way back from what the parser accepts to what was printed: the request line. */
module Acceptance {
  import opened Ascii
  import opened HttpTypes
  import opened ByteMachine
  import opened Text
  import opened Knowledge
  import opened Segments
  import opened RequestLine
  import opened Refusals

  /** Between two messages, or behind the last one. */
  predicate IsBetween(s: State) {
    s.StartReq? || s.Dead?
  }

  /** The machine reads the text without an error and ends between two messages. */
  ghost predicate Accepts(c: Config, s: string) {
    forall key {:trigger Unfold(key)} :: Unfold(key) ==> Running(Feed(c, s)) && IsBetween(Feed(c, s).p.state)
  }

  /** So it does on the rest of it. */
  lemma {:induction false} AcceptsRest(c: Config, a: string, b: string)
    requires Accepts(c, a + b)
    ensures Running(Feed(c, a)) && Accepts(Feed(c, a), b)
  {
    assert Unfold(0);
    FeedConcat(c, a, b);
    if !Running(Feed(c, a)) {
      FailsOn(Feed(c, a), b);
    }
  }

  lemma {:induction false} AcceptsFirst(c: Config, s: string)
    requires Accepts(c, s) && s != []
    ensures Running(Next(c, s[0])) && Accepts(Next(c, s[0]), s[1..])
  {
    assert s == [s[0]] + s[1..];
    AcceptsRest(c, [s[0]], s[1..]);
    FeedOne(c, s[0]);
  }

  /** Within a message there is a next byte, and it is not refused. */
  lemma {:induction false} AcceptsNext(c: Config, s: string)
    requires Accepts(c, s) && !IsBetween(c.p.state)
    ensures s != [] && Running(Next(c, s[0])) && Accepts(Next(c, s[0]), s[1..])
  {
    if s == [] {
      AcceptsNothing(c);
    } else {
      AcceptsFirst(c, s);
    }
  }

  lemma AcceptsNothing(c: Config)
    requires Accepts(c, [])
    ensures IsBetween(c.p.state)
  {
    assert Unfold(0);
  }

  /** How far a text starts with such bytes. */
  function Span(p: char -> bool, s: string): (k: nat)
    ensures k <= |s| && (forall i :: 0 <= i < k ==> p(s[i])) && (k < |s| ==> !p(s[k]))
  {
    if s == [] || !p(s[0]) then 0 else 1 + Span(p, s[1..])
  }

  lemma {:induction false} SplitSpan(p: char -> bool, s: string) returns (a: string, b: string)
    ensures s == a + b && (forall i :: 0 <= i < |a| ==> p(a[i])) && (b != [] ==> !p(b[0]))
    ensures forall ch :: ch in a ==> p(ch)
  {
    var k := Span(p, s);
    a, b := s[..k], s[k..];
  }

  // ----- the method --------------------------------------------------------------------------------

  lemma {:induction false} SplitMethod(c: Config, s: string) returns (m: Method, rest: string)
    requires Running(c) && c.p.state.StartReq? && s != [] && s[0] != CR && s[0] != LF && Accepts(c, s)
    ensures s == MethodString(m) + " " + rest
    ensures var d := Feed(c, MethodString(m) + " ");
            At(d, AfterMethod(c.p, m), c.trace + [MessageBegin]) && Accepts(d, rest)
  {
    var w, more := SplitSpan(ch => ch != ' ', s);
    AcceptsFirst(c, s);
    AcceptsRest(c, w, more);
    WordIsRead(c, w, s[0]);
    AcceptsNext(Feed(c, w), more);
    rest := more[1..];
    assert more == " " + rest && s == w + " " + rest;
    AcceptsRest(c, w + " ", rest);
    m := WordIsMethod(c, w);
  }

  lemma {:induction false} WordIsRead(c: Config, w: string, first: char)
    requires Running(c) && c.p.state.StartReq? && first != CR && first != LF && ' ' !in w
    requires Running(Feed(c, w)) && (w != [] ==> w[0] == first) && (w == [] ==> first == ' ')
    requires w == [] ==> Running(Next(c, ' '))
    ensures w != [] && !IsBetween(Feed(c, w).p.state)
  {
    if w == [] {
      FirstLetter(c, ' ');
    } else {
      BytesSpell(c, w);
    }
  }

  lemma {:induction false} WordIsMethod(c: Config, w: string) returns (m: Method)
    requires Running(c) && c.p.state.StartReq? && w != [] && w[0] != CR && w[0] != LF && ' ' !in w
    requires Running(Feed(c, w + " "))
    ensures MethodString(m) == w && At(Feed(c, w + " "), AfterMethod(c.p, m), c.trace + [MessageBegin])
  {
    MethodIsExact(c, w);
    m :| MethodString(m) == w;
    MethodSegment(c, m);
  }

  // ----- the URL -----------------------------------------------------------------------------------

  predicate EndsWord(ch: char) {
    ch == ' ' || ch == CR || ch == LF
  }

  /** A URL that leads to the dead state is refused. */
  lemma {:induction false} DeadUrlRefused(c: Config, url: string)
    requires Running(c) && c.p.state.ReqSpacesBeforeUrl? && UrlFold(c.p.verb == CONNECT, url) == Dead
    requires forall ch :: ch in url ==> !EndsWord(ch)
    ensures !Running(Feed(c, url))
  {
    var t, ch := url[..|url| - 1], url[|url| - 1];
    assert url == t + [ch] && ch in url && forall x :: x in t ==> x in url;
    FeedLast(c, t, ch);
    if UrlFold(c.p.verb == CONNECT, t) == Dead {
      DeadUrlRefused(c, t);
    } else {
      UrlSegment(c, t);
      DeadByteRefused(c, Feed(c, t), t, ch);
    }
  }

  lemma {:induction false} DeadByteRefused(c: Config, r: Config, t: string, ch: char)
    requires Running(c) && c.p.state.ReqSpacesBeforeUrl? && UrlAt(c, r, t) && !EndsWord(ch)
    requires UrlFold(c.p.verb == CONNECT, t + [ch]) == Dead
    ensures !Running(Next(r, ch))
  {
    UrlFoldNext(c.p.verb == CONNECT, t, ch);
    if t == [] {
      assert t + [ch] == [ch];
    }
    UrlByteRefused(r, ch);
  }

  lemma {:induction false} SplitUrl(c: Config, s: string) returns (spaces: string, url: string, rest: string)
    requires Running(c) && c.p.state.ReqSpacesBeforeUrl? && Accepts(c, s)
    ensures s == spaces + url + rest && AreSpaces(spaces) && EndsUrl(UrlFold(c.p.verb == CONNECT, url))
    ensures rest != [] && EndsWord(rest[0]) && Accepts(Feed(Feed(c, spaces), url), rest)
    ensures At(Feed(Feed(c, spaces), url), c.p.(state := UrlFold(c.p.verb == CONNECT, url)),
               Emit(c.trace, Data(UrlText, url)))
  {
    var more;
    spaces, more := SplitSpan(ch => ch == ' ', s);
    SpacesRead(c, spaces);
    AcceptsRest(c, spaces, more);
    url, rest := SplitUrlText(Feed(c, spaces), more);
    TwoParts(spaces, url, rest);
  }

  lemma {:induction false} SplitUrlText(d: Config, s: string) returns (url: string, rest: string)
    requires Running(d) && d.p.state.ReqSpacesBeforeUrl? && Accepts(d, s) && (s != [] ==> s[0] != ' ')
    ensures s == url + rest && EndsUrl(UrlFold(d.p.verb == CONNECT, url))
    ensures rest != [] && EndsWord(rest[0]) && Accepts(Feed(d, url), rest)
    ensures At(Feed(d, url), d.p.(state := UrlFold(d.p.verb == CONNECT, url)), Emit(d.trace, Data(UrlText, url)))
  {
    url, rest := SplitSpan(ch => !EndsWord(ch), s);
    AcceptsRest(d, url, rest);
    if UrlFold(d.p.verb == CONNECT, url) == Dead {
      DeadUrlRefused(d, url);
    }
    UrlSegment(d, url);
    UrlIsOver(d, url, s, rest);
  }

  /** Where the URL is over. */
  lemma {:induction false} UrlIsOver(d: Config, url: string, more: string, rest: string)
    requires Running(d) && d.p.state.ReqSpacesBeforeUrl? && UrlAt(d, Feed(d, url), url) && more == url + rest
    requires (more != [] ==> more[0] != ' ') && Accepts(Feed(d, url), rest) && (rest != [] ==> EndsWord(rest[0]))
    ensures rest != [] && url != [] && EndsUrl(Feed(d, url).p.state)
  {
    var e := Feed(d, url);
    AcceptsNext(e, rest);
    if url == [] {
      assert more == rest;
      UrlEndRefused(e, rest[0]);
    } else if !EndsUrl(e.p.state) {
      UrlEndRefused(e, rest[0]);
    }
  }

  // ----- the version -------------------------------------------------------------------------------

  /** The CR or LF that starts a line end, and the rest of it. */
  lemma {:induction false} SplitEnd(c: Config, s: string) returns (end: string, rest: string)
    requires s != [] && (s[0] == CR || s[0] == LF) && Accepts(c, s)
    requires s[0] == CR ==> !IsBetween(Next(c, CR).p.state)
    requires s[0] == CR ==> forall ch :: ch != LF ==> !Running(Next(Next(c, CR), ch))
    ensures s == end + rest && IsLineEnd(end) && Accepts(Feed(c, end), rest)
  {
    if s[0] == LF {
      end, rest := "\n", s[1..];
    } else {
      AcceptsFirst(c, s);
      AcceptsNext(Next(c, CR), s[1..]);
      end, rest := "\r\n", s[2..];
      assert s[1..][0] == s[1] == LF;
    }
    assert s == end + rest;
    AcceptsRest(c, end, rest);
  }

  /** What is left of the word HTTP and the slash. */
  function HttpRest(k: nat): string
    requires k <= 5
  {
    HTTP_SLASH[k..]
  }

  lemma HttpRestNext(k: nat)
    requires k < 5
    ensures HttpRest(k) == [HTTP_SLASH[k]] + HttpRest(k + 1)
    ensures HttpRest(5) == "" && HttpRest(0) == "HTTP/"
  {
  }

  lemma {:induction false} SplitHttp(c: Config, k: nat, s: string) returns (rest: string)
    requires Running(c) && k <= 5 && c.p.state == HttpState(k) && Accepts(c, s)
    requires k == 0 && s != [] ==> s[0] != ' '
    ensures s == HttpRest(k) + rest && Accepts(Feed(c, HttpRest(k)), rest)
    decreases 5 - k
  {
    if k == 5 {
      rest := s;
      HttpRestNext(0);
    } else {
      HttpByte(c, k, s);
      rest := SplitHttp(Next(c, s[0]), k + 1, s[1..]);
      HttpRestNext(k);
      FirstAndMore(c, s, HttpRest(k + 1), rest);
    }
  }

  lemma {:induction false} FirstAndMore(c: Config, s: string, more: string, rest: string)
    requires s != [] && s[1..] == more + rest && Accepts(Feed(Next(c, s[0]), more), rest)
    ensures s == [s[0]] + more + rest && Accepts(Feed(c, [s[0]] + more), rest)
  {
    FeedFirst(c, s[0], more);
  }

  lemma {:induction false} HttpByte(c: Config, k: nat, s: string)
    requires Running(c) && k < 5 && c.p.state == HttpState(k) && Accepts(c, s) && (k == 0 && s != [] ==> s[0] != ' ')
    ensures s != [] && s[0] == HTTP_SLASH[k] && Accepts(Next(c, s[0]), s[1..])
    ensures At(Next(c, s[0]), c.p.(state := HttpState(k + 1)), c.trace)
  {
    AcceptsNext(c, s);
    if s[0] != HTTP_SLASH[k] {
      HttpRefused(c, k, s[0]);
    }
    HttpLetter(c, k);
  }

  lemma HttpLetter(c: Config, k: nat)
    requires Running(c) && k < 5 && c.p.state == HttpState(k)
    ensures At(Next(c, HTTP_SLASH[k]), c.p.(state := HttpState(k + 1)), c.trace)
  {
    Bite(c, HTTP_SLASH[k], Micro(c.p, HTTP_SLASH[k]));
  }

  /** The digits of a number, and what comes behind them. */
  lemma {:induction false} SplitDigits(c: Config, s: string) returns (number: string, rest: string)
    requires Running(c) && Accepts(c, s)
    requires c.p.state == Version(FirstHttpMajor) || c.p.state == Version(FirstHttpMinor)
    ensures s == number + rest && AreDigits(number) && (rest != [] ==> !('0' <= rest[0] <= '9'))
    ensures c.p.state == Version(FirstHttpMajor) ==> number[0] != '0'
    ensures Running(Feed(c, number)) && Accepts(Feed(c, number), rest)
  {
    number, rest := SplitSpan(ch => '0' <= ch <= '9', s);
    AcceptsNext(c, s);
    if !('0' <= s[0] <= '9') || (c.p.state == Version(FirstHttpMajor) && s[0] == '0') {
      NumberRefused(c, s[0]);
    }
    assert number != [] && number[0] == s[0];
    AcceptsRest(c, number, rest);
  }

  lemma {:induction false} SplitMajor(c: Config, s: string) returns (major: string, rest: string)
    requires Running(c) && c.p.state == Version(FirstHttpMajor) && Accepts(c, s)
    ensures s == major + "." + rest && AreDigits(major) && major[0] != '0' && Decimal(major) <= 999
    ensures var d := Feed(c, major + ".");
            && At(d, c.p.(state := Version(FirstHttpMinor), httpMajor := Decimal(major)), c.trace) && Accepts(d, rest)
  {
    var more;
    major, more := SplitDigits(c, s);
    MajorIsExact(c, major);
    rest := DotIsNext(Feed(c, major), more);
    FeedLast(c, major, '.');
    TwoParts(major, ".", rest);
  }

  lemma {:induction false} DotIsNext(d: Config, s: string) returns (rest: string)
    requires Running(d) && d.p.state == Version(HttpMajor) && Accepts(d, s) && (s != [] ==> !('0' <= s[0] <= '9'))
    ensures s == "." + rest && Accepts(Next(d, '.'), rest)
    ensures At(Next(d, '.'), d.p.(state := Version(FirstHttpMinor)), d.trace)
  {
    AcceptsNext(d, s);
    if s[0] != '.' {
      NumberRefused(d, s[0]);
    }
    VersionBite(d, HttpMajor, '.');
    rest := s[1..];
  }

  lemma {:induction false} SplitMinor(c: Config, s: string) returns (minor: string, end: string, rest: string)
    requires Running(c) && c.p.state == Version(FirstHttpMinor) && Accepts(c, s)
    ensures s == minor + end + rest && AreDigits(minor) && Decimal(minor) <= 999 && IsLineEnd(end)
    ensures Accepts(Feed(c, minor + end), rest)
  {
    var more;
    minor, more := SplitDigits(c, s);
    MinorIsExact(c, minor);
    end, rest := VersionEndIsNext(Feed(c, minor), more);
    FeedConcat(c, minor, end);
    TwoParts(minor, end, rest);
  }

  lemma {:induction false} VersionEndIsNext(d: Config, s: string) returns (end: string, rest: string)
    requires Running(d) && d.p.state == Version(HttpMinor) && Accepts(d, s) && (s != [] ==> !('0' <= s[0] <= '9'))
    ensures s == end + rest && IsLineEnd(end) && Accepts(Feed(d, end), rest)
  {
    EndIsNext(d, s);
    VersionEnd(d);
    end, rest := SplitEnd(d, s);
  }

  lemma {:induction false} EndIsNext(d: Config, s: string)
    requires Running(d) && d.p.state == Version(HttpMinor) && Accepts(d, s) && (s != [] ==> !('0' <= s[0] <= '9'))
    ensures s != [] && (s[0] == CR || s[0] == LF)
  {
    AcceptsNext(d, s);
    if s[0] != CR && s[0] != LF {
      NumberRefused(d, s[0]);
    }
  }

  /** Behind the CR of a request line only LF is accepted. */
  lemma VersionEnd(d: Config)
    requires Running(d) && d.p.state == Version(HttpMinor)
    ensures !IsBetween(Next(d, CR).p.state)
    ensures forall ch :: ch != LF ==> !Running(Next(Next(d, CR), ch))
  {
    VersionBite(d, HttpMinor, CR);
    forall ch | ch != LF
      ensures !Running(Next(Next(d, CR), ch))
    {
      RequestLineEndRefused(Next(d, CR), ch);
    }
  }

  lemma UrlLineEndRefused(d: Config)
    requires Running(d) && EndsUrl(d.p.state)
    ensures !IsBetween(Next(d, CR).p.state)
    ensures forall ch :: ch != LF ==> !Running(Next(Next(d, CR), ch))
  {
    Bite(d, CR, UrlByte(d.p, CR));
    forall ch | ch != LF
      ensures !Running(Next(Next(d, CR), ch))
    {
      RequestLineEndRefused(Next(d, CR), ch);
    }
  }

  lemma {:induction false} SplitProtocol(c: Config, s: string) returns (v: Protocol, rest: string)
    requires Running(c) && EndsUrl(c.p.state) && Accepts(c, s) && s != [] && EndsWord(s[0])
    ensures s == v.Text() + rest && v.Valid() && Accepts(Feed(c, v.Text()), rest)
  {
    if s[0] == ' ' {
      v, rest := SplitVersion(c, s);
    } else {
      UrlLineEndRefused(c);
      var end;
      end, rest := SplitEnd(c, s);
      v := Unversioned(end);
    }
  }

  lemma {:induction false} SplitVersion(c: Config, s: string) returns (v: Protocol, rest: string)
    requires Running(c) && EndsUrl(c.p.state) && Accepts(c, s) && s != [] && s[0] == ' '
    ensures s == v.Text() + rest && v.Valid() && Accepts(Feed(c, v.Text()), rest)
  {
    var spaces, numbers := SplitSpacesAndHttp(c, s, HttpRest(0));
    HttpIsRead(c, spaces);
    var e := Feed(c, spaces + "HTTP/");
    var major, behind := SplitMajor(e, numbers);
    var minor, end;
    minor, end, rest := SplitMinor(Feed(e, major + "."), behind);
    v := Versioned(spaces, major, minor, end);
    VersionParts(c, v);
    VersionTextIs(v, rest);
  }

  lemma {:induction false} SplitSpaces(c: Config, s: string) returns (spaces: string, rest: string)
    requires Running(c) && EndsUrl(c.p.state) && Accepts(c, s) && s != [] && s[0] == ' '
    ensures s == spaces + rest && spaces != [] && AreSpaces(spaces) && (rest != [] ==> rest[0] != ' ')
    ensures var d := Feed(c, spaces); Running(d) && d.p.state == HttpState(0) && Accepts(d, rest)
  {
    spaces, rest := SplitSpan(ch => ch == ' ', s);
    assert spaces != [] && spaces[0] == ' ';
    AcceptsRest(c, spaces, rest);
    SpacesBehindUrl(c, spaces);
  }

  lemma {:induction false} SplitSpacesAndHttp(c: Config, s: string, http: string) returns (spaces: string, rest: string)
    requires Running(c) && EndsUrl(c.p.state) && Accepts(c, s) && s != [] && s[0] == ' ' && http == HttpRest(0)
    ensures s == spaces + http + rest && spaces != [] && AreSpaces(spaces) && Accepts(Feed(c, spaces + http), rest)
  {
    var more;
    spaces, more := SplitSpaces(c, s);
    rest := SplitHttp(Feed(c, spaces), 0, more);
    FeedConcat(c, spaces, http);
    TwoParts(spaces, http, rest);
  }

  lemma TwoParts(a: string, b: string, c: string)
    ensures a + (b + c) == a + b + c
  {
  }

  lemma {:induction false} HttpIsRead(c: Config, spaces: string)
    requires Running(c) && EndsUrl(c.p.state) && spaces != [] && AreSpaces(spaces)
    ensures HttpRest(0) == "HTTP/"
    ensures At(Feed(c, spaces + "HTTP/"), c.p.(state := Version(FirstHttpMajor)), c.trace)
  {
    HttpRestNext(0);
    SpacesAndHttp(c, spaces);
  }

  lemma VersionTextIs(v: Protocol, rest: string)
    requires v.Versioned?
    ensures v.Text() + rest == v.spaces + "HTTP/" + (v.major + "." + (v.minor + v.end + rest))
  {
  }

  lemma {:induction false} SpacesBehindUrl(c: Config, spaces: string)
    requires Running(c) && EndsUrl(c.p.state) && spaces != [] && AreSpaces(spaces)
    ensures At(Feed(c, spaces), c.p.(state := Version(HttpStart)), c.trace)
  {
    UrlEnd(c);
    SpacesRead(Next(c, ' '), spaces[1..]);
    FeedFirst(c, ' ', spaces[1..]);
    assert spaces == [' '] + spaces[1..];
  }

  lemma {:induction false} VersionParts(c: Config, v: Protocol)
    requires v.Versioned?
    ensures Feed(c, v.Text()) == Feed(Feed(Feed(c, v.spaces + "HTTP/"), v.major + "."), v.minor + v.end)
  {
    VersionTextParts(v);
    FeedThree(c, v.spaces + "HTTP/", v.major + ".", v.minor + v.end);
  }

  lemma VersionTextParts(v: Protocol)
    requires v.Versioned?
    ensures v.Text() == v.spaces + "HTTP/" + (v.major + ".") + (v.minor + v.end)
  {
  }

  lemma {:induction false} FeedThree(c: Config, s: string, t: string, u: string)
    ensures Feed(c, s + t + u) == Feed(Feed(Feed(c, s), t), u)
  {
    FeedConcat(c, s, t);
    FeedConcat(c, s + t, u);
  }
}
