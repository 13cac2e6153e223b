/** The request line: which words are methods, and a printed line read back. */
module RequestLine {
  import opened Ascii
  import opened HttpTypes
  import opened ByteMachine
  import opened Callbacks
  import opened Text
  import opened Segments
  import opened Knowledge

  // ----- methods ---------------------------------------------------------------------------------

  /** The method that `m` is told apart from at letter `at`, for a method that is not the first guess. */
  datatype Origin = First | From(m: Method, at: nat)

  function OriginOf(m: Method): Origin {
    match m
    case PUT => From(POST, 1)
    case PATCH => From(POST, 1)
    case PROPFIND => From(POST, 1)
    case PROPPATCH => From(PROPFIND, 4)
    case PURGE => From(PUT, 2)
    case CHECKOUT => From(CONNECT, 1)
    case COPY => From(CONNECT, 2)
    case MOVE => From(MKCOL, 1)
    case MERGE => From(MKCOL, 1)
    case MSEARCH => From(MKCOL, 1)
    case MKACTIVITY => From(MKCOL, 2)
    case MKCALENDAR => From(MKCOL, 3)
    case SEARCH => From(SUBSCRIBE, 1)
    case REBIND => From(REPORT, 2)
    case LINK => From(LOCK, 1)
    case UNSUBSCRIBE => From(UNLOCK, 2)
    case UNBIND => From(UNLOCK, 2)
    case UNLINK => From(UNLOCK, 3)
    case _ => First
  }

  /** The first guess is right about the first letter. */
  lemma FirstFits(m: Method)
    requires OriginOf(m).First?
    ensures |MethodString(m)| > 0 && FirstMethod(MethodString(m)[0]) == Some(m)
  {
  }

  /** A switch happens where the two words first differ, and leads to the right method. */
  lemma OriginFits(m: Method)
    requires OriginOf(m).From?
    ensures var o := OriginOf(m);
            var was := MethodString(o.m);
            var word := MethodString(m);
            && 0 < o.at < |word| && o.at < |was| && word[..o.at] == was[..o.at]
            && word[o.at] != was[o.at] && SwitchMethod(o.m, o.at, word[o.at]) == Some(m)
            && (OriginOf(o.m).From? ==> OriginOf(o.m).at < o.at)
  {
  }

  /** The switches lead nowhere else. */
  lemma SwitchIsOrigin(was: Method, at: nat, ch: char)
    ensures var r := SwitchMethod(was, at, ch);
            r.Some? ==> OriginOf(r.value) == From(was, at) && ch == MethodString(r.value)[at]
  {
    if was.MKCOL? {
      MkcolIsOrigin(at, ch);
    } else if was.UNLOCK? {
      UnlockIsOrigin(at, ch);
    }
  }

  lemma MkcolIsOrigin(at: nat, ch: char)
    ensures var r := SwitchFromMkcol(at, ch);
            r.Some? ==> OriginOf(r.value) == From(MKCOL, at) && ch == MethodString(r.value)[at]
  {
  }

  lemma UnlockIsOrigin(at: nat, ch: char)
    ensures var r := SwitchFromUnlock(at, ch);
            r.Some? ==> OriginOf(r.value) == From(UNLOCK, at) && ch == MethodString(r.value)[at]
  {
  }

  /** The method that is held after `k` letters of `m`. */
  function Guess(m: Method, k: nat): Method
    decreases if OriginOf(m).From? then OriginOf(m).at + 1 else 0
  {
    match OriginOf(m)
    case First => m
    case From(was, at) => if k <= at then OriginFits(m); Guess(was, k) else m
  }

  /** The letters read so far are those of the method that is held. */
  lemma {:induction false} GuessFits(m: Method, k: nat)
    requires k <= |MethodString(m)|
    ensures k <= |MethodString(Guess(m, k))| && MethodString(Guess(m, k))[..k] == MethodString(m)[..k]
    decreases if OriginOf(m).From? then OriginOf(m).at + 1 else 0
  {
    if OriginOf(m).From? && k <= OriginOf(m).at {
      var o := OriginOf(m);
      OriginFits(m);
      GuessFits(o.m, k);
      PrefixOfPrefix(MethodString(o.m), MethodString(m), o.at, k);
    }
  }

  lemma PrefixOfPrefix(a: string, b: string, n: nat, k: nat)
    requires k <= n <= |a| && n <= |b| && a[..n] == b[..n]
    ensures a[..k] == b[..k] && (k < n ==> a[k] == b[k])
  {
    assert a[..k] == a[..n][..k] && b[..k] == b[..n][..k];
    assert k < n ==> a[..n][k] == b[..n][k];
  }

  /** The next letter fits the method held, or switches it. */
  predicate StepsTo(g: Method, k: nat, ch: char, g': Method) {
    var word := MethodString(g);
    if k < |word| && word[k] == ch then g' == g else SwitchMethod(g, k, ch) == Some(g')
  }

  lemma {:induction false} GuessStep(m: Method, k: nat)
    requires 0 < k < |MethodString(m)|
    ensures StepsTo(Guess(m, k), k, MethodString(m)[k], Guess(m, k + 1))
    decreases if OriginOf(m).From? then OriginOf(m).at + 1 else 0
  {
    if OriginOf(m).From? && k <= OriginOf(m).at {
      var o := OriginOf(m);
      OriginFits(m);
      if k < o.at {
        PrefixOfPrefix(MethodString(o.m), MethodString(m), o.at, k);
        GuessStep(o.m, k);
      }
    }
  }

  predicate IsLetter(ch: char) {
    'A' <= ch <= 'Z' || ch == '-'
  }

  lemma MethodLetters(m: Method)
    ensures |MethodString(m)| > 1 && IsAlpha(MethodString(m)[0])
    ensures forall i :: 0 <= i < |MethodString(m)| ==> IsLetter(MethodString(m)[i])
  {
  }

  /** Reading a method: `k` letters of the message have been read. */
  function InMethod(p: Fields, m: Method, k: nat): Fields {
    p.(state := ReqMethod, verb := m, index := k, flags := NO_FLAGS, contentLength := UNSET)
  }

  lemma FirstLetter(c: Config, ch: char)
    requires Running(c) && c.p.state.StartReq? && ch != CR && ch != LF
    ensures var r := Next(c, ch);
            if IsAlpha(ch) && FirstMethod(ch).Some? then
              At(r, InMethod(c.p, FirstMethod(ch).value, 1), c.trace + [MessageBegin])
            else r.last == Fail && r.p.errno == InvalidMethod
  {
    Bite(c, ch, Micro(c.p, ch));
  }

  lemma NextLetter(c: Config, ch: char, g': Method)
    requires Running(c) && c.p.state.ReqMethod? && 0 < c.p.index <= |MethodString(c.p.verb)|
    requires ch != ' ' && ch != NUL && StepsTo(c.p.verb, c.p.index, ch, g')
    ensures At(Next(c, ch), c.p.(verb := g', index := c.p.index + 1), c.trace)
  {
    Bite(c, ch, Micro(c.p, ch));
  }

  /** Every method is read, letter by letter. */
  lemma {:induction false} MethodRead(c: Config, m: Method, k: nat)
    requires Running(c) && c.p.state.StartReq? && 0 < k <= |MethodString(m)|
    ensures At(Feed(c, MethodString(m)[..k]), InMethod(c.p, Guess(m, k), k), c.trace + [MessageBegin])
    decreases k
  {
    var word := MethodString(m);
    MethodLetters(m);
    FeedNext(c, word, k - 1);
    if k == 1 {
      assert word[..0] == [];
      FirstGuess(m);
      FirstLetter(c, word[0]);
    } else {
      MethodRead(c, m, k - 1);
      GuessFits(m, k - 1);
      GuessStep(m, k - 1);
      NextLetter(Feed(c, word[..k - 1]), word[k - 1], Guess(m, k));
    }
  }

  lemma {:induction false} FirstGuess(m: Method)
    ensures |MethodString(m)| > 0 && FirstMethod(MethodString(m)[0]) == Some(Guess(m, 1))
    decreases if OriginOf(m).From? then OriginOf(m).at + 1 else 0
  {
    if OriginOf(m).From? {
      OriginFits(m);
      FirstGuess(OriginOf(m).m);
      PrefixOfPrefix(MethodString(OriginOf(m).m), MethodString(m), OriginOf(m).at, 0);
    } else {
      FirstFits(m);
    }
  }

  lemma WholeGuess(m: Method)
    ensures Guess(m, |MethodString(m)|) == m
  {
    if OriginOf(m).From? {
      OriginFits(m);
    }
  }

  /** The space after a method. */
  lemma MethodEnd(c: Config)
    requires Running(c) && c.p.state.ReqMethod? && 0 < c.p.index <= |MethodString(c.p.verb)|
    ensures var r := Next(c, ' ');
            if c.p.index == |MethodString(c.p.verb)| then
              At(r, c.p.(state := ReqSpacesBeforeUrl, index := c.p.index + 1), c.trace)
            else r.last == Fail && r.p.errno == InvalidMethod
  {
    MethodLetters(c.p.verb);
    SwitchIsOrigin(c.p.verb, c.p.index, ' ');
    var o := Micro(c.p, ' ');
    if SwitchMethod(c.p.verb, c.p.index, ' ').Some? {
      MethodLetters(SwitchMethod(c.p.verb, c.p.index, ' ').value);
    }
    Bite(c, ' ', o);
  }

  /** The bytes of the message so far are the first letters of the method held, or have been refused. */
  predicate SpellsMethod(r: Config, w: string) {
    || (r.last == Fail && r.p.errno == InvalidMethod)
    || (r.last == Consume && r.p.state.ReqMethod? && r.p.index == |w| <= |MethodString(r.p.verb)| &&
        w == MethodString(r.p.verb)[..|w|])
  }

  lemma LetterSpells(r: Config, w: string, ch: char)
    requires w != [] && SpellsMethod(r, w) && ch != ' '
    ensures SpellsMethod(Next(r, ch), w + [ch])
  {
    if Running(r) {
      var o := Micro(r.p, ch);
      Bite(r, ch, o);
      SpelledOn(r.p, w, ch);
    }
  }

  lemma SpelledOn(p: Fields, w: string, ch: char)
    requires p.state.ReqMethod? && 0 < p.index == |w| <= |MethodString(p.verb)| && w == MethodString(p.verb)[..|w|]
    requires ch != ' '
    ensures var o := MethodByte(p, ch);
            || (o.act == Fail && o.p.errno == InvalidMethod)
            || (o.act == Consume && o.p.state.ReqMethod? && o.p.index == |w| + 1 <= |MethodString(o.p.verb)| &&
                w + [ch] == MethodString(o.p.verb)[..|w| + 1])
  {
    var word := MethodString(p.verb);
    if |w| < |word| && word[|w|] == ch {
      PrefixNext(word, w, ch);
    } else if SwitchMethod(p.verb, |w|, ch).Some? {
      SwitchedOn(p.verb, w, ch);
    }
  }

  lemma PrefixNext(word: string, w: string, ch: char)
    requires |w| < |word| && w == word[..|w|] && word[|w|] == ch
    ensures w + [ch] == word[..|w| + 1]
  {
  }

  /** A switch keeps the letters that have been read. */
  lemma SwitchedOn(was: Method, w: string, ch: char)
    requires 0 < |w| <= |MethodString(was)| && w == MethodString(was)[..|w|] && SwitchMethod(was, |w|, ch).Some?
    ensures var word := MethodString(SwitchMethod(was, |w|, ch).value);
            |w| < |word| && w + [ch] == word[..|w| + 1]
  {
    var m := SwitchMethod(was, |w|, ch).value;
    SwitchIsOrigin(was, |w|, ch);
    OriginFits(m);
    PrefixNext(MethodString(m), w, ch);
  }

  lemma {:induction false} BytesSpell(c: Config, w: string)
    requires Running(c) && c.p.state.StartReq? && w != [] && w[0] != CR && w[0] != LF && ' ' !in w
    ensures SpellsMethod(Feed(c, w), w)
  {
    var t := w[..|w| - 1];
    var ch := w[|w| - 1];
    assert w == t + [ch];
    if t == [] {
      FirstLetter(c, ch);
      FirstSpells(ch);
    } else {
      BytesSpell(c, t);
      LetterSpells(Feed(c, t), t, ch);
    }
  }

  lemma FirstSpells(ch: char)
    ensures FirstMethod(ch).Some? ==> MethodString(FirstMethod(ch).value)[..1] == [ch]
  {
    if FirstMethod(ch).Some? {
      MethodLetters(FirstMethod(ch).value);
    }
  }

  /** A message that starts with `w` and a space has a method exactly when `w` is one of the 33 method
      strings, and it is that one; any other start of a message is refused. */
  lemma MethodIsExact(c: Config, w: string)
    requires Running(c) && c.p.state.StartReq? && w != [] && w[0] != CR && w[0] != LF && ' ' !in w
    ensures var r := Feed(c, w + " ");
            if exists m :: MethodString(m) == w then
              && r.last == Consume && r.p.state.ReqSpacesBeforeUrl? && MethodString(r.p.verb) == w
              && r.trace == c.trace + [MessageBegin]
            else r.last == Fail && r.p.errno == InvalidMethod
  {
    var d := Feed(c, w);
    FeedLast(c, w, ' ');
    if m :| MethodString(m) == w {
      MethodRead(c, m, |w|);
      WholeGuess(m);
      assert w[..|w|] == w;
      MethodEnd(d);
    } else {
      BytesSpell(c, w);
      if Running(d) {
        MethodEnd(d);
        assert d.p.index == |MethodString(d.p.verb)| ==> MethodString(d.p.verb) == w;
      }
    }
  }

  /** The same for a given method, with the fields. */
  lemma MethodSegment(c: Config, m: Method)
    requires Running(c) && c.p.state.StartReq?
    ensures At(Feed(c, MethodString(m) + " "), AfterMethod(c.p, m), c.trace + [MessageBegin])
  {
    var w := MethodString(m);
    MethodLetters(m);
    MethodRead(c, m, |w|);
    WholeGuess(m);
    assert w[..|w|] == w;
    FeedLast(c, w, ' ');
    MethodEnd(Feed(c, w));
  }

  function AfterMethod(p: Fields, m: Method): Fields {
    InMethod(p, m, |MethodString(m)| + 1).(state := ReqSpacesBeforeUrl)
  }

  // ----- URL and version -------------------------------------------------------------------------

  /** From `c`, where a URL starts, the machine has read `url`. */
  predicate UrlAt(c: Config, r: Config, url: string) {
    var s := UrlFold(c.p.verb == CONNECT, url);
    if url == [] then r == c
    else s.Url? && At(r, c.p.(state := s), Emit(c.trace, Data(UrlText, url)))
  }

  lemma {:induction false} UrlBite(c: Config, r: Config, url: string, ch: char)
    requires Running(c) && c.p.state.ReqSpacesBeforeUrl? && UrlAt(c, r, url)
    requires UrlFold(c.p.verb == CONNECT, url + [ch]) != Dead
    ensures UrlAt(c, Next(r, ch), url + [ch])
  {
    UrlFoldNext(c.p.verb == CONNECT, url, ch);
    Bite(r, ch, UrlByte(r.p, ch));
    if url == [] {
      assert url + [ch] == [ch];
    } else {
      EmitTwice(c.trace, UrlText, url, [ch]);
    }
  }

  /** Every URL that parse_url_char accepts is read and handed over. */
  lemma {:induction false} UrlSegment(c: Config, url: string)
    requires Running(c) && c.p.state.ReqSpacesBeforeUrl? && UrlFold(c.p.verb == CONNECT, url) != Dead
    ensures UrlAt(c, Feed(c, url), url)
  {
    if url != [] {
      var t := url[..|url| - 1];
      var ch := url[|url| - 1];
      assert url == t + [ch];
      DeadStaysDead(c.p.verb == CONNECT, url, |t|);
      UrlSegment(c, t);
      UrlBite(c, Feed(c, t), t, ch);
      FeedLast(c, t, ch);
    }
  }

  /** A byte of the version that is no digit. */
  lemma VersionBite(c: Config, s: VersionState, ch: char)
    requires Running(c) && c.p.state == Version(s) && VersionNext(s, ch) != Dead && !IsNum(ch)
    ensures At(Next(c, ch), c.p.(state := VersionNext(s, ch)), c.trace)
  {
    Bite(c, ch, Micro(c.p, ch));
  }

  predicate AreSpaces(s: string) {
    forall i :: 0 <= i < |s| ==> s[i] == ' '
  }

  /** Spaces that leave the parser where it is. */
  lemma {:induction false} SpacesRead(c: Config, s: string)
    requires Running(c) && AreSpaces(s) && (c.p.state.ReqSpacesBeforeUrl? || c.p.state == Version(HttpStart))
    ensures if s == [] then Feed(c, s) == c else At(Feed(c, s), c.p, c.trace)
  {
    if s != [] {
      var t := s[..|s| - 1];
      SpacesRead(c, t);
      Bite(Feed(c, t), ' ', Micro(c.p, ' '));
    }
  }

  /** The first space after the URL. */
  lemma UrlEnd(c: Config)
    requires Running(c) && EndsUrl(c.p.state)
    ensures At(Next(c, ' '), c.p.(state := Version(HttpStart)), c.trace)
  {
    Bite(c, ' ', Micro(c.p, ' '));
  }

  lemma HttpSegment(c: Config)
    requires Running(c) && c.p.state == Version(HttpStart)
    ensures At(Feed(c, "HTTP/"), c.p.(state := Version(FirstHttpMajor)), c.trace)
  {
    VersionBites(c, HttpStart, 'H', HttpH, 'T', HttpHT);
    SlashSegment(Feed(c, ['H', 'T']));
    FeedWhole(c, ['H', 'T'], "TP/", "HTTP/");
  }

  lemma {:induction false} FeedWhole(c: Config, s: string, t: string, whole: string)
    requires whole == s + t
    ensures Feed(c, whole) == Feed(Feed(c, s), t)
  {
    FeedConcat(c, s, t);
  }

  lemma SlashSegment(c: Config)
    requires Running(c) && c.p.state == Version(HttpHT)
    ensures At(Feed(c, "TP/"), c.p.(state := Version(FirstHttpMajor)), c.trace)
  {
    var d := Feed(c, "TP");
    VersionBites(c, HttpHT, 'T', HttpHTT, 'P', HttpHTTP);
    VersionBite(d, HttpHTTP, '/');
    FeedOne(d, '/');
    FeedConcat(c, "TP", "/");
    assert "TP/" == "TP" + "/";
  }

  lemma VersionBites(c: Config, s: VersionState, a: char, s': VersionState, b: char, s'': VersionState)
    requires Running(c) && c.p.state == Version(s) && !IsNum(a) && !IsNum(b)
    requires VersionNext(s, a) == Version(s') && VersionNext(s', b) == Version(s'')
    ensures At(Feed(c, [a, b]), c.p.(state := Version(s'')), c.trace)
  {
    VersionBite(c, s, a);
    VersionBite(Next(c, a), s', b);
    FeedTwo(c, a, b);
  }

  predicate AreDigits(s: string) {
    s != [] && forall i :: 0 <= i < |s| ==> IsNum(s[i])
  }

  /** The parser has read the number `s` into a field that holds up to 999, or has refused it. */
  predicate NumberRead(r: Config, s: string, p: Fields, trace: seq<Event>) {
    if Decimal(s) <= 999 then At(r, p, trace) else r.last == Fail && r.p.errno == InvalidVersion
  }

  lemma DigitsNext(s: string)
    requires AreDigits(s)
    ensures var t := s[..|s| - 1];
            var ch := s[|s| - 1];
            && s == t + [ch] && IsNum(ch) && (t == [] || (AreDigits(t) && t[0] == s[0]))
            && Decimal(s) == Decimal(t) * 10 + DigitValue(ch)
  {
  }

  function AfterMajor(p: Fields, s: string): Fields {
    p.(state := Version(HttpMajor), httpMajor := Decimal(s))
  }

  lemma FirstMajorDigit(c: Config, ch: char)
    requires Running(c) && c.p.state == Version(FirstHttpMajor) && '1' <= ch <= '9'
    ensures NumberRead(Feed(c, [ch]), [ch], AfterMajor(c.p, [ch]), c.trace)
  {
    Bite(c, ch, VersionDigit(c.p, FirstHttpMajor, DigitValue(ch), Version(HttpMajor)));
    FeedOne(c, ch);
    OneDigitNumber(ch);
  }

  lemma OneDigitNumber(ch: char)
    requires IsNum(ch)
    ensures Decimal([ch]) == DigitValue(ch)
  {
    DecimalNext("", ch);
    assert "" + [ch] == [ch];
  }

  lemma NextMajorDigit(c: Config, r: Config, t: string, ch: char)
    requires NumberRead(r, t, AfterMajor(c.p, t), c.trace) && IsNum(ch)
    ensures NumberRead(Next(r, ch), t + [ch], AfterMajor(c.p, t + [ch]), c.trace)
  {
    DecimalNext(t, ch);
    if Running(r) {
      Bite(r, ch, Micro(r.p, ch));
    }
  }

  /** A major number is accepted exactly up to 999, however many digits it has. */
  lemma {:induction false} MajorIsExact(c: Config, s: string)
    requires Running(c) && c.p.state == Version(FirstHttpMajor) && AreDigits(s) && s[0] != '0'
    ensures NumberRead(Feed(c, s), s, AfterMajor(c.p, s), c.trace)
  {
    var t := s[..|s| - 1];
    DigitsNext(s);
    if t == [] {
      FirstMajorDigit(c, s[0]);
      assert s == [s[0]];
    } else {
      MajorIsExact(c, t);
      NextMajorDigit(c, Feed(c, t), t, s[|s| - 1]);
    }
  }

  function AfterMinor(p: Fields, s: string): Fields {
    p.(state := Version(HttpMinor), httpMinor := Decimal(s))
  }

  lemma FirstMinorDigit(c: Config, ch: char)
    requires Running(c) && c.p.state == Version(FirstHttpMinor) && IsNum(ch)
    ensures NumberRead(Feed(c, [ch]), [ch], AfterMinor(c.p, [ch]), c.trace)
  {
    Bite(c, ch, VersionDigit(c.p, FirstHttpMinor, DigitValue(ch), Version(HttpMinor)));
    FeedOne(c, ch);
    OneDigitNumber(ch);
  }

  lemma NextMinorDigit(c: Config, r: Config, t: string, ch: char)
    requires NumberRead(r, t, AfterMinor(c.p, t), c.trace) && IsNum(ch)
    ensures NumberRead(Next(r, ch), t + [ch], AfterMinor(c.p, t + [ch]), c.trace)
  {
    DecimalNext(t, ch);
    if Running(r) {
      Bite(r, ch, Micro(r.p, ch));
    }
  }

  /** The same for a minor number, which may start with zeros. */
  lemma {:induction false} MinorIsExact(c: Config, s: string)
    requires Running(c) && c.p.state == Version(FirstHttpMinor) && AreDigits(s)
    ensures NumberRead(Feed(c, s), s, AfterMinor(c.p, s), c.trace)
  {
    var t := s[..|s| - 1];
    DigitsNext(s);
    if t == [] {
      FirstMinorDigit(c, s[0]);
      assert s == [s[0]];
    } else {
      MinorIsExact(c, t);
      NextMinorDigit(c, Feed(c, t), t, s[|s| - 1]);
    }
  }

  /** `1.1` for major and minor 1. */
  lemma NumberSegment(c: Config, major: string, minor: string)
    requires Running(c) && c.p.state == Version(FirstHttpMajor) && AreVersion(major, minor)
    ensures At(Feed(c, major + "." + minor),
               c.p.(state := Version(HttpMinor), httpMajor := Decimal(major), httpMinor := Decimal(minor)), c.trace)
  {
    var d := Feed(c, major);
    MajorIsExact(c, major);
    VersionBite(d, HttpMajor, '.');
    FeedLast(c, major, '.');
    MinorIsExact(Next(d, '.'), minor);
    FeedConcat(c, major + ".", minor);
  }

  /** The numbers of a version that the parser accepts: two digit strings up to 999, the first without a zero in
      front. */
  predicate AreVersion(major: string, minor: string) {
    AreDigits(major) && major[0] != '0' && Decimal(major) <= 999 && AreDigits(minor) && Decimal(minor) <= 999
  }

  /** What follows the URL: nothing but a line end, which stands for version 0.9, or a version. */
  datatype Protocol =
    | Unversioned(end: string)
    | Versioned(spaces: string, major: string, minor: string, end: string)
  {
    function Major(): nat {
      if Unversioned? then 0 else Decimal(major)
    }

    function Minor(): nat {
      if Unversioned? then 9 else Decimal(minor)
    }

    function Text(): string {
      if Unversioned? then end else spaces + "HTTP/" + (major + "." + minor) + end
    }

    predicate Valid() {
      && IsLineEnd(end)
      && (Versioned? ==> spaces != [] && AreSpaces(spaces) && AreVersion(major, minor))
    }
  }

  /** A version as it is printed. */
  lemma PrintedVersion(spaces: string, major: nat, minor: nat, end: string)
    requires spaces != [] && AreSpaces(spaces) && IsLineEnd(end) && 0 < major <= 999 && minor <= 999
    ensures var v := Versioned(spaces, DecimalText(major), DecimalText(minor), end);
            v.Valid() && v.Major() == major && v.Minor() == minor
  {
    DecimalIsRead(major);
    DecimalIsRead(minor);
  }

  /** The rest of a request line. */
  lemma ProtocolSegment(c: Config, v: Protocol)
    requires Running(c) && EndsUrl(c.p.state) && v.Valid()
    ensures At(Feed(c, v.Text()),
               c.p.(state := HeaderFieldStart, httpMajor := v.Major(), httpMinor := v.Minor()), c.trace)
  {
    if v.Unversioned? {
      UrlLineEnd(c, v.end);
    } else {
      var numbers := v.major + "." + v.minor;
      SpacesAndHttp(c, v.spaces);
      var d := Feed(c, v.spaces + "HTTP/");
      NumberSegment(d, v.major, v.minor);
      FeedConcat(c, v.spaces + "HTTP/", numbers);
      LineEndSegment(Feed(d, numbers), v.end);
      FeedConcat(c, v.spaces + "HTTP/" + numbers, v.end);
    }
  }

  /** A line end after the URL. */
  lemma UrlLineEnd(c: Config, end: string)
    requires Running(c) && EndsUrl(c.p.state) && IsLineEnd(end)
    ensures At(Feed(c, end), c.p.(state := HeaderFieldStart, httpMajor := 0, httpMinor := 9), c.trace)
  {
    Bite(c, end[0], UrlByte(c.p, end[0]));
    if end == "\n" {
      FeedOne(c, LF);
    } else {
      VersionBite(Next(c, CR), LineAlmostDone, LF);
      FeedTwo(c, CR, LF);
    }
  }

  lemma {:induction false} SpacesAndHttp(c: Config, spaces: string)
    requires Running(c) && EndsUrl(c.p.state) && spaces != [] && AreSpaces(spaces)
    ensures At(Feed(c, spaces + "HTTP/"), c.p.(state := Version(FirstHttpMajor)), c.trace)
  {
    UrlEnd(c);
    SpacesRead(Next(c, ' '), spaces[1..]);
    FeedFirst(c, ' ', spaces[1..]);
    assert spaces == [' '] + spaces[1..];
    HttpSegment(Feed(c, spaces));
    FeedConcat(c, spaces, "HTTP/");
  }

  lemma LineEndSegment(c: Config, end: string)
    requires Running(c) && c.p.state == Version(HttpMinor) && IsLineEnd(end)
    ensures At(Feed(c, end), c.p.(state := HeaderFieldStart), c.trace)
  {
    if end == "\n" {
      VersionBite(c, HttpMinor, LF);
      FeedOne(c, LF);
    } else {
      VersionBite(c, HttpMinor, CR);
      VersionBite(Next(c, CR), LineAlmostDone, LF);
      FeedTwo(c, CR, LF);
    }
  }

  // ----- the whole line ----------------------------------------------------------------------------

  /** Line ends in front of a request. */
  predicate AreLineEnds(s: string) {
    forall i :: 0 <= i < |s| ==> s[i] == CR || s[i] == LF
  }

  lemma {:induction false} LineEndsSkipped(c: Config, s: string)
    requires Running(c) && c.p.state.StartReq? && AreLineEnds(s)
    ensures var r := Feed(c, s); Running(r) && r.p == c.p && r.trace == c.trace
  {
    if s != [] {
      var t := s[..|s| - 1];
      LineEndsSkipped(c, t);
      Bite(Feed(c, t), s[|s| - 1], StartReqByte(c.p, s[|s| - 1]));
    }
  }

  /** A method and the spaces behind it. */
  lemma {:induction false} MethodAndSpaces(c: Config, m: Method, spaces: string)
    requires Running(c) && c.p.state.StartReq? && spaces != [] && AreSpaces(spaces)
    ensures At(Feed(c, MethodString(m) + spaces), AfterMethod(c.p, m), c.trace + [MessageBegin])
  {
    MethodSegment(c, m);
    SpacesRead(Feed(c, MethodString(m) + " "), spaces[1..]);
    FirstSpace(c, MethodString(m), spaces);
  }

  lemma {:induction false} FirstSpace(c: Config, word: string, spaces: string)
    requires spaces != [] && spaces[0] == ' '
    ensures Feed(c, word + spaces) == Feed(Feed(c, word + " "), spaces[1..])
  {
    FeedConcat(c, word + " ", spaces[1..]);
    assert word + spaces == word + " " + spaces[1..];
  }
}
