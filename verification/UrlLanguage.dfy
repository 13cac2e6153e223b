/** Which request URLs parse_url_char accepts, as a grammar. */
module UrlLanguage {
  import opened Ascii
  import opened HttpTypes
  import opened ByteMachine
  import opened UrlMachine
  import opened Knowledge

  // ----- the grammar -------------------------------------------------------------------------------

  predicate AreLetters(s: string) {
    s != [] && forall i :: 0 <= i < |s| ==> IsAlpha(s[i])
  }

  /** What stands in front of the server: nothing in the URL of a CONNECT request, else a schema. */
  ghost predicate IsStart(isConnect: bool, url: string) {
    if isConnect then url == "" else exists schema :: AreLetters(schema) && url == schema + "://"
  }

  predicate IsServerByte(ch: char) {
    IsUserinfoChar(ch) || ch == '[' || ch == ']' || ch == '@'
  }

  /** A server, with user information or without: no two at signs in a row. */
  predicate IsServer(s: string) {
    && (forall i :: 0 <= i < |s| ==> IsServerByte(s[i]))
    && forall i :: 0 < i < |s| ==> !(s[i - 1] == '@' && s[i] == '@')
  }

  /** Up to the end of the server. */
  ghost predicate IsAuthority(isConnect: bool, url: string) {
    forall key {:trigger Unfold(key)} :: Unfold(key) ==>
      exists start, server :: IsStart(isConnect, start) && IsServer(server) && url == start + server
  }

  predicate IsPath(path: string) {
    path != [] && forall i :: 0 < i < |path| ==> IsUrlChar(path[i])
  }

  /** Up to the end of a path: behind a server, or from the start of the URL, where it may also be an asterisk. */
  ghost predicate IsPathUrl(isConnect: bool, url: string) {
    forall key {:trigger Unfold(key)} :: Unfold(key) ==>
      exists before, path ::
        && IsPath(path) && url == before + path
        && if before == "" && !isConnect then path[0] == '/' || path[0] == '*'
           else IsAuthority(isConnect, before) && path[0] == '/'
  }

  predicate IsQuery(query: string) {
    forall i :: 0 <= i < |query| ==> IsUrlChar(query[i]) || query[i] == '?'
  }

  ghost predicate IsQueryUrl(isConnect: bool, url: string) {
    forall key {:trigger Unfold(key)} :: Unfold(key) ==>
      exists before, query ::
        && (IsAuthority(isConnect, before) || IsPathUrl(isConnect, before)) && IsQuery(query)
        && url == before + "?" + query
  }

  predicate IsFragment(fragment: string) {
    forall i :: 0 <= i < |fragment| ==> IsUrlChar(fragment[i]) || fragment[i] == '?' || fragment[i] == '#'
  }

  ghost predicate IsFragmentUrl(isConnect: bool, url: string) {
    forall key {:trigger Unfold(key)} :: Unfold(key) ==>
      exists before, fragment ::
        && (IsPathUrl(isConnect, before) || IsQueryUrl(isConnect, before)) && IsFragment(fragment)
        && url == before + "#" + fragment
  }

  /** A URL ends behind a server that is not empty, a path, a query or a fragment. */
  ghost predicate IsRequestUrl(isConnect: bool, url: string) {
    || (IsAuthority(isConnect, url) && !IsStart(isConnect, url))
    || IsPathUrl(isConnect, url) || IsQueryUrl(isConnect, url) || IsFragmentUrl(isConnect, url)
  }

  // ----- what is in the grammar is accepted ----------------------------------------------------------

  lemma {:induction false} LettersRead(s: string)
    requires AreLetters(s)
    ensures UrlFold(false, s) == Url(Schema)
  {
    var t := s[..|s| - 1];
    if t != [] {
      LettersRead(t);
    }
  }

  lemma {:induction false} StartRead(isConnect: bool, url: string)
    requires IsStart(isConnect, url)
    ensures UrlFold(isConnect, url) == Url(ServerStart)
  {
    if !isConnect {
      var schema :| AreLetters(schema) && url == schema + "://";
      LettersRead(schema);
      UrlFoldNext(false, schema, ':');
      UrlFoldNext(false, schema + ":", '/');
      UrlFoldNext(false, schema + ":" + "/", '/');
      assert url == schema + ":" + "/" + "/";
    }
  }

  /** The state behind a server. */
  function ServerState(server: string): State {
    if server == [] then Url(ServerStart) else if server[|server| - 1] == '@' then Url(ServerWithAt) else Url(Server)
  }

  lemma {:induction false} ServerInTwo(server: string)
    requires IsServer(server) && server != []
    ensures var t, ch := server[..|server| - 1], server[|server| - 1];
            && IsServer(t) && IsServerByte(ch) && server == t + [ch]
            && (ServerState(t) == Url(ServerWithAt) ==> ch != '@')
  {
  }

  lemma {:induction false} ServerIsRead(isConnect: bool, start: string, server: string)
    requires IsStart(isConnect, start) && IsServer(server)
    ensures UrlFold(isConnect, start + server) == ServerState(server)
  {
    if server == [] {
      StartRead(isConnect, start);
      assert start + server == start;
    } else {
      var t, ch := server[..|server| - 1], server[|server| - 1];
      ServerInTwo(server);
      ServerIsRead(isConnect, start, t);
      OneMore(start, "", t, ch);
      assert start + "" == start;
      UrlFoldNext(isConnect, start + t, ch);
      ServerStateNext(t, ch);
    }
  }

  lemma ServerStateNext(t: string, ch: char)
    requires IsServerByte(ch) && (ServerState(t) == Url(ServerWithAt) ==> ch != '@')
    ensures ParseUrlChar(ServerState(t), ch) == ServerState(t + [ch])
  {
  }

  /** A state at the end of a server, or in front of it. */
  predicate AtServer(s: State) {
    s == Url(ServerStart) || s == Url(Server) || s == Url(ServerWithAt)
  }

  lemma {:induction false} AuthorityRead(isConnect: bool, url: string)
    requires IsAuthority(isConnect, url)
    ensures AtServer(UrlFold(isConnect, url))
    ensures !IsStart(isConnect, url) ==> UrlFold(isConnect, url) != Url(ServerStart)
  {
    assert Unfold(0);
    var start, server :| IsStart(isConnect, start) && IsServer(server) && url == start + server;
    ServerIsRead(isConnect, start, server);
    if server == [] {
      assert url == start;
    }
  }

  lemma {:induction false} PathRead(isConnect: bool, before: string, path: string)
    requires IsPath(path)
    requires if before == "" && !isConnect then path[0] == '/' || path[0] == '*'
             else IsAuthority(isConnect, before) && path[0] == '/'
    ensures UrlFold(isConnect, before + path) == Url(Path)
  {
    var t, ch := path[..|path| - 1], path[|path| - 1];
    assert before + path == before + t + [ch];
    UrlFoldNext(isConnect, before + t, ch);
    if t == [] {
      assert before + t == before;
      if before != "" || isConnect {
        AuthorityRead(isConnect, before);
      }
    } else {
      PathRead(isConnect, before, t);
    }
  }

  lemma {:induction false} PathUrlRead(isConnect: bool, url: string)
    requires IsPathUrl(isConnect, url)
    ensures UrlFold(isConnect, url) == Url(Path)
  {
    assert Unfold(0);
    var before, path :|
      && IsPath(path) && url == before + path
      && if before == "" && !isConnect then path[0] == '/' || path[0] == '*'
         else IsAuthority(isConnect, before) && path[0] == '/';
    PathRead(isConnect, before, path);
  }

  lemma {:induction false} QueryRead(isConnect: bool, front: string, query: string)
    requires IsQuery(query) && UrlFold(isConnect, front) == Url(QueryStringStart)
    ensures UrlFold(isConnect, front + query) == if query == [] then Url(QueryStringStart) else Url(QueryString)
  {
    if query == [] {
      assert front + query == front;
    } else {
      var t, ch := query[..|query| - 1], query[|query| - 1];
      QueryRead(isConnect, front, t);
      UrlFoldNext(isConnect, front + t, ch);
      assert front + query == front + t + [ch];
    }
  }

  lemma {:induction false} DelimiterRead(isConnect: bool, before: string, delimiter: string)
    requires var s := UrlFold(isConnect, before);
             || (delimiter == "?" && (AtServer(s) || s == Url(Path)))
             || (delimiter == "#" && (s == Url(Path) || s == Url(QueryStringStart) || s == Url(QueryString)))
    ensures UrlFold(isConnect, before + delimiter)
         == if delimiter == "?" then Url(QueryStringStart) else Url(FragmentStart)
  {
    UrlFoldNext(isConnect, before, delimiter[0]);
    assert delimiter == [delimiter[0]];
  }

  lemma {:induction false} QueryStarts(isConnect: bool, before: string)
    requires IsAuthority(isConnect, before) || IsPathUrl(isConnect, before)
    ensures UrlFold(isConnect, before + "?") == Url(QueryStringStart)
  {
    if IsAuthority(isConnect, before) {
      AuthorityRead(isConnect, before);
    } else {
      PathUrlRead(isConnect, before);
    }
    DelimiterRead(isConnect, before, "?");
  }

  lemma {:induction false} QueryUrlRead(isConnect: bool, url: string)
    requires IsQueryUrl(isConnect, url)
    ensures UrlFold(isConnect, url) == Url(QueryStringStart) || UrlFold(isConnect, url) == Url(QueryString)
  {
    assert Unfold(0);
    var before, query :|
      && (IsAuthority(isConnect, before) || IsPathUrl(isConnect, before)) && IsQuery(query)
      && url == before + "?" + query;
    QueryStarts(isConnect, before);
    QueryRead(isConnect, before + "?", query);
  }

  lemma {:induction false} FragmentRead(isConnect: bool, front: string, fragment: string)
    requires IsFragment(fragment) && UrlFold(isConnect, front) == Url(FragmentStart)
    ensures var s := UrlFold(isConnect, front + fragment); s == Url(FragmentStart) || s == Url(Fragment)
  {
    if fragment == [] {
      assert front + fragment == front;
    } else {
      var t, ch := fragment[..|fragment| - 1], fragment[|fragment| - 1];
      FragmentRead(isConnect, front, t);
      UrlFoldNext(isConnect, front + t, ch);
      assert front + fragment == front + t + [ch];
    }
  }

  lemma {:induction false} FragmentStarts(isConnect: bool, before: string)
    requires IsPathUrl(isConnect, before) || IsQueryUrl(isConnect, before)
    ensures UrlFold(isConnect, before + "#") == Url(FragmentStart)
  {
    if IsPathUrl(isConnect, before) {
      PathUrlRead(isConnect, before);
    } else {
      QueryUrlRead(isConnect, before);
    }
    DelimiterRead(isConnect, before, "#");
  }

  lemma {:induction false} FragmentUrlRead(isConnect: bool, url: string)
    requires IsFragmentUrl(isConnect, url)
    ensures UrlFold(isConnect, url) == Url(FragmentStart) || UrlFold(isConnect, url) == Url(Fragment)
  {
    assert Unfold(0);
    var before, fragment :|
      && (IsPathUrl(isConnect, before) || IsQueryUrl(isConnect, before)) && IsFragment(fragment)
      && url == before + "#" + fragment;
    FragmentStarts(isConnect, before);
    FragmentRead(isConnect, before + "#", fragment);
  }

  // ----- and the other way round ---------------------------------------------------------------------

  /** What a URL looks like that has led to state `s`. */
  ghost predicate HasShape(isConnect: bool, s: State, url: string) {
    if s.ReqSpacesBeforeUrl? then !isConnect && url == ""
    else if s.Url? then
      match s.url
      case Schema => !isConnect && AreLetters(url)
      case SchemaSlash => !isConnect && exists schema :: AreLetters(schema) && url == schema + ":"
      case SchemaSlashSlash => !isConnect && exists schema :: AreLetters(schema) && url == schema + ":/"
      case ServerStart => IsStart(isConnect, url)
      case Server => IsServerUrl(isConnect, url, s)
      case ServerWithAt => IsServerUrl(isConnect, url, s)
      case Path => IsPathUrl(isConnect, url)
      case QueryStringStart => IsQueryUrl(isConnect, url)
      case QueryString => IsQueryUrl(isConnect, url)
      case FragmentStart => IsFragmentUrl(isConnect, url)
      case Fragment => IsFragmentUrl(isConnect, url)
    else false
  }

  ghost predicate IsServerUrl(isConnect: bool, url: string, s: State) {
    exists start, server ::
      IsStart(isConnect, start) && IsServer(server) && url == start + server && ServerState(server) == s
  }

  lemma {:induction false} SchemaNext(url: string, s: State, ch: char)
    requires HasShape(false, s, url) && (s == Url(Schema) || s == Url(SchemaSlash) || s == Url(SchemaSlashSlash))
    requires ParseUrlChar(s, ch) != Dead
    ensures HasShape(false, ParseUrlChar(s, ch), url + [ch])
  {
    if s == Url(SchemaSlash) {
      var schema :| AreLetters(schema) && url == schema + ":";
      assert url + [ch] == schema + ":/";
    } else if s == Url(SchemaSlashSlash) {
      var schema :| AreLetters(schema) && url == schema + ":/";
      assert url + [ch] == schema + "://";
    } else if ch == ':' {
      assert url + [ch] == url + ":";
    }
  }

  lemma {:induction false} ServerNext(isConnect: bool, url: string, start: string, server: string, ch: char)
    requires IsStart(isConnect, start) && IsServer(server) && url == start + server
    requires ParseUrlChar(ServerState(server), ch) != Dead
    ensures HasShape(isConnect, ParseUrlChar(ServerState(server), ch), url + [ch])
  {
    assert IsAuthority(isConnect, url);
    if ch == '/' {
      assert IsPath([ch]) && url + [ch] == url + [ch];
      ConnectOrNot(isConnect, url);
    } else if ch == '?' {
      assert IsQuery("") && url + [ch] == url + "?" + "";
    } else {
      assert IsServer(server + [ch]) && url + [ch] == start + (server + [ch]);
    }
  }

  lemma ConnectOrNot(isConnect: bool, url: string)
    requires IsAuthority(isConnect, url)
    ensures url == "" ==> isConnect
  {
    assert Unfold(0);
  }

  lemma {:induction false} PathNext(isConnect: bool, url: string, ch: char)
    requires IsPathUrl(isConnect, url) && ParseUrlChar(Url(Path), ch) != Dead
    ensures HasShape(isConnect, ParseUrlChar(Url(Path), ch), url + [ch])
  {
    if ch == '?' {
      assert IsQuery("") && url + [ch] == url + "?" + "";
    } else if ch == '#' {
      assert IsFragment("") && url + [ch] == url + "#" + "";
    } else {
      assert Unfold(0);
      var before, path :|
        && IsPath(path) && url == before + path
        && if before == "" && !isConnect then path[0] == '/' || path[0] == '*'
           else IsAuthority(isConnect, before) && path[0] == '/';
      assert IsPath(path + [ch]) && url + [ch] == before + (path + [ch]) && (path + [ch])[0] == path[0];
    }
  }

  lemma {:induction false} QueryGrows(isConnect: bool, url: string, ch: char)
    requires IsQueryUrl(isConnect, url) && (IsUrlChar(ch) || ch == '?')
    ensures IsQueryUrl(isConnect, url + [ch])
  {
    assert Unfold(0);
    var before, query :|
      && (IsAuthority(isConnect, before) || IsPathUrl(isConnect, before)) && IsQuery(query)
      && url == before + "?" + query;
    LongerQuery(query, ch);
    OneMore(before, "?", query, ch);
  }

  lemma {:induction false} QueryNext(isConnect: bool, url: string, s: State, ch: char)
    requires IsQueryUrl(isConnect, url) && (s == Url(QueryStringStart) || s == Url(QueryString))
    requires ParseUrlChar(s, ch) != Dead
    ensures HasShape(isConnect, ParseUrlChar(s, ch), url + [ch])
  {
    if ch == '#' {
      assert IsFragment("") && url + [ch] == url + "#" + "";
    } else {
      QueryGrows(isConnect, url, ch);
    }
  }

  lemma OneMore(before: string, mark: string, text: string, ch: char)
    ensures before + mark + text + [ch] == before + mark + (text + [ch])
  {
  }

  lemma LongerQuery(query: string, ch: char)
    requires IsQuery(query) && (IsUrlChar(ch) || ch == '?')
    ensures IsQuery(query + [ch])
  {
  }

  lemma LongerFragment(fragment: string, ch: char)
    requires IsFragment(fragment) && (IsUrlChar(ch) || ch == '?' || ch == '#')
    ensures IsFragment(fragment + [ch])
  {
  }

  lemma {:induction false} FragmentGrows(isConnect: bool, url: string, ch: char)
    requires IsFragmentUrl(isConnect, url) && (IsUrlChar(ch) || ch == '?' || ch == '#')
    ensures IsFragmentUrl(isConnect, url + [ch])
  {
    assert Unfold(0);
    var before, fragment :|
      && (IsPathUrl(isConnect, before) || IsQueryUrl(isConnect, before)) && IsFragment(fragment)
      && url == before + "#" + fragment;
    LongerFragment(fragment, ch);
    OneMore(before, "#", fragment, ch);
  }

  lemma {:induction false} FragmentNext(isConnect: bool, url: string, s: State, ch: char)
    requires IsFragmentUrl(isConnect, url) && (s == Url(FragmentStart) || s == Url(Fragment))
    requires ParseUrlChar(s, ch) != Dead
    ensures HasShape(isConnect, ParseUrlChar(s, ch), url + [ch])
  {
    FragmentGrows(isConnect, url, ch);
  }

  lemma {:induction false} ShapeNext(isConnect: bool, s: State, url: string, ch: char)
    requires HasShape(isConnect, s, url) && ParseUrlChar(s, ch) != Dead
    ensures HasShape(isConnect, ParseUrlChar(s, ch), url + [ch])
  {
    if s.ReqSpacesBeforeUrl? {
      assert url + [ch] == [ch];
      if ch == '/' || ch == '*' {
        assert IsPath([ch]) && "" + [ch] == [ch];
      }
    } else {
      match s.url
      case Schema => SchemaNext(url, s, ch);
      case SchemaSlash => SchemaNext(url, s, ch);
      case SchemaSlashSlash => SchemaNext(url, s, ch);
      case ServerStart =>
        assert url == url + "";
        ServerNext(isConnect, url, url, "", ch);
      case Server =>
        assert Unfold(0);
        var start, server :|
          IsStart(isConnect, start) && IsServer(server) && url == start + server && ServerState(server) == s;
        ServerNext(isConnect, url, start, server, ch);
      case ServerWithAt =>
        assert Unfold(0);
        var start, server :|
          IsStart(isConnect, start) && IsServer(server) && url == start + server && ServerState(server) == s;
        ServerNext(isConnect, url, start, server, ch);
      case Path => PathNext(isConnect, url, ch);
      case QueryStringStart => QueryNext(isConnect, url, s, ch);
      case QueryString => QueryNext(isConnect, url, s, ch);
      case FragmentStart => FragmentNext(isConnect, url, s, ch);
      case Fragment => FragmentNext(isConnect, url, s, ch);
    }
  }

  lemma {:induction false} LiveHasShape(isConnect: bool, url: string)
    requires UrlFold(isConnect, url) != Dead
    ensures HasShape(isConnect, UrlFold(isConnect, url), url)
  {
    if url != [] {
      var t, ch := url[..|url| - 1], url[|url| - 1];
      assert url == t + [ch];
      DeadStaysDead(isConnect, url, |t|);
      LiveHasShape(isConnect, t);
      ShapeNext(isConnect, UrlFold(isConnect, t), t, ch);
    }
  }

  /** The URLs of requests are exactly those of the grammar. */
  lemma {:induction false} UrlIsExact(isConnect: bool, url: string)
    ensures EndsUrl(UrlFold(isConnect, url)) <==> IsRequestUrl(isConnect, url)
  {
    if EndsUrl(UrlFold(isConnect, url)) {
      LiveHasShape(isConnect, url);
      ServerIsNoStart(isConnect, url);
    }
    if IsAuthority(isConnect, url) && !IsStart(isConnect, url) {
      AuthorityRead(isConnect, url);
    } else if IsPathUrl(isConnect, url) {
      PathUrlRead(isConnect, url);
    } else if IsQueryUrl(isConnect, url) {
      QueryUrlRead(isConnect, url);
    } else if IsFragmentUrl(isConnect, url) {
      FragmentUrlRead(isConnect, url);
    }
  }

  lemma {:induction false} ServerIsNoStart(isConnect: bool, url: string)
    requires UrlFold(isConnect, url) == Url(Server) || UrlFold(isConnect, url) == Url(ServerWithAt) ==>
               IsServerUrl(isConnect, url, UrlFold(isConnect, url))
    ensures UrlFold(isConnect, url) == Url(Server) || UrlFold(isConnect, url) == Url(ServerWithAt) ==>
              IsAuthority(isConnect, url) && !IsStart(isConnect, url)
  {
    if IsStart(isConnect, url) {
      StartRead(isConnect, url);
    }
  }
}
