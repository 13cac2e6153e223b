/** parse_url_char: the URL automaton shared by the request parser and the URL splitter. */
module UrlMachine {
  import opened Ascii
  import opened HttpTypes

  function ServerByte(ch: char): State {
    if ch == '/' then Url(Path)
    else if ch == '?' then Url(QueryStringStart)
    else if ch == '@' then Url(ServerWithAt)
    else if IsUserinfoChar(ch) || ch == '[' || ch == ']' then Url(Server)
    else Dead
  }

  function ParseUrlChar(s: State, ch: char): (s': State)
    ensures s'.Url? || s'.Dead?
  {
    if ch == ' ' || ch == CR || ch == LF || ch == '\t' || ch == FF then Dead
    else if s.ReqSpacesBeforeUrl? then
      if ch == '/' || ch == '*' then Url(Path) else if IsAlpha(ch) then Url(Schema) else Dead
    else if s.Url? then
      match s.url
      case Schema =>
        if IsAlpha(ch) then s else if ch == ':' then Url(SchemaSlash) else Dead
      case SchemaSlash =>
        if ch == '/' then Url(SchemaSlashSlash) else Dead
      case SchemaSlashSlash =>
        if ch == '/' then Url(ServerStart) else Dead
      case ServerWithAt =>
        if ch == '@' then Dead else ServerByte(ch)
      case ServerStart => ServerByte(ch)
      case Server => ServerByte(ch)
      case Path =>
        if IsUrlChar(ch) then s
        else if ch == '?' then Url(QueryStringStart)
        else if ch == '#' then Url(FragmentStart)
        else Dead
      case QueryStringStart =>
        if IsUrlChar(ch) || ch == '?' then Url(QueryString) else if ch == '#' then Url(FragmentStart) else Dead
      case QueryString =>
        if IsUrlChar(ch) || ch == '?' then s else if ch == '#' then Url(FragmentStart) else Dead
      case FragmentStart =>
        if IsUrlChar(ch) || ch == '?' then Url(Fragment) else if ch == '#' then s else Dead
      case Fragment =>
        if IsUrlChar(ch) || ch == '?' || ch == '#' then s else Dead
    else Dead
  }
}
