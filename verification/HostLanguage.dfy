/** Which server texts http_parse_host accepts, as a grammar. */
module HostLanguage {
  import opened Ascii
  import opened HttpTypes
  import opened Tables
  import opened UrlFields

  // ----- the characters ----------------------------------------------------------------------------

  lemma ZoneCharTable(ch: char)
    ensures IsZoneChar(ch) <==> ch in CAPITALS + SMALLS + DIGITS + "%.-_~"
  {
    AlphaNumTable(ch);
  }

  lemma V6CharTable(ch: char)
    ensures IsV6Char(ch) <==> ch in HEX_CAPITALS || ch in HEX_SMALLS || ch == ':' || ch == '.'
  {
    HexTable(ch);
  }

  // ----- the grammar -------------------------------------------------------------------------------

  predicate IsUserinfo(s: string) {
    forall i :: 0 <= i < |s| ==> IsUserinfoChar(s[i])
  }

  /** What stands in front of the host: user information and an at sign, if there is one. */
  ghost predicate IsHostStart(foundAt: bool, t: string) {
    if foundAt then exists userinfo :: IsUserinfo(userinfo) && t == userinfo + "@" else t == ""
  }

  predicate IsName(s: string) {
    s != [] && forall i :: 0 <= i < |s| ==> IsHostChar(s[i])
  }

  predicate IsAddress(s: string) {
    s != [] && forall i :: 0 <= i < |s| ==> IsV6Char(s[i])
  }

  predicate IsZone(s: string) {
    s != [] && forall i :: 0 <= i < |s| ==> IsZoneChar(s[i])
  }

  predicate IsPort(s: string) {
    s != [] && forall i :: 0 <= i < |s| ==> IsNum(s[i])
  }

  /** Up to the end of a name. */
  ghost predicate IsNamed(foundAt: bool, t: string) {
    forall key {:trigger Unfold(key)} :: Unfold(key) ==>
      exists start, name :: IsHostStart(foundAt, start) && IsName(name) && t == start + name
  }

  /** Up to the end of the address between brackets. */
  ghost predicate IsOpened(foundAt: bool, t: string) {
    forall key {:trigger Unfold(key)} :: Unfold(key) ==>
      exists start, address :: IsHostStart(foundAt, start) && IsAddress(address) && t == start + "[" + address
  }

  ghost predicate IsZoned(foundAt: bool, t: string) {
    forall key {:trigger Unfold(key)} :: Unfold(key) ==>
      exists before, zone :: IsOpened(foundAt, before) && IsZone(zone) && t == before + "%" + zone
  }

  ghost predicate IsClosed(foundAt: bool, t: string) {
    forall key {:trigger Unfold(key)} :: Unfold(key) ==>
      exists before :: (IsOpened(foundAt, before) || IsZoned(foundAt, before)) && t == before + "]"
  }

  ghost predicate IsPorted(foundAt: bool, t: string) {
    forall key {:trigger Unfold(key)} :: Unfold(key) ==>
      exists before, port ::
        (IsNamed(foundAt, before) || IsClosed(foundAt, before)) && IsPort(port) && t == before + ":" + port
  }

  /** A host, and a port if there is one. */
  ghost predicate IsServerText(foundAt: bool, t: string) {
    IsNamed(foundAt, t) || IsClosed(foundAt, t) || IsPorted(foundAt, t)
  }

  // ----- what is in the grammar is accepted ----------------------------------------------------------

  lemma HostFoldNext(foundAt: bool, t: string, ch: char)
    ensures HostFold(foundAt, t + [ch]) == HostChar(HostFold(foundAt, t), ch)
  {
    assert (t + [ch])[..|t|] == t;
  }

  lemma {:induction false} UserinfoRead(s: string)
    requires IsUserinfo(s)
    ensures HostFold(true, s) == if s == [] then UserinfoStart else Userinfo
  {
    if s != [] {
      UserinfoRead(s[..|s| - 1]);
    }
  }

  lemma {:induction false} StartRead(foundAt: bool, t: string)
    requires IsHostStart(foundAt, t)
    ensures HostFold(foundAt, t) == HostStart
  {
    if foundAt {
      var userinfo :| IsUserinfo(userinfo) && t == userinfo + "@";
      UserinfoRead(userinfo);
      HostFoldNext(true, userinfo, '@');
      assert t == userinfo + ['@'];
    }
  }

  lemma OneMore(before: string, text: string, ch: char)
    ensures before + text + [ch] == before + (text + [ch])
  {
  }

  /** Bytes that keep a state. */
  lemma {:induction false} RunRead(foundAt: bool, before: string, text: string, from: HostState, to: HostState)
    requires HostFold(foundAt, before) == from && text != []
    requires forall i :: 0 <= i < |text| ==> HostChar(from, text[i]) == to && HostChar(to, text[i]) == to
    ensures HostFold(foundAt, before + text) == to
  {
    var t, ch := text[..|text| - 1], text[|text| - 1];
    assert text == t + [ch];
    OneMore(before, t, ch);
    HostFoldNext(foundAt, before + t, ch);
    if t == [] {
      assert before + t == before;
    } else {
      RunRead(foundAt, before, t, from, to);
    }
  }

  lemma {:induction false} MarkRead(foundAt: bool, before: string, mark: char)
    ensures HostFold(foundAt, before + [mark]) == HostChar(HostFold(foundAt, before), mark)
  {
    HostFoldNext(foundAt, before, mark);
  }

  lemma {:induction false} NamedRead(foundAt: bool, t: string)
    requires IsNamed(foundAt, t)
    ensures HostFold(foundAt, t) == HostName
  {
    assert Unfold(0);
    var start, name :| IsHostStart(foundAt, start) && IsName(name) && t == start + name;
    StartRead(foundAt, start);
    RunRead(foundAt, start, name, HostStart, HostName);
  }

  lemma {:induction false} OpenedRead(foundAt: bool, t: string)
    requires IsOpened(foundAt, t)
    ensures HostFold(foundAt, t) == HostV6
  {
    assert Unfold(0);
    var start, address :| IsHostStart(foundAt, start) && IsAddress(address) && t == start + "[" + address;
    StartRead(foundAt, start);
    MarkRead(foundAt, start, '[');
    RunRead(foundAt, start + "[", address, HostV6Start, HostV6);
  }

  lemma {:induction false} ZonedRead(foundAt: bool, t: string)
    requires IsZoned(foundAt, t)
    ensures HostFold(foundAt, t) == Zone
  {
    assert Unfold(0);
    var before, zone :| IsOpened(foundAt, before) && IsZone(zone) && t == before + "%" + zone;
    OpenedRead(foundAt, before);
    MarkRead(foundAt, before, '%');
    RunRead(foundAt, before + "%", zone, ZoneStart, Zone);
  }

  lemma {:induction false} ClosedRead(foundAt: bool, t: string)
    requires IsClosed(foundAt, t)
    ensures HostFold(foundAt, t) == HostV6End
  {
    assert Unfold(0);
    var before :| (IsOpened(foundAt, before) || IsZoned(foundAt, before)) && t == before + "]";
    if IsOpened(foundAt, before) {
      OpenedRead(foundAt, before);
    } else {
      ZonedRead(foundAt, before);
    }
    MarkRead(foundAt, before, ']');
  }

  lemma {:induction false} PortedRead(foundAt: bool, t: string)
    requires IsPorted(foundAt, t)
    ensures HostFold(foundAt, t) == Port
  {
    assert Unfold(0);
    var before, port :|
      (IsNamed(foundAt, before) || IsClosed(foundAt, before)) && IsPort(port) && t == before + ":" + port;
    if IsNamed(foundAt, before) {
      NamedRead(foundAt, before);
    } else {
      ClosedRead(foundAt, before);
    }
    MarkRead(foundAt, before, ':');
    RunRead(foundAt, before + ":", port, PortStart, Port);
  }

  // ----- and the other way round ---------------------------------------------------------------------

  /** What a server text looks like that has led to state `s`. */
  ghost predicate HasShape(foundAt: bool, s: HostState, t: string) {
    match s
    case HostDead => false
    case UserinfoStart => foundAt && t == ""
    case Userinfo => foundAt && IsUserinfo(t)
    case HostStart => IsHostStart(foundAt, t)
    case HostV6Start => IsBracketed(foundAt, t)
    case HostName => IsNamed(foundAt, t)
    case HostV6 => IsOpened(foundAt, t)
    case HostV6End => IsClosed(foundAt, t)
    case ZoneStart => IsZoneStart(foundAt, t)
    case Zone => IsZoned(foundAt, t)
    case PortStart => IsPortStart(foundAt, t)
    case Port => IsPorted(foundAt, t)
  }

  ghost predicate IsBracketed(foundAt: bool, t: string) {
    forall key {:trigger Unfold(key)} :: Unfold(key) ==>
      exists start :: IsHostStart(foundAt, start) && t == start + "["
  }

  ghost predicate IsZoneStart(foundAt: bool, t: string) {
    forall key {:trigger Unfold(key)} :: Unfold(key) ==>
      exists before :: IsOpened(foundAt, before) && t == before + "%"
  }

  ghost predicate IsPortStart(foundAt: bool, t: string) {
    forall key {:trigger Unfold(key)} :: Unfold(key) ==>
      exists before :: (IsNamed(foundAt, before) || IsClosed(foundAt, before)) && t == before + ":"
  }

  lemma {:induction false} StartNext(foundAt: bool, s: HostState, t: string, ch: char)
    requires HasShape(foundAt, s, t) && (s.UserinfoStart? || s.Userinfo? || s.HostStart?) && HostChar(s, ch) != HostDead
    ensures HasShape(foundAt, HostChar(s, ch), t + [ch])
  {
    if s.HostStart? {
      if ch == '[' {
        assert t + [ch] == t + "[";
      } else {
        assert IsName([ch]) && t + [ch] == t + [ch];
      }
    } else if ch == '@' {
      assert IsUserinfo(t) && t + [ch] == t + "@";
    }
  }

  lemma {:induction false} NameNext(foundAt: bool, t: string, ch: char)
    requires IsNamed(foundAt, t) && HostChar(HostName, ch) != HostDead
    ensures HasShape(foundAt, HostChar(HostName, ch), t + [ch])
  {
    assert Unfold(0);
    if ch == ':' && !IsHostChar(ch) {
      assert t + [ch] == t + ":";
    } else {
      var start, name :| IsHostStart(foundAt, start) && IsName(name) && t == start + name;
      OneMore(start, name, ch);
      assert IsName(name + [ch]);
    }
  }

  lemma {:induction false} BracketNext(foundAt: bool, t: string, ch: char)
    requires IsBracketed(foundAt, t) && IsV6Char(ch)
    ensures IsOpened(foundAt, t + [ch])
  {
    assert Unfold(0);
    var start :| IsHostStart(foundAt, start) && t == start + "[";
    assert IsAddress([ch]) && t + [ch] == start + "[" + [ch];
  }

  lemma {:induction false} AddressNext(foundAt: bool, t: string, ch: char)
    requires IsOpened(foundAt, t) && IsV6Char(ch)
    ensures IsOpened(foundAt, t + [ch])
  {
    assert Unfold(0);
    var start, address :| IsHostStart(foundAt, start) && IsAddress(address) && t == start + "[" + address;
    OneMore(start + "[", address, ch);
    assert IsAddress(address + [ch]);
  }

  lemma {:induction false} CloseNext(foundAt: bool, t: string)
    requires IsOpened(foundAt, t) || IsZoned(foundAt, t)
    ensures IsClosed(foundAt, t + "]")
  {
  }

  lemma {:induction false} PercentNext(foundAt: bool, t: string)
    requires IsOpened(foundAt, t)
    ensures IsZoneStart(foundAt, t + "%")
  {
  }

  lemma {:induction false} ColonNext(foundAt: bool, t: string)
    requires IsNamed(foundAt, t) || IsClosed(foundAt, t)
    ensures IsPortStart(foundAt, t + ":")
  {
  }

  lemma {:induction false} V6Next(foundAt: bool, t: string, ch: char)
    requires IsOpened(foundAt, t) && HostChar(HostV6, ch) != HostDead
    ensures HasShape(foundAt, HostChar(HostV6, ch), t + [ch])
  {
    if ch == ']' {
      CloseNext(foundAt, t);
    } else if IsV6Char(ch) {
      AddressNext(foundAt, t, ch);
    } else {
      PercentNext(foundAt, t);
    }
  }

  lemma {:induction false} ZoneNext(foundAt: bool, s: HostState, t: string, ch: char)
    requires HasShape(foundAt, s, t) && (s.ZoneStart? || s.Zone?) && HostChar(s, ch) != HostDead
    ensures HasShape(foundAt, HostChar(s, ch), t + [ch])
  {
    assert Unfold(0);
    if s.ZoneStart? {
      var before :| IsOpened(foundAt, before) && t == before + "%";
      assert IsZone([ch]) && t + [ch] == before + "%" + [ch];
    } else if ch == ']' {
      CloseNext(foundAt, t);
    } else {
      var before, zone :| IsOpened(foundAt, before) && IsZone(zone) && t == before + "%" + zone;
      OneMore(before + "%", zone, ch);
      assert IsZone(zone + [ch]);
    }
  }

  lemma {:induction false} PortNext(foundAt: bool, s: HostState, t: string, ch: char)
    requires HasShape(foundAt, s, t) && (s.PortStart? || s.Port?) && HostChar(s, ch) != HostDead
    ensures IsPorted(foundAt, t + [ch])
  {
    assert Unfold(0);
    if s.PortStart? {
      var before :| (IsNamed(foundAt, before) || IsClosed(foundAt, before)) && t == before + ":";
      assert IsPort([ch]) && t + [ch] == before + ":" + [ch];
    } else {
      var before, port :|
        (IsNamed(foundAt, before) || IsClosed(foundAt, before)) && IsPort(port) && t == before + ":" + port;
      OneMore(before + ":", port, ch);
      assert IsPort(port + [ch]);
    }
  }

  lemma {:induction false} ShapeNext(foundAt: bool, s: HostState, t: string, ch: char)
    requires HasShape(foundAt, s, t) && HostChar(s, ch) != HostDead
    ensures HasShape(foundAt, HostChar(s, ch), t + [ch])
  {
    match s
    case UserinfoStart => StartNext(foundAt, s, t, ch);
    case Userinfo => StartNext(foundAt, s, t, ch);
    case HostStart => StartNext(foundAt, s, t, ch);
    case HostName => NameNext(foundAt, t, ch);
    case HostV6Start => BracketNext(foundAt, t, ch);
    case HostV6 => V6Next(foundAt, t, ch);
    case HostV6End => ColonNext(foundAt, t);
    case ZoneStart => ZoneNext(foundAt, s, t, ch);
    case Zone => ZoneNext(foundAt, s, t, ch);
    case PortStart => PortNext(foundAt, s, t, ch);
    case Port => PortNext(foundAt, s, t, ch);
  }

  lemma {:induction false} LiveHasShape(foundAt: bool, t: string)
    requires HostFold(foundAt, t) != HostDead
    ensures HasShape(foundAt, HostFold(foundAt, t), t)
  {
    if t != [] {
      var before, ch := t[..|t| - 1], t[|t| - 1];
      assert t == before + [ch];
      HostFoldNext(foundAt, before, ch);
      LiveHasShape(foundAt, before);
      ShapeNext(foundAt, HostFold(foundAt, before), before, ch);
    }
  }

  /** The server texts that http_parse_host accepts are exactly those of the grammar. */
  lemma {:induction false} HostIsExact(foundAt: bool, t: string)
    ensures HostMayEnd(HostFold(foundAt, t)) <==> IsServerText(foundAt, t)
  {
    if HostMayEnd(HostFold(foundAt, t)) {
      LiveHasShape(foundAt, t);
    }
    if IsNamed(foundAt, t) {
      NamedRead(foundAt, t);
    } else if IsClosed(foundAt, t) {
      ClosedRead(foundAt, t);
    } else if IsPorted(foundAt, t) {
      PortedRead(foundAt, t);
    }
  }
}
