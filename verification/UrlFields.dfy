/** The fields of a URL, byte by byte: what http_parser_parse_url is to find. */
module UrlFields {
  import opened Ascii
  import opened HttpTypes
  import opened UrlMachine
  import opened Knowledge

  /** enum http_parser_url_fields. */
  datatype UrlField = UfSchema | UfHost | UfPort | UfPath | UfQuery | UfFragment | UfUserinfo

  /** An entry of field_data. */
  datatype Slice = Slice(off: nat, len: nat)

  /** enum http_host_state. */
  datatype HostState =
    | HostDead
    | UserinfoStart
    | Userinfo
    | HostStart
    | HostV6Start
    | HostName
    | HostV6
    | HostV6End
    | ZoneStart
    | Zone
    | PortStart
    | Port

  predicate IsZoneChar(ch: char) {
    IsAlphaNum(ch) || ch == '%' || ch == '.' || ch == '-' || ch == '_' || ch == '~'
  }

  predicate IsV6Char(ch: char) {
    IsHex(ch) || ch == ':' || ch == '.'
  }

  /** http_parse_host_char. */
  function HostChar(s: HostState, ch: char): HostState {
    match s
    case UserinfoStart => if ch == '@' then HostStart else if IsUserinfoChar(ch) then Userinfo else HostDead
    case Userinfo => if ch == '@' then HostStart else if IsUserinfoChar(ch) then Userinfo else HostDead
    case HostStart => if ch == '[' then HostV6Start else if IsHostChar(ch) then HostName else HostDead
    case HostName => if IsHostChar(ch) then HostName else if ch == ':' then PortStart else HostDead
    case HostV6End => if ch == ':' then PortStart else HostDead
    case HostV6 =>
      if ch == ']' then HostV6End else if IsV6Char(ch) then HostV6 else if ch == '%' then ZoneStart else HostDead
    case HostV6Start => if IsV6Char(ch) then HostV6 else HostDead
    case Zone => if ch == ']' then HostV6End else if IsZoneChar(ch) then Zone else HostDead
    case ZoneStart => if IsZoneChar(ch) then Zone else HostDead
    case PortStart => if IsNum(ch) then Port else HostDead
    case Port => if IsNum(ch) then Port else HostDead
    case HostDead => HostDead
  }

  // ----- the fields that parse_url_char tells apart ----------------------------------------------

  /** The field that the byte leading to state `s` belongs to. */
  function FieldOf(s: State): Option<UrlField> {
    if !s.Url? then None
    else
      match s.url
      case Schema => Some(UfSchema)
      case Server => Some(UfHost)
      case ServerWithAt => Some(UfHost)
      case Path => Some(UfPath)
      case QueryString => Some(UfQuery)
      case Fragment => Some(UfFragment)
      case _ => None
  }

  /** One more byte, at `i`, in field `f`. */
  function Extended(fields: map<UrlField, Slice>, f: UrlField, i: nat, goesOn: bool): map<UrlField, Slice> {
    if goesOn && f in fields then fields[f := Slice(fields[f].off, fields[f].len + 1)] else fields[f := Slice(i, 1)]
  }

  /** The loop of http_parser_parse_url over a URL: the state, the field of the last byte that is in
      one, the fields found, and whether there was an '@'. */
  datatype Scan = Scan(s: State, last: Option<UrlField>, fields: map<UrlField, Slice>, foundAt: bool)

  function ScanNext(c: Scan, i: nat, ch: char): Scan {
    var s := ParseUrlChar(c.s, ch);
    var foundAt := c.foundAt || (s.Url? && s.url.ServerWithAt?);
    match FieldOf(s)
    case None => Scan(s, c.last, c.fields, foundAt)
    case Some(f) => Scan(s, Some(f), Extended(c.fields, f, i, c.last == Some(f)), foundAt)
  }

  function ScanOf(isConnect: bool, url: string): (c: Scan)
    ensures c.s == UrlFold(isConnect, url)
  {
    if url == [] then Scan(UrlFold(isConnect, []), None, map[], false)
    else ScanNext(ScanOf(isConnect, url[..|url| - 1]), |url| - 1, url[|url| - 1])
  }

  /** The field of each byte, by the state of parse_url_char after it. */
  function Owners(isConnect: bool, url: string): (r: seq<Option<UrlField>>)
    ensures |r| == |url|
  {
    if url == [] then [] else Owners(isConnect, url[..|url| - 1]) + [FieldOf(UrlFold(isConnect, url))]
  }

  // ----- fields and the bytes they cover ---------------------------------------------------------

  /** The order of the fields in a URL. */
  function FieldRank(f: UrlField): nat {
    match f
    case UfSchema => 10
    case UfUserinfo => 20
    case UfHost => 30
    case UfPort => 40
    case UfPath => 50
    case UfQuery => 60
    case UfFragment => 70
  }

  /** Each slice covers exactly the bytes that belong to its field; a field without bytes is not set. */
  ghost predicate Covers(fields: map<UrlField, Slice>, owners: seq<Option<UrlField>>) {
    && (forall f :: f in fields ==> 0 < fields[f].len && fields[f].off + fields[f].len <= |owners|)
    && (forall j {:trigger owners[j]} :: 0 <= j < |owners| && owners[j].Some? ==> owners[j].value in fields)
    && (forall f, j {:trigger fields[f], owners[j]} :: f in fields && 0 <= j < |owners| ==>
          (owners[j] == Some(f) <==> fields[f].off <= j < fields[f].off + fields[f].len))
  }

  /** Bytes of later fields come later. */
  ghost predicate InOrder(owners: seq<Option<UrlField>>) {
    forall i, j {:trigger owners[i], owners[j]} :: 0 <= i < j < |owners| && owners[i].Some? && owners[j].Some? ==>
      FieldRank(owners[i].value) <= FieldRank(owners[j].value)
  }

  /** What one of the two loops has found, in a state of rank `rank` whose byte is in field `current`. */
  ghost predicate Tracked(fields: map<UrlField, Slice>, owners: seq<Option<UrlField>>, last: Option<UrlField>,
                          current: Option<UrlField>, rank: nat) {
    && Covers(fields, owners) && InOrder(owners)
    && current == (if |owners| == 0 then None else owners[|owners| - 1])
    && (current.Some? ==> FieldRank(current.value) == rank && last == current)
    && (if last.None? then fields == map[] else last.value in fields)
    && (forall f :: f in fields ==> FieldRank(f) <= rank && FieldRank(f) <= FieldRank(last.value))
  }

  /** A byte in no field. */
  lemma TrackNone(fields: map<UrlField, Slice>, owners: seq<Option<UrlField>>, last: Option<UrlField>,
                  current: Option<UrlField>, rank: nat, rank': nat)
    requires Tracked(fields, owners, last, current, rank) && rank <= rank'
    ensures Tracked(fields, owners + [None], last, None, rank')
  {
  }

  /** A byte in field `f`: it goes on, or it starts and has not been seen before. */
  lemma TrackField(fields: map<UrlField, Slice>, owners: seq<Option<UrlField>>, last: Option<UrlField>,
                   current: Option<UrlField>, rank: nat, f: UrlField)
    requires Tracked(fields, owners, last, current, rank) && rank <= FieldRank(f)
    requires rank == FieldRank(f) ==> current == Some(f)
    ensures (last == Some(f)) == (current == Some(f))
    ensures Tracked(Extended(fields, f, |owners|, current == Some(f)), owners + [Some(f)], Some(f), Some(f),
                    FieldRank(f))
  {
  }

  // ----- the states of parse_url_char ------------------------------------------------------------

  /** The order in which a URL goes through the states of parse_url_char. */
  function UrlRank(s: State): nat {
    if !s.Url? then 0
    else
      match s.url
      case Schema => 10
      case SchemaSlash => 11
      case SchemaSlashSlash => 12
      case ServerStart => 13
      case Server => 30
      case ServerWithAt => 30
      case Path => 50
      case QueryStringStart => 55
      case QueryString => 60
      case FragmentStart => 65
      case Fragment => 70
  }

  lemma UrlRankGrows(s: State, ch: char)
    ensures var s' := ParseUrlChar(s, ch);
            && (s'.Url? ==> UrlRank(s) <= UrlRank(s') && !s.Dead?)
            && (s'.Url? && UrlRank(s) == UrlRank(s') ==> FieldOf(s) == FieldOf(s'))
            && (FieldOf(s').Some? ==> UrlRank(s') == FieldRank(FieldOf(s').value))
  {
  }

  /** Only a delimiter leads to a state without a field. */
  lemma UrlDelimiter(s: State, ch: char)
    ensures var s' := ParseUrlChar(s, ch);
            s'.Url? && FieldOf(s').None? ==> ch == ':' || ch == '/' || ch == '?' || ch == '#'
  {
  }

  lemma {:induction false} ScanTracks(isConnect: bool, url: string)
    requires UrlFold(isConnect, url) != Dead
    ensures var c := ScanOf(isConnect, url);
            Tracked(c.fields, Owners(isConnect, url), c.last, FieldOf(c.s), UrlRank(c.s))
  {
    if url != [] {
      var t := url[..|url| - 1];
      var ch := url[|url| - 1];
      var c := ScanOf(isConnect, t);
      UrlRankGrows(c.s, ch);
      ScanTracks(isConnect, t);
      var s' := ParseUrlChar(c.s, ch);
      if FieldOf(s').Some? {
        TrackField(c.fields, Owners(isConnect, t), c.last, FieldOf(c.s), UrlRank(c.s), FieldOf(s').value);
      } else {
        TrackNone(c.fields, Owners(isConnect, t), c.last, FieldOf(c.s), UrlRank(c.s), UrlRank(s'));
      }
    }
  }

  // ----- the states of http_parse_host_char ------------------------------------------------------

  /** The field that the byte leading to state `s` belongs to. */
  function HostFieldOf(s: HostState): Option<UrlField> {
    match s
    case Userinfo => Some(UfUserinfo)
    case HostName => Some(UfHost)
    case HostV6 => Some(UfHost)
    case ZoneStart => Some(UfHost)
    case Zone => Some(UfHost)
    case Port => Some(UfPort)
    case _ => None
  }

  /** The states in which http_parse_host may not stop are left out. */
  predicate HostMayEnd(s: HostState) {
    s.HostName? || s.HostV6End? || s.Port?
  }

  function HostFold(foundAt: bool, t: string): HostState {
    if t == [] then if foundAt then UserinfoStart else HostStart
    else HostChar(HostFold(foundAt, t[..|t| - 1]), t[|t| - 1])
  }

  /** The loop of http_parse_host over the text of a server, which starts at `base`. */
  function HostFields(foundAt: bool, t: string, base: nat): map<UrlField, Slice> {
    if t == [] then map[]
    else
      var n := |t| - 1;
      var s := HostFold(foundAt, t[..n]);
      var fields := HostFields(foundAt, t[..n], base);
      match HostFieldOf(HostChar(s, t[n]))
      case None => fields
      case Some(f) => Extended(fields, f, base + n, HostFieldOf(s) == Some(f))
  }

  /** The field of each byte; the `base` bytes before the text are in none. */
  function HostOwners(foundAt: bool, t: string, base: nat): (r: seq<Option<UrlField>>)
    ensures |r| == base + |t|
  {
    if t == [] then seq(base, _ => None)
    else HostOwners(foundAt, t[..|t| - 1], base) + [HostFieldOf(HostFold(foundAt, t))]
  }

  function HostRank(s: HostState): nat {
    match s
    case UserinfoStart => 13
    case Userinfo => 20
    case HostStart => 25
    case HostV6Start => 26
    case HostName => 30
    case HostV6 => 30
    case ZoneStart => 30
    case Zone => 30
    case HostV6End => 35
    case PortStart => 36
    case Port => 40
    case HostDead => 100
  }

  lemma HostRankGrows(s: HostState, ch: char)
    ensures var s' := HostChar(s, ch);
            && (s' != HostDead ==> HostRank(s) <= HostRank(s') && s != HostDead)
            && (HostRank(s) == HostRank(s') ==> HostFieldOf(s) == HostFieldOf(s'))
            && (HostFieldOf(s').Some? ==> HostRank(s') == FieldRank(HostFieldOf(s').value))
  {
  }

  lemma HostDelimiter(s: HostState, ch: char)
    ensures var s' := HostChar(s, ch);
            s' != HostDead && HostFieldOf(s').None? ==> ch == ':' || ch == '@' || ch == '[' || ch == ']'
  {
  }

  lemma {:induction false} HostTracks(foundAt: bool, t: string, base: nat) returns (last: Option<UrlField>)
    requires HostFold(foundAt, t) != HostDead
    ensures var s := HostFold(foundAt, t);
            Tracked(HostFields(foundAt, t, base), HostOwners(foundAt, t, base), last, HostFieldOf(s), HostRank(s))
  {
    if t == [] {
      last := None;
    } else {
      var n := |t| - 1;
      var s := HostFold(foundAt, t[..n]);
      var s' := HostChar(s, t[n]);
      var fields, owners := HostFields(foundAt, t[..n], base), HostOwners(foundAt, t[..n], base);
      HostRankGrows(s, t[n]);
      last := HostTracks(foundAt, t[..n], base);
      if HostFieldOf(s').Some? {
        TrackField(fields, owners, last, HostFieldOf(s), HostRank(s), HostFieldOf(s').value);
        last := HostFieldOf(s');
      } else {
        TrackNone(fields, owners, last, HostFieldOf(s), HostRank(s), HostRank(s'));
      }
    }
  }

  /** A server that may end has a host. */
  lemma {:induction false} HostIsThere(foundAt: bool, t: string, base: nat)
    requires HostRank(HostFold(foundAt, t)) >= 30 && HostFold(foundAt, t) != HostDead
    ensures UfHost in HostFields(foundAt, t, base)
  {
    if t != [] {
      var s := HostFold(foundAt, t[..|t| - 1]);
      HostRankGrows(s, t[|t| - 1]);
      if HostRank(s) >= 30 {
        HostIsThere(foundAt, t[..|t| - 1], base);
      }
    }
  }

  lemma {:induction false} HostFieldsOnly(foundAt: bool, t: string, base: nat)
    ensures HostFields(foundAt, t, base).Keys <= {UfUserinfo, UfHost, UfPort}
  {
    if t != [] {
      HostFieldsOnly(foundAt, t[..|t| - 1], base);
    }
  }

  // ----- the whole URL ---------------------------------------------------------------------------

  /** The text of the server, as parse_url_char delimits it. */
  function ServerText(c: Scan, url: string): string
    requires UfHost in c.fields && c.fields[UfHost].off + c.fields[UfHost].len <= |url|
  {
    url[c.fields[UfHost].off..c.fields[UfHost].off + c.fields[UfHost].len]
  }

  /** The fields of a URL, unless it is refused: it leaves parse_url_char, has a schema but no host, has a
      malformed host, or is the URL of a CONNECT request and not just host and port.  The port number is
      looked at elsewhere. */
  function Split(isConnect: bool, url: string): Option<map<UrlField, Slice>> {
    var c := ScanOf(isConnect, url);
    if c.s == Dead then None
    else if UfHost !in c.fields then if UfSchema in c.fields || isConnect then None else Some(c.fields)
    else
      ScanTracks(isConnect, url);
      var t := ServerText(c, url);
      var fields := (c.fields - {UfHost}) + HostFields(c.foundAt, t, c.fields[UfHost].off);
      if !HostMayEnd(HostFold(c.foundAt, t)) || (isConnect && fields.Keys != {UfHost, UfPort}) then None
      else Some(fields)
  }

  /** A URL with a server is decided by its server. */
  lemma {:induction false} SplitByServer(isConnect: bool, url: string, t: string)
    requires UrlFold(isConnect, url) != Dead && UfHost in ScanOf(isConnect, url).fields
    requires var h := ScanOf(isConnect, url).fields[UfHost]; h.off + h.len <= |url| && url[h.off..h.off + h.len] == t
    ensures var c := ScanOf(isConnect, url);
            var fields := (c.fields - {UfHost}) + HostFields(c.foundAt, t, c.fields[UfHost].off);
            Split(isConnect, url)
            == if !HostMayEnd(HostFold(c.foundAt, t)) || (isConnect && fields.Keys != {UfHost, UfPort}) then None
               else Some(fields)
  {
    ScanTracks(isConnect, url);
    assert ServerText(ScanOf(isConnect, url), url) == t;
  }

  predicate Contains(s: Slice, j: int) {
    s.off <= j < s.off + s.len
  }

  predicate IsDelimiter(ch: char) {
    ch == ':' || ch == '/' || ch == '?' || ch == '#' || ch == '@' || ch == '[' || ch == ']'
  }

  /** Fields are not empty, lie within the URL one after the other, and only delimiters are outside. */
  ghost predicate IsStructured(fields: map<UrlField, Slice>, url: string) {
    && SlicesWithin(fields, 0, |url|) && SlicesInOrder(fields)
    && (forall j :: 0 <= j < |url| && (forall f :: f in fields ==> !Contains(fields[f], j)) ==> IsDelimiter(url[j]))
  }

  /** In order, slice by slice. */
  ghost predicate SlicesInOrder(fields: map<UrlField, Slice>) {
    forall f, g :: f in fields && g in fields && FieldRank(f) < FieldRank(g) ==>
      fields[f].off + fields[f].len <= fields[g].off
  }

  lemma CoversInOrder(fields: map<UrlField, Slice>, owners: seq<Option<UrlField>>)
    requires Covers(fields, owners) && InOrder(owners)
    ensures SlicesInOrder(fields)
  {
    forall f, g | f in fields && g in fields && FieldRank(f) < FieldRank(g)
      ensures fields[f].off + fields[f].len <= fields[g].off
    {
      var i := fields[g].off;
      var j := fields[f].off + fields[f].len - 1;
      assert owners[i] == Some(g) && owners[j] == Some(f);
    }
  }

  lemma {:induction false} OwnersDelimiters(isConnect: bool, url: string, j: nat)
    requires UrlFold(isConnect, url) != Dead && j < |url| && Owners(isConnect, url)[j].None?
    ensures IsDelimiter(url[j])
  {
    var n := |url| - 1;
    DeadStaysDead(isConnect, url, n);
    if j < n {
      OwnersDelimiters(isConnect, url[..n], j);
    } else {
      UrlDelimiter(UrlFold(isConnect, url[..n]), url[n]);
    }
  }

  lemma {:induction false} HostOwnersDelimiters(foundAt: bool, t: string, base: nat, j: nat)
    requires HostFold(foundAt, t) != HostDead && j < |t| && HostOwners(foundAt, t, base)[base + j].None?
    ensures IsDelimiter(t[j])
  {
    var n := |t| - 1;
    HostRankGrows(HostFold(foundAt, t[..n]), t[n]);
    if j < n {
      HostOwnersDelimiters(foundAt, t[..n], base, j);
    } else {
      HostDelimiter(HostFold(foundAt, t[..n]), t[n]);
    }
  }

  /** The bytes before the server are in no field of it. */
  lemma {:induction false} HostOwnersStart(foundAt: bool, t: string, base: nat, j: nat)
    requires j < base
    ensures HostOwners(foundAt, t, base)[j].None?
  {
    if t != [] {
      HostOwnersStart(foundAt, t[..|t| - 1], base, j);
    }
  }

  lemma {:induction false} ScanFieldsOnly(isConnect: bool, url: string)
    ensures ScanOf(isConnect, url).fields.Keys <= {UfSchema, UfHost, UfPath, UfQuery, UfFragment}
  {
    if url != [] {
      ScanFieldsOnly(isConnect, url[..|url| - 1]);
    }
  }

  ghost predicate SlicesWithin(fields: map<UrlField, Slice>, from: nat, to: nat) {
    forall f :: f in fields ==> 0 < fields[f].len && from <= fields[f].off && fields[f].off + fields[f].len <= to
  }

  /** The fields of the server, within the text of the server. */
  lemma ServerFields(foundAt: bool, t: string, base: nat)
    requires HostFold(foundAt, t) != HostDead
    ensures var fields := HostFields(foundAt, t, base);
            && SlicesInOrder(fields) && SlicesWithin(fields, base, base + |t|)
            && Covers(fields, HostOwners(foundAt, t, base))
  {
    var fields := HostFields(foundAt, t, base);
    var owners := HostOwners(foundAt, t, base);
    var _ := HostTracks(foundAt, t, base);
    CoversInOrder(fields, owners);
    forall f | f in fields
      ensures base <= fields[f].off
    {
      assert owners[fields[f].off] == Some(f);
      if fields[f].off < base {
        HostOwnersStart(foundAt, t, base, fields[f].off);
      }
    }
  }

  /** The fields of the server take the place of the server. */
  lemma MergedInOrder(outer: map<UrlField, Slice>, inner: map<UrlField, Slice>, n: nat)
    requires SlicesInOrder(outer) && SlicesWithin(outer, 0, n) && UfHost in outer
    requires SlicesInOrder(inner) && SlicesWithin(inner, outer[UfHost].off, outer[UfHost].off + outer[UfHost].len)
    requires outer.Keys <= {UfSchema, UfHost, UfPath, UfQuery, UfFragment}
    requires inner.Keys <= {UfUserinfo, UfHost, UfPort}
    ensures var fields := (outer - {UfHost}) + inner;
            SlicesInOrder(fields) && SlicesWithin(fields, 0, n)
  {
    var fields := (outer - {UfHost}) + inner;
    forall f, g | f in fields && g in fields && FieldRank(f) < FieldRank(g)
      ensures fields[f].off + fields[f].len <= fields[g].off
    {
      MergedSlice(outer, inner, f);
      MergedSlice(outer, inner, g);
    }
  }

  /** Where a field of the merged map comes from. */
  lemma MergedSlice(outer: map<UrlField, Slice>, inner: map<UrlField, Slice>, f: UrlField)
    requires f in (outer - {UfHost}) + inner
    requires outer.Keys <= {UfSchema, UfHost, UfPath, UfQuery, UfFragment}
    requires inner.Keys <= {UfUserinfo, UfHost, UfPort}
    ensures var s := ((outer - {UfHost}) + inner)[f];
            if f in inner then s == inner[f] && 20 <= FieldRank(f) <= 40
            else f in outer && s == outer[f] && (FieldRank(f) == 10 || FieldRank(f) >= 50)
  {
    if f in inner {
      assert f in inner.Keys;
    } else {
      assert f in outer.Keys && f != UfHost;
    }
  }

  /** A byte of the server that is in none of its fields. */
  lemma ServerDelimiters(c: Scan, url: string, j: nat)
    requires UfHost in c.fields && c.fields[UfHost].off + c.fields[UfHost].len <= |url|
    requires HostFold(c.foundAt, ServerText(c, url)) != HostDead && Contains(c.fields[UfHost], j)
    requires var inner := HostFields(c.foundAt, ServerText(c, url), c.fields[UfHost].off);
             forall f :: f in inner ==> !Contains(inner[f], j)
    ensures IsDelimiter(url[j])
  {
    var t := ServerText(c, url);
    var base := c.fields[UfHost].off;
    ServerFields(c.foundAt, t, base);
    assert t[j - base] == url[j];
    var o := HostOwners(c.foundAt, t, base)[j];
    assert o.Some? ==> Contains(HostFields(c.foundAt, t, base)[o.value], j);
    HostOwnersDelimiters(c.foundAt, t, base, j - base);
  }

  /** A byte in none of the fields of parse_url_char. */
  lemma ScanDelimiters(isConnect: bool, url: string, j: nat)
    requires UrlFold(isConnect, url) != Dead && j < |url|
    requires var fields := ScanOf(isConnect, url).fields;
             forall f :: f in fields ==> !Contains(fields[f], j)
    ensures IsDelimiter(url[j])
  {
    ScanTracks(isConnect, url);
    var o := Owners(isConnect, url)[j];
    assert o.Some? ==> Contains(ScanOf(isConnect, url).fields[o.value], j);
    OwnersDelimiters(isConnect, url, j);
  }

  /** A URL that is accepted is structured. */
  lemma UrlStructure(isConnect: bool, url: string)
    requires Split(isConnect, url).Some?
    ensures IsStructured(Split(isConnect, url).value, url)
  {
    var c := ScanOf(isConnect, url);
    var fields := Split(isConnect, url).value;
    SplitInOrder(isConnect, url);
    forall j | 0 <= j < |url| && forall f :: f in fields ==> !Contains(fields[f], j)
      ensures IsDelimiter(url[j])
    {
      if UfHost in c.fields && Contains(c.fields[UfHost], j) {
        ScanTracks(isConnect, url);
        var inner := HostFields(c.foundAt, ServerText(c, url), c.fields[UfHost].off);
        assert forall f :: f in inner ==> f in fields && fields[f] == inner[f];
        ServerDelimiters(c, url, j);
      } else {
        OuterFields(isConnect, url);
        ScanDelimiters(isConnect, url, j);
      }
    }
  }

  lemma MergedOuter(outer: map<UrlField, Slice>, inner: map<UrlField, Slice>)
    requires outer.Keys <= {UfSchema, UfHost, UfPath, UfQuery, UfFragment}
    requires inner.Keys <= {UfUserinfo, UfHost, UfPort}
    ensures var fields := (outer - {UfHost}) + inner;
            forall f :: f in outer && f != UfHost ==> f in fields && fields[f] == outer[f]
  {
    forall f | f in outer && f != UfHost
      ensures f !in inner
    {
      assert f in outer.Keys;
      assert f in inner ==> f in inner.Keys;
    }
  }

  /** The fields outside the server are those that parse_url_char tells apart. */
  lemma OuterFields(isConnect: bool, url: string)
    requires Split(isConnect, url).Some?
    ensures var outer := ScanOf(isConnect, url).fields;
            var fields := Split(isConnect, url).value;
            forall f :: f in outer && f != UfHost ==> f in fields && fields[f] == outer[f]
  {
    var c := ScanOf(isConnect, url);
    if UfHost in c.fields {
      ScanTracks(isConnect, url);
      ScanFieldsOnly(isConnect, url);
      var inner := HostFields(c.foundAt, ServerText(c, url), c.fields[UfHost].off);
      HostFieldsOnly(c.foundAt, ServerText(c, url), c.fields[UfHost].off);
      MergedOuter(c.fields, inner);
    }
  }

  lemma SplitInOrder(isConnect: bool, url: string)
    requires Split(isConnect, url).Some?
    ensures SlicesInOrder(Split(isConnect, url).value) && SlicesWithin(Split(isConnect, url).value, 0, |url|)
  {
    var c := ScanOf(isConnect, url);
    ScanTracks(isConnect, url);
    CoversInOrder(c.fields, Owners(isConnect, url));
    if UfHost in c.fields {
      var t := ServerText(c, url);
      ServerFields(c.foundAt, t, c.fields[UfHost].off);
      HostFieldsOnly(c.foundAt, t, c.fields[UfHost].off);
      ScanFieldsOnly(isConnect, url);
      MergedInOrder(c.fields, HostFields(c.foundAt, t, c.fields[UfHost].off), |url|);
    }
  }
}
