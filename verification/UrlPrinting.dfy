/** Printed URLs, and the fields that are found in them. */
module UrlPrinting {
  import opened Ascii
  import opened HttpTypes
  import opened UrlMachine
  import opened Knowledge
  import opened Text
  import opened UrlFields
  import opened UrlSplitter

  // ----- runs of bytes that lead to one state ----------------------------------------------------

  /** The scan after `n` bytes from `i` on that all lead to state `s`. */
  function Ran(c: Scan, i: nat, n: nat, s: State): Scan
    requires n > 0
  {
    var foundAt := c.foundAt || (s.Url? && s.url.ServerWithAt?);
    match FieldOf(s)
    case None => Scan(s, c.last, c.fields, foundAt)
    case Some(f) => Scan(s, Some(f), ExtendedBy(c.fields, f, i, n, c.last == Some(f)), foundAt)
  }

  function ExtendedBy(fields: map<UrlField, Slice>, f: UrlField, i: nat, n: nat, goesOn: bool): map<UrlField, Slice> {
    if goesOn && f in fields then fields[f := Slice(fields[f].off, fields[f].len + n)] else fields[f := Slice(i, n)]
  }

  /** The first byte of `b` leads from `s` to `s'`, the others stay there. */
  predicate LeadsTo(s: State, b: string, s': State) {
    b != [] && ParseUrlChar(s, b[0]) == s' && forall i :: 0 < i < |b| ==> ParseUrlChar(s', b[i]) == s'
  }

  lemma RanFirst(c: Scan, i: nat, ch: char)
    ensures ScanNext(c, i, ch) == Ran(c, i, 1, ParseUrlChar(c.s, ch))
  {
  }

  lemma RanNext(c: Scan, i: nat, n: nat, s: State, ch: char)
    requires n > 0 && ParseUrlChar(s, ch) == s
    ensures ScanNext(Ran(c, i, n, s), i + n, ch) == Ran(c, i, n + 1, s)
  {
    if FieldOf(s).Some? {
      var f := FieldOf(s).value;
      assert Ran(c, i, n, s).fields[f := Slice(Ran(c, i, n, s).fields[f].off, n + 1)] ==
             c.fields[f := Slice(Ran(c, i, n, s).fields[f].off, n + 1)];
    }
  }

  /** The loop over the URL has read `a`. */
  ghost predicate ScanAt(isConnect: bool, a: string, c: Scan) {
    forall key {:trigger Unfold(key)} :: Unfold(key) ==> ScanOf(isConnect, a) == c
  }

  lemma {:induction false} ScanSnoc(isConnect: bool, a: string, ch: char, c: Scan)
    requires ScanAt(isConnect, a, c)
    ensures ScanAt(isConnect, a + [ch], ScanNext(c, |a|, ch))
  {
    assert (a + [ch])[..|a|] == a;
  }

  lemma {:induction false} ScanRun(isConnect: bool, a: string, b: string, c: Scan, s: State)
    requires ScanAt(isConnect, a, c) && LeadsTo(c.s, b, s)
    ensures ScanAt(isConnect, a + b, Ran(c, |a|, |b|, s))
    decreases |b|
  {
    var n := |b| - 1;
    var t := a + b[..n];
    assert a + b == t + [b[n]];
    if n == 0 {
      assert t == a;
      ScanSnoc(isConnect, a, b[0], c);
      RanFirst(c, |a|, b[0]);
    } else {
      ScanRun(isConnect, a, b[..n], c, s);
      ScanSnoc(isConnect, t, b[n], Ran(c, |a|, n, s));
      RanNext(c, |a|, n, s, b[n]);
    }
  }

  /** The same for the loop over the server. */
  predicate HostLeadsTo(s: HostState, b: string, s': HostState) {
    b != [] && HostChar(s, b[0]) == s' && forall i :: 0 < i < |b| ==> HostChar(s', b[i]) == s'
  }

  function HostRan(fields: map<UrlField, Slice>, s: HostState, i: nat, n: nat, s': HostState): map<UrlField, Slice> {
    match HostFieldOf(s')
    case None => fields
    case Some(f) => ExtendedBy(fields, f, i, n, HostFieldOf(s) == Some(f))
  }

  /** The loop over the server has read `t`. */
  ghost predicate HostAt(foundAt: bool, t: string, base: nat, s: HostState, fields: map<UrlField, Slice>) {
    forall key {:trigger Unfold(key)} :: Unfold(key) ==>
      HostFold(foundAt, t) == s && HostFields(foundAt, t, base) == fields
  }

  lemma HostSnoc(foundAt: bool, t: string, ch: char, base: nat, s: HostState, fields: map<UrlField, Slice>)
    requires HostAt(foundAt, t, base, s, fields)
    ensures HostAt(foundAt, t + [ch], base, HostChar(s, ch), HostRan(fields, s, base + |t|, 1, HostChar(s, ch)))
  {
    assert (t + [ch])[..|t|] == t;
    ExtendedOnce(fields, base + |t|);
  }

  lemma ExtendedOnce(fields: map<UrlField, Slice>, i: nat)
    ensures forall f, goesOn :: ExtendedBy(fields, f, i, 1, goesOn) == Extended(fields, f, i, goesOn)
  {
  }

  lemma HostRanNext(fields: map<UrlField, Slice>, s: HostState, i: nat, n: nat, s': HostState)
    requires n > 0
    ensures HostRan(HostRan(fields, s, i, n, s'), s', i + n, 1, s') == HostRan(fields, s, i, n + 1, s')
  {
    if HostFieldOf(s').Some? {
      var f := HostFieldOf(s').value;
      var r := HostRan(fields, s, i, n, s');
      assert r[f := Slice(r[f].off, r[f].len + 1)] == fields[f := Slice(r[f].off, r[f].len + 1)];
    }
  }

  lemma {:induction false} HostRun(foundAt: bool, a: string, b: string, base: nat, s: HostState,
                                   fields: map<UrlField, Slice>, s': HostState)
    requires HostAt(foundAt, a, base, s, fields) && HostLeadsTo(s, b, s')
    ensures HostAt(foundAt, a + b, base, s', HostRan(fields, s, base + |a|, |b|, s'))
    decreases |b|
  {
    var n := |b| - 1;
    var t := a + b[..n];
    assert a + b == t + [b[n]];
    if n == 0 {
      assert t == a;
      HostSnoc(foundAt, a, b[0], base, s, fields);
    } else {
      HostRun(foundAt, a, b[..n], base, s, fields, s');
      HostSnoc(foundAt, t, b[n], base, s', HostRan(fields, s, base + |a|, n, s'));
      HostRanNext(fields, s, base + |a|, n, s');
    }
  }

  // ----- the URLs that are printed ---------------------------------------------------------------

  /** A name, or an IPv6 address with an optional zone. */
  datatype Host = Name(name: string) | V6(address: string, zone: Option<string>)

  /** A URL with a schema; an empty path is left out. */
  datatype UrlOf = UrlOf(schema: string, userinfo: Option<string>, host: Host, port: Option<string>, path: string,
                         query: Option<string>, fragment: Option<string>)

  predicate All(p: char -> bool, s: string) {
    forall i :: 0 <= i < |s| ==> p(s[i])
  }

  predicate IsQueryChar(ch: char) {
    IsUrlChar(ch) || ch == '?'
  }

  predicate IsFragmentChar(ch: char) {
    IsUrlChar(ch) || ch == '?' || ch == '#'
  }

  predicate IsHost(h: Host) {
    match h
    case Name(name) => name != [] && All(IsHostChar, name)
    case V6(address, zone) =>
      address != [] && All(IsV6Char, address) && (zone.Some? ==> zone.value != [] && All(IsZoneChar, zone.value))
  }

  /** Every part is well formed. */
  predicate AreParts(u: UrlOf) {
    && u.schema != [] && All(IsAlpha, u.schema)
    && (u.userinfo.Some? ==> u.userinfo.value != [] && All(IsUserinfoChar, u.userinfo.value))
    && IsHost(u.host)
    && (u.port.Some? ==> u.port.value != [] && All(IsNum, u.port.value))
    && (u.path != [] ==> u.path[0] == '/' && All(IsUrlChar, u.path))
    && (u.query.Some? ==> u.query.value != [] && All(IsQueryChar, u.query.value))
    && (u.fragment.Some? ==>
          u.fragment.value != [] && All(IsFragmentChar, u.fragment.value) && u.fragment.value[0] != '#')
  }

  /** A fragment cannot come right behind the server. */
  predicate FragmentFollows(u: UrlOf) {
    u.fragment.None? || u.path != [] || u.query.Some?
  }

  predicate PortFits(u: UrlOf) {
    u.port.Some? ==> Decimal(u.port.value) <= 0xFFFF
  }

  predicate IsUrl(u: UrlOf) {
    AreParts(u) && FragmentFollows(u)
  }

  function HostText(h: Host): string {
    match h
    case Name(name) => name
    case V6(address, zone) => "[" + V6Text(address, zone) + "]"
  }

  function V6Text(address: string, zone: Option<string>): string {
    address + (if zone.Some? then "%" + zone.value else "")
  }

  function UserinfoText(u: UrlOf): string {
    if u.userinfo.Some? then u.userinfo.value + "@" else ""
  }

  function PortText(u: UrlOf): string {
    if u.port.Some? then ":" + u.port.value else ""
  }

  function ServerOf(u: UrlOf): string {
    UserinfoText(u) + HostText(u.host) + PortText(u)
  }

  function QueryText(u: UrlOf): string {
    if u.query.Some? then "?" + u.query.value else ""
  }

  function FragmentText(u: UrlOf): string {
    if u.fragment.Some? then "#" + u.fragment.value else ""
  }

  function UrlText(u: UrlOf): string {
    u.schema + "://" + ServerOf(u) + u.path + QueryText(u) + FragmentText(u)
  }

  // ----- the server ------------------------------------------------------------------------------

  function UserinfoFields(u: UrlOf, base: nat): map<UrlField, Slice> {
    if u.userinfo.Some? then map[UfUserinfo := Slice(base, |u.userinfo.value|)] else map[]
  }

  /** The slice of the host, which starts at `base`. */
  function HostSlice(h: Host, base: nat): Slice {
    match h
    case Name(name) => Slice(base, |name|)
    case V6(address, zone) => Slice(base + 1, |V6Text(address, zone)|)
  }

  lemma UserinfoRead(u: UrlOf, base: nat)
    requires IsUrl(u)
    ensures HostAt(u.userinfo.Some?, UserinfoText(u), base, HostStart, UserinfoFields(u, base))
  {
    if u.userinfo.Some? {
      UserinfoTextRead(u.userinfo.value, base);
    }
  }

  lemma UserinfoTextRead(text: string, base: nat)
    requires text != [] && All(IsUserinfoChar, text)
    ensures HostAt(true, text + "@", base, HostStart, map[UfUserinfo := Slice(base, |text|)])
  {
    var fields := map[UfUserinfo := Slice(base, |text|)];
    assert HostAt(true, "", base, UserinfoStart, map[]);
    HostRun(true, "", text, base, UserinfoStart, map[], Userinfo);
    assert "" + text == text;
    assert HostRan(map[], UserinfoStart, base, |text|, Userinfo) == fields;
    HostRun(true, text, "@", base, Userinfo, fields, HostStart);
  }

  /** The state at the end of the text between the brackets. */
  function V6End(zone: Option<string>): HostState {
    if zone.Some? then Zone else HostV6
  }

  lemma V6Read(found: bool, a: string, address: string, zone: Option<string>, base: nat, fields: map<UrlField, Slice>)
    requires HostAt(found, a, base, HostV6Start, fields) && IsHost(V6(address, zone))
    ensures HostAt(found, a + V6Text(address, zone), base, V6End(zone),
                   fields[UfHost := Slice(base + |a|, |V6Text(address, zone)|)])
  {
    HostRun(found, a, address, base, HostV6Start, fields, HostV6);
    if zone.Some? {
      ZoneRead(found, a, address, zone.value, base, fields);
    } else {
      assert address + "" == address;
    }
  }

  lemma ZoneRead(found: bool, a: string, address: string, zone: string, base: nat, fields: map<UrlField, Slice>)
    requires HostAt(found, a + address, base, HostV6, fields[UfHost := Slice(base + |a|, |address|)])
    requires zone != [] && All(IsZoneChar, zone)
    ensures HostAt(found, a + (address + ("%" + zone)), base, Zone,
                   fields[UfHost := Slice(base + |a|, |address| + 1 + |zone|)])
  {
    var t := a + address;
    var f1 := fields[UfHost := Slice(base + |a|, |address|)];
    HostRun(found, t, "%", base, HostV6, f1, ZoneStart);
    var f2 := HostRan(f1, HostV6, base + |t|, 1, ZoneStart);
    assert f2 == fields[UfHost := Slice(base + |a|, |address| + 1)];
    HostRun(found, t + "%", zone, base, ZoneStart, f2, Zone);
    assert t + "%" + zone == a + (address + ("%" + zone));
    assert HostRan(f2, ZoneStart, base + |t| + 1, |zone|, Zone)
        == fields[UfHost := Slice(base + |a|, |address| + 1 + |zone|)];
  }

  /** The state at the end of a host. */
  function HostOver(h: Host): HostState {
    if h.Name? then HostName else HostV6End
  }

  lemma HostRead(found: bool, a: string, h: Host, base: nat, fields: map<UrlField, Slice>)
    requires HostAt(found, a, base, HostStart, fields) && IsHost(h)
    ensures HostAt(found, a + HostText(h), base, HostOver(h), fields[UfHost := HostSlice(h, base + |a|)])
  {
    match h
    case Name(name) => HostRun(found, a, name, base, HostStart, fields, HostName);
    case V6(address, zone) => BracketsRead(found, a, address, zone, base, fields);
  }

  lemma BracketsRead(found: bool, a: string, address: string, zone: Option<string>, base: nat,
                     fields: map<UrlField, Slice>)
    requires HostAt(found, a, base, HostStart, fields) && IsHost(V6(address, zone))
    ensures HostAt(found, a + ("[" + V6Text(address, zone) + "]"), base, HostV6End,
                   fields[UfHost := Slice(base + |a| + 1, |V6Text(address, zone)|)])
  {
    var inside := V6Text(address, zone);
    HostRun(found, a, "[", base, HostStart, fields, HostV6Start);
    V6Read(found, a + "[", address, zone, base, fields);
    HostRun(found, a + "[" + inside, "]", base, V6End(zone), fields[UfHost := Slice(base + |a| + 1, |inside|)],
            HostV6End);
    assert a + "[" + inside + "]" == a + ("[" + inside + "]");
  }

  function PortFields(u: UrlOf, fields: map<UrlField, Slice>, at: nat): map<UrlField, Slice> {
    if u.port.Some? then fields[UfPort := Slice(at + 1, |u.port.value|)] else fields
  }

  lemma PortRead(u: UrlOf, found: bool, t: string, base: nat, s: HostState, fields: map<UrlField, Slice>)
    requires IsUrl(u) && HostAt(found, t, base, s, fields) && (s.HostName? || s.HostV6End?)
    ensures HostAt(found, t + PortText(u), base, if u.port.Some? then Port else s, PortFields(u, fields, base + |t|))
  {
    if u.port.Some? {
      HostRun(found, t, ":", base, s, fields, PortStart);
      HostRun(found, t + ":", u.port.value, base, PortStart, fields, Port);
      assert t + ":" + u.port.value == t + PortText(u);
    } else {
      assert t + "" == t;
    }
  }

  function FieldsOfServer(u: UrlOf, base: nat): map<UrlField, Slice> {
    var at := base + |UserinfoText(u)|;
    PortFields(u, UserinfoFields(u, base)[UfHost := HostSlice(u.host, at)], at + |HostText(u.host)|)
  }

  function ServerOver(u: UrlOf): HostState {
    if u.port.Some? then Port else HostOver(u.host)
  }

  lemma ServerFrom(u: UrlOf, found: bool, a: string, base: nat, fields: map<UrlField, Slice>)
    requires IsUrl(u) && HostAt(found, a, base, HostStart, fields)
    ensures HostAt(found, a + HostText(u.host) + PortText(u), base, ServerOver(u),
                   PortFields(u, fields[UfHost := HostSlice(u.host, base + |a|)], base + |a| + |HostText(u.host)|))
  {
    HostRead(found, a, u.host, base, fields);
    PortRead(u, found, a + HostText(u.host), base, HostOver(u.host), fields[UfHost := HostSlice(u.host, base + |a|)]);
  }

  lemma ServerAt(u: UrlOf, base: nat)
    requires IsUrl(u)
    ensures HostAt(u.userinfo.Some?, ServerOf(u), base, ServerOver(u), FieldsOfServer(u, base))
  {
    UserinfoRead(u, base);
    ServerFrom(u, u.userinfo.Some?, UserinfoText(u), base, UserinfoFields(u, base));
  }

  lemma HostAtMeans(found: bool, t: string, base: nat, s: HostState, fields: map<UrlField, Slice>)
    requires HostAt(found, t, base, s, fields)
    ensures HostFold(found, t) == s && HostFields(found, t, base) == fields
  {
    assert Unfold(0);
  }

  /** The server of a printed URL is accepted, with the fields that were printed. */
  lemma ServerRead(u: UrlOf, base: nat)
    requires IsUrl(u)
    ensures HostMayEnd(HostFold(u.userinfo.Some?, ServerOf(u)))
    ensures HostFields(u.userinfo.Some?, ServerOf(u), base) == FieldsOfServer(u, base)
  {
    ServerAt(u, base);
    HostAtMeans(u.userinfo.Some?, ServerOf(u), base, ServerOver(u), FieldsOfServer(u, base));
  }

  // ----- around the server -----------------------------------------------------------------------

  lemma SchemaRead(schema: string)
    requires schema != [] && All(IsAlpha, schema)
    ensures ScanAt(false, schema + "://",
                   Scan(Url(ServerStart), Some(UfSchema), map[UfSchema := Slice(0, |schema|)], false))
  {
    var c0 := Scan(ReqSpacesBeforeUrl, None, map[], false);
    assert ScanAt(false, "", c0);
    ScanRun(false, "", schema, c0, Url(Schema));
    assert "" + schema == schema;
    SlashesRead(schema, map[UfSchema := Slice(0, |schema|)]);
  }

  lemma SlashesRead(schema: string, fields: map<UrlField, Slice>)
    requires ScanAt(false, schema, Scan(Url(Schema), Some(UfSchema), fields, false))
    ensures ScanAt(false, schema + "://", Scan(Url(ServerStart), Some(UfSchema), fields, false))
  {
    ScanRun(false, schema, ":", Scan(Url(Schema), Some(UfSchema), fields, false), Url(SchemaSlash));
    ScanRun(false, schema + ":", "/", Scan(Url(SchemaSlash), Some(UfSchema), fields, false), Url(SchemaSlashSlash));
    ScanRun(false, schema + ":" + "/", "/", Scan(Url(SchemaSlashSlash), Some(UfSchema), fields, false),
            Url(ServerStart));
    assert schema + ":" + "/" + "/" == schema + "://";
  }

  predicate IsServerChar(ch: char) {
    IsUserinfoChar(ch) || ch == '[' || ch == ']'
  }

  lemma AllConcat(p: char -> bool, a: string, b: string)
    requires All(p, a) && All(p, b)
    ensures All(p, a + b)
  {
  }

  /** The bytes of a server behind the user information. */
  lemma ServerChars(u: UrlOf)
    requires IsUrl(u)
    ensures All(IsServerChar, HostText(u.host) + PortText(u)) && HostText(u.host) != []
  {
    match u.host
    case Name(_) =>
    case V6(address, zone) => V6Chars(address, zone);
    AllConcat(IsServerChar, HostText(u.host), PortText(u));
  }

  lemma V6Chars(address: string, zone: Option<string>)
    requires IsHost(V6(address, zone))
    ensures All(IsServerChar, V6Text(address, zone))
  {
  }

  lemma ServerLeads(s: UrlState, b: string)
    requires b != [] && All(IsServerChar, b) && (s.ServerStart? || s.Server? || s.ServerWithAt?)
    ensures LeadsTo(Url(s), b, Url(Server))
  {
  }

  /** The server, as one field. */
  lemma ServerScanned(isConnect: bool, last: Option<UrlField>, u: UrlOf, a: string, fields: map<UrlField, Slice>)
    requires last != Some(UfHost)
    requires IsUrl(u) && ScanAt(isConnect, a, Scan(Url(ServerStart), last, fields, false))
    ensures ScanAt(isConnect, a + ServerOf(u),
                   Scan(Url(Server), Some(UfHost), fields[UfHost := Slice(|a|, |ServerOf(u)|)], u.userinfo.Some?))
  {
    var rest := HostText(u.host) + PortText(u);
    var c := Scan(Url(ServerStart), last, fields, false);
    ServerChars(u);
    if u.userinfo.Some? {
      UserinfoScanned(isConnect, last, u.userinfo.value, rest, a, fields);
      assert u.userinfo.value + "@" + rest == ServerOf(u);
    } else {
      ServerLeads(ServerStart, rest);
      ScanRun(isConnect, a, rest, c, Url(Server));
      assert rest == ServerOf(u);
    }
  }

  /** The user information and the '@'. */
  lemma AtScanned(isConnect: bool, last: Option<UrlField>, userinfo: string, a: string, fields: map<UrlField, Slice>)
    requires last != Some(UfHost)
    requires userinfo != [] && All(IsUserinfoChar, userinfo)
    requires ScanAt(isConnect, a, Scan(Url(ServerStart), last, fields, false))
    ensures ScanAt(isConnect, a + (userinfo + "@"),
                   Scan(Url(ServerWithAt), Some(UfHost), fields[UfHost := Slice(|a|, |userinfo| + 1)], true))
  {
    ServerLeads(ServerStart, userinfo);
    ScanRun(isConnect, a, userinfo, Scan(Url(ServerStart), last, fields, false), Url(Server));
    AtRead(isConnect, a + userinfo, |a|, |userinfo|, fields);
    assert a + userinfo + "@" == a + (userinfo + "@");
  }

  lemma AtRead(isConnect: bool, a: string, off: nat, n: nat, fields: map<UrlField, Slice>)
    requires ScanAt(isConnect, a, Scan(Url(Server), Some(UfHost), fields[UfHost := Slice(off, n)], false))
    ensures ScanAt(isConnect, a + "@", Scan(Url(ServerWithAt), Some(UfHost), fields[UfHost := Slice(off, n + 1)], true))
  {
    var f := fields[UfHost := Slice(off, n)];
    ScanRun(isConnect, a, "@", Scan(Url(Server), Some(UfHost), f, false), Url(ServerWithAt));
    assert f[UfHost := Slice(off, n + 1)] == fields[UfHost := Slice(off, n + 1)];
  }

  lemma UserinfoScanned(isConnect: bool, last: Option<UrlField>, userinfo: string, rest: string, a: string,
                        fields: map<UrlField, Slice>)
    requires last != Some(UfHost)
    requires userinfo != [] && All(IsUserinfoChar, userinfo) && rest != [] && All(IsServerChar, rest)
    requires ScanAt(isConnect, a, Scan(Url(ServerStart), last, fields, false))
    ensures ScanAt(isConnect, a + (userinfo + "@" + rest),
                   Scan(Url(Server), Some(UfHost), fields[UfHost := Slice(|a|, |userinfo + "@" + rest|)], true))
  {
    AtScanned(isConnect, last, userinfo, a, fields);
    BehindAt(isConnect, a + (userinfo + "@"), rest, |a|, |userinfo| + 1, fields);
    assert a + (userinfo + "@") + rest == a + (userinfo + "@" + rest);
  }

  /** The server behind its user information. */
  lemma BehindAt(isConnect: bool, a: string, rest: string, off: nat, n: nat, fields: map<UrlField, Slice>)
    requires rest != [] && All(IsServerChar, rest) && off + n == |a|
    requires ScanAt(isConnect, a, Scan(Url(ServerWithAt), Some(UfHost), fields[UfHost := Slice(off, n)], true))
    ensures ScanAt(isConnect, a + rest, Scan(Url(Server), Some(UfHost), fields[UfHost := Slice(off, n + |rest|)], true))
  {
    var c := Scan(Url(ServerWithAt), Some(UfHost), fields[UfHost := Slice(off, n)], true);
    ServerLeads(ServerWithAt, rest);
    Overwritten(fields, UfHost, Slice(off, n), Slice(off, n + |rest|));
    ScanRun(isConnect, a, rest, c, Url(Server));
    assert Ran(c, |a|, |rest|, Url(Server))
        == Scan(Url(Server), Some(UfHost), fields[UfHost := Slice(off, n + |rest|)], true);
  }

  lemma Overwritten(fields: map<UrlField, Slice>, f: UrlField, a: Slice, b: Slice)
    ensures fields[f := a][f := b] == fields[f := b]
  {
  }

  // ----- after the server ------------------------------------------------------------------------

  function PathFields(u: UrlOf, fields: map<UrlField, Slice>, at: nat): map<UrlField, Slice> {
    if u.path == [] then fields else fields[UfPath := Slice(at, |u.path|)]
  }

  function QueryFields(u: UrlOf, fields: map<UrlField, Slice>, at: nat): map<UrlField, Slice> {
    if u.query.None? then fields else fields[UfQuery := Slice(at + 1, |u.query.value|)]
  }

  function FragmentFields(u: UrlOf, fields: map<UrlField, Slice>, at: nat): map<UrlField, Slice> {
    if u.fragment.None? then fields else fields[UfFragment := Slice(at + 1, |u.fragment.value|)]
  }

  function AfterPath(u: UrlOf, c: Scan, at: nat): Scan {
    if u.path == [] then c else Scan(Url(Path), Some(UfPath), PathFields(u, c.fields, at), c.foundAt)
  }

  function AfterQuery(u: UrlOf, c: Scan, at: nat): Scan {
    if u.query.None? then c else Scan(Url(QueryString), Some(UfQuery), QueryFields(u, c.fields, at), c.foundAt)
  }

  function AfterFragment(u: UrlOf, c: Scan, at: nat): Scan {
    if u.fragment.None? then c else Scan(Url(Fragment), Some(UfFragment), FragmentFields(u, c.fields, at), c.foundAt)
  }

  lemma PathScanned(u: UrlOf, a: string, c: Scan)
    requires IsUrl(u) && ScanAt(false, a, c) && c.s == Url(Server) && c.last == Some(UfHost)
    ensures ScanAt(false, a + u.path, AfterPath(u, c, |a|))
  {
    if u.path == [] {
      assert a + u.path == a;
    } else {
      ScanRun(false, a, u.path, c, Url(Path));
    }
  }

  lemma QueryScanned(u: UrlOf, a: string, c: Scan)
    requires IsUrl(u) && ScanAt(false, a, c) && (c.s == Url(Server) || c.s == Url(Path)) && c.last != Some(UfQuery)
    ensures ScanAt(false, a + QueryText(u), AfterQuery(u, c, |a|))
  {
    if u.query.None? {
      assert a + "" == a;
    } else {
      ScanRun(false, a, "?", c, Url(QueryStringStart));
      ScanRun(false, a + "?", u.query.value, Scan(Url(QueryStringStart), c.last, c.fields, c.foundAt),
              Url(QueryString));
      assert a + "?" + u.query.value == a + QueryText(u);
    }
  }

  lemma FragmentScanned(u: UrlOf, a: string, c: Scan)
    requires IsUrl(u) && ScanAt(false, a, c) && c.last != Some(UfFragment)
    requires u.fragment.Some? ==> c.s == Url(Path) || c.s == Url(QueryString)
    ensures ScanAt(false, a + FragmentText(u), AfterFragment(u, c, |a|))
  {
    if u.fragment.None? {
      assert a + "" == a;
    } else {
      ScanRun(false, a, "#", c, Url(FragmentStart));
      ScanRun(false, a + "#", u.fragment.value, Scan(Url(FragmentStart), c.last, c.fields, c.foundAt), Url(Fragment));
      assert a + "#" + u.fragment.value == a + FragmentText(u);
    }
  }

  /** Where the parts of a printed URL start. */
  function ServerStartsAt(u: UrlOf): nat {
    |u.schema| + 3
  }

  function PathStartsAt(u: UrlOf): nat {
    ServerStartsAt(u) + |ServerOf(u)|
  }

  function QueryStartsAt(u: UrlOf): nat {
    PathStartsAt(u) + |u.path|
  }

  function FragmentStartsAt(u: UrlOf): nat {
    QueryStartsAt(u) + |QueryText(u)|
  }

  function ServerScan(u: UrlOf): Scan {
    Scan(Url(Server), Some(UfHost),
         map[UfSchema := Slice(0, |u.schema|)][UfHost := Slice(ServerStartsAt(u), |ServerOf(u)|)], u.userinfo.Some?)
  }

  function WholeScan(u: UrlOf): Scan {
    TailScan(u, ServerScan(u), PathStartsAt(u))
  }

  /** Path, query and fragment, from a scan that is in the server. */
  function TailScan(u: UrlOf, c: Scan, at: nat): Scan {
    AfterFragment(u, AfterQuery(u, AfterPath(u, c, at), at + |u.path|), at + |u.path| + |QueryText(u)|)
  }

  lemma TailScanned(u: UrlOf, t: string, c: Scan)
    requires IsUrl(u) && ScanAt(false, t, c) && c.s == Url(Server) && c.last == Some(UfHost)
    ensures ScanAt(false, t + u.path + QueryText(u) + FragmentText(u), TailScan(u, c, |t|))
  {
    PathScanned(u, t, c);
    QueryThenFragment(u, t + u.path, AfterPath(u, c, |t|));
    TailScanIs(u, c, |t|, |t + u.path|);
  }

  lemma TailScanIs(u: UrlOf, c: Scan, at: nat, next: nat)
    requires next == at + |u.path|
    ensures TailScan(u, c, at) == AfterFragment(u, AfterQuery(u, AfterPath(u, c, at), next), next + |QueryText(u)|)
  {
  }

  lemma QueryThenFragment(u: UrlOf, t: string, c: Scan)
    requires IsUrl(u) && ScanAt(false, t, c)
    requires if u.path == [] then c.s == Url(Server) && c.last == Some(UfHost)
             else c.s == Url(Path) && c.last == Some(UfPath)
    ensures ScanAt(false, t + QueryText(u) + FragmentText(u),
                   AfterFragment(u, AfterQuery(u, c, |t|), |t| + |QueryText(u)|))
  {
    QueryScanned(u, t, c);
    QueryLeadsOn(u, c, |t|);
    FragmentScanned(u, t + QueryText(u), AfterQuery(u, c, |t|));
    assert |t + QueryText(u)| == |t| + |QueryText(u)|;
  }

  lemma QueryLeadsOn(u: UrlOf, c: Scan, at: nat)
    requires IsUrl(u)
    requires if u.path == [] then c.s == Url(Server) && c.last == Some(UfHost)
             else c.s == Url(Path) && c.last == Some(UfPath)
    ensures var d := AfterQuery(u, c, at);
            d.last != Some(UfFragment) && (u.fragment.Some? ==> d.s == Url(Path) || d.s == Url(QueryString))
  {
  }

  /** The loop over a printed URL. */
  lemma UrlScanned(u: UrlOf)
    requires IsUrl(u)
    ensures ScanAt(false, UrlText(u), WholeScan(u))
  {
    var t := u.schema + "://" + ServerOf(u);
    assert WholeScan(u) == TailScan(u, ServerScan(u), |t|);
    ServerAfterSchema(u);
    TailScanned(u, t, ServerScan(u));
  }

  lemma ServerAfterSchema(u: UrlOf)
    requires IsUrl(u)
    ensures ScanAt(false, u.schema + "://" + ServerOf(u), ServerScan(u))
  {
    SchemaRead(u.schema);
    ServerScanned(false, Some(UfSchema), u, u.schema + "://", map[UfSchema := Slice(0, |u.schema|)]);
  }

  // ----- the round trip --------------------------------------------------------------------------

  /** The text of a field of a printed URL. */
  function Part(u: UrlOf, f: UrlField): Option<string> {
    match f
    case UfSchema => Some(u.schema)
    case UfUserinfo => u.userinfo
    case UfHost => Some(if u.host.Name? then u.host.name else V6Text(u.host.address, u.host.zone))
    case UfPort => u.port
    case UfPath => if u.path == [] then None else Some(u.path)
    case UfQuery => u.query
    case UfFragment => u.fragment
  }

  /** Where it starts. */
  function PartStartsAt(u: UrlOf, f: UrlField): nat {
    var hostAt := ServerStartsAt(u) + |UserinfoText(u)|;
    match f
    case UfSchema => 0
    case UfUserinfo => ServerStartsAt(u)
    case UfHost => hostAt + (if u.host.Name? then 0 else 1)
    case UfPort => hostAt + |HostText(u.host)| + 1
    case UfPath => PathStartsAt(u)
    case UfQuery => QueryStartsAt(u) + 1
    case UfFragment => FragmentStartsAt(u) + 1
  }

  /** The fields that are to be found. */
  ghost predicate ArePrinted(u: UrlOf, fields: map<UrlField, Slice>) {
    forall f: UrlField ::
      && (f in fields <==> Part(u, f).Some?)
      && (f in fields ==> fields[f] == Slice(PartStartsAt(u, f), |Part(u, f).value|))
  }

  lemma WholeScanFields(u: UrlOf)
    requires IsUrl(u)
    ensures var c := WholeScan(u);
            && c.s != Dead && c.foundAt == u.userinfo.Some?
            && c.fields == FragmentFields(u, QueryFields(u, PathFields(u, ServerScan(u).fields, PathStartsAt(u)),
                                                         QueryStartsAt(u)), FragmentStartsAt(u))
  {
  }

  lemma OuterIsPrinted(u: UrlOf, fields: map<UrlField, Slice>)
    requires fields == FragmentFields(u, QueryFields(u, PathFields(u, ServerScan(u).fields, PathStartsAt(u)),
                                                     QueryStartsAt(u)), FragmentStartsAt(u))
    ensures fields.Keys <= {UfSchema, UfHost, UfPath, UfQuery, UfFragment}
    ensures UfHost in fields && fields[UfHost] == Slice(ServerStartsAt(u), |ServerOf(u)|)
    ensures forall f :: f in {UfSchema, UfPath, UfQuery, UfFragment} ==>
              && (f in fields <==> Part(u, f).Some?)
              && (f in fields ==> fields[f] == Slice(PartStartsAt(u, f), |Part(u, f).value|))
  {
  }

  lemma ServerIsPrinted(u: UrlOf)
    ensures var fields := FieldsOfServer(u, ServerStartsAt(u));
            && fields.Keys <= {UfUserinfo, UfHost, UfPort}
            && forall f :: f in {UfUserinfo, UfHost, UfPort} ==>
                 && (f in fields <==> Part(u, f).Some?)
                 && (f in fields ==> fields[f] == Slice(PartStartsAt(u, f), |Part(u, f).value|))
  {
  }

  lemma MergedIsPrinted(u: UrlOf, outer: map<UrlField, Slice>, inner: map<UrlField, Slice>)
    requires outer.Keys <= {UfSchema, UfHost, UfPath, UfQuery, UfFragment}
    requires forall f :: f in {UfSchema, UfPath, UfQuery, UfFragment} ==>
               && (f in outer <==> Part(u, f).Some?)
               && (f in outer ==> outer[f] == Slice(PartStartsAt(u, f), |Part(u, f).value|))
    requires inner.Keys <= {UfUserinfo, UfHost, UfPort}
    requires forall f :: f in {UfUserinfo, UfHost, UfPort} ==>
               && (f in inner <==> Part(u, f).Some?)
               && (f in inner ==> inner[f] == Slice(PartStartsAt(u, f), |Part(u, f).value|))
    ensures ArePrinted(u, (outer - {UfHost}) + inner)
  {
  }

  lemma PrintedSplit(u: UrlOf)
    requires IsUrl(u)
    ensures Split(false, UrlText(u)).Some? && ArePrinted(u, Split(false, UrlText(u)).value)
  {
    var c := WholeScan(u);
    UrlScanned(u);
    ScanAtMeans(false, UrlText(u), c);
    WholeScanFields(u);
    OuterIsPrinted(u, c.fields);
    ServerRead(u, ServerStartsAt(u));
    ServerIsPrinted(u);
    MergedIsPrinted(u, c.fields, FieldsOfServer(u, ServerStartsAt(u)));
    ServerTextIs(u);
    SplitByServer(false, UrlText(u), ServerOf(u));
  }

  lemma ScanAtMeans(isConnect: bool, a: string, c: Scan)
    requires ScanAt(isConnect, a, c)
    ensures ScanOf(isConnect, a) == c
  {
    assert Unfold(0);
  }

  lemma ServerTextIs(u: UrlOf)
    ensures ServerStartsAt(u) + |ServerOf(u)| <= |UrlText(u)|
    ensures UrlText(u)[ServerStartsAt(u)..ServerStartsAt(u) + |ServerOf(u)|] == ServerOf(u)
  {
    assert UrlText(u) == u.schema + "://" + ServerOf(u) + Tail(u);
  }

  /** A part of a printed URL is found where it starts. */
  lemma PartText(u: UrlOf, f: UrlField)
    requires Part(u, f).Some?
    ensures PartStartsAt(u, f) + |Part(u, f).value| <= |UrlText(u)|
    ensures UrlText(u)[PartStartsAt(u, f)..PartStartsAt(u, f) + |Part(u, f).value|] == Part(u, f).value
  {
    match f
    case UfUserinfo => UserinfoPart(u);
    case UfHost => HostPart(u);
    case UfPort => PortPart(u);
    case UfSchema => SchemaPart(u);
    case UfPath => PathPart(u);
    case _ => TailPart(u, f);
  }

  function Tail(u: UrlOf): string {
    u.path + QueryText(u) + FragmentText(u)
  }

  lemma AroundServer(u: UrlOf)
    ensures UrlText(u) == u.schema + "://" + ServerOf(u) + Tail(u)
  {
  }

  /** A part of the middle of a text. */
  lemma Inside(a: string, s: string, b: string, c: string, part: string, d: string)
    requires s == c + part + d
    ensures |a| + |c| + |part| <= |a + s + b|
    ensures (a + s + b)[|a| + |c|..|a| + |c| + |part|] == part
    ensures (a + s + b)[|a| + |c|..] == part + (d + b)
  {
    assert (a + s + b) == (a + c) + (part + (d + b));
  }

  lemma UserinfoPart(u: UrlOf)
    requires u.userinfo.Some?
    ensures var at := ServerStartsAt(u);
            at + |u.userinfo.value| <= |UrlText(u)| && UrlText(u)[at..at + |u.userinfo.value|] == u.userinfo.value
  {
    AroundServer(u);
    var after := "@" + HostText(u.host) + PortText(u);
    assert ServerOf(u) == "" + u.userinfo.value + after;
    Inside(u.schema + "://", ServerOf(u), Tail(u), "", u.userinfo.value, after);
  }

  lemma HostPart(u: UrlOf)
    ensures var at := PartStartsAt(u, UfHost);
            var part := Part(u, UfHost).value;
            at + |part| <= |UrlText(u)| && UrlText(u)[at..at + |part|] == part
  {
    AroundServer(u);
    HostWithin(u);
    HostStartsAt(u);
    PartInside(UrlText(u), u.schema + "://", ServerOf(u), Tail(u), HostBefore(u), Part(u, UfHost).value, HostBehind(u),
               PartStartsAt(u, UfHost));
  }

  lemma PartInside(text: string, a: string, s: string, b: string, c: string, part: string, d: string, at: nat)
    requires text == a + s + b && s == c + part + d && at == |a| + |c|
    ensures at + |part| <= |text| && text[at..at + |part|] == part
  {
    Inside(a, s, b, c, part, d);
  }

  lemma HostStartsAt(u: UrlOf)
    ensures PartStartsAt(u, UfHost) == |u.schema + "://"| + |HostBefore(u)|
  {
  }

  /** The server around its host. */
  function HostBefore(u: UrlOf): string {
    if u.host.Name? then UserinfoText(u) else UserinfoText(u) + "["
  }

  function HostBehind(u: UrlOf): string {
    if u.host.Name? then PortText(u) else "]" + PortText(u)
  }

  lemma HostWithin(u: UrlOf)
    ensures ServerOf(u) == HostBefore(u) + Part(u, UfHost).value + HostBehind(u)
  {
    if u.host.V6? {
      V6Within(UserinfoText(u), V6Text(u.host.address, u.host.zone), PortText(u));
    }
  }

  lemma V6Within(a: string, b: string, c: string)
    ensures a + ("[" + b + "]") + c == (a + "[") + b + ("]" + c)
  {
  }

  lemma PortPart(u: UrlOf)
    requires u.port.Some?
    ensures var at := PartStartsAt(u, UfPort);
            && at + |u.port.value| <= |UrlText(u)| && UrlText(u)[at..at + |u.port.value|] == u.port.value
            && UrlText(u)[at..] == u.port.value + Tail(u)
  {
    AroundServer(u);
    var before := UserinfoText(u) + HostText(u.host) + ":";
    assert ServerOf(u) == before + u.port.value + "";
    Inside(u.schema + "://", ServerOf(u), Tail(u), before, u.port.value, "");
    assert "" + Tail(u) == Tail(u);
  }

  lemma SchemaPart(u: UrlOf)
    ensures |u.schema| <= |UrlText(u)| && UrlText(u)[..|u.schema|] == u.schema
  {
    AroundServer(u);
    FirstOfFour(u.schema, "://", ServerOf(u), Tail(u));
  }

  lemma FirstOfFour(a: string, b: string, c: string, d: string)
    ensures |a| <= |a + b + c + d| && (a + b + c + d)[..|a|] == a
  {
  }

  lemma PathPart(u: UrlOf)
    ensures var at := PathStartsAt(u);
            at + |u.path| <= |UrlText(u)| && UrlText(u)[at..at + |u.path|] == u.path
  {
    var before := u.schema + "://" + ServerOf(u);
    PathWithin(before, u.path, QueryText(u), FragmentText(u));
    Middle(u, before, u.path, QueryText(u) + FragmentText(u));
  }

  lemma PathWithin(a: string, b: string, c: string, d: string)
    ensures a + b + c + d == a + b + (c + d)
  {
  }

  lemma TailPart(u: UrlOf, f: UrlField)
    requires f in {UfQuery, UfFragment} && Part(u, f).Some?
    ensures PartStartsAt(u, f) + |Part(u, f).value| <= |UrlText(u)|
    ensures UrlText(u)[PartStartsAt(u, f)..PartStartsAt(u, f) + |Part(u, f).value|] == Part(u, f).value
  {
    var before := u.schema + "://" + ServerOf(u) + u.path;
    if f.UfQuery? {
      Middle(u, before + "?", u.query.value, FragmentText(u));
    } else {
      Middle(u, before + QueryText(u) + "#", u.fragment.value, "");
    }
  }

  lemma Middle(u: UrlOf, a: string, part: string, b: string)
    requires UrlText(u) == a + part + b
    ensures UrlText(u)[|a|..|a| + |part|] == part
  {
  }

  lemma {:induction false} LeadingDigits(digits: string, rest: string)
    requires All(IsNum, digits)
    ensures LeadingNumber(digits + rest, 0) == LeadingNumber(rest, Decimal(digits))
    decreases |digits|
  {
    if digits == [] {
      assert digits + rest == rest;
    } else {
      var t := digits[..|digits| - 1];
      var d := digits[|digits| - 1];
      assert digits + rest == t + ([d] + rest);
      LeadingDigits(t, [d] + rest);
      assert ([d] + rest)[1..] == rest;
    }
  }

  /** No digit follows the port of a printed URL, in the URL or in memory behind it. */
  predicate PortEnds(u: UrlOf, behind: string) {
    u.path != [] || u.query.Some? || u.fragment.Some? || behind == [] || !IsNum(behind[0])
  }

  lemma PortIsRead(u: UrlOf, behind: string)
    requires IsUrl(u) && u.port.Some? && PortEnds(u, behind)
    ensures var v := Decimal(u.port.value);
            Strtoul((UrlText(u) + behind)[PartStartsAt(u, UfPort)..]) == if v > UNSET then UNSET else v
  {
    var rest := Tail(u) + behind;
    PortThenRest(u, behind);
    LeadingDigits(u.port.value, rest);
    TailStart(u, behind);
  }

  lemma PortThenRest(u: UrlOf, behind: string)
    requires u.port.Some?
    ensures PartStartsAt(u, UfPort) <= |UrlText(u)|
    ensures (UrlText(u) + behind)[PartStartsAt(u, UfPort)..] == u.port.value + (Tail(u) + behind)
  {
    PortPart(u);
    DropThenAppend(UrlText(u), behind, PartStartsAt(u, UfPort), u.port.value, Tail(u));
  }

  lemma DropThenAppend(text: string, behind: string, at: nat, a: string, b: string)
    requires at <= |text| && text[at..] == a + b
    ensures (text + behind)[at..] == a + (b + behind)
  {
    assert (text + behind)[at..] == text[at..] + behind;
  }

  lemma TailStart(u: UrlOf, behind: string)
    requires IsUrl(u) && PortEnds(u, behind)
    ensures Tail(u) + behind == [] || !IsNum((Tail(u) + behind)[0])
  {
    if u.path != [] {
      assert (Tail(u) + behind)[0] == u.path[0];
    } else if u.query.Some? {
      assert (Tail(u) + behind)[0] == '?';
    } else {
      assert Tail(u) + behind == behind;
    }
  }

  /** A fragment right behind the server leads out of parse_url_char. */
  lemma FragmentRefused(u: UrlOf)
    requires AreParts(u) && !FragmentFollows(u)
    ensures Split(false, UrlText(u)).None?
  {
    var t := u.schema + "://" + ServerOf(u);
    ServerReached(u.(fragment := None));
    assert ServerOf(u.(fragment := None)) == ServerOf(u);
    assert UrlText(u) == t + "#" + u.fragment.value;
    HashRefused(t, u.fragment.value);
  }

  lemma ServerReached(u: UrlOf)
    requires IsUrl(u)
    ensures UrlFold(false, u.schema + "://" + ServerOf(u)) == Url(Server)
  {
    ServerAfterSchema(u);
    ScanAtMeans(false, u.schema + "://" + ServerOf(u), ServerScan(u));
  }

  /** No '#' in the server. */
  lemma HashRefused(t: string, rest: string)
    requires UrlFold(false, t) == Url(Server)
    ensures Split(false, t + "#" + rest).None?
  {
    var text := t + "#" + rest;
    UrlFoldNext(false, t, '#');
    assert text[..|t| + 1] == t + ['#'] && text[..|text|] == text;
    DeadForGood(false, text, |t| + 1, |text|);
    assert ScanOf(false, text).s == Dead;
  }

  /** The parts of a printed URL, each as the slice of the text that it is. */
  ghost predicate GivesBack(u: UrlOf, fields: map<UrlField, Slice>) {
    forall f: UrlField ::
      && (f in fields <==> Part(u, f).Some?)
      && (f in fields ==>
            && fields[f].off + fields[f].len <= |UrlText(u)|
            && UrlText(u)[fields[f].off..fields[f].off + fields[f].len] == Part(u, f).value)
  }

  lemma SplitGivesBack(u: UrlOf)
    requires IsUrl(u)
    ensures Split(false, UrlText(u)).Some? && GivesBack(u, Split(false, UrlText(u)).value)
  {
    PrintedSplit(u);
    var fields := Split(false, UrlText(u)).value;
    forall f | f in fields
      ensures fields[f].off + fields[f].len <= |UrlText(u)|
      ensures UrlText(u)[fields[f].off..fields[f].off + fields[f].len] == Part(u, f).value
    {
      PartText(u, f);
    }
  }

  /** A URL printed from well-formed parts is accepted exactly when its port fits 16 bits and its fragment
      follows a path or a query; splitting it then gives back its parts and the value of its port, whatever
      is in memory behind the text, as long as no digit follows the port there. */
  lemma UrlRoundTrip(u: UrlOf, behind: string)
    requires AreParts(u) && PortEnds(u, behind)
    ensures IsAccepted(UrlText(u) + behind, |UrlText(u)|, false) <==> PortFits(u) && FragmentFollows(u)
    ensures PortFits(u) && FragmentFollows(u) ==>
              var fields := Split(false, UrlText(u)).value;
              && GivesBack(u, fields)
              && PortNumber(UrlText(u) + behind, fields) == (if u.port.Some? then Decimal(u.port.value) else 0)
  {
    assert (UrlText(u) + behind)[..|UrlText(u)|] == UrlText(u);
    if !FragmentFollows(u) {
      FragmentRefused(u);
    } else {
      PrintedSplit(u);
      SplitGivesBack(u);
      if u.port.Some? {
        PortIsRead(u, behind);
      }
    }
  }

  /** A port as it is printed comes back as its number. */
  lemma PrintedPort(u: UrlOf, port: nat, behind: string)
    requires AreParts(u) && PortEnds(u, behind) && u.port == Some(DecimalText(port))
    ensures IsAccepted(UrlText(u) + behind, |UrlText(u)|, false) <==> port <= 0xFFFF && FragmentFollows(u)
    ensures port <= 0xFFFF && FragmentFollows(u) ==>
              PortNumber(UrlText(u) + behind, Split(false, UrlText(u)).value) == port
  {
    DecimalIsRead(port);
    UrlRoundTrip(u, behind);
  }
}
