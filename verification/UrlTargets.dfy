/** The URLs that most requests carry: a path, and for CONNECT a host and a port. */
module UrlTargets {
  import opened Ascii
  import opened HttpTypes
  import opened Text
  import opened UrlFields
  import opened UrlSplitter
  import opened UrlPrinting

  // ----- a path ------------------------------------------------------------------------------------

  /** A path, or `*`, with an optional query and fragment. */
  datatype PathUrl = PathUrl(path: string, query: Option<string>, fragment: Option<string>)

  predicate IsPathUrl(u: PathUrl) {
    && u.path != [] && (u.path[0] == '/' || u.path[0] == '*') && All(IsUrlChar, u.path)
    && (u.query.Some? ==> u.query.value != [] && All(IsQueryChar, u.query.value))
    && (u.fragment.Some? ==>
          u.fragment.value != [] && All(IsFragmentChar, u.fragment.value) && u.fragment.value[0] != '#')
  }

  /** The same query and fragment in a URL with a server. */
  function WithServer(u: PathUrl): UrlOf {
    UrlOf("a", None, Name("a"), None, "/", u.query, u.fragment)
  }

  function PathUrlText(u: PathUrl): string {
    u.path + QueryText(WithServer(u)) + FragmentText(WithServer(u))
  }

  function PathUrlPart(u: PathUrl, f: UrlField): Option<string> {
    match f
    case UfPath => Some(u.path)
    case UfQuery => u.query
    case UfFragment => u.fragment
    case _ => None
  }

  /** Where a part starts. */
  function PathUrlAt(u: PathUrl, f: UrlField): nat {
    match f
    case UfQuery => |u.path| + 1
    case UfFragment => |u.path + QueryText(WithServer(u))| + 1
    case _ => 0
  }

  lemma PathLeads(path: string)
    requires path != [] && (path[0] == '/' || path[0] == '*') && All(IsUrlChar, path)
    ensures LeadsTo(ReqSpacesBeforeUrl, path, Url(Path))
  {
  }

  /** The scan of the path, and of the whole URL. */
  function PathScan(u: PathUrl): Scan {
    Scan(Url(Path), Some(UfPath), map[UfPath := Slice(0, |u.path|)], false)
  }

  function PathUrlScan(u: PathUrl): Scan {
    var v := WithServer(u);
    AfterFragment(v, AfterQuery(v, PathScan(u), |u.path|), |u.path| + |QueryText(v)|)
  }

  lemma PathRead(u: PathUrl)
    requires IsPathUrl(u)
    ensures ScanAt(false, u.path, PathScan(u))
  {
    var c := Scan(ReqSpacesBeforeUrl, None, map[], false);
    assert ScanAt(false, "", c);
    PathLeads(u.path);
    ScanRun(false, "", u.path, c, Url(Path));
    assert "" + u.path == u.path;
  }

  lemma PathUrlScanned(u: PathUrl)
    requires IsPathUrl(u)
    ensures ScanAt(false, PathUrlText(u), PathUrlScan(u))
  {
    PathRead(u);
    WithServerIsUrl(u);
    QueryThenFragment(WithServer(u), u.path, PathScan(u));
  }

  lemma WithServerIsUrl(u: PathUrl)
    requires IsPathUrl(u)
    ensures IsUrl(WithServer(u))
  {
  }

  lemma PathUrlFields(u: PathUrl)
    requires IsPathUrl(u)
    ensures var d := PathUrlScan(u);
            && d.s != Dead && UfHost !in d.fields && UfSchema !in d.fields && UfPort !in d.fields
            && forall f: UrlField ::
                 && (f in d.fields <==> PathUrlPart(u, f).Some?)
                 && (f in d.fields ==> d.fields[f] == Slice(PathUrlAt(u, f), |PathUrlPart(u, f).value|))
  {
  }

  lemma PathUrlSplit(u: PathUrl)
    requires IsPathUrl(u)
    ensures Split(false, PathUrlText(u)) == Some(PathUrlScan(u).fields)
  {
    PathUrlScanned(u);
    PathUrlFields(u);
    ScanAtMeans(false, PathUrlText(u), PathUrlScan(u));
  }

  lemma PathUrlPartText(u: PathUrl, f: UrlField)
    requires PathUrlPart(u, f).Some?
    ensures var at := PathUrlAt(u, f);
            && at + |PathUrlPart(u, f).value| <= |PathUrlText(u)|
            && PathUrlText(u)[at..at + |PathUrlPart(u, f).value|] == PathUrlPart(u, f).value
  {
    var v := WithServer(u);
    match f
    case UfPath => ThirdPart("", u.path, QueryText(v) + FragmentText(v), PathUrlText(u));
    case UfQuery => ThirdPart(u.path + "?", u.query.value, FragmentText(v), PathUrlText(u));
    case UfFragment => ThirdPart(u.path + QueryText(v) + "#", u.fragment.value, "", PathUrlText(u));
  }

  lemma ThirdPart(a: string, b: string, c: string, text: string)
    requires a + b + c == text
    ensures |a| + |b| <= |text| && text[|a|..|a| + |b|] == b
  {
  }

  /** The parts of a printed URL, each as the slice of the text that it is. */
  ghost predicate PathGivesBack(u: PathUrl, fields: map<UrlField, Slice>) {
    forall f: UrlField ::
      && (f in fields <==> PathUrlPart(u, f).Some?)
      && (f in fields ==>
            && fields[f].off + fields[f].len <= |PathUrlText(u)|
            && PathUrlText(u)[fields[f].off..fields[f].off + fields[f].len] == PathUrlPart(u, f).value)
  }

  lemma PathSplitGivesBack(u: PathUrl, fields: map<UrlField, Slice>)
    requires UfPort !in fields
    requires forall f: UrlField ::
               && (f in fields <==> PathUrlPart(u, f).Some?)
               && (f in fields ==> fields[f] == Slice(PathUrlAt(u, f), |PathUrlPart(u, f).value|))
    ensures PathGivesBack(u, fields)
  {
    forall f | f in fields
      ensures fields[f].off + fields[f].len <= |PathUrlText(u)|
      ensures PathUrlText(u)[fields[f].off..fields[f].off + fields[f].len] == PathUrlPart(u, f).value
    {
      PathUrlPartText(u, f);
    }
  }

  lemma PathAccepted(u: PathUrl, fields: map<UrlField, Slice>, behind: string)
    requires Split(false, PathUrlText(u)) == Some(fields) && UfPort !in fields
    ensures IsAccepted(PathUrlText(u) + behind, |PathUrlText(u)|, false)
    ensures PortNumber(PathUrlText(u) + behind, fields) == 0
  {
    assert (PathUrlText(u) + behind)[..|PathUrlText(u)|] == PathUrlText(u);
  }

  /** Printing such a URL and splitting it gives back its parts, and port 0. */
  lemma PathUrlRoundTrip(u: PathUrl, behind: string) returns (fields: map<UrlField, Slice>)
    requires IsPathUrl(u)
    ensures IsAccepted(PathUrlText(u) + behind, |PathUrlText(u)|, false)
    ensures Split(false, PathUrlText(u)) == Some(fields)
    ensures PathGivesBack(u, fields) && PortNumber(PathUrlText(u) + behind, fields) == 0
  {
    fields := PathUrlScan(u).fields;
    PathUrlSplit(u);
    PathUrlFields(u);
    PathSplitGivesBack(u, fields);
    PathAccepted(u, fields, behind);
  }

  // ----- host and port -----------------------------------------------------------------------------

  lemma ConnectScanned(u: UrlOf)
    requires IsUrl(u)
    ensures ScanAt(true, ServerOf(u),
                   Scan(Url(Server), Some(UfHost), map[UfHost := Slice(0, |ServerOf(u)|)], u.userinfo.Some?))
  {
    var c := Scan(Url(ServerStart), None, map[], false);
    assert ScanAt(true, "", c);
    ServerScanned(true, None, u, "", map[]);
    assert "" + ServerOf(u) == ServerOf(u);
  }

  /** The scan of the server as a whole. */
  function ConnectScan(u: UrlOf): Scan {
    Scan(Url(Server), Some(UfHost), map[UfHost := Slice(0, |ServerOf(u)|)], u.userinfo.Some?)
  }

  lemma ConnectFound(u: UrlOf)
    requires IsUrl(u)
    ensures ScanOf(true, ServerOf(u)) == ConnectScan(u)
  {
    ConnectScanned(u);
    ScanAtMeans(true, ServerOf(u), ConnectScan(u));
  }

  lemma {:induction false} OnlyServer(fields: map<UrlField, Slice>, text: string)
    ensures (map[UfHost := Slice(0, |text|)] - {UfHost}) + fields == fields && text[0..|text|] == text
  {
  }

  /** What http_parser_parse_url finds in the URL of a CONNECT request. */
  lemma ConnectSplit(u: UrlOf)
    requires IsUrl(u)
    ensures var fields := FieldsOfServer(u, 0);
            Split(true, ServerOf(u)) == if fields.Keys != {UfHost, UfPort} then None else Some(fields)
  {
    ConnectFound(u);
    ServerRead(u, 0);
    OnlyServer(FieldsOfServer(u, 0), ServerOf(u));
    SplitByServer(true, ServerOf(u), ServerOf(u));
  }

  lemma ConnectKeys(u: UrlOf)
    ensures FieldsOfServer(u, 0).Keys == {UfHost, UfPort} <==> u.userinfo.None? && u.port.Some?
  {
    var fields := FieldsOfServer(u, 0);
    assert UfUserinfo in fields.Keys <==> u.userinfo.Some?;
    assert UfPort in fields.Keys <==> u.port.Some?;
    assert fields.Keys <= {UfUserinfo, UfHost, UfPort};
  }

  /** The port is read as its value, if no digit follows. */
  lemma ConnectPort(u: UrlOf, behind: string)
    requires u.port.Some? && All(IsNum, u.port.value) && u.userinfo.None? && (behind == [] || !IsNum(behind[0]))
    ensures var v := Decimal(u.port.value);
            var at := |HostText(u.host)| + 1;
            at <= |ServerOf(u)| && Strtoul((ServerOf(u) + behind)[at..]) == if v > UNSET then UNSET else v
  {
    var before := HostText(u.host) + ":";
    assert ServerOf(u) + behind == before + (u.port.value + behind);
    assert (before + (u.port.value + behind))[|before|..] == u.port.value + behind;
    LeadingDigits(u.port.value, behind);
  }

  /** The server part of a URL, as the URL of a CONNECT request, is accepted exactly when it is a host and a port
      that fits 16 bits, without user information.  Then the two are found where they were printed, and the
      port is its value. */
  lemma ConnectRoundTrip(u: UrlOf, behind: string)
    requires IsUrl(u) && (behind == [] || !IsNum(behind[0]))
    ensures IsAccepted(ServerOf(u) + behind, |ServerOf(u)|, true) <==> u.userinfo.None? && u.port.Some? && PortFits(u)
    ensures u.userinfo.None? && u.port.Some? && PortFits(u) ==>
              var fields := Split(true, ServerOf(u)).value;
              && fields == map[UfHost := HostSlice(u.host, 0), UfPort := Slice(|HostText(u.host)| + 1, |u.port.value|)]
              && PortNumber(ServerOf(u) + behind, fields) == Decimal(u.port.value)
  {
    assert (ServerOf(u) + behind)[..|ServerOf(u)|] == ServerOf(u);
    ConnectSplit(u);
    ConnectKeys(u);
    if u.userinfo.None? && u.port.Some? {
      ConnectPort(u, behind);
      ConnectFields(u, behind);
    }
  }

  lemma ConnectFields(u: UrlOf, behind: string)
    requires IsUrl(u) && u.userinfo.None? && u.port.Some?
    ensures FieldsOfServer(u, 0)
         == map[UfHost := HostSlice(u.host, 0), UfPort := Slice(|HostText(u.host)| + 1, |u.port.value|)]
  {
  }
}
