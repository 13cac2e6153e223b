/** http_parser_parse_url: splits a URL into its fields, in place. */
module UrlSplitter {
  import opened Ascii
  import opened HttpTypes
  import opened UrlMachine
  import opened Knowledge
  import opened UrlFields

  /** A slice as it is stored, in two unsigned 16-bit numbers. */
  function Stored(s: Slice): Slice {
    Slice(s.off % 0x1_0000, s.len % 0x1_0000)
  }

  /** The number at the start of a text, as far as there are digits. */
  function LeadingNumber(text: string, before: nat): nat {
    if text != [] && IsNum(text[0]) then LeadingNumber(text[1..], before * 10 + DigitValue(text[0])) else before
  }

  /** strtoul(text, NULL, 10) for a text that starts with a digit: it reads to the last digit, and
      stops at ULONG_MAX. */
  function Strtoul(text: string): nat {
    if LeadingNumber(text, 0) > UNSET then UNSET else LeadingNumber(text, 0)
  }

  /** The number that http_parser_parse_url stores in `port`. */
  function PortNumber(buf: string, fields: map<UrlField, Slice>): nat {
    if UfPort in fields && fields[UfPort].off <= |buf| then Strtoul(buf[fields[UfPort].off..]) else 0
  }

  /** What http_parser_parse_url is to accept in the first `buflen` bytes of `buf`; the port number is
      read from memory beyond `buflen` if digits go on there. */
  predicate IsAccepted(buf: string, buflen: nat, isConnect: bool)
    requires buflen <= |buf|
  {
    var r := Split(isConnect, buf[..buflen]);
    r.Some? && PortNumber(buf, r.value) <= 0xFFFF
  }

  /** The server, if there is one, ends within the first 65535 bytes, so that its 16-bit offset and length are exact. */
  predicate ServerFits(isConnect: bool, url: string) {
    var fields := ScanOf(isConnect, url).fields;
    UrlFold(isConnect, url) != Dead && UfHost in fields ==> fields[UfHost].off + fields[UfHost].len <= 0xFFFF
  }

  predicate PortIsNear(fields: map<UrlField, Slice>) {
    UfPort in fields ==> fields[UfPort].off <= 0xFFFF
  }

  // ----- at any length ---------------------------------------------------------------------------

  /** What http_parser_parse_url finds at any length: http_parse_host is given the server as it is stored. */
  function SplitAsStored(isConnect: bool, url: string): Option<map<UrlField, Slice>> {
    if UrlFold(isConnect, url) == Dead then None
    else
      ScanFits(isConnect, url);
      SplitScan(isConnect, url, ScanOf(isConnect, url))
  }

  /** What it makes of the fields that the loop has found. */
  function SplitScan(isConnect: bool, url: string, c: Scan): Option<map<UrlField, Slice>>
    requires UfHost in c.fields ==> c.fields[UfHost].off + c.fields[UfHost].len <= |url|
  {
    if UfHost !in c.fields then if UfSchema in c.fields || isConnect then None else Some(c.fields)
    else
      var h := Stored(c.fields[UfHost]);
      var t := url[h.off..h.off + h.len];
      var fields := (c.fields - {UfHost}) + HostFields(c.foundAt, t, h.off);
      if !HostMayEnd(HostFold(c.foundAt, t)) || (isConnect && fields.Keys != {UfHost, UfPort}) then None
      else Some(fields)
  }

  /** The port number, read where the port is stored to be. */
  function PortAsStored(buf: string, fields: map<UrlField, Slice>): nat {
    if UfPort in fields && Stored(fields[UfPort]).off <= |buf| then Strtoul(buf[Stored(fields[UfPort]).off..]) else 0
  }

  /** A URL with a server is decided by its server. */
  lemma {:induction false} AsStoredByServer(isConnect: bool, url: string, c: Scan, h: Slice, t: string)
    requires UrlFold(isConnect, url) != Dead && UfHost in c.fields && c == ScanOf(isConnect, url)
    requires h == Stored(c.fields[UfHost]) && h.off + h.len <= |url| && url[h.off..h.off + h.len] == t
    ensures var fields := (c.fields - {UfHost}) + HostFields(c.foundAt, t, h.off);
            SplitAsStored(isConnect, url)
            == if !HostMayEnd(HostFold(c.foundAt, t)) || (isConnect && fields.Keys != {UfHost, UfPort}) then None
               else Some(fields)
  {
    ScanFits(isConnect, url);
    SplitByStored(isConnect, url, c, h, t);
  }

  lemma {:induction false} SplitByStored(isConnect: bool, url: string, c: Scan, h: Slice, t: string)
    requires UfHost in c.fields && c.fields[UfHost].off + c.fields[UfHost].len <= |url|
    requires h == Stored(c.fields[UfHost]) && h.off + h.len <= |url| && url[h.off..h.off + h.len] == t
    ensures var fields := (c.fields - {UfHost}) + HostFields(c.foundAt, t, h.off);
            SplitScan(isConnect, url, c)
            == if !HostMayEnd(HostFold(c.foundAt, t)) || (isConnect && fields.Keys != {UfHost, UfPort}) then None
               else Some(fields)
  {
  }

  /** Where the server fits, that is what the URL says. */
  lemma {:induction false} AsStoredIsExact(isConnect: bool, url: string)
    requires ServerFits(isConnect, url)
    ensures SplitAsStored(isConnect, url) == Split(isConnect, url)
    ensures Split(isConnect, url).Some? ==> PortIsNear(Split(isConnect, url).value)
  {
    ScanFieldsOnly(isConnect, url);
    if UrlFold(isConnect, url) != Dead && UfHost in ScanOf(isConnect, url).fields {
      ScanTracks(isConnect, url);
      var h := ScanOf(isConnect, url).fields[UfHost];
      ServerAsStored(isConnect, url, h, url[h.off..h.off + h.len]);
    }
  }

  lemma {:induction false} ServerAsStored(isConnect: bool, url: string, h: Slice, t: string)
    requires UrlFold(isConnect, url) != Dead && UfHost in ScanOf(isConnect, url).fields
    requires h == ScanOf(isConnect, url).fields[UfHost] && UfPort !in ScanOf(isConnect, url).fields
    requires h.off + h.len <= |url| && h.off + h.len <= 0xFFFF && url[h.off..h.off + h.len] == t
    ensures SplitAsStored(isConnect, url) == Split(isConnect, url)
    ensures Split(isConnect, url).Some? ==> PortIsNear(Split(isConnect, url).value)
  {
    var c := ScanOf(isConnect, url);
    assert Stored(h) == h;
    SplitByServer(isConnect, url, t);
    AsStoredByServer(isConnect, url, c, h, t);
    if HostMayEnd(HostFold(c.foundAt, t)) {
      MergedPortIsNear(c, h, t);
    }
  }

  lemma {:induction false} MergedPortIsNear(c: Scan, h: Slice, t: string)
    requires UfPort !in c.fields && HostMayEnd(HostFold(c.foundAt, t)) && |t| == h.len && h.off + h.len <= 0xFFFF
    ensures PortIsNear((c.fields - {UfHost}) + HostFields(c.foundAt, t, h.off))
  {
    PortWithin(c.foundAt, t, h.off);
  }

  lemma {:induction false} PortWithin(foundAt: bool, t: string, base: nat)
    requires HostMayEnd(HostFold(foundAt, t))
    ensures var inner := HostFields(foundAt, t, base); UfPort in inner ==> inner[UfPort].off <= base + |t|
  {
    ServerFields(foundAt, t, base);
  }

  lemma PortIsExact(buf: string, fields: map<UrlField, Slice>)
    requires PortIsNear(fields)
    ensures PortAsStored(buf, fields) == PortNumber(buf, fields)
  {
  }

  // ----- entries of field_data -------------------------------------------------------------------

  /** field_data has an entry for every field, set or not. */
  type FieldData = map<UrlField, Slice>

  ghost predicate IsTotal(d: FieldData) {
    forall key {:trigger Unfold(key)} :: Unfold(key) ==> forall f: UrlField :: f in d
  }

  /** The entry of a field that starts at `i`. */
  function Started(d: FieldData, f: UrlField, i: nat): FieldData {
    d[f := Slice(i % 0x1_0000, 1)]
  }

  /** u->field_data[f].len++. */
  function Lengthened(d: FieldData, f: UrlField): FieldData
    requires f in d
  {
    d[f := Slice(d[f].off, (d[f].len + 1) % 0x1_0000)]
  }

  lemma EntryExists(d: FieldData, f: UrlField)
    requires IsTotal(d)
    ensures f in d
  {
    assert Unfold(0);
  }

  lemma StaysTotal(d: FieldData, f: UrlField, s: Slice)
    requires IsTotal(d)
    ensures IsTotal(d[f := s])
  {
  }

  /** The fields that are set are those of `fields`, as they are stored. */
  ghost predicate Holds(known: set<UrlField>, d: FieldData, fields: map<UrlField, Slice>) {
    forall key {:trigger Unfold(key)} :: Unfold(key) ==>
      && (forall f :: f in known <==> f in fields)
      && (forall f :: f in fields ==> f in d && d[f] == Stored(fields[f]))
  }

  lemma HoldsOn(known: set<UrlField>, d: FieldData, fields: map<UrlField, Slice>, f: UrlField, i: nat)
    requires Holds(known, d, fields) && f in fields && f in d
    ensures Holds(known, Lengthened(d, f), Extended(fields, f, i, true))
  {
  }

  lemma HoldsNew(known: set<UrlField>, d: FieldData, fields: map<UrlField, Slice>, f: UrlField, i: nat)
    requires Holds(known, d, fields)
    ensures Holds(known + {f}, Started(d, f, i), Extended(fields, f, i, false))
  {
  }

  /** The same in http_parse_host, which has found `fields` so far, with what was there before. */
  ghost predicate HoldsHost(known: set<UrlField>, d: FieldData, fields: map<UrlField, Slice>,
                            known0: set<UrlField>, d0: FieldData) {
    forall key {:trigger Unfold(key)} :: Unfold(key) ==>
      && (forall f :: f in known <==> f in known0 || f in fields)
      && (forall f :: f in fields ==> f in d && d[f] == Stored(fields[f]))
      && (forall f :: f in d0 && f !in fields && f != UfHost ==> f in d && d[f] == d0[f])
      && (UfHost in d && UfHost !in fields ==> d[UfHost].len == 0)
  }

  lemma HoldsHostOn(known: set<UrlField>, d: FieldData, fields: map<UrlField, Slice>, known0: set<UrlField>,
                    d0: FieldData, f: UrlField, i: nat)
    requires HoldsHost(known, d, fields, known0, d0) && f in fields && f in d
    ensures HoldsHost(known, Lengthened(d, f), Extended(fields, f, i, true), known0, d0)
  {
  }

  lemma HoldsHostNew(known: set<UrlField>, d: FieldData, fields: map<UrlField, Slice>, known0: set<UrlField>,
                     d0: FieldData, f: UrlField, i: nat)
    requires HoldsHost(known, d, fields, known0, d0)
    ensures HoldsHost(known + {f}, Started(d, f, i), Extended(fields, f, i, false), known0, d0)
  {
  }

  lemma HostIsNew(known: set<UrlField>, d: FieldData, fields: map<UrlField, Slice>, known0: set<UrlField>,
                  d0: FieldData)
    requires HoldsHost(known, d, fields, known0, d0) && UfHost in d && UfHost !in fields && UfHost in known0
    ensures d[UfHost].len == 0 && known + {UfHost} == known
  {
    assert Unfold(0);
  }

  lemma HostStarts(known0: set<UrlField>, d0: FieldData)
    requires UfHost in d0
    ensures HoldsHost(known0, d0[UfHost := Slice(d0[UfHost].off, 0)], map[], known0, d0)
  {
  }

  /** What http_parse_host makes of the server text `t`, which starts at `base`. */
  ghost predicate HostParsed(foundAt: bool, t: string, base: nat, ok: bool, known: set<UrlField>, d: FieldData,
                             known0: set<UrlField>, d0: FieldData) {
    forall key {:trigger Uncover(key)} :: Uncover(key) ==>
      && ok == HostMayEnd(HostFold(foundAt, t))
      && (ok ==> HoldsHost(known, d, HostFields(foundAt, t, base), known0, d0))
  }

  lemma {:induction false} HostRefused(foundAt: bool, t: string, base: nat, known: set<UrlField>, d: FieldData,
                                       known0: set<UrlField>, d0: FieldData)
    requires HostFold(foundAt, t) == HostDead
    ensures HostParsed(foundAt, t, base, false, known, d, known0, d0)
  {
  }

  class UrlParts {
    var fieldSet: set<UrlField>
    var port: nat
    var fieldData: FieldData

    ghost predicate Valid()
      reads this
    {
      IsTotal(fieldData)
    }

    /** http_parser_url_init. */
    constructor ()
      ensures Valid() && fieldSet == {} && port == 0
    {
      fieldSet, port := {}, 0;
      fieldData := map[
        UfSchema := Slice(0, 0), UfHost := Slice(0, 0), UfPort := Slice(0, 0), UfPath := Slice(0, 0),
        UfQuery := Slice(0, 0), UfFragment := Slice(0, 0), UfUserinfo := Slice(0, 0)];
      new;
      forall f: UrlField
        ensures f in fieldData
      {
        match f {
          case UfSchema =>
          case UfHost =>
          case UfPort =>
          case UfPath =>
          case UfQuery =>
          case UfFragment =>
          case UfUserinfo =>
        }
      }
    }

    /** One more byte of a field, which goes on or starts. */
    method TakeByte(f: UrlField, i: nat, goesOn: bool, ghost fields: map<UrlField, Slice>)
      requires Valid() && Holds(fieldSet, fieldData, fields) && (goesOn ==> f in fields)
      modifies this`fieldSet, this`fieldData
      ensures Valid() && Holds(fieldSet, fieldData, Extended(fields, f, i, goesOn))
    {
      EntryExists(fieldData, f);
      if goesOn {
        HoldsOn(fieldSet, fieldData, fields, f, i);
        StaysTotal(fieldData, f, Lengthened(fieldData, f)[f]);
        fieldData := Lengthened(fieldData, f);
      } else {
        HoldsNew(fieldSet, fieldData, fields, f, i);
        StaysTotal(fieldData, f, Slice(i % 0x1_0000, 1));
        fieldData := Started(fieldData, f, i);
        fieldSet := fieldSet + {f};
      }
    }

    /** The loop has read `a`. */
    ghost predicate Scanned(isConnect: bool, a: string, s: State, last: Option<UrlField>, foundAt: bool)
      reads this
    {
      forall key {:trigger Unfold(key)} :: Unfold(key) ==>
        var c := ScanOf(isConnect, a);
        s == c.s && last == c.last && foundAt == c.foundAt && Holds(fieldSet, fieldData, c.fields)
    }

    lemma ScannedMeans(isConnect: bool, a: string, s: State, last: Option<UrlField>, foundAt: bool)
      requires Scanned(isConnect, a, s, last, foundAt)
      ensures UrlFold(isConnect, a) == s
      ensures var c := ScanOf(isConnect, a); Holds(fieldSet, fieldData, c.fields) && foundAt == c.foundAt
    {
      assert Unfold(0);
    }

    lemma ScanEnds(isConnect: bool, buf: string, i: nat, buflen: nat, s: State, last: Option<UrlField>, foundAt: bool)
      requires i == buflen <= |buf| && s != Dead && Scanned(isConnect, buf[..i], s, last, foundAt)
      ensures UrlFold(isConnect, buf[..buflen]) != Dead
      ensures var c := ScanOf(isConnect, buf[..buflen]); Holds(fieldSet, fieldData, c.fields) && foundAt == c.foundAt
    {
      ScannedMeans(isConnect, buf[..buflen], s, last, foundAt);
    }

    /** One turn of the loop of http_parser_parse_url. */
    method ScanByte(buf: string, i: nat, isConnect: bool, s: State, oldUf: Option<UrlField>, ghost foundAt: bool)
      returns (next: State, uf: Option<UrlField>)
      requires i < |buf| && Valid() && s != Dead
      requires Scanned(isConnect, buf[..i], s, oldUf, foundAt)
      modifies this`fieldSet, this`fieldData
      ensures Valid() && next == UrlFold(isConnect, buf[..i + 1])
      ensures next != Dead ==>
                next.Url? && Scanned(isConnect, buf[..i + 1], next, uf, foundAt || next.url.ServerWithAt?)
    {
      assert Unfold(0);
      ghost var c := ScanOf(isConnect, buf[..i]);
      ScanTracks(isConnect, buf[..i]);
      ScanStep(isConnect, buf, i);
      next := ParseUrlChar(s, buf[i]);
      uf := FieldOf(next);
      if uf.Some? {
        TakeByte(uf.value, i, uf == oldUf, c.fields);
      } else {
        uf := oldUf;
      }
    }

    /** The loop of http_parser_parse_url. */
    method ScanUrl(buf: string, buflen: nat, isConnect: bool) returns (ok: bool, foundAt: bool)
      requires buflen <= |buf| && Valid() && fieldSet == {}
      modifies this`fieldSet, this`fieldData
      ensures Valid()
      ensures ok == (UrlFold(isConnect, buf[..buflen]) != Dead)
      ensures ok ==>
                var c := ScanOf(isConnect, buf[..buflen]);
                Holds(fieldSet, fieldData, c.fields) && foundAt == c.foundAt
    {
      var s := if isConnect then Url(ServerStart) else ReqSpacesBeforeUrl;
      var oldUf: Option<UrlField> := None;
      foundAt := false;
      var i := 0;
      assert buf[..0] == [];
      while i < buflen
        invariant i <= buflen && Valid() && s != Dead && Scanned(isConnect, buf[..i], s, oldUf, foundAt)
      {
        s, oldUf := ScanByte(buf, i, isConnect, s, oldUf, foundAt);
        if s.Dead? {
          DeadForGood(isConnect, buf, i + 1, buflen);
          return false, foundAt;
        }
        if s.url.ServerWithAt? {
          foundAt := true;
        }
        i := i + 1;
      }
      ok := true;
      ScanEnds(isConnect, buf, i, buflen, s, oldUf, foundAt);
    }

    // ----- http_parse_host ---------------------------------------------------------------------

    /** One more byte of the host: its length starts at zero. */
    method TakeHostByte(i: nat, goesOn: bool, ghost fields: map<UrlField, Slice>, ghost known: set<UrlField>,
                        ghost data: FieldData)
      requires Valid() && HoldsHost(fieldSet, fieldData, fields, known, data)
      requires UfHost in known && goesOn == (UfHost in fields)
      modifies this`fieldData
      ensures Valid() && HoldsHost(fieldSet, fieldData, Extended(fields, UfHost, i, goesOn), known, data)
    {
      EntryExists(fieldData, UfHost);
      if goesOn {
        HoldsHostOn(fieldSet, fieldData, fields, known, data, UfHost, i);
      } else {
        HostIsNew(fieldSet, fieldData, fields, known, data);
        HoldsHostNew(fieldSet, fieldData, fields, known, data, UfHost, i);
        ghost var started := Started(fieldData, UfHost, i);
        StaysTotal(fieldData, UfHost, Slice(i % 0x1_0000, fieldData[UfHost].len));
        fieldData := fieldData[UfHost := Slice(i % 0x1_0000, fieldData[UfHost].len)];
        assert Lengthened(fieldData, UfHost) == started;
      }
      StaysTotal(fieldData, UfHost, Lengthened(fieldData, UfHost)[UfHost]);
      fieldData := Lengthened(fieldData, UfHost);
    }

    /** One more byte of the user information or the port. */
    method TakeOtherByte(f: UrlField, i: nat, goesOn: bool, ghost fields: map<UrlField, Slice>,
                         ghost known: set<UrlField>, ghost data: FieldData)
      requires Valid() && HoldsHost(fieldSet, fieldData, fields, known, data) && (goesOn ==> f in fields)
      modifies this`fieldData, this`fieldSet
      ensures Valid() && HoldsHost(fieldSet, fieldData, Extended(fields, f, i, goesOn), known, data)
    {
      EntryExists(fieldData, f);
      if goesOn {
        HoldsHostOn(fieldSet, fieldData, fields, known, data, f, i);
        StaysTotal(fieldData, f, Lengthened(fieldData, f)[f]);
        fieldData := Lengthened(fieldData, f);
      } else {
        HoldsHostNew(fieldSet, fieldData, fields, known, data, f, i);
        StaysTotal(fieldData, f, Slice(i % 0x1_0000, 1));
        fieldData := Started(fieldData, f, i);
        fieldSet := fieldSet + {f};
      }
    }

    /** The fields once the byte at `p` has led from `s` to `next`. */
    static ghost function HostNext(fields: map<UrlField, Slice>, s: HostState, next: HostState, p: nat)
      : map<UrlField, Slice>
    {
      match HostFieldOf(next)
      case None => fields
      case Some(f) => Extended(fields, f, p, HostFieldOf(s) == Some(f))
    }

    method TakeServerByte(p: nat, s: HostState, next: HostState, ghost fields: map<UrlField, Slice>,
                          ghost known: set<UrlField>, ghost data: FieldData)
      requires Valid() && HoldsHost(fieldSet, fieldData, fields, known, data) && UfHost in known
      requires HostFieldOf(s).Some? ==> HostFieldOf(s).value in fields
      requires HostFieldOf(next) == Some(UfHost) ==> (UfHost in fields <==> HostFieldOf(s) == Some(UfHost))
      requires exists ch :: next == HostChar(s, ch)
      modifies this`fieldData, this`fieldSet
      ensures Valid() && HoldsHost(fieldSet, fieldData, HostNext(fields, s, next, p), known, data)
    {
      if next.HostName? || next.HostV6? {
        TakeHostByte(p, s == next, fields, known, data);
      } else if next.ZoneStart? || next.Zone? {
        TakeHostByte(p, true, fields, known, data);
      } else if next.Port? || next.Userinfo? {
        TakeOtherByte(HostFieldOf(next).value, p, s == next, fields, known, data);
      }
    }

    /** The loop of http_parse_host has read `t`. */
    ghost predicate HostScanned(foundAt: bool, t: string, base: nat, s: HostState, known: set<UrlField>,
                                data: FieldData)
      reads this
    {
      forall key {:trigger Uncover(key)} :: Uncover(key) ==>
        s == HostFold(foundAt, t) && HoldsHost(fieldSet, fieldData, HostFields(foundAt, t, base), known, data)
    }

    lemma HostBegins(foundAt: bool, buf: string, from: nat, s: HostState, known: set<UrlField>, data: FieldData)
      requires from <= |buf| && s == if foundAt then UserinfoStart else HostStart
      requires HoldsHost(fieldSet, fieldData, map[], known, data)
      ensures HostScanned(foundAt, buf[from..from], from, s, known, data)
    {
      assert buf[from..from] == [];
    }

    lemma HostAccepted(foundAt: bool, t: string, base: nat, s: HostState, known: set<UrlField>, data: FieldData)
      requires HostScanned(foundAt, t, base, s, known, data)
      ensures HostParsed(foundAt, t, base, HostMayEnd(s), fieldSet, fieldData, known, data)
    {
      assert Uncover(0);
    }

    lemma HostEnds(foundAt: bool, buf: string, from: nat, p: nat, end: nat, s: HostState, known: set<UrlField>,
                   data: FieldData)
      requires from <= p == end <= |buf| && HostScanned(foundAt, buf[from..p], from, s, known, data)
      ensures HostParsed(foundAt, buf[from..end], from, HostMayEnd(s), fieldSet, fieldData, known, data)
    {
      HostAccepted(foundAt, buf[from..end], from, s, known, data);
    }

    /** One turn of the loop of http_parse_host. */
    method HostByte(buf: string, from: nat, p: nat, ghost end: nat, s: HostState, foundAt: bool,
                    ghost known: set<UrlField>, ghost data: FieldData) returns (next: HostState)
      requires from <= p < end <= |buf| && Valid() && UfHost in known
      requires HostScanned(foundAt, buf[from..p], from, s, known, data) && s != HostDead
      modifies this`fieldSet, this`fieldData
      ensures Valid()
      ensures next == HostDead ==> HostParsed(foundAt, buf[from..end], from, false, fieldSet, fieldData, known, data)
      ensures next != HostDead ==> HostScanned(foundAt, buf[from..p + 1], from, next, known, data)
    {
      next := HostChar(s, buf[p]);
      if next.HostDead? {
        HostDies(foundAt, buf, from, p, end, s, known, data);
      } else {
        TakeLiveByte(buf, from, p, s, next, foundAt, known, data);
      }
    }

    lemma HostDies(foundAt: bool, buf: string, from: nat, p: nat, end: nat, s: HostState, known: set<UrlField>,
                   data: FieldData)
      requires from <= p < end <= |buf| && HostScanned(foundAt, buf[from..p], from, s, known, data)
      requires HostChar(s, buf[p]) == HostDead
      ensures HostParsed(foundAt, buf[from..end], from, false, fieldSet, fieldData, known, data)
    {
      assert Uncover(0);
      HostStep(foundAt, buf, from, p);
      HostDeadForGood(foundAt, buf, from, p + 1, end);
      HostRefused(foundAt, buf[from..end], from, fieldSet, fieldData, known, data);
    }

    /** A byte of the server that leads on. */
    method TakeLiveByte(buf: string, from: nat, p: nat, s: HostState, next: HostState, foundAt: bool,
                        ghost known: set<UrlField>, ghost data: FieldData)
      requires from <= p < |buf| && Valid() && UfHost in known
      requires HostScanned(foundAt, buf[from..p], from, s, known, data)
      requires s != HostDead && next == HostChar(s, buf[p])
      modifies this`fieldSet, this`fieldData
      ensures Valid() && HostScanned(foundAt, buf[from..p + 1], from, next, known, data)
    {
      assert Uncover(0);
      HostStep(foundAt, buf, from, p);
      HostSoFar(foundAt, buf[from..p], from, buf[p]);
      TakeServerByte(p, s, next, HostFields(foundAt, buf[from..p], from), known, data);
    }

    /** u->field_data[UF_HOST].len = 0. */
    method ResetHost()
      requires Valid() && UfHost in fieldData
      modifies this`fieldData
      ensures Valid() && HoldsHost(fieldSet, fieldData, map[], fieldSet, old(fieldData))
    {
      var off := fieldData[UfHost].off;
      HostStarts(fieldSet, fieldData);
      StaysTotal(fieldData, UfHost, Slice(off, 0));
      fieldData := fieldData[UfHost := Slice(off, 0)];
    }

    /** http_parse_host. */
    method ParseHost(buf: string, foundAt: bool) returns (ok: bool)
      requires Valid() && UfHost in fieldSet && UfHost in fieldData
      requires fieldData[UfHost].off + fieldData[UfHost].len <= |buf|
      modifies this`fieldSet, this`fieldData
      ensures Valid()
      ensures var h := old(fieldData[UfHost]);
              HostParsed(foundAt, buf[h.off..h.off + h.len], h.off, ok, fieldSet, fieldData, old(fieldSet),
                         old(fieldData))
    {
      ghost var known, data := fieldSet, fieldData;
      var from := fieldData[UfHost].off;
      var end := from + fieldData[UfHost].len;
      ResetHost();
      ok := ScanHost(buf, from, end, foundAt, known, data);
    }

    /** The loop of http_parse_host. */
    method ScanHost(buf: string, from: nat, end: nat, foundAt: bool, ghost known: set<UrlField>, ghost data: FieldData)
      returns (ok: bool)
      requires Valid() && from <= end <= |buf| && UfHost in known
      requires HoldsHost(fieldSet, fieldData, map[], known, data)
      modifies this`fieldSet, this`fieldData
      ensures Valid() && HostParsed(foundAt, buf[from..end], from, ok, fieldSet, fieldData, known, data)
    {
      var s := if foundAt then UserinfoStart else HostStart;
      var p := from;
      HostBegins(foundAt, buf, from, s, known, data);
      while p < end
        invariant from <= p <= end && Valid() && s != HostDead
        invariant HostScanned(foundAt, buf[from..p], from, s, known, data)
      {
        s := HostByte(buf, from, p, end, s, foundAt, known, data);
        if s.HostDead? {
          return false;
        }
        p := p + 1;
      }
      ok := HostMayEnd(s);
      HostEnds(foundAt, buf, from, p, end, s, known, data);
    }

    // ----- http_parser_parse_url ---------------------------------------------------------------

    /** The loop, then the server: all but the port number.  `fields` are the fields found. */
    method FindFields(buf: string, buflen: nat, isConnect: bool) returns (ok: bool, ghost fields: map<UrlField, Slice>)
      requires Valid() && buflen <= |buf| && fieldSet == {}
      modifies this`fieldSet, this`fieldData
      ensures Valid()
      ensures ok ==> Holds(fieldSet, fieldData, fields) && SlicesWithin(fields, 0, buflen)
      ensures IsSplit(isConnect, buf[..buflen], ok, fields)
    {
      var foundAt;
      ok, foundAt := ScanUrl(buf, buflen, isConnect);
      ghost var url := buf[..buflen];
      fields := ScanOf(isConnect, url).fields;
      NoServerDecides(isConnect, url);
      if !ok {
        return false, fields;
      }
      ScanFits(isConnect, url);
      FoundByScan(isConnect, url, foundAt);
      HoldsAt(fieldSet, fieldData, fields, UfHost);
      if UfHost !in fieldSet {
        // http:///toto is refused, and so is a CONNECT request without a host
        return UfSchema !in fieldSet && !isConnect, fields;
      }
      ok, fields := FindWithServer(buf, buflen, isConnect, foundAt, fields);
    }

    /** The decision on a URL with a server. */
    method FindWithServer(buf: string, buflen: nat, isConnect: bool, foundAt: bool, ghost outer: map<UrlField, Slice>)
      returns (ok: bool, ghost fields: map<UrlField, Slice>)
      requires Valid() && buflen <= |buf| && Holds(fieldSet, fieldData, outer) && SlicesWithin(outer, 0, buflen)
      requires UfHost in outer && outer.Keys <= {UfSchema, UfHost, UfPath, UfQuery, UfFragment}
      requires ScanFound(isConnect, buf[..buflen], outer, foundAt)
      modifies this`fieldSet, this`fieldData
      ensures Valid()
      ensures ok ==> Holds(fieldSet, fieldData, fields) && SlicesWithin(fields, 0, buflen)
      ensures IsSplit(isConnect, buf[..buflen], ok, fields)
    {
      HoldsAt(fieldSet, fieldData, outer, UfHost);
      ok, fields := FindServer(buf, buflen, foundAt, outer);
      ghost var h := Stored(outer[UfHost]);
      SliceOfPrefix(buf, buflen, h);
      ServerDecides(isConnect, buf[..buflen], buf[h.off..h.off + h.len], outer, foundAt, ok, fields);
      if ok {
        HoldsAt(fieldSet, fieldData, fields, UfHost);
      }
      // a CONNECT request has host and port only
      ok := ok && !(isConnect && fieldSet != {UfHost, UfPort});
    }

    /** The fields of the server, in place of the server. */
    method FindServer(buf: string, buflen: nat, foundAt: bool, ghost outer: map<UrlField, Slice>)
      returns (ok: bool, ghost fields: map<UrlField, Slice>)
      requires Valid() && buflen <= |buf| && Holds(fieldSet, fieldData, outer) && SlicesWithin(outer, 0, buflen)
      requires UfHost in outer && UfHost in fieldSet && UfHost in fieldData
      requires fieldData[UfHost] == Stored(outer[UfHost])
      requires outer.Keys <= {UfSchema, UfHost, UfPath, UfQuery, UfFragment}
      modifies this`fieldSet, this`fieldData
      ensures Valid()
      ensures ok ==> Holds(fieldSet, fieldData, fields) && SlicesWithin(fields, 0, buflen)
      ensures var h := Stored(outer[UfHost]);
              ServerParsed(foundAt, buf[h.off..h.off + h.len], outer, ok, fields)
    {
      ghost var known, data := fieldSet, fieldData;
      ghost var h := Stored(outer[UfHost]);
      ok := ParseHost(buf, foundAt);
      ghost var t := buf[h.off..h.off + h.len];
      fields := (outer - {UfHost}) + HostFields(foundAt, t, h.off);
      if ok {
        ServerFound(fieldSet, fieldData, outer, foundAt, t, known, data, buflen);
      }
      ServerIsParsed(fieldSet, fieldData, outer, foundAt, t, ok, known, data);
    }

    /** Succeeds exactly on the URLs that are found to be well formed, with their fields and port number; offset and
        length of a field are stored in 16 bits.  As long as the server fits these, what is found is what the URL
        says. */
    method ParseUrl(buf: string, buflen: nat, isConnect: bool) returns (ok: bool)
      requires Valid() && buflen <= |buf|
      modifies this
      ensures Valid()
      ensures var r := SplitAsStored(isConnect, buf[..buflen]);
              && ok == (r.Some? && PortAsStored(buf, r.value) <= 0xFFFF)
              && (ok ==> fieldSet == r.value.Keys && port == PortAsStored(buf, r.value) &&
                         forall f :: f in r.value ==> f in fieldData && fieldData[f] == Stored(r.value[f]))
      ensures ServerFits(isConnect, buf[..buflen]) ==> ok == IsAccepted(buf, buflen, isConnect)
      ensures ServerFits(isConnect, buf[..buflen]) && ok ==>
                var fields := Split(isConnect, buf[..buflen]).value;
                && fieldSet == fields.Keys
                && (forall f :: f in fields ==> f in fieldData && fieldData[f] == Stored(fields[f]))
                && port == PortNumber(buf, fields)
    {
      port, fieldSet := 0, {};
      ghost var fields;
      ok, fields := FindFields(buf, buflen, isConnect);
      AcceptedIs(buf, buflen, isConnect, ok, fields);
      if ok {
        OffsetsWithin(fieldSet, fieldData, fields, buflen);
        ok := ReadPort(buf, fields);
      }
    }

    /** The port number, if there is a port. */
    method ReadPort(buf: string, ghost fields: map<UrlField, Slice>) returns (ok: bool)
      requires Valid() && port == 0 && fieldSet == fields.Keys
      requires forall f :: f in fields ==>
                 f in fieldData && fieldData[f] == Stored(fields[f]) && fieldData[f].off <= |buf|
      modifies this`port
      ensures Valid()
      ensures ok == (PortAsStored(buf, fields) <= 0xFFFF)
      ensures ok ==> port == PortAsStored(buf, fields)
    {
      if UfPort in fieldSet {
        EntryExists(fieldData, UfPort);
        var v := Strtoul(buf[fieldData[UfPort].off..]);
        if v > 0xFFFF {
          return false;
        }
        port := v;
      }
      return true;
    }
  }

  lemma SliceOfPrefix(buf: string, n: nat, h: Slice)
    requires h.off + h.len <= n <= |buf|
    ensures buf[..n][h.off..h.off + h.len] == buf[h.off..h.off + h.len]
  {
  }

  /** What SplitAsStored says. */
  ghost predicate IsSplit(isConnect: bool, url: string, ok: bool, fields: map<UrlField, Slice>) {
    forall key {:trigger Unfold(key)} :: Unfold(key) ==>
      SplitAsStored(isConnect, url) == if ok then Some(fields) else None
  }

  /** A URL that is refused by parse_url_char, or has no server. */
  lemma {:induction false} NoServerDecides(isConnect: bool, url: string)
    ensures var c := ScanOf(isConnect, url);
            && (c.s == Dead ==> IsSplit(isConnect, url, false, c.fields))
            && (c.s != Dead && UfHost !in c.fields ==>
                  IsSplit(isConnect, url, UfSchema !in c.fields && !isConnect, c.fields))
            && c.fields.Keys <= {UfSchema, UfHost, UfPath, UfQuery, UfFragment}
  {
    ScanFieldsOnly(isConnect, url);
  }

  /** Once the server is parsed, with `ok` and `fields`, the rest of the decision is about CONNECT. */
  lemma {:induction false} ServerDecides(isConnect: bool, url: string, t: string, outer: map<UrlField, Slice>,
                                         foundAt: bool, ok: bool, fields: map<UrlField, Slice>)
    requires ScanFound(isConnect, url, outer, foundAt) && UfHost in outer
    requires var h := Stored(outer[UfHost]); h.off + h.len <= |url| && url[h.off..h.off + h.len] == t
    requires ServerParsed(foundAt, t, outer, ok, fields)
    ensures IsSplit(isConnect, url, ok && !(isConnect && fields.Keys != {UfHost, UfPort}), fields)
  {
    assert Unfold(0);
    AsStoredByServer(isConnect, url, ScanOf(isConnect, url), Stored(outer[UfHost]), t);
  }

  /** What the loop over a URL has found. */
  ghost predicate ScanFound(isConnect: bool, url: string, outer: map<UrlField, Slice>, foundAt: bool) {
    forall key {:trigger Unfold(key)} :: Unfold(key) ==>
      var c := ScanOf(isConnect, url);
      c.s != Dead && outer == c.fields && foundAt == c.foundAt
  }

  lemma {:induction false} FoundByScan(isConnect: bool, url: string, foundAt: bool)
    requires UrlFold(isConnect, url) != Dead && foundAt == ScanOf(isConnect, url).foundAt
    ensures ScanFound(isConnect, url, ScanOf(isConnect, url).fields, foundAt)
  {
  }

  /** What http_parse_host has made of the server. */
  ghost predicate ServerParsed(foundAt: bool, t: string, outer: map<UrlField, Slice>, ok: bool,
                               fields: map<UrlField, Slice>)
    requires UfHost in outer
  {
    forall key {:trigger Unfold(key)} :: Unfold(key) ==>
      && ok == HostMayEnd(HostFold(foundAt, t))
      && (ok ==> fields == (outer - {UfHost}) + HostFields(foundAt, t, Stored(outer[UfHost]).off))
  }

  /** The host goes into the fields of the server. */
  lemma MergedHolds(known: set<UrlField>, d: FieldData, outer: map<UrlField, Slice>, inner: map<UrlField, Slice>,
                    known0: set<UrlField>, d0: FieldData)
    requires Holds(known0, d0, outer) && HoldsHost(known, d, inner, known0, d0) && UfHost in inner && UfHost in outer
    ensures Holds(known, d, (outer - {UfHost}) + inner)
  {
    assert Unfold(0);
  }

  lemma {:induction false} ServerIsParsed(known: set<UrlField>, d: FieldData, outer: map<UrlField, Slice>,
                                          foundAt: bool, t: string, ok: bool, known0: set<UrlField>, d0: FieldData)
    requires UfHost in outer && HostParsed(foundAt, t, Stored(outer[UfHost]).off, ok, known, d, known0, d0)
    ensures ServerParsed(foundAt, t, outer, ok, (outer - {UfHost}) + HostFields(foundAt, t, Stored(outer[UfHost]).off))
  {
    assert Uncover(0);
  }

  lemma {:induction false} ServerFound(known: set<UrlField>, d: FieldData, outer: map<UrlField, Slice>, foundAt: bool,
                                       t: string, known0: set<UrlField>, d0: FieldData, n: nat)
    requires Holds(known0, d0, outer) && SlicesWithin(outer, 0, n) && UfHost in outer && UfPort !in outer
    requires var h := Stored(outer[UfHost]);
             h.len == |t| && HostParsed(foundAt, t, h.off, true, known, d, known0, d0)
    ensures var h := Stored(outer[UfHost]);
            var fields := (outer - {UfHost}) + HostFields(foundAt, t, h.off);
            && Holds(known, d, fields) && SlicesWithin(fields, 0, n)
            && (UfPort in fields ==> fields[UfPort].off <= h.off + h.len)
  {
    var h := Stored(outer[UfHost]);
    var inner := HostFields(foundAt, t, h.off);
    FoundInServer(known, d, foundAt, t, h.off, known0, d0);
    MergedHolds(known, d, outer, inner, known0, d0);
    MergedWithin(outer, inner, n);
  }

  lemma {:induction false} FoundInServer(known: set<UrlField>, d: FieldData, foundAt: bool, t: string, base: nat,
                                         known0: set<UrlField>, d0: FieldData)
    requires HostParsed(foundAt, t, base, true, known, d, known0, d0)
    ensures var inner := HostFields(foundAt, t, base);
            && UfHost in inner && HoldsHost(known, d, inner, known0, d0)
            && SlicesWithin(inner, base, base + |t|)
  {
    assert Uncover(0);
    ServerFields(foundAt, t, base);
    HostFieldsOnly(foundAt, t, base);
    HostIsThere(foundAt, t, base);
  }

  lemma MergedWithin(outer: map<UrlField, Slice>, inner: map<UrlField, Slice>, n: nat)
    requires SlicesWithin(outer, 0, n) && UfHost in outer
    requires var h := Stored(outer[UfHost]); SlicesWithin(inner, h.off, h.off + h.len)
    ensures SlicesWithin((outer - {UfHost}) + inner, 0, n)
    ensures var h := Stored(outer[UfHost]); UfPort in inner ==> inner[UfPort].off <= h.off + h.len
  {
  }

  lemma OffsetsWithin(known: set<UrlField>, d: FieldData, fields: map<UrlField, Slice>, n: nat)
    requires Holds(known, d, fields) && SlicesWithin(fields, 0, n)
    ensures known == fields.Keys
    ensures forall f :: f in fields ==> f in d && d[f] == Stored(fields[f]) && d[f].off <= n
  {
    assert Unfold(0);
  }

  /** Once the fields are found, the port number decides. */
  lemma {:induction false} AcceptedIs(buf: string, buflen: nat, isConnect: bool, ok: bool,
                                      fields: map<UrlField, Slice>)
    requires buflen <= |buf| && IsSplit(isConnect, buf[..buflen], ok, fields)
    ensures SplitAsStored(isConnect, buf[..buflen]) == if ok then Some(fields) else None
    ensures ServerFits(isConnect, buf[..buflen]) ==>
              && (IsAccepted(buf, buflen, isConnect) <==> ok && PortAsStored(buf, fields) <= 0xFFFF)
              && (ok ==> Split(isConnect, buf[..buflen]) == Some(fields))
              && (ok ==> PortAsStored(buf, fields) == PortNumber(buf, fields))
  {
    assert Unfold(0);
    if ServerFits(isConnect, buf[..buflen]) {
      AsStoredIsExact(isConnect, buf[..buflen]);
      if ok {
        PortIsExact(buf, fields);
      }
    }
  }

  lemma StoredWithin(fields: map<UrlField, Slice>, n: nat)
    requires SlicesWithin(fields, 0, n) && n <= 0xFFFF
    ensures forall f :: f in fields ==> Stored(fields[f]) == fields[f]
  {
  }

  /** Up to 65535 bytes the server of an accepted URL fits, and every field is stored exactly. */
  lemma StoredExactly(isConnect: bool, url: string)
    requires |url| <= 0xFFFF
    ensures ServerFits(isConnect, url)
    ensures Split(isConnect, url).Some? ==>
              var fields := Split(isConnect, url).value;
              forall f :: f in fields ==> Stored(fields[f]) == fields[f]
  {
    if UrlFold(isConnect, url) != Dead {
      ScanFits(isConnect, url);
    }
    if Split(isConnect, url).Some? {
      UrlStructure(isConnect, url);
      StoredWithin(Split(isConnect, url).value, |url|);
    }
  }

  /** A URL without a server, such as a path, fits whatever its length, and at any length it is accepted exactly when
      it has no schema and is not that of a CONNECT request; of a longer field the length is stored modulo 65536. */
  lemma NoServerFits(isConnect: bool, url: string)
    requires UrlFold(isConnect, url) != Dead && UfHost !in ScanOf(isConnect, url).fields
    ensures ServerFits(isConnect, url)
    ensures var fields := ScanOf(isConnect, url).fields;
            Split(isConnect, url) == if UfSchema in fields || isConnect then None else Some(fields)
  {
  }

  lemma HoldsAt(known: set<UrlField>, d: FieldData, fields: map<UrlField, Slice>, f: UrlField)
    requires Holds(known, d, fields)
    ensures known == fields.Keys && (f in fields ==> f in d && d[f] == Stored(fields[f]))
  {
    assert Unfold(0);
  }

  lemma ScanFits(isConnect: bool, url: string)
    requires UrlFold(isConnect, url) != Dead
    ensures SlicesWithin(ScanOf(isConnect, url).fields, 0, |url|)
  {
    ScanTracks(isConnect, url);
  }

  /** One step of the loop of http_parse_host. */
  lemma {:induction false} HostStep(foundAt: bool, buf: string, from: nat, p: nat)
    requires from <= p < |buf|
    ensures var s := HostFold(foundAt, buf[from..p]);
            var s' := HostChar(s, buf[p]);
            && HostFold(foundAt, buf[from..p + 1]) == s'
            && HostFields(foundAt, buf[from..p + 1], from)
            == UrlParts.HostNext(HostFields(foundAt, buf[from..p], from), s, s', p)
  {
    var t := buf[from..p + 1];
    assert t == buf[from..p] + [buf[p]];
    assert t[..|t| - 1] == buf[from..p];
  }

  /** What the loop has found so far. */
  lemma {:induction false} HostSoFar(foundAt: bool, t: string, base: nat, ch: char)
    requires HostFold(foundAt, t) != HostDead
    ensures var s := HostFold(foundAt, t);
            var s' := HostChar(s, ch);
            var fields := HostFields(foundAt, t, base);
            && (HostFieldOf(s).Some? ==> HostFieldOf(s).value in fields)
            && (HostFieldOf(s') == Some(UfHost) ==> (UfHost in fields <==> HostFieldOf(s) == Some(UfHost)))
  {
    HostRankGrows(HostFold(foundAt, t), ch);
    var _ := HostTracks(foundAt, t, base);
  }

  lemma {:induction false} HostDeadForGood(foundAt: bool, buf: string, from: nat, p: nat, end: nat)
    requires from <= p <= end <= |buf| && HostFold(foundAt, buf[from..p]) == HostDead
    ensures HostFold(foundAt, buf[from..end]) == HostDead
    decreases end - p
  {
    if p < end {
      var t := buf[from..p + 1];
      assert t[..|t| - 1] == buf[from..p];
      HostDeadForGood(foundAt, buf, from, p + 1, end);
    }
  }

  lemma DeadForGood(isConnect: bool, buf: string, n: nat, buflen: nat)
    requires n <= buflen <= |buf| && UrlFold(isConnect, buf[..n]) == Dead
    ensures UrlFold(isConnect, buf[..buflen]) == Dead
  {
    assert buf[..buflen][..n] == buf[..n];
    if UrlFold(isConnect, buf[..buflen]) != Dead {
      DeadStaysDead(isConnect, buf[..buflen], n);
    }
  }

  lemma ScanStep(isConnect: bool, buf: string, i: nat)
    requires i < |buf|
    ensures ScanOf(isConnect, buf[..i + 1]) == ScanNext(ScanOf(isConnect, buf[..i]), i, buf[i])
  {
    assert buf[..i + 1][..i] == buf[..i];
  }
}
