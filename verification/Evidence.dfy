/** What the headers of a message say, and that they go on saying it as the message grows. */
module Evidence {
  import opened HttpTypes
  import opened Text
  import opened Message

  datatype Fact =
    | ChunkedCoding
    | UpgradeHeader
    | ConnectionToken(word: string)
    | BodyLength(length: nat)

  predicate IsConnectionName(name: string) {
    Folded(name) == "connection" || Folded(name) == "proxy-connection"
  }

  /** A value `chunked`, in any case, followed by nothing but spaces. */
  predicate IsChunkedValue(value: string) {
    Folded(TrimEnd(value)) == "chunked"
  }

  /** A complete header establishes a fact. */
  predicate Says(h: Header, f: Fact) {
    match f
    case ChunkedCoding => Folded(h.name) == "transfer-encoding" && IsChunkedValue(h.value)
    case UpgradeHeader => Folded(h.name) == "upgrade"
    case ConnectionToken(word) => IsConnectionName(h.name) && HasElement(h.value, word)
    case BodyLength(n) => Folded(h.name) == "content-length" && IsNumeral(h.value) && Decimal(h.value) == n
  }

  /** A header whose value may go on establishes a fact already. */
  predicate SaysByNow(h: Header, f: Fact) {
    match f
    case UpgradeHeader => Folded(h.name) == "upgrade"
    case ConnectionToken(word) => IsConnectionName(h.name) && HasEndedElement(h.value, word)
    case _ => false
  }

  /** How far the last header is: complete, still without a value, or in its value. */
  datatype Part = Whole | Naming | Open

  predicate SaysAt(headers: seq<Header>, part: Part, f: Fact, i: nat)
    requires i < |headers|
  {
    if i < |headers| - 1 || part.Whole? then Says(headers[i], f) else part.Open? && SaysByNow(headers[i], f)
  }

  /** Some header establishes a fact. */
  ghost predicate Evident(headers: seq<Header>, part: Part, f: Fact) {
    forall key {:trigger Unfold(key)} :: Unfold(key) ==> exists i :: 0 <= i < |headers| && SaysAt(headers, part, f, i)
  }

  lemma SaysByNowSays(h: Header, f: Fact)
    requires SaysByNow(h, f)
    ensures Says(h, f)
  {
    if f.ConnectionToken? {
      var k :| 0 <= k < |Elements(h.value)| - 1 && IsElement(Elements(h.value)[k], f.word);
    }
  }

  /** A new header. */
  lemma EvidentNewHeader(headers: seq<Header>, h: Header, f: Fact)
    requires Evident(headers, Whole, f)
    ensures Evident(headers + [h], Naming, f)
  {
    assert Unfold(0);
    var i :| 0 <= i < |headers| && SaysAt(headers, Whole, f, i);
    assert SaysAt(headers + [h], Naming, f, i);
  }

  /** The last header's name grows, or its value starts, or it is complete with an empty value. */
  lemma EvidentNaming(headers: seq<Header>, h: Header, part: Part, f: Fact)
    requires |headers| > 0 && Evident(headers, Naming, f)
    ensures Evident(headers[..|headers| - 1] + [h], part, f)
  {
    assert Unfold(0);
    var i :| 0 <= i < |headers| && SaysAt(headers, Naming, f, i);
    assert SaysAt(headers[..|headers| - 1] + [h], part, f, i);
  }

  /** The last header's value grows. */
  lemma EvidentValue(headers: seq<Header>, c: char, f: Fact)
    requires |headers| > 0 && Evident(headers, Open, f)
    ensures var last := headers[|headers| - 1];
            Evident(headers[..|headers| - 1] + [Header(last.name, last.value + [c])], Open, f)
  {
    assert Unfold(0);
    var i :| 0 <= i < |headers| && SaysAt(headers, Open, f, i);
    var last := headers[|headers| - 1];
    if i == |headers| - 1 && f.ConnectionToken? {
      EndedElementStays(last.value, c, f.word);
    }
    assert SaysAt(headers[..|headers| - 1] + [Header(last.name, last.value + [c])], Open, f, i);
  }

  /** The last header is complete. */
  lemma EvidentComplete(headers: seq<Header>, f: Fact)
    requires Evident(headers, Open, f)
    ensures Evident(headers, Whole, f)
  {
    assert Unfold(0);
    var i :| 0 <= i < |headers| && SaysAt(headers, Open, f, i);
    if i == |headers| - 1 {
      SaysByNowSays(headers[i], f);
    }
    assert SaysAt(headers, Whole, f, i);
  }

  lemma LastSays(headers: seq<Header>, f: Fact)
    requires |headers| > 0 && Says(headers[|headers| - 1], f)
    ensures Evident(headers, Whole, f)
  {
    assert Unfold(0);
    assert SaysAt(headers, Whole, f, |headers| - 1);
  }

  lemma LastSaysByNow(headers: seq<Header>, f: Fact)
    requires |headers| > 0 && SaysByNow(headers[|headers| - 1], f)
    ensures Evident(headers, Open, f)
  {
    assert Unfold(0);
    assert SaysAt(headers, Open, f, |headers| - 1);
  }

  // ----- the flags -------------------------------------------------------------------------------

  const KEEP_ALIVE := "keep-alive"
  const CLOSE := "close"
  const UPGRADE := "upgrade"

  /** Every flag that is set has a header that says so. */
  ghost predicate FlagsEvident(flags: Flags, headers: seq<Header>, part: Part) {
    forall key {:trigger Unfold(key)} :: Unfold(key) ==>
      && (flags.chunked ==> Evident(headers, part, ChunkedCoding))
      && (flags.upgrade ==> Evident(headers, part, UpgradeHeader))
      && (flags.keepAlive ==> Evident(headers, part, ConnectionToken(KEEP_ALIVE)))
      && (flags.close ==> Evident(headers, part, ConnectionToken(CLOSE)))
      && (flags.connectionUpgrade ==> Evident(headers, part, ConnectionToken(UPGRADE)))
  }

  /** The flags other than the two that FlagsEvident does not speak of. */
  predicate SameEvidence(a: Flags, b: Flags) {
    && a.chunked == b.chunked && a.upgrade == b.upgrade && a.keepAlive == b.keepAlive
    && a.close == b.close && a.connectionUpgrade == b.connectionUpgrade
  }

  lemma FlagsNewHeader(flags: Flags, headers: seq<Header>, h: Header)
    requires FlagsEvident(flags, headers, Whole)
    ensures FlagsEvident(flags, headers + [h], Naming)
  {
    assert Unfold(0);
    forall f | Evident(headers, Whole, f) { EvidentNewHeader(headers, h, f); }
  }

  lemma FlagsNaming(flags: Flags, headers: seq<Header>, h: Header, part: Part)
    requires FlagsEvident(flags, headers, Naming) && |headers| > 0
    ensures FlagsEvident(flags, headers[..|headers| - 1] + [h], part)
  {
    assert Unfold(0);
    forall f | Evident(headers, Naming, f) { EvidentNaming(headers, h, part, f); }
  }

  lemma FlagsValue(flags: Flags, headers: seq<Header>, c: char)
    requires FlagsEvident(flags, headers, Open) && |headers| > 0
    ensures var last := headers[|headers| - 1];
            FlagsEvident(flags, headers[..|headers| - 1] + [Header(last.name, last.value + [c])], Open)
  {
    assert Unfold(0);
    forall f | Evident(headers, Open, f) { EvidentValue(headers, c, f); }
  }

  lemma FlagsComplete(flags: Flags, headers: seq<Header>)
    requires FlagsEvident(flags, headers, Open)
    ensures FlagsEvident(flags, headers, Whole)
  {
    assert Unfold(0);
    forall f | Evident(headers, Open, f) { EvidentComplete(headers, f); }
  }
}
