/** Chunked bodies: what is printed is what is delivered. */
module Framing {
  import opened Ascii
  import opened Tables
  import opened HttpTypes
  import opened ByteMachine
  import opened Invariant
  import opened Callbacks
  import opened Tracking
  import opened Message
  import opened Segments

  // ----- chunk sizes -----------------------------------------------------------------------------

  /** Bytes that the `unhex` table gives a value. */
  predicate IsHexText(s: string) {
    forall i :: 0 <= i < |s| ==> Unhex(s[i]) >= 0
  }

  function HexValue(s: string): nat
    requires IsHexText(s)
  {
    if s == [] then 0 else HexValue(s[..|s| - 1]) * 16 + Unhex(s[|s| - 1])
  }

  predicate ReadsSize(p: Fields) {
    AtSizeStart(p.state) && p.flags.chunked && !p.flags.trailing
  }

  /** A byte of a chunk size. */
  lemma SizeDigit(p: Fields, ch: char)
    requires p.state.Chunk? && p.flags.chunked && Unhex(ch) >= 0
    requires p.state.chunk.SizeStart? || p.state.chunk.Size?
    ensures var o := Micro(p, ch);
            var before := if p.state.chunk.SizeStart? then 0 else p.contentLength;
            var v := before * 16 + Unhex(ch);
            if v <= MAX_CHUNK_SIZE then
              o.act == Consume && o.event == None && o.p == p.(state := Chunk(Size), contentLength := v)
            else o.act == Fail && o.p.errno == InvalidContentLength
  {
  }

  /** A chunk size is accepted exactly when its value is in range, and then it is read as its value;
      no number of digits makes it wrap. */
  lemma {:induction false} ChunkSizeIsExact(c: Config, s: string)
    requires Running(c) && ReadsSize(c.p) && s != [] && IsHexText(s)
    ensures var r := Feed(c, s);
            if HexValue(s) <= MAX_CHUNK_SIZE then
              At(r, c.p.(state := Chunk(Size), contentLength := HexValue(s)), c.trace)
            else r.last == Fail && r.p.errno == InvalidContentLength
  {
    var t := s[..|s| - 1];
    var ch := s[|s| - 1];
    var r := Feed(c, t);
    assert Feed(c, s) == Next(r, ch);
    assert HexValue(s) == HexValue(t) * 16 + Unhex(ch);
    if t == [] {
      SizeNext(c, r, 0, ch);
    } else {
      ChunkSizeIsExact(c, t);
      if HexValue(t) <= MAX_CHUNK_SIZE {
        SizeNext(c, r, HexValue(t), ch);
      } else {
        assert Next(r, ch) == r;
      }
    }
  }

  /** From `c`, where a chunk size starts, to `r`, where it is `v`, and on by one more byte. */
  lemma SizeNext(c: Config, r: Config, v: nat, ch: char)
    requires Running(c) && ReadsSize(c.p) && Unhex(ch) >= 0
    requires (r == c && v == 0) || At(r, c.p.(state := Chunk(Size), contentLength := v), c.trace)
    ensures var v' := v * 16 + Unhex(ch);
            if v' <= MAX_CHUNK_SIZE then At(Next(r, ch), c.p.(state := Chunk(Size), contentLength := v'), c.trace)
            else Next(r, ch).last == Fail && Next(r, ch).p.errno == InvalidContentLength
  {
    SizeDigit(r.p, ch);
    Bite(r, ch, Micro(r.p, ch));
  }

  // ----- one chunk -------------------------------------------------------------------------------

  /** Nothing, or a parameter list: whatever follows a semicolon or a space up to the line end. */
  predicate IsExtension(s: string) {
    s == [] || ((s[0] == ';' || s[0] == ' ') && CR !in s)
  }

  predicate IsSize(s: string) {
    s != [] && IsHexText(s) && HexValue(s) <= MAX_CHUNK_SIZE
  }

  lemma ParameterByte(p: Fields, ch: char)
    requires p.flags.chunked && ch != CR
    requires p.state == Chunk(Parameters) || (p.state == Chunk(Size) && (ch == ';' || ch == ' '))
    ensures var o := Micro(p, ch);
            o.act == Consume && o.event == None && o.p == p.(state := Chunk(Parameters))
  {
  }

  lemma {:induction false} ParametersRead(c: Config, s: string)
    requires Running(c) && c.p.state == Chunk(Size) && c.p.flags.chunked && IsExtension(s) && s != []
    ensures At(Feed(c, s), c.p.(state := Chunk(Parameters)), c.trace)
  {
    var t := s[..|s| - 1];
    var ch := s[|s| - 1];
    if t != [] {
      ParametersRead(c, t);
    }
    ParameterByte(Feed(c, t).p, ch);
    Bite(Feed(c, t), ch, Micro(Feed(c, t).p, ch));
  }

  lemma SizeLineCR(c: Config)
    requires Running(c) && c.p.flags.chunked && (c.p.state == Chunk(Size) || c.p.state == Chunk(Parameters))
    ensures At(Next(c, CR), c.p.(state := Chunk(SizeAlmostDone)), c.trace)
  {
    Bite(c, CR, Micro(c.p, CR));
  }

  lemma SizeLineLF(c: Config)
    requires Running(c) && c.p.flags.chunked && c.p.state == Chunk(SizeAlmostDone)
    ensures At(Next(c, LF), AfterSizeLine(c.p, c.p.contentLength), c.trace + [ChunkHeader(c.p.contentLength)])
  {
    Bite(c, LF, Micro(c.p, LF));
  }

  /** The line end after a chunk size. */
  lemma SizeLineEnd(c: Config)
    requires Running(c) && c.p.flags.chunked && (c.p.state == Chunk(Size) || c.p.state == Chunk(Parameters))
    ensures var n := c.p.contentLength;
            At(Feed(c, "\r\n"), AfterSizeLine(c.p, n), c.trace + [ChunkHeader(n)])
  {
    SizeLineCR(c);
    SizeLineLF(Next(c, CR));
    FeedTwo(c, CR, LF);
  }

  function AfterSizeLine(p: Fields, n: nat): Fields {
    if n == 0 then p.(contentLength := 0, state := HeaderFieldStart, flags := p.flags.(trailing := true))
    else p.(contentLength := n, state := Chunk(ChunkData))
  }

  /** A size line announces its value. */
  lemma SizeLineRead(c: Config, size: string, extension: string)
    requires Running(c) && ReadsSize(c.p) && IsSize(size) && IsExtension(extension)
    ensures At(Feed(c, size + extension + "\r\n"), AfterSizeLine(c.p, HexValue(size)),
               c.trace + [ChunkHeader(HexValue(size))])
  {
    ChunkSizeIsExact(c, size);
    SizeLineBehind(Feed(c, size), extension);
    FeedConcat(c, size, extension);
    FeedConcat(c, size + extension, "\r\n");
  }

  lemma SizeLineBehind(c: Config, extension: string)
    requires Running(c) && c.p.state == Chunk(Size) && c.p.flags.chunked && IsExtension(extension)
    ensures var n := c.p.contentLength;
            At(Feed(Feed(c, extension), "\r\n"), AfterSizeLine(c.p, n), c.trace + [ChunkHeader(n)])
  {
    if extension != [] {
      ParametersRead(c, extension);
    }
    SizeLineEnd(Feed(c, extension));
  }

  lemma ChunkDataEnd(c: Config)
    requires Running(c) && c.p.state == Chunk(DataAlmostDone) && c.p.flags.chunked && c.p.contentLength == 0
    ensures At(Feed(c, "\r\n"), c.p.(state := Chunk(SizeStart)), c.trace + [ChunkComplete])
  {
    ChunkDataCR(c);
    ChunkDataLF(Next(c, CR));
    FeedTwo(c, CR, LF);
  }

  lemma ChunkDataCR(c: Config)
    requires Running(c) && c.p.state == Chunk(DataAlmostDone) && c.p.flags.chunked && c.p.contentLength == 0
    ensures At(Next(c, CR), c.p.(state := Chunk(DataDone)), c.trace)
  {
    Bite(c, CR, Micro(c.p, CR));
  }

  lemma ChunkDataLF(c: Config)
    requires Running(c) && c.p.state == Chunk(DataDone) && c.p.flags.chunked
    ensures At(Next(c, LF), c.p.(state := Chunk(SizeStart)), c.trace + [ChunkComplete])
  {
    Bite(c, LF, Micro(c.p, LF));
  }

  /** The data of a chunk, and the line end after it. */
  lemma ChunkDataRead(c: Config, data: string)
    requires Running(c) && c.p.state == Chunk(ChunkData) && c.p.flags.chunked && 0 < |data| == c.p.contentLength < UNSET
    requires |c.trace| > 0 && c.trace[|c.trace| - 1].ChunkHeader?
    ensures At(Feed(c, data + "\r\n"), c.p.(contentLength := 0, state := Chunk(SizeStart)),
               c.trace + [Data(BodyText, data), ChunkComplete])
  {
    FeedConcat(c, data, "\r\n");
    BodyRead(c, data);
    ChunkDataEnd(Feed(c, data));
    assert c.trace + [Data(BodyText, data)] + [ChunkComplete] == c.trace + [Data(BodyText, data), ChunkComplete];
  }

  lemma BodyRead(c: Config, data: string)
    requires Running(c) && c.p.state == Chunk(ChunkData) && c.p.flags.chunked && 0 < |data| == c.p.contentLength < UNSET
    ensures At(Feed(c, data), c.p.(contentLength := 0, state := Chunk(DataAlmostDone)),
               Emit(c.trace, Data(BodyText, data)))
  {
    var _ := BodyDelivered(c, data);
  }

  /** All bytes of a body, or of the data of a chunk, have been delivered. */
  lemma BodyDelivered(c: Config, data: string) returns (d: Config)
    requires Running(c) && ReadsBody(c.p.state) && (c.p.state.Chunk? ==> c.p.flags.chunked)
    requires 0 < |data| == c.p.contentLength < UNSET
    ensures d.p == c.p.(contentLength := 0,
                        state := if c.p.state.BodyIdentity? then MessageDone else Chunk(DataAlmostDone))
    ensures d.trace == Emit(c.trace, Data(BodyText, data))
    ensures if c.p.state.Chunk? then Feed(c, data) == d && d.last == Consume
            else Leads(d, data[|data| - 1], Feed(c, data))
  {
    var refs, n := RunOf(c, data), |data| - 1;
    RunOfIsRun(c, data);
    assert data[..|data|] == data;
    d := BodyJump(refs, data, 0, n);
    JumpDelivers(refs, data, n, d);
  }

  lemma JumpDelivers(refs: seq<Config>, data: string, n: nat, d: Config)
    requires |data| == n + 1 && |refs| == n + 2 && Stride(refs, data, 0, n, BodyText, false)
    requires d.trace == Emit(refs[n].trace, Data(BodyText, [data[n]]))
    ensures d.trace == Emit(refs[0].trace, Data(BodyText, data))
  {
    StrideEnd(refs, data, 0, n, BodyText, false);
    EmitOneMore(refs[0].trace, BodyText, data, 0, n + 1);
    assert data[0..n + 1] == data;
  }

  // ----- a chunked body --------------------------------------------------------------------------

  datatype BodyChunk = BodyChunk(size: string, extension: string, data: string)

  /** A chunk as section 4.1 of RFC 7230 writes it: its size in hexadecimal is that of its data. */
  predicate IsChunk(k: BodyChunk) {
    IsSize(k.size) && IsExtension(k.extension) && HexValue(k.size) == |k.data| > 0
  }

  function ChunkText(k: BodyChunk): string {
    k.size + k.extension + "\r\n" + (k.data + "\r\n")
  }

  function ChunksText(chunks: seq<BodyChunk>): string {
    if chunks == [] then "" else ChunkText(chunks[0]) + ChunksText(chunks[1..])
  }

  function ChunkEvents(k: BodyChunk): seq<Event> {
    [ChunkHeader(|k.data|), Data(BodyText, k.data), ChunkComplete]
  }

  function ChunksEvents(chunks: seq<BodyChunk>): seq<Event> {
    if chunks == [] then []
    else ChunkEvents(chunks[0]) + ChunksEvents(chunks[1..])
  }

  lemma ChunkRead(c: Config, k: BodyChunk)
    requires Running(c) && ReadsSize(c.p) && IsChunk(k)
    ensures At(Feed(c, ChunkText(k)), c.p.(contentLength := 0), c.trace + ChunkEvents(k))
  {
    var line := k.size + k.extension + "\r\n";
    SizeLineRead(c, k.size, k.extension);
    FeedConcat(c, line, k.data + "\r\n");
    var c1 := Feed(c, line);
    ChunkDataRead(c1, k.data);
    assert c1.trace + [Data(BodyText, k.data), ChunkComplete]
        == c.trace + [ChunkHeader(|k.data|), Data(BodyText, k.data), ChunkComplete];
  }

  /** Every list of chunks is read as it was printed. */
  lemma {:induction false} ChunksRead(c: Config, chunks: seq<BodyChunk>)
    requires Running(c) && ReadsSize(c.p)
    requires forall k :: k in chunks ==> IsChunk(k)
    ensures var r := Feed(c, ChunksText(chunks));
            && Running(r) && r.trace == c.trace + ChunksEvents(chunks)
            && r.p == if chunks == [] then c.p else c.p.(contentLength := 0)
    decreases |chunks|
  {
    if chunks == [] {
      assert c.trace + [] == c.trace;
    } else {
      var d := Feed(c, ChunkText(chunks[0]));
      ChunkRead(c, chunks[0]);
      ChunksRead(d, chunks[1..]);
      FeedConcat(c, ChunkText(chunks[0]), ChunksText(chunks[1..]));
      Assoc(c.trace, ChunkEvents(chunks[0]), ChunksEvents(chunks[1..]));
    }
  }

  lemma Assoc(a: seq<Event>, b: seq<Event>, c: seq<Event>)
    ensures (a + b) + c == a + (b + c)
  {
  }

  // ----- the end of a chunked body ---------------------------------------------------------------

  /** The empty line after the last chunk ends the message. */
  lemma TrailersEnd(c: Config, end: string)
    requires Running(c) && c.p.state.HeaderFieldStart? && c.p.flags.trailing && IsLineEnd(end)
    ensures var r := Feed(c, end);
            var keepAlive := ShouldKeepAlive(c.p);
            && r.p == c.p.(state := if keepAlive then StartReq else Dead)
            && r.last == (if c.p.upgrade then Exit else Consume)
            && r.trace == c.trace + [ChunkComplete, MessageComplete(keepAlive)]
  {
    var d := EmptyLineParts(c, end);
    TrailersEndLF(d);
    assert c.trace + [ChunkComplete] + [MessageComplete(ShouldKeepAlive(c.p))]
        == c.trace + [ChunkComplete, MessageComplete(ShouldKeepAlive(c.p))];
  }

  lemma TrailersEndLF(c: Config)
    requires Running(c) && c.p.state.HeadersAlmostDone? && c.p.flags.trailing
    ensures var r := Next(c, LF);
            var keepAlive := ShouldKeepAlive(c.p);
            && r.p == c.p.(state := if keepAlive then StartReq else Dead)
            && r.last == (if c.p.upgrade then Exit else Consume)
            && r.trace == c.trace + [ChunkComplete] + [MessageComplete(keepAlive)]
  {
    var o := Micro(c.p, LF);
    BiteTwice(c, LF, o, Micro(o.p, LF));
  }

  /** The data of the chunks. */
  function ChunksData(chunks: seq<BodyChunk>): string {
    if chunks == [] then "" else chunks[0].data + ChunksData(chunks[1..])
  }

  lemma {:induction false} ChunkBody(trace: seq<Event>, k: BodyChunk)
    ensures MessageOf(trace + ChunkEvents(k)).body == MessageOf(trace).body + k.data
  {
    var data := Data(BodyText, k.data);
    var t1 := trace + [ChunkHeader(|k.data|)];
    MessageNext(trace, ChunkHeader(|k.data|));
    MessageNext(t1, data);
    MessageNext(t1 + [data], ChunkComplete);
    assert trace + ChunkEvents(k) == t1 + [data] + [ChunkComplete];
  }

  /** What an embedder receives as the body is the data of the chunks, one after the other. */
  lemma {:induction false} ChunksBody(trace: seq<Event>, chunks: seq<BodyChunk>)
    ensures MessageOf(trace + ChunksEvents(chunks)).body == MessageOf(trace).body + ChunksData(chunks)
    decreases |chunks|
  {
    if chunks == [] {
      assert trace + [] == trace;
      assert MessageOf(trace).body + "" == MessageOf(trace).body;
    } else {
      var t := trace + ChunkEvents(chunks[0]);
      ChunkBody(trace, chunks[0]);
      ChunksBody(t, chunks[1..]);
      Assoc(trace, ChunkEvents(chunks[0]), ChunksEvents(chunks[1..]));
      assert MessageOf(trace).body + chunks[0].data + ChunksData(chunks[1..])
          == MessageOf(trace).body + (chunks[0].data + ChunksData(chunks[1..]));
    }
  }

  /** Callbacks without body data. */
  predicate IsNoData(e: Event) {
    !e.MessageBegin? && !(e.Data? && e.kind.BodyText?)
  }

  lemma {:induction false} NoDataBody(trace: seq<Event>, e: Event)
    requires IsNoData(e)
    ensures MessageOf(trace + [e]).body == MessageOf(trace).body
  {
    MessageNext(trace, e);
  }

  lemma {:induction false} BodyStays(trace: seq<Event>, es: seq<Event>)
    requires forall e :: e in es ==> IsNoData(e)
    ensures MessageOf(trace + es).body == MessageOf(trace).body
  {
    if es == [] {
      assert trace + [] == trace;
    } else {
      var n := |es| - 1;
      BodyStays(trace, es[..n]);
      NoDataBody(trace + es[..n], es[n]);
      assert trace + es[..n] + [es[n]] == trace + es;
    }
  }

  lemma {:induction false} ChunkedBody(trace: seq<Event>, chunks: seq<BodyChunk>, end: seq<Event>)
    requires forall e :: e in end ==> IsNoData(e)
    ensures MessageOf(trace + ChunksEvents(chunks) + end).body == MessageOf(trace).body + ChunksData(chunks)
  {
    ChunksBody(trace, chunks);
    BodyStays(trace + ChunksEvents(chunks), end);
  }

  /** A chunked body: every list of non-empty chunks, then a chunk of size zero and an empty line.
      Exactly its data is delivered, with one pair of callbacks for each chunk, and one for the end. */
  lemma ChunkedBodyRoundTrip(c: Config, chunks: seq<BodyChunk>, size: string, extension: string, empty: string)
    requires Running(c) && ReadsSize(c.p) && (forall k :: k in chunks ==> IsChunk(k))
    requires IsSize(size) && HexValue(size) == 0 && IsExtension(extension) && IsLineEnd(empty)
    ensures var r := Feed(c, ChunksText(chunks) + (size + extension + "\r\n" + empty));
            var keepAlive := ShouldKeepAlive(c.p);
            && r.trace == c.trace + ChunksEvents(chunks) + [ChunkHeader(0), ChunkComplete, MessageComplete(keepAlive)]
            && MessageOf(r.trace).body == MessageOf(c.trace).body + ChunksData(chunks)
            && r.p == AfterSizeLine(c.p, 0).(state := if keepAlive then StartReq else Dead)
            && r.last == (if c.p.upgrade then Exit else Consume)
  {
    ChunksRead(c, chunks);
    var c1 := Feed(c, ChunksText(chunks));
    FeedConcat(c, ChunksText(chunks), size + extension + "\r\n" + empty);
    LastChunkRead(c1, size, extension, empty);
    ChunkedBody(c.trace, chunks, [ChunkHeader(0), ChunkComplete, MessageComplete(ShouldKeepAlive(c.p))]);
  }

  lemma LastChunkRead(c: Config, size: string, extension: string, empty: string)
    requires Running(c) && ReadsSize(c.p) && IsSize(size) && HexValue(size) == 0 && IsExtension(extension)
    requires IsLineEnd(empty)
    ensures var r := Feed(c, size + extension + "\r\n" + empty);
            var keepAlive := ShouldKeepAlive(c.p);
            && r.trace == c.trace + [ChunkHeader(0), ChunkComplete, MessageComplete(keepAlive)]
            && r.p == AfterSizeLine(c.p, 0).(state := if keepAlive then StartReq else Dead)
            && r.last == (if c.p.upgrade then Exit else Consume)
  {
    var line := size + extension + "\r\n";
    SizeLineRead(c, size, extension);
    FeedConcat(c, line, empty);
    TrailersEnd(Feed(c, line), empty);
    assert c.trace + [ChunkHeader(0)] + [ChunkComplete, MessageComplete(ShouldKeepAlive(c.p))]
        == c.trace + [ChunkHeader(0), ChunkComplete, MessageComplete(ShouldKeepAlive(c.p))];
  }

  // ----- sizes as they are printed ---------------------------------------------------------------

  /** A hexadecimal digit, in either case. */
  function HexDigit(d: nat, capital: bool): char
    requires d < 16
  {
    if capital then HEX_CAPITALS[d] else HEX_SMALLS[d]
  }

  /** A number in hexadecimal; `capitals` says which digits are capitals, from the last one on. */
  function HexText(n: nat, capitals: seq<bool>): string {
    if n < 16 then LastHex(n, capitals)
    else HexText(n / 16, if capitals == [] then [] else capitals[1..]) + LastHex(n, capitals)
  }

  function LastHex(n: nat, capitals: seq<bool>): string {
    [HexDigit(n % 16, capitals != [] && capitals[0])]
  }

  lemma LastHexIsRead(s: string, n: nat, capitals: seq<bool>)
    requires IsHexText(s)
    ensures IsHexText(s + LastHex(n, capitals)) && HexValue(s + LastHex(n, capitals)) == HexValue(s) * 16 + n % 16
  {
    UnhexTable(n % 16);
    assert (s + LastHex(n, capitals))[..|s|] == s;
  }

  lemma NothingInFront(s: string)
    ensures "" + s == s
  {
  }

  /** Every number is read back, in any mix of cases. */
  lemma {:induction false} HexIsRead(n: nat, capitals: seq<bool>)
    ensures IsHexText(HexText(n, capitals)) && HexValue(HexText(n, capitals)) == n
    ensures n <= MAX_CHUNK_SIZE ==> IsSize(HexText(n, capitals))
    decreases n
  {
    if n < 16 {
      LastHexIsRead("", n, capitals);
      NothingInFront(LastHex(n, capitals));
    } else {
      var more := if capitals == [] then [] else capitals[1..];
      HexIsRead(n / 16, more);
      LastHexIsRead(HexText(n / 16, more), n, capitals);
    }
  }

  /** A chunk with its size as it is printed. */
  function PrintedChunk(data: string, capitals: seq<bool>): BodyChunk {
    BodyChunk(HexText(|data|, capitals), "", data)
  }

  /** Such a chunk is read as what it was printed from. */
  lemma PrintedChunkRead(c: Config, data: string, capitals: seq<bool>)
    requires Running(c) && ReadsSize(c.p) && 0 < |data| <= MAX_CHUNK_SIZE
    ensures IsChunk(PrintedChunk(data, capitals))
    ensures At(Feed(c, HexText(|data|, capitals) + "\r\n" + (data + "\r\n")), c.p.(contentLength := 0),
               c.trace + [ChunkHeader(|data|), Data(BodyText, data), ChunkComplete])
  {
    var k := PrintedChunk(data, capitals);
    HexIsRead(|data|, capitals);
    ChunkRead(c, k);
    assert k.size + "" + "\r\n" == k.size + "\r\n";
  }
}
