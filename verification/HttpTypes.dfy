/** The parser's state, as values: the enumerations and the record that `http_parser` holds. */
module HttpTypes {

  datatype Option<+T> = None | Some(value: T)

  /** The states of parse_url_char: s_req_schema .. s_req_fragment of enum state. */
  datatype UrlState =
    | Schema
    | SchemaSlash
    | SchemaSlashSlash
    | ServerStart
    | Server
    | ServerWithAt
    | Path
    | QueryStringStart
    | QueryString
    | FragmentStart
    | Fragment

  /** s_req_http_start .. s_req_line_almost_done. */
  datatype VersionState =
    | HttpStart
    | HttpH
    | HttpHT
    | HttpHTT
    | HttpHTTP
    | FirstHttpMajor
    | HttpMajor
    | FirstHttpMinor
    | HttpMinor
    | LineAlmostDone

  /** s_chunk_size_start .. s_chunk_data_done. */
  datatype ChunkState =
    | SizeStart
    | Size
    | Parameters
    | SizeAlmostDone
    | ChunkData
    | DataAlmostDone
    | DataDone

  /** enum state, without the response states. */
  datatype State =
    | Dead
    | StartReq
    | ReqMethod
    | ReqSpacesBeforeUrl
    | Url(url: UrlState)
    | Version(version: VersionState)
    | HeaderFieldStart
    | HeaderField
    | HeaderValueDiscardWs
    | HeaderValueDiscardWsAlmostDone
    | HeaderValueDiscardLws
    | HeaderValueStart
    | HeaderValue
    | HeaderValueLws
    | HeaderAlmostDone
    | HeadersAlmostDone
    | HeadersDone
    | Chunk(chunk: ChunkState)
    | BodyIdentity
    | MessageDone

  /** PARSING_HEADER: the bytes read in these states count towards the header size. */
  predicate ParsingHeader(s: State) {
    match s
    case Chunk(c) => !c.ChunkData? && !c.DataAlmostDone? && !c.DataDone?
    case BodyIdentity => false
    case MessageDone => false
    case _ => true
  }

  predicate AtSizeStart(s: State) {
    s.Chunk? && s.chunk.SizeStart?
  }

  /** enum header_states. */
  datatype HeaderState =
    | General
    | SeenC
    | SeenCO
    | SeenCON
    | MatchingConnection
    | MatchingProxyConnection
    | MatchingContentLength
    | MatchingTransferEncoding
    | MatchingUpgrade
    | Connection
    | ContentLength
    | TransferEncoding
    | Upgrade
    | MatchingChunked
    | TokenStart
    | MatchingKeepAlive
    | MatchingClose
    | MatchingUpgradeToken
    | MatchingToken
    | TransferChunked
    | ConnectionKeepAlive
    | ConnectionClose
    | ConnectionUpgrade

  /** enum http_method. */
  datatype Method =
    | DELETE | GET | HEAD | POST | PUT | CONNECT | OPTIONS | TRACE
    | COPY | LOCK | MKCOL | MOVE | PROPFIND | PROPPATCH | SEARCH | UNLOCK | BIND | REBIND | UNBIND | ACL
    | REPORT | MKACTIVITY | CHECKOUT | MERGE
    | MSEARCH | NOTIFY | SUBSCRIBE | UNSUBSCRIBE
    | PATCH | PURGE | MKCALENDAR | LINK | UNLINK

  function MethodString(m: Method): string {
    match m
    case DELETE => "DELETE"
    case GET => "GET"
    case HEAD => "HEAD"
    case POST => "POST"
    case PUT => "PUT"
    case CONNECT => "CONNECT"
    case OPTIONS => "OPTIONS"
    case TRACE => "TRACE"
    case COPY => "COPY"
    case LOCK => "LOCK"
    case MKCOL => "MKCOL"
    case MOVE => "MOVE"
    case PROPFIND => "PROPFIND"
    case PROPPATCH => "PROPPATCH"
    case SEARCH => "SEARCH"
    case UNLOCK => "UNLOCK"
    case BIND => "BIND"
    case REBIND => "REBIND"
    case UNBIND => "UNBIND"
    case ACL => "ACL"
    case REPORT => "REPORT"
    case MKACTIVITY => "MKACTIVITY"
    case CHECKOUT => "CHECKOUT"
    case MERGE => "MERGE"
    case MSEARCH => "M-SEARCH"
    case NOTIFY => "NOTIFY"
    case SUBSCRIBE => "SUBSCRIBE"
    case UNSUBSCRIBE => "UNSUBSCRIBE"
    case PATCH => "PATCH"
    case PURGE => "PURGE"
    case MKCALENDAR => "MKCALENDAR"
    case LINK => "LINK"
    case UNLINK => "UNLINK"
  }

  /** The values of enum http_errno that a request parser whose callbacks succeed can report. */
  datatype Errno =
    | OK
    | InvalidEofState
    | HeaderOverflow
    | ClosedConnection
    | InvalidVersion
    | InvalidMethod
    | InvalidUrl
    | LfExpected
    | InvalidHeaderToken
    | InvalidContentLength
    | UnexpectedContentLength
    | InvalidChunkSize
    | InvalidConstant
    | StrictError

  /** enum flags, one boolean for each bit. */
  datatype Flags = Flags(
    chunked: bool,
    keepAlive: bool,
    close: bool,
    connectionUpgrade: bool,
    trailing: bool,
    upgrade: bool,
    contentLength: bool)

  const NO_FLAGS := Flags(false, false, false, false, false, false, false)

  /** ULLONG_MAX, which content_length holds while no length is known. */
  const UNSET: nat := 0xFFFF_FFFF_FFFF_FFFF

  /** Unsigned 64-bit wrap-around. */
  function Wrap64(x: nat): nat {
    x % 0x1_0000_0000_0000_0000
  }

  const HTTP_MAX_HEADER_SIZE: nat := 80 * 1024

  /** The fields of struct http_parser that steer it; `nread` is kept apart, see ByteMachine. */
  datatype Fields = Fields(
    state: State,
    headerState: HeaderState,
    index: nat,
    contentLength: nat,
    verb: Method,
    httpMajor: nat,
    httpMinor: nat,
    flags: Flags,
    upgrade: bool,
    errno: Errno,
    lenient: bool)

  /** http_parser_init: everything zero, state s_start_req.  The setting lenient_http_headers is the
      embedder's to change afterwards. */
  function InitialFields(lenient: bool): Fields {
    Fields(StartReq, General, 0, 0, DELETE, 0, 0, NO_FLAGS, false, OK, lenient)
  }

  datatype DataKind = UrlText | FieldText | ValueText | BodyText

  /** A callback, with what the embedder can see of the parser when it runs. */
  datatype Event =
    | MessageBegin
    | Data(kind: DataKind, text: string)
    | HeadersComplete(verb: Method, upgrade: bool)
    | ChunkHeader(length: nat)
    | ChunkComplete
    | MessageComplete(keepAlive: bool)

  /** True.  A definition of the form `forall key :: Unfold(key) ==> ...` is looked into only by a
      proof that asserts Unfold(0), which keeps long definitions out of the proofs that do not need
      them. */
  predicate Unfold(key: int) {
    true
  }

  /** The same for definitions that are made up of such definitions. */
  predicate Uncover(key: int) {
    true
  }
}
