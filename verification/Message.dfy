/** The message as an embedder puts it together from the callbacks. */
module Message {
  import opened HttpTypes
  import opened ByteMachine
  import opened Callbacks

  datatype Header = Header(name: string, value: string)

  /** The current message: its URL, its headers (and trailers), whether the last header is still
      without a value, its body, and the sum of the chunk sizes announced. */
  datatype Message = Message(url: string, headers: seq<Header>, naming: bool, body: string, announced: nat)

  const NOTHING := Message("", [], false, "", 0)

  /** More of a header's name: a new header, unless the last one is still being named. */
  function SawName(m: Message, text: string): Message {
    var n := |m.headers|;
    if m.naming && n > 0 then
      m.(headers := m.headers[..n - 1] + [Header(m.headers[n - 1].name + text, m.headers[n - 1].value)])
    else m.(headers := m.headers + [Header(text, "")], naming := true)
  }

  function SawValue(m: Message, text: string): Message {
    var n := |m.headers|;
    if n == 0 then m
    else
      m.(headers := m.headers[..n - 1] + [Header(m.headers[n - 1].name, m.headers[n - 1].value + text)],
         naming := false)
  }

  function Saw(m: Message, e: Event): Message {
    match e
    case MessageBegin => NOTHING
    case Data(k, text) =>
      (match k
       case UrlText => m.(url := m.url + text)
       case FieldText => SawName(m, text)
       case ValueText => SawValue(m, text)
       case BodyText => m.(body := m.body + text))
    case ChunkHeader(n) => m.(announced := m.announced + n)
    case _ => m
  }

  function MessageOf(trace: seq<Event>): Message {
    if trace == [] then NOTHING else Saw(MessageOf(trace[..|trace| - 1]), trace[|trace| - 1])
  }

  lemma SawTwice(m: Message, k: DataKind, a: string, b: string)
    ensures Saw(Saw(m, Data(k, a)), Data(k, b)) == Saw(m, Data(k, a + b))
  {
    var n := |m.headers|;
    match k
    case UrlText => assert m.url + a + b == m.url + (a + b);
    case BodyText => assert m.body + a + b == m.body + (a + b);
    case FieldText =>
      if m.naming && n > 0 {
        assert m.headers[n - 1].name + a + b == m.headers[n - 1].name + (a + b);
      }
    case ValueText =>
      if n > 0 {
        assert m.headers[n - 1].value + a + b == m.headers[n - 1].value + (a + b);
      }
  }

  lemma {:induction false} MessageNext(trace: seq<Event>, e: Event)
    ensures MessageOf(trace + [e]) == Saw(MessageOf(trace), e)
  {
    assert (trace + [e])[..|trace|] == trace;
  }

  lemma EmitSaw(trace: seq<Event>, e: Event)
    ensures MessageOf(Emit(trace, e)) == Saw(MessageOf(trace), e)
  {
    var t := Emit(trace, e);
    if |t| == |trace| {
      assert t[..|t| - 1] == trace[..|trace| - 1];
      SawTwice(MessageOf(trace[..|trace| - 1]), e.kind, trace[|trace| - 1].text, e.text);
    } else {
      assert t[..|t| - 1] == trace;
    }
  }

  /** An embedder puts the same message together however the data is cut into callbacks. */
  lemma {:induction false} JoinKeepsMessage(raw: seq<Event>)
    ensures MessageOf(Join(raw)) == MessageOf(raw)
  {
    if raw != [] {
      JoinKeepsMessage(raw[..|raw| - 1]);
      EmitSaw(Join(raw[..|raw| - 1]), raw[|raw| - 1]);
    }
  }
}
