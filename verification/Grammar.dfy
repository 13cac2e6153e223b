/** The order in which callbacks may fire, as an automaton over traces. */
module Grammar {
  import opened HttpTypes
  import opened ByteMachine

  /** Where a trace stands within
      (begin url (field value)* headers_complete
        (body | (chunk_header(n>0) body chunk_complete)* chunk_header(0) (field value)* chunk_complete)?
       message_complete)*
      where each of url, field, value and body may be split into several callbacks of its kind, and
      nothing follows a message_complete that does not keep the connection alive. */
  datatype Place =
    | Idle | Begun | InUrl | InField | InValue | HeadersOver
    | InBody
    | ChunkOpen | InChunk | ChunkClosed
    | LastChunkOpen | InTrailerField | InTrailerValue | LastChunkClosed
    | Closed
    | Wrong

  function Advance(g: Place, e: Event): Place {
    match e
    case MessageBegin => if g.Idle? then Begun else Wrong
    case Data(UrlText, _) => if g.Begun? || g.InUrl? then InUrl else Wrong
    case Data(FieldText, _) =>
      if g.InUrl? || g.InField? || g.InValue? then InField
      else if g.LastChunkOpen? || g.InTrailerField? || g.InTrailerValue? then InTrailerField
      else Wrong
    case Data(ValueText, _) =>
      if g.InField? || g.InValue? then InValue
      else if g.InTrailerField? || g.InTrailerValue? then InTrailerValue
      else Wrong
    case Data(BodyText, _) =>
      if g.HeadersOver? || g.InBody? then InBody
      else if g.ChunkOpen? || g.InChunk? then InChunk
      else Wrong
    case HeadersComplete(_, _) => if g.InUrl? || g.InValue? then HeadersOver else Wrong
    case ChunkHeader(n) =>
      if !g.HeadersOver? && !g.ChunkClosed? then Wrong else if n == 0 then LastChunkOpen else ChunkOpen
    case ChunkComplete =>
      if g.InChunk? then ChunkClosed
      else if g.LastChunkOpen? || g.InTrailerValue? then LastChunkClosed
      else Wrong
    case MessageComplete(keepAlive) =>
      if !g.HeadersOver? && !g.InBody? && !g.LastChunkClosed? then Wrong
      else if keepAlive then Idle
      else Closed
  }

  function PlaceOf(trace: seq<Event>): Place {
    if trace == [] then Idle else Advance(PlaceOf(trace[..|trace| - 1]), trace[|trace| - 1])
  }

  /** Joining data callbacks does not move the automaton. */
  lemma EmitAdvances(trace: seq<Event>, e: Event)
    ensures PlaceOf(Emit(trace, e)) == Advance(PlaceOf(trace), e)
  {
    var t := Emit(trace, e);
    assert t[..|t| - 1] == if |t| == |trace| then trace[..|trace| - 1] else trace;
  }

  /** Every prefix of a well-ordered trace is well-ordered. */
  lemma {:induction false} PrefixInOrder(trace: seq<Event>, n: nat)
    requires n <= |trace| && PlaceOf(trace) != Wrong
    ensures PlaceOf(trace[..n]) != Wrong
    decreases |trace|
  {
    if n < |trace| {
      PrefixInOrder(trace[..|trace| - 1], n);
      assert trace[..|trace| - 1][..n] == trace[..n];
    } else {
      assert trace[..n] == trace;
    }
  }

  /** Nothing follows a message_complete of a connection that is not kept alive. */
  lemma {:induction false} NothingAfterClose(trace: seq<Event>, i: nat)
    requires PlaceOf(trace) != Wrong
    requires i < |trace| && trace[i] == MessageComplete(false)
    ensures i == |trace| - 1
  {
    assert trace[..i + 1][..i] == trace[..i];
    if i + 1 < |trace| {
      assert trace[..i + 2][..i + 1] == trace[..i + 1];
      PrefixInOrder(trace, i + 2);
    }
  }

  lemma CloseIsLast(trace: seq<Event>)
    requires PlaceOf(trace) != Wrong
    ensures forall i :: 0 <= i < |trace| - 1 ==> trace[i] != MessageComplete(false)
  {
    forall i | 0 <= i < |trace| - 1 && trace[i] == MessageComplete(false)
      ensures false
    {
      NothingAfterClose(trace, i);
    }
  }
}
