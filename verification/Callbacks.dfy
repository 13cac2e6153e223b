/** Marks into the current buffer, and the callbacks a run has made, against the joined trace of the
    reference machine. */
module Callbacks {
  import opened HttpTypes
  import opened ByteMachine
  import opened Grammar

  /** header_field_mark, header_value_mark, url_mark and body_mark; None is a null pointer. */
  datatype Marks = Marks(url: Option<nat>, field: Option<nat>, value: Option<nat>, body: Option<nat>)

  const NO_MARKS := Marks(None, None, None, None)

  function MarkOf(m: Marks, k: DataKind): Option<nat> {
    match k
    case UrlText => m.url
    case FieldText => m.field
    case ValueText => m.value
    case BodyText => m.body
  }

  function WithMark(m: Marks, k: DataKind, mark: Option<nat>): Marks {
    match k
    case UrlText => m.(url := mark)
    case FieldText => m.(field := mark)
    case ValueText => m.(value := mark)
    case BodyText => m.(body := mark)
  }

  /** MARK: sets a mark unless it is set already. */
  function SetMark(m: Marks, k: DataKind, i: nat): Marks {
    if MarkOf(m, k).Some? then m else WithMark(m, k, Some(i))
  }

  /** No mark but possibly the one of kind `k` is set, and that one not beyond `i`. */
  predicate OnlyMark(m: Marks, k: DataKind, i: nat) {
    WithMark(m, k, None) == NO_MARKS && (MarkOf(m, k).Some? ==> MarkOf(m, k).value <= i)
  }

  /** The mark that a state can leave set. */
  function KindOf(s: State): DataKind {
    if s.Url? then UrlText else if s.HeaderField? then FieldText else if s.HeaderValue? then ValueText else BodyText
  }

  /** At most one mark is set, and it is the one that goes with the parser's state. */
  predicate MarkInv(m: Marks, s: State, i: nat) {
    if s.Url? then OnlyMark(m, UrlText, i) && m.url.Some?
    else if s.HeaderField? then OnlyMark(m, FieldText, i) && m.field.Some?
    else if s.HeaderValue? then OnlyMark(m, ValueText, i) && m.value.Some?
    else if s.BodyIdentity? || (s.Chunk? && (s.chunk.ChunkData? || s.chunk.DataAlmostDone?)) then
      OnlyMark(m, BodyText, i)
    else m == NO_MARKS
  }

  /** The marks that http_parser_execute sets before it looks at the buffer. */
  function InitialMarks(s: State): Marks {
    if s.HeaderField? then NO_MARKS.(field := Some(0))
    else if s.HeaderValue? then NO_MARKS.(value := Some(0))
    else if s.Url? then NO_MARKS.(url := Some(0))
    else NO_MARKS
  }

  /** The data from `i` to `j`, byte by byte. */
  function Piece(data: string, i: nat, j: nat): string
    decreases j
  {
    if i >= j || j > |data| then [] else Piece(data, i, j - 1) + [data[j - 1]]
  }

  lemma {:induction false} PieceIsSlice(data: string, i: nat, j: nat)
    requires i <= j <= |data|
    ensures Piece(data, i, j) == data[i..j]
    decreases j
  {
    if i < j {
      PieceIsSlice(data, i, j - 1);
      assert data[i..j] == data[i..j - 1] + [data[j - 1]];
    }
  }

  /** The data between a set mark and position `i`, not yet handed to a callback. */
  function Pending(m: Marks, data: string, i: nat): Option<Event> {
    if m.url.Some? then Some(Data(UrlText, Piece(data, m.url.value, i)))
    else if m.field.Some? then Some(Data(FieldText, Piece(data, m.field.value, i)))
    else if m.value.Some? then Some(Data(ValueText, Piece(data, m.value.value, i)))
    else if m.body.Some? then Some(Data(BodyText, Piece(data, m.body.value, i)))
    else None
  }

  /** A list of callbacks with adjacent data callbacks of one kind joined. */
  function Join(raw: seq<Event>): seq<Event> {
    if raw == [] then [] else Emit(Join(raw[..|raw| - 1]), raw[|raw| - 1])
  }

  lemma JoinAppend(raw: seq<Event>, e: Event)
    ensures Join(raw + [e]) == Emit(Join(raw), e)
  {
    assert (raw + [e])[..|raw|] == raw;
  }

  /** The callbacks made so far, with what is pending, are the trace of the reference machine. */
  ghost predicate Agrees(raw: seq<Event>, m: Marks, data: string, i: nat, trace: seq<Event>) {
    forall key {:trigger Unfold(key)} :: Unfold(key) ==> EmitOption(Join(raw), Pending(m, data, i)) == trace
  }

  /** The callbacks made so far lack at most one piece of data. */
  ghost predicate Lags(raw: seq<Event>, trace: seq<Event>) {
    forall key {:trigger Unfold(key)} :: Unfold(key) ==>
      Join(raw) == trace || exists k, text :: Emit(Join(raw), Data(k, text)) == trace
  }

  lemma EmitTwice(trace: seq<Event>, k: DataKind, a: string, b: string)
    ensures Emit(Emit(trace, Data(k, a)), Data(k, b)) == Emit(trace, Data(k, a + b))
  {
    var t := Emit(trace, Data(k, a));
    if |t| == |trace| {
      assert trace[|trace| - 1].text + a + b == trace[|trace| - 1].text + (a + b);
      assert t[..|t| - 1] == trace[..|trace| - 1];
    } else {
      assert t[..|t| - 1] == trace;
    }
  }

  lemma EmitOneMore(trace: seq<Event>, k: DataKind, data: string, i: nat, j: nat)
    requires i < j <= |data|
    ensures Emit(trace, Data(k, data[i..j]))
         == Emit(if j == i + 1 then trace else Emit(trace, Data(k, data[i..j - 1])), Data(k, [data[j - 1]]))
  {
    assert data[i..j] == data[i..j - 1] + [data[j - 1]];
    EmitTwice(trace, k, data[i..j - 1], [data[j - 1]]);
    if j == i + 1 {
      assert data[i..j] == [data[j - 1]];
    }
  }

  lemma EmitNothing(trace: seq<Event>, k: DataKind)
    requires |trace| > 0 && trace[|trace| - 1].Data? && trace[|trace| - 1].kind == k
    ensures Emit(trace, Data(k, [])) == trace
  {
    var e := trace[|trace| - 1];
    assert e.text + [] == e.text;
    assert trace == trace[..|trace| - 1] + [e];
  }

  // ----- what each macro does to the agreement -------------------------------------------------

  /** Nothing marked, nothing called. */
  lemma AgreesQuiet(raw: seq<Event>, data: string, i: nat, j: nat, trace: seq<Event>)
    requires Agrees(raw, NO_MARKS, data, i, trace)
    ensures Agrees(raw, NO_MARKS, data, j, trace)
  {
  }

  /** CALLBACK_NOTIFY. */
  lemma AgreesNotify(raw: seq<Event>, data: string, i: nat, j: nat, trace: seq<Event>, e: Event)
    requires Agrees(raw, NO_MARKS, data, i, trace)
    ensures Agrees(raw + [e], NO_MARKS, data, j, Emit(trace, e))
  {
    JoinAppend(raw, e);
  }

  /** MARK, or a further byte under a mark that is set. */
  lemma AgreesMark(raw: seq<Event>, m: Marks, k: DataKind, data: string, i: nat, trace: seq<Event>)
    requires i < |data| && OnlyMark(m, k, i) && Agrees(raw, m, data, i, trace)
    ensures OnlyMark(SetMark(m, k, i), k, i + 1)
    ensures Agrees(raw, SetMark(m, k, i), data, i + 1, Emit(trace, Data(k, [data[i]])))
  {
    AgreesMarkRun(raw, m, k, data, i, i + 1, trace);
    assert data[i..i + 1] == [data[i]];
  }

  /** MARK, then a run of bytes at once. */
  lemma AgreesMarkRun(raw: seq<Event>, m: Marks, k: DataKind, data: string, i: nat, j: nat, trace: seq<Event>)
    requires i <= j <= |data| && OnlyMark(m, k, i) && Agrees(raw, m, data, i, trace)
    ensures OnlyMark(SetMark(m, k, i), k, j)
    ensures Agrees(raw, SetMark(m, k, i), data, j, Emit(trace, Data(k, data[i..j])))
  {
    if MarkOf(m, k).Some? {
      var at := MarkOf(m, k).value;
      assert data[at..i] + data[i..j] == data[at..j];
      PieceIsSlice(data, at, i);
      PieceIsSlice(data, at, j);
      EmitTwice(Join(raw), k, data[at..i], data[i..j]);
    } else {
      PieceIsSlice(data, i, j);
    }
  }

  /** CALLBACK_DATA. */
  lemma AgreesFlush(raw: seq<Event>, m: Marks, k: DataKind, data: string, i: nat, j: nat, trace: seq<Event>)
    requires i <= |data| && OnlyMark(m, k, i) && MarkOf(m, k).Some? && Agrees(raw, m, data, i, trace)
    ensures Agrees(raw + [Data(k, data[MarkOf(m, k).value..i])], NO_MARKS, data, j, trace)
  {
    PieceIsSlice(data, MarkOf(m, k).value, i);
    JoinAppend(raw, Data(k, data[MarkOf(m, k).value..i]));
  }

  lemma AgreesLags(raw: seq<Event>, m: Marks, data: string, i: nat, trace: seq<Event>)
    requires Agrees(raw, m, data, i, trace)
    ensures Lags(raw, trace)
  {
    assert Unfold(0);
    var pending := Pending(m, data, i);
    if pending.Some? {
      assert Emit(Join(raw), Data(pending.value.kind, pending.value.text)) == trace;
    }
  }

  /** At the start of a buffer nothing is pending under the initial marks. */
  lemma AgreesAtStart(raw: seq<Event>, s: State, data: string, trace: seq<Event>)
    requires Join(raw) == trace
    requires s.Url? ==> PlaceOf(trace) == InUrl
    requires s.HeaderField? ==> PlaceOf(trace) == InField || PlaceOf(trace) == InTrailerField
    requires s.HeaderValue? ==> PlaceOf(trace) == InValue || PlaceOf(trace) == InTrailerValue
    ensures MarkInv(InitialMarks(s), s, 0)
    ensures Agrees(raw, InitialMarks(s), data, 0, trace)
  {
    if s.Url? {
      EmitNothing(trace, UrlText);
    } else if s.HeaderField? {
      EmitNothing(trace, FieldText);
    } else if s.HeaderValue? {
      EmitNothing(trace, ValueText);
    }
  }

  /** Joining does not change the order of callbacks. */
  lemma {:induction false} JoinKeepsPlace(raw: seq<Event>)
    ensures PlaceOf(Join(raw)) == PlaceOf(raw)
  {
    if raw != [] {
      JoinKeepsPlace(raw[..|raw| - 1]);
      EmitAdvances(Join(raw[..|raw| - 1]), raw[|raw| - 1]);
    }
  }
}
