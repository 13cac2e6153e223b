/** Runs of the reference machine over one buffer, byte by byte and in longer strides. */
module Tracking {
  import opened Ascii
  import opened HttpTypes
  import opened ByteMachine
  import opened Invariant
  import opened Callbacks

  /** The configurations of a run over `data`, before the first byte and after each byte. */
  ghost predicate IsRun(refs: seq<Config>, data: string) {
    && |refs| == |data| + 1
    && forall key {:trigger Unfold(key)} :: Unfold(key) ==>
         forall j {:trigger Next(refs[j], data[j])} :: 0 <= j < |data| ==> refs[j + 1] == Next(refs[j], data[j])
  }

  /** The run of the machine over a buffer. */
  ghost function RunOf(c: Config, data: string): (refs: seq<Config>)
    ensures |refs| == |data| + 1 && refs[0] == c
  {
    seq(|data| + 1, j requires 0 <= j <= |data| => Feed(c, data[..j]))
  }

  lemma RunOfIsRun(c: Config, data: string)
    ensures IsRun(RunOf(c, data), data)
  {
    forall j | 0 <= j < |data|
      ensures RunOf(c, data)[j + 1] == Next(RunOf(c, data)[j], data[j])
    {
      FeedNext(c, data, j);
    }
  }

  function Counted(c: Config): Config {
    if ParsingHeader(c.p.state) then c.(count := c.count + 1) else c
  }

  /** In the middle of a byte: from `c`, with the byte already counted, the machine gets to `r`. */
  ghost predicate Leads(c: Config, ch: char, r: Config) {
    forall key {:trigger Unfold(key)} :: Unfold(key) ==> StepByte(c, ch) == r
  }

  lemma LeadsFirst(refs: seq<Config>, data: string, i: nat)
    requires IsRun(refs, data) && i < |data| && Running(refs[i])
    ensures Leads(Counted(refs[i]), data[i], refs[i + 1])
  {
    assert Unfold(0) && refs[i + 1] == Next(refs[i], data[i]);
  }

  lemma LeadsOn(c: Config, ch: char, r: Config, o: Outcome)
    requires Leads(c, ch, r) && o == Micro(c.p, ch)
    ensures if o.act == Reexecute then Leads(Apply(c, o), ch, r) else r == Apply(c, o)
  {
    assert Unfold(0);
  }

  // ----- bytes that one pass of an inner loop consumes ------------------------------------------

  /** A byte that one pass consumes. */
  lemma OnePassByte(refs: seq<Config>, data: string, i: nat)
    requires IsRun(refs, data) && i < |data| && Running(refs[i])
    requires Micro(refs[i].p, data[i]).act != Reexecute
    ensures refs[i + 1] == Apply(Counted(refs[i]), Micro(refs[i].p, data[i]))
  {
    LeadsFirst(refs, data, i);
    LeadsOn(Counted(refs[i]), data[i], refs[i + 1], Micro(refs[i].p, data[i]));
  }

  /** Byte `i` is data of kind `k`, consumed with or without being counted as a header byte. */
  ghost predicate Took(refs: seq<Config>, data: string, i: nat, k: DataKind, counted: bool)
    requires i < |data| && |refs| == |data| + 1
  {
    && refs[i + 1].trace == Emit(refs[i].trace, Data(k, [data[i]]))
    && refs[i + 1].last == Consume && refs[i + 1].p.state == refs[i].p.state
    && refs[i + 1].count == refs[i].count + if counted then 1 else 0
  }

  /** All bytes from `i` to `j` are. */
  ghost predicate Stride(refs: seq<Config>, data: string, i: nat, j: nat, k: DataKind, counted: bool)
    requires j <= |data| && |refs| == |data| + 1
  {
    forall key {:trigger Unfold(key)} :: Unfold(key) ==>
      forall x {:trigger Took(refs, data, x, k, counted)} :: i <= x < j ==> Took(refs, data, x, k, counted)
  }

  /** One more byte. */
  lemma StrideStep(refs: seq<Config>, data: string, i: nat, j: nat, k: DataKind, counted: bool)
    requires i < j <= |data| && |refs| == |data| + 1
    ensures Stride(refs, data, i, j, k, counted)
        <==> Stride(refs, data, i, j - 1, k, counted) && Took(refs, data, j - 1, k, counted)
  {
    assert Unfold(0);
  }

  lemma {:induction false} StrideEnd(refs: seq<Config>, data: string, i: nat, j: nat, k: DataKind, counted: bool)
    requires i <= j <= |data| && |refs| == |data| + 1 && Stride(refs, data, i, j, k, counted)
    ensures refs[j].trace == if i == j then refs[i].trace else Emit(refs[i].trace, Data(k, data[i..j]))
    ensures refs[j].count == refs[i].count + if counted then j - i else 0
    ensures i < j ==> refs[j].last == Consume
    ensures refs[j].p.state == refs[i].p.state
    decreases j
  {
    if i < j {
      StrideEnd(refs, data, i, j - 1, k, counted);
      StrideStep(refs, data, i, j, k, counted);
      EmitOneMore(refs[i].trace, k, data, i, j);
    }
  }

  lemma AgreesStride(raw: seq<Event>, m: Marks, refs: seq<Config>, data: string, i: nat, j: nat, k: DataKind,
                     counted: bool)
    requires i <= j <= |data| && |refs| == |data| + 1 && Stride(refs, data, i, j, k, counted)
    requires OnlyMark(m, k, i) && Agrees(raw, m, data, i, refs[i].trace)
    requires MarkOf(m, k).Some? || i < j
    ensures OnlyMark(SetMark(m, k, i), k, j) && Agrees(raw, SetMark(m, k, i), data, j, refs[j].trace)
  {
    StrideEnd(refs, data, i, j, k, counted);
    AgreesMarkRun(raw, m, k, data, i, j, refs[i].trace);
  }

  /** One token byte of a field name. */
  lemma FieldToken(refs: seq<Config>, data: string, i: nat)
    requires IsRun(refs, data) && i < |data| && Running(refs[i])
    requires refs[i].p.state.HeaderField? && IsFieldNameState(refs[i].p.headerState) && IsToken(data[i])
    ensures var p := refs[i].p;
            refs[i + 1].p == p.(index := FieldIndex(p.headerState, p.index),
                                headerState := FieldNext(p.headerState, p.index, Token(data[i])))
    ensures Took(refs, data, i, FieldText, true)
  {
    OnePassByte(refs, data, i);
  }

  /** The byte that ends a field name. */
  lemma FieldEnd(refs: seq<Config>, data: string, i: nat)
    requires IsRun(refs, data) && i < |data| && Running(refs[i])
    requires refs[i].p.state.HeaderField? && !IsToken(data[i])
    ensures refs[i + 1].p == if data[i] == ':' then refs[i].p.(state := HeaderValueDiscardWs)
                             else refs[i].p.(errno := InvalidHeaderToken)
    ensures refs[i + 1].last == if data[i] == ':' then Consume else Fail
    ensures refs[i + 1].count == refs[i].count + 1 && refs[i + 1].trace == refs[i].trace
  {
    OnePassByte(refs, data, i);
  }

  /** One byte of a header value, not a line end. */
  lemma ValueToken(refs: seq<Config>, data: string, i: nat)
    requires IsRun(refs, data) && i < |data| && Running(refs[i])
    requires refs[i].p.state.HeaderValue? && data[i] != CR && data[i] != LF
    requires refs[i].p.headerState.General? || refs[i].p.lenient || IsHeaderChar(data[i])
    requires !refs[i].p.headerState.Connection? && !refs[i].p.headerState.TransferEncoding?
    ensures var o := ValueStep(refs[i].p, data[i]);
            && refs[i + 1].p == o.p && refs[i + 1].last == o.act
            && (if o.act == Consume then Took(refs, data, i, ValueText, true)
                else o.act == Fail && refs[i + 1].trace == refs[i].trace)
  {
    OnePassByte(refs, data, i);
  }

  /** The end of a line of a header value. */
  lemma ValueEnd(refs: seq<Config>, data: string, i: nat) returns (c: Config)
    requires IsRun(refs, data) && i < |data| && Running(refs[i])
    requires refs[i].p.state.HeaderValue? && (data[i] == CR || data[i] == LF)
    ensures c.p == refs[i].p.(state := HeaderAlmostDone)
    ensures c.count == refs[i].count + 1 && c.trace == refs[i].trace
    ensures if data[i] == CR then refs[i + 1] == c && c.last == Consume else Leads(c, data[i], refs[i + 1])
  {
    LeadsFirst(refs, data, i);
    LeadsOn(Counted(refs[i]), data[i], refs[i + 1], Micro(refs[i].p, data[i]));
    c := Apply(Counted(refs[i]), Micro(refs[i].p, data[i]));
  }

  /** A header value in state General, up to the next line end. */
  lemma {:induction false} ValueRun(refs: seq<Config>, data: string, i: nat, j: nat)
    requires IsRun(refs, data) && i <= j <= |data| && Running(refs[i])
    requires refs[i].p.state.HeaderValue? && refs[i].p.headerState.General?
    requires forall k :: i <= k < j ==> data[k] != CR && data[k] != LF
    ensures Running(refs[j]) && refs[j].p == refs[i].p && Stride(refs, data, i, j, ValueText, true)
    decreases j
  {
    if j > i {
      ValueRun(refs, data, i, j - 1);
      ValueToken(refs, data, j - 1);
      GeneralStaysPut(refs[i].p, data[j - 1]);
    }
  }

  lemma GeneralStaysPut(p: Fields, ch: char)
    requires p.headerState.General?
    ensures ValueStep(p, ch).p == p && ValueStep(p, ch).act == Consume
  {
  }

  predicate ReadsBody(s: State) {
    s.BodyIdentity? || s == Chunk(ChunkData)
  }

  lemma BodyToken(refs: seq<Config>, data: string, i: nat)
    requires IsRun(refs, data) && i < |data| && Running(refs[i])
    requires ReadsBody(refs[i].p.state) && (refs[i].p.state.Chunk? ==> refs[i].p.flags.chunked)
    requires 1 < refs[i].p.contentLength < UNSET
    ensures refs[i + 1].p == refs[i].p.(contentLength := refs[i].p.contentLength - 1)
    ensures Took(refs, data, i, BodyText, false)
  {
    OnePassByte(refs, data, i);
  }

  /** Body bytes short of the last one. */
  lemma {:induction false} BodyRun(refs: seq<Config>, data: string, i: nat, j: nat)
    requires IsRun(refs, data) && i <= j <= |data| && Running(refs[i])
    requires ReadsBody(refs[i].p.state) && (refs[i].p.state.Chunk? ==> refs[i].p.flags.chunked)
    requires j - i < refs[i].p.contentLength < UNSET
    ensures Running(refs[j]) && Stride(refs, data, i, j, BodyText, false)
    ensures refs[j].p == refs[i].p.(contentLength := refs[i].p.contentLength - (j - i))
    decreases j
  {
    if j > i {
      BodyRun(refs, data, i, j - 1);
      BodyToken(refs, data, j - 1);
    }
  }

  /** The last body byte. */
  lemma BodyEnd(refs: seq<Config>, data: string, i: nat) returns (c: Config)
    requires IsRun(refs, data) && i < |data| && Running(refs[i])
    requires ReadsBody(refs[i].p.state) && (refs[i].p.state.Chunk? ==> refs[i].p.flags.chunked)
    requires refs[i].p.contentLength == 1
    ensures c.p == refs[i].p.(contentLength := 0,
                              state := if refs[i].p.state.BodyIdentity? then MessageDone else Chunk(DataAlmostDone))
    ensures c.count == refs[i].count && c.trace == Emit(refs[i].trace, Data(BodyText, [data[i]]))
    ensures if refs[i].p.state.Chunk? then refs[i + 1] == c && c.last == Consume else Leads(c, data[i], refs[i + 1])
  {
    LeadsFirst(refs, data, i);
    LeadsOn(Counted(refs[i]), data[i], refs[i + 1], Micro(refs[i].p, data[i]));
    c := Apply(Counted(refs[i]), Micro(refs[i].p, data[i]));
  }

  /** A jump over the last bytes of a body, up to and with byte `j`. */
  lemma BodyJump(refs: seq<Config>, data: string, i: nat, j: nat) returns (c: Config)
    requires IsRun(refs, data) && i <= j < |data| && Running(refs[i])
    requires ReadsBody(refs[i].p.state) && (refs[i].p.state.Chunk? ==> refs[i].p.flags.chunked)
    requires j - i + 1 == refs[i].p.contentLength < UNSET
    ensures Stride(refs, data, i, j, BodyText, false) && Running(refs[j])
    ensures c.p == refs[i].p.(contentLength := 0,
                              state := if refs[i].p.state.BodyIdentity? then MessageDone else Chunk(DataAlmostDone))
    ensures c.count == refs[i].count && c.trace == Emit(refs[j].trace, Data(BodyText, [data[j]]))
    ensures if refs[i].p.state.Chunk? then refs[j + 1] == c && c.last == Consume else Leads(c, data[j], refs[j + 1])
  {
    BodyRun(refs, data, i, j);
    c := BodyEnd(refs, data, j);
    StrideEnd(refs, data, i, j, BodyText, false);
  }

  /** The data jumped over, up to and with byte `j`, is pending. */
  lemma BodyPending(raw: seq<Event>, m: Marks, refs: seq<Config>, data: string, i: nat, j: nat)
    requires i <= j < |data| && |refs| == |data| + 1 && Stride(refs, data, i, j, BodyText, false)
    requires OnlyMark(m, BodyText, i) && Agrees(raw, m, data, i, refs[i].trace)
    ensures var m' := SetMark(m, BodyText, i);
            && OnlyMark(m', BodyText, j + 1) && m'.body.Some?
            && Agrees(raw, m', data, j + 1, Emit(refs[j].trace, Data(BodyText, [data[j]])))
  {
    if i < j {
      AgreesStride(raw, m, refs, data, i, j, BodyText, false);
      AgreesMark(raw, SetMark(m, BodyText, i), BodyText, data, j, refs[j].trace);
    } else {
      AgreesMark(raw, m, BodyText, data, j, refs[j].trace);
    }
  }

  // ----- the invariant along a run -------------------------------------------------------------

  ghost predicate RunInv(refs: seq<Config>) {
    forall key {:trigger Unfold(key)} :: Unfold(key) ==> forall k :: 0 <= k < |refs| ==> InvOrFailed(refs[k])
  }

  lemma RunInvAt(refs: seq<Config>, k: nat)
    requires RunInv(refs) && k < |refs| && Running(refs[k])
    ensures Inv(refs[k])
  {
    assert Unfold(0);
  }

  lemma ReachableRunInv(lenient: bool, fed: string, data: string)
    ensures RunInv(RunOf(Feed(Start(lenient), fed), data))
  {
    forall k: nat | k <= |data|
      ensures InvOrFailed(RunOf(Feed(Start(lenient), fed), data)[k])
    {
      FeedConcat(Start(lenient), fed, data[..k]);
      ReachableInv(lenient, fed + data[..k]);
    }
  }

  lemma ValueEndInv(p: Fields)
    requires FieldsInv(p) && p.state.HeaderValue?
    ensures FieldsInv(p.(state := HeaderAlmostDone))
  {
  }

  lemma BodyEndInv(p: Fields)
    requires FieldsInv(p) && p.state.BodyIdentity?
    ensures FieldsInv(p.(contentLength := 0, state := MessageDone))
  {
  }

  // ----- the ends of a buffer ------------------------------------------------------------------

  lemma StartAgrees(raw: seq<Event>, refs: seq<Config>, data: string)
    requires RunInv(refs) && |refs| > 0 && Running(refs[0]) && Join(raw) == refs[0].trace
    ensures var s := refs[0].p.state;
            MarkInv(InitialMarks(s), s, 0) && Agrees(raw, InitialMarks(s), data, 0, refs[0].trace)
  {
    RunInvAt(refs, 0);
    AgreesAtStart(raw, refs[0].p.state, data, refs[0].trace);
  }

  lemma RunningIsOK(refs: seq<Config>, k: nat)
    requires RunInv(refs) && k < |refs| && Running(refs[k])
    ensures refs[k].p.errno == OK
  {
    RunInvAt(refs, k);
  }

  predicate BetweenMessages(s: State) {
    s.StartReq? || s.Dead?
  }

  /** Execute returns early only between messages, and only for an upgrade. */
  predicate HandsOver(p: Fields) {
    BetweenMessages(p.state) && p.upgrade
  }

  lemma ExitPass(p: Fields, ch: char)
    ensures Micro(p, ch).act == Exit ==> HandsOver(Micro(p, ch).p)
  {
    var s := p.state;
    if InRequestLine(s) {
      RequestLineGoesOn(p, ch);
    } else if s.HeadersDone? || s.MessageDone? {
      MessageEnds(p, ch);
    } else if s.Chunk? || s.BodyIdentity? {
      BodyGoesOn(p, ch);
    } else {
      HeadersGoOn(p, ch);
    }
  }

  lemma MessageEnds(p: Fields, ch: char)
    requires p.state.HeadersDone? || p.state.MessageDone?
    ensures Micro(p, ch).act == Exit ==> HandsOver(Micro(p, ch).p)
  {
  }

  lemma RequestLineGoesOn(p: Fields, ch: char)
    requires InRequestLine(p.state)
    ensures Micro(p, ch).act != Exit
  {
  }

  lemma HeadersGoOn(p: Fields, ch: char)
    requires !InRequestLine(p.state) && !p.state.HeadersDone? && !p.state.MessageDone?
    requires !p.state.Chunk? && !p.state.BodyIdentity?
    ensures Micro(p, ch).act != Exit
  {
  }

  lemma BodyGoesOn(p: Fields, ch: char)
    requires p.state.Chunk? || p.state.BodyIdentity?
    ensures Micro(p, ch).act != Exit
  {
    if p.state.Chunk? {
      ChunkGoesOn(p, p.state.chunk, ch);
    }
  }

  lemma ChunkGoesOn(p: Fields, s: ChunkState, ch: char)
    ensures ChunkByte(p, s, ch).act != Exit
  {
  }

  lemma {:induction false} ExitByte(c: Config, ch: char)
    ensures StepByte(c, ch).last == Exit ==> HandsOver(StepByte(c, ch).p)
    decreases Rank(c.p.state)
  {
    var o := Micro(c.p, ch);
    ExitPass(c.p, ch);
    if o.act == Reexecute {
      ReexecuteDecreasesRank(c.p, ch);
      ExitByte(Apply(c, o), ch);
    }
  }

  /** A byte on which Execute returns early ends a message. */
  lemma ExitEndsMessage(refs: seq<Config>, data: string, i: nat)
    requires IsRun(refs, data) && i < |data| && Running(refs[i]) && refs[i + 1].last == Exit
    ensures HandsOver(refs[i + 1].p)
  {
    LeadsFirst(refs, data, i);
    assert Unfold(0);
    ExitByte(Counted(refs[i]), data[i]);
  }
}
