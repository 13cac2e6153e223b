/** http_parser_execute: the parser object, fed buffer by buffer. */
module HttpParser {
  import opened Ascii
  import opened HttpTypes
  import opened UrlMachine
  import opened ByteMachine
  import opened Invariant
  import opened Callbacks
  import opened Tracking
  import opened Limits
  import opened Stops

  /** The callbacks of an outcome, as they are made. */
  ghost function Calls(o: Outcome): seq<Event> {
    match o.event
    case None => []
    case Some(e) => [e]
  }

  lemma AgreesCalls(raw: seq<Event>, data: string, i: nat, j: nat, trace: seq<Event>, o: Outcome)
    requires Agrees(raw, NO_MARKS, data, i, trace)
    ensures Agrees(raw + Calls(o), NO_MARKS, data, j, EmitOption(trace, o.event))
  {
    if o.event.Some? {
      AgreesNotify(raw, data, i, j, trace, o.event.value);
    } else {
      assert raw + [] == raw;
      AgreesQuiet(raw, data, i, j, trace);
    }
  }

  /** The states whose case neither sets nor uses a mark. */
  predicate IsUnmarked(s: State) {
    s.Dead? || s.StartReq? || s.ReqMethod? || s.Version? || s.HeaderAlmostDone? || s.HeaderValueLws? ||
    s.HeaderValueDiscardWsAlmostDone? || s.HeaderValueDiscardLws? || s.HeadersAlmostDone? || s.HeadersDone? ||
    s.MessageDone? || (s.Chunk? && !s.chunk.ChunkData? && !s.chunk.DataAlmostDone?)
  }

  /** The states whose case scans several bytes. */
  predicate IsScan(s: State) {
    s.HeaderField? || s.HeaderValue? || ReadsBody(s)
  }

  lemma NothingPending(raw: seq<Event>, data: string, i: nat, trace: seq<Event>)
    requires Agrees(raw, NO_MARKS, data, i, trace)
    ensures Join(raw) == trace
  {
    assert Unfold(0);
  }

  predicate NeedsNoMark(s: State) {
    !s.Url? && !s.HeaderField? && !s.HeaderValue?
  }

  /** The pass on the byte that ends a URL, which makes the pending data callback. */
  predicate EndsUrlAt(s: State, ch: char) {
    EndsUrl(s) && (ch == ' ' || ch == CR || ch == LF)
  }

  lemma UrlOutcome(p: Fields, ch: char)
    requires p.state.ReqSpacesBeforeUrl? || p.state.Url?
    ensures var o := UrlByte(p, ch);
            && (o.act == Consume || o.act == Fail)
            && (o.event.Some? ==> o.act == Consume && o.event.value == Data(UrlText, [ch]) && o.p.state.Url?)
            && (o.event.None? && o.act == Consume ==>
                  if EndsUrlAt(p.state, ch) then o.p.state.Version? || o.p.state.HeaderFieldStart?
                  else p.state.ReqSpacesBeforeUrl? && o.p.state.ReqSpacesBeforeUrl?)
            && (EndsUrlAt(p.state, ch) ==> o.event.None? && o.act == Consume)
  {
  }

  lemma ValueStartOutcome(p: Fields, ch: char)
    requires p.state.HeaderValueDiscardWs? || p.state.HeaderValueStart?
    ensures var o := if p.state.HeaderValueStart? then ValueStartByte(p, ch) else DiscardWsByte(p, ch);
            && (o.act == Consume || o.act == Fail)
            && (o.event.Some? ==> o.event.value == Data(ValueText, [ch]) && o.p.state.HeaderValue?)
            && (o.event.None? && o.act == Consume ==> NeedsNoMark(o.p.state) && !ReadsBody(o.p.state))
  {
  }

  class Parser {
    var state: State
    var headerState: HeaderState
    var index: nat
    var nread: nat
    var contentLength: nat
    var verb: Method
    var httpMajor: nat
    var httpMinor: nat
    var flags: Flags
    var upgrade: bool
    var errno: Errno
    const lenient: bool

    /** Every callback made so far, as it was made. */
    ghost var trace: seq<Event>

    /** Every byte consumed so far, over all calls of Execute. */
    ghost var fed: string

    /** What nread is beyond the number of header bytes since it was reset: the buffers that ended inside a
        header field or value. */
    ghost var surplus: nat

    /** What that was when the current call of Execute began. */
    ghost var base: nat

    function Snapshot(): Fields
      reads this
    {
      Fields(state, headerState, index, contentLength, verb, httpMajor, httpMinor, flags, upgrade, errno, lenient)
    }

    /** http_parser_init. */
    constructor (lenient: bool)
      ensures Snapshot() == InitialFields(lenient) && nread == 0
      ensures trace == [] && fed == [] && surplus == 0 && Valid()
    {
      state, headerState, index, nread, contentLength := StartReq, General, 0, 0, 0;
      verb, httpMajor, httpMinor, flags, upgrade := DELETE, 0, 0, NO_FLAGS, false;
      errno := OK;
      this.lenient := lenient;
      trace, fed, surplus, base := [], [], 0, 0;
    }

    // ----- callbacks ---------------------------------------------------------------------------

    /** CALLBACK_NOTIFY. */
    ghost method Notify(e: Event)
      requires errno == OK
      modifies this`trace
      ensures trace == old(trace) + [e]
    {
      trace := trace + [e];
    }

    /** CALLBACK_DATA. */
    method CallbackData(k: DataKind, m: Marks, data: string, i: nat) returns (m': Marks)
      requires errno == OK
      requires i <= |data| && (MarkOf(m, k).Some? ==> MarkOf(m, k).value <= i)
      modifies this`trace
      ensures m' == WithMark(m, k, None)
      ensures trace == if MarkOf(m, k).None? then old(trace)
                       else old(trace) + [Data(k, data[MarkOf(m, k).value..i])]
    {
      if MarkOf(m, k).Some? {
        Notify(Data(k, data[MarkOf(m, k).value..i]));
      }
      m' := WithMark(m, k, None);
    }

    // ----- the cases of the switch, one byte each ----------------------------------------------

    /** This object went where `o` leads. */
    twostate predicate Went(o: Outcome, act: Act)
      reads this
    {
      && Snapshot() == o.p
      && act == o.act
      && nread == (if o.resetCount then 0 else old(nread))
      && surplus == (if o.resetCount then 0 else old(surplus))
      && fed == old(fed)
      && base == old(base)
    }

    method StartCase(ch: char) returns (act: Act)
      requires errno == OK
      requires state.Dead? || state.StartReq?
      modifies this
      ensures var o := Micro(old(Snapshot()), ch); Went(o, act) && trace == old(trace) + Calls(o)
      ensures NeedsNoMark(state)
    {
      if ch == CR || ch == LF {
        return Consume;
      }
      if state.Dead? {
        errno := ClosedConnection;
        return Fail;
      }
      flags, contentLength := NO_FLAGS, UNSET;
      if !IsAlpha(ch) {
        errno := InvalidMethod;
        return Fail;
      }
      verb, index := DELETE, 1;
      var guess := FirstMethod(ch);
      if guess.None? {
        errno := InvalidMethod;
        return Fail;
      }
      verb := guess.value;
      state := ReqMethod;
      Notify(MessageBegin);
      return Consume;
    }

    method MethodCase(ch: char) returns (act: Act)
      requires state.ReqMethod? && index <= |MethodString(verb)|
      modifies this
      ensures var o := MethodByte(old(Snapshot()), ch); Went(o, act) && trace == old(trace) + Calls(o)
      ensures NeedsNoMark(state)
    {
      if ch == NUL {
        errno := InvalidMethod;
        return Fail;
      }
      var matcher := MethodString(verb);
      if ch == ' ' && index == |matcher| {
        state := ReqSpacesBeforeUrl;
      } else if index < |matcher| && ch == matcher[index] {
      } else {
        var other := SwitchMethod(verb, index, ch);
        if other.None? {
          errno := InvalidMethod;
          return Fail;
        }
        verb := other.value;
      }
      index := index + 1;
      return Consume;
    }

    method UrlCase(data: string, i: nat, m: Marks) returns (m': Marks, act: Act)
      requires errno == OK
      requires i < |data| && (state.ReqSpacesBeforeUrl? || state.Url?) && MarkInv(m, state, i)
      modifies this
      ensures var o := UrlByte(old(Snapshot()), data[i]);
              && Went(o, act)
              && (if EndsUrlAt(old(state), data[i]) then trace == old(trace) + [Data(UrlText, data[m.url.value..i])]
                  else trace == old(trace))
              && (act == Consume ==> m' == if o.event.Some? then SetMark(m, UrlText, i) else NO_MARKS)
    {
      var ch := data[i];
      m' := m;
      if state.ReqSpacesBeforeUrl? && ch == ' ' {
        return m, Consume;
      }
      if EndsUrlAt(state, ch) {
        if ch == ' ' {
          state := Version(HttpStart);
        } else {
          httpMajor, httpMinor := 0, 9;
          state := if ch == CR then Version(LineAlmostDone) else HeaderFieldStart;
        }
        m' := CallbackData(UrlText, m, data, i);
        return m', Consume;
      }
      if state.Url? && (ch == ' ' || ch == CR || ch == LF) {
        errno := InvalidUrl;
        return m, Fail;
      }
      m' := SetMark(m, UrlText, i);
      if state.ReqSpacesBeforeUrl? && verb == CONNECT {
        state := Url(ServerStart);
      }
      state := ParseUrlChar(state, ch);
      if state.Dead? {
        errno := InvalidUrl;
        return m', Fail;
      }
      return m', Consume;
    }

    method VersionCase(ch: char) returns (act: Act)
      requires state.Version?
      modifies this
      ensures var o := VersionByte(old(Snapshot()), old(state.version), ch);
              Went(o, act) && trace == old(trace) + Calls(o)
      ensures NeedsNoMark(state)
    {
      var s := state.version;
      var next := VersionNext(s, ch);
      if next.Dead? {
        errno := VersionErrno(s);
        return Fail;
      }
      if IsNumberState(s) && IsNum(ch) {
        act := VersionDigitCase(DigitValue(ch), next);
      } else {
        state := next;
        act := Consume;
      }
    }

    method VersionDigitCase(digit: nat, next: State) returns (act: Act)
      requires state.Version? && NeedsNoMark(next)
      modifies this
      ensures var o := VersionDigit(old(Snapshot()), old(state.version), digit, next);
              Went(o, act) && trace == old(trace)
      ensures NeedsNoMark(state)
    {
      match state.version {
        case FirstHttpMajor => httpMajor := digit;
        case FirstHttpMinor => httpMinor := digit;
        case HttpMajor =>
          httpMajor := httpMajor * 10 + digit;
          if httpMajor > 999 {
            errno := InvalidVersion;
            return Fail;
          }
        case HttpMinor =>
          httpMinor := httpMinor * 10 + digit;
          if httpMinor > 999 {
            errno := InvalidVersion;
            return Fail;
          }
        case _ =>
      }
      state := next;
      return Consume;
    }

    method FieldStartCase(ch: char, i: nat) returns (m': Marks, act: Act)
      requires state.HeaderFieldStart?
      modifies this
      ensures var o := FieldStartByte(old(Snapshot()), ch);
              && Went(o, act) && trace == old(trace)
              && (act != Fail ==> m' == if o.event.Some? then SetMark(NO_MARKS, FieldText, i) else NO_MARKS)
    {
      if ch == CR {
        state := HeadersAlmostDone;
        return NO_MARKS, Consume;
      }
      if ch == LF {
        state := HeadersAlmostDone;
        return NO_MARKS, Reexecute;
      }
      var c := Token(ch);
      if c == NUL {
        errno := InvalidHeaderToken;
        return NO_MARKS, Fail;
      }
      m' := SetMark(NO_MARKS, FieldText, i);
      index := 0;
      state := HeaderField;
      headerState := FirstHeaderState(c);
      return m', Consume;
    }

    method DiscardWsCase(ch: char, i: nat) returns (m': Marks, act: Act)
      requires state.HeaderValueDiscardWs?
      modifies this
      ensures var o := DiscardWsByte(old(Snapshot()), ch);
              && Went(o, act) && trace == old(trace)
              && (act != Fail ==> m' == if o.event.Some? then SetMark(NO_MARKS, ValueText, i) else NO_MARKS)
    {
      if ch == ' ' || ch == '\t' {
        return NO_MARKS, Consume;
      }
      if ch == CR {
        state := HeaderValueDiscardWsAlmostDone;
        return NO_MARKS, Consume;
      }
      if ch == LF {
        state := HeaderValueDiscardLws;
        return NO_MARKS, Consume;
      }
      m', act := ValueStartCase(ch, i);
    }

    method ValueStartCase(ch: char, i: nat) returns (m': Marks, act: Act)
      modifies this
      ensures var o := ValueStartByte(old(Snapshot()), ch);
              && Went(o, act) && trace == old(trace)
              && act != Reexecute
              && (act != Fail ==> o.event.Some? && m' == SetMark(NO_MARKS, ValueText, i))
    {
      m' := SetMark(NO_MARKS, ValueText, i);
      state := HeaderValue;
      index := 0;
      if headerState.Upgrade? {
        flags := flags.(upgrade := true);
      } else if headerState.ContentLength? {
        if !IsNum(ch) {
          errno := InvalidContentLength;
          return m', Fail;
        }
        if flags.contentLength {
          errno := UnexpectedContentLength;
          return m', Fail;
        }
        flags := flags.(contentLength := true);
        contentLength := DigitValue(ch);
      }
      headerState := ValueStartNext(headerState, ch);
      return m', Consume;
    }

    method LineEndCase(ch: char) returns (act: Act)
      requires errno == OK
      requires state.HeaderAlmostDone? || state.HeaderValueLws? || state.HeaderValueDiscardWsAlmostDone? ||
               state.HeaderValueDiscardLws?
      modifies this
      ensures var o := Micro(old(Snapshot()), ch); Went(o, act) && trace == old(trace) + Calls(o)
      ensures NeedsNoMark(state)
    {
      match state {
        case HeaderAlmostDone =>
          if ch != LF {
            errno := LfExpected;
            return Fail;
          }
          state := HeaderValueLws;
          return Consume;
        case HeaderValueDiscardWsAlmostDone =>
          if ch != LF {
            errno := StrictError;
            return Fail;
          }
          state := HeaderValueDiscardLws;
          return Consume;
        case HeaderValueLws =>
          if ch == ' ' || ch == '\t' {
            state := HeaderValueStart;
            return Reexecute;
          }
          flags := FinishedFlags(headerState, flags);
          state := HeaderFieldStart;
          return Reexecute;
        case HeaderValueDiscardLws =>
          if ch == ' ' || ch == '\t' {
            state := HeaderValueDiscardWs;
            return Consume;
          }
          flags := FinishedFlags(headerState, flags);
          state := HeaderFieldStart;
          Notify(Data(ValueText, []));  // the header value was empty: a data callback of length zero
          return Reexecute;
      }
    }

    method HeadersAlmostDoneCase(ch: char) returns (act: Act)
      requires state.HeadersAlmostDone? && errno == OK
      modifies this
      ensures var o := HeadersAlmostDoneByte(old(Snapshot()), ch); Went(o, act) && trace == old(trace) + Calls(o)
      ensures NeedsNoMark(state)
    {
      if ch != LF {
        errno := StrictError;
        return Fail;
      }
      if flags.trailing {
        state := MessageDone;
        Notify(ChunkComplete);
        return Reexecute;
      }
      if flags.chunked && flags.contentLength {
        errno := UnexpectedContentLength;
        return Fail;
      }
      state := HeadersDone;
      upgrade := (flags.upgrade && flags.connectionUpgrade) || verb == CONNECT;
      Notify(HeadersComplete(verb, upgrade));
      return Reexecute;
    }

    /** http_should_keep_alive. */
    predicate KeepsAlive()
      reads this
    {
      if httpMajor > 0 && httpMinor > 0 then !flags.close else flags.keepAlive
    }

    /** UPDATE_STATE(NEW_MESSAGE()); CALLBACK_NOTIFY(message_complete). */
    method NewMessage()
      requires errno == OK
      modifies this`state, this`trace
      ensures state == (if old(KeepsAlive()) then StartReq else Dead)
      ensures trace == old(trace) + [MessageComplete(old(KeepsAlive()))]
    {
      state := if KeepsAlive() then StartReq else Dead;
      Notify(MessageComplete(KeepsAlive()));
    }

    method HeadersDoneCase(ch: char) returns (act: Act)
      requires state.HeadersDone? && errno == OK
      modifies this
      ensures var o := HeadersDoneByte(old(Snapshot()), ch); Went(o, act) && trace == old(trace) + Calls(o)
      ensures NeedsNoMark(state)
    {
      if ch != LF {
        errno := StrictError;
        return Fail;
      }
      nread, surplus := 0, 0;
      var hasBody := flags.chunked || (contentLength > 0 && contentLength != UNSET);
      if upgrade && (verb == CONNECT || !hasBody) {
        // what follows belongs to whoever takes over the connection
        NewMessage();
        return Exit;
      }
      if flags.chunked {
        state := Chunk(SizeStart);
      } else if contentLength == 0 {
        NewMessage();
      } else if contentLength != UNSET {
        state := BodyIdentity;
      } else {
        NewMessage();  // a request never needs EOF
      }
      return Consume;
    }

    method MessageDoneCase() returns (act: Act)
      requires state.MessageDone? && errno == OK
      modifies this
      ensures var o := CompleteMessage(old(Snapshot()), false, if old(upgrade) then Exit else Consume);
              Went(o, act) && trace == old(trace) + Calls(o)
      ensures NeedsNoMark(state)
    {
      NewMessage();
      return if upgrade then Exit else Consume;
    }

    method ChunkSizeCase(ch: char) returns (act: Act)
      requires state == Chunk(SizeStart) || state == Chunk(Size)
      requires flags.chunked && (AtSizeStart(state) ==> nread == 1)
      modifies this
      ensures var o := ChunkSizeByte(old(Snapshot()), old(state.chunk.SizeStart?), ch);
              Went(o, act) && trace == old(trace) + Calls(o)
      ensures NeedsNoMark(state)
    {
      assert state.chunk.SizeStart? ==> nread == 1;
      assert flags.chunked;
      if state.chunk.Size? {
        if ch == CR {
          state := Chunk(SizeAlmostDone);
          return Consume;
        }
        if ch == ';' || ch == ' ' {
          state := Chunk(Parameters);
          return Consume;
        }
      }
      var digit := Unhex(ch);
      if digit == -1 {
        errno := InvalidChunkSize;
        return Fail;
      }
      if state.chunk.SizeStart? {
        contentLength := digit;
        state := Chunk(Size);
        return Consume;
      }
      var t := Wrap64(Wrap64(contentLength * 16) + digit);
      if (UNSET - 16) / 16 < contentLength {
        errno := InvalidContentLength;
        return Fail;
      }
      contentLength := t;
      return Consume;
    }

    method ChunkEndCase(ch: char) returns (act: Act)
      requires errno == OK
      requires state == Chunk(Parameters) || state == Chunk(SizeAlmostDone) || state == Chunk(DataDone)
      requires flags.chunked
      modifies this
      ensures var o := ChunkByte(old(Snapshot()), old(state.chunk), ch); Went(o, act) && trace == old(trace) + Calls(o)
      ensures NeedsNoMark(state)
    {
      assert flags.chunked;
      if state.chunk.Parameters? {
        if ch == CR {
          state := Chunk(SizeAlmostDone);
        }
        return Consume;
      }
      if ch != LF {
        errno := StrictError;
        return Fail;
      }
      nread, surplus := 0, 0;
      if state.chunk.DataDone? {
        state := Chunk(SizeStart);
        Notify(ChunkComplete);
        return Consume;
      }
      if contentLength == 0 {
        flags := flags.(trailing := true);
        state := HeaderFieldStart;
      } else {
        state := Chunk(ChunkData);
      }
      Notify(ChunkHeader(contentLength));
      return Consume;
    }

    method ChunkDataAlmostDoneCase(data: string, i: nat, m: Marks) returns (m': Marks, act: Act)
      requires i < |data| && state == Chunk(DataAlmostDone) && MarkInv(m, state, i) && errno == OK
      requires flags.chunked && contentLength == 0
      modifies this
      ensures var o := ChunkByte(old(Snapshot()), DataAlmostDone, data[i]);
              && Went(o, act)
              && (if act == Consume && m.body.Some? then trace == old(trace) + [Data(BodyText, data[m.body.value..i])]
                  else trace == old(trace))
              && (act == Consume ==> m' == NO_MARKS)
    {
      assert flags.chunked;
      assert contentLength == 0;
      if data[i] != CR {
        errno := StrictError;
        return m, Fail;
      }
      state := Chunk(DataDone);
      m' := CallbackData(BodyText, m, data, i);
      return m', Consume;
    }

    // ----- agreement with the reference machine ------------------------------------------------

    /** This object, at position `i` of a buffer, is where the reference machine is at `r`. */
    ghost predicate Follows(r: Config, m: Marks, data: string, i: nat)
      reads this
    {
      Running(r) && Snapshot() == r.p && MarkInv(m, state, i) && Agrees(trace, m, data, i, r.trace)
    }

    /** And so is its count of header bytes. */
    ghost predicate Tracks(r: Config, m: Marks, data: string, i: nat)
      reads this
    {
      Follows(r, m, data, i) && Budget(r.count)
    }

    /** nread is the number of header bytes and the surplus, of which there is never more than there are
        header bytes.  Where a chunk size starts there is none. */
    ghost predicate Budget(count: nat)
      reads this`nread, this`surplus, this`state
    {
      nread == count + surplus <= HTTP_MAX_HEADER_SIZE && surplus <= count && (AtSizeStart(state) ==> surplus == 0)
    }

    /** The same on a header byte that has been counted, after `before` others. */
    ghost predicate HeaderBudget(before: nat)
      reads this`nread, this`surplus, this`state
    {
      Budget(before + 1) && surplus <= before
    }

    /** The same on any byte, which has been counted if it is a header byte. */
    ghost predicate FirstBudget(r: Config)
      reads this`nread, this`surplus, this`state
    {
      if ParsingHeader(r.p.state) then HeaderBudget(r.count) else Budget(r.count)
    }

    /** The surplus is what the run over the current buffer makes it. */
    ghost predicate Exact(refs: seq<Config>, n: nat)
      requires n < |refs|
      reads this`surplus, this`base
    {
      forall key {:trigger Unfold(key)} :: Unfold(key) ==> surplus == SurplusAt(refs, n, base)
    }

    /** So it is in the middle of byte `i`, unless the count has just started again. */
    ghost predicate Carried(refs: seq<Config>, i: nat, count: nat)
      requires i < |refs|
      reads this`surplus, this`base
    {
      forall key {:trigger Unfold(key)} :: Unfold(key) ==>
        surplus == Since(refs, i, base) || (count == 0 && surplus == 0)
    }

    /** The bytes from `i` up to and with `j` pass. */
    ghost predicate Clears(refs: seq<Config>, data: string, i: nat, j: nat)
      requires |refs| == |data| + 1
      reads this`base
    {
      Cleared(refs, data, i, j, base, lenient)
    }

    /** A byte of a header value that is looked at was refused by IS_HEADER_CHAR.  The reference machine lets it
        pass, and header_state is the one at the start of the inner loop. */
    ghost predicate RefusedHere(refs: seq<Config>, data: string, i: nat)
      requires i < |data| && |refs| == |data| + 1
      reads this
    {
      var r := refs[i];
      && errno == InvalidHeaderToken && state.HeaderValue? && !lenient && !IsHeaderChar(data[i])
      && Running(r) && Snapshot() == r.p.(errno := InvalidHeaderToken, headerState := headerState)
      && r.p.errno == OK && Looks(refs, i)
    }

    /** The reference machine refused the same byte with the same error. */
    ghost predicate RefusedByReference(r: Config)
      reads this
    {
      errno != OK && errno != HeaderOverflow && r.last == Fail && Snapshot() == r.p
    }

    /** What this object shows of an error at position `n`, for each reason, in a turn of the outer loop that started
        at `s`; the callbacks lack at most one piece of data. */
    ghost predicate Reports(refs: seq<Config>, data: string, s: nat, n: nat, why: Reason)
      requires |refs| == |data| + 1 && s <= |data|
      reads this
    {
      match why
      case NoRoom => errno == HeaderOverflow && Lags(trace, refs[RoomEnds(refs, data, s, base)].trace)
      case BadChar => n < |data| && RefusedHere(refs, data, n) && Lags(trace, refs[n].trace)
      case Refused => n < |data| && RefusedByReference(refs[n + 1]) && Lags(trace, refs[n + 1].trace)
    }

    /** The turn that started at `s` failed at position `n`. */
    ghost predicate TurnFailed(refs: seq<Config>, data: string, s: nat, n: nat, why: Reason)
      requires |refs| == |data| + 1
      reads this
    {
      TurnStops(refs, data, s, n, why, base, lenient) && Reports(refs, data, s, n, why)
    }

    /** The same, kept out of the proofs that only pass it on. */
    ghost predicate FailedAt(refs: seq<Config>, data: string, s: nat, n: nat)
      requires |refs| == |data| + 1
      reads this
    {
      forall key {:trigger Uncover(key)} :: Uncover(key) ==> exists why :: TurnFailed(refs, data, s, n, why)
    }

    /** The call failed at position `n`, in the turn that started at `s`: every byte before the turn passed. */
    ghost predicate FailedFrom(refs: seq<Config>, data: string, s: nat, n: nat, why: Reason)
      requires |refs| == |data| + 1
      reads this
    {
      StopsFrom(refs, data, s, n, why, base, lenient) && Reports(refs, data, s, n, why)
    }

    /** The call failed at position `n`. */
    ghost predicate Failure(refs: seq<Config>, data: string, n: nat)
      requires |refs| == |data| + 1
      reads this
    {
      exists s, why :: 0 <= s <= n && FailedFrom(refs, data, s, n, why)
    }

    ghost predicate Failed(refs: seq<Config>, data: string, n: nat)
      requires |refs| == |data| + 1
      reads this
    {
      forall key {:trigger Uncover(key)} :: Uncover(key) ==> Failure(refs, data, n)
    }

    /** The reference machine refused byte `i`, as this object did. */
    ghost predicate Refuses(refs: seq<Config>, data: string, i: nat)
      requires i < |data| && |refs| == |data| + 1
      reads this
    {
      forall key {:trigger Uncover(key)} :: Uncover(key) ==>
        RefusedByReference(refs[i + 1]) && Lags(trace, refs[i + 1].trace)
    }

    /** There is room for the first byte of a turn, which has been counted. */
    lemma FirstHasRoom(refs: seq<Config>, i: nat)
      requires i < |refs| - 1 && HeaderBudget(refs[i].count) && Exact(refs, i)
      ensures HasRoom(refs, i, base)
    {
      assert Unfold(0);
    }

    /** In the middle of byte `i`, from where the reference machine is at `c`. */
    ghost predicate Midway(c: Config, m: Marks, refs: seq<Config>, data: string, i: nat)
      requires i < |data| && |refs| == |data| + 1
      reads this
    {
      && Snapshot() == c.p && MarkInv(m, state, i) && Agrees(trace, m, data, i, c.trace)
      && Leads(c, data[i], refs[i + 1])
      && Budget(c.count) && Carried(refs, i, c.count)
    }

    lemma ExactIsCarried(refs: seq<Config>, i: nat, count: nat)
      requires i < |refs| - 1 && Exact(refs, i)
      ensures Carried(refs, i, count)
    {
    }

    /** A byte that is not scanned inside a field or value leaves the surplus exact. */
    lemma OutsideIsExact(refs: seq<Config>, i: nat)
      requires i + 1 < |refs| && Carried(refs, i, refs[i + 1].count) && surplus <= refs[i + 1].count
      requires !Inside(refs[i].p.state, refs[i + 1].p.state)
      ensures Exact(refs, i + 1)
    {
      assert Unfold(0);
    }

    lemma CarriedIsExact(refs: seq<Config>, data: string, i: nat)
      requires IsRun(refs, data) && i < |data| && Running(refs[i])
      requires Carried(refs, i, refs[i + 1].count) && surplus <= refs[i + 1].count
      requires !refs[i].p.state.HeaderField? && (refs[i].p.state.HeaderValue? ==> data[i] == CR || data[i] == LF)
      ensures Exact(refs, i + 1)
    {
      if refs[i].p.state.HeaderValue? {
        LineEndLeaves(refs, data, i);
      }
      OutsideIsExact(refs, i);
    }

    /** A scan of header bytes carries the surplus along. */
    lemma ScanCarries(refs: seq<Config>, data: string, i: nat, j: nat, k: DataKind, count: nat)
      requires i <= j <= |data| && i < |data| && |refs| == |data| + 1 && Stride(refs, data, i, j, k, true)
      requires Exact(refs, i)
      ensures Carried(refs, j, count)
    {
      assert Unfold(0);
      StrideSince(refs, data, i, j, k, base);
    }

    /** Where a scan has got to: what it has read is pending under a mark. */
    lemma ScanReaches(refs: seq<Config>, data: string, i: nat, j: nat, k: DataKind, m: Marks)
      requires i <= j <= |data| && i < |data| && |refs| == |data| + 1 && Stride(refs, data, i, j, k, true)
      requires Exact(refs, i) && Agrees(trace, m, data, i, refs[i].trace) && OnlyMark(m, k, i) && MarkOf(m, k).Some?
      requires Running(refs[i])
      ensures OnlyMark(m, k, j) && Agrees(trace, m, data, j, refs[j].trace) && Lags(trace, refs[j].trace)
      ensures refs[j].count == refs[i].count + (j - i) && Running(refs[j]) && refs[j].p.state == refs[i].p.state
      ensures Carried(refs, j, refs[j].count + 1) && (i < j ==> refs[j].last == Consume)
    {
      StrideEnd(refs, data, i, j, k, true);
      AgreesStride(trace, m, refs, data, i, j, k, true);
      AgreesLags(trace, m, data, j, refs[j].trace);
      ScanCarries(refs, data, i, j, k, refs[j].count + 1);
    }

    /** A scan to `j` that the limit lets pass. */
    lemma ScanPasses(refs: seq<Config>, data: string, i: nat, j: nat, k: DataKind)
      requires i <= j < |data| && |refs| == |data| + 1 && Stride(refs, data, i, j, k, true)
      requires Checked(refs, data, i, j, lenient) && (Looks(refs, j) ==> lenient || IsHeaderChar(data[j]))
      requires Exact(refs, i) && refs[j].count + surplus < HTTP_MAX_HEADER_SIZE
      ensures Clears(refs, data, i, j)
    {
      assert Unfold(0);
      ScanClears(refs, data, i, j, k, base, lenient);
    }

    /** So does a jump over a body. */
    lemma BodyCarries(refs: seq<Config>, data: string, i: nat, j: nat)
      requires i <= j <= |data| && i < |data| && |refs| == |data| + 1 && Stride(refs, data, i, j, BodyText, false)
      requires Exact(refs, i) && surplus <= refs[i].count
      ensures Carried(refs, j, refs[i].count)
    {
      assert Unfold(0);
      BodySince(refs, data, i, j, base);
    }

    lemma BodyEndsExact(refs: seq<Config>, data: string, i: nat)
      requires i < |data| && |refs| == |data| + 1 && Stride(refs, data, i, |data|, BodyText, false)
      requires ReadsBody(refs[i].p.state) && Carried(refs, |data|, refs[|data|].count)
      ensures Exact(refs, |data|)
    {
      assert Unfold(0);
      StrideEnd(refs, data, i, |data|, BodyText, false);
    }

    /** A buffer that ends inside a header field or value adds to the surplus. */
    lemma SurplusGrows(refs: seq<Config>, data: string, i: nat, k: DataKind)
      requires i < |data| && |refs| == |data| + 1 && Stride(refs, data, i, |data|, k, true)
      requires refs[i].p.state.HeaderField? || refs[i].p.state.HeaderValue?
      requires surplus == Since(refs, i, base) + 1
      ensures Exact(refs, |data|)
    {
      StrideSince(refs, data, i, |data|, k, base);
      ScanEndsInside(refs, data, i, k);
    }

    // ----- the inner loops ---------------------------------------------------------------------

    /** COUNT_HEADER_SIZE, on a 32-bit counter. */
    method CountHeaderSize(v: nat) returns (ok: bool)
      requires v < 0x8000_0000 && nread <= HTTP_MAX_HEADER_SIZE
      modifies this`nread, this`errno
      ensures nread == old(nread) + v
      ensures ok == (nread <= HTTP_MAX_HEADER_SIZE)
      ensures errno == if ok then old(errno) else HeaderOverflow
    {
      nread := (nread + v) % 0x1_0000_0000;
      if nread > HTTP_MAX_HEADER_SIZE {
        errno := HeaderOverflow;
        return false;
      }
      return true;
    }

    /** The loop of s_header_field: scans a run of token bytes. */
    method ScanFieldName(data: string, i: nat, ghost refs: seq<Config>) returns (j: nat)
      requires i < |data| && IsRun(refs, data) && Running(refs[i]) && Snapshot() == refs[i].p
      requires state.HeaderField? && FieldScan(headerState, index)
      modifies this`headerState, this`index
      ensures i <= j <= |data| && (j < |data| ==> !IsToken(data[j])) && FieldStop(data, i) == j
      ensures Running(refs[j]) && Snapshot() == refs[j].p && Stride(refs, data, i, j, FieldText, true)
    {
      j := i;
      while j < |data| && IsToken(data[j])
        invariant i <= j <= |data| && FieldStop(data, i) == FieldStop(data, j)
        invariant state.HeaderField? && FieldScan(headerState, index)
        invariant Running(refs[j]) && Snapshot() == refs[j].p && Stride(refs, data, i, j, FieldText, true)
      {
        FieldToken(refs, data, j);
        FieldNextScans(headerState, index, Token(data[j]));
        var h := headerState;
        headerState := FieldNext(h, index, Token(data[j]));
        index := FieldIndex(h, index);
        j := j + 1;
      }
    }

    /** case s_header_field. */
    method FieldCase(data: string, i: nat, m: Marks, ghost refs: seq<Config>) returns (j: nat, m': Marks, act: Act)
      requires i < |data| < 0x8000_0000 && IsRun(refs, data) && Follows(refs[i], m, data, i)
      requires state.HeaderField? && FieldScan(headerState, index) && errno == OK
      requires HeaderBudget(refs[i].count) && Exact(refs, i)
      modifies this
      ensures unchanged(`fed, `base)
      ensures i <= j <= |data|
      ensures act == Consume ==>
                j < |data| && Tracks(refs[j + 1], m', data, j + 1) && refs[j + 1].last == Consume
      ensures act == Consume ==> Clears(refs, data, i, j) && Exact(refs, j + 1) && Leaves(refs, data, j)
      ensures act != Consume ==> act == Fail && FailedAt(refs, data, i, j)
    {
      FirstHasRoom(refs, i);
      j := ScanFieldName(data, i, refs);
      NothingLookedAt(refs, data, i, j, FieldText, true, lenient);
      j, m', act := FieldScanned(data, i, j, m, refs);
    }

    /** Token bytes have been scanned from `i` to `j`. */
    method FieldScanned(data: string, i: nat, j: nat, m: Marks, ghost refs: seq<Config>)
      returns (n: nat, m': Marks, act: Act)
      requires i <= j <= |data| < 0x8000_0000 && i < |data| && IsRun(refs, data) && errno == OK
      requires state.HeaderField? && (j < |data| ==> !IsToken(data[j])) && FieldStop(data, i) == j
      requires Running(refs[i]) && refs[i].p.state.HeaderField? && MarkInv(m, state, i)
      requires Agrees(trace, m, data, i, refs[i].trace) && Snapshot() == refs[j].p
      requires Stride(refs, data, i, j, FieldText, true) && Checked(refs, data, i, j, lenient)
      requires HeaderBudget(refs[i].count) && Exact(refs, i) && HasRoom(refs, i, base)
      modifies this
      ensures unchanged(`fed, `base)
      ensures i <= n <= |data|
      ensures act == Consume ==>
                n < |data| && Tracks(refs[n + 1], m', data, n + 1) && refs[n + 1].last == Consume
      ensures act == Consume ==> Clears(refs, data, i, n) && Exact(refs, n + 1) && Leaves(refs, data, n)
      ensures act != Consume ==> act == Fail && FailedAt(refs, data, i, n)
    {
      ScanReaches(refs, data, i, j, FieldText, m);
      var ok := CountHeaderSize(j - i);
      if !ok {
        ScanOverflows(refs, data, i, j, FieldText, j);
        return j, m, Fail;
      }
      n, m', act := FieldRest(data, i, j, m, refs);
    }

    /** Behind the token bytes from `i` to `j`: the end of the buffer, or the byte that ends the name. */
    method FieldRest(data: string, i: nat, j: nat, m: Marks, ghost refs: seq<Config>)
      returns (n: nat, m': Marks, act: Act)
      requires i <= j <= |data| && i < |data| && IsRun(refs, data) && Follows(refs[j], m, data, j) && errno == OK
      requires state.HeaderField? && (j < |data| ==> !IsToken(data[j])) && (i < j ==> refs[j].last == Consume)
      requires refs[i].p.state.HeaderField? && Running(refs[i]) && Stride(refs, data, i, j, FieldText, true)
      requires Exact(refs, i) && Carried(refs, j, refs[j].count + 1)
      requires Budget(refs[j].count + 1) && surplus <= refs[i].count && refs[j].count == refs[i].count + (j - i)
      requires HasRoom(refs, i, base) && Checked(refs, data, i, j, lenient) && FieldStop(data, i) == j
      modifies this
      ensures unchanged(`fed, `base)
      ensures i <= n <= |data|
      ensures act == Consume ==>
                n < |data| && Tracks(refs[n + 1], m', data, n + 1) && refs[n + 1].last == Consume
      ensures act == Consume ==> Clears(refs, data, i, n) && Exact(refs, n + 1) && Leaves(refs, data, n)
      ensures act != Consume ==> act == Fail && FailedAt(refs, data, i, n)
    {
      if j == |data| {
        ScanBufferEnd(data, i, FieldText, refs);
        return j - 1, m, Consume;
      }
      ScanPasses(refs, data, i, j, FieldText);
      m', act := FieldNameEnd(data, j, m, refs);
      if act == Fail {
        FieldRefuses(refs, data, i, j);
      }
      return j, m', act;
    }

    /** The buffer ends inside a header field or value. */
    ghost method ScanBufferEnd(data: string, i: nat, k: DataKind, refs: seq<Config>)
      requires i < |data| && |refs| == |data| + 1 && Stride(refs, data, i, |data|, k, true) && Running(refs[i])
      requires refs[i].p.state.HeaderField? || refs[i].p.state.HeaderValue?
      requires Checked(refs, data, i, |data|, lenient)
      requires Exact(refs, i) && refs[|data|].count + surplus < HTTP_MAX_HEADER_SIZE
      modifies this`surplus
      ensures surplus == old(surplus) + 1
      ensures Clears(refs, data, i, |data| - 1) && Exact(refs, |data|) && Leaves(refs, data, |data| - 1)
    {
      assert Unfold(0);
      ScanClearsAll(refs, data, i, k, base, lenient);
      ScanLeaves(refs, data, i, k);
      surplus := surplus + 1;
      SurplusGrows(refs, data, i, k);
    }

    method FieldNameEnd(data: string, j: nat, m: Marks, ghost refs: seq<Config>) returns (m': Marks, act: Act)
      requires j < |data| && IsRun(refs, data) && Follows(refs[j], m, data, j) && errno == OK
      requires state.HeaderField? && !IsToken(data[j])
      requires Carried(refs, j, refs[j].count + 1) && surplus <= refs[j].count + 1
      modifies this
      ensures unchanged(`fed, `base, `nread, `surplus)
      ensures refs[j + 1].count == refs[j].count + 1 && refs[j + 1].last == act
      ensures act == Consume ==> Follows(refs[j + 1], m', data, j + 1) && state.HeaderValueDiscardWs?
      ensures act == Consume ==> Exact(refs, j + 1) && Leaves(refs, data, j)
      ensures act != Consume ==> act == Fail && RefusedByReference(refs[j + 1]) && Lags(trace, refs[j + 1].trace)
    {
      FieldEnd(refs, data, j);
      if data[j] == ':' {
        AgreesFlush(trace, m, FieldText, data, j, j + 1, refs[j].trace);
        state := HeaderValueDiscardWs;
        m' := CallbackData(FieldText, m, data, j);
        OutsideIsExact(refs, j);
        return m', Consume;
      }
      AgreesLags(trace, m, data, j, refs[j].trace);
      errno := InvalidHeaderToken;
      return m, Fail;
    }

    // ----- case s_header_value -----------------------------------------------------------------

    /** In the loop of s_header_value, at position `j`: `h` is the local copy of header_state. */
    ghost predicate ValueAt(r: Config, h: HeaderState)
      reads this
    {
      Running(r) && state.HeaderValue? && ValueScan(h, index) && Snapshot().(headerState := h) == r.p
    }

    /** case h_content_length. */
    method LengthCharCase(ch: char) returns (ok: bool)
      modifies this`contentLength, this`errno
      ensures var r := ValueLength(ContentLength, old(contentLength), ch);
              if r.None? then !ok && errno == InvalidContentLength && contentLength == old(contentLength)
              else ok && errno == old(errno) && contentLength == r.value
    {
      if ch == ' ' {
        return true;
      }
      if !IsNum(ch) {
        errno := InvalidContentLength;
        return false;
      }
      var t := Wrap64(Wrap64(contentLength * 10) + DigitValue(ch));
      if (UNSET - 10) / 10 < contentLength {
        errno := InvalidContentLength;
        return false;
      }
      contentLength := t;
      return true;
    }

    /** The other states but h_general: Transfer-Encoding and Connection. */
    method TokenCharCase(ch: char, h: HeaderState) returns (h': HeaderState)
      requires ValueScan(h, index) && !h.General? && !h.ContentLength?
      modifies this`index, this`flags
      ensures var o := ValueStep(old(Snapshot()).(headerState := h), ch);
              Snapshot().(headerState := h') == o.p && o.act == Consume
    {
      h' := ValueNext(h, index, ch);
      if MatchesToken(h) {
        index := index + 1;
      } else if EndsElement(h, ch) {
        flags := ConnectionFlag(h, flags);
        index := 0;
      }
    }

    /** One byte of a header value in a state other than h_general. */
    method ValueCharCase(ch: char, h: HeaderState) returns (h': HeaderState, ok: bool)
      requires ValueScan(h, index) && !h.General?
      modifies this`headerState, this`index, this`contentLength, this`flags, this`errno
      ensures var o := ValueStep(old(Snapshot()).(headerState := h), ch);
              && Snapshot().(headerState := h') == o.p
              && ok == (o.act == Consume)
              && headerState == (if ok then old(headerState) else h')
              && (ok ==> errno == old(errno))
    {
      if h.ContentLength? {
        ok := LengthCharCase(ch);
        if !ok {
          headerState := h;
        }
        return h, ok;
      }
      h' := TokenCharCase(ch, h);
      return h', true;
    }

    /** memchr(data + from, c, n). */
    static method Memchr(data: string, from: nat, c: char, n: nat) returns (at: Option<nat>)
      requires from + n <= |data|
      ensures at.Some? ==> from <= at.value < from + n && data[at.value] == c
      ensures forall k :: from <= k < (if at.Some? then at.value else from + n) ==> data[k] != c
    {
      var k := from;
      while k < from + n
        invariant from <= k <= from + n
        invariant forall x :: from <= x < k ==> data[x] != c
      {
        if data[k] == c {
          return Some(k);
        }
        k := k + 1;
      }
      return None;
    }

    /** case h_general: jumps to the next line end within the limit, or else to the end of the
        buffer; `clear` says how far the bytes are known to hold no line end. */
    static method SkipToLineEnd(data: string, j: nat) returns (k: nat, ghost clear: nat)
      requires j < |data| && data[j] != CR && data[j] != LF
      ensures j < k <= |data|
      ensures k < |data| ==> clear == k && (data[k] == CR || data[k] == LF)
      ensures k == |data| ==> clear == k || (j + HTTP_MAX_HEADER_SIZE == clear < k)
      ensures forall x :: j <= x < clear ==> data[x] != CR && data[x] != LF
      ensures JumpExtent(data, j) == Extent(k, clear)
    {
      var limit := |data| - j;
      if limit > HTTP_MAX_HEADER_SIZE {
        limit := HTTP_MAX_HEADER_SIZE;
      }
      var cr := Memchr(data, j, CR, limit);
      var lf := Memchr(data, j, LF, limit);
      if cr.Some? {
        k := if lf.Some? && cr.value >= lf.value then lf.value else cr.value;
        clear := k;
      } else if lf.Some? {
        k := lf.value;
        clear := k;
      } else {
        k := |data|;
        clear := j + limit;
      }
      LineStopIs(data, j, clear);
    }

    /** One turn of the loop of s_header_value, in a state other than h_general. */
    method ValueTokenCase(data: string, j: nat, h: HeaderState, ghost refs: seq<Config>)
      returns (h': HeaderState, ok: bool)
      requires j < |data| && IsRun(refs, data) && ValueAt(refs[j], h) && !h.General?
      requires data[j] != CR && data[j] != LF && (lenient || IsHeaderChar(data[j]))
      modifies this`headerState, this`index, this`contentLength, this`flags, this`errno
      ensures ok ==> errno == old(errno) && headerState == old(headerState)
      ensures ok ==> ValueAt(refs[j + 1], h') && Took(refs, data, j, ValueText, true)
      ensures !ok ==> RefusedByReference(refs[j + 1]) && refs[j + 1].trace == refs[j].trace
    {
      ValueToken(refs, data, j);
      ValueNextScans(h, index, data[j]);
      h', ok := ValueCharCase(data[j], h);
    }

    /** The same in state h_general. */
    method ValueGeneralCase(data: string, j: nat, ghost refs: seq<Config>)
      returns (j': nat, ghost clear: nat)
      requires j < |data| && IsRun(refs, data) && ValueAt(refs[j], General)
      requires data[j] != CR && data[j] != LF && (lenient || IsHeaderChar(data[j]))
      ensures j < j' <= |data| && j < clear <= j' && Stride(refs, data, j, clear, ValueText, true)
      ensures Checked(refs, data, j, clear, lenient) && (j' < |data| ==> data[j'] == CR || data[j'] == LF)
      ensures JumpExtent(data, j) == Extent(j', clear)
      ensures if clear == j' then ValueAt(refs[j'], General)
              else j' == |data| && j + HTTP_MAX_HEADER_SIZE == clear
    {
      j', clear := SkipToLineEnd(data, j);
      ValueRun(refs, data, j, clear);
      JumpChecked(refs, data, j, clear, lenient);
    }

    /** The loop of s_header_value, up to a line end, the end of the buffer or a byte that is
        refused.  `clear` is how far the reference machine follows: short of `j` only when the jump
        of h_general was cut off by its limit. */
    method ScanValue(data: string, i: nat, ghost refs: seq<Config>)
      returns (j: nat, h: HeaderState, ok: bool, ghost clear: nat)
      requires i < |data| && IsRun(refs, data) && ValueAt(refs[i], headerState) && errno == OK && Enters(refs, i)
      modifies this`headerState, this`index, this`contentLength, this`flags, this`errno
      ensures i <= clear <= j <= |data| && Stride(refs, data, i, clear, ValueText, true)
      ensures Checked(refs, data, i, clear, lenient)
      ensures ok ==> errno == OK && (j < |data| ==> data[j] == CR || data[j] == LF)
      ensures ok ==> if clear == j then ValueAt(refs[j], h) else j == |data| && i + HTTP_MAX_HEADER_SIZE <= clear
      ensures ok ==> ValueExtent(refs, data, i) == Extent(j, clear)
      ensures !ok ==> clear == j < ValueExtent(refs, data, i).clear
      ensures !ok ==> ValueRefused(refs, data, j)
    {
      j, h, clear := i, headerState, i;
      while j < |data| && data[j] != CR && data[j] != LF
        invariant i <= clear <= j <= |data| && Stride(refs, data, i, clear, ValueText, true)
        invariant errno == OK && Checked(refs, data, i, clear, lenient)
        invariant j < |data| ==> data[j] == CR || data[j] == LF || Looks(refs, j)
        invariant if clear == j then ValueAt(refs[j], h) else j == |data| && i + HTTP_MAX_HEADER_SIZE <= clear
        invariant ValueExtent(refs, data, i) == if clear == j then ValueExtent(refs, data, j) else Extent(j, clear)
        decreases |data| - j
      {
        j, h, ok, clear := ScanTurn(data, j, h, refs);
        if !ok {
          return j, h, false, clear;
        }
      }
      return j, h, true, clear;
    }

    /** A byte of a header value was refused, by IS_HEADER_CHAR or behind it. */
    ghost predicate ValueRefused(refs: seq<Config>, data: string, j: nat)
      requires j < |data| && |refs| == |data| + 1
      reads this
    {
      || RefusedHere(refs, data, j)
      || (RefusedByReference(refs[j + 1]) && refs[j + 1].trace == refs[j].trace && Running(refs[j]) &&
          CharPasses(refs, data, j, lenient))
    }

    /** One turn of it. */
    method ScanTurn(data: string, j: nat, h: HeaderState, ghost refs: seq<Config>)
      returns (j': nat, h': HeaderState, ok: bool, ghost clear: nat)
      requires j < |data| && IsRun(refs, data) && ValueAt(refs[j], h) && errno == OK && Looks(refs, j)
      requires data[j] != CR && data[j] != LF
      modifies this`headerState, this`index, this`contentLength, this`flags, this`errno
      ensures j <= clear <= j' <= |data| && (ok ==> j < j' && errno == OK)
      ensures Stride(refs, data, j, clear, ValueText, true) && Checked(refs, data, j, clear, lenient)
      ensures ok && j' < |data| ==> data[j'] == CR || data[j'] == LF || Looks(refs, j')
      ensures ok ==> if clear == j' then ValueAt(refs[j'], h') else j' == |data| && j + HTTP_MAX_HEADER_SIZE <= clear
      ensures ok ==>
                ValueExtent(refs, data, j) == if clear == j' then ValueExtent(refs, data, j') else Extent(j', clear)
      ensures !ok ==> clear == j' == j && ValueRefused(refs, data, j)
    {
      if !lenient && !IsHeaderChar(data[j]) {
        errno := InvalidHeaderToken;
        return j, h, false, j;
      }
      if h.General? {
        j', clear := ValueGeneralCase(data, j, refs);
        return j', h, true, clear;
      }
      assert !refs[j].p.headerState.General?;
      h', ok := ValueTokenCase(data, j, h, refs);
      if !ok {
        return j, h', false, j;
      }
      return j + 1, h', true, j + 1;
    }

    /** CR in the loop of s_header_value. */
    method ValueCR(data: string, i: nat, j: nat, h: HeaderState, m: Marks, ghost refs: seq<Config>)
      returns (m': Marks, act: Act)
      requires i <= j < |data| < 0x8000_0000 && data[j] == CR && IsRun(refs, data)
      requires ValueAt(refs[j], h) && MarkInv(m, state, j) && Agrees(trace, m, data, j, refs[j].trace)
      requires errno == OK && HeaderBudget(refs[i].count) && Exact(refs, i)
      requires Carried(refs, j, refs[j].count + 1) && Stride(refs, data, i, j, ValueText, true)
      requires refs[j].count == refs[i].count + (j - i) && refs[i].p.state.HeaderValue?
      requires HasRoom(refs, i, base) && ValueExtent(refs, data, i) == Extent(j, j)
      requires Checked(refs, data, i, j, lenient)
      modifies this
      ensures unchanged(`fed, `base, `surplus)
      ensures act == Consume || act == Fail
      ensures act == Consume ==> Tracks(refs[j + 1], m', data, j + 1) && refs[j + 1].last == Consume
      ensures act == Consume ==> refs[j].count + surplus < HTTP_MAX_HEADER_SIZE && Exact(refs, j + 1)
      ensures act == Fail ==> FailedAt(refs, data, i, j)
    {
      m' := ValueCRByte(data, j, h, m, refs);
      var ok := CountHeaderSize(j - i);
      if !ok {
        ScanOverflows(refs, data, i, j, ValueText, j);
        return m', Fail;
      }
      OutsideIsExact(refs, j);
      return m', Consume;
    }

    method ValueCRByte(data: string, j: nat, h: HeaderState, m: Marks, ghost refs: seq<Config>) returns (m': Marks)
      requires j < |data| && data[j] == CR && IsRun(refs, data) && errno == OK
      requires ValueAt(refs[j], h) && MarkInv(m, state, j) && Agrees(trace, m, data, j, refs[j].trace)
      modifies this`state, this`headerState, this`trace
      ensures Follows(refs[j + 1], m', data, j + 1) && state.HeaderAlmostDone? && Lags(trace, refs[j].trace)
      ensures refs[j + 1].last == Consume && refs[j + 1].count == refs[j].count + 1
    {
      ghost var c := ValueEnd(refs, data, j);
      AgreesFlush(trace, m, ValueText, data, j, j + 1, refs[j].trace);
      state := HeaderAlmostDone;
      headerState := h;
      m' := CallbackData(ValueText, m, data, j);
      AgreesLags(trace, NO_MARKS, data, j + 1, refs[j].trace);
    }

    /** LF in the loop of s_header_value. */
    method ValueLF(data: string, i: nat, j: nat, h: HeaderState, m: Marks, ghost refs: seq<Config>)
      returns (m': Marks, act: Act, ghost c: Config)
      requires i <= j < |data| < 0x8000_0000 && data[j] == LF && IsRun(refs, data)
      requires ValueAt(refs[j], h) && MarkInv(m, state, j) && Agrees(trace, m, data, j, refs[j].trace)
      requires errno == OK && HeaderBudget(refs[i].count) && Exact(refs, i)
      requires Carried(refs, j, refs[j].count + 1) && Stride(refs, data, i, j, ValueText, true)
      requires refs[j].count == refs[i].count + (j - i) && refs[i].p.state.HeaderValue?
      requires HasRoom(refs, i, base) && ValueExtent(refs, data, i) == Extent(j, j)
      requires Checked(refs, data, i, j, lenient)
      modifies this
      ensures unchanged(`fed, `base, `surplus)
      ensures act == Reexecute || act == Fail
      ensures act == Reexecute ==>
                Midway(c, m', refs, data, j) && Running(refs[j]) && c.p == refs[j].p.(state := HeaderAlmostDone)
      ensures act == Reexecute ==> refs[j].count + surplus < HTTP_MAX_HEADER_SIZE
      ensures act == Fail ==> FailedAt(refs, data, i, j)
    {
      c := ValueEnd(refs, data, j);
      state := HeaderAlmostDone;
      var ok := CountHeaderSize(j - i);
      if !ok {
        ValueOverflows(data, i, j, m, refs);
        return m, Fail, c;
      }
      m' := ValueDone(data, j, h, m, c, refs);
      return m', Reexecute, c;
    }

    lemma ValueOverflows(data: string, i: nat, j: nat, m: Marks, refs: seq<Config>)
      requires i <= j < |data| && |refs| == |data| + 1 && Stride(refs, data, i, j, ValueText, true)
      requires Agrees(trace, m, data, j, refs[j].trace) && errno == HeaderOverflow
      requires refs[i].p.state.HeaderValue? && HasRoom(refs, i, base) && Checked(refs, data, i, j, lenient)
      requires ValueExtent(refs, data, i) == Extent(j, j)
      requires Exact(refs, i) && HTTP_MAX_HEADER_SIZE <= refs[j].count + surplus
      ensures FailedAt(refs, data, i, j)
    {
      AgreesLags(trace, m, data, j, refs[j].trace);
      ScanOverflows(refs, data, i, j, ValueText, j);
    }

    /** The end of a value: header_state is stored, and the value handed over. */
    method ValueDone(data: string, j: nat, h: HeaderState, m: Marks, ghost c: Config, ghost refs: seq<Config>)
      returns (m': Marks)
      requires j < |data| && |refs| == |data| + 1 && errno == OK && state.HeaderAlmostDone?
      requires OnlyMark(m, ValueText, j) && m.value.Some? && Agrees(trace, m, data, j, c.trace)
      requires Snapshot().(headerState := h) == c.p && Leads(c, data[j], refs[j + 1])
      requires Budget(c.count) && Carried(refs, j, c.count)
      modifies this`headerState, this`trace
      ensures Midway(c, m', refs, data, j)
    {
      AgreesFlush(trace, m, ValueText, data, j, j, c.trace);
      headerState := h;
      m' := CallbackData(ValueText, m, data, j);
    }

    /** case s_header_value. */
    method ValueCase(data: string, i: nat, m: Marks, ghost refs: seq<Config>)
      returns (j: nat, m': Marks, act: Act, ghost c: Config)
      requires i < |data| < 0x8000_0000 && IsRun(refs, data) && Follows(refs[i], m, data, i)
      requires state.HeaderValue? && ValueScan(headerState, index) && errno == OK
      requires HeaderBudget(refs[i].count) && Exact(refs, i) && Enters(refs, i)
      modifies this
      ensures unchanged(`fed, `base)
      ensures i <= j <= |data|
      ensures act == Consume || act == Reexecute || act == Fail
      ensures act == Consume ==>
                j < |data| && Tracks(refs[j + 1], m', data, j + 1) && refs[j + 1].last == Consume && Exact(refs, j + 1)
      ensures act == Reexecute ==>
                && j < |data| && data[j] == LF && Midway(c, m', refs, data, j)
                && Running(refs[j]) && refs[j].p.state.HeaderValue? && c.p == refs[j].p.(state := HeaderAlmostDone)
      ensures act != Fail ==> Clears(refs, data, i, j) && Leaves(refs, data, j)
      ensures act == Fail ==> FailedAt(refs, data, i, j)
    {
      var h, ok;
      ghost var clear;
      c := refs[i];
      FirstHasRoom(refs, i);
      j, h, ok, clear := ScanValue(data, i, refs);
      ScanReaches(refs, data, i, clear, ValueText, m);
      if !ok {
        ValueRefuses(refs, data, i, j);
        return j, m, Fail, c;
      }
      j, m', act, c := ValueRest(data, i, j, h, m, refs, clear);
    }

    /** Behind the scan: the end of the buffer, or a line end. */
    method ValueRest(data: string, i: nat, j: nat, h: HeaderState, m: Marks, ghost refs: seq<Config>, ghost clear: nat)
      returns (n: nat, m': Marks, act: Act, ghost c: Config)
      requires i <= clear <= j <= |data| < 0x8000_0000 && i < |data| && IsRun(refs, data) && errno == OK
      requires HeaderBudget(refs[i].count) && refs[i].count + (clear - i) == refs[clear].count && Exact(refs, i)
      requires refs[i].p.state.HeaderValue? && Running(refs[i]) && Running(refs[clear]) && HasRoom(refs, i, base)
      requires Stride(refs, data, i, clear, ValueText, true) && Checked(refs, data, i, clear, lenient)
      requires Agrees(trace, m, data, clear, refs[clear].trace) && Carried(refs, clear, refs[clear].count + 1)
      requires ValueExtent(refs, data, i) == Extent(j, clear)
      requires j < |data| ==> clear == j && (data[j] == CR || data[j] == LF)
      requires if clear == j then ValueAt(refs[j], h) && MarkInv(m, state, j) && (i < j ==> refs[j].last == Consume)
               else j == |data| && i + HTTP_MAX_HEADER_SIZE <= clear
      modifies this
      ensures unchanged(`fed, `base)
      ensures i <= n <= |data|
      ensures act == Consume || act == Reexecute || act == Fail
      ensures act == Consume ==>
                n < |data| && Tracks(refs[n + 1], m', data, n + 1) && refs[n + 1].last == Consume && Exact(refs, n + 1)
      ensures act == Reexecute ==>
                && n < |data| && data[n] == LF && Midway(c, m', refs, data, n)
                && Running(refs[n]) && refs[n].p.state.HeaderValue? && c.p == refs[n].p.(state := HeaderAlmostDone)
      ensures act != Fail ==> Clears(refs, data, i, n) && Leaves(refs, data, n)
      ensures act == Fail ==> FailedAt(refs, data, i, n)
    {
      c := refs[i];
      if j == |data| {
        act := ValueBufferEnd(data, i, h, m, refs, clear);
        return if act == Fail then j else j - 1, m, act, c;
      }
      m', act, c := ValueLineEnd(data, i, j, h, m, refs);
      return j, m', act, c;
    }

    /** CR or LF in the loop of s_header_value. */
    method ValueLineEnd(data: string, i: nat, j: nat, h: HeaderState, m: Marks, ghost refs: seq<Config>)
      returns (m': Marks, act: Act, ghost c: Config)
      requires i <= j < |data| < 0x8000_0000 && (data[j] == CR || data[j] == LF) && IsRun(refs, data)
      requires ValueAt(refs[j], h) && MarkInv(m, state, j) && Agrees(trace, m, data, j, refs[j].trace)
      requires errno == OK && HeaderBudget(refs[i].count) && Exact(refs, i)
      requires Carried(refs, j, refs[j].count + 1) && Stride(refs, data, i, j, ValueText, true)
      requires refs[j].count == refs[i].count + (j - i) && refs[i].p.state.HeaderValue?
      requires HasRoom(refs, i, base) && ValueExtent(refs, data, i) == Extent(j, j)
      requires Checked(refs, data, i, j, lenient)
      modifies this
      ensures unchanged(`fed, `base)
      ensures act == Consume || act == Reexecute || act == Fail
      ensures act == Consume ==>
                Tracks(refs[j + 1], m', data, j + 1) && refs[j + 1].last == Consume && Exact(refs, j + 1)
      ensures act == Reexecute ==>
                data[j] == LF && Midway(c, m', refs, data, j) && c.p == refs[j].p.(state := HeaderAlmostDone)
      ensures act != Fail ==> Clears(refs, data, i, j) && Leaves(refs, data, j)
      ensures act == Fail ==> FailedAt(refs, data, i, j)
    {
      c := refs[i];
      if data[j] == CR {
        m', act := ValueCR(data, i, j, h, m, refs);
      } else {
        m', act, c := ValueLF(data, i, j, h, m, refs);
      }
      if act != Fail {
        ScanPasses(refs, data, i, j, ValueText);
      }
    }

    /** The buffer ends in the loop of s_header_value. */
    method ValueBufferEnd(data: string, i: nat, h: HeaderState, m: Marks, ghost refs: seq<Config>, ghost clear: nat)
      returns (act: Act)
      requires i <= clear <= |data| < 0x8000_0000 && |refs| == |data| + 1 && i < |data|
      requires errno == OK && HeaderBudget(refs[i].count) && refs[i].count + (clear - i) == refs[clear].count
      requires Exact(refs, i) && refs[i].p.state.HeaderValue? && Running(refs[i]) && Running(refs[clear])
      requires Stride(refs, data, i, clear, ValueText, true) && Checked(refs, data, i, clear, lenient)
      requires Agrees(trace, m, data, clear, refs[clear].trace)
      requires if clear == |data| then
                 ValueAt(refs[clear], h) && refs[clear].last == Consume && MarkInv(m, state, clear)
               else i + HTTP_MAX_HEADER_SIZE <= clear
      requires HasRoom(refs, i, base) && ValueExtent(refs, data, i) == Extent(|data|, clear)
      modifies this`headerState, this`nread, this`errno, this`surplus
      ensures act == Consume || act == Fail
      ensures act == Consume ==> Tracks(refs[|data|], m, data, |data|) && refs[|data|].last == Consume
      ensures act == Consume ==>
                Clears(refs, data, i, |data| - 1) && Exact(refs, |data|) && Leaves(refs, data, |data| - 1)
      ensures act == Fail ==> FailedAt(refs, data, i, |data|)
    {
      headerState := h;
      var ok := CountHeaderSize(|data| - i);
      if !ok {
        AgreesLags(trace, m, data, clear, refs[clear].trace);
        ScanOverflows(refs, data, i, clear, ValueText, |data|);
        return Fail;
      }
      ScanBufferEnd(data, i, ValueText, refs);
      return Consume;
    }

    // ----- bodies ------------------------------------------------------------------------------

    /** cases s_body_identity and s_chunk_data: jumps over what the buffer holds of the body. */
    method BodyCase(data: string, i: nat, m: Marks, ghost refs: seq<Config>)
      returns (j: nat, m': Marks, act: Act, ghost c: Config)
      requires i < |data| && IsRun(refs, data) && Follows(refs[i], m, data, i)
      requires ReadsBody(state) && (state.Chunk? ==> flags.chunked) && 0 < contentLength < UNSET && errno == OK
      requires Budget(refs[i].count) && Exact(refs, i)
      modifies this
      ensures unchanged(`fed, `base, `errno)
      ensures i <= j < |data|
      ensures act == Consume || act == Reexecute
      ensures act == Consume ==>
                Tracks(refs[j + 1], m', data, j + 1) && refs[j + 1].last == Consume && Exact(refs, j + 1)
      ensures act == Reexecute ==>
                && Midway(c, m', refs, data, j)
                && refs[i].p.state.BodyIdentity? && c.p == refs[i].p.(contentLength := 0, state := MessageDone)
      ensures BodyRead(refs, data, i, j)
    {
      var toRead := if contentLength < |data| - i then contentLength else |data| - i;
      assert contentLength != 0 && contentLength != UNSET;
      c := refs[i];
      if toRead == contentLength {
        if state.Chunk? {
          j, m' := ChunkDataEnd(data, i, m, refs);
          act := Consume;
        } else {
          j, m', c := IdentityBodyEnd(data, i, m, refs);
          act := Reexecute;
        }
      } else {
        j, act := |data| - 1, Consume;
        m' := BodyGoesOn(data, i, m, refs);
      }
    }

    /** The bytes from `i` up to and with `j` are body bytes. */
    ghost predicate BodyRead(refs: seq<Config>, data: string, i: nat, j: nat)
      requires |refs| == |data| + 1
      reads this`base
    {
      Clears(refs, data, i, j) && Leaves(refs, data, j) && ReadsBody(refs[j].p.state)
    }

    lemma BodyIsRead(refs: seq<Config>, data: string, i: nat, j: nat)
      requires i <= j < |data| && |refs| == |data| + 1 && Stride(refs, data, i, j, BodyText, false)
      requires ReadsBody(refs[i].p.state) && Running(refs[j])
      ensures BodyRead(refs, data, i, j)
    {
      BodyClears(refs, data, i, j, base, lenient);
      StrideEnd(refs, data, i, j, BodyText, false);
    }

    /** The buffer ends within the body. */
    method BodyGoesOn(data: string, i: nat, m: Marks, ghost refs: seq<Config>) returns (m': Marks)
      requires i < |data| && IsRun(refs, data) && Follows(refs[i], m, data, i)
      requires ReadsBody(state) && (state.Chunk? ==> flags.chunked) && |data| - i < contentLength < UNSET
      requires errno == OK && Budget(refs[i].count) && Exact(refs, i)
      modifies this`contentLength
      ensures Tracks(refs[|data|], m', data, |data|) && refs[|data|].last == Consume && Exact(refs, |data|)
      ensures BodyRead(refs, data, i, |data| - 1)
    {
      BodyRun(refs, data, i, |data|);
      BodyRun(refs, data, i, |data| - 1);
      StrideEnd(refs, data, i, |data|, BodyText, false);
      AgreesStride(trace, m, refs, data, i, |data|, BodyText, false);
      BodyIsRead(refs, data, i, |data| - 1);
      BodyCarries(refs, data, i, |data|);
      BodyEndsExact(refs, data, i);
      m' := SetMark(m, BodyText, i);
      contentLength := contentLength - (|data| - i);
    }

    /** The body ends within the buffer; the byte after a chunk's data makes its data callback. */
    method ChunkDataEnd(data: string, i: nat, m: Marks, ghost refs: seq<Config>) returns (j: nat, m': Marks)
      requires i < |data| && IsRun(refs, data) && Follows(refs[i], m, data, i)
      requires state.Chunk? && ReadsBody(state) && flags.chunked && 0 < contentLength < UNSET && errno == OK
      requires Budget(refs[i].count) && i + contentLength <= |data| && Exact(refs, i)
      modifies this`state, this`contentLength
      ensures i <= j < |data| && BodyRead(refs, data, i, j)
      ensures Tracks(refs[j + 1], m', data, j + 1) && refs[j + 1].last == Consume && Exact(refs, j + 1)
    {
      j := i + contentLength - 1;
      ghost var c := BodyJump(refs, data, i, j);
      BodyPending(trace, m, refs, data, i, j);
      BodyIsRead(refs, data, i, j);
      BodyCarries(refs, data, i, j);
      CarriedIsExact(refs, data, j);
      m' := SetMark(m, BodyText, i);
      contentLength := 0;
      state := Chunk(DataAlmostDone);
    }

    /** The last byte of an identity body makes its data callback and is looked at again. */
    method IdentityBodyEnd(data: string, i: nat, m: Marks, ghost refs: seq<Config>)
      returns (j: nat, m': Marks, ghost c: Config)
      requires i < |data| && IsRun(refs, data) && Follows(refs[i], m, data, i)
      requires state.BodyIdentity? && 0 < contentLength < UNSET && errno == OK
      requires Budget(refs[i].count) && i + contentLength <= |data| && Exact(refs, i)
      modifies this`state, this`contentLength, this`trace
      ensures i <= j < |data| && BodyRead(refs, data, i, j)
      ensures Midway(c, m', refs, data, j) && c.p == refs[i].p.(contentLength := 0, state := MessageDone)
    {
      j := i + contentLength - 1;
      c := BodyJump(refs, data, i, j);
      BodyPending(trace, m, refs, data, i, j);
      BodyIsRead(refs, data, i, j);
      BodyCarries(refs, data, i, j);
      contentLength := 0;
      m' := HandOverBody(data, j, SetMark(m, BodyText, i), c, refs);
    }

    method HandOverBody(data: string, j: nat, m: Marks, ghost c: Config, ghost refs: seq<Config>) returns (m': Marks)
      requires j < |data| && |refs| == |data| + 1 && Leads(c, data[j], refs[j + 1]) && errno == OK
      requires OnlyMark(m, BodyText, j + 1) && m.body.Some? && Agrees(trace, m, data, j + 1, c.trace)
      requires state.BodyIdentity? && c.p == Snapshot().(state := MessageDone) && Budget(c.count)
      requires Carried(refs, j, c.count)
      modifies this`state, this`trace
      ensures Midway(c, m', refs, data, j)
    {
      AgreesFlush(trace, m, BodyText, data, j + 1, j, c.trace);
      state := MessageDone;
      m' := CallbackData(BodyText, m, data, j + 1);
    }

    // ----- one pass through the switch ---------------------------------------------------------

    /** A pass on byte `i` is over and agrees with the reference machine. */
    ghost predicate PassDone(c: Config, m: Marks, act: Act, refs: seq<Config>, data: string, i: nat)
      requires i < |data| && |refs| == |data| + 1
      reads this
    {
      match act
      case Consume =>
        Tracks(refs[i + 1], m, data, i + 1) && refs[i + 1].last == Consume && Carried(refs, i, refs[i + 1].count)
      case Exit =>
        Tracks(refs[i + 1], m, data, i + 1) && refs[i + 1].last == Exit && Carried(refs, i, refs[i + 1].count)
      case Reexecute => Midway(c, m, refs, data, i)
      case Fail => Refuses(refs, data, i)
      case AssertionFails => false
    }

    lemma Settle(c: Config, o: Outcome, m: Marks, refs: seq<Config>, data: string, i: nat)
      requires i < |data| && |refs| == |data| + 1
      requires if o.act == Reexecute then Leads(Apply(c, o), data[i], refs[i + 1]) else refs[i + 1] == Apply(c, o)
      requires Snapshot() == o.p && Sound(o)
      requires Budget(if o.resetCount then 0 else c.count) && Carried(refs, i, if o.resetCount then 0 else c.count)
      requires o.act != Fail ==>
                 var j := if o.act == Reexecute then i else i + 1;
                 MarkInv(m, state, j) && Agrees(trace, m, data, j, EmitOption(c.trace, o.event))
      requires o.act == Fail ==> Lags(trace, c.trace)
      ensures PassDone(Apply(c, o), m, o.act, refs, data, i)
    {
    }

    /** The cases that neither set nor use a mark. */
    method UnmarkedCase(ch: char) returns (act: Act)
      requires errno == OK
      requires IsUnmarked(state) && (state.Chunk? ==> flags.chunked)
      requires state.ReqMethod? ==> index <= |MethodString(verb)|
      requires AtSizeStart(state) ==> nread == 1
      modifies this
      ensures var o := Micro(old(Snapshot()), ch); Went(o, act) && trace == old(trace) + Calls(o)
      ensures NeedsNoMark(state)
    {
      if state.Dead? || state.StartReq? {
        act := StartCase(ch);
      } else if state.ReqMethod? {
        act := MethodCase(ch);
      } else if state.Version? {
        act := VersionCase(ch);
      } else if state.HeadersAlmostDone? {
        act := HeadersAlmostDoneCase(ch);
      } else if state.HeadersDone? {
        act := HeadersDoneCase(ch);
      } else if state.MessageDone? {
        act := MessageDoneCase();
      } else if !state.Chunk? {
        act := LineEndCase(ch);
      } else if state.chunk.SizeStart? || state.chunk.Size? {
        act := ChunkSizeCase(ch);
      } else {
        act := ChunkEndCase(ch);
      }
    }

    /** A pass by one of them. */
    method UnmarkedPass(data: string, i: nat, ghost c: Config, ghost o: Outcome, ghost refs: seq<Config>)
      returns (act: Act)
      requires i < |data| && |refs| == |data| + 1 && Midway(c, NO_MARKS, refs, data, i) && errno == OK
      requires IsUnmarked(state) && (state.Chunk? ==> flags.chunked)
      requires state.ReqMethod? ==> index <= |MethodString(verb)|
      requires AtSizeStart(state) ==> nread == 1
      requires o == Micro(c.p, data[i]) && Sound(o)
      requires if o.act == Reexecute then Leads(Apply(c, o), data[i], refs[i + 1]) else refs[i + 1] == Apply(c, o)
      modifies this
      ensures unchanged(`fed, `base)
      ensures act == o.act && PassDone(Apply(c, o), NO_MARKS, act, refs, data, i)
    {
      AgreesCalls(trace, data, i, if o.act == Reexecute then i else i + 1, c.trace, o);
      AgreesLags(trace, NO_MARKS, data, i, c.trace);
      act := UnmarkedCase(data[i]);
      Settle(c, o, NO_MARKS, refs, data, i);
    }

    method UrlPass(data: string, i: nat, m: Marks, ghost c: Config, ghost o: Outcome, ghost refs: seq<Config>)
      returns (m': Marks, act: Act)
      requires i < |data| && |refs| == |data| + 1 && Midway(c, m, refs, data, i) && errno == OK
      requires state.ReqSpacesBeforeUrl? || state.Url?
      requires o == Micro(c.p, data[i]) && Sound(o)
      requires if o.act == Reexecute then Leads(Apply(c, o), data[i], refs[i + 1]) else refs[i + 1] == Apply(c, o)
      modifies this
      ensures unchanged(`fed, `base)
      ensures act == o.act && PassDone(Apply(c, o), m', act, refs, data, i)
    {
      UrlOutcome(c.p, data[i]);
      AgreesLags(trace, m, data, i, c.trace);
      if o.event.Some? {
        AgreesMark(trace, m, UrlText, data, i, c.trace);
      } else if EndsUrlAt(state, data[i]) {
        AgreesFlush(trace, m, UrlText, data, i, i + 1, c.trace);
      } else if state.ReqSpacesBeforeUrl? {
        AgreesQuiet(trace, data, i, i + 1, c.trace);
      }
      m', act := UrlCase(data, i, m);
      Settle(c, o, m', refs, data, i);
    }

    method FieldStartPass(data: string, i: nat, ghost c: Config, ghost o: Outcome, ghost refs: seq<Config>)
      returns (m': Marks, act: Act)
      requires i < |data| && |refs| == |data| + 1 && Midway(c, NO_MARKS, refs, data, i)
      requires state.HeaderFieldStart?
      requires o == Micro(c.p, data[i]) && Sound(o)
      requires if o.act == Reexecute then Leads(Apply(c, o), data[i], refs[i + 1]) else refs[i + 1] == Apply(c, o)
      modifies this
      ensures unchanged(`fed, `base)
      ensures act == o.act && PassDone(Apply(c, o), m', act, refs, data, i)
    {
      AgreesLags(trace, NO_MARKS, data, i, c.trace);
      if o.event.Some? {
        AgreesMark(trace, NO_MARKS, FieldText, data, i, c.trace);
      } else {
        AgreesQuiet(trace, data, i, if o.act == Reexecute then i else i + 1, c.trace);
      }
      m', act := FieldStartCase(data[i], i);
      Settle(c, o, m', refs, data, i);
    }

    method ValueStartPass(data: string, i: nat, ghost c: Config, ghost o: Outcome, ghost refs: seq<Config>)
      returns (m': Marks, act: Act)
      requires i < |data| && |refs| == |data| + 1 && Midway(c, NO_MARKS, refs, data, i)
      requires state.HeaderValueDiscardWs? || state.HeaderValueStart?
      requires o == Micro(c.p, data[i]) && Sound(o)
      requires if o.act == Reexecute then Leads(Apply(c, o), data[i], refs[i + 1]) else refs[i + 1] == Apply(c, o)
      modifies this
      ensures unchanged(`fed, `base)
      ensures act == o.act && PassDone(Apply(c, o), m', act, refs, data, i)
    {
      ValueStartOutcome(c.p, data[i]);
      AgreesLags(trace, NO_MARKS, data, i, c.trace);
      if o.event.Some? {
        AgreesMark(trace, NO_MARKS, ValueText, data, i, c.trace);
      } else {
        AgreesQuiet(trace, data, i, i + 1, c.trace);
      }
      if state.HeaderValueDiscardWs? {
        m', act := DiscardWsCase(data[i], i);
      } else {
        m', act := ValueStartCase(data[i], i);
      }
      Settle(c, o, m', refs, data, i);
    }

    method ChunkDataAlmostDonePass(data: string, i: nat, m: Marks, ghost c: Config, ghost o: Outcome,
                                   ghost refs: seq<Config>)
      returns (m': Marks, act: Act)
      requires i < |data| && |refs| == |data| + 1 && Midway(c, m, refs, data, i) && errno == OK
      requires state == Chunk(DataAlmostDone) && flags.chunked && contentLength == 0
      requires o == Micro(c.p, data[i]) && Sound(o)
      requires if o.act == Reexecute then Leads(Apply(c, o), data[i], refs[i + 1]) else refs[i + 1] == Apply(c, o)
      modifies this
      ensures unchanged(`fed, `base)
      ensures act == o.act && PassDone(Apply(c, o), m', act, refs, data, i)
    {
      AgreesLags(trace, m, data, i, c.trace);
      if m.body.Some? {
        AgreesFlush(trace, m, BodyText, data, i, i + 1, c.trace);
      } else {
        AgreesQuiet(trace, data, i, i + 1, c.trace);
      }
      m', act := ChunkDataAlmostDoneCase(data, i, m);
      Settle(c, o, m', refs, data, i);
    }

    /** A pass by a case that reads one byte. */
    method SinglePass(data: string, i: nat, m: Marks, ghost c: Config, ghost refs: seq<Config>)
      returns (m': Marks, act: Act, ghost c': Config)
      requires i < |data| && IsRun(refs, data) && Midway(c, m, refs, data, i)
      requires !IsScan(state) && FieldsInv(c.p) && (AtSizeStart(state) ==> nread == 1)
      requires PassKeeps(Micro(c.p, data[i]))
      modifies this
      ensures unchanged(`fed, `base)
      ensures act == Micro(c.p, data[i]).act && c' == Apply(c, Micro(c.p, data[i]))
      ensures PassDone(c', m', act, refs, data, i)
    {
      ghost var o := Micro(c.p, data[i]);
      LeadsOn(c, data[i], refs[i + 1], o);
      c' := Apply(c, o);
      if state.Url? || state.ReqSpacesBeforeUrl? {
        m', act := UrlPass(data, i, m, c, o, refs);
      } else if state.HeaderFieldStart? {
        m', act := FieldStartPass(data, i, c, o, refs);
      } else if state.HeaderValueDiscardWs? || state.HeaderValueStart? {
        m', act := ValueStartPass(data, i, c, o, refs);
      } else if state == Chunk(DataAlmostDone) {
        m', act := ChunkDataAlmostDonePass(data, i, m, c, o, refs);
      } else {
        m' := NO_MARKS;
        act := UnmarkedPass(data, i, c, o, refs);
      }
    }

    /** A pass by a case that scans. */
    method ScanPass(data: string, i: nat, m: Marks, ghost refs: seq<Config>)
      returns (j: nat, m': Marks, act: Act, ghost c: Config)
      requires i < |data| < 0x8000_0000 && IsRun(refs, data) && RunInv(refs)
      requires IsScan(state) && Follows(refs[i], m, data, i) && errno == OK
      requires FirstBudget(refs[i]) && Exact(refs, i) && Enters(refs, i)
      modifies this
      ensures unchanged(`fed, `base)
      ensures i <= j <= |data| && (act != Fail ==> j < |data|)
      ensures act == Consume || act == Reexecute || act == Fail
      ensures act == Consume ==>
                Tracks(refs[j + 1], m', data, j + 1) && refs[j + 1].last == Consume && Exact(refs, j + 1)
      ensures act == Reexecute ==> Midway(c, m', refs, data, j) && GoesOn(c, refs, data, j)
      ensures act == Reexecute ==> Rank(c.p.state) < Rank(old(state)) && NeverFails(c.p, data[j])
      ensures act != Fail ==> Clears(refs, data, i, j) && Leaves(refs, data, j)
      ensures act == Fail ==> FailedAt(refs, data, i, j)
    {
      if state.HeaderField? {
        RunInvAt(refs, i);
        j, m', act := FieldCase(data, i, m, refs);
        c := refs[i];
      } else if state.HeaderValue? {
        j, m', act, c := ValuePass(data, i, m, refs);
      } else {
        j, m', act, c := BodyPass(data, i, m, refs);
      }
    }

    /** After a jump with `goto reexecute` at `j`, cases that read one byte go on. */
    ghost predicate GoesOn(c: Config, refs: seq<Config>, data: string, j: nat)
      requires j < |data| && |refs| == |data| + 1
    {
      && FieldsInv(c.p) && !IsScan(c.p.state) && !AtSizeStart(c.p.state)
      && Running(refs[j]) && !refs[j].p.state.HeaderField? && (refs[j].p.state.HeaderValue? ==> data[j] == LF)
    }

    /** After the jump at the end of a value or a body, the byte is not refused. */
    predicate NeverFails(p: Fields, ch: char) {
      p.state.MessageDone? || (p.state.HeaderAlmostDone? && ch == LF)
    }

    lemma NeverFailsMeans(p: Fields, ch: char)
      requires NeverFails(p, ch)
      ensures Micro(p, ch).act == Consume || Micro(p, ch).act == Exit
    {
    }

    method ValuePass(data: string, i: nat, m: Marks, ghost refs: seq<Config>)
      returns (j: nat, m': Marks, act: Act, ghost c: Config)
      requires i < |data| < 0x8000_0000 && IsRun(refs, data) && RunInv(refs)
      requires state.HeaderValue? && Follows(refs[i], m, data, i) && errno == OK
      requires HeaderBudget(refs[i].count) && Exact(refs, i) && Enters(refs, i)
      modifies this
      ensures unchanged(`fed, `base)
      ensures i <= j <= |data| && (act != Fail ==> j < |data|)
      ensures act == Consume || act == Reexecute || act == Fail
      ensures act == Consume ==>
                Tracks(refs[j + 1], m', data, j + 1) && refs[j + 1].last == Consume && Exact(refs, j + 1)
      ensures act == Reexecute ==>
                && Midway(c, m', refs, data, j) && GoesOn(c, refs, data, j)
                && c.p.state.HeaderAlmostDone? && data[j] == LF
      ensures act != Fail ==> Clears(refs, data, i, j) && Leaves(refs, data, j)
      ensures act == Fail ==> FailedAt(refs, data, i, j)
    {
      RunInvAt(refs, i);
      j, m', act, c := ValueCase(data, i, m, refs);
      if act == Reexecute {
        RunInvAt(refs, j);
        ValueEndInv(refs[j].p);
      }
    }

    method BodyPass(data: string, i: nat, m: Marks, ghost refs: seq<Config>)
      returns (j: nat, m': Marks, act: Act, ghost c: Config)
      requires i < |data| && IsRun(refs, data) && RunInv(refs)
      requires ReadsBody(state) && Follows(refs[i], m, data, i) && errno == OK
      requires Budget(refs[i].count) && Exact(refs, i)
      modifies this
      ensures unchanged(`fed, `base)
      ensures i <= j < |data|
      ensures act == Consume || act == Reexecute
      ensures act == Consume ==>
                Tracks(refs[j + 1], m', data, j + 1) && refs[j + 1].last == Consume && Exact(refs, j + 1)
      ensures act == Reexecute ==>
                && Midway(c, m', refs, data, j) && GoesOn(c, refs, data, j)
                && c.p.state.MessageDone? && old(state).BodyIdentity?
      ensures Clears(refs, data, i, j) && Leaves(refs, data, j)
    {
      RunInvAt(refs, i);
      j, m', act, c := BodyCase(data, i, m, refs);
      if act == Reexecute {
        BodyEndInv(refs[i].p);
      }
    }

    /** The body of the outer loop: counts byte `i` and goes on, through the `goto reexecute` jumps
        and the inner loops, until a byte `j` is consumed. */
    method ConsumeFrom(data: string, i: nat, m: Marks, ghost refs: seq<Config>)
      returns (j: nat, m': Marks, act: Act)
      requires i < |data| < 0x8000_0000 && IsRun(refs, data) && RunInv(refs)
      requires Tracks(refs[i], m, data, i) && Exact(refs, i) && Enters(refs, i) && errno == OK
      modifies this
      ensures unchanged(`fed, `base)
      ensures i <= j <= |data| && (act != Fail ==> j < |data|)
      ensures act == Consume || act == Exit || act == Fail
      ensures act != Fail ==> Tracks(refs[j + 1], m', data, j + 1) && refs[j + 1].last == act && Exact(refs, j + 1)
      ensures act != Fail ==> Clears(refs, data, i, j) && Enters(refs, j + 1) && Running(refs[j])
      ensures act == Fail ==> FailedAt(refs, data, i, j)
    {
      if ParsingHeader(state) {
        var ok := CountHeaderSize(1);
        if !ok {
          AgreesLags(trace, m, data, i, refs[i].trace);
          FirstLacksRoom(refs, i);
          OverflowFails(refs, data, i);
          return i, m, Fail;
        }
      }
      ghost var c;
      j, m', act, c := FirstPass(data, i, m, refs);
      if act == Reexecute {
        m', act := Reexecutions(data, j, m', c, refs);
        if act == Fail {
          SingleRefuses(refs, data, i);
          return i, m', Fail;
        }
        CarriedIsExact(refs, data, j);
      }
      if act != Fail {
        EntersNext(refs, data, j);
      }
    }

    /** The byte at `i` overruns the limit. */
    lemma FirstLacksRoom(refs: seq<Config>, i: nat)
      requires i < |refs| - 1 && ParsingHeader(refs[i].p.state) && Exact(refs, i)
      requires HTTP_MAX_HEADER_SIZE <= refs[i].count + surplus
      ensures !HasRoom(refs, i, base)
    {
      assert Unfold(0);
    }

    /** The first pass on a byte, which is counted already. */
    method FirstPass(data: string, i: nat, m: Marks, ghost refs: seq<Config>)
      returns (j: nat, m': Marks, act: Act, ghost c: Config)
      requires i < |data| < 0x8000_0000 && IsRun(refs, data) && RunInv(refs)
      requires Follows(refs[i], m, data, i) && FirstBudget(refs[i]) && Exact(refs, i) && Enters(refs, i)
      requires errno == OK
      modifies this
      ensures unchanged(`fed, `base)
      ensures i <= j <= |data| && (act != Fail ==> j < |data|)
      ensures act != AssertionFails
      ensures act == Consume || act == Exit ==>
                Tracks(refs[j + 1], m', data, j + 1) && refs[j + 1].last == act && Exact(refs, j + 1)
      ensures act == Reexecute ==> Midway(c, m', refs, data, j) && GoesOn(c, refs, data, j)
      ensures act == Reexecute ==> NeverFails(c.p, data[j]) || (j == i && !IsScan(refs[i].p.state))
      ensures act != Fail ==> Clears(refs, data, i, j) && Leaves(refs, data, j)
      ensures act == Fail ==> FailedAt(refs, data, i, j)
    {
      if IsScan(state) {
        j, m', act, c := ScanPass(data, i, m, refs);
      } else {
        j := i;
        m', act, c := FirstSinglePass(data, i, m, refs);
      }
    }

    method FirstSinglePass(data: string, i: nat, m: Marks, ghost refs: seq<Config>)
      returns (m': Marks, act: Act, ghost c: Config)
      requires i < |data| && IsRun(refs, data) && RunInv(refs) && !IsScan(state)
      requires Follows(refs[i], m, data, i) && FirstBudget(refs[i]) && Exact(refs, i)
      modifies this
      ensures unchanged(`fed, `base)
      ensures act != AssertionFails
      ensures act == Consume || act == Exit ==>
                Tracks(refs[i + 1], m', data, i + 1) && refs[i + 1].last == act && Exact(refs, i + 1)
      ensures act == Reexecute ==> Midway(c, m', refs, data, i) && GoesOn(c, refs, data, i)
      ensures Clears(refs, data, i, i) && Leaves(refs, data, i)
      ensures act == Fail ==> FailedAt(refs, data, i, i)
    {
      RunInvAt(refs, i);
      LeadsFirst(refs, data, i);
      c := Counted(refs[i]);
      PassIsSound(c.p, data[i]);
      ReexecuteDecreasesRank(c.p, data[i]);
      SingleClears(refs, data, i);
      ExactIsCarried(refs, i, c.count);
      m', act, c := SinglePass(data, i, m, c, refs);
      if act == Consume || act == Exit {
        CarriedIsExact(refs, data, i);
      } else if act == Fail {
        SingleRefuses(refs, data, i);
      }
    }

    lemma SingleClears(refs: seq<Config>, data: string, i: nat)
      requires i < |data| && |refs| == |data| + 1 && Running(refs[i]) && !IsScan(refs[i].p.state)
      requires Exact(refs, i) && FirstBudget(refs[i])
      ensures Clears(refs, data, i, i) && Leaves(refs, data, i)
    {
      assert Unfold(0);
      QuietStart(refs, data, i, base, lenient);
    }

    /** `goto reexecute`, until the byte is consumed or refused. */
    method Reexecutions(data: string, j: nat, m: Marks, ghost c: Config, ghost refs: seq<Config>)
      returns (m': Marks, act: Act)
      requires j < |data| && |refs| == |data| + 1 && IsRun(refs, data)
      requires Midway(c, m, refs, data, j) && GoesOn(c, refs, data, j)
      modifies this
      ensures unchanged(`fed, `base)
      ensures act == Consume || act == Exit || act == Fail
      ensures PassDone(c, m', act, refs, data, j) && (NeverFails(c.p, data[j]) ==> act != Fail)
    {
      m', act := m, Reexecute;
      ghost var c' := c;
      while act == Reexecute
        invariant act != AssertionFails && PassDone(c', m', act, refs, data, j)
        invariant act == Reexecute ==> GoesOn(c', refs, data, j)
        invariant NeverFails(c.p, data[j]) ==> act != Fail && (act == Reexecute ==> c' == c)
        invariant unchanged(`fed, `base)
        decreases if act == Reexecute then 1 + Rank(c'.p.state) else 0
      {
        PassIsSound(c'.p, data[j]);
        ReexecuteDecreasesRank(c'.p, data[j]);
        if NeverFails(c'.p, data[j]) {
          NeverFailsMeans(c'.p, data[j]);
        }
        m', act, c' := SinglePass(data, j, m', c', refs);
      }
    }

    // ----- http_parser_execute -----------------------------------------------------------------

    /** Where the reference machine is after every byte consumed so far. */
    ghost function Reference(): Config
      reads this
    {
      Feed(Start(lenient), fed)
    }

    /** As long as no error is reported, this object is where the reference machine is, its callbacks
        are the reference trace once joined, and nread is the number of header bytes and the surplus. */
    ghost predicate Valid()
      reads this
    {
      errno == OK ==> Landed(Reference())
    }

    /** Between buffers, this object is where the reference machine is at `r`. */
    ghost predicate Landed(r: Config)
      reads this
    {
      Running(r) && Snapshot() == r.p && Join(trace) == r.trace && Budget(r.count)
    }

    /** What a call on a buffer that is not empty consumed, when it reports no error: all of it, or up
        to the first byte that ends a message and hands over to another protocol.  Every byte may pass, and the
        surplus is what the run makes it. */
    ghost predicate Consumed(refs: seq<Config>, data: string, n: nat)
      requires |refs| == |data| + 1
      reads this
    {
      && 0 < n <= |data|
      && Reference() == refs[n]
      && Cleared(refs, data, 0, n - 1, base, lenient)
      && Exact(refs, n)
      && (n < |data| ==> refs[n].last == Exit)
      && (n == |data| ==> HasRoom(refs, n, base))
    }

    method Execute(data: string) returns (n: nat)
      requires Valid() && |data| < 0x8000_0000
      modifies this
      ensures Valid()
      ensures old(errno) != OK ==> n == 0 && unchanged(this)
      ensures old(errno) == OK && data == [] ==>
                if state.Dead? || state.StartReq? then n == 0 && unchanged(this)
                else n == 1 && Snapshot() == old(Snapshot()).(errno := InvalidEofState) && trace == old(trace)
      ensures old(errno) == OK && data != [] ==>
                var refs := RunOf(old(Reference()), data);
                && base == old(surplus)
                && (if errno == OK then n <= |data| && fed == old(fed) + data[..n] && Consumed(refs, data, n)
                    else fed == old(fed) && Failure(refs, data, n))
    {
      if errno != OK {
        return 0;
      }
      if |data| == 0 {
        if state.Dead? || state.StartReq? {
          return 0;
        }
        errno := InvalidEofState;
        return 1;
      }
      n := ExecuteData(data);
    }

    /** A call on a buffer that is not empty. */
    method ExecuteData(data: string) returns (n: nat)
      requires Valid() && 0 < |data| < 0x8000_0000 && errno == OK
      modifies this
      ensures Valid() && base == old(surplus)
      ensures var refs := RunOf(old(Reference()), data);
              if errno == OK then n <= |data| && fed == old(fed) + data[..n] && Consumed(refs, data, n)
              else fed == old(fed) && Failure(refs, data, n)
    {
      ghost var refs := RunOf(Reference(), data);
      RunOfIsRun(Reference(), data);
      ReachableRunInv(lenient, fed, data);
      assert data[..0] == [];
      base := surplus;
      n := ExecuteBuffer(data, refs);
      if errno != OK {
        FailureIs(refs, data, n);
      } else {
        DoneMeans(refs, data, n);
        FeedConcat(Start(lenient), fed, data[..n]);
        fed := fed + data[..n];
      }
    }

    /** The outer loop is at position `n`: so far this object is where the reference machine is. */
    ghost predicate Stands(refs: seq<Config>, m: Marks, data: string, n: nat)
      requires |refs| == |data| + 1 && n <= |data|
      reads this
    {
      forall key {:trigger Uncover(key)} :: Uncover(key) ==>
        && Tracks(refs[n], m, data, n) && Exact(refs, n) && Enters(refs, n)
        && Quiet(refs, data, 0, n, base, lenient)
    }

    /** The buffer has been consumed up to position `n`. */
    ghost predicate Done(refs: seq<Config>, data: string, n: nat)
      requires |refs| == |data| + 1
      reads this
    {
      forall key {:trigger Uncover(key)} :: Uncover(key) ==>
        && 0 < n <= |data| && Landed(refs[n]) && Exact(refs, n) && Clears(refs, data, 0, n - 1)
        && (n < |data| ==> refs[n].last == Exit)
        && (n == |data| ==> HasRoom(refs, n, base))
    }

    /** The outer loop, and the callbacks for what is pending at the end of the buffer. */
    method ExecuteBuffer(data: string, ghost refs: seq<Config>) returns (n: nat)
      requires 0 < |data| < 0x8000_0000 && IsRun(refs, data) && RunInv(refs)
      requires Landed(refs[0]) && errno == OK && base == surplus
      modifies this
      ensures unchanged(`fed, `base)
      ensures errno != OK ==> Failed(refs, data, n)
      ensures errno == OK ==> Done(refs, data, n)
    {
      var m := InitialMarks(state);
      StandsFirst(m, refs, data);
      n := 0;
      while n < |data|
        invariant 0 <= n <= |data| && Stands(refs, m, data, n) && errno == OK && unchanged(`fed, `base)
        decreases |data| - n
      {
        var act;
        n, m, act := OuterStep(data, n, m, refs);
        if act != Consume {
          return n;
        }
      }
      FinishBuffer(data, m, refs);
    }

    lemma StandsFirst(m: Marks, refs: seq<Config>, data: string)
      requires 0 < |data| && |refs| == |data| + 1 && RunInv(refs) && Landed(refs[0]) && base == surplus
      requires m == InitialMarks(state)
      ensures Stands(refs, m, data, 0)
    {
      StartAgrees(trace, refs, data);
      QuietStart(refs, data, 0, base, lenient);
    }

    method FinishBuffer(data: string, m: Marks, ghost refs: seq<Config>)
      requires 0 < |data| && |refs| == |data| + 1 && Stands(refs, m, data, |data|) && errno == OK
      modifies this`trace
      ensures Done(refs, data, |data|)
    {
      assert Uncover(0);
      QuietClears(refs, data, 0, |data|, base, lenient);
      RoomAtEnd(refs, |data|);
      EndOfBuffer(data, m, refs);
    }

    lemma DoneMeans(refs: seq<Config>, data: string, n: nat)
      requires |refs| == |data| + 1 && Done(refs, data, n)
      ensures 0 < n <= |data| && Landed(refs[n]) && Exact(refs, n) && Clears(refs, data, 0, n - 1)
      ensures n < |data| ==> refs[n].last == Exit
      ensures n == |data| ==> HasRoom(refs, n, base)
    {
      assert Uncover(0);
    }

    /** There is room at the end of a buffer that has passed. */
    lemma RoomAtEnd(refs: seq<Config>, n: nat)
      requires 0 < n < |refs| && Exact(refs, n) && Budget(refs[n].count)
      ensures n == |refs| - 1 ==> HasRoom(refs, n, base)
    {
      assert Unfold(0);
    }

    /** One turn of the outer loop. */
    method OuterStep(data: string, i: nat, m: Marks, ghost refs: seq<Config>) returns (n: nat, m': Marks, act: Act)
      requires i < |data| < 0x8000_0000 && IsRun(refs, data) && RunInv(refs)
      requires Stands(refs, m, data, i) && errno == OK
      modifies this
      ensures unchanged(`fed, `base)
      ensures act == Consume || act == Exit || act == Fail
      ensures act == Fail ==> Failed(refs, data, n) && errno != OK
      ensures act != Fail ==> i < n <= |data| && errno == OK
      ensures act == Consume ==> Stands(refs, m', data, n)
      ensures act == Exit ==> Done(refs, data, n)
    {
      StandsMeans(refs, m, data, i);
      n, m', act := ConsumeFrom(data, i, m, refs);
      if act == Fail {
        FailedIsError(refs, data, i, n);
        return;
      }
      TurnIsOver(refs, m', data, i, n, act);
      n := n + 1;
    }

    lemma TurnIsOver(refs: seq<Config>, m: Marks, data: string, i: nat, j: nat, act: Act)
      requires IsRun(refs, data) && RunInv(refs) && i <= j < |data| && Quiet(refs, data, 0, i, base, lenient)
      requires Tracks(refs[j + 1], m, data, j + 1) && Exact(refs, j + 1) && Enters(refs, j + 1) && Running(refs[j])
      requires Clears(refs, data, i, j) && refs[j + 1].last == act && (act == Consume || act == Exit)
      ensures errno == OK
      ensures if act == Consume then Stands(refs, m, data, j + 1) else Done(refs, data, j + 1)
    {
      RunningIsOK(refs, j + 1);
      if act == Consume {
        StandsNext(refs, m, data, i, j);
      } else {
        ExitLands(data, j, m, refs);
        RoomAtEnd(refs, j + 1);
        IsDone(refs, data, i, j);
      }
    }

    lemma StandsMeans(refs: seq<Config>, m: Marks, data: string, n: nat)
      requires |refs| == |data| + 1 && n <= |data| && Stands(refs, m, data, n)
      ensures Tracks(refs[n], m, data, n) && Exact(refs, n) && Enters(refs, n)
      ensures Quiet(refs, data, 0, n, base, lenient)
    {
      assert Uncover(0);
    }

    lemma StandsNext(refs: seq<Config>, m: Marks, data: string, i: nat, j: nat)
      requires |refs| == |data| + 1 && i <= j < |data| && Quiet(refs, data, 0, i, base, lenient)
      requires Tracks(refs[j + 1], m, data, j + 1) && Exact(refs, j + 1) && Enters(refs, j + 1)
      requires Clears(refs, data, i, j) && refs[j + 1].last == Consume
      ensures Stands(refs, m, data, j + 1)
    {
      QuietJoin(refs, data, i, j, base, lenient);
    }

    lemma IsDone(refs: seq<Config>, data: string, i: nat, j: nat)
      requires |refs| == |data| + 1 && i <= j < |data| && Quiet(refs, data, 0, i, base, lenient)
      requires Landed(refs[j + 1]) && Exact(refs, j + 1)
      requires j + 1 == |data| ==> HasRoom(refs, j + 1, base)
      requires Clears(refs, data, i, j) && refs[j + 1].last == Exit
      ensures Done(refs, data, j + 1)
    {
      QuietJoin(refs, data, i, j, base, lenient);
    }

    /** Execute returns early only between messages, where nothing is pending. */
    lemma ExitLands(data: string, i: nat, m: Marks, refs: seq<Config>)
      requires i < |data| && IsRun(refs, data) && RunInv(refs) && Running(refs[i])
      requires Tracks(refs[i + 1], m, data, i + 1) && refs[i + 1].last == Exit
      ensures Landed(refs[i + 1]) && errno == OK
    {
      RunningIsOK(refs, i + 1);
      ExitEndsMessage(refs, data, i);
      NothingPending(trace, data, i + 1, refs[i + 1].trace);
    }

    /** The callbacks for marks that are left over at the end of the buffer. */
    method EndOfBuffer(data: string, m: Marks, ghost refs: seq<Config>)
      requires |refs| == |data| + 1 && Tracks(refs[|data|], m, data, |data|) && errno == OK
      modifies this`trace
      ensures Join(trace) == refs[|data|].trace
    {
      ghost var k := KindOf(state);
      assert OnlyMark(m, k, |data|);  // at most one mark is set
      ghost var t := refs[|data|].trace;
      if MarkOf(m, k).Some? {
        AgreesFlush(trace, m, k, data, |data|, |data|, t);
      }
      var m' := CallbackData(FieldText, m, data, |data|);
      m' := CallbackData(ValueText, m', data, |data|);
      m' := CallbackData(UrlText, m', data, |data|);
      m' := CallbackData(BodyText, m', data, |data|);
      NothingPending(trace, data, |data|, t);
    }


    lemma FailureIs(refs: seq<Config>, data: string, n: nat)
      requires |refs| == |data| + 1 && Failed(refs, data, n)
      ensures Failure(refs, data, n)
    {
      assert Uncover(0);
    }

    /** A turn to which all bytes have passed, and which fails. */
    lemma FailedIsError(refs: seq<Config>, data: string, i: nat, n: nat)
      requires |refs| == |data| + 1 && i < |data| && FailedAt(refs, data, i, n)
      requires Enters(refs, i) && Quiet(refs, data, 0, i, base, lenient)
      ensures errno != OK && Failed(refs, data, n)
    {
      assert Uncover(0);
      var why :| TurnFailed(refs, data, i, n, why);
      assert FailedFrom(refs, data, i, n, why);
    }

    /** The header-size limit on the first byte of a turn. */
    lemma OverflowFails(refs: seq<Config>, data: string, i: nat)
      requires |refs| == |data| + 1 && i < |data| && errno == HeaderOverflow && !HasRoom(refs, i, base)
      requires Lags(trace, refs[i].trace)
      ensures FailedAt(refs, data, i, i)
    {
      ScannedNothing(refs, data, i, lenient);
      assert TurnFailed(refs, data, i, i, NoRoom);
    }

    /** A scan from `i` that overruns the limit at `j`. */
    lemma ScanOverflows(refs: seq<Config>, data: string, i: nat, j: nat, k: DataKind, n: nat)
      requires i <= j <= n <= |data| && i < |data| && |refs| == |data| + 1 && Stride(refs, data, i, j, k, true)
      requires IsScanned(refs[i].p.state) && HasRoom(refs, i, base) && Checked(refs, data, i, j, lenient)
      requires Exact(refs, i) && HTTP_MAX_HEADER_SIZE <= refs[j].count + surplus
      requires ScanExtent(refs, data, i) == Extent(n, j) && errno == HeaderOverflow && Lags(trace, refs[j].trace)
      ensures FailedAt(refs, data, i, n)
    {
      assert Unfold(0);
      ScanHasNoRoom(refs, data, i, j, k, base);
      StrideIsScanned(refs, data, i, j, k, lenient);
      assert TurnFailed(refs, data, i, n, NoRoom);
    }

    /** A byte at `j` of a header value that is scanned from `i`. */
    lemma ValueRefuses(refs: seq<Config>, data: string, i: nat, j: nat)
      requires |refs| == |data| + 1 && i <= j < |data| && Stride(refs, data, i, j, ValueText, true)
      requires refs[i].p.state.HeaderValue? && HasRoom(refs, i, base) && Checked(refs, data, i, j, lenient)
      requires j < ValueExtent(refs, data, i).clear && ValueRefused(refs, data, j) && Lags(trace, refs[j].trace)
      ensures FailedAt(refs, data, i, j)
    {
      StrideIsScanned(refs, data, i, j, ValueText, lenient);
      if RefusedHere(refs, data, j) {
        assert TurnFailed(refs, data, i, j, BadChar);
      } else {
        assert TurnFailed(refs, data, i, j, Refused);
      }
    }

    /** The byte at `j` behind the token bytes of a field name. */
    lemma FieldRefuses(refs: seq<Config>, data: string, i: nat, j: nat)
      requires |refs| == |data| + 1 && i <= j < |data| && Stride(refs, data, i, j, FieldText, true)
      requires refs[i].p.state.HeaderField? && HasRoom(refs, i, base) && Checked(refs, data, i, j, lenient)
      requires FieldStop(data, i) == j && Clears(refs, data, i, j) && Running(refs[j]) && refs[j].p.state.HeaderField?
      requires RefusedByReference(refs[j + 1]) && Lags(trace, refs[j + 1].trace)
      ensures FailedAt(refs, data, i, j)
    {
      StrideIsScanned(refs, data, i, j, FieldText, lenient);
      assert Unfold(0);
      assert TurnFailed(refs, data, i, j, Refused);
    }

    /** A byte that is not scanned. */
    lemma SingleRefuses(refs: seq<Config>, data: string, i: nat)
      requires |refs| == |data| + 1 && i < |data| && Running(refs[i]) && !IsScan(refs[i].p.state)
      requires Clears(refs, data, i, i) && Refuses(refs, data, i)
      ensures FailedAt(refs, data, i, i)
    {
      assert Unfold(0) && Uncover(0);
      ScannedNothing(refs, data, i, lenient);
      assert TurnFailed(refs, data, i, i, Refused);
    }
  }
}
