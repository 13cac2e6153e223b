/** Where a run over one buffer may stop: the header-size limit, and the bytes of header values that are
    looked at. */
module Limits {
  import opened Ascii
  import opened HttpTypes
  import opened ByteMachine
  import opened Tracking

  /** What nread is beyond the number of header bytes at position `k`, when it is `surplus` at the start of
      the buffer: it starts again with the count. */
  function Since(refs: seq<Config>, k: nat, surplus: nat): nat
    requires k < |refs|
  {
    if k == 0 then surplus else if refs[k].count == 0 then 0 else Since(refs, k - 1, surplus)
  }

  /** The byte between two states is scanned inside a header field or value. */
  predicate Inside(a: State, b: State) {
    (a.HeaderField? && b.HeaderField?) || (a.HeaderValue? && b.HeaderValue?)
  }

  /** The buffer ends inside a header field or value, which counts one byte twice. */
  predicate EndsInside(refs: seq<Config>) {
    |refs| > 1 && Inside(refs[|refs| - 2].p.state, refs[|refs| - 1].p.state)
  }

  function SurplusAt(refs: seq<Config>, k: nat, surplus: nat): nat
    requires k < |refs|
  {
    Since(refs, k, surplus) + if k == |refs| - 1 && EndsInside(refs) then 1 else 0
  }

  /** IS_HEADER_CHAR is applied to the byte at `k`: it is in a header value, and it is the first one in the
      buffer, follows the start of the value, or follows a byte that was not read in state h_general. */
  predicate Looks(refs: seq<Config>, k: nat)
    requires k < |refs|
  {
    && refs[k].p.state.HeaderValue?
    && (k == 0 || !(refs[k - 1].p.state.HeaderValue? && refs[k - 1].p.headerState.General?))
  }

  /** The header-size limit lets the byte at `k` pass, or the end of a buffer inside a header. */
  predicate HasRoom(refs: seq<Config>, k: nat, surplus: nat)
    requires k < |refs|
  {
    ParsingHeader(refs[k].p.state) && (k < |refs| - 1 || EndsInside(refs)) ==>
      refs[k].count + Since(refs, k, surplus) < HTTP_MAX_HEADER_SIZE
  }

  /** So does IS_HEADER_CHAR. */
  predicate MayPass(refs: seq<Config>, data: string, k: nat, surplus: nat, lenient: bool)
    requires |refs| == |data| + 1 && k <= |data|
  {
    HasRoom(refs, k, surplus) && (k < |data| && Looks(refs, k) ==> lenient || IsHeaderChar(data[k]))
  }

  /** The byte at `x` passes, and does not end a message with a return from Execute. */
  predicate Passes(refs: seq<Config>, data: string, x: nat, surplus: nat, lenient: bool)
    requires |refs| == |data| + 1 && x < |data|
  {
    refs[x + 1].last == Consume && MayPass(refs, data, x, surplus, lenient)
  }

  /** The bytes from `i` to `j` pass. */
  ghost predicate Quiet(refs: seq<Config>, data: string, i: nat, j: nat, surplus: nat, lenient: bool)
    requires |refs| == |data| + 1 && j <= |data|
  {
    forall key {:trigger Unfold(key)} :: Unfold(key) ==>
      forall x {:trigger Passes(refs, data, x, surplus, lenient)} :: i <= x < j ==>
        Passes(refs, data, x, surplus, lenient)
  }

  /** And the byte at `j` passes too. */
  ghost predicate Cleared(refs: seq<Config>, data: string, i: nat, j: nat, surplus: nat, lenient: bool)
    requires |refs| == |data| + 1
  {
    j < |data| && Quiet(refs, data, i, j, surplus, lenient) &&
    forall key {:trigger Unfold(key)} :: Unfold(key) ==> MayPass(refs, data, j, surplus, lenient)
  }

  lemma QuietStart(refs: seq<Config>, data: string, i: nat, surplus: nat, lenient: bool)
    requires |refs| == |data| + 1 && i <= |data|
    ensures Quiet(refs, data, i, i, surplus, lenient)
  {
  }

  lemma QuietJoin(refs: seq<Config>, data: string, i: nat, j: nat, surplus: nat, lenient: bool)
    requires |refs| == |data| + 1 && i <= j < |data| && Quiet(refs, data, 0, i, surplus, lenient)
    requires Cleared(refs, data, i, j, surplus, lenient)
    ensures Cleared(refs, data, 0, j, surplus, lenient)
    ensures refs[j + 1].last == Consume ==> Quiet(refs, data, 0, j + 1, surplus, lenient)
  {
    assert Unfold(0);
  }

  /** The bytes from `i` to `j` that are looked at pass IS_HEADER_CHAR. */
  ghost predicate Checked(refs: seq<Config>, data: string, i: nat, j: nat, lenient: bool)
    requires |refs| == |data| + 1 && j <= |data|
  {
    forall key {:trigger Unfold(key)} :: Unfold(key) ==>
      forall x :: i <= x < j && Looks(refs, x) ==> lenient || IsHeaderChar(data[x])
  }

  // ----- strides -----------------------------------------------------------------------------------

  /** Scanned header bytes carry the surplus along. */
  lemma {:induction false} StrideSince(refs: seq<Config>, data: string, i: nat, j: nat, k: DataKind, surplus: nat)
    requires i <= j <= |data| && |refs| == |data| + 1 && Stride(refs, data, i, j, k, true)
    ensures Since(refs, j, surplus) == Since(refs, i, surplus)
    decreases j
  {
    if i < j {
      StrideStep(refs, data, i, j, k, true);
      StrideSince(refs, data, i, j - 1, k, surplus);
    }
  }

  /** So do body bytes, or there is none. */
  lemma {:induction false} BodySince(refs: seq<Config>, data: string, i: nat, j: nat, surplus: nat)
    requires i <= j <= |data| && |refs| == |data| + 1 && Stride(refs, data, i, j, BodyText, false)
    ensures Since(refs, j, surplus) == Since(refs, i, surplus) || (refs[i].count == 0 && Since(refs, j, surplus) == 0)
    decreases j
  {
    if i < j {
      StrideStep(refs, data, i, j, BodyText, false);
      StrideEnd(refs, data, i, j, BodyText, false);
      BodySince(refs, data, i, j - 1, surplus);
    }
  }

  /** Room at the end of scanned header bytes is room on the way. */
  lemma StrideIsQuiet(refs: seq<Config>, data: string, i: nat, j: nat, k: DataKind, surplus: nat, lenient: bool)
    requires i <= j <= |data| && |refs| == |data| + 1 && Stride(refs, data, i, j, k, true)
    requires Checked(refs, data, i, j, lenient)
    requires refs[j].count + Since(refs, i, surplus) <= HTTP_MAX_HEADER_SIZE
    ensures Quiet(refs, data, i, j, surplus, lenient)
  {
    forall x | i <= x < j
      ensures Passes(refs, data, x, surplus, lenient)
    {
      StrideByte(refs, data, i, j, k, x, surplus);
      assert Looks(refs, x) ==> lenient || IsHeaderChar(data[x]) by {
        assert Unfold(0);
      }
    }
  }

  lemma {:induction false} StrideByte(refs: seq<Config>, data: string, i: nat, j: nat, k: DataKind, x: nat,
                                      surplus: nat)
    requires i <= x < j <= |data| && |refs| == |data| + 1 && Stride(refs, data, i, j, k, true)
    ensures refs[x + 1].last == Consume && refs[x].count < refs[j].count
    ensures Since(refs, x, surplus) == Since(refs, i, surplus)
  {
    StridePart(refs, data, i, j, k, true, x);
    StridePart(refs, data, i, j, k, true, x + 1);
    StrideEnd(refs, data, i, x, k, true);
    StrideEnd(refs, data, i, x + 1, k, true);
    StrideEnd(refs, data, i, j, k, true);
    StrideSince(refs, data, i, x, k, surplus);
  }

  lemma StridePart(refs: seq<Config>, data: string, i: nat, j: nat, k: DataKind, counted: bool, x: nat)
    requires i <= x <= j <= |data| && |refs| == |data| + 1 && Stride(refs, data, i, j, k, counted)
    ensures Stride(refs, data, i, x, k, counted)
  {
  }

  /** Where no header value is read, nothing is looked at. */
  lemma NothingLookedAt(refs: seq<Config>, data: string, i: nat, j: nat, k: DataKind, counted: bool, lenient: bool)
    requires i <= j <= |data| && |refs| == |data| + 1 && Stride(refs, data, i, j, k, counted)
    requires !refs[i].p.state.HeaderValue?
    ensures Checked(refs, data, i, j, lenient)
  {
    forall x | i <= x < j
      ensures !refs[x].p.state.HeaderValue?
    {
      StridePart(refs, data, i, j, k, counted, x);
      StrideEnd(refs, data, i, x, k, counted);
    }
  }

  lemma BodyIsQuiet(refs: seq<Config>, data: string, i: nat, j: nat, surplus: nat, lenient: bool)
    requires i <= j <= |data| && |refs| == |data| + 1 && Stride(refs, data, i, j, BodyText, false)
    requires ReadsBody(refs[i].p.state)
    ensures Quiet(refs, data, i, j, surplus, lenient)
  {
    forall x | i <= x < j
      ensures Passes(refs, data, x, surplus, lenient)
    {
      StridePart(refs, data, i, j, BodyText, false, x);
      StridePart(refs, data, i, j, BodyText, false, x + 1);
      StrideEnd(refs, data, i, x, BodyText, false);
      StrideEnd(refs, data, i, x + 1, BodyText, false);
    }
  }

  // ----- single bytes ------------------------------------------------------------------------------

  /** A line end leads out of a header value. */
  lemma LineEndLeaves(refs: seq<Config>, data: string, i: nat)
    requires IsRun(refs, data) && i < |data| && Running(refs[i]) && refs[i].p.state.HeaderValue?
    requires data[i] == CR || data[i] == LF
    ensures !refs[i + 1].p.state.HeaderValue?
  {
    var c := ValueEnd(refs, data, i);
    if data[i] == LF {
      LeadsOn(c, LF, refs[i + 1], Micro(c.p, LF));
    }
  }

  /** A turn of the outer loop does not start in the middle of a field name or value that has been scanned. */
  predicate Enters(refs: seq<Config>, i: nat)
    requires i < |refs|
  {
    i == 0 || i == |refs| - 1 || !Inside(refs[i - 1].p.state, refs[i].p.state)
  }

  /** Nor does a turn of the outer loop that ends at `j` lead there. */
  predicate Leaves(refs: seq<Config>, data: string, j: nat)
    requires |refs| == |data| + 1 && j < |data|
  {
    && Running(refs[j])
    && (refs[j].p.state.HeaderField? ==> j + 1 == |data| || !IsToken(data[j]))
    && (refs[j].p.state.HeaderValue? ==> j + 1 == |data| || data[j] == CR || data[j] == LF)
  }

  lemma EntersNext(refs: seq<Config>, data: string, j: nat)
    requires IsRun(refs, data) && j < |data| && Leaves(refs, data, j) && Running(refs[j + 1])
    ensures Enters(refs, j + 1)
  {
    if j + 1 < |data| {
      if refs[j].p.state.HeaderValue? {
        LineEndLeaves(refs, data, j);
      } else if refs[j].p.state.HeaderField? {
        FieldEnd(refs, data, j);
      }
    }
  }

  // ----- the ends of scans -------------------------------------------------------------------------

  lemma ScanEndsInside(refs: seq<Config>, data: string, i: nat, k: DataKind)
    requires i < |data| && |refs| == |data| + 1 && Stride(refs, data, i, |data|, k, true)
    requires refs[i].p.state.HeaderField? || refs[i].p.state.HeaderValue?
    ensures EndsInside(refs)
  {
    StridePart(refs, data, i, |data|, k, true, |data| - 1);
    StrideEnd(refs, data, i, |data| - 1, k, true);
    StrideEnd(refs, data, i, |data|, k, true);
  }

  /** A scan from `i` to `j` that overruns the limit. */
  lemma ScanHasNoRoom(refs: seq<Config>, data: string, i: nat, j: nat, k: DataKind, surplus: nat)
    requires i <= j <= |data| && i < |data| && |refs| == |data| + 1 && Stride(refs, data, i, j, k, true)
    requires refs[i].p.state.HeaderField? || refs[i].p.state.HeaderValue?
    requires HTTP_MAX_HEADER_SIZE <= refs[j].count + Since(refs, i, surplus)
    ensures !HasRoom(refs, j, surplus)
  {
    StrideEnd(refs, data, i, j, k, true);
    StrideSince(refs, data, i, j, k, surplus);
    if j == |data| {
      ScanEndsInside(refs, data, i, k);
    }
  }

  /** A scan from `i` to `j` that does not, and the byte that ends it. */
  lemma ScanClears(refs: seq<Config>, data: string, i: nat, j: nat, k: DataKind, surplus: nat, lenient: bool)
    requires i <= j < |data| && |refs| == |data| + 1 && Stride(refs, data, i, j, k, true)
    requires Checked(refs, data, i, j, lenient) && (Looks(refs, j) ==> lenient || IsHeaderChar(data[j]))
    requires refs[j].count + Since(refs, i, surplus) < HTTP_MAX_HEADER_SIZE
    ensures Cleared(refs, data, i, j, surplus, lenient)
  {
    StrideIsQuiet(refs, data, i, j, k, surplus, lenient);
    StrideSince(refs, data, i, j, k, surplus);
  }

  lemma QuietClears(refs: seq<Config>, data: string, i: nat, j: nat, surplus: nat, lenient: bool)
    requires i < j <= |data| && |refs| == |data| + 1 && Quiet(refs, data, i, j, surplus, lenient)
    ensures Cleared(refs, data, i, j - 1, surplus, lenient)
  {
    forall key | Unfold(key)
      ensures MayPass(refs, data, j - 1, surplus, lenient)
    {
      assert Passes(refs, data, j - 1, surplus, lenient);
    }
  }

  /** A scan to the end of the buffer. */
  lemma ScanClearsAll(refs: seq<Config>, data: string, i: nat, k: DataKind, surplus: nat, lenient: bool)
    requires i < |data| && |refs| == |data| + 1 && Stride(refs, data, i, |data|, k, true)
    requires Checked(refs, data, i, |data|, lenient)
    requires refs[|data|].count + Since(refs, i, surplus) <= HTTP_MAX_HEADER_SIZE
    ensures Cleared(refs, data, i, |data| - 1, surplus, lenient)
  {
    StrideIsQuiet(refs, data, i, |data|, k, surplus, lenient);
    QuietClears(refs, data, i, |data|, surplus, lenient);
  }

  lemma ScanLeaves(refs: seq<Config>, data: string, i: nat, k: DataKind)
    requires i < |data| && |refs| == |data| + 1 && Stride(refs, data, i, |data|, k, true) && Running(refs[i])
    ensures Leaves(refs, data, |data| - 1)
  {
    StridePart(refs, data, i, |data|, k, true, |data| - 1);
    StrideEnd(refs, data, i, |data| - 1, k, true);
  }

  lemma BodyClears(refs: seq<Config>, data: string, i: nat, j: nat, surplus: nat, lenient: bool)
    requires i <= j < |data| && |refs| == |data| + 1 && Stride(refs, data, i, j, BodyText, false)
    requires ReadsBody(refs[i].p.state)
    ensures Cleared(refs, data, i, j, surplus, lenient)
  {
    BodyIsQuiet(refs, data, i, j, surplus, lenient);
    StrideEnd(refs, data, i, j, BodyText, false);
  }

  /** In a jump over a header value only the first byte is looked at. */
  lemma JumpChecked(refs: seq<Config>, data: string, i: nat, j: nat, lenient: bool)
    requires IsRun(refs, data) && i < j <= |data| && Running(refs[i])
    requires refs[i].p.state.HeaderValue? && refs[i].p.headerState.General?
    requires forall k :: i <= k < j ==> data[k] != CR && data[k] != LF
    requires lenient || IsHeaderChar(data[i])
    ensures Checked(refs, data, i, j, lenient)
  {
    forall x | i < x < j
      ensures !Looks(refs, x)
    {
      ValueRun(refs, data, i, x - 1);
    }
  }
}
