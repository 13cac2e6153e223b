/** Where a call on a buffer stops with an error, and why: one position and one reason at most. */
module Stops {
  import opened Ascii
  import opened HttpTypes
  import opened ByteMachine
  import opened Tracking
  import opened Limits

  // ----- how far the inner loops go ----------------------------------------------------------------

  predicate IsLineByte(ch: char) {
    ch == CR || ch == LF
  }

  /** Where the loop of s_header_field stops that starts at `j`. */
  function FieldStop(data: string, j: nat): (stop: nat)
    requires j <= |data|
    ensures j <= stop <= |data|
    decreases |data| - j
  {
    if j < |data| && IsToken(data[j]) then FieldStop(data, j + 1) else j
  }

  /** The next line end from `j` on, or the end of the buffer. */
  function LineStop(data: string, j: nat): (stop: nat)
    requires j <= |data|
    ensures j <= stop <= |data|
    decreases |data| - j
  {
    if j < |data| && !IsLineByte(data[j]) then LineStop(data, j + 1) else j
  }

  /** Where an inner loop stops, and how far it has made sure that there is no line end: short of where it stops only
      when a jump was cut off by its limit. */
  datatype Extent = Extent(stop: nat, clear: nat)

  /** The jump of h_general. */
  function JumpExtent(data: string, j: nat): (x: Extent)
    requires j <= |data|
    ensures j <= x.clear <= x.stop <= |data|
    ensures j < |data| && !IsLineByte(data[j]) ==> j < x.clear
  {
    var stop := LineStop(data, j);
    if stop - j < HTTP_MAX_HEADER_SIZE then Extent(stop, stop) else Extent(|data|, j + HTTP_MAX_HEADER_SIZE)
  }

  /** The loop of s_header_value, as long as no byte is refused. */
  function ValueExtent(refs: seq<Config>, data: string, j: nat): (x: Extent)
    requires |refs| == |data| + 1 && j <= |data|
    ensures j <= x.clear <= x.stop <= |data|
    ensures j < |data| && !IsLineByte(data[j]) ==> j < x.clear
    decreases |data| - j
  {
    if j == |data| || IsLineByte(data[j]) then Extent(j, j)
    else if refs[j].p.headerState.General? then JumpExtent(data, j)
    else ValueExtent(refs, data, j + 1)
  }

  function ScanExtent(refs: seq<Config>, data: string, s: nat): (x: Extent)
    requires |refs| == |data| + 1 && s <= |data|
    ensures s <= x.clear <= x.stop <= |data|
  {
    if refs[s].p.state.HeaderField? then Extent(FieldStop(data, s), FieldStop(data, s)) else ValueExtent(refs, data, s)
  }

  lemma {:induction false} FieldStopIs(data: string, j: nat, stop: nat)
    requires j <= stop <= |data| && (forall x :: j <= x < stop ==> IsToken(data[x]))
    requires stop < |data| ==> !IsToken(data[stop])
    ensures FieldStop(data, j) == stop
    decreases stop - j
  {
    if j < stop {
      FieldStopIs(data, j + 1, stop);
    }
  }

  lemma {:induction false} LineStopIs(data: string, j: nat, stop: nat)
    requires j <= stop <= |data| && (forall x :: j <= x < stop ==> !IsLineByte(data[x]))
    ensures stop <= LineStop(data, j)
    ensures stop == |data| || IsLineByte(data[stop]) ==> LineStop(data, j) == stop
    decreases stop - j
  {
    if j < stop {
      LineStopIs(data, j + 1, stop);
    }
  }

  // ----- where a turn of the outer loop stops ------------------------------------------------------

  datatype Reason = NoRoom | BadChar | Refused

  predicate IsScanned(s: State) {
    s.HeaderField? || s.HeaderValue?
  }

  /** The bytes from `s` to `k` are scanned, and those of them that are looked at pass IS_HEADER_CHAR. */
  ghost predicate Scanned(refs: seq<Config>, data: string, s: nat, k: nat, lenient: bool)
    requires |refs| == |data| + 1
  {
    forall key {:trigger Unfold(key)} :: Unfold(key) ==>
      && s <= k <= |data| && Checked(refs, data, s, k, lenient)
      && forall x :: s <= x < k ==> ScansByte(refs, x)
  }

  predicate ScansByte(refs: seq<Config>, x: nat)
    requires x + 1 < |refs|
  {
    refs[x + 1].last == Consume && Inside(refs[x].p.state, refs[x + 1].p.state)
  }

  lemma ScannedNothing(refs: seq<Config>, data: string, s: nat, lenient: bool)
    requires |refs| == |data| + 1 && s <= |data|
    ensures Scanned(refs, data, s, s, lenient)
  {
  }

  lemma StrideIsScanned(refs: seq<Config>, data: string, i: nat, j: nat, k: DataKind, lenient: bool)
    requires i <= j <= |data| && |refs| == |data| + 1 && Stride(refs, data, i, j, k, true)
    requires IsScanned(refs[i].p.state) && Checked(refs, data, i, j, lenient)
    ensures Scanned(refs, data, i, j, lenient)
  {
    forall x | i <= x < j
      ensures ScansByte(refs, x)
    {
      StridePart(refs, data, i, j, k, true, x);
      StridePart(refs, data, i, j, k, true, x + 1);
      StrideEnd(refs, data, i, x, k, true);
      StrideEnd(refs, data, i, x + 1, k, true);
    }
  }

  predicate CharPasses(refs: seq<Config>, data: string, n: nat, lenient: bool)
    requires |refs| == |data| + 1 && n < |data|
  {
    Looks(refs, n) ==> lenient || IsHeaderChar(data[n])
  }

  /** How far the reference machine is followed by a turn from `s` that the header-size limit stops. */
  function RoomEnds(refs: seq<Config>, data: string, s: nat, surplus: nat): nat
    requires |refs| == |data| + 1 && s <= |data|
  {
    if HasRoom(refs, s, surplus) then ScanExtent(refs, data, s).clear else s
  }

  /** The turn of the outer loop that starts at `s` stops at `n`, for this reason:
      - the header-size limit, which is looked at on the first byte of the turn, and behind a scan;
      - IS_HEADER_CHAR, on a byte of a scan of a header value that is looked at;
      - the byte-at-a-time machine, which refuses the byte: in a field name behind the look at the limit, in a header
        value before it. */
  ghost predicate TurnStops(refs: seq<Config>, data: string, s: nat, n: nat, why: Reason, surplus: nat, lenient: bool)
    requires |refs| == |data| + 1
  {
    && s < |data| && s <= n <= |data|
    && match why
       case NoRoom =>
         var k := RoomEnds(refs, data, s, surplus);
         && !HasRoom(refs, k, surplus) && Scanned(refs, data, s, k, lenient)
         && n == if k == s then s else ScanExtent(refs, data, s).stop
       case BadChar =>
         && HasRoom(refs, s, surplus) && Scanned(refs, data, s, n, lenient)
         && refs[s].p.state.HeaderValue? && n < ScanExtent(refs, data, s).clear
         && !CharPasses(refs, data, n, lenient)
       case Refused =>
         && HasRoom(refs, s, surplus) && Scanned(refs, data, s, n, lenient)
         && n < |data| && Running(refs[n]) && refs[n + 1].last == Fail && CharPasses(refs, data, n, lenient)
         && if refs[s].p.state.HeaderField? then n == ScanExtent(refs, data, s).stop && HasRoom(refs, n, surplus)
            else if refs[s].p.state.HeaderValue? then n < ScanExtent(refs, data, s).clear
            else n == s
  }

  /** A call on the buffer stops at `n`: all bytes pass up to the turn that does. */
  ghost predicate Stops(refs: seq<Config>, data: string, n: nat, why: Reason, surplus: nat, lenient: bool)
    requires |refs| == |data| + 1
  {
    exists s :: 0 <= s <= n && StopsFrom(refs, data, s, n, why, surplus, lenient)
  }

  ghost predicate StopsFrom(refs: seq<Config>, data: string, s: nat, n: nat, why: Reason, surplus: nat, lenient: bool)
    requires |refs| == |data| + 1
  {
    && TurnStops(refs, data, s, n, why, surplus, lenient)
    && Enters(refs, s) && Quiet(refs, data, 0, s, surplus, lenient)
  }

  // ----- one position and one reason ---------------------------------------------------------------

  /** The byte, or the end of the buffer, that makes the turn stop. */
  function CulpritOf(refs: seq<Config>, data: string, s: nat, n: nat, why: Reason, surplus: nat): nat
    requires |refs| == |data| + 1 && s <= |data|
  {
    if why.NoRoom? then RoomEnds(refs, data, s, surplus) else n
  }

  /** It does not pass, and all of the turn before it is scanned. */
  lemma {:induction false} Culprit(refs: seq<Config>, data: string, s: nat, n: nat, why: Reason, surplus: nat,
                                   lenient: bool)
    requires |refs| == |data| + 1 && TurnStops(refs, data, s, n, why, surplus, lenient)
    ensures var f := CulpritOf(refs, data, s, n, why, surplus);
            && s <= f <= |data| && Scanned(refs, data, s, f, lenient)
            && (f == |data| ==> !HasRoom(refs, f, surplus))
            && (f < |data| ==> !MayPass(refs, data, f, surplus, lenient) || refs[f + 1].last == Fail)
  {
    assert Unfold(0);
  }

  lemma QuietAt(refs: seq<Config>, data: string, i: nat, j: nat, x: nat, surplus: nat, lenient: bool)
    requires |refs| == |data| + 1 && j <= |data| && Quiet(refs, data, i, j, surplus, lenient) && i <= x < j
    ensures Passes(refs, data, x, surplus, lenient)
  {
    assert Unfold(0);
  }

  lemma InsideScan(refs: seq<Config>, data: string, s: nat, k: nat, x: nat, lenient: bool)
    requires |refs| == |data| + 1 && Scanned(refs, data, s, k, lenient) && s <= x < k
    ensures x < |data| && refs[x + 1].last == Consume && Inside(refs[x].p.state, refs[x + 1].p.state)
    ensures CharPasses(refs, data, x, lenient)
  {
    assert Unfold(0);
    assert k <= |data| && ScansByte(refs, x);
  }

  /** No turn starts behind it to which all bytes pass. */
  lemma {:induction false} NoLaterTurn(refs: seq<Config>, data: string, s: nat, n: nat, why: Reason, t: nat,
                                       surplus: nat, lenient: bool)
    requires |refs| == |data| + 1 && TurnStops(refs, data, s, n, why, surplus, lenient) && s < t < |data|
    ensures !(Enters(refs, t) && Quiet(refs, data, 0, t, surplus, lenient))
  {
    var f := CulpritOf(refs, data, s, n, why, surplus);
    Culprit(refs, data, s, n, why, surplus, lenient);
    if t <= f {
      InsideScan(refs, data, s, f, t - 1, lenient);
    } else if Quiet(refs, data, 0, t, surplus, lenient) {
      QuietAt(refs, data, 0, t, f, surplus, lenient);
    }
  }

  /** Two ways for one turn to stop are one. */
  lemma {:induction false} TurnStopsOnce(refs: seq<Config>, data: string, s: nat, n: nat, why: Reason, m: nat,
                                         reason: Reason, surplus: nat, lenient: bool)
    requires |refs| == |data| + 1
    requires TurnStops(refs, data, s, n, why, surplus, lenient) && TurnStops(refs, data, s, m, reason, surplus, lenient)
    ensures n == m && why == reason
  {
    if why.NoRoom? && !reason.NoRoom? {
      RoomOrRefusal(refs, data, s, n, m, reason, surplus, lenient);
    } else if !why.NoRoom? && reason.NoRoom? {
      RoomOrRefusal(refs, data, s, m, n, why, surplus, lenient);
    } else if !why.NoRoom? && n < m {
      FirstRefusal(refs, data, s, n, why, m, reason, surplus, lenient);
    } else if !why.NoRoom? && m < n {
      FirstRefusal(refs, data, s, m, reason, n, why, surplus, lenient);
    }
  }

  lemma {:induction false} RoomOrRefusal(refs: seq<Config>, data: string, s: nat, n: nat, m: nat, reason: Reason,
                                         surplus: nat, lenient: bool)
    requires |refs| == |data| + 1 && !reason.NoRoom? && TurnStops(refs, data, s, n, NoRoom, surplus, lenient)
    ensures !TurnStops(refs, data, s, m, reason, surplus, lenient)
  {
    var k := RoomEnds(refs, data, s, surplus);
    if s <= m < k {
      InsideScan(refs, data, s, k, m, lenient);
    }
  }

  lemma {:induction false} FirstRefusal(refs: seq<Config>, data: string, s: nat, n: nat, why: Reason, m: nat,
                                        reason: Reason, surplus: nat, lenient: bool)
    requires |refs| == |data| + 1 && !why.NoRoom? && !reason.NoRoom? && n < m
    requires TurnStops(refs, data, s, n, why, surplus, lenient)
    ensures !TurnStops(refs, data, s, m, reason, surplus, lenient)
  {
    if TurnStops(refs, data, s, m, reason, surplus, lenient) {
      InsideScan(refs, data, s, m, n, lenient);
    }
  }

  lemma {:induction false} OneTurnStops(refs: seq<Config>, data: string, s: nat, n: nat, why: Reason, t: nat, m: nat,
                                        reason: Reason, surplus: nat, lenient: bool)
    requires |refs| == |data| + 1
    requires StopsFrom(refs, data, s, n, why, surplus, lenient) && StopsFrom(refs, data, t, m, reason, surplus, lenient)
    ensures n == m && why == reason
  {
    if s < t {
      NoLaterTurn(refs, data, s, n, why, t, surplus, lenient);
    } else if t < s {
      NoLaterTurn(refs, data, t, m, reason, s, surplus, lenient);
    } else {
      TurnStopsOnce(refs, data, s, n, why, m, reason, surplus, lenient);
    }
  }

  /** On a given buffer a call stops at one position, for one reason. */
  lemma {:induction false} StopsOnce(refs: seq<Config>, data: string, n: nat, why: Reason, m: nat, reason: Reason,
                                     surplus: nat, lenient: bool)
    requires |refs| == |data| + 1
    requires Stops(refs, data, n, why, surplus, lenient) && Stops(refs, data, m, reason, surplus, lenient)
    ensures n == m && why == reason
  {
    var s :| 0 <= s <= n && StopsFrom(refs, data, s, n, why, surplus, lenient);
    var t :| 0 <= t <= m && StopsFrom(refs, data, t, m, reason, surplus, lenient);
    OneTurnStops(refs, data, s, n, why, t, m, reason, surplus, lenient);
  }

  /** The first `e` bytes pass, and either they are the whole buffer or the last of them ends a message with a
      return. */
  ghost predicate Ends(refs: seq<Config>, data: string, e: nat, surplus: nat, lenient: bool)
    requires |refs| == |data| + 1
  {
    && 0 < e <= |data| && Running(refs[e]) && Cleared(refs, data, 0, e - 1, surplus, lenient)
    && if e < |data| then refs[e].last == Exit else HasRoom(refs, e, surplus)
  }

  lemma EndPasses(refs: seq<Config>, data: string, e: nat, x: nat, surplus: nat, lenient: bool)
    requires |refs| == |data| + 1 && Ends(refs, data, e, surplus, lenient) && x < e
    ensures MayPass(refs, data, x, surplus, lenient) && refs[x + 1].last != Fail
  {
    assert Unfold(0);
    if x < e - 1 {
      QuietAt(refs, data, 0, e - 1, x, surplus, lenient);
    }
  }

  /** A call that consumes what it is to consume does not stop. */
  lemma {:induction false} EndsOrStops(refs: seq<Config>, data: string, e: nat, n: nat, why: Reason, surplus: nat,
                                       lenient: bool)
    requires |refs| == |data| + 1 && Ends(refs, data, e, surplus, lenient)
    ensures !Stops(refs, data, n, why, surplus, lenient)
  {
    forall s | 0 <= s <= n
      ensures !StopsFrom(refs, data, s, n, why, surplus, lenient)
    {
      if StopsFrom(refs, data, s, n, why, surplus, lenient) {
        EndIsNotBefore(refs, data, e, s, n, why, surplus, lenient);
        EndIsNotWithin(refs, data, e, s, n, why, surplus, lenient);
      }
    }
  }

  lemma {:induction false} EndIsNotBefore(refs: seq<Config>, data: string, e: nat, s: nat, n: nat, why: Reason,
                                          surplus: nat, lenient: bool)
    requires |refs| == |data| + 1 && Ends(refs, data, e, surplus, lenient)
    requires TurnStops(refs, data, s, n, why, surplus, lenient)
    ensures e <= CulpritOf(refs, data, s, n, why, surplus)
  {
    var f := CulpritOf(refs, data, s, n, why, surplus);
    Culprit(refs, data, s, n, why, surplus, lenient);
    if f < e {
      EndPasses(refs, data, e, f, surplus, lenient);
    }
  }

  lemma {:induction false} EndIsNotWithin(refs: seq<Config>, data: string, e: nat, s: nat, n: nat, why: Reason,
                                          surplus: nat, lenient: bool)
    requires |refs| == |data| + 1 && Ends(refs, data, e, surplus, lenient)
    requires StopsFrom(refs, data, s, n, why, surplus, lenient)
    ensures CulpritOf(refs, data, s, n, why, surplus) < e
  {
    var f := CulpritOf(refs, data, s, n, why, surplus);
    Culprit(refs, data, s, n, why, surplus, lenient);
    if e <= f && e < |data| {
      if e <= s {
        QuietAt(refs, data, 0, s, e - 1, surplus, lenient);
      } else {
        InsideScan(refs, data, s, f, e - 1, lenient);
      }
    }
  }

  /** And what it consumes is determined. */
  lemma {:induction false} EndsOnce(refs: seq<Config>, data: string, e: nat, n: nat, surplus: nat, lenient: bool)
    requires |refs| == |data| + 1
    requires Ends(refs, data, e, surplus, lenient) && Ends(refs, data, n, surplus, lenient)
    ensures e == n
  {
    if e < n {
      QuietAt(refs, data, 0, n - 1, e - 1, surplus, lenient);
    } else if n < e {
      QuietAt(refs, data, 0, e - 1, n - 1, surplus, lenient);
    }
  }
}
