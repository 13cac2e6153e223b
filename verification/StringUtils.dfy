/** StringUtils: splitting a string at a pattern, and replacing a pattern in it. */
module StringUtils {
  import opened HttpTypes

  // ----- searching -------------------------------------------------------------------------------

  /** The first `n` bytes of the pattern stand at `k`. */
  predicate Agrees(s: string, p: string, k: nat, n: nat)
    requires n <= |p| && k + |p| <= |s|
  {
    n == 0 || (Agrees(s, p, k, n - 1) && s[k + n - 1] == p[n - 1])
  }

  predicate MatchAt(s: string, p: string, k: nat) {
    k + |p| <= |s| && Agrees(s, p, k, |p|)
  }

  lemma {:induction false} AgreesMeans(s: string, p: string, k: nat, n: nat)
    requires n <= |p| && k + |p| <= |s|
    ensures Agrees(s, p, k, n) <==> s[k..k + n] == p[..n]
  {
    if n > 0 {
      AgreesMeans(s, p, k, n - 1);
      assert s[k..k + n] == s[k..k + n - 1] + [s[k + n - 1]];
      assert p[..n] == p[..n - 1] + [p[n - 1]];
    }
  }

  lemma {:induction false} MatchMeans(s: string, p: string, k: nat)
    ensures MatchAt(s, p, k) <==> k + |p| <= |s| && s[k..k + |p|] == p
  {
    if k + |p| <= |s| {
      AgreesMeans(s, p, k, |p|);
      assert p[..|p|] == p;
    }
  }

  /** str.find(pattern, from): the first match at or behind `from`, None for npos. */
  function Find(s: string, p: string, from: nat): (r: Option<nat>)
    ensures r.Some? ==> from <= r.value && MatchAt(s, p, r.value)
    decreases |s| - from
  {
    if from + |p| > |s| then None else if MatchAt(s, p, from) then Some(from) else Find(s, p, from + 1)
  }

  /** There is no match before the one that is found. */
  lemma {:induction false} FindIsFirst(s: string, p: string, from: nat, k: nat)
    requires from <= k && MatchAt(s, p, k)
    ensures Find(s, p, from).Some? && Find(s, p, from).value <= k
    decreases k - from
  {
    if from < k {
      FindIsFirst(s, p, from + 1, k);
    }
  }

  /** str.substr(pos, n), where a count below zero is a huge one. */
  function Substr(s: string, pos: nat, n: int): string
    requires pos <= |s|
  {
    if n < 0 || pos + n > |s| then s[pos..] else s[pos..pos + n]
  }

  lemma {:induction false} MatchShifts(s: string, p: string, from: nat, k: nat)
    requires from <= |s|
    ensures MatchAt(s[from..], p, k) <==> MatchAt(s, p, from + k)
  {
    MatchMeans(s, p, from + k);
    MatchMeans(s[from..], p, k);
    if from + k + |p| <= |s| {
      assert s[from..][k..k + |p|] == s[from + k..from + k + |p|];
    }
  }

  function Shifted(r: Option<nat>, n: nat): Option<nat> {
    match r
    case None => None
    case Some(k) => Some(n + k)
  }

  /** Searching from a position on is searching what is left from there on. */
  lemma {:induction false} FindShifts(s: string, p: string, from: nat, k: nat)
    requires from <= |s|
    ensures Find(s, p, from + k) == Shifted(Find(s[from..], p, k), from)
    decreases |s| - k
  {
    MatchShifts(s, p, from, k);
    if from + k + |p| <= |s| && !MatchAt(s, p, from + k) && k < |s| {
      FindShifts(s, p, from, k + 1);
    }
  }

  // ----- what splitting and replacing mean -------------------------------------------------------

  /** The pieces between the leftmost matches that do not overlap. */
  function Pieces(s: string, p: string): (r: seq<string>)
    requires p != []
    ensures |r| > 0
    decreases |s|
  {
    match Find(s, p, 0)
    case None => [s]
    case Some(k) => [s[..k]] + Pieces(s[k + |p|..], p)
  }

  /** The leftmost matches that do not overlap, replaced. */
  function Replaced(s: string, f: string, r: string): string
    requires f != []
    decreases |s|
  {
    match Find(s, f, 0)
    case None => s
    case Some(k) => s[..k] + r + Replaced(s[k + |f|..], f, r)
  }

  function Join(pieces: seq<string>, p: string): string
    requires pieces != []
  {
    if |pieces| == 1 then pieces[0] else pieces[0] + p + Join(pieces[1..], p)
  }

  /** Replacing is splitting and joining. */
  lemma {:induction false} JoinPieces(s: string, p: string, r: string)
    requires p != []
    ensures Join(Pieces(s, p), r) == Replaced(s, p, r)
    decreases |s|
  {
    if k :| Find(s, p, 0) == Some(k) {
      JoinPieces(s[k + |p|..], p, r);
      assert Pieces(s, p)[1..] == Pieces(s[k + |p|..], p);
    }
  }

  lemma {:induction false} ReplacedByItself(s: string, p: string)
    requires p != []
    ensures Replaced(s, p, p) == s
    decreases |s|
  {
    if k :| Find(s, p, 0) == Some(k) {
      ReplacedByItself(s[k + |p|..], p);
      MatchMeans(s, p, k);
      assert s[..k] + p + s[k + |p|..] == s;
    }
  }

  /** Joining the pieces again gives the string back. */
  lemma {:induction false} JoinGivesBack(s: string, p: string)
    requires p != []
    ensures Join(Pieces(s, p), p) == s
  {
    JoinPieces(s, p, p);
    ReplacedByItself(s, p);
  }

  /** No piece contains the pattern. */
  lemma {:induction false} PiecesLackPattern(s: string, p: string, i: nat)
    requires p != [] && i < |Pieces(s, p)|
    ensures Find(Pieces(s, p)[i], p, 0).None?
    decreases |s|
  {
    if k :| Find(s, p, 0) == Some(k) {
      if i == 0 {
        if j :| Find(s[..k], p, 0) == Some(j) {
          MatchMeans(s[..k], p, j);
          MatchMeans(s, p, j);
          assert s[..k][j..j + |p|] == s[j..j + |p|];
          FindIsFirst(s, p, 0, j);
        }
      } else {
        PiecesLackPattern(s[k + |p|..], p, i - 1);
      }
    }
  }

  // ----- replaceAll ------------------------------------------------------------------------------

  /** Replaces in place, from left to right; an empty pattern would be found forever. */
  method ReplaceAll(text: string, find: string, replace: string) returns (str: string)
    requires find != []
    ensures str == Replaced(text, find, replace)
  {
    str := text;
    var startPos := 0;
    ghost var done, rest := "", text;
    NothingDone(text, find, replace);
    var next := Find(str, find, startPos);
    while next.Some?
      invariant Replacing(text, find, replace, str, done, rest) && |done| == startPos
      invariant next == Find(str, find, startPos)
      decreases |rest|
    {
      ReplaceStep(text, find, replace, str, done, rest);
      var k := next.value;
      str := str[..k] + replace + str[k + |find|..];
      startPos := k + |replace|;
      done, rest := NextDone(done, rest, find, replace), NextRest(rest, find);
      next := Find(str, find, startPos);
    }
    ReplaceEnd(text, find, replace, str, done, rest);
  }

  /** In the loop of replaceAll: what is done, and what is left of the text. */
  ghost predicate Replacing(text: string, find: string, replace: string, str: string, done: string, rest: string)
    requires find != []
  {
    forall key {:trigger Unfold(key)} :: Unfold(key) ==>
      str == done + rest && Replaced(text, find, replace) == done + Replaced(rest, find, replace)
  }

  ghost function NextDone(done: string, rest: string, find: string, replace: string): string {
    match Find(rest, find, 0)
    case None => done
    case Some(j) => done + rest[..j] + replace
  }

  ghost function NextRest(rest: string, find: string): string {
    match Find(rest, find, 0)
    case None => rest
    case Some(j) => rest[j + |find|..]
  }

  lemma {:induction false} NothingDone(text: string, find: string, replace: string)
    requires find != []
    ensures Replacing(text, find, replace, text, "", text)
  {
    assert "" + text == text && "" + Replaced(text, find, replace) == Replaced(text, find, replace);
  }

  /** Searching behind `done`. */
  lemma {:induction false} FindBehind(done: string, rest: string, p: string)
    ensures Find(done + rest, p, |done|) == Shifted(Find(rest, p, 0), |done|)
  {
    FindShifts(done + rest, p, |done|, 0);
    assert (done + rest)[|done|..] == rest;
  }

  lemma {:induction false} ReplaceEnd(text: string, find: string, replace: string, str: string, done: string,
                                      rest: string)
    requires find != [] && Replacing(text, find, replace, str, done, rest) && Find(str, find, |done|).None?
    ensures str == Replaced(text, find, replace)
  {
    assert Unfold(0);
    FindBehind(done, rest, find);
  }

  lemma {:induction false} ReplaceStep(text: string, find: string, replace: string, str: string, done: string,
                                       rest: string)
    requires find != [] && Replacing(text, find, replace, str, done, rest) && Find(str, find, |done|).Some?
    ensures var k := Find(str, find, |done|).value;
            var done' := NextDone(done, rest, find, replace);
            var rest' := NextRest(rest, find);
            && Replacing(text, find, replace, str[..k] + replace + str[k + |find|..], done', rest')
            && |done'| == k + |replace| && |rest'| < |rest|
  {
    assert str == done + rest && Replaced(text, find, replace) == done + Replaced(rest, find, replace) by {
      assert Unfold(0);
    }
    FindBehind(done, rest, find);
    ReplaceOne(done, rest, find, replace);
  }

  lemma {:induction false} ReplaceOne(done: string, rest: string, find: string, replace: string)
    requires find != [] && Find(rest, find, 0).Some?
    ensures var k := |done| + Find(rest, find, 0).value;
            var done' := NextDone(done, rest, find, replace);
            var rest' := NextRest(rest, find);
            && k + |find| <= |done + rest|
            && (done + rest)[..k] + replace + (done + rest)[k + |find|..] == done' + rest'
            && done + Replaced(rest, find, replace) == done' + Replaced(rest', find, replace)
            && |done'| == k + |replace| && |rest'| < |rest|
  {
    ReplaceHead(done, rest, find, replace);
    ReplaceTail(done, rest, find, replace);
  }

  lemma {:induction false} ReplaceHead(done: string, rest: string, find: string, replace: string)
    requires find != [] && Find(rest, find, 0).Some?
    ensures var k := |done| + Find(rest, find, 0).value;
            var done' := NextDone(done, rest, find, replace);
            var rest' := NextRest(rest, find);
            && k + |find| <= |done + rest|
            && (done + rest)[..k] + replace + (done + rest)[k + |find|..] == done' + rest'
            && |done'| == k + |replace| && |rest'| < |rest|
  {
    HeadReplaced(done, rest, find, replace, Find(rest, find, 0).value, NextDone(done, rest, find, replace),
                 NextRest(rest, find));
  }

  lemma {:induction false} HeadReplaced(done: string, rest: string, find: string, replace: string, j: nat,
                                        done': string, rest': string)
    requires find != [] && j + |find| <= |rest|
    requires done' == done + rest[..j] + replace && rest' == rest[j + |find|..]
    ensures var k := |done| + j;
            && k + |find| <= |done + rest|
            && (done + rest)[..k] + replace + (done + rest)[k + |find|..] == done' + rest'
            && |done'| == k + |replace| && |rest'| < |rest|
  {
    ReplaceMiddle(done, rest, j, |find|, replace);
  }

  lemma {:induction false} ReplaceMiddle(done: string, rest: string, j: nat, n: nat, replace: string)
    requires j + n <= |rest|
    ensures (done + rest)[..|done| + j] + replace + (done + rest)[|done| + j + n..]
         == done + rest[..j] + replace + rest[j + n..]
  {
    TakeBehind(done, rest, j);
    TakeBehind(done, rest, j + n);
  }

  lemma {:induction false} ReplaceTail(done: string, rest: string, find: string, replace: string)
    requires find != [] && Find(rest, find, 0).Some?
    ensures done + Replaced(rest, find, replace)
         == NextDone(done, rest, find, replace) + Replaced(NextRest(rest, find), find, replace)
  {
    var j := Find(rest, find, 0).value;
    ConcatAssoc(done, rest[..j], replace, Replaced(rest[j + |find|..], find, replace));
  }

  lemma {:induction false} TakeBehind(done: string, rest: string, j: nat)
    requires j <= |rest|
    ensures (done + rest)[..|done| + j] == done + rest[..j]
    ensures (done + rest)[|done| + j..] == rest[j..]
  {
  }

  lemma {:induction false} ConcatAssoc(a: string, b: string, c: string, d: string)
    ensures a + (b + c + d) == a + b + c + d
  {
  }

  // ----- split -----------------------------------------------------------------------------------

  /** The loop of split ends: an empty pattern is found again and again, until a limit is reached. */
  predicate Ends(t: string, p: string, pieces: int) {
    p != [] || pieces > 0 || t == []
  }

  /** What the loop of split finds in what is left of the string with the pattern appended.  With
      `pieces` equal to 1 the rest without the appended pattern is one last piece; below 1 there is no limit. */
  function Cut(t: string, p: string, pieces: int): seq<string>
    requires Ends(t, p, pieces)
    decreases |t|, if p == [] then pieces else 0
  {
    if t == [] then [] else
    match Find(t, p, 0)
    case None => []
    case Some(k) =>
      var rest := t[k + |p|..];
      if pieces == 1 then [t[..k], Substr(rest, 0, |rest| - |p|)] else [t[..k]] + Cut(rest, p, pieces - 1)
  }

  function PieceLimit(limit: int): int {
    if limit >= 2 then limit - 1 else 0
  }

  /** What split returns. */
  function SplitResult(text: string, p: string, limit: int): seq<string>
    requires Ends(text, p, PieceLimit(limit))
  {
    Cut(text + p, p, PieceLimit(limit))
  }

  /** Splits at the pattern; without a limit an empty pattern would be found forever, and sizes are kept
      in an int. */
  method Split(text: string, pattern: string, limit: int) returns (result: seq<string>)
    requires Ends(text, pattern, PieceLimit(limit)) && |text| + |pattern| < 0x8000_0000
    ensures result == SplitResult(text, pattern, limit)
  {
    result := SplitExtended(text + pattern, pattern, limit);
    assert Unfold(0);
  }

  ghost predicate IsCut(result: seq<string>, str: string, p: string, n: int)
    requires Ends(str, p, n)
  {
    forall key {:trigger Unfold(key)} :: Unfold(key) ==> result == Cut(str, p, n)
  }

  /** The loop of split, over the string with the pattern appended. */
  method SplitExtended(str: string, pattern: string, limit: int) returns (result: seq<string>)
    requires Ends(str, pattern, PieceLimit(limit)) && |str| < 0x8000_0000
    ensures IsCut(result, str, pattern, PieceLimit(limit))
  {
    result := [];
    var size := |str|;
    var i := 0;
    ghost var left := PieceLimit(limit);
    ghost var goal := GoesStart(str, pattern, left);
    while i < size
      invariant 0 <= i <= size && left == PieceLimit(limit) - |result| && (limit >= 2 ==> 0 < left)
      invariant Goes(goal, result, str, i, pattern, left)
      decreases size - i, if pattern == [] then left else 0
    {
      var piece, next := NextPiece(str, i, pattern, goal, result, left);
      if piece.Some? {
        result := result + [piece.value];
        left := left - 1;
        if limit >= 2 && |result| == limit - 1 {
          var rest := Substr(str, next, size - next - |pattern|);
          return result + [rest];
        }
      }
      i := next;
    }
    NothingLeft(goal, result, str, pattern, left);
  }

  /** The piece at `i`, if the pattern is found, and where the search goes on. */
  method NextPiece(str: string, i: nat, pattern: string, ghost goal: seq<string>, ghost result: seq<string>,
                   ghost n: int)
    returns (piece: Option<string>, next: nat)
    requires i < |str| && Goes(goal, result, str, i, pattern, n)
    ensures i <= next <= |str| && (piece.None? || pattern != [] ==> i < next)
    ensures piece.None? ==> Goes(goal, result, str, next, pattern, n)
    ensures piece.Some? ==>
              if n == 1 then goal == result + [piece.value] + [Substr(str, next, |str| - next - |pattern|)]
              else Goes(goal, result + [piece.value], str, next, pattern, n - 1)
  {
    var pos := Find(str, pattern, i);
    SplitStep(goal, result, str, i, pattern, n);
    match pos
    case None =>
      return None, i + 1;
    case Some(k) =>
      return Some(Substr(str, i, k - i)), k + |pattern|;
  }

  /** `result` and what is found from `i` on make up the pieces. */
  ghost predicate Goes(goal: seq<string>, result: seq<string>, str: string, i: nat, p: string, n: int) {
    i <= |str| && (p != [] || n > 0 || i == |str|) &&
    forall key {:trigger Unfold(key)} :: Unfold(key) ==> goal == result + Cut(str[i..], p, n)
  }

  lemma {:induction false} GoesStart(str: string, p: string, n: int) returns (goal: seq<string>)
    requires Ends(str, p, n)
    ensures IsCut(goal, str, p, n) && Goes(goal, [], str, 0, p, n)
  {
    goal := Cut(str, p, n);
    assert str[0..] == str;
  }

  lemma {:induction false} NothingLeft(goal: seq<string>, result: seq<string>, str: string, p: string, n: int)
    requires Goes(goal, result, str, |str|, p, n)
    ensures goal == result
  {
    assert Unfold(0);
  }

  lemma {:induction false} SplitStep(goal: seq<string>, result: seq<string>, str: string, i: nat, p: string, n: int)
    requires i < |str| && Goes(goal, result, str, i, p, n)
    ensures match Find(str, p, i)
            case None => Goes(goal, result, str, i + 1, p, n)
            case Some(k) =>
              var rest := k + |p|;
              var result' := result + [Substr(str, i, k - i)];
              if n == 1 then goal == result' + [Substr(str, rest, |str| - rest - |p|)]
              else Goes(goal, result', str, rest, p, n - 1)
  {
    assert Unfold(0);
    if Find(str, p, i).Some? {
      CutNext(str, p, i, n);
    } else {
      CutNothing(str, p, i, n);
    }
  }

  lemma {:induction false} CutNext(str: string, p: string, i: nat, n: int)
    requires i < |str| && Ends(str[i..], p, n) && Find(str, p, i).Some?
    ensures var k := Find(str, p, i).value;
            var rest := k + |p|;
            Cut(str[i..], p, n) == if n == 1 then [Substr(str, i, k - i), Substr(str, rest, |str| - rest - |p|)]
                                   else [Substr(str, i, k - i)] + Cut(str[rest..], p, n - 1)
  {
    var k := Find(str, p, i).value;
    FindShifts(str, p, i, 0);
    SliceBehind(str, i, k - i, |p|);
    SubstrShifts(str, k + |p|, |str| - (k + |p|) - |p|);
  }

  lemma {:induction false} SliceBehind(str: string, i: nat, j: nat, n: nat)
    requires i + j + n <= |str|
    ensures str[i..][..j] == str[i..i + j] && str[i..][j + n..] == str[i + j + n..]
  {
  }

  lemma {:induction false} SubstrShifts(str: string, from: nat, n: int)
    requires from <= |str|
    ensures Substr(str[from..], 0, n) == Substr(str, from, n)
  {
  }

  lemma {:induction false} CutNothing(str: string, p: string, i: nat, n: int)
    requires i < |str| && Find(str, p, i).None?
    ensures Cut(str[i..], p, n) == [] && Cut(str[i + 1..], p, n) == []
  {
    FindShifts(str, p, i, 0);
    FindShifts(str, p, i + 1, 0);
    if k :| Find(str, p, i + 1) == Some(k) {
      FindIsFirst(str, p, i, k);
    }
  }

  // ----- what the appended pattern does ----------------------------------------------------------

  /** A match within the string is a match within the longer string. */
  lemma {:induction false} MatchInLonger(s: string, q: string, p: string, k: nat)
    requires k + |p| <= |s|
    ensures MatchAt(s, p, k) <==> MatchAt(s + q, p, k)
  {
    MatchMeans(s, p, k);
    MatchMeans(s + q, p, k);
    assert (s + q)[k..k + |p|] == s[k..k + |p|];
  }

  lemma {:induction false} FindInLonger(s: string, q: string, p: string, from: nat)
    requires Find(s, p, from).Some?
    ensures Find(s + q, p, from) == Find(s, p, from)
    decreases |s| - from
  {
    MatchInLonger(s, q, p, from);
    if !MatchAt(s, p, from) {
      FindInLonger(s, q, p, from + 1);
    }
  }

  /** The appended pattern is found behind the string, unless it is found earlier, across the seam. */
  predicate SeamIsClean(s: string, p: string) {
    Find(s + p, p, 0) == Some(|s|)
  }

  lemma {:induction false} AppendedIsFound(s: string, p: string)
    ensures Find(s + p, p, 0).Some? && Find(s + p, p, 0).value <= |s|
  {
    MatchMeans(s + p, p, |s|);
    assert (s + p)[|s|..|s| + |p|] == p;
    FindIsFirst(s + p, p, 0, |s|);
  }

  /** What is kept of the last piece: up to where the pattern is found in it with the pattern appended. */
  function Kept(last: string, p: string): string {
    match Find(last + p, p, 0)
    case None => last
    case Some(k) => (last + p)[..k]
  }

  /** And what is left behind it. */
  function Rest(last: string, p: string): string {
    match Find(last + p, p, 0)
    case None => ""
    case Some(k) => (last + p)[k + |p|..]
  }

  lemma {:induction false} KeptAndRest(last: string, p: string)
    requires p != [] && Find(last, p, 0).None?
    ensures Kept(last, p) + p + Rest(last, p) == last + p && |Rest(last, p)| < |p|
    ensures Kept(last, p) == last <==> SeamIsClean(last, p)
    ensures SeamIsClean(last, p) ==> Rest(last, p) == ""
  {
    AppendedIsFound(last, p);
    var k := Find(last + p, p, 0).value;
    MatchMeans(last + p, p, k);
    assert (last + p)[..k] + (last + p)[k..k + |p|] + (last + p)[k + |p|..] == last + p;
    if k + |p| <= |last| {
      MatchInLonger(last, p, p, k);
      FindIsFirst(last, p, 0, k);
    }
    if k < |last| {
      assert |Kept(last, p)| < |last|;
    } else {
      assert (last + p)[..k] == last;
    }
  }

  function LastPiece(s: string, p: string): string
    requires p != []
  {
    Pieces(s, p)[|Pieces(s, p)| - 1]
  }

  /** The pieces with the last one cut short. */
  function Shortened(ps: seq<string>, p: string): seq<string>
    requires ps != []
  {
    ps[..|ps| - 1] + [Kept(ps[|ps| - 1], p)]
  }

  /** The pieces under a limit of n + 1: with more than n pieces the rest of the string is the last one; with
      exactly n a piece too many is found behind the appended pattern; with fewer the limit plays no part. */
  function Limited(ps: seq<string>, p: string, n: nat): seq<string>
    requires ps != []
  {
    if |ps| > n then ps[..n] + [Join(ps[n..], p)]
    else if |ps| == n then Shortened(ps, p) + [Rest(ps[n - 1], p)]
    else Shortened(ps, p)
  }

  lemma {:induction false} FirstCut(s: string, p: string)
    requires p != [] && Find(s, p, 0).Some?
    ensures var k := Find(s, p, 0).value;
            Find(s + p, p, 0) == Some(k) && (s + p)[..k] == s[..k] && (s + p)[k + |p|..] == s[k + |p|..] + p
  {
    FindInLonger(s, p, p, 0);
  }

  /** Nothing is found in what is shorter than the pattern. */
  lemma {:induction false} ShortCut(t: string, p: string, n: int)
    requires p != [] && |t| < |p|
    ensures Cut(t, p, n) == []
  {
  }

  lemma {:induction false} LastCut(s: string, p: string, n: int)
    requires p != [] && Find(s, p, 0).None?
    ensures Cut(s + p, p, n) == if n == 1 then [Kept(s, p), Rest(s, p)] else [Kept(s, p)]
  {
    AppendedIsFound(s, p);
    KeptAndRest(s, p);
    ShortCut(Rest(s, p), p, n - 1);
  }

  lemma {:induction false} CutUnfolds(s: string, p: string, n: int)
    requires p != [] && Find(s, p, 0).Some?
    ensures var k := Find(s, p, 0).value;
            var rest := s[k + |p|..] + p;
            && Pieces(s, p) == [s[..k]] + Pieces(s[k + |p|..], p)
            && Cut(s + p, p, n) == if n == 1 then [s[..k], Substr(rest, 0, |rest| - |p|)]
                                   else [s[..k]] + Cut(rest, p, n - 1)
  {
    FirstCut(s, p);
  }

  lemma {:induction false} ShortenedCons(head: string, ps: seq<string>, p: string)
    requires ps != []
    ensures Shortened([head] + ps, p) == [head] + Shortened(ps, p)
  {
    var all := [head] + ps;
    assert all[..|all| - 1] == [head] + ps[..|ps| - 1];
  }

  lemma {:induction false} LimitedCons(head: string, ps: seq<string>, p: string, n: nat)
    requires n > 1 && ps != []
    ensures Limited([head] + ps, p, n) == [head] + Limited(ps, p, n - 1)
  {
    var all := [head] + ps;
    ShortenedCons(head, ps, p);
    if |all| > n {
      assert all[..n] == [head] + ps[..n - 1] && all[n..] == ps[n - 1..];
    }
  }

  lemma {:induction false} FirstOfTwo(head: string, rest: string, p: string)
    requires p != []
    ensures Limited([head] + Pieces(rest, p), p, 1) == [head, Substr(rest + p, 0, |rest + p| - |p|)]
  {
    var ps := [head] + Pieces(rest, p);
    assert ps[..1] == [head] && ps[1..] == Pieces(rest, p);
    JoinGivesBack(rest, p);
    assert (rest + p)[0..|rest|] == rest;
  }

  lemma {:induction false} LimitedStep(s: string, rest: string, p: string, n: int, cut: seq<string>, ps: seq<string>)
    requires p != [] && n >= 1 && Find(s, p, 0).Some? && rest == s[Find(s, p, 0).value + |p|..]
    requires cut == Cut(s + p, p, n) && ps == Pieces(s, p)
    requires n > 1 ==> Cut(rest + p, p, n - 1) == Limited(Pieces(rest, p), p, n - 1)
    ensures cut == Limited(ps, p, n)
  {
    var head := s[..Find(s, p, 0).value];
    CutUnfolds(s, p, n);
    if n == 1 {
      FirstOfTwo(head, rest, p);
    } else {
      LimitedCons(head, Pieces(rest, p), p, n);
    }
  }

  /** What the loop of split finds under a limit, for every pattern. */
  lemma {:induction false} LimitedCut(s: string, p: string, n: int)
    requires p != [] && n >= 1
    ensures Cut(s + p, p, n) == Limited(Pieces(s, p), p, n)
    decreases |s|
  {
    if Find(s, p, 0).Some? {
      var rest := s[Find(s, p, 0).value + |p|..];
      if n > 1 {
        LimitedCut(rest, p, n - 1);
      }
      LimitedStep(s, rest, p, n, Cut(s + p, p, n), Pieces(s, p));
    } else {
      LastCut(s, p, n);
    }
  }

  lemma {:induction false} UnlimitedStep(s: string, rest: string, p: string, n: int, cut: seq<string>, ps: seq<string>)
    requires p != [] && n <= 0 && Find(s, p, 0).Some? && rest == s[Find(s, p, 0).value + |p|..]
    requires cut == Cut(s + p, p, n) && ps == Pieces(s, p)
    requires Cut(rest + p, p, n - 1) == Shortened(Pieces(rest, p), p)
    ensures cut == Shortened(ps, p)
  {
    CutUnfolds(s, p, n);
    ShortenedCons(s[..Find(s, p, 0).value], Pieces(rest, p), p);
  }

  /** And without a limit: the pieces, with the last one cut short. */
  lemma {:induction false} UnlimitedCut(s: string, p: string, n: int)
    requires p != [] && n <= 0
    ensures Cut(s + p, p, n) == Shortened(Pieces(s, p), p)
    decreases |s|
  {
    if Find(s, p, 0).Some? {
      var rest := s[Find(s, p, 0).value + |p|..];
      UnlimitedCut(rest, p, n - 1);
      UnlimitedStep(s, rest, p, n, Cut(s + p, p, n), Pieces(s, p));
    } else {
      LastCut(s, p, n);
    }
  }

  // ----- joining what split returns ----------------------------------------------------------------

  lemma {:induction false} JoinSnoc(front: seq<string>, x: string, p: string)
    ensures Join(front + [x], p) == if front == [] then x else Join(front, p) + p + x
    decreases |front|
  {
    if |front| > 1 {
      JoinSnoc(front[1..], x, p);
      assert (front + [x])[1..] == front[1..] + [x];
      assert front[0] + p + (Join(front[1..], p) + p + x) == front[0] + p + Join(front[1..], p) + p + x;
    } else if |front| == 1 {
      assert (front + [x])[1..] == [x];
    }
  }

  /** Cutting the last piece short changes what the pieces join to. */
  lemma {:induction false} JoinShortened(ps: seq<string>, p: string, r: string)
    requires ps != [] && p != [] && Find(ps[|ps| - 1], p, 0).None?
    ensures Join(Shortened(ps, p), r) == Join(ps, r) <==> SeamIsClean(ps[|ps| - 1], p)
  {
    var front := ps[..|ps| - 1];
    var last := ps[|ps| - 1];
    assert ps == front + [last];
    KeptAndRest(last, p);
    JoinSnoc(front, last, r);
    JoinSnoc(front, Kept(last, p), r);
    if front != [] && Kept(last, p) != last {
      SameEnd(Join(front, r) + r, Kept(last, p), last);
    }
  }

  lemma {:induction false} SameEnd(a: string, b: string, c: string)
    ensures a + b == a + c <==> b == c
  {
    assert (a + b)[|a|..] == b && (a + c)[|a|..] == c;
  }

  /** With the piece behind it, it joins to the string with the pattern appended. */
  lemma {:induction false} JoinWithRest(ps: seq<string>, p: string)
    requires ps != [] && p != [] && Find(ps[|ps| - 1], p, 0).None?
    ensures Join(Shortened(ps, p) + [Rest(ps[|ps| - 1], p)], p) == Join(ps, p) + p
  {
    var front := ps[..|ps| - 1];
    var last := ps[|ps| - 1];
    assert ps == front + [last];
    KeptAndRest(last, p);
    JoinSnoc(front, last, p);
    JoinSnoc(front, Kept(last, p), p);
    JoinSnoc(Shortened(ps, p), Rest(last, p), p);
    if front != [] {
      SameBehind(Join(front, p) + p, Kept(last, p), p, Rest(last, p), last);
    }
  }

  lemma {:induction false} SameBehind(a: string, kept: string, p: string, rest: string, last: string)
    requires kept + p + rest == last + p
    ensures a + kept + p + rest == a + last + p
  {
    assert a + kept + p + rest == a + (kept + p + rest);
    assert a + last + p == a + (last + p);
  }

  lemma {:induction false} JoinSplit(ps: seq<string>, p: string, n: nat)
    requires 0 < n < |ps|
    ensures Join(ps[..n] + [Join(ps[n..], p)], p) == Join(ps, p)
    decreases n
  {
    var t := ps[..n] + [Join(ps[n..], p)];
    if n == 1 {
      assert t == [ps[0], Join(ps[1..], p)];
      assert t[1..] == [Join(ps[1..], p)];
    } else {
      JoinSplit(ps[1..], p, n - 1);
      assert t[1..] == ps[1..][..n - 1] + [Join(ps[1..][n - 1..], p)];
    }
  }

  lemma {:induction false} LastPieceLacksPattern(s: string, p: string)
    requires p != []
    ensures Find(LastPiece(s, p), p, 0).None?
  {
    PiecesLackPattern(s, p, |Pieces(s, p)| - 1);
  }

  /** Without a limit, split finds the pieces exactly when the seam behind the last piece is clean. */
  lemma {:induction false} SplitIsPieces(s: string, p: string)
    requires p != []
    ensures SplitResult(s, p, -1) == Pieces(s, p) <==> SeamIsClean(LastPiece(s, p), p)
  {
    var ps := Pieces(s, p);
    LastPieceLacksPattern(s, p);
    UnlimitedCut(s, p, 0);
    KeptAndRest(LastPiece(s, p), p);
    assert ps == ps[..|ps| - 1] + [LastPiece(s, p)];
    assert Shortened(ps, p)[|ps| - 1] == Kept(LastPiece(s, p), p);
  }

  /** replaceAll is split and join, exactly under the same condition. */
  lemma {:induction false} ReplaceIsSplitAndJoin(s: string, f: string, r: string)
    requires f != []
    ensures SplitResult(s, f, -1) != []
    ensures Replaced(s, f, r) == Join(SplitResult(s, f, -1), r) <==> SeamIsClean(LastPiece(s, f), f)
  {
    LastPieceLacksPattern(s, f);
    UnlimitedCut(s, f, 0);
    JoinPieces(s, f, r);
    JoinShortened(Pieces(s, f), f, r);
  }

  /** Under a limit of L >= 2, with N separators in the string: there are L pieces if N >= L - 2, and N + 1
      otherwise.  Joining gives the string back if N >= L - 1, does not if N == L - 2, and does exactly when the
      seam is clean if there are fewer. */
  lemma {:induction false} SplitWithLimit(s: string, p: string, limit: int)
    requires p != [] && limit >= 2
    ensures var r := SplitResult(s, p, limit);
            var separators := |Pieces(s, p)| - 1;
            && r != []
            && |r| == (if separators >= limit - 2 then limit else separators + 1)
            && (Join(r, p) == s <==>
                  separators >= limit - 1 || (separators < limit - 2 && SeamIsClean(LastPiece(s, p), p)))
  {
    var ps := Pieces(s, p);
    var n := limit - 1;
    LimitedCut(s, p, n);
    JoinGivesBack(s, p);
    LastPieceLacksPattern(s, p);
    if |ps| > n {
      JoinSplit(ps, p, n);
    } else if |ps| == n {
      JoinWithRest(ps, p);
      assert |s + p| != |s|;
    } else {
      JoinShortened(ps, p, p);
    }
  }

  // ----- patterns without a border -----------------------------------------------------------------

  /** No start of the pattern, short of the whole, is also its end. */
  predicate BorderFree(p: string) {
    forall n :: 0 < n < |p| ==> p[..n] != p[|p| - n..]
  }

  /** A match across the seam makes a border. */
  lemma {:induction false} SeamMakesBorder(s: string, p: string, k: nat)
    requires MatchAt(s + p, p, k) && k < |s| < k + |p|
    ensures var n := k + |p| - |s|; p[..n] == p[|p| - n..]
  {
    var n := k + |p| - |s|;
    MatchMeans(s + p, p, k);
    assert (s + p)[k..k + |p|][|p| - n..] == (s + p)[|s|..|s| + n];
    assert (s + p)[|s|..|s| + n] == p[..n];
  }

  /** Behind a string without the pattern the seam is clean, if the pattern has no border. */
  lemma {:induction false} BorderFreeSeam(s: string, p: string)
    requires p != [] && BorderFree(p) && Find(s, p, 0).None?
    ensures SeamIsClean(s, p)
  {
    AppendedIsFound(s, p);
    var k := Find(s + p, p, 0).value;
    if k + |p| <= |s| {
      MatchInLonger(s, p, p, k);
      FindIsFirst(s, p, 0, k);
    } else if k < |s| {
      SeamMakesBorder(s, p, k);
    }
  }

  /** For a pattern without a border replaceAll is split and join, and split loses nothing. */
  lemma {:induction false} BorderFreeSplit(s: string, p: string, r: string)
    requires p != [] && BorderFree(p)
    ensures SplitResult(s, p, -1) == Pieces(s, p) && Replaced(s, p, r) == Join(SplitResult(s, p, -1), r)
  {
    LastPieceLacksPattern(s, p);
    BorderFreeSeam(LastPiece(s, p), p);
    SplitIsPieces(s, p);
    ReplaceIsSplitAndJoin(s, p, r);
  }

  // ----- special cases -----------------------------------------------------------------------------

  function Empty(n: nat): seq<string> {
    if n == 0 then [] else [""] + Empty(n - 1)
  }

  /** An empty pattern, which needs a limit: empty pieces in front of the string. */
  lemma {:induction false} EmptyPattern(s: string, limit: int)
    requires s != [] && limit >= 2
    ensures SplitResult(s, [], limit) == Empty(limit - 1) + [s]
  {
    assert s + [] == s;
    EmptyCut(s, limit - 1);
  }

  lemma {:induction false} EmptyCut(s: string, n: nat)
    requires s != [] && n > 0
    ensures Cut(s, [], n) == Empty(n) + [s]
  {
    EmptyTurn(s, n);
    if n > 1 {
      EmptyCut(s, n - 1);
      assert [""] + (Empty(n - 1) + [s]) == Empty(n) + [s];
    } else {
      assert Empty(1) == [""];
    }
  }

  /** One turn of the loop with an empty pattern. */
  lemma {:induction false} EmptyTurn(s: string, n: nat)
    requires s != [] && n > 0
    ensures Cut(s, [], n) == if n == 1 then ["", s] else [""] + Cut(s, [], n - 1)
  {
    assert Find(s, [], 0) == Some(0) && s[0..] == s && s[..0] == "" && s[0..0 + |s|] == s;
  }

  /** A pattern with a border can be found across the seam, and then the end of the string is lost. */
  lemma {:induction false} BorderLosesText()
    ensures SplitResult("a", "aa", -1) == [""] && Pieces("a", "aa") == ["a"]
  {
    assert "a" + "aa" == "aaa";
    MatchMeans("aaa", "aa", 0);
    assert "aaa"[0..2] == "aa";
    assert "aaa"[2..] == "a";
    assert "aaa"[..0] == "";
  }
}
