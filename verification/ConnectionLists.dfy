/** Connection headers, exactly: which elements of the list set a flag, and which are missed. */
module ConnectionLists {
  import opened Ascii
  import opened HttpTypes
  import opened ByteMachine
  import opened Callbacks
  import opened Text
  import opened Evidence
  import opened Meaning
  import opened Segments
  import opened HeaderLines

  // ----- one element -----------------------------------------------------------------------------

  /** A start of `word`, in any case, short of the whole. */
  predicate PartOf(t: string, word: string) {
    0 < |t| < |word| && Folded(t) == word[..|t|]
  }

  /** `word`, in any case, and spaces. */
  predicate WholeOf(t: string, word: string) {
    Folded(TrimEnd(t)) == word
  }

  /** The header state that stands for an element's text `t`, blanks in front left out. */
  function TextState(t: string): HeaderState {
    if PartOf(t, KEEP_ALIVE) then MatchingKeepAlive
    else if PartOf(t, CLOSE) then MatchingClose
    else if PartOf(t, UPGRADE) then MatchingUpgradeToken
    else if WholeOf(t, KEEP_ALIVE) then ConnectionKeepAlive
    else if WholeOf(t, CLOSE) then ConnectionClose
    else if WholeOf(t, UPGRADE) then ConnectionUpgrade
    else MatchingToken
  }

  lemma PartNext(t: string, ch: char, word: string)
    requires t != [] && |word| > 1
    ensures PartOf(t + [ch], word) <==> |t| + 1 < |word| && PartOf(t, word) && Fold(ch) == word[|t|]
    ensures ch != ' ' ==> (WholeOf(t + [ch], word) <==> |t| + 1 == |word| && PartOf(t, word) && Fold(ch) == word[|t|])
    ensures ch == ' ' ==> (WholeOf(t + [ch], word) <==> WholeOf(t, word))
  {
    FoldedNext(t, ch);
    TrimEndNext(t, ch);
    var w := Folded(t) + [Fold(ch)];
    if |t| < |word| {
      assert word[..|t| + 1] == word[..|t|] + [word[|t|]];
      assert w[..|t|] == Folded(t) && w[|t|] == Fold(ch);
      if |t| + 1 == |word| {
        assert word[..|word|] == word;
      }
    }
  }

  lemma {:induction false} TrimEndIsPrefix(s: string)
    ensures |TrimEnd(s)| <= |s| && TrimEnd(s) == s[..|TrimEnd(s)|]
  {
    if s != [] && s[|s| - 1] == ' ' {
      TrimEndIsPrefix(s[..|s| - 1]);
    } else {
      assert s[..|s|] == s;
    }
  }

  lemma FirstLetter(t: string, word: string)
    requires |word| > 1 && (PartOf(t, word) || WholeOf(t, word))
    ensures t != [] && Fold(t[0]) == word[0]
  {
    if PartOf(t, word) {
      assert Folded(t)[0] == word[..|t|][0];
    } else {
      TrimEndIsPrefix(t);
      assert Folded(TrimEnd(t))[0] == word[0];
    }
  }

  lemma PartIsNotWhole(t: string, word: string)
    requires PartOf(t, word)
    ensures !WholeOf(t, word)
  {
    TrimEndIsPrefix(t);
  }

  predicate IsTokenWord(word: string) {
    word == KEEP_ALIVE || word == CLOSE || word == UPGRADE
  }

  /** The three words differ in their first letter, so a text is on the way to one of them only. */
  lemma OneWord(t: string, a: string, b: string)
    requires IsTokenWord(a) && IsTokenWord(b) && a != b && (PartOf(t, a) || WholeOf(t, a))
    ensures !PartOf(t, b) && !WholeOf(t, b)
  {
    FirstLetter(t, a);
    if PartOf(t, b) || WholeOf(t, b) {
      FirstLetter(t, b);
    }
  }

  /** The state that reads `word`, and the one that has read it. */
  function PartState(word: string): HeaderState {
    if word == KEEP_ALIVE then MatchingKeepAlive else if word == CLOSE then MatchingClose else MatchingUpgradeToken
  }

  function WholeState(word: string): HeaderState {
    if word == KEEP_ALIVE then ConnectionKeepAlive else if word == CLOSE then ConnectionClose else ConnectionUpgrade
  }

  lemma TextStateIs(t: string, word: string)
    requires IsTokenWord(word)
    ensures PartOf(t, word) ==> TextState(t) == PartState(word)
    ensures WholeOf(t, word) ==> TextState(t) == WholeState(word)
  {
    if PartOf(t, word) || WholeOf(t, word) {
      if word != KEEP_ALIVE { OneWord(t, word, KEEP_ALIVE); }
      if word != CLOSE { OneWord(t, word, CLOSE); }
      if word != UPGRADE { OneWord(t, word, UPGRADE); }
    }
    if PartOf(t, word) {
      PartIsNotWhole(t, word);
    }
  }

  /** On the way to no word. */
  ghost predicate IsOther(t: string) {
    forall word :: IsTokenWord(word) ==> !PartOf(t, word) && !WholeOf(t, word)
  }

  lemma OtherStays(t: string, ch: char)
    requires t != [] && IsOther(t)
    ensures IsOther(t + [ch])
  {
    forall word | IsTokenWord(word)
      ensures !PartOf(t + [ch], word) && !WholeOf(t + [ch], word)
    {
      PartNext(t, ch, word);
    }
  }

  lemma MissedIsOther(t: string, word: string, ch: char)
    requires IsTokenWord(word) && t != []
    requires (PartOf(t, word) && Fold(ch) != word[|t|]) || (WholeOf(t, word) && ch != ' ')
    ensures IsOther(t + [ch])
  {
    forall w | IsTokenWord(w)
      ensures !PartOf(t + [ch], w) && !WholeOf(t + [ch], w)
    {
      PartNext(t, ch, w);
      if w != word {
        OneWord(t, word, w);
      } else if PartOf(t, word) {
        PartIsNotWhole(t, word);
      }
    }
  }

  lemma OtherState(t: string)
    requires IsOther(t)
    ensures TextState(t) == MatchingToken
  {
  }

  /** Which word, if any, a text is on the way to. */
  lemma WordOfText(t: string) returns (word: string)
    ensures IsOther(t) || (IsTokenWord(word) && (PartOf(t, word) || WholeOf(t, word)))
  {
    word := if PartOf(t, KEEP_ALIVE) || WholeOf(t, KEEP_ALIVE) then KEEP_ALIVE
            else if PartOf(t, CLOSE) || WholeOf(t, CLOSE) then CLOSE
            else UPGRADE;
  }

  /** One more byte of an element. */
  lemma TextNext(t: string, index: nat, ch: char)
    requires t != [] && ch != ',' && ch != CR && (MatchesToken(TextState(t)) ==> index == |t| - 1)
    ensures ValueNext(TextState(t), index, ch) == TextState(t + [ch])
  {
    var word := WordOfText(t);
    if IsOther(t) {
      OtherState(t);
      OtherStays(t, ch);
      OtherState(t + [ch]);
    } else {
      TextStateIs(t, word);
      TextStateIs(t + [ch], word);
      if PartOf(t, word) {
        PartTextNext(t, index, ch, word);
      } else {
        WholeTextNext(t, index, ch, word);
      }
    }
  }

  lemma WholeTextNext(t: string, index: nat, ch: char, word: string)
    requires t != [] && IsTokenWord(word) && WholeOf(t, word) && ch != ','
    requires TextState(t) == WholeState(word) && (WholeOf(t + [ch], word) ==> TextState(t + [ch]) == WholeState(word))
    ensures ValueNext(TextState(t), index, ch) == TextState(t + [ch])
  {
    PartNext(t, ch, word);
    if ch != ' ' {
      MissedIsOther(t, word, ch);
      OtherState(t + [ch]);
    }
  }

  lemma PartTextNext(t: string, index: nat, ch: char, word: string)
    requires IsTokenWord(word) && PartOf(t, word) && index == |t| - 1 && ch != ',' && ch != CR
    requires TextState(t) == PartState(word)
    requires PartOf(t + [ch], word) ==> TextState(t + [ch]) == PartState(word)
    requires WholeOf(t + [ch], word) ==> TextState(t + [ch]) == WholeState(word)
    ensures ValueNext(TextState(t), index, ch) == TextState(t + [ch])
  {
    MatchStep(PartState(word), index, ch);
    PartNext(t, ch, word);
    if Fold(ch) != word[|t|] {
      MissedIsOther(t, word, ch);
      OtherState(t + [ch]);
    }
  }

  // ----- the list --------------------------------------------------------------------------------

  predicate IsSpace(ch: char) {
    ch == ' ' || ch == NUL
  }

  function TrimSpaces(s: string): string {
    if s == [] then []
    else
      var r := TrimSpaces(s[..|s| - 1]);
      if r == [] && IsSpace(s[|s| - 1]) then [] else r + [s[|s| - 1]]
  }

  /** An element without the spaces in front; the first element of a list has none. */
  function TextOf(first: bool, e: string): string {
    if first then e else TrimSpaces(e)
  }

  /** How an element is read: looked at, skipped up to its comma, or lost with the rest of the header. */
  datatype Mode = Looking | Skipping | Lost

  /** The header state at the end of an element that is looked at. */
  function ElementState(first: bool, e: string): HeaderState {
    var t := TextOf(first, e);
    if !first && t == [] then TokenStart
    else if !first && !IsToken(Lower(t[0])) then General
    else TextState(t)
  }

  /** How the element after `e` is read.  A comma is missed after the start of a word, and as the first byte
      of the list; an empty element, or one that starts with no token character, loses the rest. */
  function ModeNext(mode: Mode, first: bool, e: string): Mode {
    match mode
    case Lost => Lost
    case Skipping => Looking
    case Looking =>
      var h := ElementState(first, e);
      if first && e == [] then Skipping
      else if h.General? || h.TokenStart? then Lost
      else if MatchesToken(h) then Skipping
      else Looking
  }

  /** How the element after `es` is read. */
  function ModeAfter(es: seq<string>): Mode {
    if es == [] then Looking else ModeNext(ModeAfter(es[..|es| - 1]), |es| == 1, es[|es| - 1])
  }

  lemma TrimSpacesNext(s: string, c: char)
    ensures TrimSpaces(s + [c]) == if TrimSpaces(s) == [] && IsSpace(c) then [] else TrimSpaces(s) + [c]
  {
    assert (s + [c])[..|s|] == s;
  }

  lemma LowerSpace(ch: char)
    ensures Lower(ch) == ' ' <==> IsSpace(ch)
    ensures Lower(ch) != '\t'
  {
  }

  /** The first byte of an element. */
  lemma TextStart(ch: char)
    requires ch != CR
    ensures TextState([ch]) == FirstTokenState(Lower(ch), MatchingToken)
  {
    FoldedNext("", ch);
    TrimEndNext("", ch);
    assert "" + [ch] == [ch];
    assert Folded([ch])[0] == Fold(ch);
    LowerFolds(ch, 'k');
    LowerFolds(ch, 'c');
    LowerFolds(ch, 'u');
  }

  /** The state in which an element's text `t` has been read, with `index`. */
  predicate ReadsText(h: HeaderState, index: nat, t: string) {
    h == TextState(t) && (MatchesToken(h) ==> index == |t| - 1)
  }

  lemma TextReadOn(h: HeaderState, index: nat, t: string, ch: char)
    requires t != [] && ReadsText(h, index, t) && ch != ',' && ch != CR
    ensures ReadsText(ValueNext(h, index, ch), ValueIndex(h, index, ch), t + [ch])
  {
    TextNext(t, index, ch);
    OnTheWay(t, ch);
  }

  /** The first byte that is no space, after a comma. */
  lemma TextBegins(index: nat, ch: char)
    requires ch != ',' && ch != CR && index == 0
    ensures var h := ValueNext(TokenStart, index, ch);
            if IsSpace(ch) then h.TokenStart?
            else if !IsToken(Lower(ch)) then h.General?
            else ReadsText(h, index, [ch])
  {
    LowerSpace(ch);
    TextStart(ch);
  }

  /** A word that is being read goes on, or was being read before. */
  lemma OnTheWay(t: string, ch: char)
    requires t != []
    ensures MatchesToken(TextState(t + [ch])) ==> MatchesToken(TextState(t))
  {
    PartNext(t, ch, KEEP_ALIVE);
    PartNext(t, ch, CLOSE);
    PartNext(t, ch, UPGRADE);
  }

  /** The header state and `index` at the end of an element, read in `mode`. */
  predicate ReadsElement(h: HeaderState, index: nat, mode: Mode, first: bool, e: string) {
    match mode
    case Lost => h.General?
    case Skipping => h.MatchingToken?
    case Looking =>
      var t := TextOf(first, e);
      if !first && t == [] then h.TokenStart? && index == 0
      else if !first && !IsToken(Lower(t[0])) then h.General?
      else t != [] && ReadsText(h, index, t)
  }

  /** One more byte of an element. */
  lemma ElementReadOn(h: HeaderState, index: nat, mode: Mode, first: bool, e: string, ch: char)
    requires ReadsElement(h, index, mode, first, e) && ch != ',' && ch != CR
    ensures ReadsElement(ValueNext(h, index, ch), ValueIndex(h, index, ch), mode, first, e + [ch])
  {
    if mode.Looking? {
      LookedAtReadOn(h, index, first, e, ch);
    }
  }

  lemma LookedAtReadOn(h: HeaderState, index: nat, first: bool, e: string, ch: char)
    requires ReadsElement(h, index, Looking, first, e) && ch != ',' && ch != CR
    ensures ReadsElement(ValueNext(h, index, ch), ValueIndex(h, index, ch), Looking, first, e + [ch])
  {
    var t := TextOf(first, e);
    TrimSpacesNext(e, ch);
    if h.TokenStart? && t == [] {
      TextBegins(index, ch);
    } else if first || IsToken(Lower(t[0])) {
      TextReadOn(h, index, t, ch);
    }
  }

  /** The comma after an element. */
  lemma CommaRead(h: HeaderState, index: nat, mode: Mode, first: bool, e: string)
    requires ReadsElement(h, index, mode, first, e)
    ensures ReadsElement(ValueNext(h, index, ','), ValueIndex(h, index, ','), ModeNext(mode, first, e), false, "")
  {
    assert Lower(',') == ',';
    if mode.Looking? {
      LookedAtComma(h, index, first, e);
    }
  }

  lemma CommaInWord(h: HeaderState, index: nat)
    requires MatchesConnectionToken(h)
    ensures ValueNext(h, index, ',').MatchingToken?
  {
    assert Lower(',') == ',';
    if index + 1 < |WordOf(h)| {
      WordLetters(h, index + 1);
    }
  }

  lemma CommaAfterWord(h: HeaderState, index: nat)
    requires h.MatchingToken? || CompleteToken(h)
    ensures ValueNext(h, index, ',').TokenStart? && ValueIndex(h, index, ',') == 0
  {
  }

  lemma TextStates(t: string)
    ensures var h := TextState(t); MatchesConnectionToken(h) || h.MatchingToken? || CompleteToken(h)
  {
  }

  lemma LookedAtComma(h: HeaderState, index: nat, first: bool, e: string)
    requires ReadsElement(h, index, Looking, first, e)
    ensures ReadsElement(ValueNext(h, index, ','), ValueIndex(h, index, ','), ModeNext(Looking, first, e), false, "")
  {
    assert Lower(',') == ',' && TrimSpaces("") == "";
    TextStates(TextOf(first, e));
    if MatchesToken(h) {
      CommaInWord(h, index);
    } else if h.MatchingToken? || CompleteToken(h) {
      CommaAfterWord(h, index);
    }
  }

  // ----- the flags -------------------------------------------------------------------------------

  /** Element `i` is looked at, and is `word`. */
  predicate IsSeen(es: seq<string>, i: nat, word: string)
    requires i < |es|
  {
    ModeAfter(es[..i]).Looking? && WholeOf(TextOf(i == 0, es[i]), word)
  }

  /** Some element that a comma has ended is seen to be `word`. */
  predicate SeenBefore(es: seq<string>, word: string) {
    exists i :: 0 <= i < |es| - 1 && IsSeen(es, i, word)
  }

  /** Some element of a list is seen to be `word`. */
  predicate Sees(v: string, word: string) {
    exists i :: 0 <= i < |Elements(v)| && IsSeen(Elements(v), i, word)
  }

  lemma SeenLonger(es: seq<string>, e: string, word: string)
    requires es != []
    ensures SeenBefore(es + [e], word) <==> SeenBefore(es, word) || IsSeen(es, |es| - 1, word)
  {
    var all := es + [e];
    forall i | 0 <= i < |es|
      ensures IsSeen(all, i, word) <==> IsSeen(es, i, word)
    {
      assert all[..i] == es[..i];
    }
  }

  lemma SeenSameEnd(es: seq<string>, e: string, word: string)
    requires es != []
    ensures SeenBefore(es[..|es| - 1] + [e], word) <==> SeenBefore(es, word)
  {
    var other := es[..|es| - 1] + [e];
    forall i | 0 <= i < |es| - 1
      ensures IsSeen(other, i, word) <==> IsSeen(es, i, word)
    {
      assert other[..i] == es[..i];
    }
  }

  /** The state at the end of an element says whether it is seen to be `word`. */
  lemma StateSees(h: HeaderState, index: nat, mode: Mode, first: bool, e: string, word: string)
    requires IsTokenWord(word) && ReadsElement(h, index, mode, first, e)
    ensures h == WholeState(word) <==> mode.Looking? && WholeOf(TextOf(first, e), word)
  {
    var t := TextOf(first, e);
    TextStateIs(t, word);
    if WholeOf(t, word) {
      FirstLetter(t, word);
    }
  }

  /** The flags after a list has been read up to its last element: those of the elements that commas have ended. */
  function EndedFlags(before: Flags, es: seq<string>): Flags {
    before.(keepAlive := before.keepAlive || SeenBefore(es, KEEP_ALIVE),
            close := before.close || SeenBefore(es, CLOSE),
            connectionUpgrade := before.connectionUpgrade || SeenBefore(es, UPGRADE))
  }

  /** Within a list: the header state, and the flags. */
  predicate ListAt(before: Flags, p: Fields, v: string) {
    ElementsAt(before, p, Elements(v))
  }

  predicate ElementsAt(before: Flags, p: Fields, es: seq<string>)
    requires es != []
  {
    var n := |es| - 1;
    && p.flags == EndedFlags(before, es)
    && ReadsElement(p.headerState, p.index, ModeAfter(es[..n]), n == 0, es[n])
  }

  lemma FirstListByte(before: Flags, p: Fields, ch: char)
    requires p.flags == before && p.index == 0 && p.headerState == FirstTokenState(Lower(ch), MatchingToken) && ch != CR
    ensures ListAt(before, p, [ch])
  {
    assert "" + [ch] == [ch];
    ElementsNext("", ch);
    if ch == ',' {
      assert Elements([ch]) == ["", ""];
      EmptyIsNotSeen();
    } else {
      assert Elements([ch]) == [[ch]];
      FirstElementByte(before, p, ch);
    }
  }

  lemma FirstElementByte(before: Flags, p: Fields, ch: char)
    requires p.flags == before && p.index == 0 && p.headerState == FirstTokenState(Lower(ch), MatchingToken) && ch != CR
    ensures ElementsAt(before, p, [[ch]])
  {
    TextStart(ch);
    assert [[ch]][..0] == [];
  }

  lemma EmptyIsNotSeen()
    ensures forall word :: IsTokenWord(word) ==> !SeenBefore(["", ""], word)
    ensures ModeAfter(["", ""][..1]) == Skipping
  {
    assert ["", ""][..1] == [""];
    assert [""][..0] == [];
    assert Folded(TrimEnd("")) == "";
  }

  /** A byte that is no comma. */
  lemma NextListByte(before: Flags, p: Fields, q: Fields, v: string, ch: char)
    requires ListAt(before, p, v) && ch != ',' && ch != CR
    requires q.flags == p.flags && q.headerState == ValueNext(p.headerState, p.index, ch)
    requires q.index == ValueIndex(p.headerState, p.index, ch)
    ensures ListAt(before, q, v + [ch])
  {
    ElementsNext(v, ch);
    NextElementByte(before, p, q, Elements(v), ch);
  }

  lemma NextElementByte(before: Flags, p: Fields, q: Fields, es: seq<string>, ch: char)
    requires es != [] && ElementsAt(before, p, es) && ch != ',' && ch != CR
    requires q.flags == p.flags && q.headerState == ValueNext(p.headerState, p.index, ch)
    requires q.index == ValueIndex(p.headerState, p.index, ch)
    ensures ElementsAt(before, q, es[..|es| - 1] + [es[|es| - 1] + [ch]])
  {
    var n := |es| - 1;
    var e := es[n] + [ch];
    var es' := es[..n] + [e];
    assert es'[..n] == es[..n];
    ElementReadOn(p.headerState, p.index, ModeAfter(es[..n]), n == 0, es[n], ch);
    SeenSameEnd(es, e, KEEP_ALIVE);
    SeenSameEnd(es, e, CLOSE);
    SeenSameEnd(es, e, UPGRADE);
  }

  /** The element at the end of the list is seen to be `word` exactly in the state for it. */
  lemma EndSees(before: Flags, p: Fields, v: string, word: string)
    requires ListAt(before, p, v) && IsTokenWord(word)
    ensures SeenBefore(Elements(v) + [""], word) <==> SeenBefore(Elements(v), word) || p.headerState == WholeState(word)
  {
    var es := Elements(v);
    var n := |es| - 1;
    SeenLonger(es, "", word);
    StateSees(p.headerState, p.index, ModeAfter(es[..n]), n == 0, es[n], word);
  }

  lemma WordFlags(h: HeaderState, flags: Flags)
    ensures ConnectionFlag(h, flags)
         == flags.(keepAlive := flags.keepAlive || h == WholeState(KEEP_ALIVE),
                   close := flags.close || h == WholeState(CLOSE),
                   connectionUpgrade := flags.connectionUpgrade || h == WholeState(UPGRADE))
  {
  }

  /** What the end of an element does to the flags. */
  lemma SeenFlags(before: Flags, p: Fields, v: string)
    requires ListAt(before, p, v)
    ensures ConnectionFlag(p.headerState, p.flags) == EndedFlags(before, Elements(v) + [""])
  {
    EndSees(before, p, v, KEEP_ALIVE);
    EndSees(before, p, v, CLOSE);
    EndSees(before, p, v, UPGRADE);
    WordFlags(p.headerState, p.flags);
  }

  lemma CommaListByte(before: Flags, p: Fields, q: Fields, v: string)
    requires ListAt(before, p, v)
    requires q.flags == (if EndsElement(p.headerState, ',') then ConnectionFlag(p.headerState, p.flags) else p.flags)
    requires q.headerState == ValueNext(p.headerState, p.index, ',')
    requires q.index == ValueIndex(p.headerState, p.index, ',')
    ensures ListAt(before, q, v + [','])
  {
    var es := Elements(v);
    var n := |es| - 1;
    ElementsNext(v, ',');
    var all := es + [""];
    assert all[..n + 1] == es && es[..n + 1] == es;
    CommaRead(p.headerState, p.index, ModeAfter(es[..n]), n == 0, es[n]);
    SeenFlags(before, p, v);
  }

  // ----- the machine on a list -------------------------------------------------------------------

  /** From `c`, at the value of a Connection header, the machine is past `v`, and has read it as the list `w`. */
  predicate ListRead(c: Config, r: Config, v: string, w: string) {
    && r.last == Consume && r.trace == Emit(c.trace, Data(ValueText, v))
    && r.p == c.p.(state := HeaderValue, headerState := r.p.headerState, index := r.p.index, flags := r.p.flags)
    && ListAt(c.p.flags, r.p, w)
  }

  lemma ReadsIsList(h: HeaderState, index: nat, mode: Mode, first: bool, e: string)
    requires ReadsElement(h, index, mode, first, e)
    ensures IsTokenState(h) || h.General?
  {
    TextStates(TextOf(first, e));
  }

  /** Behind this list the header is a general one: an element is empty, or starts with no token character. */
  predicate IsLostList(v: string) {
    var es := Elements(v);
    var n := |es| - 1;
    var t := TrimSpaces(es[n]);
    match ModeAfter(es[..n])
    case Lost => true
    case Skipping => false
    case Looking => n > 0 && t != [] && !IsToken(Lower(t[0]))
  }

  lemma LostListIsGeneral(before: Flags, p: Fields, v: string)
    requires ListAt(before, p, v)
    ensures p.headerState.General? <==> IsLostList(v)
  {
    var es := Elements(v);
    TextStates(TextOf(|es| == 1, es[|es| - 1]));
  }

  /** Behind `v`, every byte of `s` passes IS_HEADER_CHAR, or is not looked at. */
  predicate RestPasses(lenient: bool, v: string, s: string) {
    forall i :: 0 <= i < |s| ==> lenient || IsHeaderChar(s[i]) || IsLostList(v + s[..i])
  }

  /** So does every byte of a list but the first one. */
  predicate ListPasses(lenient: bool, v: string) {
    v == [] || RestPasses(lenient, [v[0]], v[1..])
  }

  lemma RestPassesNext(lenient: bool, v: string, s: string, ch: char)
    ensures RestPasses(lenient, v, s + [ch]) <==>
            RestPasses(lenient, v, s) && (lenient || IsHeaderChar(ch) || IsLostList(v + s))
  {
    var t := s + [ch];
    assert t[..|s|] == s;
    forall i | 0 <= i < |s|
      ensures t[i] == s[i] && t[..i] == s[..i]
    {
    }
    if RestPasses(lenient, v, t) {
      forall i | 0 <= i < |s|
        ensures lenient || IsHeaderChar(s[i]) || IsLostList(v + s[..i])
      {
        assert lenient || IsHeaderChar(t[i]) || IsLostList(v + t[..i]);
      }
    }
  }

  lemma NextByteOfList(c: Config, r: Config, v: string, w: string, ch: char)
    requires ListRead(c, r, v, w) && ch != CR && ch != LF && (c.p.lenient || IsHeaderChar(ch) || IsLostList(w))
    ensures ListRead(c, Next(r, ch), v + [ch], w + [ch])
  {
    var es := Elements(w);
    LostListIsGeneral(c.p.flags, r.p, w);
    ReadsIsList(r.p.headerState, r.p.index, ModeAfter(es[..|es| - 1]), |es| == 1, es[|es| - 1]);
    ValueByteRead(r, ch, v, c.trace);
    var q := ValueStep(r.p, ch).p;
    if ch == ',' {
      CommaListByte(c.p.flags, r.p, q, w);
    } else {
      NextListByte(c.p.flags, r.p, q, w, ch);
    }
  }

  /** The machine is past `s`, behind the list `w`, or has refused a byte of it. */
  predicate RestOutcome(c: Config, r: Config, v: string, w: string, s: string) {
    if RestPasses(c.p.lenient, w, s) then ListRead(c, r, v + s, w + s)
    else r.last == Fail && r.p.errno == InvalidHeaderToken
  }

  lemma NextByteOfRest(c: Config, r: Config, v: string, w: string, s: string, ch: char)
    requires RestOutcome(c, r, v, w, s) && ch != CR && ch != LF
    ensures RestOutcome(c, Next(r, ch), v, w, s + [ch])
  {
    RestPassesNext(c.p.lenient, w, s, ch);
    assert v + s + [ch] == v + (s + [ch]) && w + s + [ch] == w + (s + [ch]);
    if RestPasses(c.p.lenient, w, s) {
      LostListIsGeneral(c.p.flags, r.p, w + s);
      if c.p.lenient || IsHeaderChar(ch) || IsLostList(w + s) {
        NextByteOfList(c, r, v + s, w + s, ch);
      } else {
        RefusedValueByte(r, ch);
      }
    }
  }

  lemma {:induction false} RestOfList(c: Config, r: Config, v: string, w: string, s: string)
    requires ListRead(c, r, v, w) && CR !in s && LF !in s
    ensures RestOutcome(c, Feed(r, s), v, w, s)
  {
    if s == [] {
      assert v + s == v && w + s == w;
    } else {
      var t := s[..|s| - 1];
      var ch := s[|s| - 1];
      InitOf([], s);
      RestOfList(c, r, v, w, t);
      NextByteOfRest(c, Feed(r, t), v, w, t, ch);
      assert t + [ch] == s;
    }
  }

  /** A Connection value is accepted exactly when every byte passes that IS_HEADER_CHAR is applied to; then it has
      been read as a list. */
  lemma {:induction false} ListIsExact(c: Config, v: string)
    requires Running(c) && c.p.state.HeaderValueDiscardWs? && c.p.headerState.Connection? && IsValue(v)
    ensures var r := Feed(c, v);
            if ListPasses(c.p.lenient, v) then ListRead(c, r, v, v)
            else r.last == Fail && r.p.errno == InvalidHeaderToken
  {
    var ch, s := v[0], v[1..];
    FirstValueByte(c, ch);
    FirstListByte(c.p.flags, Next(c, ch).p, ch);
    FeedFirst(c, ch, s);
    assert [ch] + s == v;
    RestOfList(c, Next(c, ch), [ch], [ch], s);
  }

  /** The flags of a connection list: those that were set, and those of the elements that are seen. */
  function ListFlags(flags: Flags, v: string): Flags {
    flags.(keepAlive := flags.keepAlive || Sees(v, KEEP_ALIVE),
           close := flags.close || Sees(v, CLOSE),
           connectionUpgrade := flags.connectionUpgrade || Sees(v, UPGRADE))
  }

  lemma SeesAll(v: string, word: string)
    ensures Sees(v, word) <==> SeenBefore(Elements(v) + [""], word)
  {
    var es := Elements(v);
    SeenLonger(es, "", word);
  }

  lemma ListFinished(before: Flags, p: Fields, v: string)
    requires ListAt(before, p, v)
    ensures FinishedFlags(p.headerState, p.flags) == ListFlags(before, v)
  {
    var es := Elements(v);
    SeenFlags(before, p, v);
    SeesAll(v, KEEP_ALIVE);
    SeesAll(v, CLOSE);
    SeesAll(v, UPGRADE);
    ReadsIsList(p.headerState, p.index, ModeAfter(es[..|es| - 1]), |es| == 1, es[|es| - 1]);
  }

  // ----- a list on several lines -----------------------------------------------------------------

  /** At the end of the list an element is still to start. */
  predicate AwaitsElement(v: string) {
    var es := Elements(v);
    var n := |es| - 1;
    n > 0 && ModeAfter(es[..n]).Looking? && TrimSpaces(es[n]) == ""
  }

  lemma AwaitsIsExact(before: Flags, p: Fields, v: string)
    requires ListAt(before, p, v)
    ensures AwaitsElement(v) <==> p.headerState.TokenStart?
    ensures p.headerState.TokenStart? ==> p.index == 0
    ensures !p.headerState.TokenStart? ==> LosesRest(p.headerState)
  {
    var es := Elements(v);
    TextStates(TextOf(|es| == 1, es[|es| - 1]));
  }

  /** A list with the text of a continuation, whose blank counts as a space. */
  function JoinedList(v: string, text: string): string {
    if text == [] then v else v + " " + text[1..]
  }

  /** The flags of a list that goes on over continuation lines.  Where an element is still to start, the list goes on;
      anywhere else a continuation loses the element before it, and all that follows. */
  function ContinuedFlags(flags: Flags, v: string, more: seq<Continuation>): (r: Flags)
    ensures r.trailing == flags.trailing
    decreases |more|
  {
    if more == [] then ListFlags(flags, v)
    else if AwaitsElement(v) then ContinuedFlags(flags, JoinedList(v, more[0].text), more[1..])
    else EndedFlags(flags, Elements(v))
  }

  /** Where an element is still to start, every byte of a continuation behind its blank passes IS_HEADER_CHAR, or is not
      looked at; anywhere else none of them is. */
  predicate MorePasses(lenient: bool, v: string, more: seq<Continuation>)
    decreases |more|
  {
    || more == [] || !AwaitsElement(v) || more[0].text == []
    || (RestPasses(lenient, v + " ", more[0].text[1..]) &&
        MorePasses(lenient, JoinedList(v, more[0].text), more[1..]))
  }

  /** The blank that continues a list. */
  lemma ListBlank(c: Config, blank: char)
    requires Running(c) && c.p.state.HeaderValueLws? && IsBlankByte(blank)
    requires c.p.headerState.TokenStart? && c.p.index == 0
    ensures At(Next(c, blank), c.p.(state := HeaderValue), Emit(c.trace, Data(ValueText, [blank])))
  {
    var o := ValueLwsByte(c.p, blank);
    BiteTwice(c, blank, o, ValueStartByte(o.p, blank));
  }

  lemma SpaceInList(before: Flags, p: Fields, v: string)
    requires ListAt(before, p, v) && p.headerState.TokenStart?
    ensures ListAt(before, p, v + [' '])
  {
    SpaceAwaits(p, ' ');
    NextListByte(before, p, p, v, ' ');
  }

  lemma SpaceAwaits(p: Fields, space: char)
    requires p.headerState.TokenStart? && space == ' '
    ensures ValueNext(p.headerState, p.index, space) == p.headerState
    ensures ValueIndex(p.headerState, p.index, space) == p.index
  {
    assert Lower(space) == space;
  }

  lemma BlankOfList(c: Config, r: Config, v: string, w: string, k: Continuation)
    requires ListRead(c, r, v, w) && AwaitsElement(w) && IsContinuation(k)
    ensures ListRead(c, Feed(r, k.end + [k.text[0]]), v + [k.text[0]], w + " ")
  {
    AwaitsIsExact(c.p.flags, r.p, w);
    ValueLineEnd(r, k.end);
    ListBlank(Feed(r, k.end), k.text[0]);
    FeedLast(r, k.end, k.text[0]);
    EmitTwice(c.trace, ValueText, v, [k.text[0]]);
    SpaceInList(c.p.flags, r.p, w);
  }

  lemma {:induction false} ListContinuation(c: Config, r: Config, v: string, w: string, k: Continuation)
    requires ListRead(c, r, v, w) && AwaitsElement(w) && IsContinuation(k)
    requires RestPasses(c.p.lenient, w + " ", k.text[1..])
    ensures ListRead(c, Feed(r, k.end + k.text), v + k.text, JoinedList(w, k.text))
  {
    var blank := [k.text[0]];
    var rest := k.text[1..];
    BlankOfList(c, r, v, w, k);
    RestOfList(c, Feed(r, k.end + blank), v + blank, w + " ", rest);
    FeedConcat(r, k.end + blank, rest);
    JoinText(k.end, k.text);
    JoinText(v, k.text);
  }

  /** From `c`, at the value of a Connection header, the line is over, and has had these flags. */
  predicate ListOver(c: Config, e: Config, v: string, flags: Flags) {
    && BetweenHeaders(e) && Settled(e).trace == Emit(c.trace, Data(ValueText, v))
    && Settled(e).p == c.p.(state := HeaderFieldStart, headerState := e.p.headerState, index := e.p.index,
                            flags := flags)
  }

  lemma {:induction false} ListEnds(c: Config, r: Config, v: string, w: string, end: string)
    requires ListRead(c, r, v, w) && IsLineEnd(end)
    ensures ListOver(c, Feed(r, end), v, ListFlags(c.p.flags, w))
  {
    ListFinished(c.p.flags, r.p, w);
    LineFinish(r, end);
    ValueLineEnd(r, end);
  }

  lemma {:induction false} ListIsLost(c: Config, r: Config, v: string, w: string, more: seq<Continuation>, end: string)
    requires ListRead(c, r, v, w) && !AwaitsElement(w) && IsLineEnd(end)
    requires more != [] && forall k :: k in more ==> IsContinuation(k)
    ensures ListOver(c, Feed(Feed(r, MoreText(more)), end), v + MoreValue(more), EndedFlags(c.p.flags, Elements(w)))
  {
    var d := Feed(r, MoreText(more));
    AwaitsIsExact(c.p.flags, r.p, w);
    LostContinuations(r, more, r.p, c.trace, v);
    LineFinish(d, end);
    ValueLineEnd(d, end);
  }

  lemma {:induction false} ListGoesOn(c: Config, r: Config, v: string, w: string, more: seq<Continuation>, end: string)
    requires ListRead(c, r, v, w) && IsLineEnd(end)
    requires (forall k :: k in more ==> IsContinuation(k)) && MorePasses(c.p.lenient, w, more)
    ensures ListOver(c, Feed(Feed(r, MoreText(more)), end), v + MoreValue(more), ContinuedFlags(c.p.flags, w, more))
    decreases |more|
  {
    if more == [] {
      ListEnds(c, r, v, w, end);
      assert v + MoreValue(more) == v;
    } else if AwaitsElement(w) {
      var k := more[0];
      var d := Feed(r, k.end + k.text);
      ListContinuation(c, r, v, w, k);
      ListGoesOn(c, d, v + k.text, JoinedList(w, k.text), more[1..], end);
      FeedConcat(r, k.end + k.text, MoreText(more[1..]));
      assert v + k.text + MoreValue(more[1..]) == v + MoreValue(more);
    } else {
      ListIsLost(c, r, v, w, more, end);
    }
  }

  /** A Connection or Proxy-Connection line sets exactly the flags of the elements that are seen, on all its lines. */
  lemma ConnectionLine(c: Config, l: Line)
    requires BetweenHeaders(c) && IsLine(l) && IsConnectionName(l.name) && NoOpenName(Settled(c).trace)
    requires l.value != [] && ListPasses(c.p.lenient, l.value) && MorePasses(c.p.lenient, l.value, l.more)
    ensures var p := Settled(c).p;
            LineDone(c, Feed(c, LineText(l)), l, p.(flags := ContinuedFlags(p.flags, l.value, l.more)))
  {
    var d := Feed(c, l.name + ":" + l.lead);
    LineStart(c, l);
    LineParts(c, l);
    LineEmits(Settled(c).trace, l.name, WholeValue(l));
    ListIsExact(d, l.value);
    ListGoesOn(d, Feed(d, l.value), l.value, l.value, l.more, l.end);
  }

  /** An element that is looked for is missed behind the start of a word. */
  lemma MissedElement()
    ensures HasElement("clo,close", "close") && !Sees("clo,close", CLOSE)
  {
    TwoElements();
    var es := ["clo", "close"];
    assert es[..0] == [] && es[..1] == ["clo"] && ["clo"][..0] == [];
    CloIsPart();
    CloseIsElement();
    assert ModeAfter(["clo"]) == Skipping;
    assert Elements("clo,close")[1] == "close";
  }

  lemma FoldedLowerCase(s: string)
    requires forall i :: 0 <= i < |s| ==> 'a' <= s[i] <= 'z'
    ensures Folded(s) == s
  {
  }

  lemma CloIsPart()
    ensures TextState("clo") == MatchingClose && !WholeOf("clo", CLOSE)
  {
    FoldedLowerCase("clo");
    assert CLOSE[..3] == "clo";
    TextStateIs("clo", CLOSE);
    PartIsNotWhole("clo", CLOSE);
  }

  lemma CloseIsElement()
    ensures IsElement("close", "close")
  {
    TrimStartIsSame("close");
    FoldedLowerCase("close");
  }

  lemma {:induction false} TrimStartIsSame(s: string)
    requires forall i :: 0 <= i < |s| ==> !IsBlank(s[i])
    ensures TrimStart(s) == s
  {
    if s != [] {
      TrimStartIsSame(s[..|s| - 1]);
      assert s[..|s| - 1] + [s[|s| - 1]] == s;
    }
  }

  lemma TwoElements()
    ensures Elements("clo,close") == ["clo", "close"]
  {
    PairOfElements("clo", "close");
    assert "clo" + [','] + "close" == "clo,close";
  }

  lemma {:induction false} PairOfElements(a: string, b: string)
    requires (forall i :: 0 <= i < |a| ==> a[i] != ',') && forall i :: 0 <= i < |b| ==> b[i] != ','
    ensures Elements(a + [','] + b) == [a, b]
  {
    OneElement(a);
    ElementsNext(a, ',');
    ElementsAppend(a + [','], b);
    assert [a, ""][..1] == [a] && "" + b == b;
  }

  lemma OneElement(e: string)
    requires forall i :: 0 <= i < |e| ==> e[i] != ','
    ensures Elements(e) == [e]
  {
    ElementsAppend([], e);
    assert [] + e == e && Elements([])[..0] == [];
  }

  /** Bytes without a comma go to the last element. */
  lemma {:induction false} ElementsAppend(v: string, e: string)
    requires forall i :: 0 <= i < |e| ==> e[i] != ','
    decreases |e|
    ensures Elements(v + e) == Elements(v)[..|Elements(v)| - 1] + [LastElement(v) + e]
  {
    if e == [] {
      assert v + e == v;
      assert LastElement(v) + e == LastElement(v);
    } else {
      var t := e[..|e| - 1];
      ElementsAppend(v, t);
      ElementsAppendByte(v, t, e[|e| - 1]);
      assert e == t + [e[|e| - 1]];
    }
  }

  lemma {:induction false} ElementsAppendByte(v: string, t: string, ch: char)
    requires ch != ',' && Elements(v + t) == Elements(v)[..|Elements(v)| - 1] + [LastElement(v) + t]
    ensures Elements(v + (t + [ch])) == Elements(v)[..|Elements(v)| - 1] + [LastElement(v) + (t + [ch])]
  {
    var head := Elements(v)[..|Elements(v)| - 1];
    ElementsNext(v + t, ch);
    LastGrows(Elements(v + t), head, LastElement(v), t, ch);
    assert v + (t + [ch]) == (v + t) + [ch];
  }

  lemma LastGrows(es: seq<string>, head: seq<string>, last: string, t: string, ch: char)
    requires es == head + [last + t]
    ensures es[..|es| - 1] + [es[|es| - 1] + [ch]] == head + [last + (t + [ch])]
  {
    assert last + t + [ch] == last + (t + [ch]);
  }
}
