/** What header names and header values mean, as plain text. */
module Text {
  import opened Ascii
  import opened Tables

  /** ASCII case folding. */
  function Fold(c: char): char {
    if 'A' <= c <= 'Z' then (c as int + 32) as char else c
  }

  function Folded(s: string): (r: string)
    ensures |r| == |s|
    ensures forall i :: 0 <= i < |s| ==> r[i] == Fold(s[i])
  {
    if s == [] then [] else Folded(s[..|s| - 1]) + [Fold(s[|s| - 1])]
  }

  lemma FoldedNext(s: string, c: char)
    ensures Folded(s + [c]) == Folded(s) + [Fold(c)]
  {
    assert (s + [c])[..|s|] == s;
  }

  /** On a token byte the `tokens` table folds case, and so does LOWER on the bytes that the
      constants are made of. */
  lemma TokenFolds(c: char)
    ensures IsToken(c) ==> Token(c) == Fold(c)
  {
  }

  lemma LowerFolds(c: char, w: char)
    requires c != CR && ('a' <= w <= 'z' || w == '-')
    ensures Lower(c) == w <==> Fold(c) == w
  {
  }

  // ----- a list of elements separated by commas -------------------------------------------------

  /** The elements of a comma-separated list; there is always at least one. */
  function Elements(v: string): (r: seq<string>)
    ensures |r| > 0
  {
    if v == [] then [""]
    else
      var r := Elements(v[..|v| - 1]);
      var c := v[|v| - 1];
      if c == ',' then r + [""] else r[..|r| - 1] + [r[|r| - 1] + [c]]
  }

  function LastElement(v: string): string {
    Elements(v)[|Elements(v)| - 1]
  }

  predicate IsBlank(c: char) {
    c == ' ' || c == '\t' || c == NUL
  }

  function TrimStart(s: string): string {
    if s == [] then []
    else
      var r := TrimStart(s[..|s| - 1]);
      if r == [] && IsBlank(s[|s| - 1]) then [] else r + [s[|s| - 1]]
  }

  function TrimEnd(s: string): string {
    if s == [] then [] else if s[|s| - 1] == ' ' then TrimEnd(s[..|s| - 1]) else s
  }

  /** An element that is `word` ignoring case and the blanks around it. */
  predicate IsElement(e: string, word: string) {
    Folded(TrimEnd(TrimStart(e))) == word
  }

  predicate HasElement(v: string, word: string) {
    exists k :: 0 <= k < |Elements(v)| && IsElement(Elements(v)[k], word)
  }

  /** An element that a comma has ended. */
  predicate HasEndedElement(v: string, word: string) {
    exists k :: 0 <= k < |Elements(v)| - 1 && IsElement(Elements(v)[k], word)
  }

  lemma ElementsNext(v: string, c: char)
    ensures Elements(v + [c]) == if c == ',' then Elements(v) + [""]
                                 else Elements(v)[..|Elements(v)| - 1] + [LastElement(v) + [c]]
    ensures LastElement(v + [c]) == if c == ',' then "" else LastElement(v) + [c]
  {
    assert (v + [c])[..|v|] == v;
  }

  lemma EndedElementStays(v: string, c: char, word: string)
    requires HasEndedElement(v, word)
    ensures HasEndedElement(v + [c], word)
  {
    ElementsNext(v, c);
    var k :| 0 <= k < |Elements(v)| - 1 && IsElement(Elements(v)[k], word);
    assert Elements(v + [c])[k] == Elements(v)[k];
  }

  lemma CommaEndsElement(v: string, word: string)
    requires IsElement(LastElement(v), word)
    ensures HasEndedElement(v + [','], word)
  {
    ElementsNext(v, ',');
    var k := |Elements(v)| - 1;
    assert Elements(v + [','])[k] == Elements(v)[k];
  }

  lemma TrimStartNext(s: string, c: char)
    ensures TrimStart(s + [c]) == if TrimStart(s) == [] && IsBlank(c) then [] else TrimStart(s) + [c]
  {
    assert (s + [c])[..|s|] == s;
  }

  lemma TrimEndNext(s: string, c: char)
    ensures TrimEnd(s + [c]) == if c == ' ' then TrimEnd(s) else s + [c]
  {
    assert (s + [c])[..|s|] == s;
  }

  // ----- numbers ---------------------------------------------------------------------------------

  /** The number that the digits of a text make up, other bytes left out. */
  function Decimal(v: string): nat {
    if v == [] then 0
    else
      var n := Decimal(v[..|v| - 1]);
      if IsNum(v[|v| - 1]) then n * 10 + DigitValue(v[|v| - 1]) else n
  }

  /** A digit, then digits and spaces. */
  predicate IsNumeral(v: string) {
    |v| > 0 && IsNum(v[0]) && forall i :: 0 <= i < |v| ==> IsNum(v[i]) || v[i] == ' '
  }

  lemma DecimalNext(v: string, c: char)
    ensures Decimal(v + [c]) == if IsNum(c) then Decimal(v) * 10 + DigitValue(c) else Decimal(v)
  {
    assert (v + [c])[..|v|] == v;
  }

  /** A number as it is printed. */
  function DecimalText(n: nat): string {
    if n < 10 then [DIGITS[n]] else DecimalText(n / 10) + [DIGITS[n % 10]]
  }

  predicate AreNums(v: string) {
    v != [] && forall i :: 0 <= i < |v| ==> IsNum(v[i])
  }

  lemma LastDigit(v: string, d: nat)
    requires d < 10 && (v == [] || AreNums(v))
    ensures AreNums(v + [DIGITS[d]]) && Decimal(v + [DIGITS[d]]) == Decimal(v) * 10 + d
    ensures (v + [DIGITS[d]])[0] == '0' <==> if v == [] then d == 0 else v[0] == '0'
  {
    DigitTable(d);
    DecimalNext(v, DIGITS[d]);
    assert DigitValue('0') == 0;
  }

  /** It is read back, and starts with a zero only if it is zero. */
  lemma {:induction false} DecimalIsRead(n: nat)
    ensures AreNums(DecimalText(n)) && Decimal(DecimalText(n)) == n
    ensures DecimalText(n)[0] == '0' <==> n == 0
  {
    if n < 10 {
      LastDigit("", n);
      assert "" + [DIGITS[n]] == [DIGITS[n]];
    } else {
      DecimalIsRead(n / 10);
      LastDigit(DecimalText(n / 10), n % 10);
    }
  }
}
