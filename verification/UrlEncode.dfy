/** UrlEncode: percent-encoding of byte strings, and back. */
module UrlEncode {
  import opened HttpTypes
  import opened Tables

  /** A string of bytes. */
  predicate IsBytes(s: string) {
    forall i :: 0 <= i < |s| ==> s[i] as int < 256
  }

  /** ToHex, for a half byte. */
  function ToHex(x: nat): (c: char)
    requires x < 16
    ensures FromHex(c) == Some(x)
  {
    if x > 9 then (x + 55) as char else (x + 48) as char
  }

  /** FromHex; None where its assert fails.  Letters beyond F are taken as well. */
  function FromHex(c: char): (x: Option<nat>)
    ensures x.Some? ==> x.value < 36
  {
    if 'A' <= c <= 'Z' then Some(c as int - 'A' as int + 10)
    else if 'a' <= c <= 'z' then Some(c as int - 'a' as int + 10)
    else if '0' <= c <= '9' then Some(c as int - '0' as int)
    else None
  }

  /** The bytes that are left as they are: isalnum of the C locale, and - _ . ~ & = */
  predicate IsPlain(c: char) {
    '0' <= c <= '9' || 'A' <= c <= 'Z' || 'a' <= c <= 'z' || c == '-' || c == '_' || c == '.' || c == '~' || c == '&' ||
    c == '='
  }

  function EncodeByte(c: char): (r: string)
    requires c as int < 256
    ensures 1 <= |r| <= 3
  {
    if IsPlain(c) then [c]
    else if c == ' ' then "+"
    else ['%', ToHex(c as int / 16), ToHex(c as int % 16)]
  }

  function Encoded(s: string): string
    requires IsBytes(s)
  {
    if s == [] then [] else Encoded(s[..|s| - 1]) + EncodeByte(s[|s| - 1])
  }

  /** A byte in front of what has been decoded, unless that failed. */
  function Before(c: char, r: Option<string>): Option<string> {
    match r
    case None => None
    case Some(t) => Some([c] + t)
  }

  function Prefixed(s: string, r: Option<string>): Option<string> {
    match r
    case None => None
    case Some(t) => Some(s + t)
  }

  /** high*16 + low, cut to a byte. */
  function Joined(high: nat, low: nat): char {
    ((high * 16 + low) % 256) as char
  }

  /** What a text decodes to; None if an assert of `decode` fails on it. */
  function Decoded(s: string): Option<string> {
    if s == [] then Some([])
    else if s[0] == '+' then Before(' ', Decoded(s[1..]))
    else if s[0] != '%' then Before(s[0], Decoded(s[1..]))
    else if |s| <= 2 || FromHex(s[1]).None? || FromHex(s[2]).None? then None
    else Before(Joined(FromHex(s[1]).value, FromHex(s[2]).value), Decoded(s[3..]))
  }

  method Encode(str: string) returns (strTemp: string)
    requires IsBytes(str)
    ensures strTemp == Encoded(str)
  {
    strTemp := "";
    var i := 0;
    while i < |str|
      invariant 0 <= i <= |str| && strTemp == Encoded(str[..i])
    {
      assert str[..i + 1][..i] == str[..i];
      var c := str[i];
      if IsPlain(c) {
        strTemp := strTemp + [c];
      } else if c == ' ' {
        strTemp := strTemp + "+";
      } else {
        strTemp := strTemp + ['%'];
        strTemp := strTemp + [ToHex(c as int / 16)];
        strTemp := strTemp + [ToHex(c as int % 16)];
      }
      i := i + 1;
    }
    assert str[..i] == str;
  }

  /** None stands for an assert that fails. */
  method Decode(str: string) returns (r: Option<string>)
    ensures r == Decoded(str)
  {
    var strTemp := "";
    var i := 0;
    PrefixedNothing(Decoded(str));
    assert str[0..] == str;
    while i < |str|
      invariant 0 <= i <= |str| && Decoded(str) == Prefixed(strTemp, Decoded(str[i..]))
    {
      DecodeStep(str, i, strTemp);
      if str[i] == '+' {
        strTemp := strTemp + " ";
      } else if str[i] == '%' {
        if i + 2 >= |str| {
          return None;
        }
        var high := FromHex(str[i + 1]);
        var low := FromHex(str[i + 2]);
        if high.None? || low.None? {
          return None;
        }
        i := i + 2;
        strTemp := strTemp + [Joined(high.value, low.value)];
      } else {
        strTemp := strTemp + [str[i]];
      }
      i := i + 1;
    }
    assert strTemp + [] == strTemp;
    return Some(strTemp);
  }

  lemma PrefixedNothing(r: Option<string>)
    ensures Prefixed([], r) == r
  {
    if r.Some? {
      assert [] + r.value == r.value;
    }
  }

  lemma PrefixedBefore(s: string, c: char, r: Option<string>)
    ensures Prefixed(s, Before(c, r)) == Prefixed(s + [c], r)
  {
    if r.Some? {
      assert s + ([c] + r.value) == s + [c] + r.value;
    }
  }

  lemma DecodeStep(str: string, i: nat, strTemp: string)
    requires i < |str|
    ensures str[i] == '+' ==> Prefixed(strTemp, Decoded(str[i..])) == Prefixed(strTemp + " ", Decoded(str[i + 1..]))
    ensures str[i] != '+' && str[i] != '%' ==>
              Prefixed(strTemp, Decoded(str[i..])) == Prefixed(strTemp + [str[i]], Decoded(str[i + 1..]))
    ensures str[i] == '%' ==>
              if i + 2 >= |str| || FromHex(str[i + 1]).None? || FromHex(str[i + 2]).None? then Decoded(str[i..]) == None
              else
                var c := Joined(FromHex(str[i + 1]).value, FromHex(str[i + 2]).value);
                Prefixed(strTemp, Decoded(str[i..])) == Prefixed(strTemp + [c], Decoded(str[i + 3..]))
  {
    var t := str[i..];
    assert t[1..] == str[i + 1..];
    if str[i] == '+' {
      PrefixedBefore(strTemp, ' ', Decoded(str[i + 1..]));
    } else if str[i] != '%' {
      PrefixedBefore(strTemp, str[i], Decoded(str[i + 1..]));
    } else if i + 2 < |str| && FromHex(str[i + 1]).Some? && FromHex(str[i + 2]).Some? {
      assert t[3..] == str[i + 3..];
      PrefixedBefore(strTemp, Joined(FromHex(str[i + 1]).value, FromHex(str[i + 2]).value), Decoded(str[i + 3..]));
    }
  }

  // ----- encoding and decoding together ----------------------------------------------------------

  /** An encoded byte in front of any text. */
  lemma DecodeEncodedByte(c: char, t: string)
    requires c as int < 256
    ensures Decoded(EncodeByte(c) + t) == Before(c, Decoded(t))
  {
    var s := EncodeByte(c) + t;
    if IsPlain(c) || c == ' ' {
      assert s[1..] == t;
    } else {
      assert s[3..] == t;
      var n := c as int;
      assert n / 16 * 16 + n % 16 == n;
    }
  }

  /** Decoding gives back what was encoded, whatever follows; no assert fails on what was encoded. */
  lemma {:induction false} DecodeEncoded(s: string, t: string)
    requires IsBytes(s)
    ensures Decoded(Encoded(s) + t) == Prefixed(s, Decoded(t))
    decreases |s|
  {
    if s == [] {
      assert Encoded(s) + t == t;
      PrefixedNothing(Decoded(t));
    } else {
      var a := s[..|s| - 1];
      var c := s[|s| - 1];
      assert Encoded(s) + t == Encoded(a) + (EncodeByte(c) + t);
      DecodeEncoded(a, EncodeByte(c) + t);
      DecodeEncodedByte(c, t);
      PrefixedBefore(a, c, Decoded(t));
      assert a + [c] == s;
    }
  }

  lemma RoundTrip(s: string)
    requires IsBytes(s)
    ensures Decoded(Encoded(s)) == Some(s)
  {
    DecodeEncoded(s, []);
    assert Encoded(s) + [] == Encoded(s) && s + [] == s;
  }

  /** Two strings with the same encoding are the same. */
  lemma EncodingIsInjective(a: string, b: string)
    requires IsBytes(a) && IsBytes(b) && Encoded(a) == Encoded(b)
    ensures a == b
  {
    RoundTrip(a);
    RoundTrip(b);
  }

  lemma {:induction false} EncodedLength(s: string)
    requires IsBytes(s)
    ensures |s| <= |Encoded(s)| <= 3 * |s|
  {
    if s != [] {
      EncodedLength(s[..|s| - 1]);
    }
  }

  // ----- texts that encoding gives back ----------------------------------------------------------

  lemma {:induction false} BytesFirst(c: char, s: string)
    ensures IsBytes([c] + s) <==> c as int < 256 && IsBytes(s)
  {
    var t := [c] + s;
    assert t[0] == c && forall i :: 0 <= i < |s| ==> s[i] == t[i + 1];
  }

  lemma {:induction false} EncodedNext(s: string, c: char)
    requires IsBytes(s) && c as int < 256
    ensures IsBytes(s + [c]) && Encoded(s + [c]) == Encoded(s) + EncodeByte(c)
  {
    assert (s + [c])[..|s|] == s;
  }

  lemma {:induction false} EncodedBetween(c: char, t: string, d: char)
    requires c as int < 256 && d as int < 256 && IsBytes(t) && IsBytes([c] + t)
    requires Encoded([c] + t) == EncodeByte(c) + Encoded(t)
    ensures IsBytes(t + [d]) && IsBytes([c] + (t + [d]))
    ensures Encoded([c] + (t + [d])) == EncodeByte(c) + Encoded(t + [d])
  {
    EncodedNext(t, d);
    EncodedNext([c] + t, d);
    Assoc([c], t, [d]);
    Assoc(EncodeByte(c), Encoded(t), EncodeByte(d));
  }

  lemma {:induction false} Assoc(a: string, b: string, c: string)
    ensures a + b + c == a + (b + c)
  {
  }

  lemma {:induction false} EncodedFirst(c: char, s: string)
    requires c as int < 256 && IsBytes(s)
    ensures IsBytes([c] + s) && Encoded([c] + s) == EncodeByte(c) + Encoded(s)
    decreases |s|
  {
    if s == [] {
      EncodedAlone(c);
      assert [c] + s == [c];
    } else {
      var t := s[..|s| - 1];
      EncodedFirst(c, t);
      EncodedBetween(c, t, s[|s| - 1]);
      assert t + [s[|s| - 1]] == s;
    }
  }

  lemma {:induction false} EncodedAlone(c: char)
    requires c as int < 256
    ensures IsBytes([c]) && Encoded([c]) == EncodeByte(c) + Encoded([])
  {
    EncodedNext([], c);
    assert [] + [c] == [c];
    assert [] + EncodeByte(c) == EncodeByte(c) + [];
  }

  /** A digit as `encode` writes it: lower-case letters and letters beyond F, which `decode` takes, are not used. */
  predicate IsHexDigit(c: char) {
    '0' <= c <= '9' || 'A' <= c <= 'F'
  }

  /** A percent sign and two digits that stand for a byte which needs them. */
  predicate IsTriple(t: string) {
    && |t| > 2 && t[0] == '%' && IsHexDigit(t[1]) && IsHexDigit(t[2])
    && var c := Joined(FromHex(t[1]).value, FromHex(t[2]).value); !IsPlain(c) && c != ' '
  }

  /** A text of plain bytes, plus signs and such triples. */
  predicate IsCanonical(t: string)
    decreases |t|
  {
    || t == []
    || ((IsPlain(t[0]) || t[0] == '+') && IsCanonical(t[1..]))
    || (IsTriple(t) && IsCanonical(t[3..]))
  }

  lemma {:induction false} HexDigits(c: char)
    ensures IsHexDigit(c) <==> FromHex(c).Some? && FromHex(c).value < 16 && ToHex(FromHex(c).value) == c
  {
  }

  /** What is encoded is canonical. */
  lemma {:induction false} EncodedIsCanonical(s: string)
    requires IsBytes(s)
    ensures IsCanonical(Encoded(s))
    decreases |s|
  {
    if s != [] {
      var c := s[0];
      assert s == [c] + s[1..];
      BytesFirst(c, s[1..]);
      EncodedFirst(c, s[1..]);
      EncodedIsCanonical(s[1..]);
      ByteIsCanonical(c, Encoded(s[1..]));
    }
  }

  lemma {:induction false} ByteIsCanonical(c: char, t: string)
    requires c as int < 256 && IsCanonical(t)
    ensures IsCanonical(EncodeByte(c) + t)
  {
    var s := EncodeByte(c) + t;
    if IsPlain(c) || c == ' ' {
      assert s[1..] == t;
    } else {
      TripleOf(c, t);
      assert s[3..] == t;
    }
  }

  lemma {:induction false} TripleOf(c: char, t: string)
    requires c as int < 256 && !IsPlain(c) && c != ' '
    ensures IsTriple(['%', ToHex(c as int / 16), ToHex(c as int % 16)] + t)
  {
    HexDigits(ToHex(c as int / 16));
    HexDigits(ToHex(c as int % 16));
    JoinedHalves(c);
  }

  lemma {:induction false} JoinedHalves(c: char)
    requires c as int < 256
    ensures Joined(c as int / 16, c as int % 16) == c
  {
  }

  lemma {:induction false} HalvesJoined(high: nat, low: nat)
    requires high < 16 && low < 16
    ensures Joined(high, low) as int / 16 == high && Joined(high, low) as int % 16 == low
  {
  }

  /** Encoding what a text decodes to gives the text back. */
  predicate IsGivenBack(t: string) {
    Decoded(t).Some? && IsBytes(Decoded(t).value) && Encoded(Decoded(t).value) == t
  }

  /** One byte `c` and what stands for it, `e`, in front of a text that is given back. */
  lemma {:induction false} GivenBackBefore(t: string, e: string, c: char, rest: string)
    requires t == e + rest && c as int < 256 && EncodeByte(c) == e
    requires Decoded(t) == Before(c, Decoded(rest)) && IsGivenBack(rest)
    ensures IsGivenBack(t)
  {
    var s := Decoded(rest).value;
    EncodedFirst(c, s);
  }

  lemma {:induction false} CanonicalIsGivenBack(t: string)
    requires IsCanonical(t)
    ensures IsGivenBack(t)
    decreases |t|
  {
    if t != [] {
      if IsPlain(t[0]) || t[0] == '+' {
        CanonicalIsGivenBack(t[1..]);
        GivenBackBefore(t, [t[0]], if t[0] == '+' then ' ' else t[0], t[1..]);
      } else {
        CanonicalIsGivenBack(t[3..]);
        TripleIsGivenBack(t);
      }
    }
  }

  lemma {:induction false} TripleIsGivenBack(t: string)
    requires IsTriple(t) && IsGivenBack(t[3..])
    ensures IsGivenBack(t)
  {
    HexDigits(t[1]);
    HexDigits(t[2]);
    var high, low := FromHex(t[1]).value, FromHex(t[2]).value;
    HalvesJoined(high, low);
    assert t[..3] == ['%', t[1], t[2]];
    GivenBackBefore(t, t[..3], Joined(high, low), t[3..]);
  }

  /** Encoding a decoded text gives the text back exactly if it is canonical. */
  lemma {:induction false} EncodeDecoded(t: string)
    ensures IsGivenBack(t) <==> IsCanonical(t)
  {
    if IsCanonical(t) {
      CanonicalIsGivenBack(t);
    } else if IsGivenBack(t) {
      EncodedIsCanonical(Decoded(t).value);
    }
  }

  /** So it need not: a space has two encodings. */
  lemma {:induction false} DecodingIsNotInjective()
    ensures Decoded("+") == Decoded("%20") == Some(" ")
    ensures IsGivenBack("+") && !IsGivenBack("%20")
  {
    assert "+"[1..] == "%20"[3..] == [];
    assert FromHex('2') == Some(2) && FromHex('0') == Some(0);
    assert Joined(2, 0) == ' ';
    assert [' '] + [] == " ";
    assert IsCanonical([]);
    EncodeDecoded("+");
    EncodeDecoded("%20");
  }

  // ----- against literal characters --------------------------------------------------------------

  lemma PlainTable(c: char)
    ensures IsPlain(c) <==> c in CAPITALS + SMALLS + DIGITS + "-_.~&="
  {
    AlphaNumTable(c);
  }

  /** FromHex reads digits and letters of either case, also those beyond F, and its assert fails on any other byte. */
  lemma FromHexTable(v: nat)
    requires v < 36
    ensures if v < 10 then FromHex(DIGITS[v]) == Some(v)
            else FromHex(CAPITALS[v - 10]) == FromHex(SMALLS[v - 10]) == Some(v)
  {
    if v < 10 {
      DigitTable(v);
    }
  }

  lemma FromHexElsewhere(c: char)
    ensures FromHex(c).None? <==> c !in CAPITALS + SMALLS + DIGITS
  {
    AlphaNumTable(c);
  }

  function HalfByte(d: nat, capital: bool): char
    requires d < 16
  {
    if capital then HEX_CAPITALS[d] else HEX_SMALLS[d]
  }

  lemma HalfByteTable(d: nat, capital: bool)
    requires d < 16
    ensures FromHex(HalfByte(d, capital)) == Some(d)
  {
    FromHexTable(d);
    if d < 10 {
      assert HEX_CAPITALS[d] == HEX_SMALLS[d] == DIGITS[d];
    }
  }

  /** A byte as `%` and two hexadecimal digits, each in either case. */
  function Escape(c: char, first: bool, second: bool): string
    requires c as int < 256
  {
    ['%', HalfByte(c as int / 16, first), HalfByte(c as int % 16, second)]
  }

  /** Every byte is decoded from it, in any mix of cases, in front of any text. */
  lemma EscapeIsDecoded(c: char, first: bool, second: bool, t: string)
    requires c as int < 256
    ensures Decoded(Escape(c, first, second) + t) == Before(c, Decoded(t))
  {
    HalfByteTable(c as int / 16, first);
    HalfByteTable(c as int % 16, second);
    PairIsDecoded(HalfByte(c as int / 16, first), HalfByte(c as int % 16, second), t);
  }

  /** A digit or a letter as a digit in base 36, in either case. */
  function Digit36(v: nat, capital: bool): char
    requires v < 36
  {
    if v < 10 then DIGITS[v] else if capital then CAPITALS[v - 10] else SMALLS[v - 10]
  }

  lemma Digit36Table(v: nat, capital: bool)
    requires v < 36
    ensures FromHex(Digit36(v, capital)) == Some(v)
  {
    FromHexTable(v);
  }

  /** Digits beyond F carry into the byte, which is cut to eight bits. */
  lemma LettersBeyondF(v: nat, w: nat, first: bool, second: bool, t: string)
    requires v < 36 && w < 36
    ensures Decoded(['%', Digit36(v, first), Digit36(w, second)] + t)
         == Before(((v * 16 + w) % 256) as char, Decoded(t))
  {
    Digit36Table(v, first);
    Digit36Table(w, second);
    PairIsDecoded(Digit36(v, first), Digit36(w, second), t);
  }

  lemma PairIsDecoded(a: char, b: char, t: string)
    requires FromHex(a).Some? && FromHex(b).Some?
    ensures Decoded(['%', a, b] + t) == Before(Joined(FromHex(a).value, FromHex(b).value), Decoded(t))
  {
    assert (['%', a, b] + t)[3..] == t;
  }

  /** An assert fails exactly where two digits or letters are missing behind a percent sign; all other bytes are read
      one by one, and a plus sign as a space. */
  lemma DecodeByteByByte(c: char, t: string)
    ensures c == '%' ==>
              (Decoded([c] + t).None? <==>
               || |t| < 2 || t[0] !in CAPITALS + SMALLS + DIGITS || t[1] !in CAPITALS + SMALLS + DIGITS
               || Decoded(t[2..]).None?)
    ensures c != '%' ==> Decoded([c] + t) == Before(if c == '+' then ' ' else c, Decoded(t))
  {
    var s := [c] + t;
    assert s[1..] == t;
    if c == '%' && |t| >= 2 {
      assert s[1] == t[0] && s[2] == t[1] && s[3..] == t[2..];
      FromHexElsewhere(t[0]);
      FromHexElsewhere(t[1]);
    }
  }
}
