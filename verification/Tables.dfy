/** The character classes and the method strings against literal characters and words. */
module Tables {
  import opened Ascii
  import opened HttpTypes

  const DIGITS := "0123456789"
  const CAPITALS := "ABCDEFGHIJKLMNOPQRSTUVWXYZ"
  const SMALLS := "abcdefghijklmnopqrstuvwxyz"
  const HEX_CAPITALS := "0123456789ABCDEF"
  const HEX_SMALLS := "0123456789abcdef"

  // ----- digits ----------------------------------------------------------------------------------

  lemma DigitTable(d: nat)
    requires d < 10
    ensures IsNum(DIGITS[d]) && DigitValue(DIGITS[d]) == d
  {
  }

  lemma NumTable(c: char)
    ensures IsNum(c) <==> c in DIGITS
  {
    if IsNum(c) {
      assert DIGITS[c as int - '0' as int] == c;
    }
  }

  /** `unhex` reads both cases; of the other bytes it reads those from 0x80 on as the digit zero, and no others. */
  lemma UnhexTable(d: nat)
    requires d < 16
    ensures Unhex(HEX_CAPITALS[d]) == d && Unhex(HEX_SMALLS[d]) == d
  {
  }

  lemma UnhexElsewhere(c: char)
    ensures c !in HEX_CAPITALS && c !in HEX_SMALLS ==> Unhex(c) == if c as int < 128 then -1 else 0
    ensures Unhex(c) >= 0 ==> c in HEX_CAPITALS || c in HEX_SMALLS || 128 <= c as int
  {
    if 0 <= Unhex(c) && c as int < 128 {
      assert HEX_CAPITALS[Unhex(c)] == c || HEX_SMALLS[Unhex(c)] == c;
    }
  }

  lemma HexTable(c: char)
    ensures IsHex(c) <==> c in HEX_CAPITALS || c in HEX_SMALLS
  {
    UnhexElsewhere(c);
    assert IsHex(c) <==> 0 <= Unhex(c) && (c as int < 128);
  }

  // ----- letters ---------------------------------------------------------------------------------

  lemma CapitalTable(c: char)
    ensures 'A' <= c <= 'Z' <==> c in CAPITALS
  {
    if 'A' <= c <= 'Z' {
      assert CAPITALS[c as int - 'A' as int] == c;
    }
  }

  lemma SmallTable(c: char)
    ensures 'a' <= c <= 'z' <==> c in SMALLS
  {
    if 'a' <= c <= 'z' {
      assert SMALLS[c as int - 'a' as int] == c;
    }
  }

  lemma AlphaNumTable(c: char)
    ensures IsAlpha(c) <==> c in CAPITALS + SMALLS
    ensures IsAlphaNum(c) <==> c in CAPITALS + SMALLS + DIGITS
  {
    CapitalTable(c);
    SmallTable(c);
    NumTable(c);
  }

  /** LOWER sets the bit 0x20. */
  lemma LowerTable(c: char)
    requires c as int < 256
    ensures Lower(c) as int == c as int / 64 * 64 + 32 + c as int % 32
  {
  }

  // ----- classes ---------------------------------------------------------------------------------

  /** The token characters of section 3.2.6 of RFC 7230; capitals are folded. */
  lemma TokenTable(c: char)
    ensures IsToken(c) <==> c in CAPITALS + SMALLS + DIGITS + "!#$%&'*+-.^_`|~"
    ensures IsToken(c) && c !in CAPITALS ==> Token(c) == c
  {
    AlphaNumTable(c);
    CapitalTable(c);
  }

  lemma TokenFoldTable(i: nat)
    requires i < 26
    ensures Token(CAPITALS[i]) == SMALLS[i]
  {
  }

  /** The unreserved characters, the reserved ones but for the two that end a path, the percent sign (section 2 of
      RFC 3986), and the printable ones that a URL should not hold. */
  lemma UrlCharTable(c: char)
    ensures IsUrlChar(c) <==>
            c in CAPITALS + SMALLS + DIGITS + "-._~" + ":/[]@" + "!$&'()*+,;=" + "%" + "\"<>\\^`{|}"
  {
    AlphaNumTable(c);
  }

  lemma HostCharTable(c: char)
    ensures IsHostChar(c) <==> c in CAPITALS + SMALLS + DIGITS + ".-"
  {
    AlphaNumTable(c);
  }

  lemma UserinfoCharTable(c: char)
    ensures IsUserinfoChar(c) <==> c in CAPITALS + SMALLS + DIGITS + "-_.!~*'()" + "%;:&=+$,"
  {
    AlphaNumTable(c);
  }

  /** The bytes that a header value may not hold: the control characters but for tab, CR and LF. */
  lemma HeaderCharTable(c: char)
    ensures !IsHeaderChar(c) <==>
            c in "\U{00}\U{01}\U{02}\U{03}\U{04}\U{05}\U{06}\U{07}\U{08}\U{0B}\U{0C}\U{0E}\U{0F}" +
                 "\U{10}\U{11}\U{12}\U{13}\U{14}\U{15}\U{16}\U{17}\U{18}\U{19}\U{1A}\U{1B}\U{1C}\U{1D}" +
                 "\U{1E}\U{1F}\U{7F}"
  {
  }

  // ----- methods ---------------------------------------------------------------------------------

  /** The words of the methods, in the order of enum http_method. */
  const METHODS := [
    "DELETE", "GET", "HEAD", "POST", "PUT", "CONNECT", "OPTIONS", "TRACE",
    "COPY", "LOCK", "MKCOL", "MOVE", "PROPFIND", "PROPPATCH", "SEARCH", "UNLOCK", "BIND", "REBIND", "UNBIND", "ACL",
    "REPORT", "MKACTIVITY", "CHECKOUT", "MERGE",
    "M-SEARCH", "NOTIFY", "SUBSCRIBE", "UNSUBSCRIBE",
    "PATCH", "PURGE", "MKCALENDAR", "LINK", "UNLINK"]

  /** The value of a method in enum http_method. */
  function MethodNumber(m: Method): (n: nat)
    ensures n < 33
  {
    match m
    case DELETE => 0 case GET => 1 case HEAD => 2 case POST => 3 case PUT => 4
    case CONNECT => 5 case OPTIONS => 6 case TRACE => 7
    case COPY => 8 case LOCK => 9 case MKCOL => 10 case MOVE => 11 case PROPFIND => 12 case PROPPATCH => 13
    case SEARCH => 14 case UNLOCK => 15 case BIND => 16 case REBIND => 17 case UNBIND => 18 case ACL => 19
    case REPORT => 20 case MKACTIVITY => 21 case CHECKOUT => 22 case MERGE => 23
    case MSEARCH => 24 case NOTIFY => 25 case SUBSCRIBE => 26 case UNSUBSCRIBE => 27
    case PATCH => 28 case PURGE => 29 case MKCALENDAR => 30 case LINK => 31 case UNLINK => 32
  }

  function MethodOf(n: nat): (m: Method)
    requires n < 33
    ensures MethodNumber(m) == n
  {
    if n < 8 then [DELETE, GET, HEAD, POST, PUT, CONNECT, OPTIONS, TRACE][n]
    else if n < 14 then [COPY, LOCK, MKCOL, MOVE, PROPFIND, PROPPATCH][n - 8]
    else if n < 20 then [SEARCH, UNLOCK, BIND, REBIND, UNBIND, ACL][n - 14]
    else if n < 28 then [REPORT, MKACTIVITY, CHECKOUT, MERGE, MSEARCH, NOTIFY, SUBSCRIBE, UNSUBSCRIBE][n - 20]
    else [PATCH, PURGE, MKCALENDAR, LINK, UNLINK][n - 28]
  }

  lemma MethodWord(m: Method)
    ensures |METHODS| == 33 && MethodString(m) == METHODS[MethodNumber(m)]
  {
    if MethodNumber(m) < 8 {
    } else if MethodNumber(m) < 14 {
    } else if MethodNumber(m) < 20 {
    } else if MethodNumber(m) < 28 {
    } else {
    }
  }

  /** The method strings are these 33 words. */
  lemma MethodTable(w: string)
    ensures (exists m :: MethodString(m) == w) <==> w in METHODS
  {
    if m :| MethodString(m) == w {
      MethodWord(m);
    }
    if w in METHODS {
      var n :| 0 <= n < |METHODS| && METHODS[n] == w;
      MethodWord(DELETE);
      MethodWord(MethodOf(n));
      assert MethodString(MethodOf(n)) == w;
    }
  }
}
