/** Bytes and character classes of the parser, in strict mode.  A byte of the stream is a `char`
    whose code is below 256; every class below is total, so nothing depends on that bound. */
module Ascii {

  const CR := '\r'
  const LF := '\n'
  const NUL := '\0'
  const FF := '\U{0C}'

  /** LOWER(c): the byte with bit 0x20 set.  It folds letters, but also sends '\0' to ' '. */
  function Lower(c: char): char {
    var n := c as int;
    if n < 32 || 64 <= n < 96 || 128 <= n < 160 || 192 <= n < 224 then (n + 32) as char else c
  }

  predicate IsAlpha(c: char) {
    'A' <= c <= 'Z' || 'a' <= c <= 'z'
  }

  predicate IsNum(c: char) {
    '0' <= c <= '9'
  }

  predicate IsAlphaNum(c: char) {
    IsAlpha(c) || IsNum(c)
  }

  predicate IsHex(c: char) {
    IsNum(c) || 'A' <= c <= 'F' || 'a' <= c <= 'f'
  }

  predicate IsMark(c: char) {
    c == '-' || c == '_' || c == '.' || c == '!' || c == '~' || c == '*' || c == '\'' || c == '(' || c == ')'
  }

  predicate IsUserinfoChar(c: char) {
    IsAlphaNum(c) || IsMark(c) || c == '%' || c == ';' || c == ':' || c == '&' || c == '=' || c == '+' ||
    c == '$' || c == ','
  }

  predicate IsHostChar(c: char) {
    IsAlphaNum(c) || c == '.' || c == '-'
  }

  /** The normal_url_char bit table: printable ASCII except '#' and '?'. */
  predicate IsUrlChar(c: char) {
    '!' <= c <= '~' && c != '#' && c != '?'
  }

  /** IS_HEADER_CHAR: what a header value may hold when the parser is not lenient. */
  predicate IsHeaderChar(c: char) {
    c == CR || c == LF || c == '\t' || (31 < c as int && c as int != 127)
  }

  /** The `tokens` table: the lower-cased token character, or '\0' for a byte that is not one. */
  function Token(c: char): char {
    if 'A' <= c <= 'Z' then (c as int + 32) as char
    else if 'a' <= c <= 'z' || IsNum(c) || c == '!' || '#' <= c <= '\'' || c == '*' || c == '+' || c == '-' ||
            c == '.' || '^' <= c <= '`' || c == '|' || c == '~' then c
    else NUL
  }

  predicate IsToken(c: char) {
    Token(c) != NUL
  }

  function DigitValue(c: char): (d: nat)
    requires IsNum(c)
    ensures d <= 9
  {
    c as int - '0' as int
  }

  /** The `unhex` table.  Only 128 of its 256 entries are initialised, so every byte from 0x80 up
      reads as the digit zero. */
  function Unhex(c: char): (d: int)
    ensures -1 <= d <= 15
  {
    if IsNum(c) then c as int - '0' as int
    else if 'A' <= c <= 'F' then c as int - 'A' as int + 10
    else if 'a' <= c <= 'f' then c as int - 'a' as int + 10
    else if 128 <= c as int then 0
    else -1
  }
}
