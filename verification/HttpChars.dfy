/** Character classes of the HTTP parser, in strict mode. */
module HttpChars {
  import opened Bytes

  const TAB: byte := 9
  const LF: byte := 10
  const FF: byte := 12
  const CR: byte := 13
  const SP: byte := 32
  const COMMA: byte := ',' as int
  const COLON: byte := ':' as int
  const SEMICOLON: byte := ';' as int
  const SLASH: byte := '/' as int
  const DOT: byte := '.' as int

  /** Sets the bit that distinguishes lower-case letters. */
  function Lower(ch: byte): byte { if ch / 32 % 2 == 0 then ch + 32 else ch }

  predicate IsAlpha(ch: byte) { 'a' as int <= Lower(ch) <= 'z' as int }

  predicate IsNum(ch: byte) { '0' as int <= ch <= '9' as int }

  predicate IsAlphaNum(ch: byte) { IsAlpha(ch) || IsNum(ch) }

  predicate IsHex(ch: byte) { IsNum(ch) || 'a' as int <= Lower(ch) <= 'f' as int }

  predicate OneOf(ch: byte, s: string) { exists i :: 0 <= i < |s| && s[i] as int == ch }

  predicate IsMark(ch: byte) { OneOf(ch, "-_.!~*'()") }

  predicate IsUserinfoChar(ch: byte) { IsAlphaNum(ch) || IsMark(ch) || OneOf(ch, "%;:&=+$,") }

  predicate IsSchemaChar(ch: byte) { IsAlphaNum(ch) || OneOf(ch, ".-+") }

  predicate IsHostChar(ch: byte) { IsAlphaNum(ch) || OneOf(ch, ".-") }

  /** The bit table of URL characters: visible ASCII without '#' and '?'. */
  predicate IsUrlChar(ch: byte) { 33 <= ch <= 126 && ch != '#' as int && ch != '?' as int }

  /** The lower-case form of a character that may be in a token; 0 for any other character. */
  function Token(ch: byte): byte {
    if 'A' as int <= ch <= 'Z' as int then ch + 32
    else if IsAlphaNum(ch) || OneOf(ch, "!#$%&'*+-.^_`|~") then ch
    else 0
  }

  predicate IsHeaderChar(ch: byte) { ch == CR || ch == LF || ch == TAB || (ch > 31 && ch != 127) }

  /** The value of a hexadecimal digit; -1 for any other character. */
  function Unhex(ch: byte): (d: int)
    ensures -1 <= d < 16
  {
    if IsNum(ch) then ch - '0' as int
    else if 'a' as int <= ch <= 'f' as int then ch - 'a' as int + 10
    else if 'A' as int <= ch <= 'F' as int then ch - 'A' as int + 10
    else -1
  }
}
