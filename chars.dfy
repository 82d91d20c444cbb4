/** Character classes shared by the program's three file-name sanitisers. */
module Chars {

  /** The ten characters every sanitiser removes: `< > : ' " / \ | ? *`. */
  predicate IsInvalidFileChar(c: char)
  {
    c == '<' || c == '>' || c == ':' || c == '\'' || c == '"' ||
    c == '/' || c == '\\' || c == '|' || c == '?' || c == '*'
  }

  /** Rust's `char::is_control`: general category Cc, U+0000..U+001F and U+007F..U+009F. */
  predicate IsControl(c: char)
  {
    c as int <= 0x1F || (0x7F <= c as int <= 0x9F)
  }

  /** Rust's `char::is_ascii`. */
  predicate IsAscii(c: char)
  {
    c as int < 0x80
  }

  /** Rust's `char::len_utf8`: the number of bytes of the character's UTF-8 encoding. */
  function Utf8Len(c: char): (n: nat)
    ensures 1 <= n <= 4
    ensures n == 1 <==> IsAscii(c)
  {
    if c as int < 0x80 then 1
    else if c as int < 0x800 then 2
    else if c as int < 0x1_0000 then 3
    else 4
  }
}
