/** Bytes as the source reads them, and the character classes of RFC 8259. */
module Bytes {

  // One byte: a character below 256.
  type Byte = c: char | c as int < 256 witness ' '
  type Bytes = seq<Byte>

  predicate IsWs(c: Byte) {
    c == ' ' || c == '\n' || c == '\r' || c == '\t'
  }

  predicate IsDigit(c: Byte) {
    '0' <= c <= '9'
  }

  predicate IsHex(c: Byte) {
    '0' <= c <= '9' || 'a' <= c <= 'f' || 'A' <= c <= 'F'
  }

  // The bytes that end a bare scalar (a number or a literal name).
  predicate IsDelim(c: Byte) {
    c == ',' || c == '}' || c == ']' || IsWs(c)
  }

  ghost predicate AllWs(s: Bytes) {
    forall i :: 0 <= i < |s| ==> IsWs(s[i])
  }

  ghost predicate AllDigits(s: Bytes) {
    forall i :: 0 <= i < |s| ==> IsDigit(s[i])
  }

  function HexValue(c: Byte): nat {
    if '0' <= c <= '9' then c as int - '0' as int
    else if 'A' <= c <= 'F' then c as int - 'A' as int + 10
    else if 'a' <= c <= 'f' then c as int - 'a' as int + 10
    else 0
  }
}

/** The two results that the source writes as a value or nil. */
module Options {
  datatype Option<+T> = None | Some(value: T)
}
