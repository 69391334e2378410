/** How a text may be spelled in a JSON string (RFC 8259, section 7), and that exactly its spellings are read as it. */
module JsonSpelling {
  import opened Bytes
  import opened Options
  import opened Rfc8259
  import opened Selection
  import opened JsonMachine
  import opened JsonForward

  const LOWER: Bytes := "0123456789abcdef"
  const UPPER: Bytes := "0123456789ABCDEF"

  predicate HexDigitOf(h: Byte, n: nat) {
    n < 16 && (h == LOWER[n] || h == UPPER[n])
  }

  // The characters that have an escape of two characters, and what follows its backslash.
  const ESCAPED_CHARS: string := "\"\\/\U{8}\U{C}\n\r\t"
  const ESCAPES: Bytes := "\"\\/bfnrt"

  // An ASCII character may stand for itself, be escaped, or be given by its code.
  ghost predicate SpelledAs(x: StrChar, c: char) {
    match x
    case Raw(b) => b == c && ' ' <= c && c != '"' && c != '\\'
    case Escaped(b) => exists i :: 0 <= i < 8 && ESCAPED_CHARS[i] == c && ESCAPES[i] == b
    case Unicode(h1, h2, h3, h4) =>
      h1 == '0' && h2 == '0' && HexDigitOf(h3, c as int / 16) && HexDigitOf(h4, c as int % 16)
  }

  ghost predicate Spelling(xs: seq<StrChar>, text: string) {
    |xs| == |text| && forall i :: 0 <= i < |xs| ==> SpelledAs(xs[i], text[i])
  }

  ghost predicate Ascii(text: string) {
    forall i :: 0 <= i < |text| ==> text[i] as int < 128
  }

  lemma HexDigitValue(h: Byte, n: nat)
    requires IsHex(h)
    ensures HexDigitOf(h, n) <==> HexValue(h) == n
  {
  }

  lemma CharMeans(x: StrChar, c: char)
    requires ValidChar(x) && c as int < 128
    ensures DecodeChar(x) == c <==> SpelledAs(x, c)
  {
    match x {
      case Raw(_) =>
      case Escaped(b) => EscapeMeans(b, c);
      case Unicode(h1, h2, h3, h4) => CodeSpelled(h1, h2, h3, h4, c);
    }
  }

  lemma EscapeMeans(b: Byte, c: char)
    requires IsEscape(b)
    ensures DecodeEscape(b) == c <==> SpelledAs(Escaped(b), c)
  {
    var i := EscapeIndex(b);
  }

  lemma CodeSpelled(h1: Byte, h2: Byte, h3: Byte, h4: Byte, c: char)
    requires IsHex(h1) && IsHex(h2) && IsHex(h3) && IsHex(h4) && c as int < 128
    ensures DecodeHex(h1, h2, h3, h4) == c <==> SpelledAs(Unicode(h1, h2, h3, h4), c)
  {
    hide HexValue, HexDigitOf, IsHex;
    HexDigitValue(h3, c as int / 16);
    HexDigitValue(h4, c as int % 16);
    ZeroDigit(h1);
    ZeroDigit(h2);
    HexBound(h1);
    HexBound(h2);
    HexBound(h3);
    HexBound(h4);
    CodeMeans(HexValue(h1), HexValue(h2), HexValue(h3), HexValue(h4), c as int);
  }

  lemma ZeroDigit(h: Byte)
    requires IsHex(h)
    ensures HexValue(h) == 0 <==> h == '0'
  {
  }

  lemma HexBound(h: Byte)
    ensures HexValue(h) < 16
  {
  }

  lemma EscapeIndex(b: Byte) returns (i: nat)
    requires IsEscape(b)
    ensures i < 8 && ESCAPES[i] == b && ESCAPED_CHARS[i] == DecodeEscape(b)
  {
    i := if b == '"' then 0 else if b == '\\' then 1 else if b == '/' then 2 else if b == 'b' then 3
         else if b == 'f' then 4 else if b == 'n' then 5 else if b == 'r' then 6 else 7;
  }

  lemma CodeMeans(a: nat, b: nat, c: nat, d: nat, code: nat)
    requires a < 16 && b < 16 && c < 16 && d < 16 && code < 128
    ensures ((a * 16 + b) * 16 + c) * 16 + d == code <==> a == 0 && b == 0 && c == code / 16 && d == code % 16
  {
  }

  /** The characters of a string are read as an ASCII text exactly if they spell it. */
  lemma {:induction false} SpellingMeans(xs: seq<StrChar>, text: string)
    requires ValidChars(xs) && Ascii(text)
    ensures Decode(xs) == text <==> Spelling(xs, text)
    decreases |xs|
  {
    if xs != [] && text != [] {
      CharMeans(xs[0], text[0]);
      SpellingMeans(xs[1..], text[1..]);
      assert text == [text[0]] + text[1..];
      assert Spelling(xs, text) <==> SpelledAs(xs[0], text[0]) && Spelling(xs[1..], text[1..]) by {
        if SpelledAs(xs[0], text[0]) && Spelling(xs[1..], text[1..]) {
          forall i | 0 <= i < |xs|
            ensures SpelledAs(xs[i], text[i])
          {
            assert i > 0 ==> xs[i] == xs[1..][i - 1] && text[i] == text[1..][i - 1];
          }
        }
      }
    }
  }

  /** A token is read as an ASCII text exactly if it is a JSON string that spells it. */
  lemma TextMeans(raw: Bytes, text: string)
    requires Ascii(text)
    ensures Unquote(raw) == Some(text) <==>
            exists xs :: ValidChars(xs) && raw == PrintString(xs) && Spelling(xs, text)
  {
    UnquoteMeans(raw, text);
    forall xs | ValidChars(xs) && raw == PrintString(xs)
      ensures Decode(xs) == text <==> Spelling(xs, text)
    {
      SpellingMeans(xs, text);
    }
  }
}
