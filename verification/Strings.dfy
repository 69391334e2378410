/** Strings of Unicode characters as the source's string functions see them. */
module Strings {

  predicate IsSpace(c: char) {
    || c == ' ' || '\t' <= c <= '\r' || c == '\U{85}' || c == '\U{A0}' || c == '\U{1680}'
    || '\U{2000}' <= c <= '\U{200A}' || c == '\U{2028}' || c == '\U{2029}' || c == '\U{202F}'
    || c == '\U{205F}' || c == '\U{3000}'
  }

  function TrimLeft(s: string): string
    decreases |s|
  {
    if s != [] && IsSpace(s[0]) then TrimLeft(s[1..]) else s
  }

  function TrimRight(s: string): string
    decreases |s|
  {
    if s != [] && IsSpace(s[|s| - 1]) then TrimRight(s[..|s| - 1]) else s
  }

  function TrimSpace(s: string): string {
    TrimRight(TrimLeft(s))
  }

  // ---- Trimming -----------------------------------------------------------------

  // Neither end is white space.
  ghost predicate Tight(s: string) {
    s != [] ==> !IsSpace(s[0]) && !IsSpace(s[|s| - 1])
  }

  ghost predicate AllSpace(s: string) {
    forall i :: 0 <= i < |s| ==> IsSpace(s[i])
  }

  lemma {:induction false} TrimAllSpace(s: string)
    requires AllSpace(s)
    ensures TrimSpace(s) == []
    decreases |s|
  {
    hide IsSpace;
    if s != [] {
      TrimAllSpace(s[1..]);
    }
  }

  lemma {:induction false} TrimRightSpace(s: string, b: string)
    requires AllSpace(b)
    ensures TrimRight(s + b) == TrimRight(s)
    decreases |b|
  {
    hide IsSpace;
    if b == [] {
      assert s + b == s;
    } else {
      var t := s + b;
      assert t[..|t| - 1] == s + b[..|b| - 1];
      TrimRightSpace(s, b[..|b| - 1]);
    }
  }

  /** White space around a text that has none at its ends is what is trimmed. */
  lemma {:induction false} TrimAround(a: string, s: string, b: string)
    requires AllSpace(a) && Tight(s) && AllSpace(b)
    ensures TrimSpace(a + s + b) == s
    decreases |a|
  {
    hide IsSpace;
    var t := a + s + b;
    if s == [] {
      TrimAllSpace(t);
    } else if a == [] {
      assert t == s + b && t[0] == s[0];
      TrimRightSpace(s, b);
    } else {
      assert t[0] == a[0] && t[1..] == a[1..] + s + b;
      TrimAround(a[1..], s, b);
    }
  }

  lemma {:induction false} SpaceSplit(s: string) returns (a: string, b: string)
    ensures AllSpace(a) && AllSpace(b) && s == a + TrimSpace(s) + b
    ensures Tight(TrimSpace(s))
    decreases |s|
  {
    hide IsSpace;
    if s == [] {
      a, b := [], [];
    } else if IsSpace(s[0]) {
      a, b := SpaceSplit(s[1..]);
      a := [s[0]] + a;
    } else if IsSpace(s[|s| - 1]) {
      var init := s[..|s| - 1];
      assert s == init + [s[|s| - 1]];
      TrimRightSpace(init, [s[|s| - 1]]);
      a, b := SpaceSplit(init);
      LeftTight(s);
      LeftTight(init);
      b := b + [s[|s| - 1]];
    } else {
      a, b := [], [];
    }
  }

  lemma LeftTight(s: string)
    requires s != [] ==> !IsSpace(s[0])
    ensures TrimLeft(s) == s
  {
  }

  // ---- Lengths in bytes -----------------------------------------------------------

  // How many bytes a character takes in UTF-8.
  function Utf8Width(c: char): nat {
    if c as int < 0x80 then 1 else if c as int < 0x800 then 2 else if c as int < 0x10000 then 3 else 4
  }

  function Utf8Length(s: string): nat {
    if s == [] then 0 else Utf8Length(s[..|s| - 1]) + Utf8Width(s[|s| - 1])
  }
}
