/** Lines as they may be written: quoted or plain values, indents, comments, and lines that say nothing. */
module YamlLines {
  import opened Options
  import opened Strings
  import opened YamlText

  // ---- Values -----------------------------------------------------------------------

  // The text begins and ends with the same quotation mark.
  predicate InQuotes(v: string) {
    |v| >= 2 && v[0] == v[|v| - 1] && (v[0] == '"' || v[0] == '\'')
  }

  // A value is written in double or single quotes, or as it is when nothing would be cut off it.
  ghost predicate Written(w: string, v: string) {
    || w == "\"" + v + "\""
    || w == "'" + v + "'"
    || (w == v && v != "" && Tight(v) && v[0] != '#' && !InQuotes(v))
  }

  /** However a value is written, it is read. */
  lemma WrittenRead(w: string, v: string)
    requires Written(w, v) && GoodValue(v)
    ensures Unquote(w) == v && GoodText(w) && (':' !in v ==> ':' !in w)
  {
    if w != v || InQuotes(w) {
      assert w[1..|w| - 1] == v;
      assert forall i :: 0 <= i < |v| ==> w[i + 1] == v[i];
    }
  }

  // ---- Fields -------------------------------------------------------------------------

  function FieldText(k: string, n: nat, w: string): string {
    k + ":" + (Blanks(n) + w)
  }

  lemma FieldSplits(k: string, n: nat, w: string)
    requires FairKey(k) && Tight(w)
    ensures SplitKeyValue(FieldText(k, n, w)) == Some(KeyValue(k, w))
  {
    hide IsSpace;
    var rest, t := Blanks(n) + w, FieldText(k, n, w);
    assert t == k + [':'] + rest;
    ColonAfter(k, rest);
    assert t[..|k|] == k && t[|k| + 1..] == rest;
    TrimTight(k);
    BlanksAreSpace(n);
    TrimAround(Blanks(n), w, []);
    assert rest + [] == rest;
  }

  lemma FieldShape(k: string, n: nat, w: string)
    ensures var t := FieldText(k, n, w);
            && |t| == |k| + 1 + n + |w| && t[..|k|] == k && t[|k|] == ':'
            && t[|k| + 1..|k| + 1 + n] == Blanks(n) && t[|k| + 1 + n..] == w
  {
  }

  lemma FieldQuiet(k: string, n: nat, w: string)
    requires FairKey(k) && GoodText(w)
    ensures NoComment(FieldText(k, n, w)) && NoLineFeed(FieldText(k, n, w))
  {
    hide Tight, IsSpace, FieldText;
    var t := FieldText(k, n, w);
    FieldShape(k, n, w);
    var m := |k| + 1 + n;
    forall i | 0 <= i < |t| - 1
      ensures !(t[i] == ' ' && t[i + 1] == '#')
    {
      if i >= m {
        assert t[i] == t[m..][i - m] && t[i + 1] == t[m..][i - m + 1];
      } else if i == m - 1 {
        assert t[i + 1] == t[m..][0];
      } else if i >= |k| {
        assert t[i + 1] == t[|k| + 1..m][i - |k|];
      } else if i < |k| - 1 {
        assert t[i] == t[..|k|][i] && t[i + 1] == t[..|k|][i + 1];
      }
    }
    forall i | 0 <= i < |t|
      ensures t[i] != '\n'
    {
      if i >= m {
        assert t[i] == t[m..][i - m];
      } else if i > |k| {
        assert t[i] == t[|k| + 1..m][i - |k| - 1];
      } else if i < |k| {
        assert t[i] == t[..|k|][i];
      }
    }
  }

  lemma FieldGood(k: string, n: nat, w: string)
    requires PlainKey(k) && GoodText(w)
    ensures var t := FieldText(k, n, w);
            GoodBody(t) && t != "-" && ("- " <= t <==> "- " <= k)
  {
    hide NoComment, IsSpace, NoLineFeed;
    var t := FieldText(k, n, w);
    FieldShape(k, n, w);
    FieldQuiet(k, n, w);
    assert t[|t| - 1] == t[|k| + 1 + n..][|w| - 1];
    assert k != [] ==> t[0] == k[0];
    assert |k| >= 2 ==> t[..2] == k[..2];
    assert !IsSpace(':') by { MarksAreNoSpace(); }
    assert t[|k|] == ':';
  }

  // A text after a dash and any number of blanks.
  function DashText(n: nat, b: string): string {
    "- " + (Blanks(n) + b)
  }

  lemma DashShape(n: nat, b: string)
    ensures var d := DashText(n, b);
            && |d| == 2 + n + |b| && d[0] == '-' && d[1] == ' ' && d[2..] == Blanks(n) + b
            && (forall i :: 2 <= i < 2 + n ==> d[i] == ' ')
            && (forall i :: 2 + n <= i < |d| ==> d[i] == b[i - 2 - n])
  {
  }

  lemma DashQuiet(n: nat, b: string)
    requires GoodText(b)
    ensures NoComment(DashText(n, b)) && NoLineFeed(DashText(n, b))
  {
    hide DashText, Tight;
    DashShape(n, b);
    var d := DashText(n, b);
    forall i | 0 <= i < |d| - 1
      ensures !(d[i] == ' ' && d[i + 1] == '#')
    {
      if i >= 2 + n {
        assert d[i] == b[i - 2 - n] && d[i + 1] == b[i - 1 - n];
      } else if i == 1 + n {
        assert d[i + 1] == b[0];
      }
    }
  }

  lemma DashTextGood(n: nat, b: string)
    requires GoodText(b)
    ensures GoodBody(DashText(n, b)) && TrimSpace(DashText(n, b)[2..]) == b
  {
    hide IsSpace, DashText, NoComment, NoLineFeed;
    var d := DashText(n, b);
    DashShape(n, b);
    DashQuiet(n, b);
    BlanksAreSpace(n);
    TrimAround(Blanks(n), b, []);
    assert Blanks(n) + b + [] == d[2..];
    assert !IsSpace('-') by { DashIsNoSpace(); }
    assert d[|d| - 1] == b[|b| - 1];
  }

  lemma DashIsNoSpace()
    ensures !IsSpace('-')
  {
  }

  // ---- Whole lines ---------------------------------------------------------------------------

  ghost predicate AllBlank(s: string) {
    forall i :: 0 <= i < |s| ==> s[i] == ' ' || s[i] == '\t'
  }

  // A comment, or the carriage return of the line ending, or nothing.
  ghost predicate IsNote(note: string) {
    note == "" || note == "\r" || " #" <= note
  }

  // The line holds the text at this indent; blanks and a comment may follow it.
  ghost predicate HoldsText(raw: string, indent: nat, body: string) {
    exists tail, note :: AllBlank(tail) && IsNote(note) && raw == Blanks(indent) + body + tail + note
  }

  lemma {:induction false} StripAt(t: string, note: string)
    requires NoComment(t) && " #" <= note
    ensures StripComment(t + note) == t
    decreases |t|
  {
    var s := t + note;
    if t == [] {
      assert s == note && note[0] == ' ' && note[1] == '#';
    } else {
      assert s[0] == t[0] && s[1..] == t[1..] + note;
      assert |t| >= 2 ==> s[1] == t[1];
      assert |t| == 1 ==> s[1] == note[0] == ' ';
      assert forall i :: 0 <= i < |t[1..]| ==> t[1..][i] == t[i + 1];
      StripAt(t[1..], note);
    }
  }

  // What is left of a line once its line ending and its comment are gone.
  lemma NoteStripped(t: string, note: string)
    requires NoComment(t) && IsNote(note) && (t != [] ==> t[|t| - 1] != '\r')
    ensures StripComment(DropCR(t + note)) == t
  {
    if note == "\r" {
      assert DropCR(t + note) == t;
      StripNothing(t);
    } else {
      NoteGone(t, note);
    }
  }

  // The carriage return that ends a comment goes with it.
  lemma NoteGone(t: string, note: string)
    requires NoComment(t) && (note == "" || " #" <= note) && (note == "" && t != [] ==> t[|t| - 1] != '\r')
    ensures StripComment(DropCR(t + note)) == t
  {
    hide StripComment;
    var raw := t + note;
    if note == "" {
      assert raw == t;
      StripNothing(t);
    } else if note[|note| - 1] == '\r' {
      var less := note[..|note| - 1];
      assert DropCR(raw) == t + less && less[..2] == note[..2];
      StripAt(t, less);
    } else {
      StripAt(t, note);
    }
  }

  lemma {:induction false} BlanksTrimmed(s: string, tail: string)
    requires AllBlank(tail)
    ensures TrimBlanks(s + tail) == TrimBlanks(s)
    decreases |tail|
  {
    if tail == [] {
      assert s + tail == s;
    } else {
      var t := s + tail;
      assert t[..|t| - 1] == s + tail[..|tail| - 1];
      BlanksTrimmed(s, tail[..|tail| - 1]);
    }
  }

  lemma BodyTail(indent: nat, body: string, tail: string)
    requires GoodText(body) && AllBlank(tail)
    ensures var t := Blanks(indent) + body + tail;
            NoComment(t) && t[|t| - 1] != '\r'
  {
    hide StripComment;
    var t := Blanks(indent) + body + tail;
    PaddedQuiet(indent, body);
    var s := Blanks(indent) + body;
    assert forall i :: 0 <= i < |s| ==> t[i] == s[i];
    assert forall i :: |s| <= i < |t| ==> t[i] == tail[i - |s|];
    assert s[|s| - 1] == body[|body| - 1];
    forall i | 0 <= i < |t| - 1
      ensures !(t[i] == ' ' && t[i + 1] == '#')
    {
      if i + 1 < |s| {
        assert t[i] == s[i] && t[i + 1] == s[i + 1];
      }
    }
  }

  lemma BlankIsSpace(tail: string)
    requires AllBlank(tail)
    ensures AllSpace(tail)
  {
  }

  /** A line is read as the text that it holds and its indent, which has to be even. */
  lemma LineRead(raw: string, indent: nat, body: string)
    requires HoldsText(raw, indent, body) && GoodBody(body)
    ensures Classify(DropCR(raw)) == if indent % 2 == 0 then Content(indent, body) else Odd
  {
    hide StripComment, DropCR, TrimSpace, LeadingBlanks, NoComment, NoLineFeed, IsNote, AllBlank, IsSpace;
    var tail, note :| AllBlank(tail) && IsNote(note) && raw == Blanks(indent) + body + tail + note;
    var t, s := Blanks(indent) + body + tail, Blanks(indent) + body;
    BodyTail(indent, body, tail);
    NoteStripped(t, note);
    BlanksTrimmed(s, tail);
    BlanksAreSpace(indent);
    BlankIsSpace(tail);
    TrimAround(Blanks(indent), body, tail);
    TrimAround(Blanks(indent), body, []);
    assert s + [] == s;
    BodyEnds(indent, body);
    BlanksThen(indent, body);
    assert s[indent..] == body;
  }

  lemma BodyEnds(indent: nat, body: string)
    requires GoodText(body)
    ensures TrimBlanks(Blanks(indent) + body) == Blanks(indent) + body && body[0] != ' '
  {
    var s := Blanks(indent) + body;
    assert s[|s| - 1] == body[|body| - 1];
  }

  // ---- Lines that say nothing --------------------------------------------------------------------

  // White space, and a comment that follows a blank.
  ghost predicate Fades(s: string) {
    exists b, note :: AllSpace(b) && IsNote(note) && s == b + note
  }

  // A line of white space, a comment on its own, or a document separator.
  ghost predicate SaysNothing(raw: string) {
    exists a, s :: AllSpace(a) && raw == a + s && (Fades(s) || "#" <= s || ("---" <= s && Fades(s[3..])))
  }

  lemma {:induction false} CommentSplit(s: string) returns (note: string)
    ensures s == StripComment(s) + note && (note == "" || " #" <= note)
    decreases |s|
  {
    if |s| >= 2 && s[0] == ' ' && s[1] == '#' {
      note := s;
      assert s[..2] == " #";
    } else if s == [] {
      note := [];
    } else {
      note := CommentSplit(s[1..]);
    }
  }

  lemma BlanksApart(s: string) returns (tail: string)
    ensures AllBlank(tail) && s == TrimBlanks(s) + tail
    decreases |s|
  {
    if s != [] && (s[|s| - 1] == ' ' || s[|s| - 1] == '\t') {
      tail := BlanksApart(s[..|s| - 1]);
      tail := tail + [s[|s| - 1]];
    } else {
      tail := [];
    }
  }

  // Skipping a line looks only at the text before its comment, without the white space around it.
  lemma SkippedText(raw: string)
    ensures var core := TrimSpace(StripComment(raw));
            Classify(raw).Skipped? <==> core == "" || core[0] == '#' || core == "---"
  {
    hide TrimSpace, StripComment, LeadingBlanks, IsSpace;
    var text := StripComment(raw);
    var tail := BlanksApart(text);
    BlankIsSpace(tail);
    var a, b := SpaceSplit(TrimBlanks(text));
    var core := TrimSpace(TrimBlanks(text));
    assert text == a + core + (b + tail);
    TrimAround(a, core, b + tail);
  }

  lemma SkippedSaysNothing(line: string)
    requires Classify(line).Skipped?
    ensures SaysNothing(line)
  {
    hide TrimSpace, StripComment, Classify, IsSpace, IsNote, AllSpace;
    SkippedText(line);
    var note := CommentSplit(line);
    assert IsNote(note) by { NoteIs(note); }
    var a, b := SpaceSplit(StripComment(line));
    var core := TrimSpace(StripComment(line));
    var s := core + b + note;
    assert line == a + s;
    if core == "" {
      assert s == b + note;
    } else if core[0] == '#' {
      assert s[0] == '#';
    } else {
      assert s[3..] == b + note;
    }
  }

  lemma NoteIs(note: string)
    requires note == "" || note == "\r" || " #" <= note
    ensures IsNote(note)
  {
  }

  lemma {:induction false} StripKeeps(x: string, y: string)
    requires NoComment(x) && x != [] && x[|x| - 1] != ' '
    ensures x <= StripComment(x + y)
    decreases |x|
  {
    var s := x + y;
    assert s[0] == x[0] && s[1..] == x[1..] + y && (|x| >= 2 ==> s[1] == x[1]);
    assert |x| == 1 ==> s[0] != ' ';
    if |x| >= 2 {
      assert forall i :: 0 <= i < |x[1..]| ==> x[1..][i] == x[i + 1];
      StripKeeps(x[1..], y);
    }
    assert x == [x[0]] + x[1..];
  }

  lemma {:induction false} FirstKept(a: string, s: string)
    requires AllSpace(a) && s != [] && !IsSpace(s[0])
    ensures TrimSpace(a + s) != [] && TrimSpace(a + s)[0] == s[0]
    decreases |a|
  {
    if a == [] {
      assert a + s == s;
      RightKeeps(s);
    } else {
      assert (a + s)[0] == a[0] && (a + s)[1..] == a[1..] + s;
      FirstKept(a[1..], s);
    }
  }

  lemma {:induction false} RightKeeps(s: string)
    requires s != [] && !IsSpace(s[0])
    ensures TrimRight(s) != [] && TrimRight(s)[0] == s[0]
    decreases |s|
  {
    if |s| > 1 {
      RightKeeps(s[..|s| - 1]);
    }
  }

  lemma NoHash(t: string)
    requires '#' !in t
    ensures NoComment(t)
  {
  }

  lemma HashIsNoSpace()
    ensures !IsSpace('#') && IsSpace('\r') && IsSpace(' ')
  {
  }

  lemma SpaceHasNoHash(a: string)
    requires AllSpace(a)
    ensures '#' !in a
  {
  }

  // A comment on its own line.
  lemma CommentSkipped(a: string, s: string)
    requires AllSpace(a) && "#" <= s
    ensures Classify(a + s).Skipped?
  {
    hide Classify, TrimSpace, IsSpace, StripComment;
    SkippedText(a + s);
    HashIsNoSpace();
    SpaceHasNoHash(a);
    if a != [] && a[|a| - 1] == ' ' {
      var init := a[..|a| - 1];
      assert a + s == init + (" " + s);
      NoHash(init);
      assert (" " + s)[..2] == " #";
      StripAt(init, " " + s);
      TrimAllSpace(init);
    } else {
      var x, y := a + "#", s[1..];
      assert a + s == x + y;
      HashAfter(a);
      StripKeeps(x, y);
      var text := StripComment(a + s);
      assert text == x + text[|x|..];
      assert text == a + ("#" + text[|x|..]);
      FirstKept(a, "#" + text[|x|..]);
    }
  }

  lemma HashAfter(a: string)
    requires '#' !in a && (a != [] ==> a[|a| - 1] != ' ')
    ensures NoComment(a + "#")
  {
    var x := a + "#";
    assert forall i :: 0 <= i < |a| ==> x[i] == a[i];
  }

  // White space or a separator, and what fades out behind it.
  lemma FadedText(a: string, core: string, b: string, note: string) returns (b': string)
    requires AllSpace(a) && AllSpace(b) && IsNote(note)
    requires (core == "" && a == "") || core == "---"
    ensures AllSpace(b') && StripComment(DropCR(a + core + b + note)) == a + core + b'
  {
    hide StripComment, IsSpace;
    var t := a + core + b;
    HashIsNoSpace();
    SpaceHasNoHash(a);
    SpaceHasNoHash(b);
    assert '#' !in t;
    b' := b;
    if note == "" && b != [] && b[|b| - 1] == '\r' {
      b' := b[..|b| - 1];
      assert t + note == t && t[..|t| - 1] == a + core + b';
      NoHash(a + core + b');
      StripNothing(a + core + b');
    } else {
      NoHash(t);
      if note == "\r" {
        assert DropCR(t + note) == t;
        StripNothing(t);
      } else {
        assert t != [] ==> note != "" || t[|t| - 1] != '\r';
        NoteGone(t, note);
      }
    }
  }

  lemma FadedSkipped(a: string, core: string, b: string, note: string)
    requires AllSpace(a) && AllSpace(b) && IsNote(note)
    requires (core == "" && a == "") || core == "---"
    ensures Classify(DropCR(a + core + b + note)).Skipped?
  {
    hide Classify, TrimSpace, IsSpace, StripComment, DropCR, IsNote;
    SkippedText(DropCR(a + core + b + note));
    var b' := FadedText(a, core, b, note);
    assert Tight(core) by { DashIsNoSpace(); }
    TrimAround(a, core, b');
  }

  lemma FadesSkipped(a: string, core: string, s: string)
    requires AllSpace(a) && Fades(s)
    requires (core == "" && a == "") || core == "---"
    ensures Classify(DropCR(a + core + s)).Skipped?
  {
    hide Classify, AllSpace, IsNote, DropCR;
    var b, note :| AllSpace(b) && IsNote(note) && s == b + note;
    assert a + core + s == a + core + b + note;
    FadedSkipped(a, core, b, note);
  }

  lemma SpacesFade(a: string, s: string)
    requires AllSpace(a) && Fades(s)
    ensures Fades(a + s) && AllSpace([]) && [] + [] + (a + s) == a + s
  {
    hide AllSpace, IsNote;
    var b, note :| AllSpace(b) && IsNote(note) && s == b + note;
    SpacesJoin(a, b);
    NoSpaces();
    assert a + s == (a + b) + note;
  }

  lemma NothingSkipped(raw: string)
    requires SaysNothing(raw)
    ensures Classify(DropCR(raw)).Skipped?
  {
    hide Classify, AllSpace, Fades;
    var a, s :| AllSpace(a) && raw == a + s && (Fades(s) || "#" <= s || ("---" <= s && Fades(s[3..])));
    if Fades(s) {
      SpacesFade(a, s);
      FadesSkipped([], [], a + s);
    } else if "#" <= s {
      var less := if s[|s| - 1] == '\r' then s[..|s| - 1] else s;
      assert DropCR(raw) == a + less;
      CommentSkipped(a, less);
    } else {
      assert raw == a + "---" + s[3..];
      FadesSkipped(a, "---", s[3..]);
    }
  }

  lemma SpacesJoin(a: string, b: string)
    requires AllSpace(a) && AllSpace(b)
    ensures AllSpace(a + b)
  {
  }

  lemma NoSpaces()
    ensures AllSpace([])
  {
  }

  lemma FadesOn(s: string)
    requires Fades(s)
    ensures Fades(s + "\r")
  {
    hide IsSpace;
    var b, note :| AllSpace(b) && IsNote(note) && s == b + note;
    HashIsNoSpace();
    if note == "" {
      assert s + "\r" == b + "\r" && IsNote("\r");
    } else if note == "\r" {
      SpacesJoin(b, "\r");
      assert s + "\r" == (b + "\r") + "\r" && IsNote("\r");
    } else {
      assert s + "\r" == b + (note + "\r");
      assert (note + "\r")[..2] == " #" && IsNote(note + "\r");
    }
  }

  lemma NothingOn(line: string)
    requires SaysNothing(line)
    ensures SaysNothing(line + "\r")
  {
    hide AllSpace, Fades;
    var a, s :| AllSpace(a) && line == a + s && (Fades(s) || "#" <= s || ("---" <= s && Fades(s[3..])));
    var t := s + "\r";
    assert line + "\r" == a + t;
    if Fades(s) {
      FadesOn(s);
    } else if "#" <= s {
      assert t[0] == '#';
    } else {
      FadesOn(s[3..]);
      assert t[3..] == s[3..] + "\r" && t[..3] == s[..3];
    }
  }

  /** A line is passed over exactly if it says nothing. */
  lemma SkippedMeans(raw: string)
    ensures Classify(DropCR(raw)).Skipped? <==> SaysNothing(raw)
  {
    hide Classify, SaysNothing;
    if SaysNothing(raw) {
      NothingSkipped(raw);
    }
    if Classify(DropCR(raw)).Skipped? {
      SkippedSaysNothing(DropCR(raw));
      if DropCR(raw) != raw {
        NothingOn(DropCR(raw));
        assert raw == DropCR(raw) + "\r";
      }
    }
  }
}
