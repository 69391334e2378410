/** The line syntax of the configuration files: comments, white space, quotes and the first colon. */
module YamlText {
  import opened Options
  import opened Strings

  // Only blanks and tabs at the end.
  function TrimBlanks(s: string): string
    decreases |s|
  {
    if s != [] && (s[|s| - 1] == ' ' || s[|s| - 1] == '\t') then TrimBlanks(s[..|s| - 1]) else s
  }

  // The text before a comment that follows a blank.
  function StripComment(s: string): string
    decreases |s|
  {
    if |s| >= 2 && s[0] == ' ' && s[1] == '#' then []
    else if s == [] then []
    else [s[0]] + StripComment(s[1..])
  }

  function LeadingBlanks(s: string): nat
    decreases |s|
  {
    if s != [] && s[0] == ' ' then 1 + LeadingBlanks(s[1..]) else 0
  }

  lemma {:induction false} LeadingBlanksBound(s: string)
    ensures LeadingBlanks(s) <= |s|
    decreases |s|
  {
    if s != [] && s[0] == ' ' {
      LeadingBlanksBound(s[1..]);
    }
  }

  function FirstColon(s: string): (i: Option<nat>)
    ensures i.Some? ==> i.value < |s| && s[i.value] == ':'
    decreases |s|
  {
    if s == [] then None
    else if s[0] == ':' then Some(0)
    else match FirstColon(s[1..])
      case None => None
      case Some(i) => Some(i + 1)
  }

  datatype KeyValue = KeyValue(key: string, value: string)

  function SplitKeyValue(s: string): Option<KeyValue> {
    match FirstColon(s)
    case None => None
    case Some(i) => Some(KeyValue(TrimSpace(s[..i]), TrimSpace(s[i + 1..])))
  }

  function Unquote(s: string): string {
    if |s| >= 2 && ((s[0] == '"' && s[|s| - 1] == '"') || (s[0] == '\'' && s[|s| - 1] == '\'')) then s[1..|s| - 1]
    else s
  }

  // ---- Lines ------------------------------------------------------------------------

  datatype Line = Skipped | Odd | Content(indent: nat, body: string)

  function Classify(raw: string): Line {
    var text := StripComment(raw);
    var trimmed := TrimBlanks(text);
    if TrimSpace(text) != [] && TrimSpace(text)[0] == '#' then Skipped
    else if TrimSpace(trimmed) == "" || TrimSpace(trimmed) == "---" then Skipped
    else
      var indent := LeadingBlanks(trimmed);
      LeadingBlanksBound(trimmed);
      if indent % 2 != 0 then Odd else Content(indent, trimmed[indent..])
  }

  // A line of this many bytes, encoded in UTF-8, does not fit the line buffer.
  const LINE_LIMIT: nat := 1_048_576

  predicate Fits(line: string, limit: nat) {
    Utf8Length(line) < limit
  }

  // The lines of a text, without their line feed.
  function Scan(text: string): seq<string>
    decreases |text|
  {
    if text == [] then []
    else
      var n := LineLength(text);
      LineLengthBound(text);
      [text[..n]] + if n < |text| then Scan(text[n + 1..]) else []
  }

  function LineLength(text: string): nat
    decreases |text|
  {
    if text == [] || text[0] == '\n' then 0 else 1 + LineLength(text[1..])
  }

  lemma {:induction false} LineLengthBound(text: string)
    ensures LineLength(text) <= |text|
    decreases |text|
  {
    if text != [] && text[0] != '\n' {
      LineLengthBound(text[1..]);
    }
  }

  function DropCR(s: string): string {
    if s != [] && s[|s| - 1] == '\r' then s[..|s| - 1] else s
  }

  // ---- Text that survives -----------------------------------------------------------------

  ghost predicate NoComment(s: string) {
    forall i :: 0 <= i < |s| - 1 ==> !(s[i] == ' ' && s[i + 1] == '#')
  }

  ghost predicate NoLineFeed(s: string) {
    '\n' !in s
  }

  lemma {:induction false} StripNothing(s: string)
    requires NoComment(s)
    ensures StripComment(s) == s
    decreases |s|
  {
    if s != [] {
      assert forall i :: 0 <= i < |s[1..]| ==> s[1..][i] == s[i + 1];
      StripNothing(s[1..]);
    }
  }

  function Blanks(n: nat): (s: string)
    ensures |s| == n && forall i :: 0 <= i < n ==> s[i] == ' '
  {
    if n == 0 then [] else [' '] + Blanks(n - 1)
  }

  lemma BlanksAreSpace(n: nat)
    ensures AllSpace(Blanks(n))
  {
  }

  lemma TrimTight(s: string)
    requires Tight(s)
    ensures TrimSpace(s) == s
  {
  }

  lemma {:induction false} BlanksThen(n: nat, s: string)
    requires s != [] && s[0] != ' '
    ensures LeadingBlanks(Blanks(n) + s) == n
  {
    if n == 0 {
      assert Blanks(0) + s == s;
    } else {
      var t := Blanks(n) + s;
      assert t[0] == ' ' && t[1..] == Blanks(n - 1) + s;
      BlanksThen(n - 1, s);
    }
  }

  lemma {:induction false} ColonAfter(k: string, rest: string)
    requires ':' !in k
    ensures FirstColon(k + [':'] + rest) == Some(|k|)
  {
    var s := k + [':'] + rest;
    if k == [] {
      assert s[0] == ':';
    } else {
      assert s[0] == k[0] && s[1..] == k[1..] + [':'] + rest;
      ColonAfter(k[1..], rest);
    }
  }

  lemma {:induction false} NoColon(s: string)
    requires ':' !in s
    ensures FirstColon(s) == None
    decreases |s|
  {
    if s != [] {
      NoColon(s[1..]);
    }
  }

  lemma PaddedQuiet(n: nat, s: string)
    requires NoComment(s) && s != [] && s[0] != '#'
    ensures NoComment(Blanks(n) + s)
  {
    var t := Blanks(n) + s;
    forall i | 0 <= i < |t| - 1
      ensures !(t[i] == ' ' && t[i + 1] == '#')
    {
      if i >= n {
        assert t[i] == s[i - n] && t[i + 1] == s[i - n + 1];
      }
    }
  }

  /** An indented line whose text is tight, starts no comment and is no separator is read back as it stands. */
  lemma ClassifyLine(indent: nat, body: string)
    requires indent % 2 == 0 && body != [] && Tight(body) && NoComment(body)
    requires body[0] != '#' && body != "---"
    ensures Classify(Blanks(indent) + body) == Content(indent, body)
  {
    hide StripComment, TrimSpace, LeadingBlanks, NoComment;
    var raw := Blanks(indent) + body;
    PaddedQuiet(indent, body);
    StripNothing(raw);
    assert raw[|raw| - 1] == body[|body| - 1];
    BlanksAreSpace(indent);
    TrimAround(Blanks(indent), body, []);
    assert raw + [] == raw;
    BlanksThen(indent, body);
    assert raw[indent..] == body;
  }

  // ---- Quoted values ------------------------------------------------------------------------

  function Quoted(v: string): string {
    "\"" + v + "\""
  }

  lemma QuotedShape(v: string)
    ensures var q := Quoted(v);
            && |q| == |v| + 2 && q[0] == '"' && q[|q| - 1] == '"' && Tight(q) && Unquote(q) == v
            && TrimSpace(" " + q) == q && q != ""
  {
    var q := Quoted(v);
    assert q[1..|q| - 1] == v;
    TrimAround(" ", q, []);
    assert " " + q + [] == " " + q;
  }

  lemma QuotedQuiet(v: string)
    requires NoComment(v)
    ensures NoComment(Quoted(v))
  {
    var q := Quoted(v);
    assert forall i :: 0 <= i < |v| ==> q[i + 1] == v[i];
  }

  ghost predicate GoodValue(v: string) {
    NoLineFeed(v) && NoComment(v)
  }

  // A field name as it may be read.
  ghost predicate FairKey(k: string) {
    ':' !in k && GoodValue(k) && Tight(k)
  }

  // A field name as it may be written after a dash, and at the start of a line.
  ghost predicate PlainKey(k: string) {
    FairKey(k) && (k != [] ==> k[0] != '#')
  }

  ghost predicate GoodKey(k: string) {
    PlainKey(k) && !("- " <= k)
  }

  function EntryText(k: string, v: string): string {
    k + ":" + (" " + Quoted(v))
  }

  function OpenText(k: string): string {
    k + ":"
  }

  lemma EntrySplits(k: string, v: string)
    requires FairKey(k)
    ensures SplitKeyValue(EntryText(k, v)) == Some(KeyValue(k, Quoted(v)))
  {
    var rest := " " + Quoted(v);
    assert EntryText(k, v) == k + [':'] + rest;
    ColonAfter(k, rest);
    assert EntryText(k, v)[..|k|] == k && EntryText(k, v)[|k| + 1..] == rest;
    TrimTight(k);
    QuotedShape(v);
  }

  lemma OpenSplits(k: string)
    requires FairKey(k)
    ensures SplitKeyValue(OpenText(k)) == Some(KeyValue(k, ""))
  {
    assert OpenText(k) == k + [':'] + [];
    ColonAfter(k, []);
    assert OpenText(k)[..|k|] == k && OpenText(k)[|k| + 1..] == [];
    TrimTight(k);
  }

  // A text that is read back after a dash or a colon.
  ghost predicate GoodText(b: string) {
    b != [] && Tight(b) && NoComment(b) && b[0] != '#' && NoLineFeed(b)
  }

  // A text that is read back when it stands alone.
  ghost predicate GoodBody(b: string) {
    GoodText(b) && b != "---"
  }

  lemma GoodIsText(b: string)
    requires GoodBody(b)
    ensures GoodText(b)
  {
  }

  lemma EntryShape(k: string, v: string)
    ensures var b, q := EntryText(k, v), Quoted(v);
            && |b| == |k| + 2 + |q| && b[..|k|] == k && b[|k|] == ':' && b[|k| + 1] == ' ' && b[|k| + 2..] == q
  {
  }

  lemma EntryQuiet(k: string, v: string)
    requires FairKey(k) && GoodValue(v)
    ensures NoComment(EntryText(k, v))
  {
    hide Tight, IsSpace, EntryText, Quoted;
    var b, q := EntryText(k, v), Quoted(v);
    EntryShape(k, v);
    QuotedShape(v);
    QuotedQuiet(v);
    forall i | 0 <= i < |b| - 1
      ensures !(b[i] == ' ' && b[i + 1] == '#')
    {
      if i >= |k| + 2 {
        assert b[i] == b[|k| + 2..][i - |k| - 2] && b[i + 1] == b[|k| + 2..][i - |k| - 1];
      } else if i == |k| + 1 {
        assert b[i + 1] == b[|k| + 2..][0];
      } else if i < |k| - 1 {
        assert b[i] == b[..|k|][i] && b[i + 1] == b[..|k|][i + 1];
      }
    }
  }

  lemma EntryGood(k: string, v: string)
    requires PlainKey(k) && GoodValue(v)
    ensures GoodBody(EntryText(k, v)) && EntryText(k, v) != "-" && ("- " <= EntryText(k, v) <==> "- " <= k)
  {
    hide NoComment, IsSpace;
    var b := EntryText(k, v);
    EntryShape(k, v);
    QuotedShape(v);
    EntryQuiet(k, v);
    assert b[|b| - 1] == '"';
    assert k != [] ==> b[0] == k[0];
    assert |k| >= 2 ==> b[..2] == k[..2];
    assert !IsSpace(':') && !IsSpace('"') by { MarksAreNoSpace(); }
  }

  lemma MarksAreNoSpace()
    ensures !IsSpace(':') && !IsSpace('"')
  {
  }

  lemma OpenGood(k: string)
    requires PlainKey(k)
    ensures GoodBody(OpenText(k)) && OpenText(k) != "-" && ("- " <= OpenText(k) <==> "- " <= k)
  {
    var b := OpenText(k);
    assert forall i :: 0 <= i < |k| ==> b[i] == k[i];
    assert |k| >= 2 ==> b[..2] == k[..2];
    assert b[|k|] == ':';
  }

  lemma QuotedGood(v: string)
    requires GoodValue(v)
    ensures GoodBody(Quoted(v))
  {
    QuotedShape(v);
    QuotedQuiet(v);
  }

  // A body after a dash.
  lemma DashGood(b: string)
    requires GoodText(b)
    ensures GoodBody("- " + b) && ("- " + b)[2..] == b && TrimSpace(b) == b
  {
    var d := "- " + b;
    assert d[0] == '-' && d[1] == ' ';
    assert forall i :: 0 <= i < |b| ==> d[i + 2] == b[i];
    forall i | 0 <= i < |d| - 1
      ensures !(d[i] == ' ' && d[i + 1] == '#')
    {
      if i >= 2 {
        assert d[i] == b[i - 2] && d[i + 1] == b[i - 1];
      } else if i == 1 {
        assert d[i + 1] == b[0];
      }
    }
    TrimTight(b);
  }

  lemma GoodLine(indent: nat, b: string)
    requires indent % 2 == 0 && GoodBody(b)
    ensures Classify(Blanks(indent) + b) == Content(indent, b)
  {
    ClassifyLine(indent, b);
  }

  // ---- Texts and lines --------------------------------------------------------------------------

  function Joined(lines: seq<string>): string
    decreases |lines|
  {
    if lines == [] then [] else lines[0] + ['\n'] + Joined(lines[1..])
  }

  lemma {:induction false} LineLengthAt(s: string, rest: string)
    requires NoLineFeed(s)
    ensures LineLength(s + ['\n'] + rest) == |s|
    decreases |s|
  {
    var t := s + ['\n'] + rest;
    if s != [] {
      assert t[0] == s[0] && t[1..] == s[1..] + ['\n'] + rest;
      LineLengthAt(s[1..], rest);
    }
  }

  /** Lines that hold no line feed are scanned back as they were joined. */
  lemma {:induction false} ScanJoined(lines: seq<string>)
    requires forall i :: 0 <= i < |lines| ==> NoLineFeed(lines[i])
    ensures Scan(Joined(lines)) == lines
    decreases |lines|
  {
    if lines != [] {
      var s, rest := lines[0], Joined(lines[1..]);
      var t := Joined(lines);
      LineLengthAt(s, rest);
      assert t[..|s|] == s && t[|s| + 1..] == rest;
      ScanJoined(lines[1..]);
    }
  }
}
