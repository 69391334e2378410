/**
 What a whole response means, without the machine for lines and events: line
 endings are normalized, the text is split into lines and the lines into events
 at blank lines, and each event is read as a terminal marker or, by a fresh
 recognizer, as a JSON text of at most one object.
 */
module SseMeaning {
  import opened Bytes
  import opened Selection
  import opened JsonMachine
  import opened SseMachine
  import opened Strings

  // ---- Lines and events ------------------------------------------------------------

  // CRLF, a lone CR and LF all become LF.
  function Normalize(s: Bytes): Bytes
    decreases |s|
  {
    if s == [] then []
    else if s[0] != '\r' then [s[0]] + Normalize(s[1..])
    else if |s| > 1 && s[1] == '\n' then ['\n'] + Normalize(s[2..])
    else ['\n'] + Normalize(s[1..])
  }

  // The pieces between separators, the last one included.
  function Split<T(==)>(s: seq<T>, sep: T): (pieces: seq<seq<T>>)
    ensures pieces != []
    decreases |s|
  {
    if s == [] then [[]]
    else
      var more := Split(s[1..], sep);
      if s[0] == sep then [[]] + more else [[s[0]] + more[0]] + more[1..]
  }

  function SplitLines(s: Bytes): (lines: seq<Bytes>)
    ensures lines != []
  {
    Split<Byte>(s, '\n')
  }

  // The runs of lines between blank lines.
  function SplitEvents(lines: seq<Bytes>): (events: seq<seq<Bytes>>)
    ensures events != []
  {
    Split<Bytes>(lines, [])
  }

  predicate IsDataLine(l: Bytes) {
    |l| >= 5 && l[..5] == "data:"
  }

  // What the data lines of an event hold after the field name.
  function DataOf(lines: seq<Bytes>): seq<Bytes>
    decreases |lines|
  {
    if lines == [] then []
    else (if IsDataLine(lines[0]) then [lines[0][5..]] else []) + DataOf(lines[1..])
  }

  // ---- One event --------------------------------------------------------------------

  // The data of an event, each piece ended by a line feed.
  function Payload(data: seq<Bytes>): Bytes
    decreases |data|
  {
    if data == [] then [] else Payload(data[..|data| - 1]) + (data[|data| - 1] + ['\n'])
  }

  // The data of an event, joined without anything in between.
  function Flat(data: seq<Bytes>): Bytes
    decreases |data|
  {
    if data == [] then [] else Flat(data[..|data| - 1]) + data[|data| - 1]
  }

  function SkipWs(s: Bytes): Bytes
    decreases |s|
  {
    if s != [] && IsWs(s[0]) then SkipWs(s[1..]) else s
  }

  predicate IsMarker(text: Bytes) {
    text != [] && text[0] == '['
  }

  // The stored beginning of a marker.
  function Stored(text: Bytes): string {
    if text == [] then ""
    else
      var s := Stored(text[..|text| - 1]);
      if Utf8Length(s) < MARKER_LIMIT then s + [text[|text| - 1]] else s
  }

  function MarkerStored(t: Tally, text: Bytes): Tally {
    if Stored(text) == text then t else Fail(t, "malformed")
  }

  function MarkerMeaning(t: Tally, text: Bytes): Tally {
    var t1 := MarkerStored(t, text);
    if TrimSpace(Stored(text)) == "[DONE]" then t1.(terminal := true) else Fail(t1, "malformed")
  }

  // Objects beyond the first make the event malformed.
  function ObjectsSeen(t: Tally, out: seq<Fields>): Tally {
    var t1 := t.(seen := t.seen || out != []);
    if |out| >= 2 then Fail(t1, "malformed") else t1
  }

  function JsonMeaning(t: Tally, p: Parser): Tally {
    var t1 := ObjectsSeen(NoteSkip(t, p), p.out);
    if !Complete(p) then Fail(t1, FailureReason(p))
    else if p.out == [] then t1
    else Merge(t1, p.out[|p.out| - 1])
  }

  function EventMeaning(t: Tally, data: seq<Bytes>): Tally {
    var text := SkipWs(Flat(data));
    if IsMarker(text) then MarkerMeaning(t, text) else JsonMeaning(t, Run(FRESH, Payload(data)))
  }

  // ---- A whole response ---------------------------------------------------------------

  function EventsMeaning(t: Tally, events: seq<seq<Bytes>>): Tally
    decreases |events|
  {
    if events == [] then t else EventsMeaning(EventMeaning(t, DataOf(events[0])), events[1..])
  }

  function StreamMeaning(s: Bytes): Tally {
    EventsMeaning(NEW_TALLY, SplitEvents(SplitLines(Normalize(s))))
  }

  function MergeAll(t: Tally, out: seq<Fields>): Tally
    decreases |out|
  {
    if out == [] then t else Merge(MergeAll(t, out[..|out| - 1]).(seen := true), out[|out| - 1])
  }

  function PlainMeaning(s: Bytes): Tally {
    NoteSkip(MergeAll(NEW_TALLY, Run(FRESH, s).out), Run(FRESH, s))
  }

  function Meaning(sse: bool, s: Bytes): Tally {
    if sse then StreamMeaning(s) else PlainMeaning(s)
  }

  function VerdictOn(sse: bool, s: Bytes): Verdict {
    Decide(sse, Meaning(sse, s), if sse then FRESH else Run(FRESH, s))
  }
}

/** The byte machine computes the batch meaning. */
module SseRefinement {
  import opened Bytes
  import opened Options
  import opened Selection
  import opened JsonMachine
  import opened JsonForward
  import opened JsonContainers
  import opened JsonBackward
  import opened SseMachine
  import opened Strings
  import opened SseMeaning

  // ---- Line endings -------------------------------------------------------------------

  function SseRun(b: Body, s: Bytes): Body
    decreases |s|
  {
    if s == [] then b else SseRun(SseByte(b, s[0]), s[1..])
  }

  lemma {:induction false} SseRunAppend(b: Body, s: Bytes, r: Bytes)
    ensures SseRun(b, s + r) == SseRun(SseRun(b, s), r)
    decreases |s|
  {
    if s == [] {
      assert s + r == r;
    } else {
      assert (s + r)[0] == s[0] && (s + r)[1..] == s[1..] + r;
      SseRunAppend(SseByte(b, s[0]), s[1..], r);
    }
  }

  lemma SseRunCons(b: Body, c: Byte, s: Bytes)
    ensures SseRun(b, [c] + s) == SseRun(SseByte(b, c), s)
  {
    assert ([c] + s)[1..] == s;
  }

  function Settled(b: Body): Body {
    if b.pendingCR then SseByte(b.(pendingCR := false), '\n') else b
  }

  function Waiting(b: Body): Bytes {
    if b.pendingCR then ['\r'] else []
  }

  lemma PendingKept(b: Body, c: Byte)
    ensures SseByte(b, c).pendingCR == b.pendingCR && SseByte(b, c).sse == b.sse
  {
  }

  lemma NormalizeCons(c: Byte, s: Bytes)
    ensures c != '\r' ==> Normalize([c] + s) == [c] + Normalize(s)
    ensures c != '\r' && c != '\n' ==> Normalize(['\r'] + ([c] + s)) == ['\n'] + ([c] + Normalize(s))
    ensures Normalize(['\r'] + (['\n'] + s)) == ['\n'] + Normalize(s)
    ensures Normalize(['\r'] + (['\r'] + s)) == ['\n'] + Normalize(['\r'] + s)
  {
    assert ([c] + s)[1..] == s;
    assert (['\r'] + ([c] + s))[1..] == [c] + s;
    assert (['\r'] + (['\n'] + s))[2..] == s;
    assert (['\r'] + (['\r'] + s))[1..] == ['\r'] + s;
  }

  /** Deferring a carriage return by one byte is the same as normalizing line endings beforehand. */
  lemma {:induction false} LineEndings(b: Body, s: Bytes)
    requires b.sse
    ensures BodyRun(b, s).sse
    ensures Settled(BodyRun(b, s)) == SseRun(b.(pendingCR := false), Normalize(Waiting(b) + s))
    decreases |s|
  {
    hide SseByte;
    var b1 := b.(pendingCR := false);
    if s == [] {
      assert Waiting(b) + s == Waiting(b);
      assert b.pendingCR ==> Normalize(Waiting(b)) == ['\n'];
      SseRunCons(b1, '\n', []);
    } else {
      var c, tail := s[0], s[1..];
      assert s == [c] + tail;
      assert Waiting(b) + s == if b.pendingCR then ['\r'] + ([c] + tail) else [c] + tail;
      NormalizeCons(c, tail);
      var next := BodyByte(b, c);
      PendingKept(b1, '\n');
      PendingKept(b1, c);
      PendingKept(SseByte(b1, '\n'), c);
      LineEndings(next, tail);
      var n := Normalize(tail);
      if c == '\r' {
        assert Waiting(next) + tail == ['\r'] + tail;
        SseRunCons(b1, '\n', Normalize(['\r'] + tail));
      } else {
        assert Waiting(next) + tail == tail;
        SseRunCons(b1, '\n', [c] + n);
        SseRunCons(SseByte(b1, '\n'), c, n);
        SseRunCons(b1, c, n);
      }
    }
  }

  // ---- One line -------------------------------------------------------------------------

  ghost function DataRun(t: Tally, e: Event, s: Bytes): (Tally, Event)
    decreases |s|
  {
    if s == [] then (t, e)
    else
      var (t1, e1) := DataRun(t, e, s[..|s| - 1]);
      DataByte(t1, e1, s[|s| - 1])
  }

  ghost function PrefixOf(l: Bytes): string
    decreases |l|
  {
    if l == [] then ""
    else
      var p := PrefixOf(l[..|l| - 1]);
      if Utf8Length(p) < 6 then p + [l[|l| - 1]] else p
  }

  lemma {:induction false} PrefixShape(l: Bytes)
    ensures PrefixOf(l) <= l
    ensures PrefixOf(l) == l || Utf8Length(PrefixOf(l)) >= 6
    decreases |l|
  {
    if l != [] {
      PrefixShape(l[..|l| - 1]);
    }
  }

  lemma {:induction false} AsciiLength(s: string)
    requires forall i :: 0 <= i < |s| ==> s[i] as int < 128
    ensures Utf8Length(s) == |s|
    decreases |s|
  {
    if s != [] {
      AsciiLength(s[..|s| - 1]);
    }
  }

  // The field name is recognized exactly when the line so far is "data:".
  lemma PrefixIsName(l: Bytes)
    ensures PrefixOf(l) == "data:" <==> l == "data:"
  {
    hide Utf8Length, PrefixOf;
    PrefixShape(l);
    NameLength();
    if l == "data:" {
      var p := PrefixOf(l);
      assert forall i :: 0 <= i < |p| ==> p[i] == l[i];
      assert forall i :: 0 <= i < |l| ==> l[i] as int < 128 by { NameIsAscii(); }
      AsciiLength(p);
    }
  }

  lemma NameIsAscii()
    ensures forall i :: 0 <= i < |"data:"| ==> "data:"[i] as int < 128
  {
    var s := "data:";
    assert s[0] == 'd' && s[1] == 'a' && s[2] == 't' && s[3] == 'a' && s[4] == ':';
  }

  lemma NameLength()
    ensures Utf8Length("data:") == 5
  {
    NameIsAscii();
    AsciiLength("data:");
  }

  ghost function MidLine(b: Body, l: Bytes): Body {
    if IsDataLine(l) then
      var (t, e) := DataRun(b.tally, b.event, l[5..]);
      b.(tally := t, event := e, line := Line("data:", true, true))
    else b.(line := Line(PrefixOf(l), false, l != []))
  }

  lemma MidLineStep(b: Body, l: Bytes, c: Byte)
    requires c != '\n'
    ensures SseByte(MidLine(b, l), c) == MidLine(b, l + [c])
  {
    hide DataByte, Dispatch;
    var m := l + [c];
    assert m[..|m| - 1] == l;
    assert |l| >= 5 ==> m[..5] == l[..5];
    if IsDataLine(l) {
      assert m[..5] == l[..5] && m[5..] == l[5..] + [c];
      assert (l[5..] + [c])[..|l[5..]|] == l[5..];
    } else {
      PrefixIsName(m);
      assert PrefixOf(m) == if Utf8Length(PrefixOf(l)) < 6 then PrefixOf(l) + [c] else PrefixOf(l);
      if IsDataLine(m) {
        assert m == m[..5] && m[5..] == [];
      } else {
        assert m != "data:";
      }
    }
  }

  // The effect of a line that has ended.
  ghost function LineDone(t: Tally, e: Event, l: Bytes): (Tally, Event) {
    if l == [] then (Dispatch(t, e), NEW_EVENT)
    else if IsDataLine(l) then
      var (t1, e1) := DataRun(t, e, l[5..]);
      DataEnd(t1, e1)
    else (t, e)
  }

  lemma MidLineEnd(b: Body, l: Bytes)
    ensures var (t, e) := LineDone(b.tally, b.event, l);
            SseByte(MidLine(b, l), '\n') == b.(tally := t, event := e, line := NEW_LINE)
  {
  }

  // ---- Many lines --------------------------------------------------------------------------

  ghost function LinesRun(t: Tally, e: Event, lines: seq<Bytes>): (Tally, Event)
    decreases |lines|
  {
    if lines == [] then (t, e)
    else
      var (t1, e1) := LinesRun(t, e, lines[..|lines| - 1]);
      LineDone(t1, e1, lines[|lines| - 1])
  }

  // Appending one item extends the last piece or begins a new one.
  ghost function Extend<T>(pieces: seq<seq<T>>, sep: T, x: T): seq<seq<T>>
    requires pieces != []
  {
    var k := |pieces| - 1;
    if x == sep then pieces + [[]] else pieces[..k] + [pieces[k] + [x]]
  }

  lemma ExtendCons<T>(first: seq<T>, more: seq<seq<T>>, sep: T, x: T)
    requires more != []
    ensures Extend([first] + more, sep, x) == [first] + Extend(more, sep, x)
  {
    var k := |more| - 1;
    assert ([first] + more)[..k + 1] == [first] + more[..k];
  }

  lemma ExtendHead<T>(a: T, more: seq<seq<T>>, sep: T, x: T)
    requires more != []
    ensures var e := Extend(more, sep, x);
            Extend([[a] + more[0]] + more[1..], sep, x) == [[a] + e[0]] + e[1..]
  {
    if |more| == 1 {
      assert [a] + (more[0] + [x]) == [a] + more[0] + [x];
    } else {
      ExtendCons([a] + more[0], more[1..], sep, x);
      ExtendCons(more[0], more[1..], sep, x);
      assert more == [more[0]] + more[1..];
    }
  }

  lemma {:induction false} SplitSnoc<T>(s: seq<T>, sep: T, x: T)
    ensures Split(s + [x], sep) == Extend(Split(s, sep), sep, x)
    decreases |s|
  {
    if s == [] {
      var one := [x];
      assert s + one == one && one[1..] == [];
      assert one + [] == one && [] + one == one;
      assert Split<T>([], sep) == [[]];
    } else {
      assert (s + [x])[1..] == s[1..] + [x];
      SplitSnoc(s[1..], sep, x);
      var more := Split(s[1..], sep);
      ExtendCons([], more, sep, x);
      ExtendHead(s[0], more, sep, x);
    }
  }

  lemma {:induction false} SseRunLines(b: Body, s: Bytes)
    requires b.line == NEW_LINE
    ensures var lines := SplitLines(s);
            var k := |lines| - 1;
            var (t, e) := LinesRun(b.tally, b.event, lines[..k]);
            SseRun(b, s) == MidLine(b.(tally := t, event := e), lines[k])
    decreases |s|
  {
    hide SseByte, LineDone, MidLine;
    if s == [] {
      assert MidLine(b, []) == b by {
        EmptyLine(b);
      }
    } else {
      var init, c := s[..|s| - 1], s[|s| - 1];
      assert s == init + [c];
      SseRunAppend(b, init, [c]);
      SseRunCons(SseRun(b, init), c, []);
      SseRunLines(b, init);
      SplitSnoc<Byte>(init, '\n', c);
      var lines := SplitLines(init);
      var k := |lines| - 1;
      var (t, e) := LinesRun(b.tally, b.event, lines[..k]);
      var b1 := b.(tally := t, event := e);
      if c == '\n' {
        MidLineEnd(b1, lines[k]);
        assert (lines + [[]])[..k + 1] == lines;
        var (t2, e2) := LinesRun(b.tally, b.event, lines);
        EmptyLine(b.(tally := t2, event := e2));
      } else {
        MidLineStep(b1, lines[k], c);
        assert (lines[..k] + [lines[k] + [c]])[..k] == lines[..k];
      }
    }
  }

  lemma EmptyLine(b: Body)
    requires b.line == NEW_LINE
    ensures MidLine(b, []) == b
  {
  }

  // ---- White space --------------------------------------------------------------------------

  lemma {:induction false} SkipWsSnoc(s: Bytes, c: Byte)
    ensures SkipWs(s) == [] <==> AllWs(s)
    ensures SkipWs(s + [c]) == if AllWs(s) then (if IsWs(c) then [] else [c]) else SkipWs(s) + [c]
    decreases |s|
  {
    if s == [] {
      var one: Bytes := [c];
      assert s + one == one && one[1..] == [];
    } else {
      assert (s + [c])[0] == s[0] && (s + [c])[1..] == s[1..] + [c];
      SkipWsSnoc(s[1..], c);
      assert s == [s[0]] + s[1..];
    }
  }

  // The recognizer has seen no object, and is between objects, exactly on white space.
  lemma OnlyWs(s: Bytes)
    ensures Complete(Run(FRESH, s)) && Run(FRESH, s).out == [] <==> AllWs(s)
    ensures AllWs(s) ==> Run(FRESH, s) == FRESH
  {
    if AllWs(s) {
      assert s + [] == s;
      RunWs(FRESH, s, []);
    } else if Complete(Run(FRESH, s)) {
      var d := AcceptedDocument(FRESH, s);
      RunDocument(FRESH, d);
    }
  }

  // ---- The state inside an event ----------------------------------------------------------------

  ghost function LastOf(out: seq<Fields>): Option<Fields> {
    if out == [] then None else Some(out[|out| - 1])
  }

  // The state after the data text flat, fed to the recognizer as payload.
  ghost function EventState(t: Tally, flat: Bytes, payload: Bytes): (Tally, Event) {
    var text := SkipWs(flat);
    if IsMarker(text) then (MarkerStored(t, text), Event(FRESH, Stored(text), None))
    else
      var p := Run(FRESH, payload);
      (ObjectsSeen(t, p.out), Event(p, "", LastOf(p.out)))
  }

  ghost predicate Alike(flat: Bytes, payload: Bytes) {
    AllWs(flat) <==> AllWs(payload)
  }

  lemma EmptyLength()
    ensures Utf8Length("") == 0
  {
  }

  lemma {:induction false} StoredShape(text: Bytes)
    ensures text != [] ==> Stored(text) != ""
    ensures Stored(text) <= text
    ensures Stored(text) == text || Utf8Length(Stored(text)) >= MARKER_LIMIT
    decreases |text|
  {
    hide Utf8Length;
    EmptyLength();
    if text != [] {
      StoredShape(text[..|text| - 1]);
    }
  }

  lemma StoredStep(t: Tally, text: Bytes, c: Byte)
    ensures Stored(text + [c]) == if Utf8Length(Stored(text)) < MARKER_LIMIT then Stored(text) + [c] else Stored(text)
    ensures MarkerStored(t, text + [c])
         == if Utf8Length(Stored(text)) < MARKER_LIMIT then MarkerStored(t, text)
            else Fail(MarkerStored(t, text), "malformed")
  {
    hide Utf8Length;
    var m := text + [c];
    assert m[..|m| - 1] == text;
    StoredShape(text);
    assert |Stored(text)| < |m|;
  }

  // One more byte into the recognizer.
  lemma EventByteStep(t: Tally, payload: Bytes, c: Byte)
    ensures var p, q := Run(FRESH, payload), Run(FRESH, payload + [c]);
            EventByte(ObjectsSeen(t, p.out), Event(p, "", LastOf(p.out)), c)
            == (ObjectsSeen(t, q.out), Event(q, "", LastOf(q.out)))
  {
    hide Step, Run;
    var p, q := Run(FRESH, payload), Run(FRESH, payload + [c]);
    RunAppend(FRESH, payload, [c]);
    RunOne(p, c);
    StepGrows(p, c);
    if |q.out| == |p.out| {
      assert q.out == p.out;
    } else {
      assert q.out == p.out + [q.out[|p.out|]];
    }
  }

  lemma RunOne(p: Parser, c: Byte)
    ensures Run(p, [c]) == Step(p, c)
  {
    RunCons(p, c, []);
    var one: Bytes := [c];
    assert one + [] == one;
  }

  // A byte after the marker has begun.
  lemma MarkerByteStep(t: Tally, flat: Bytes, payload: Bytes, c: Byte)
    requires IsMarker(SkipWs(flat))
    ensures var (t1, e1) := EventState(t, flat, payload);
            DataByte(t1, e1, c) == EventState(t, flat + [c], payload + [c])
  {
    hide Run, EventByte, Complete, Stored, Utf8Length, MarkerStored;
    var text := SkipWs(flat);
    SkipWsSnoc(flat, c);
    StoredShape(text);
    StoredStep(t, text, c);
  }

  // A byte before any marker.
  lemma JsonByteStep(t: Tally, flat: Bytes, payload: Bytes, c: Byte)
    requires Alike(flat, payload) && !IsMarker(SkipWs(flat))
    ensures var (t1, e1) := EventState(t, flat, payload);
            DataByte(t1, e1, c) == EventState(t, flat + [c], payload + [c])
  {
    hide Run, EventByte, Complete, Utf8Length;
    SkipWsSnoc(flat, c);
    OnlyWs(payload);
    if c == '[' && AllWs(flat) {
      var one: Bytes := ['['];
      assert one[..0] == [] && Stored(one) == [] + ['['] == one by {
        NothingStored();
      }
    } else {
      EventByteStep(t, payload, c);
    }
  }

  lemma NothingStored()
    ensures Utf8Length("") < MARKER_LIMIT
  {
  }

  lemma DataByteStep(t: Tally, flat: Bytes, payload: Bytes, c: Byte)
    requires Alike(flat, payload)
    ensures var (t1, e1) := EventState(t, flat, payload);
            DataByte(t1, e1, c) == EventState(t, flat + [c], payload + [c])
    ensures Alike(flat + [c], payload + [c])
  {
    hide EventState, DataByte;
    WsSnoc(flat, c);
    WsSnoc(payload, c);
    if IsMarker(SkipWs(flat)) {
      MarkerByteStep(t, flat, payload, c);
    } else {
      JsonByteStep(t, flat, payload, c);
    }
  }

  lemma WsSnoc(s: Bytes, c: Byte)
    ensures AllWs(s + [c]) <==> AllWs(s) && IsWs(c)
  {
    var m := s + [c];
    assert m[|s|] == c;
    assert forall i :: 0 <= i < |s| ==> m[i] == s[i];
  }

  lemma DataEndStep(t: Tally, flat: Bytes, payload: Bytes)
    requires Alike(flat, payload)
    ensures var (t1, e1) := EventState(t, flat, payload);
            DataEnd(t1, e1) == EventState(t, flat, payload + ['\n'])
    ensures Alike(flat, payload + ['\n'])
  {
    hide Run, EventByte;
    WsSnoc(payload, '\n');
    StoredShape(SkipWs(flat));
    EventByteStep(t, payload, '\n');
  }

  lemma {:induction false} DataRunStep(t: Tally, flat: Bytes, payload: Bytes, s: Bytes)
    requires Alike(flat, payload)
    ensures var (t1, e1) := EventState(t, flat, payload);
            DataRun(t1, e1, s) == EventState(t, flat + s, payload + s)
    ensures Alike(flat + s, payload + s)
    decreases |s|
  {
    hide EventState, DataByte;
    if s == [] {
      assert flat + s == flat && payload + s == payload;
    } else {
      var init, c := s[..|s| - 1], s[|s| - 1];
      DataRunStep(t, flat, payload, init);
      DataByteStep(t, flat + init, payload + init, c);
      assert flat + s == flat + init + [c] && payload + s == payload + init + [c];
    }
  }

  // ---- Events and lines ---------------------------------------------------------------------------

  ghost function GroupState(t: Tally, data: seq<Bytes>): (Tally, Event) {
    EventState(t, Flat(data), Payload(data))
  }

  ghost predicate NoLf(s: Bytes) {
    forall i :: 0 <= i < |s| ==> s[i] != '\n'
  }

  lemma {:induction false} GroupAlike(data: seq<Bytes>)
    ensures Alike(Flat(data), Payload(data))
    decreases |data|
  {
    if data != [] {
      var init, d := data[..|data| - 1], data[|data| - 1];
      GroupAlike(init);
      WsJoin(Flat(init), d);
      WsJoin(Payload(init), d + ['\n']);
      WsSnoc(d, '\n');
    }
  }

  lemma WsJoin(a: Bytes, b: Bytes)
    ensures AllWs(a + b) <==> AllWs(a) && AllWs(b)
  {
    var s := a + b;
    assert forall i :: 0 <= i < |a| ==> s[i] == a[i];
    assert forall i :: 0 <= i < |b| ==> s[|a| + i] == b[i];
  }

  lemma {:induction false} DataOfSnoc(lines: seq<Bytes>, l: Bytes)
    ensures DataOf(lines + [l]) == DataOf(lines) + if IsDataLine(l) then [l[5..]] else []
    decreases |lines|
  {
    if lines == [] {
      assert lines + [l] == [l];
      assert DataOf([l][1..]) == [];
    } else {
      assert (lines + [l])[1..] == lines[1..] + [l];
      DataOfSnoc(lines[1..], l);
    }
  }

  // A line that is not blank extends the event.
  lemma LineExtends(t: Tally, group: seq<Bytes>, l: Bytes)
    requires l != [] && NoLf(l)
    ensures var (t1, e1) := GroupState(t, DataOf(group));
            LineDone(t1, e1, l) == GroupState(t, DataOf(group + [l]))
  {
    hide EventState, Dispatch, DataEnd, DataRun, DataOf;
    var data := DataOf(group);
    DataOfSnoc(group, l);
    if IsDataLine(l) {
      var d := l[5..];
      GroupAlike(data);
      DataRunStep(t, Flat(data), Payload(data), d);
      DataEndStep(t, Flat(data) + d, Payload(data) + d);
      var more := data + [d];
      assert more[..|more| - 1] == data;
      assert Payload(data) + d + ['\n'] == Payload(data) + (d + ['\n']);
    } else {
      assert data + [] == data;
    }
  }

  /** The end of an event gives it exactly its meaning. */
  lemma DispatchMeans(t: Tally, data: seq<Bytes>)
    ensures var (t1, e1) := GroupState(t, data);
            Dispatch(t1, e1) == EventMeaning(t, data)
  {
    hide Run, Merge, TrimSpace;
    var text := SkipWs(Flat(data));
    if IsMarker(text) {
      StoredShape(text);
    } else {
      EmptyIsNoMarker();
    }
  }

  lemma EmptyIsNoMarker()
    ensures TrimSpace("") != "[DONE]"
  {
  }

  lemma {:induction false} EventsMeaningSnoc(t: Tally, events: seq<seq<Bytes>>, g: seq<Bytes>)
    ensures EventsMeaning(t, events + [g]) == EventMeaning(EventsMeaning(t, events), DataOf(g))
    decreases |events|
  {
    hide EventMeaning;
    if events == [] {
      assert events + [g] == [g];
      assert EventsMeaning(EventMeaning(t, DataOf(g)), [g][1..]) == EventMeaning(t, DataOf(g));
    } else {
      assert (events + [g])[1..] == events[1..] + [g];
      EventsMeaningSnoc(EventMeaning(t, DataOf(events[0])), events[1..], g);
    }
  }

  lemma FreshGroup(t: Tally)
    ensures GroupState(t, DataOf([])) == (t, NEW_EVENT)
  {
  }

  lemma {:induction false} LinesToEvents(t: Tally, lines: seq<Bytes>)
    requires forall i :: 0 <= i < |lines| ==> NoLf(lines[i])
    ensures var events := SplitEvents(lines);
            var k := |events| - 1;
            LinesRun(t, NEW_EVENT, lines) == GroupState(EventsMeaning(t, events[..k]), DataOf(events[k]))
    decreases |lines|
  {
    hide GroupState, EventMeaning, LineDone, DataOf;
    if lines == [] {
      FreshGroup(t);
    } else {
      var init, l := lines[..|lines| - 1], lines[|lines| - 1];
      assert lines == init + [l];
      LinesToEvents(t, init);
      SplitSnoc<Bytes>(init, [], l);
      var events := SplitEvents(init);
      var k := |events| - 1;
      var t1 := EventsMeaning(t, events[..k]);
      if l == [] {
        BlankLine(t1, events[k]);
        assert (events + [[]])[..k + 1] == events == events[..k] + [events[k]];
        EventsMeaningSnoc(t, events[..k], events[k]);
        FreshGroup(EventsMeaning(t, events));
      } else {
        LineExtends(t1, events[k], l);
        assert (events[..k] + [events[k] + [l]])[..k] == events[..k];
      }
    }
  }

  lemma BlankLine(t: Tally, group: seq<Bytes>)
    ensures var (t1, e1) := GroupState(t, DataOf(group));
            LineDone(t1, e1, []) == (EventMeaning(t, DataOf(group)), NEW_EVENT)
  {
    DispatchMeans(t, DataOf(group));
  }

  lemma {:induction false} NoSeparatorInPieces<T>(s: seq<T>, sep: T)
    ensures forall i :: 0 <= i < |Split(s, sep)| ==> sep !in Split(s, sep)[i]
    decreases |s|
  {
    if s != [] {
      NoSeparatorInPieces(s[1..], sep);
    }
  }

  lemma NoLfInLines(s: Bytes)
    ensures forall i :: 0 <= i < |SplitLines(s)| ==> NoLf(SplitLines(s)[i])
  {
    NoSeparatorInPieces<Byte>(s, '\n');
  }

  // ---- The whole response ------------------------------------------------------------------------

  lemma EmptyEvent(t: Tally)
    ensures EventMeaning(t, DataOf([])) == t
  {
  }

  // All lines, the unfinished one included, and then the end of the last event.
  lemma FinishLines(t: Tally, lines: seq<Bytes>)
    requires lines != [] && forall i :: 0 <= i < |lines| ==> NoLf(lines[i])
    ensures var k := |lines| - 1;
            var (t1, e1) := LinesRun(t, NEW_EVENT, lines[..k]);
            var (t2, e2) := if lines[k] == [] then (t1, e1) else LineDone(t1, e1, lines[k]);
            Dispatch(t2, e2) == EventsMeaning(t, SplitEvents(lines))
  {
    hide GroupState, EventMeaning, LineDone, DataOf, Dispatch;
    var k := |lines| - 1;
    var init := lines[..k];
    assert lines == init + [lines[k]];
    SplitSnoc<Bytes>(init, [], lines[k]);
    var all := if lines[k] == [] then init else lines;
    LinesToEvents(t, all);
    var events := SplitEvents(all);
    var j := |events| - 1;
    var t1 := EventsMeaning(t, events[..j]);
    assert events == events[..j] + [events[j]];
    EventsMeaningSnoc(t, events[..j], events[j]);
    DispatchMeans(t1, DataOf(events[j]));
    if lines[k] == [] {
      EventsMeaningSnoc(t, events, []);
      EmptyEvent(EventsMeaning(t, events));
    }
  }

  lemma SettledEof(b: Body)
    requires b.sse
    ensures AtEof(b).tally == AtEof(Settled(b)).tally && AtEof(b).event == NEW_EVENT
  {
    hide Dispatch, DataEnd;
  }

  lemma MidLineEof(b: Body, l: Bytes)
    requires b.sse && !b.pendingCR
    ensures var (t, e) := if l == [] then (b.tally, b.event) else LineDone(b.tally, b.event, l);
            AtEof(MidLine(b, l)).tally == Dispatch(t, e)
  {
    hide Dispatch, DataEnd, DataRun;
    MidLineEnd(b, l);
  }

  /** An event stream observed byte by byte, up to its end, has its batch meaning. */
  lemma SseMeans(s: Bytes)
    ensures AtEof(BodyRun(NewBody(true), s)).tally == StreamMeaning(s)
    ensures AtEof(BodyRun(NewBody(true), s)).event == NEW_EVENT
  {
    hide SseByte, Dispatch, BodyRun, SplitLines, LineDone, AtEof, MidLine, EventsMeaning;
    var b := NewBody(true);
    var n := Normalize(s);
    LineEndings(b, s);
    assert Waiting(b) + s == s && b.(pendingCR := false) == b;
    SseRunLines(b, n);
    NoLfInLines(n);
    var lines := SplitLines(n);
    var k := |lines| - 1;
    var (t, e) := LinesRun(b.tally, b.event, lines[..k]);
    SettledEof(BodyRun(b, s));
    MidLineEof(b.(tally := t, event := e), lines[k]);
    FinishLines(NEW_TALLY, lines);
  }
}
