/**
 The response observer as a state machine over single bytes, and the state it
 carries across the events of one response.
 */
module SseMachine {
  import opened Bytes
  import opened Options
  import opened Selection
  import opened JsonMachine
  import opened Strings

  // What has been learned from the response so far.
  datatype Tally = Tally(sample: Fields, terminal: bool, seen: bool, failure: Option<string>, noticed: bool)

  // Inside one event; outside event streams there is one event, with no marker and no object kept.
  datatype Event = Event(parser: Parser, marker: string, kept: Option<Fields>)

  // Inside one line of an event stream.
  datatype Line = Line(prefix: string, isData: bool, hasBytes: bool)

  datatype Body = Body(sse: bool, tally: Tally, event: Event, line: Line, pendingCR: bool)

  const NEW_TALLY: Tally := Tally(map[], false, false, None, false)
  const NEW_EVENT: Event := Event(FRESH, "", None)
  const NEW_LINE: Line := Line("", false, false)

  function NewBody(sse: bool): Body {
    Body(sse, NEW_TALLY, NEW_EVENT, NEW_LINE, false)
  }

  // The first failure is the one that is reported.
  function Fail(t: Tally, reason: string): Tally {
    if t.failure.None? then t.(failure := Some(reason)) else t
  }

  predicate Finishes(f: Fields) {
    ("done" in f && f["done"] == "true") || ("type" in f && Unquote(f["type"]) == Some("message_stop"))
  }

  // An object with an error field fails the response; any other is merged field by field.
  function Merge(t: Tally, f: Fields): Tally {
    if "error" in f then Fail(t, "upstream_error")
    else t.(sample := t.sample + f, terminal := t.terminal || Finishes(f))
  }

  // How much of a terminal marker is stored, in UTF-8. A byte is appended to it as a character: it
  // takes two bytes there when it is not ASCII.
  const MARKER_LIMIT: nat := 32

  // ---- Bytes of an event --------------------------------------------------------------

  // The object that a step of the recognizer has just completed.
  function Reported(before: Parser, after: Parser): Option<Fields> {
    if |after.out| > |before.out| then Some(after.out[|after.out| - 1]) else None
  }

  function EventByte(t: Tally, e: Event, c: Byte): (Tally, Event) {
    var q := Step(e.parser, c);
    match Reported(e.parser, q)
    case None => (t, e.(parser := q))
    case Some(f) =>
      var t' := t.(seen := true);
      (if e.kept.Some? then Fail(t', "malformed") else t', e.(parser := q, kept := Some(f)))
  }

  // A byte of a data line, after the field name.
  function DataByte(t: Tally, e: Event, c: Byte): (Tally, Event) {
    if e.marker != "" then
      if Utf8Length(e.marker) < MARKER_LIMIT then (t, e.(marker := e.marker + [c])) else (Fail(t, "malformed"), e)
    else if c == '[' && Complete(e.parser) && e.kept.None? then (t, e.(marker := "["))
    else EventByte(t, e, c)
  }

  // The end of a data line.
  function DataEnd(t: Tally, e: Event): (Tally, Event) {
    if e.marker == "" then EventByte(t, e, '\n') else (t, e)
  }

  function NoteSkip(t: Tally, p: Parser): Tally {
    t.(noticed := t.noticed || p.keySkipped)
  }

  // The data of an event was one object, or none.
  function DataVerdict(t: Tally, e: Event): Tally {
    if !Complete(e.parser) then Fail(t, FailureReason(e.parser))
    else if e.kept.Some? then Merge(t, e.kept.value)
    else t
  }

  // The end of an event; the next event starts afresh.
  function Dispatch(t: Tally, e: Event): Tally {
    var t1 := NoteSkip(t, e.parser);
    var t2 :=
      if TrimSpace(e.marker) == "[DONE]" then t1.(terminal := true)
      else if e.marker != "" then Fail(t1, "malformed")
      else t1;
    DataVerdict(t2, e)
  }

  // ---- Bytes of an event stream --------------------------------------------------------

  // A byte after line endings have been normalized to line feeds.
  function SseByte(b: Body, c: Byte): Body {
    if c == '\n' then
      if !b.line.hasBytes then b.(tally := Dispatch(b.tally, b.event), event := NEW_EVENT, line := NEW_LINE)
      else if b.line.isData then
        var (t, e) := DataEnd(b.tally, b.event);
        b.(tally := t, event := e, line := NEW_LINE)
      else b.(line := NEW_LINE)
    else if b.line.isData then
      var (t, e) := DataByte(b.tally, b.event, c);
      b.(tally := t, event := e, line := b.line.(hasBytes := true))
    else
      var prefix := if Utf8Length(b.line.prefix) < 6 then b.line.prefix + [c] else b.line.prefix;
      b.(line := Line(prefix, prefix == "data:", true))
  }

  // A byte as read: a carriage return waits for the byte after it.
  function RawByte(b: Body, c: Byte): Body {
    var b1 := b.(pendingCR := false);
    var b2 := if b.pendingCR && c != '\n' then SseByte(b1, '\n') else b1;
    if c == '\r' then b2.(pendingCR := true) else SseByte(b2, c)
  }

  // A byte of a response that is not an event stream: objects are merged as they complete.
  function PlainByte(b: Body, c: Byte): Body {
    var q := Step(b.event.parser, c);
    var t := match Reported(b.event.parser, q)
             case None => b.tally
             case Some(f) => Merge(b.tally.(seen := true), f);
    b.(tally := t, event := b.event.(parser := q))
  }

  function BodyByte(b: Body, c: Byte): Body {
    if b.sse then RawByte(b, c) else PlainByte(b, c)
  }

  function BodyRun(b: Body, s: Bytes): Body
    decreases |s|
  {
    if s == [] then b else BodyRun(BodyByte(b, s[0]), s[1..])
  }

  // After each read, a long field name seen so far is noted.
  function Noted(b: Body): Body {
    b.(tally := NoteSkip(b.tally, b.event.parser))
  }

  // The end of the input: an unfinished line and event are finished.
  function AtEof(b: Body): Body {
    if !b.sse then b
    else
      var b1 := if b.line.hasBytes || b.pendingCR then SseByte(b, '\n') else b;
      b1.(tally := Dispatch(b1.tally, b1.event), event := NEW_EVENT)
  }

  // ---- The decision at a clean end of input ------------------------------------------------

  datatype Verdict = Emit(sample: Fields) | Report(outcome: string, reason: string)

  function Decide(sse: bool, t: Tally, p: Parser): Verdict {
    if t.failure.None? && Complete(p) && (t.seen || t.terminal) && (!sse || t.terminal) then Emit(t.sample)
    else if t.failure.Some? then Report("failed", t.failure.value)
    else if !Complete(p) then Report("failed", FailureReason(p))
    else Report("skipped", "incomplete")
  }

  lemma {:induction false} BodyRunAppend(b: Body, s: Bytes, r: Bytes)
    ensures BodyRun(b, s + r) == BodyRun(BodyRun(b, s), r)
    decreases |s|
  {
    if s == [] {
      assert s + r == r;
    } else {
      assert (s + r)[0] == s[0] && (s + r)[1..] == s[1..] + r;
      BodyRunAppend(BodyByte(b, s[0]), s[1..], r);
    }
  }
}
