/** The response observer as the source writes it: one object around a recognizer that it replaces at each event. */
module ResponseBody {
  import opened Bytes
  import opened Options
  import opened Selection
  import J = JsonFields
  import M = JsonMachine
  import S = SseMachine
  import Strings
  import O = ObserverSession

  class ResponseBody {
    var parser: J.JsonFields
    const sse: bool
    var prefix: string
    var lineData: bool
    var lineBytes: bool
    var pendingCR: bool
    var marker: string
    var eventFields: Option<Fields>
    var sample: Fields
    var terminal: bool
    var seen: bool
    var failed: bool
    var failure: string
    var ended: bool
    var noticed: bool
    // What emit and result have been called with, and what emit's owner answers.
    const owner: O.Owner
    var emits: seq<Fields>
    var results: seq<O.Outcome>
    // How often the wrapped body has been closed.
    var sourceCloses: nat

    constructor (sse: bool, owner: O.Owner)
      ensures Valid() && fresh(parser)
      ensures this.sse == sse && this.owner == owner && sourceCloses == 0
      ensures State() == O.NewSession(sse)
    {
      parser := new J.JsonFields();
      this.sse, this.owner := sse, owner;
      prefix, lineData, lineBytes, pendingCR := "", false, false, false;
      marker, eventFields, sample := "", None, map[];
      terminal, seen, failed, failure, ended, noticed := false, false, false, "", false, false;
      emits, results, sourceCloses := [], [], 0;
    }

    ghost predicate Valid()
      reads this, parser
    {
      parser.Valid() && (failed <==> failure != "")
    }

    ghost function Tally(): S.Tally
      reads this
    {
      S.Tally(sample, terminal, seen, if failed then Some(failure) else None, noticed)
    }

    ghost function Event(): S.Event
      reads this, parser
    {
      S.Event(parser.Parser(), marker, eventFields)
    }

    ghost function Body(): S.Body
      reads this, parser
    {
      S.Body(sse, Tally(), Event(), S.Line(prefix, lineData, lineBytes), pendingCR)
    }

    ghost function State(): O.Session
      reads this, parser
    {
      O.Session(Body(), ended, emits, results)
    }

    method Fail(reason: string)
      requires Valid() && reason != ""
      modifies this`failed, this`failure
      ensures Valid() && Tally() == S.Fail(old(Tally()), reason)
    {
      failed := true;
      if failure == "" {
        failure := reason;
      }
    }

    // The fields of an object overwrite those of the sample.
    method Copy(f: Fields)
      modifies this`sample
      ensures sample == old(sample) + f
    {
      var keys := f.Keys;
      while keys != {}
        invariant keys <= f.Keys
        invariant sample.Keys == old(sample).Keys + (f.Keys - keys)
        invariant forall k :: k in sample ==>
                    sample[k] == if k in f && k !in keys then f[k] else old(sample)[k]
        decreases keys
      {
        var k :| k in keys;
        sample := sample[k := f[k]];
        keys := keys - {k};
      }
      assert sample == old(sample) + f;
    }

    method Merge(f: Fields)
      requires Valid()
      modifies this`failed, this`failure, this`sample, this`terminal
      ensures Valid() && Tally() == S.Merge(old(Tally()), f)
    {
      if "error" in f {
        Fail("upstream_error");
        return;
      }
      Copy(f);
      if ("done" in f && f["done"] == "true") || ("type" in f && M.Unquote(f["type"]) == Some("message_stop")) {
        terminal := true;
      }
    }

    // The recognizer has completed an object.
    method OnObject(f: Fields)
      requires Valid()
      modifies this`seen, this`failed, this`failure, this`eventFields, this`sample, this`terminal
      ensures Valid()
      ensures sse ==>
                && Tally() == (if old(eventFields).Some? then S.Fail(old(Tally()).(seen := true), "malformed")
                               else old(Tally()).(seen := true))
                && eventFields == Some(f)
      ensures !sse ==> Tally() == S.Merge(old(Tally()).(seen := true), f) && eventFields == old(eventFields)
    {
      seen := true;
      if sse {
        if eventFields.Some? {
          Fail("malformed");
        }
        eventFields := Some(f);
      } else {
        Merge(f);
      }
    }

    method ParserByte(c: Byte)
      requires Valid()
      modifies this`seen, this`failed, this`failure, this`eventFields, this`sample, this`terminal, parser
      ensures Valid() && parser == old(parser) && marker == old(marker)
      ensures sse ==> (Tally(), Event()) == S.EventByte(old(Tally()), old(Event()), c)
      ensures !sse ==> Body() == S.PlainByte(old(Body()), c)
    {
      hide M.Step, S.Merge;
      var n := |parser.emitted|;
      M.StepGrows(parser.Parser(), c);
      parser.Byte(c);
      if |parser.emitted| > n {
        OnObject(parser.emitted[|parser.emitted| - 1]);
      }
    }

    method NoteFieldSkip()
      requires Valid()
      modifies this`noticed
      ensures Valid() && Tally() == S.NoteSkip(old(Tally()), parser.Parser())
    {
      if parser.keySkipped {
        noticed := true;
      }
    }

    // The event data was one object, or none.
    method MergeEvent()
      requires Valid()
      modifies this`failed, this`failure, this`sample, this`terminal
      ensures Valid()
      ensures Tally() == S.DataVerdict(old(Tally()), Event())
    {
      hide S.Merge;
      if !parser.Complete() {
        Fail(parser.FailureReason());
      } else if eventFields.Some? {
        Merge(eventFields.value);
      }
    }

    method Dispatch()
      requires Valid() && sse
      modifies this`noticed, this`failed, this`failure, this`sample, this`terminal
      modifies this`eventFields, this`marker, this`parser
      ensures Valid() && fresh(parser) && Event() == S.NEW_EVENT
      ensures Tally() == S.Dispatch(old(Tally()), old(Event()))
    {
      hide S.DataVerdict, Strings.TrimSpace, J.JsonFields.Bounded, J.JsonFields.Sound;
      NoteFieldSkip();
      if Strings.TrimSpace(marker) == "[DONE]" {
        terminal := true;
      } else if marker != "" {
        Fail("malformed");
      }
      MergeEvent();
      eventFields := None;
      marker := "";
      parser := new J.JsonFields();
    }

    // The end of a line of an event stream.
    method LineEnd()
      requires Valid() && sse
      modifies this, parser
      ensures Valid() && (parser == old(parser) || fresh(parser))
      ensures Body() == S.SseByte(old(Body()), '\n')
      ensures ended == old(ended) && emits == old(emits) && results == old(results)
      ensures sourceCloses == old(sourceCloses)
    {
      hide S.Dispatch, S.EventByte, J.JsonFields.Bounded, J.JsonFields.Sound, Strings.Utf8Length;
      if !lineBytes {
        Dispatch();
      } else if lineData && marker == "" {
        ParserByte('\n');
      }
      prefix := "";
      lineData := false;
      lineBytes := false;
    }

    // A byte of a data line, after the field name.
    method DataByte(c: Byte)
      requires Valid() && sse
      modifies this`marker, this`seen, this`failed, this`failure, this`eventFields, this`sample, this`terminal, parser
      ensures Valid() && (Tally(), Event()) == S.DataByte(old(Tally()), old(Event()), c)
    {
      hide S.EventByte, Strings.Utf8Length;
      if marker != "" {
        if Strings.Utf8Length(marker) < 32 {
          marker := marker + [c];
        } else {
          Fail("malformed");
        }
        return;
      }
      if c == '[' && parser.Complete() && eventFields.None? {
        marker := "[";
        return;
      }
      ParserByte(c);
    }

    method SseByte(c: Byte)
      requires Valid() && sse
      modifies this, parser
      ensures Valid() && (parser == old(parser) || fresh(parser))
      ensures Body() == S.SseByte(old(Body()), c)
      ensures ended == old(ended) && emits == old(emits) && results == old(results)
      ensures sourceCloses == old(sourceCloses)
    {
      hide S.DataByte, Strings.Utf8Length;
      if c == '\n' {
        LineEnd();
        return;
      }
      lineBytes := true;
      if lineData {
        DataByte(c);
        return;
      }
      if Strings.Utf8Length(prefix) < 6 {
        prefix := prefix + [c];
      }
      if prefix == "data:" {
        lineData := true;
      }
    }

    method RawByte(c: Byte)
      requires Valid() && sse
      modifies this, parser
      ensures Valid() && (parser == old(parser) || fresh(parser))
      ensures Body() == S.RawByte(old(Body()), c)
      ensures ended == old(ended) && emits == old(emits) && results == old(results)
      ensures sourceCloses == old(sourceCloses)
    {
      hide S.SseByte;
      if pendingCR {
        pendingCR := false;
        if c != '\n' {
          SseByte('\n');
        }
      }
      if c == '\r' {
        pendingCR := true;
      } else {
        SseByte(c);
      }
    }

    method Report(outcome: string, reason: string)
      modifies this`results
      ensures results == if old(results) == [] then [(outcome, reason)] else old(results)
    {
      if results == [] {
        results := [(outcome, reason)];
      }
    }

    method Emit()
      modifies this`emits, this`results
      ensures emits == old(emits) + [sample]
      ensures results == if old(results) == [] then [owner(sample)] else old(results)
    {
      emits := emits + [sample];
      var answer := owner(sample);
      Report(answer.0, answer.1);
    }

    method Observe(chunk: Bytes)
      requires Valid()
      modifies this, parser
      ensures Valid() && (parser == old(parser) || fresh(parser))
      ensures Body() == S.BodyRun(old(Body()), chunk)
      ensures ended == old(ended) && emits == old(emits) && results == old(results)
      ensures sourceCloses == old(sourceCloses)
    {
      hide S.RawByte, S.PlainByte;
      assert chunk[..0] == [];
      for i := 0 to |chunk|
        invariant Valid() && (parser == old(parser) || fresh(parser))
        invariant Body() == S.BodyRun(old(Body()), chunk[..i])
        invariant ended == old(ended) && emits == old(emits) && results == old(results)
        invariant sourceCloses == old(sourceCloses)
      {
        S.BodyRunAppend(old(Body()), chunk[..i], [chunk[i]]);
        assert chunk[..i + 1] == chunk[..i] + [chunk[i]];
        assert [chunk[i]][1..] == [];
        if sse {
          RawByte(chunk[i]);
        } else {
          ParserByte(chunk[i]);
        }
      }
      assert chunk[..|chunk|] == chunk;
    }

    // An unfinished line and event are finished.
    method Flush()
      requires Valid()
      modifies this, parser
      ensures Valid() && (parser == old(parser) || fresh(parser))
      ensures Body() == S.AtEof(old(Body()))
      ensures ended == old(ended) && emits == old(emits) && results == old(results)
      ensures sourceCloses == old(sourceCloses)
    {
      hide S.SseByte, S.Dispatch;
      if sse {
        if lineBytes || pendingCR {
          SseByte('\n');
        }
        Dispatch();
      }
    }

    // Whether the response counts, and if not, why.
    method Decide()
      requires Valid()
      modifies this`emits, this`results
      ensures State() == O.Settle(old(State()), S.Decide(sse, Tally(), parser.Parser()), owner)
    {
      hide M.FailureReason;
      if !failed && parser.Complete() && (seen || terminal) && (!sse || terminal) {
        Emit();
      } else if failed {
        Report("failed", failure);
      } else if !parser.Complete() {
        Report("failed", parser.FailureReason());
      } else {
        Report("skipped", "incomplete");
      }
    }

    method CleanEnd()
      requires Valid()
      modifies this, parser
      ensures Valid() && (parser == old(parser) || fresh(parser))
      ensures sourceCloses == old(sourceCloses)
      ensures var b := S.AtEof(old(Body()));
              State() == O.Settle(old(State()).(body := b, ended := true),
                                  S.Decide(b.sse, b.tally, b.event.parser), owner)
    {
      hide S.AtEof, S.Decide;
      ended := true;
      Flush();
      Decide();
    }

    /** One read of the wrapped body: the bytes it returned, and whether it also ended. */
    method Read(chunk: Bytes, end: O.End)
      requires Valid()
      modifies this, parser
      ensures Valid() && (parser == old(parser) || fresh(parser))
      ensures State() == O.SessionRead(old(State()), chunk, end, owner)
      ensures sourceCloses == old(sourceCloses)
    {
      hide S.BodyRun, S.AtEof, S.Decide, O.Settle, J.JsonFields.Bounded, J.JsonFields.Sound;
      if ended {
        return;
      }
      Observe(chunk);
      NoteFieldSkip();
      assert Body() == S.Noted(S.BodyRun(old(Body()), chunk));
      match end {
        case More =>
        case Eof =>
          CleanEnd();
        case Broken =>
          ended := true;
          Report("failed", "read_error");
      }
    }

    /** The wrapped body is closed once, however often this is called. */
    method Close()
      requires Valid()
      modifies this`sourceCloses, this`results
      ensures Valid() && State() == O.SessionClose(old(State()))
      ensures sourceCloses == if old(sourceCloses) == 0 then 1 else old(sourceCloses)
    {
      if sourceCloses == 0 {
        sourceCloses := 1;
      }
      Report("skipped", "body_closed");
    }
  }
}
