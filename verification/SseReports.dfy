/** What is reported of a response, on its text alone: the outcome, and the reason when it failed. */
module SseReports {
  import opened Bytes
  import opened Options
  import opened Rfc8259
  import opened Selection
  import opened ScalarAutomaton
  import opened JsonMachine
  import opened JsonForward
  import opened JsonContainers
  import opened JsonBackward
  import opened JsonTheorems
  import opened JsonReasons
  import opened Strings
  import opened SseMachine
  import opened SseMeaning
  import opened SseTheorems
  import opened ObserverSession

  // ---- Objects before a failure ------------------------------------------------------------

  // The first k bytes are a stream of objects.
  ghost predicate Prefix(s: Bytes, k: nat, d: Document) {
    k <= |s| && ValidDocument(d) && DocumentFits(d) && PrintDocument(d) == s[..k]
  }

  lemma {:induction false} RunGrows(p: Parser, s: Bytes)
    ensures p.out <= Run(p, s).out
    decreases |s|
  {
    hide Step;
    if s != [] {
      StepGrows(p, s[0]);
      RunGrows(Step(p, s[0]), s[1..]);
    }
  }

  lemma PrefixReported(s: Bytes, k: nat, d: Document)
    requires Prefix(s, k, d)
    ensures Extracts(d) <= Run(FRESH, s).out
  {
    hide Run;
    RunDocument(FRESH, d);
    RunOn(s[..k], s[k..]);
    assert s == s[..k] + s[k..];
    RunGrows(Run(FRESH, s[..k]), s[k..]);
  }

  lemma StructureReports(p: Parser, c: Byte)
    requires p.Live? && p.lex.Idle? && |StructureStep(p, c).out| > |p.out|
    ensures Complete(StructureStep(p, c)) && |StructureStep(p, c).out| == |p.out| + 1
  {
    hide LocOf, Selected;
  }

  lemma KeyKeeps(p: Parser, tok: Token)
    requires p.Live?
    ensures EndKey(p, tok).out == p.out
  {
    hide Unquote;
  }

  // A byte that completes an object leaves the recognizer between objects.
  lemma ReportedOutside(p: Parser, c: Byte)
    requires |Step(p, c).out| > |p.out|
    ensures Complete(Step(p, c)) && |Step(p, c).out| == |p.out| + 1
  {
    hide EndValue, EndKey, StructureStep, Complete, Keep;
    match p.lex {
      case Idle =>
        StructureReports(p, c);
      case Str(isKey, tok, _) =>
        KeyKeeps(p, Keep(tok, c, Limit(isKey)));
        EndValueKeeps(p, Keep(tok, c, Limit(isKey)), true);
      case Scalar(tok, num) =>
        EndValueKeeps(p, tok, NumComplete(num));
        ValueFails(p, tok, NumComplete(num));
        var q := EndValue(p, tok, NumComplete(num));
        if q.Live? && IsDelim(c) {
          StructureReports(q, c);
        }
    }
  }

  /** What has been reported of any input are the objects of a prefix of it. */
  lemma {:induction false} ReportedPrefix(s: Bytes, n: nat) returns (k: nat, d: Document)
    requires 1 <= n <= |Run(FRESH, s).out|
    ensures Prefix(s, k, d) && Extracts(d) == Run(FRESH, s).out[..n]
    decreases |s|
  {
    hide Run, Step, Extracts;
    assert s != [] by { RunEmptyInput(FRESH); }
    var init, c := s[..|s| - 1], s[|s| - 1];
    assert s == init + [c];
    RunSnoc(init, c);
    var p := Run(FRESH, init);
    StepGrows(p, c);
    if n <= |p.out| {
      k, d := ReportedPrefix(init, n);
      assert s[..k] == init[..k];
      assert Run(FRESH, s).out[..n] == p.out[..n];
    } else {
      ReportedOutside(p, c);
      k := |s|;
      assert s[..k] == s;
      d := AcceptedDocument(FRESH, s);
      RunDocument(FRESH, d);
      assert Run(FRESH, s).out[..n] == Run(FRESH, s).out;
    }
  }

  // ---- One event -------------------------------------------------------------------------------

  // Some prefix of the bytes holds two objects.
  ghost predicate ManyObjects(s: Bytes) {
    exists k, d :: Prefix(s, k, d) && |Roots(d)| >= 2
  }

  // Why an event that is no marker and no good JSON text fails.
  ghost function EventReason(data: seq<Bytes>): string {
    var s := Payload(data);
    if IsMarker(SkipWs(Flat(data))) || ManyObjects(s) then "malformed"
    else if !IsObjectStream(s) then ReasonOf(s)
    else "upstream_error"
  }

  lemma ManyMeans(s: Bytes)
    ensures ManyObjects(s) <==> |Run(FRESH, s).out| >= 2
  {
    hide Run;
    if |Run(FRESH, s).out| >= 2 {
      var k, d := ReportedPrefix(s, 2);
      ExtractsOfRoots(d);
    }
    if ManyObjects(s) {
      var k, d :| Prefix(s, k, d) && |Roots(d)| >= 2;
      PrefixReported(s, k, d);
      ExtractsOfRoots(d);
    }
  }

  /** An event that is not good fails the response for its reason, unless something failed it before. */
  lemma EventFails(t: Tally, data: seq<Bytes>)
    requires !GoodEvent(data)
    ensures EventMeaning(t, data).failure == if t.failure.Some? then t.failure else Some(EventReason(data))
  {
    if IsMarker(SkipWs(Flat(data))) {
      MarkerFails(t, data);
    } else {
      TextFails(t, data);
    }
  }

  lemma MarkerFails(t: Tally, data: seq<Bytes>)
    requires !GoodEvent(data) && IsMarker(SkipWs(Flat(data)))
    ensures EventMeaning(t, data).failure == if t.failure.Some? then t.failure else Some("malformed")
  {
    hide Stored, IsDone, TrimSpace;
    DoneMeans(SkipWs(Flat(data)));
  }

  lemma TextFails(t: Tally, data: seq<Bytes>)
    requires !GoodEvent(data) && !IsMarker(SkipWs(Flat(data)))
    ensures EventMeaning(t, data).failure == if t.failure.Some? then t.failure else Some(EventReason(data))
  {
    hide Run, Finishes, Payload, Flat, SkipWs, Extract, FailureReason, ReasonOf, ManyObjects;
    hide ValidDocument, DocumentFits, PrintDocument;
    var s := Payload(data);
    var p := Run(FRESH, s);
    ManyMeans(s);
    Recognizes(s);
    if Complete(p) {
      var d := AcceptedDocument(FRESH, s);
      DocumentRun(d, p);
      assert !GoodDocument(d);
    } else {
      ReasonMeans(s);
    }
  }

  // ---- A whole event stream -----------------------------------------------------------------------

  // Event k is the first one that is not good.
  ghost predicate FirstBad(events: seq<seq<Bytes>>, k: int) {
    0 <= k < |events| && !GoodEvent(DataOf(events[k])) && forall i :: 0 <= i < k ==> GoodEvent(DataOf(events[i]))
  }

  lemma {:induction false} FailureKept(t: Tally, events: seq<seq<Bytes>>)
    requires t.failure.Some?
    ensures EventsMeaning(t, events).failure == t.failure
    decreases |events|
  {
    hide EventMeaning;
    if events != [] {
      var data := DataOf(events[0]);
      OneFailure(t, data);
      FailureKept(EventMeaning(t, data), events[1..]);
    }
  }

  lemma OneFailure(t: Tally, data: seq<Bytes>)
    requires t.failure.Some?
    ensures EventMeaning(t, data).failure == t.failure
  {
    hide Run, Finishes, Payload, Flat, SkipWs, FailureReason, Stored;
  }

  lemma {:induction false} EventsFail(t: Tally, events: seq<seq<Bytes>>, k: nat)
    requires t.failure.None? && FirstBad(events, k)
    ensures EventsMeaning(t, events).failure == Some(EventReason(DataOf(events[k])))
    decreases |events|
  {
    hide EventMeaning, GoodEvent, EventReason, DataOf;
    var data, rest := DataOf(events[0]), events[1..];
    var t1 := EventMeaning(t, data);
    if k == 0 {
      EventFails(t, data);
      FailureKept(t1, rest);
    } else {
      assert GoodEvent(data);
      EventEffect(t, data);
      assert forall i :: 0 <= i < |rest| ==> rest[i] == events[i + 1];
      EventsFail(t1, rest, k - 1);
    }
  }

  lemma {:induction false} SomeFirstBad(events: seq<seq<Bytes>>) returns (k: nat)
    requires !AllGood(events)
    ensures FirstBad(events, k)
    decreases |events|
  {
    hide GoodEvent, DataOf;
    if events != [] && GoodEvent(DataOf(events[0])) {
      var rest := events[1..];
      var j :| 0 <= j < |events| && !GoodEvent(DataOf(events[j]));
      assert rest[j - 1] == events[j];
      k := SomeFirstBad(rest);
      k := k + 1;
      assert forall i :: 1 <= i < |events| ==> events[i] == rest[i - 1];
    } else {
      k := 0;
    }
  }

  /**
   An event stream that does not count is reported as incomplete if all its events
   are good but none is final, and otherwise fails for the reason of its first
   event that is not good.
   */
  lemma StreamReport(s: Bytes)
    ensures var events := SplitEvents(SplitLines(Normalize(s)));
            && (AllGood(events) && !SomeFinal(events) ==> VerdictOn(true, s) == Report("skipped", "incomplete"))
            && (forall k :: FirstBad(events, k) ==>
                  VerdictOn(true, s) == Report("failed", EventReason(DataOf(events[k]))))
            && (AllGood(events) <==> forall k :: !FirstBad(events, k))
  {
    hide EventsMeaning, Normalize, SplitEvents, SplitLines, SomeFinal, GoodEvent, EventReason, DataOf;
    var events := SplitEvents(SplitLines(Normalize(s)));
    EventsEffect(NEW_TALLY, events);
    forall k | FirstBad(events, k)
      ensures VerdictOn(true, s) == Report("failed", EventReason(DataOf(events[k])))
    {
      EventsFail(NEW_TALLY, events, k);
    }
    if !AllGood(events) {
      var k := SomeFirstBad(events);
    }
  }

  // ---- Any other response ------------------------------------------------------------------------------

  // Some prefix of the bytes holds an object with an error.
  ghost predicate SaysError(s: Bytes) {
    exists k, d, i :: Prefix(s, k, d) && 0 <= i < |Roots(d)| && "error" in Extract(Roots(d)[i])
  }

  lemma ErrorMeans(s: Bytes)
    ensures SaysError(s) <==> exists i :: 0 <= i < |Run(FRESH, s).out| && "error" in Run(FRESH, s).out[i]
  {
    hide Run, Extract;
    var out := Run(FRESH, s).out;
    if exists i :: 0 <= i < |out| && "error" in out[i] {
      var i :| 0 <= i < |out| && "error" in out[i];
      var k, d := ReportedPrefix(s, i + 1);
      ExtractsOfRoots(d);
      assert Extracts(d)[i] == out[i];
    }
    if SaysError(s) {
      var k, d, i :| Prefix(s, k, d) && 0 <= i < |Roots(d)| && "error" in Extract(Roots(d)[i]);
      PrefixReported(s, k, d);
      ExtractsOfRoots(d);
      assert out[i] == Extracts(d)[i];
    }
  }

  lemma {:induction false} MergeAllFails(out: seq<Fields>)
    ensures var t := MergeAll(NEW_TALLY, out);
            t.failure.Some? ==> t.failure == Some("upstream_error")
    decreases |out|
  {
    hide Finishes;
    if out != [] {
      MergeAllFails(out[..|out| - 1]);
    }
  }

  lemma OnlyWs(s: Bytes)
    requires IsObjectStream(s)
    ensures AllWs(s) <==> Run(FRESH, s).out == []
  {
    hide Run;
    var d :| ValidDocument(d) && DocumentFits(d) && PrintDocument(d) == s;
    RunDocument(FRESH, d);
    if AllWs(s) {
      RunDocument(FRESH, End(s));
    }
  }

  /**
   A response that is no event stream and does not count fails for an error that
   one of its objects reports, or else for the reason for which it is no stream of
   objects; without any object it is incomplete.
   */
  lemma PlainReport(s: Bytes)
    ensures SaysError(s) ==> VerdictOn(false, s) == Report("failed", "upstream_error")
    ensures !SaysError(s) && !IsObjectStream(s) ==> VerdictOn(false, s) == Report("failed", ReasonOf(s))
    ensures AllWs(s) ==> VerdictOn(false, s) == Report("skipped", "incomplete")
    ensures !SaysError(s) && IsObjectStream(s) && !AllWs(s) ==> VerdictOn(false, s).Emit?
  {
    hide Run, MergeAll, ReasonOf, IsObjectStream, SaysError, AllWs;
    var p := Run(FRESH, s);
    MergeAllEffect(p.out);
    MergeAllFails(p.out);
    ErrorMeans(s);
    Recognizes(s);
    if !IsObjectStream(s) {
      ReasonMeans(s);
      SpacesAreStream(s);
    } else {
      OnlyWs(s);
      SeenOnly(p.out);
    }
  }

  lemma SpacesAreStream(s: Bytes)
    ensures AllWs(s) ==> IsObjectStream(s)
  {
    if AllWs(s) {
      assert ValidDocument(End(s)) && DocumentFits(End(s)) && PrintDocument(End(s)) == s;
    }
  }

  // ---- Sessions ---------------------------------------------------------------------------------------

  // The outcome and the reason of a response that does not count.
  ghost function TextOutcome(sse: bool, s: Bytes): Outcome {
    if sse then
      var events := SplitEvents(SplitLines(Normalize(s)));
      if AllGood(events) then ("skipped", "incomplete")
      else
        SomeBad(events);
        var k :| FirstBad(events, k);
        ("failed", EventReason(DataOf(events[k])))
    else if AllWs(s) then ("skipped", "incomplete")
    else ("failed", if SaysError(s) then "upstream_error" else ReasonOf(s))
  }

  lemma SomeBad(events: seq<seq<Bytes>>)
    requires !AllGood(events)
    ensures exists k :: FirstBad(events, k)
  {
    var k := SomeFirstBad(events);
  }

  /**
   Over any reads and closes of a response that ended cleanly and was not closed
   before: the one result is the owner's for a response that counts, and otherwise
   the outcome that the text gives.
   */
  lemma ReportedFromText(sse: bool, ops: seq<Op>, owner: Owner)
    requires Ending(ops).Eof? && !ClosedEarly(ops)
    ensures var f := SessionRun(NewSession(sse), ops, owner);
            f.results == [if f.emits != [] then owner(f.emits[0]) else TextOutcome(sse, Content(ops))]
  {
    hide SessionRun, SplitEvents, SplitLines, Normalize, SaysError, IsObjectStream, ReasonOf, AllWs, AllGood, FirstBad;
    hide Meaning;
    ExactlyOnce(sse, ops, owner);
    var s := Content(ops);
    if sse {
      StreamReport(s);
      StreamCounts(s);
    } else {
      PlainReport(s);
    }
  }

  // ---- Long field names -----------------------------------------------------------------------------

  // The event is JSON text with a field name that is too long.
  ghost predicate LongEvent(data: seq<Bytes>) {
    !IsMarker(SkipWs(Flat(data))) && LongName(Payload(data))
  }

  lemma EventNotes(t: Tally, data: seq<Bytes>)
    ensures EventMeaning(t, data).noticed == (t.noticed || LongEvent(data))
  {
    hide Run, Finishes, Payload, Flat, SkipWs, FailureReason, Stored, LongName, TrimSpace, Complete;
    SkipMeans(Payload(data));
  }

  lemma {:induction false} EventsNote(t: Tally, events: seq<seq<Bytes>>)
    ensures EventsMeaning(t, events).noticed <==>
            t.noticed || exists i :: 0 <= i < |events| && LongEvent(DataOf(events[i]))
    decreases |events|
  {
    hide EventMeaning, LongEvent, DataOf;
    if events != [] {
      var rest := events[1..];
      EventNotes(t, DataOf(events[0]));
      EventsNote(EventMeaning(t, DataOf(events[0])), rest);
      assert forall i :: 0 <= i < |rest| ==> rest[i] == events[i + 1];
      if exists i :: 0 <= i < |events| && LongEvent(DataOf(events[i])) {
        var i :| 0 <= i < |events| && LongEvent(DataOf(events[i]));
        assert i > 0 ==> rest[i - 1] == events[i];
      }
    }
  }

  lemma {:induction false} MergesNote(out: seq<Fields>)
    ensures !MergeAll(NEW_TALLY, out).noticed
    decreases |out|
  {
    hide Finishes;
    if out != [] {
      MergesNote(out[..|out| - 1]);
    }
  }

  ghost predicate NoticeDue(sse: bool, s: Bytes) {
    if sse then
      var events := SplitEvents(SplitLines(Normalize(s)));
      exists i :: 0 <= i < |events| && LongEvent(DataOf(events[i]))
    else LongName(s)
  }

  lemma MeaningNotes(sse: bool, s: Bytes)
    ensures Meaning(sse, s).noticed <==> NoticeDue(sse, s)
  {
    hide SplitEvents, SplitLines, Normalize, LongEvent, LongName, EventsMeaning, MergeAll, Run;
    if sse {
      EventsNote(NEW_TALLY, SplitEvents(SplitLines(Normalize(s))));
    } else {
      MergesNote(Run(FRESH, s).out);
      SkipMeans(s);
    }
  }

  /** At a clean end a skipped field name has been noticed exactly if the text holds one that is too long. */
  lemma NoticedFromText(sse: bool, ops: seq<Op>, owner: Owner)
    requires Ending(ops).Eof?
    ensures SessionRun(NewSession(sse), ops, owner).body.tally.noticed <==> NoticeDue(sse, Content(ops))
  {
    hide SessionRun, NoticeDue, HasRead, Meaning;
    assert HasRead(NewBody(sse), sse, []) by { NothingRead(sse); }
    SessionOutcome(NewSession(sse), sse, [], ops, owner);
    assert [] + Content(ops) == Content(ops);
    MeaningNotes(sse, Content(ops));
  }
}
