/**
 A response body over any sequence of reads and closes: what it hands to its
 owner depends only on the bytes read and on how the reading ended.
 */
module ObserverSession {
  import opened Bytes
  import opened Selection
  import opened JsonMachine
  import opened SseMachine
  import opened Strings
  import opened SseMeaning
  import opened SseRefinement

  datatype End = More | Eof | Broken
  datatype Op = Read(chunk: Bytes, end: End) | Close

  type Outcome = (string, string)

  // What the owner reports after being handed a sample.
  type Owner = Fields -> Outcome

  datatype Session = Session(body: Body, ended: bool, emits: seq<Fields>, results: seq<Outcome>)

  function NewSession(sse: bool): Session {
    Session(NewBody(sse), false, [], [])
  }

  // Only the first result is reported.
  function Reporting(s: Session, r: Outcome): Session {
    if s.results == [] then s.(results := [r]) else s
  }

  function Settle(s: Session, v: Verdict, owner: Owner): Session {
    match v
    case Emit(sample) => Reporting(s.(emits := s.emits + [sample]), owner(sample))
    case Report(outcome, reason) => Reporting(s, (outcome, reason))
  }

  function SessionRead(s: Session, chunk: Bytes, end: End, owner: Owner): Session {
    if s.ended then s
    else
      var b := Noted(BodyRun(s.body, chunk));
      match end
      case More => s.(body := b)
      case Eof =>
        var done := AtEof(b);
        Settle(s.(body := done, ended := true), Decide(done.sse, done.tally, done.event.parser), owner)
      case Broken => Reporting(s.(body := b, ended := true), ("failed", "read_error"))
  }

  function SessionClose(s: Session): Session {
    Reporting(s, ("skipped", "body_closed"))
  }

  function SessionRun(s: Session, ops: seq<Op>, owner: Owner): Session
    decreases |ops|
  {
    if ops == [] then s
    else
      var s1 := match ops[0]
                case Read(chunk, end) => SessionRead(s, chunk, end, owner)
                case Close => SessionClose(s);
      SessionRun(s1, ops[1..], owner)
  }

  // ---- What was read ------------------------------------------------------------------

  // The bytes of all reads up to the one that ended the input.
  function Content(ops: seq<Op>): Bytes
    decreases |ops|
  {
    if ops == [] then []
    else match ops[0]
      case Close => Content(ops[1..])
      case Read(chunk, end) => if end.More? then chunk + Content(ops[1..]) else chunk
  }

  function Ending(ops: seq<Op>): End
    decreases |ops|
  {
    if ops == [] then More
    else match ops[0]
      case Close => Ending(ops[1..])
      case Read(_, end) => if end.More? then Ending(ops[1..]) else end
  }

  // Some close comes before the input has ended.
  predicate ClosedEarly(ops: seq<Op>)
    decreases |ops|
  {
    ops != [] && (ops[0].Close? || (ops[0].end.More? && ClosedEarly(ops[1..])))
  }

  function VerdictOutcome(v: Verdict, owner: Owner): Outcome {
    match v
    case Emit(sample) => owner(sample)
    case Report(outcome, reason) => (outcome, reason)
  }

  // The samples handed over for a response that holds s.
  function Emitted(sse: bool, s: Bytes, end: End): seq<Fields> {
    if end.Eof? && VerdictOn(sse, s).Emit? then [VerdictOn(sse, s).sample] else []
  }

  // The result reported for a response that holds s.
  function Reports(sse: bool, s: Bytes, end: End, closedEarly: bool, owner: Owner): seq<Outcome> {
    if closedEarly then [("skipped", "body_closed")]
    else match end
      case More => []
      case Eof => [VerdictOutcome(VerdictOn(sse, s), owner)]
      case Broken => [("failed", "read_error")]
  }

  // ---- Noting a long field name early or late makes no difference -----------------------

  function Marked(t: Tally, n: bool): Tally {
    t.(noticed := n)
  }

  lemma EventByteMarked(t: Tally, e: Event, c: Byte, n: bool)
    ensures EventByte(Marked(t, n), e, c) == (Marked(EventByte(t, e, c).0, n), EventByte(t, e, c).1)
    ensures e.parser.keySkipped ==> EventByte(t, e, c).1.parser.keySkipped
    ensures EventByte(t, e, c).0.noticed == t.noticed
  {
    hide Step;
    StepGrows(e.parser, c);
  }

  lemma DataByteMarked(t: Tally, e: Event, c: Byte, n: bool)
    ensures DataByte(Marked(t, n), e, c) == (Marked(DataByte(t, e, c).0, n), DataByte(t, e, c).1)
    ensures e.parser.keySkipped ==> DataByte(t, e, c).1.parser.keySkipped
    ensures DataByte(t, e, c).0.noticed == t.noticed
  {
    hide EventByte;
    EventByteMarked(t, e, c, n);
  }

  lemma MergeMarked(t: Tally, f: Fields, n: bool)
    ensures Merge(Marked(t, n), f) == Marked(Merge(t, f), n)
    ensures Merge(t, f).noticed == t.noticed
  {
    hide Finishes;
  }

  lemma DispatchMarked(t: Tally, e: Event, n: bool)
    ensures Dispatch(Marked(t, n), e) == Marked(Dispatch(t, e), n || e.parser.keySkipped)
    ensures Dispatch(t, e).noticed == (t.noticed || e.parser.keySkipped)
  {
    hide Step, TrimSpace, DataVerdict;
    var t1, m := NoteSkip(t, e.parser), n || e.parser.keySkipped;
    assert NoteSkip(Marked(t, n), e.parser) == Marked(t1, m);
    DataVerdictMarked(t1, e, m);
    DataVerdictMarked(t1.(terminal := true), e, m);
    DataVerdictMarked(Fail(t1, "malformed"), e, m);
  }

  lemma DataVerdictMarked(t: Tally, e: Event, n: bool)
    ensures DataVerdict(Marked(t, n), e) == Marked(DataVerdict(t, e), n)
    ensures DataVerdict(t, e).noticed == t.noticed
  {
    hide Complete, FailureReason, Merge;
    if e.kept.Some? {
      MergeMarked(t, e.kept.value, n);
    }
  }

  lemma SseByteNoted(b: Body, c: Byte)
    ensures Noted(SseByte(Noted(b), c)) == Noted(SseByte(b, c))
    ensures Noted(b).line == b.line && Noted(b).pendingCR == b.pendingCR && Noted(b).sse == b.sse
  {
    hide Dispatch, DataByte, EventByte, Utf8Length, Step;
    var n := b.tally.noticed || b.event.parser.keySkipped;
    assert Noted(b) == b.(tally := Marked(b.tally, n));
    if c == '\n' {
      DispatchMarked(b.tally, b.event, n);
      EventByteMarked(b.tally, b.event, '\n', n);
    } else if b.line.isData {
      DataByteMarked(b.tally, b.event, c, n);
    }
  }

  lemma RawByteNoted(b: Body, c: Byte)
    ensures Noted(RawByte(Noted(b), c)) == Noted(RawByte(b, c))
  {
    hide SseByte;
    var b1 := b.(pendingCR := false);
    SseByteNoted(b1, c);
    SseByteNoted(b1, '\n');
    var b2 := SseByte(b1, '\n');
    SseByteNoted(b2, c);
    SseByteNoted(SseByte(Noted(b1), '\n'), c);
  }

  lemma PlainByteNoted(b: Body, c: Byte)
    ensures Noted(PlainByte(Noted(b), c)) == Noted(PlainByte(b, c))
  {
    hide Step;
    StepGrows(b.event.parser, c);
  }

  lemma {:induction false} RunNoted(b: Body, s: Bytes)
    ensures Noted(BodyRun(Noted(b), s)) == Noted(BodyRun(b, s))
    decreases |s|
  {
    hide RawByte, PlainByte;
    if s != [] {
      RawByteNoted(b, s[0]);
      PlainByteNoted(b, s[0]);
      RunNoted(BodyByte(b, s[0]), s[1..]);
      RunNoted(BodyByte(Noted(b), s[0]), s[1..]);
    }
  }

  lemma EofNoted(b: Body)
    requires b.sse
    ensures AtEof(Noted(b)).tally == AtEof(b).tally && AtEof(Noted(b)).event == AtEof(b).event
    ensures AtEof(Noted(b)).sse
  {
    hide SseByte, Dispatch;
    SseByteNoted(b, '\n');
    PendingKept(b, '\n');
    DispatchNoted(b);
    DispatchNoted(SseByte(b, '\n'));
    DispatchNoted(SseByte(Noted(b), '\n'));
  }

  lemma DispatchNoted(b: Body)
    ensures Dispatch(Noted(b).tally, Noted(b).event) == Dispatch(b.tally, b.event)
  {
    hide Step, TrimSpace;
  }

  // ---- Responses that are not event streams ------------------------------------------------

  lemma {:induction false} PlainMeans(s: Bytes)
    ensures var b := BodyRun(NewBody(false), s);
            && !b.sse && b.event.parser == Run(FRESH, s)
            && b.tally == MergeAll(NEW_TALLY, Run(FRESH, s).out)
    decreases |s|
  {
    hide Merge, Step;
    if s != [] {
      var init, c := s[..|s| - 1], s[|s| - 1];
      assert s == init + [c];
      PlainMeans(init);
      BodyRunAppend(NewBody(false), init, [c]);
      RunAppend(FRESH, init, [c]);
      var p := Run(FRESH, init);
      RunOne(p, c);
      StepGrows(p, c);
      var b := BodyRun(NewBody(false), init);
      assert [c][1..] == [];
      assert BodyRun(b, [c]) == BodyByte(b, c);
      var out := Step(p, c).out;
      if |out| > |p.out| {
        assert out[..|out| - 1] == p.out;
        assert out != [];
      } else {
        assert out == p.out;
      }
    }
  }

  // The state of the body after reading s.
  ghost predicate HasRead(b: Body, sse: bool, s: Bytes) {
    b == Noted(BodyRun(NewBody(sse), s))
  }

  lemma ReadMore(b: Body, sse: bool, s: Bytes, chunk: Bytes)
    requires HasRead(b, sse, s)
    ensures HasRead(Noted(BodyRun(b, chunk)), sse, s + chunk)
  {
    hide BodyRun;
    RunNoted(BodyRun(NewBody(sse), s), chunk);
    BodyRunAppend(NewBody(sse), s, chunk);
  }

  /** At a clean end of input the decision, and the note on field names, are those of the batch meaning. */
  lemma DecisionMeans(b: Body, sse: bool, s: Bytes)
    requires HasRead(b, sse, s)
    ensures var d := AtEof(b);
            && Decide(d.sse, d.tally, d.event.parser) == VerdictOn(sse, s)
            && d.tally == Meaning(sse, s)
  {
    hide BodyRun, AtEof, Dispatch;
    var raw := BodyRun(NewBody(sse), s);
    if sse {
      LineEndings(NewBody(true), s);
      EofNoted(raw);
      SseMeans(s);
    } else {
      PlainMeans(s);
      PlainEof(b);
    }
  }

  lemma PlainEof(b: Body)
    requires !b.sse
    ensures AtEof(b) == b
  {
  }

  // ---- Every sequence of reads and closes -----------------------------------------------------

  lemma {:induction false} EndedRun(s: Session, ops: seq<Op>, owner: Owner)
    requires s.ended && s.results != []
    ensures SessionRun(s, ops, owner) == s
    decreases |ops|
  {
    if ops != [] {
      EndedRun(s, ops[1..], owner);
    }
  }

  // A session that is still reading.
  ghost predicate Reading(s: Session, sse: bool, read: Bytes) {
    HasRead(s.body, sse, read) && !s.ended && s.emits == [] && |s.results| <= 1
  }

  lemma {:induction false} SessionOutcome(s: Session, sse: bool, read: Bytes, ops: seq<Op>, owner: Owner)
    requires Reading(s, sse, read)
    ensures var f := SessionRun(s, ops, owner);
            var all := read + Content(ops);
            && f.emits == Emitted(sse, all, Ending(ops))
            && f.results == (if s.results != [] then s.results
                             else Reports(sse, all, Ending(ops), ClosedEarly(ops), owner))
            && (f.ended <==> !Ending(ops).More?)
            && (Ending(ops).Eof? ==> f.body.tally == Meaning(sse, all))
            && (!Ending(ops).Eof? ==> HasRead(f.body, sse, all))
    decreases |ops|
  {
    hide BodyRun, Noted, HasRead, AtEof, Decide, VerdictOn, Meaning;
    if ops == [] {
      assert read + [] == read;
    } else {
      var rest := ops[1..];
      match ops[0] {
        case Close =>
          SessionOutcome(SessionClose(s), sse, read, rest, owner);
        case Read(chunk, end) =>
          var s1 := SessionRead(s, chunk, end, owner);
          ReadMore(s.body, sse, read, chunk);
          if end.More? {
            SessionOutcome(s1, sse, read + chunk, rest, owner);
            assert read + (chunk + Content(rest)) == read + chunk + Content(rest);
          } else {
            DecisionMeans(Noted(BodyRun(s.body, chunk)), sse, read + chunk);
            EndedRun(s1, rest, owner);
          }
      }
    }
  }

  lemma NothingRead(sse: bool)
    ensures HasRead(NewBody(sse), sse, [])
  {
  }

  /**
   Over any sequence of reads and closes: a sample is handed over at most once,
   and exactly when the input ended cleanly and its batch meaning says so; at
   most one result is reported, the first one due.
   */
  lemma ExactlyOnce(sse: bool, ops: seq<Op>, owner: Owner)
    ensures var f := SessionRun(NewSession(sse), ops, owner);
            && f.emits == Emitted(sse, Content(ops), Ending(ops))
            && f.results == Reports(sse, Content(ops), Ending(ops), ClosedEarly(ops), owner)
            && |f.emits| <= 1 && |f.results| <= 1
            && (|f.results| == 1 <==> !Ending(ops).More? || ClosedEarly(ops))
    // A close is early when no read before it has ended the input.
    ensures ClosedEarly(ops) <==>
            exists i :: 0 <= i < |ops| && ops[i].Close? && forall k :: 0 <= k < i ==> ops[k].Read? ==> ops[k].end.More?
  {
    hide BodyRun;
    NothingRead(sse);
    SessionOutcome(NewSession(sse), sse, [], ops, owner);
    assert [] + Content(ops) == Content(ops);
    NoneEarly(ops);
  }

  lemma {:induction false} NoneEarly(ops: seq<Op>)
    ensures ClosedEarly(ops) <==>
            exists i :: 0 <= i < |ops| && ops[i].Close? && forall k :: 0 <= k < i ==> ops[k].Read? ==> ops[k].end.More?
    decreases |ops|
  {
    if ops != [] {
      NoneEarly(ops[1..]);
      if exists i :: 0 <= i < |ops| && ops[i].Close? && forall k :: 0 <= k < i ==> ops[k].Read? ==> ops[k].end.More? {
        var i :| 0 <= i < |ops| && ops[i].Close? && forall k :: 0 <= k < i ==> ops[k].Read? ==> ops[k].end.More?;
        if i > 0 {
          assert ops[1..][i - 1] == ops[i];
          assert forall k :: 0 <= k < i - 1 ==> ops[1..][k] == ops[k + 1];
        }
      }
      if ClosedEarly(ops) && ops[0].Read? {
        var j :| 0 <= j < |ops[1..]| && ops[1..][j].Close?
                 && forall k :: 0 <= k < j ==> ops[1..][k].Read? ==> ops[1..][k].end.More?;
        assert ops[j + 1] == ops[1..][j];
        assert forall k :: 1 <= k < j + 1 ==> ops[k] == ops[1..][k - 1];
      }
    }
  }

  /** How the same bytes were cut into reads makes no difference to anything the owner sees. */
  lemma Fragmentation(sse: bool, a: seq<Op>, b: seq<Op>, owner: Owner)
    requires Content(a) == Content(b) && Ending(a) == Ending(b) && ClosedEarly(a) == ClosedEarly(b)
    ensures var f, g := SessionRun(NewSession(sse), a, owner), SessionRun(NewSession(sse), b, owner);
            && f.emits == g.emits && f.results == g.results && f.ended == g.ended
            && f.body.tally == g.body.tally
  {
    hide BodyRun;
    NothingRead(sse);
    SessionOutcome(NewSession(sse), sse, [], a, owner);
    SessionOutcome(NewSession(sse), sse, [], b, owner);
  }
}
