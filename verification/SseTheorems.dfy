/** When a response counts as a finished inference, in terms of its text alone. */
module SseTheorems {
  import opened Bytes
  import opened Rfc8259
  import opened Selection
  import opened JsonMachine
  import opened JsonContainers
  import opened JsonBackward
  import opened JsonTheorems
  import opened JsonSpelling
  import opened SseMachine
  import opened Strings
  import opened SseMeaning

  ghost function Roots(d: Document): seq<Value> {
    match d
    case End(_) => []
    case Root(_, v, rest) => [v] + Roots(rest)
  }

  lemma {:induction false} ExtractsOfRoots(d: Document)
    ensures |Extracts(d)| == |Roots(d)|
    ensures forall i :: 0 <= i < |Roots(d)| ==> Extracts(d)[i] == Extract(Roots(d)[i])
  {
    if d.Root? {
      ExtractsOfRoots(d.rest);
    }
  }

  // The marker that ends a stream, with white space behind it, of which all but the last byte fit 31 bytes.
  ghost predicate IsDone(text: Bytes) {
    exists b :: AllSpace(b) && text == "[DONE]" + b && Utf8Length(text[..|text| - 1]) < 32
  }

  lemma {:induction false} StoredBound(text: Bytes)
    ensures |Stored(text)| <= |text|
    decreases |text|
  {
    hide Utf8Length;
    if text != [] {
      StoredBound(text[..|text| - 1]);
    }
  }

  // A byte is stored if what precedes it is short enough.
  lemma StoredNext(init: Bytes, c: Byte)
    ensures var s := Stored(init);
            Stored(init + [c]) == if Utf8Length(s) < 32 then s + [c] else s
  {
    hide Utf8Length;
    assert (init + [c])[..|init|] == init;
  }

  lemma LengthGrows(init: Bytes, c: Byte)
    ensures Utf8Length(init) <= Utf8Length(init + [c])
  {
    assert (init + [c])[..|init|] == init;
  }

  lemma {:induction false} StoredMeans(text: Bytes)
    requires text != []
    ensures Stored(text) == text <==> Utf8Length(text[..|text| - 1]) < 32
    decreases |text|
  {
    hide Stored, Utf8Length;
    var init, c := text[..|text| - 1], text[|text| - 1];
    assert text == init + [c];
    StoredNext(init, c);
    StoredBound(init);
    var s := Stored(init);
    if s + [c] == text {
      assert s == (s + [c])[..|s|] == text[..|s|] == init;
    }
    if init == [] {
      assert s == init;
    } else {
      StoredMeans(init);
      LengthGrows(init[..|init| - 1], init[|init| - 1]);
      assert init == init[..|init| - 1] + [init[|init| - 1]];
    }
    assert s != text;
  }

  lemma DoneMeans(text: Bytes)
    requires IsMarker(text)
    ensures IsDone(text) <==> Stored(text) == text && TrimSpace(text) == "[DONE]"
  {
    hide Stored, TrimSpace, Utf8Length, AllSpace, IsSpace;
    StoredMeans(text);
    DoneIsTight();
    if TrimSpace(text) == "[DONE]" {
      var a, b := SpaceSplit(text);
      assert a == [] by {
        if a != [] {
          assert text[0] == a[0];
          BracketIsNoSpace(a);
        }
      }
      assert text == "[DONE]" + b;
    }
    if IsDone(text) {
      var b :| AllSpace(b) && text == "[DONE]" + b && Utf8Length(text[..|text| - 1]) < 32;
      NothingIsSpace();
      TrimAround([], "[DONE]", b);
      assert text == [] + "[DONE]" + b;
    }
  }

  lemma DoneIsTight()
    ensures Tight("[DONE]")
  {
  }

  lemma BracketIsNoSpace(a: string)
    requires a != [] && AllSpace(a)
    ensures a[0] != '['
  {
  }

  lemma NothingIsSpace()
    ensures AllSpace([])
  {
  }

  // The data is a JSON text within limits, of at most one object, and that object reports no error.
  ghost predicate GoodDocument(d: Document) {
    && ValidDocument(d) && DocumentFits(d) && |Roots(d)| <= 1
    && (Roots(d) != [] ==> "error" !in Extract(Roots(d)[0]))
  }

  ghost predicate GoodEvent(data: seq<Bytes>) {
    var text := SkipWs(Flat(data));
    if IsMarker(text) then IsDone(text)
    else exists d :: GoodDocument(d) && PrintDocument(d) == Payload(data)
  }

  // The object says that it is the last one: it is done, or it is of the type that stops a message.
  ghost predicate IsLastObject(v: Value) {
    || LastAt(v, [Key("done")], "true")
    || exists xs :: ValidChars(xs) && Spelling(xs, "message_stop") && LastAt(v, [Key("type")], PrintString(xs))
  }

  // The event is a marker, or its object says that it is the last one.
  ghost predicate FinalEvent(data: seq<Bytes>) {
    IsMarker(SkipWs(Flat(data))) ||
    exists d :: GoodDocument(d) && PrintDocument(d) == Payload(data) && Roots(d) != [] && IsLastObject(Roots(d)[0])
  }

  // A field of one name is the last value of that name.
  lemma FieldMeans(v: Value, name: string, raw: Bytes)
    requires [Key(name)] in LISTED
    ensures name in Extract(v) && Extract(v)[name] == raw <==> LastAt(v, [Key(name)], raw)
  {
    DotFreeNames([Key(name)]);
    ReportsLast(v, name, raw);
    forall loc | loc in LISTED && Dottable(loc) && Dotted(loc) == name
      ensures loc == [Key(name)]
    {
      DottedInjective(loc, [Key(name)]);
    }
  }

  /** An object finishes a response exactly if its last `done` is true or its last `type` spells message_stop. */
  lemma FinishesMeans(v: Value)
    ensures Finishes(Extract(v)) <==> IsLastObject(v)
  {
    hide Extract, LastAt, Unquote, Spelling;
    FieldMeans(v, "done", "true");
    StopIsAscii();
    if "type" in Extract(v) {
      var raw := Extract(v)["type"];
      FieldMeans(v, "type", raw);
      TextMeans(raw, "message_stop");
    }
    if exists xs :: ValidChars(xs) && Spelling(xs, "message_stop") && LastAt(v, [Key("type")], PrintString(xs)) {
      var xs :| ValidChars(xs) && Spelling(xs, "message_stop") && LastAt(v, [Key("type")], PrintString(xs));
      FieldMeans(v, "type", PrintString(xs));
      TextMeans(PrintString(xs), "message_stop");
    }
  }

  lemma StopIsAscii()
    ensures Ascii("message_stop")
  {
  }

  lemma DocumentRun(d: Document, p: Parser)
    requires ValidDocument(d) && DocumentFits(d) && p == Run(FRESH, PrintDocument(d))
    ensures Complete(p) && |p.out| == |Roots(d)|
    ensures forall i :: 0 <= i < |Roots(d)| ==> p.out[i] == Extract(Roots(d)[i])
  {
    RunDocument(FRESH, d);
    ExtractsOfRoots(d);
  }

  // A document that is not good fails the event.
  lemma BadText(t: Tally, data: seq<Bytes>)
    requires !IsMarker(SkipWs(Flat(data))) && !GoodEvent(data)
    ensures EventMeaning(t, data).failure.Some?
  {
    hide Run, Finishes, Payload, Flat, SkipWs, Extract, FailureReason, IsDone;
    hide ValidDocument, DocumentFits, PrintDocument;
    var p := Run(FRESH, Payload(data));
    if Complete(p) {
      var d := AcceptedDocument(FRESH, Payload(data));
      DocumentRun(d, p);
      assert !GoodDocument(d);
    }
  }

  lemma GoodText(t: Tally, data: seq<Bytes>, d: Document)
    requires !IsMarker(SkipWs(Flat(data))) && GoodDocument(d) && PrintDocument(d) == Payload(data)
    ensures EventMeaning(t, data).failure == t.failure
    ensures EventMeaning(t, data).terminal == (t.terminal || (Roots(d) != [] && IsLastObject(Roots(d)[0])))
    ensures EventMeaning(t, data).sample == t.sample + if Roots(d) == [] then map[] else Extract(Roots(d)[0])
    ensures EventMeaning(t, data).seen == (t.seen || Roots(d) != [])
  {
    hide Run, Finishes, Extract, IsLastObject, ValidDocument, DocumentFits, Payload, Flat, SkipWs;
    DocumentRun(d, Run(FRESH, Payload(data)));
    if Roots(d) != [] {
      FinishesMeans(Roots(d)[0]);
    }
    assert t.sample + map[] == t.sample;
  }

  lemma EventEffect(t: Tally, data: seq<Bytes>)
    ensures EventMeaning(t, data).failure.None? <==> t.failure.None? && GoodEvent(data)
    ensures GoodEvent(data) ==> EventMeaning(t, data).terminal == (t.terminal || FinalEvent(data))
  {
    hide EventMeaning;
    if IsMarker(SkipWs(Flat(data))) {
      MarkerEffect(t, data);
    } else if GoodEvent(data) {
      var d :| GoodDocument(d) && PrintDocument(d) == Payload(data);
      GoodText(t, data, d);
      if FinalEvent(data) {
        var c :| GoodDocument(c) && PrintDocument(c) == Payload(data) && Roots(c) != []
                 && IsLastObject(Roots(c)[0]);
        GoodText(t, data, c);
      }
    } else {
      BadText(t, data);
    }
  }

  lemma MarkerEffect(t: Tally, data: seq<Bytes>)
    requires IsMarker(SkipWs(Flat(data)))
    ensures EventMeaning(t, data).failure.None? <==> t.failure.None? && GoodEvent(data)
    ensures GoodEvent(data) ==> EventMeaning(t, data).terminal
    ensures EventMeaning(t, data).sample == t.sample
  {
    hide TrimSpace, Stored, IsDone;
    DoneMeans(SkipWs(Flat(data)));
  }

  ghost predicate AllGood(events: seq<seq<Bytes>>) {
    forall i :: 0 <= i < |events| ==> GoodEvent(DataOf(events[i]))
  }

  ghost predicate SomeFinal(events: seq<seq<Bytes>>) {
    exists i :: 0 <= i < |events| && FinalEvent(DataOf(events[i]))
  }

  lemma {:induction false} EventsEffect(t: Tally, events: seq<seq<Bytes>>)
    ensures EventsMeaning(t, events).failure.None? <==> t.failure.None? && AllGood(events)
    ensures AllGood(events) ==> EventsMeaning(t, events).terminal == (t.terminal || SomeFinal(events))
    decreases |events|
  {
    hide EventMeaning, GoodEvent, FinalEvent, DataOf;
    if events != [] {
      var e, rest := events[0], events[1..];
      EventEffect(t, DataOf(e));
      EventsEffect(EventMeaning(t, DataOf(e)), rest);
      assert forall i :: 0 <= i < |rest| ==> rest[i] == events[i + 1];
      assert AllGood(events) <==> GoodEvent(DataOf(e)) && AllGood(rest) by {
        if GoodEvent(DataOf(e)) && AllGood(rest) {
          forall i | 0 <= i < |events| ensures GoodEvent(DataOf(events[i])) {
            assert i > 0 ==> events[i] == rest[i - 1];
          }
        }
      }
      assert SomeFinal(events) <==> FinalEvent(DataOf(e)) || SomeFinal(rest) by {
        if SomeFinal(events) {
          var i :| 0 <= i < |events| && FinalEvent(DataOf(events[i]));
          assert i > 0 ==> events[i] == rest[i - 1];
        }
      }
    }
  }

  /**
   An event stream counts as a finished inference exactly when each of its
   events is a terminal marker or a good JSON text, and one of them is final.
   */
  lemma StreamCounts(s: Bytes)
    ensures var events := SplitEvents(SplitLines(Normalize(s)));
            VerdictOn(true, s).Emit? <==> AllGood(events) && SomeFinal(events)
  {
    hide EventsMeaning, Normalize, SplitEvents, SplitLines, AllGood, SomeFinal;
    EventsEffect(NEW_TALLY, SplitEvents(SplitLines(Normalize(s))));
  }

  // ---- Responses that are not event streams ---------------------------------------------------

  lemma {:induction false} MergeAllEffect(out: seq<Fields>)
    ensures var t := MergeAll(NEW_TALLY, out);
            && (t.failure.None? <==> forall i :: 0 <= i < |out| ==> "error" !in out[i])
            && (t.seen <==> out != [])
    decreases |out|
  {
    hide Finishes;
    if out != [] {
      var init := out[..|out| - 1];
      MergeAllEffect(init);
      assert out == init + [out[|out| - 1]];
    }
  }

  /** Any other response counts exactly when it is a non-empty stream of objects, none of which reports an error. */
  lemma PlainCounts(s: Bytes)
    ensures VerdictOn(false, s).Emit? <==>
            exists d :: ValidDocument(d) && DocumentFits(d) && PrintDocument(d) == s && Roots(d) != []
                        && forall i :: 0 <= i < |Roots(d)| ==> "error" !in Extract(Roots(d)[i])
  {
    hide Run, MergeAll;
    var p := Run(FRESH, s);
    MergeAllEffect(p.out);
    if VerdictOn(false, s).Emit? {
      var d := AcceptedDocument(FRESH, s);
      DocumentRun(d, p);
      SeenOnly(p.out);
    }
    if exists d :: ValidDocument(d) && DocumentFits(d) && PrintDocument(d) == s && Roots(d) != []
                   && forall i :: 0 <= i < |Roots(d)| ==> "error" !in Extract(Roots(d)[i]) {
      var d :| ValidDocument(d) && DocumentFits(d) && PrintDocument(d) == s && Roots(d) != []
               && forall i :: 0 <= i < |Roots(d)| ==> "error" !in Extract(Roots(d)[i]);
      DocumentRun(d, p);
    }
  }

  lemma {:induction false} SeenOnly(out: seq<Fields>)
    ensures MergeAll(NEW_TALLY, out).terminal ==> out != []
  {
  }

  // ---- Which sample is handed over -----------------------------------------------------------

  // The fields of several objects, later ones overriding earlier ones.
  ghost function Override(fs: seq<Fields>): Fields
    decreases |fs|
  {
    if fs == [] then map[] else fs[0] + Override(fs[1..])
  }

  lemma OverrideJoins(a: Fields, b: Fields, c: Fields)
    ensures (a + b) + c == a + (b + c)
  {
  }

  lemma {:induction false} OverrideSnoc(fs: seq<Fields>, f: Fields)
    ensures Override(fs + [f]) == Override(fs) + f
    decreases |fs|
  {
    var all := fs + [f];
    if fs == [] {
      assert all == [f] && [f][1..] == [];
      assert Override([]) == map[] && f + map[] == f && map[] + f == f;
    } else {
      assert all[0] == fs[0] && all[1..] == fs[1..] + [f];
      OverrideSnoc(fs[1..], f);
      OverrideJoins(fs[0], Override(fs[1..]), f);
    }
  }

  // What an event contributes: the fields of its object, if it has one.
  ghost predicate Says(data: seq<Bytes>, f: Fields) {
    if IsMarker(SkipWs(Flat(data))) then f == map[]
    else
      exists d :: GoodDocument(d) && PrintDocument(d) == Payload(data)
                  && f == if Roots(d) == [] then map[] else Extract(Roots(d)[0])
  }

  ghost predicate AllSay(events: seq<seq<Bytes>>, fs: seq<Fields>) {
    |fs| == |events| && forall i :: 0 <= i < |events| ==> Says(DataOf(events[i]), fs[i])
  }

  lemma EventSays(t: Tally, data: seq<Bytes>, f: Fields)
    requires Says(data, f)
    ensures EventMeaning(t, data).sample == t.sample + f
  {
    hide EventMeaning, Finishes;
    if IsMarker(SkipWs(Flat(data))) {
      MarkerEffect(t, data);
      assert t.sample + map[] == t.sample;
    } else {
      var d :| GoodDocument(d) && PrintDocument(d) == Payload(data)
               && f == if Roots(d) == [] then map[] else Extract(Roots(d)[0]);
      GoodText(t, data, d);
    }
  }

  lemma {:induction false} EventsSay(t: Tally, events: seq<seq<Bytes>>, fs: seq<Fields>)
    requires AllSay(events, fs)
    ensures EventsMeaning(t, events).sample == t.sample + Override(fs)
    decreases |events|
  {
    hide EventMeaning, Says, DataOf;
    if events == [] {
      assert t.sample + map[] == t.sample;
    } else {
      assert Says(DataOf(events[0]), fs[0]);
      EventSays(t, DataOf(events[0]), fs[0]);
      assert forall i :: 0 <= i < |events[1..]| ==> events[1..][i] == events[i + 1] && fs[1..][i] == fs[i + 1];
      EventsSay(EventMeaning(t, DataOf(events[0])), events[1..], fs[1..]);
      OverrideJoins(t.sample, fs[0], Override(fs[1..]));
    }
  }

  lemma {:induction false} GoodEventsSay(events: seq<seq<Bytes>>) returns (fs: seq<Fields>)
    requires AllGood(events)
    ensures AllSay(events, fs)
    decreases |events|
  {
    hide DataOf, Flat, Payload, GoodDocument, PrintDocument;
    if events == [] {
      fs := [];
    } else {
      var data := DataOf(events[0]);
      assert GoodEvent(data);
      var f: Fields := map[];
      if !IsMarker(SkipWs(Flat(data))) {
        var d :| GoodDocument(d) && PrintDocument(d) == Payload(data);
        f := if Roots(d) == [] then map[] else Extract(Roots(d)[0]);
      }
      assert forall i :: 0 <= i < |events[1..]| ==> events[1..][i] == events[i + 1];
      var more := GoodEventsSay(events[1..]);
      fs := [f] + more;
    }
  }

  /** The sample of an event stream holds the fields of the events' objects, the last value of each field. */
  lemma StreamSample(s: Bytes)
    requires VerdictOn(true, s).Emit?
    ensures var events := SplitEvents(SplitLines(Normalize(s)));
            && (exists fs :: AllSay(events, fs))
            && (forall fs :: AllSay(events, fs) ==> VerdictOn(true, s).sample == Override(fs))
  {
    hide EventsMeaning, Normalize, SplitEvents, SplitLines, AllSay, AllGood, SomeFinal;
    var events := SplitEvents(SplitLines(Normalize(s)));
    StreamCounts(s);
    var gs := GoodEventsSay(events);
    forall fs | AllSay(events, fs)
      ensures VerdictOn(true, s).sample == Override(fs)
    {
      EventsSay(NEW_TALLY, events, fs);
      assert map[] + Override(fs) == Override(fs);
    }
  }

  lemma {:induction false} MergeAllSample(out: seq<Fields>)
    requires MergeAll(NEW_TALLY, out).failure.None?
    ensures MergeAll(NEW_TALLY, out).sample == Override(out)
    decreases |out|
  {
    hide Finishes;
    if out != [] {
      var init, f := out[..|out| - 1], out[|out| - 1];
      MergeAllSample(init);
      OverrideSnoc(init, f);
      assert out == init + [f];
    }
  }

  /** The sample of any other response holds the fields of its objects, the last value of each field. */
  lemma PlainSample(s: Bytes, d: Document)
    requires VerdictOn(false, s).Emit?
    requires ValidDocument(d) && DocumentFits(d) && PrintDocument(d) == s
    ensures VerdictOn(false, s).sample == Override(Extracts(d))
  {
    hide Run, MergeAll;
    Reports(d);
    MergeAllSample(Run(FRESH, s).out);
  }

  // ---- What a sample holds --------------------------------------------------------------------

  lemma {:induction false} OverrideRaw(fs: seq<Fields>)
    requires forall i :: 0 <= i < |fs| ==> AllRaw(fs[i])
    ensures AllRaw(Override(fs))
    decreases |fs|
  {
    hide IsRaw;
    if fs != [] {
      OverrideRaw(fs[1..]);
    }
  }

  lemma {:induction false} RootsValid(d: Document)
    requires ValidDocument(d)
    ensures forall i :: 0 <= i < |Roots(d)| ==> ValidValue(Roots(d)[i])
  {
    if d.Root? {
      RootsValid(d.rest);
    }
  }

  lemma SaysRaw(data: seq<Bytes>, f: Fields)
    requires Says(data, f)
    ensures AllRaw(f)
  {
    hide IsRaw, Extract, ValidValue;
    if !IsMarker(SkipWs(Flat(data))) {
      var d :| GoodDocument(d) && PrintDocument(d) == Payload(data)
               && f == if Roots(d) == [] then map[] else Extract(Roots(d)[0]);
      RootsValid(d);
      if Roots(d) != [] {
        ReportsTokens(Roots(d)[0]);
      }
    }
  }

  /** A sample holds tokens, or the brackets of containers. */
  lemma SampleTokens(sse: bool, s: Bytes)
    requires VerdictOn(sse, s).Emit?
    ensures AllRaw(VerdictOn(sse, s).sample)
  {
    hide VerdictOn, IsRaw, Extract, ValidValue, Says, DocumentFits, ValidDocument;
    if sse {
      var events := SplitEvents(SplitLines(Normalize(s)));
      StreamSample(s);
      var fs :| AllSay(events, fs);
      forall i | 0 <= i < |fs|
        ensures AllRaw(fs[i])
      {
        SaysRaw(DataOf(events[i]), fs[i]);
      }
      OverrideRaw(fs);
    } else {
      PlainCounts(s);
      var d :| ValidDocument(d) && DocumentFits(d) && PrintDocument(d) == s;
      PlainSample(s, d);
      RootsValid(d);
      ExtractsOfRoots(d);
      forall i | 0 <= i < |Extracts(d)|
        ensures AllRaw(Extracts(d)[i])
      {
        ReportsTokens(Roots(d)[i]);
      }
      OverrideRaw(Extracts(d));
    }
  }
}
