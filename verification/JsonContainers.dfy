/** Completeness continued: objects, arrays and whole documents. */
module JsonContainers {
  import opened Bytes
  import opened Rfc8259
  import opened Selection
  import opened JsonMachine
  import opened JsonForward

  // ---- The state inside a container ---------------------------------------------

  ghost function Pushed(p: Parser, isObject: bool): Parser
    requires p.Live? && p.stack != []
  {
    var o := Occurrence(LocOf(p.stack), if isObject then "{}" else "[]");
    p.(fields := Record(p.fields, [o]),
       stack := p.stack + [Frame(isObject, if isObject then AtFirstKey else AtFirstElem, "")])
  }

  lemma OpenContainer(p: Parser, isObject: bool, s: Bytes)
    requires ValueReady(p) && |p.stack| < DEPTH_LIMIT
    ensures Run(p, [if isObject then '{' else '['] + s) == Run(Pushed(p, isObject), s)
    ensures Below(Pushed(p, isObject).stack) == p.stack
  {
    var c: Byte := if isObject then '{' else '[';
    RunCons(p, c, s);
    RecordOne(p.fields, Occurrence(LocOf(p.stack), if isObject then "{}" else "[]"));
  }

  // A container closes inside another one.
  lemma CloseContainer(p: Parser, isObject: bool, rest: Bytes)
    requires p.Live? && p.lex.Idle? && |p.stack| >= 2 && Top(p.stack).isObject == isObject
    requires var pos := Top(p.stack).pos;
             pos.AtSeparator? || (if isObject then pos.AtFirstKey? else pos.AtFirstElem?)
    ensures Run(p, [if isObject then '}' else ']'] + rest)
         == Run(p.(stack := MoveTop(Below(p.stack), AtSeparator)), rest)
  {
    RunCons(p, if isObject then '}' else ']', rest);
  }

  ghost function AfterComma(p: Parser): Parser
    requires p.Live? && p.stack != []
  {
    p.(stack := MoveTop(p.stack, if Top(p.stack).isObject then AtNextKey else AtValue))
  }

  lemma RunComma(p: Parser, s: Bytes)
    requires p.Live? && p.lex.Idle? && p.stack != [] && Top(p.stack).pos.AtSeparator?
    ensures Run(p, [','] + s) == Run(AfterComma(p), s)
    ensures Below(AfterComma(p).stack) == Below(p.stack)
  {
    RunCons(p, ',', s);
  }

  // ---- Members --------------------------------------------------------------------

  ghost function AtMemberValue(p: Parser, key: seq<StrChar>): Parser
    requires p.Live? && p.stack != []
  {
    p.(stack := Below(p.stack) + [Frame(true, AtValue, KeyName(key))],
       keySkipped := p.keySkipped || |PrintString(key)| > KEY_LIMIT)
  }

  ghost function AtMemberColon(p: Parser, key: seq<StrChar>): Parser
    requires p.Live? && p.stack != []
  {
    p.(stack := Below(p.stack) + [Frame(true, AtColon, KeyName(key))],
       keySkipped := p.keySkipped || |PrintString(key)| > KEY_LIMIT)
  }

  lemma RunKeyToken(p: Parser, key: seq<StrChar>, s: Bytes)
    requires KeyReady(p) && ValidChars(key)
    ensures Run(p, PrintString(key) + s) == Run(AtMemberColon(p, key), s)
  {
    assert PrintString(key) + s == ['"'] + (PrintChars(key) + (['"'] + s));
    RunCons(p, '"', PrintChars(key) + (['"'] + s));
    RunString(p, true, key, s);
    UnquoteString(key);
  }

  lemma RunKey(p: Parser, w0: Bytes, key: seq<StrChar>, w1: Bytes, w2: Bytes, s: Bytes)
    requires KeyReady(p) && ValidChars(key) && AllWs(w0) && AllWs(w1) && AllWs(w2)
    ensures Run(p, w0 + (PrintString(key) + (w1 + ([':'] + (w2 + s))))) == Run(AtMemberValue(p, key), s)
  {
    hide Run;
    RunWs(p, w0, PrintString(key) + (w1 + ([':'] + (w2 + s))));
    RunKeyToken(p, key, w1 + ([':'] + (w2 + s)));
    var q := AtMemberColon(p, key);
    RunWs(q, w1, [':'] + (w2 + s));
    RunCons(q, ':', w2 + s);
    assert Step(q, ':') == AtMemberValue(p, key);
    RunWs(AtMemberValue(p, key), w2, s);
  }

  // ---- Values, members and elements, by induction on the tree --------------------------

  lemma {:induction false} RunValue(p: Parser, v: Value, rest: Bytes)
    requires ValueReady(p) && ValidValue(v) && |p.stack| + Depth(v) <= DEPTH_LIMIT
    requires Fits(Occurrences(v, LocOf(p.stack)))
    requires rest != [] && IsDelim(rest[0])
    ensures Run(p, PrintValue(v) + rest) == Run(After(p, v), rest)
    decreases v
  {
    hide Run, Selected, Record;
    match v {
      case Text(xs) => RunText(p, xs, rest);
      case Bare(t) => RunBare(p, t, rest);
      case EmptyObject(ws) => RunEmpty(p, v, ws, true, rest);
      case EmptyArray(ws) => RunEmpty(p, v, ws, false, rest);
      case Object(ms) => RunObject(p, ms, rest);
      case Array(es) => RunArray(p, es, rest);
    }
  }

  lemma {:induction false} RunObject(p: Parser, ms: Members, rest: Bytes)
    requires ValueReady(p) && ValidMembers(ms) && |p.stack| + 1 + DepthMembers(ms) <= DEPTH_LIMIT
    requires Fits(Occurrences(Object(ms), LocOf(p.stack)))
    ensures Run(p, PrintValue(Object(ms)) + rest) == Run(After(p, Object(ms)), rest)
    decreases ms, 1
  {
    hide Run, Selected, Record, DepthMembers, ValidMembers, PrintMembers, MemberOccurrences, LongKeyMembers;
    var v, body, q := Object(ms), PrintMembers(ms), Pushed(p, true);
    var first, more := [Occurrence(LocOf(p.stack), "{}")], MemberOccurrences(ms, LocOf(p.stack));
    assert PrintValue(v) + rest == ['{'] + (body + (['}'] + rest));
    OpenContainer(p, true, body + (['}'] + rest));
    FitsSplit(first, more);
    RunMembers(q, ms, ['}'] + rest);
    CloseContainer(AfterMembers(q, ms), true, rest);
    RecordAppend(p.fields, first, more);
  }

  lemma {:induction false} RunArray(p: Parser, es: Elems, rest: Bytes)
    requires ValueReady(p) && ValidElems(es) && |p.stack| + 1 + DepthElems(es) <= DEPTH_LIMIT
    requires Fits(Occurrences(Array(es), LocOf(p.stack)))
    ensures Run(p, PrintValue(Array(es)) + rest) == Run(After(p, Array(es)), rest)
    decreases es, 1
  {
    hide Run, Selected, Record, DepthElems, ValidElems, PrintElems, ElemOccurrences, LongKeyElems;
    var v, body, q := Array(es), PrintElems(es), Pushed(p, false);
    var first, more := [Occurrence(LocOf(p.stack), "[]")], ElemOccurrences(es, LocOf(p.stack));
    assert PrintValue(v) + rest == ['['] + (body + ([']'] + rest));
    OpenContainer(p, false, body + ([']'] + rest));
    FitsSplit(first, more);
    RunElems(q, es, [']'] + rest);
    CloseContainer(AfterElems(q, es), false, rest);
    RecordAppend(p.fields, first, more);
  }

  lemma RunEmpty(p: Parser, v: Value, ws: Bytes, isObject: bool, rest: Bytes)
    requires ValueReady(p) && |p.stack| < DEPTH_LIMIT && AllWs(ws)
    requires v == if isObject then EmptyObject(ws) else EmptyArray(ws)
    ensures Run(p, PrintValue(v) + rest) == Run(After(p, v), rest)
  {
    hide Run, Selected;
    var open: Byte := if isObject then '{' else '[';
    var close: Byte := if isObject then '}' else ']';
    var q := Pushed(p, isObject);
    assert PrintValue(v) + rest == [open] + (ws + ([close] + rest));
    OpenContainer(p, isObject, ws + ([close] + rest));
    RunWs(q, ws, [close] + rest);
    CloseContainer(q, isObject, rest);
  }

  lemma {:induction false} RunMembers(p: Parser, ms: Members, rest: Bytes)
    requires KeyReady(p) && ValidMembers(ms) && |p.stack| + DepthMembers(ms) <= DEPTH_LIMIT
    requires Fits(MemberOccurrences(ms, LocOf(Below(p.stack))))
    requires EndsWith(rest, '}')
    ensures Run(p, PrintMembers(ms) + rest) == Run(AfterMembers(p, ms), rest)
    decreases ms, 0
  {
    hide Run, Selected, Depth, Occurrences, Record, PrintMember, LongKey, KeyName, LocOf;
    match ms {
      case LastMember(m) =>
        RunMember(p, m, rest);
      case MoreMembers(m, more) =>
        var loc := LocOf(Below(p.stack));
        var first := Occurrences(m.value, loc + [Key(KeyName(m.key))]);
        var tail := PrintMembers(more) + rest;
        FitsSplit(first, MemberOccurrences(more, loc));
        assert PrintMembers(ms) + rest == PrintMember(m) + ([','] + tail);
        RunMember(p, m, [','] + tail);
        var q := AfterMembers(p, LastMember(m));
        var n := AfterComma(q);
        RunComma(q, tail);
        RunMembers(n, more, rest);
        RecordAppend(p.fields, first, MemberOccurrences(more, loc));
    }
  }

  lemma MemberText(m: Member, rest: Bytes)
    ensures PrintMember(m) + rest
         == m.w0 + (PrintString(m.key) + (m.w1 + ([':'] + (m.w2 + (PrintValue(m.value) + (m.w3 + rest))))))
  {
    hide PrintString, PrintValue;
    var k, v := PrintString(m.key), PrintValue(m.value);
    assert (v + m.w3) + rest == v + (m.w3 + rest);
    assert (m.w2 + (v + m.w3)) + rest == m.w2 + ((v + m.w3) + rest);
    assert ([':'] + (m.w2 + (v + m.w3))) + rest == [':'] + ((m.w2 + (v + m.w3)) + rest);
    var t := [':'] + (m.w2 + (v + m.w3));
    assert (m.w1 + t) + rest == m.w1 + (t + rest);
    assert (k + (m.w1 + t)) + rest == k + ((m.w1 + t) + rest);
    assert (m.w0 + (k + (m.w1 + t))) + rest == m.w0 + ((k + (m.w1 + t)) + rest);
  }

  lemma WsThenDelim(ws: Bytes, rest: Bytes)
    requires AllWs(ws) && rest != [] && IsDelim(rest[0])
    ensures ws + rest != [] && IsDelim((ws + rest)[0])
  {
  }

  lemma {:induction false} RunMember(p: Parser, m: Member, rest: Bytes)
    requires KeyReady(p) && ValidMember(m) && |p.stack| + Depth(m.value) <= DEPTH_LIMIT
    requires Fits(Occurrences(m.value, LocOf(Below(p.stack)) + [Key(KeyName(m.key))]))
    requires rest != [] && IsDelim(rest[0])
    ensures Run(p, PrintMember(m) + rest) == Run(AfterMembers(p, LastMember(m)), rest)
    decreases m
  {
    hide Run, Selected, Depth, Occurrences, Record, PrintValue, PrintMember, PrintString, LongKey, KeyName, AllWs;
    var s := PrintValue(m.value) + (m.w3 + rest);
    MemberText(m, rest);
    WsThenDelim(m.w3, rest);
    RunKey(p, m.w0, m.key, m.w1, m.w2, s);
    var q := AtMemberValue(p, m.key);
    LocOfPush(Below(p.stack), Top(q.stack));
    RunValue(q, m.value, m.w3 + rest);
    RunWs(After(q, m.value), m.w3, rest);
  }

  lemma {:induction false} RunElems(p: Parser, es: Elems, rest: Bytes)
    requires ElemReady(p) && ValidElems(es) && |p.stack| + DepthElems(es) <= DEPTH_LIMIT
    requires Fits(ElemOccurrences(es, LocOf(Below(p.stack))))
    requires EndsWith(rest, ']')
    ensures Run(p, PrintElems(es) + rest) == Run(AfterElems(p, es), rest)
    decreases es, 0
  {
    hide Run, Selected, Depth, Occurrences, Record, PrintElem, LongKey, LocOf;
    match es {
      case LastElem(e) =>
        RunElem(p, e, rest);
      case MoreElems(e, more) =>
        var loc := LocOf(Below(p.stack));
        var first := Occurrences(e.value, loc + [Index]);
        var tail := PrintElems(more) + rest;
        FitsSplit(first, ElemOccurrences(more, loc));
        assert PrintElems(es) + rest == PrintElem(e) + ([','] + tail);
        RunElem(p, e, [','] + tail);
        var q := AfterElems(p, LastElem(e));
        var n := AfterComma(q);
        RunComma(q, tail);
        RunElems(n, more, rest);
        RecordAppend(p.fields, first, ElemOccurrences(more, loc));
    }
  }

  lemma {:induction false} RunElem(p: Parser, e: Elem, rest: Bytes)
    requires ElemReady(p) && ValidElem(e) && |p.stack| + Depth(e.value) <= DEPTH_LIMIT
    requires Fits(Occurrences(e.value, LocOf(Below(p.stack)) + [Index]))
    requires rest != [] && IsDelim(rest[0])
    ensures Run(p, PrintElem(e) + rest) == Run(AfterElems(p, LastElem(e)), rest)
    decreases e
  {
    hide Run, Selected, Depth, Occurrences, Record, PrintValue, LongKey;
    assert PrintElem(e) + rest == e.w0 + (PrintValue(e.value) + (e.w1 + rest));
    RunWs(p, e.w0, PrintValue(e.value) + (e.w1 + rest));
    assert p.stack == Below(p.stack) + [Top(p.stack)];
    LocOfPush(Below(p.stack), Top(p.stack));
    RunValue(p, e.value, e.w1 + rest);
    RunWs(After(p, e.value), e.w1, rest);
  }

  // ---- Documents ----------------------------------------------------------------------------

  ghost predicate RootFits(v: Value) {
    Depth(v) <= 64 && Fits(RootOccurrences(v))
  }

  ghost predicate DocumentFits(d: Document) {
    d.Root? ==> RootFits(d.root) && DocumentFits(d.rest)
  }

  ghost function Extracts(d: Document): seq<Fields> {
    match d
    case End(_) => []
    case Root(_, v, rest) => [Extract(v)] + Extracts(rest)
  }

  ghost predicate LongKeyDocument(d: Document) {
    d.Root? && (LongKey(d.root) || LongKeyDocument(d.rest))
  }

  // Between root objects.
  ghost predicate RootReady(p: Parser) {
    p.Live? && p.lex.Idle? && p.stack == [] && p.fields == map[]
  }

  ghost function AfterRoot(p: Parser, v: Value): Parser
    requires p.Live?
  {
    p.(out := p.out + [Extract(v)], keySkipped := p.keySkipped || LongKey(v))
  }

  ghost function AfterDocument(p: Parser, d: Document): Parser
    requires p.Live?
  {
    p.(out := p.out + Extracts(d), keySkipped := p.keySkipped || LongKeyDocument(d))
  }

  ghost function Opened(p: Parser): Parser
    requires p.Live?
  {
    p.(stack := [Frame(true, AtFirstKey, "")])
  }

  lemma OpenRoot(p: Parser, s: Bytes)
    requires RootReady(p)
    ensures Run(p, ['{'] + s) == Run(Opened(p), s)
  {
    RunCons(p, '{', s);
  }

  lemma CloseRoot(p: Parser, rest: Bytes)
    requires p.Live? && p.lex.Idle? && |p.stack| == 1 && p.stack[0].isObject
    requires p.stack[0].pos.AtSeparator? || p.stack[0].pos.AtFirstKey?
    ensures Run(p, ['}'] + rest) == Run(p.(stack := [], fields := map[], out := p.out + [p.fields]), rest)
  {
    RunCons(p, '}', rest);
  }

  lemma RunRoot(p: Parser, v: Value, rest: Bytes)
    requires RootReady(p) && ValidValue(v) && (v.EmptyObject? || v.Object?) && RootFits(v)
    ensures Run(p, PrintValue(v) + rest) == Run(AfterRoot(p, v), rest)
  {
    hide Run, Selected;
    var q := Opened(p);
    if v.EmptyObject? {
      assert PrintValue(v) + rest == ['{'] + (v.ws + (['}'] + rest));
      OpenRoot(p, v.ws + (['}'] + rest));
      RunWs(q, v.ws, ['}'] + rest);
      CloseRoot(q, rest);
    } else {
      var body := PrintMembers(v.members);
      assert PrintValue(v) + rest == ['{'] + (body + (['}'] + rest));
      OpenRoot(p, body + (['}'] + rest));
      RunMembers(q, v.members, ['}'] + rest);
      CloseRoot(AfterMembers(q, v.members), rest);
    }
  }

  lemma {:induction false} RunDocument(p: Parser, d: Document)
    requires RootReady(p) && ValidDocument(d) && DocumentFits(d)
    ensures Run(p, PrintDocument(d)) == AfterDocument(p, d)
    decreases d
  {
    match d {
      case End(ws) =>
        assert ws + [] == ws;
        RunWs(p, ws, []);
      case Root(ws, v, rest) =>
        var tail := PrintDocument(rest);
        RunWs(p, ws, PrintValue(v) + tail);
        RunRoot(p, v, tail);
        RunDocument(AfterRoot(p, v), rest);
    }
  }
}
