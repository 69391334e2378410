/**
 Soundness of the recognizer: whatever it accepts was printed by a well-formed
 tree within the limits. Each lemma reads one construct off the front of an
 accepted input.
 */
module JsonBackward {
  import opened Bytes
  import opened Rfc8259
  import opened Selection
  import opened ScalarAutomaton
  import opened JsonMachine
  import opened JsonForward
  import opened JsonContainers

  ghost predicate Accepted(p: Parser, s: Bytes) {
    Complete(Run(p, s))
  }

  lemma AcceptedStep(p: Parser, s: Bytes)
    requires Accepted(p, s) && !Complete(p)
    ensures s != [] && s == [s[0]] + s[1..] && Step(p, s[0]).Live? && Accepted(Step(p, s[0]), s[1..])
  {
    if Step(p, s[0]).Dead? {
      DeadSticks(Step(p, s[0]), s[1..]);
    }
  }

  lemma {:induction false} SplitWs(s: Bytes) returns (ws: Bytes, r: Bytes)
    ensures s == ws + r && AllWs(ws) && (r != [] ==> !IsWs(r[0]))
  {
    if s == [] || !IsWs(s[0]) {
      ws, r := [], s;
    } else {
      ws, r := SplitWs(s[1..]);
      ws := [s[0]] + ws;
    }
  }

  // White space is skipped, and something must follow inside a container.
  lemma AcceptedWs(p: Parser, s: Bytes) returns (ws: Bytes, r: Bytes)
    requires p.Live? && p.lex.Idle? && p.stack != [] && Accepted(p, s)
    ensures s == ws + r && AllWs(ws) && r != [] && !IsWs(r[0]) && Accepted(p, r)
    ensures Step(p, r[0]).Live?
  {
    ws, r := SplitWs(s);
    RunWs(p, ws, r);
    AcceptedStep(p, r);
  }

  // ---- Strings ---------------------------------------------------------------------

  lemma AcceptedChar(p: Parser, isKey: bool, tok: Token, s: Bytes) returns (x: StrChar)
    requires p.Live? && Accepted(p.(lex := Str(isKey, tok, Plain)), s)
    requires s != [] && s[0] != '"'
    ensures ValidChar(x) && |PrintChar(x)| <= |s| && s == PrintChar(x) + s[|PrintChar(x)|..]
  {
    hide Run;
    var q := p.(lex := Str(isKey, tok, Plain));
    AcceptedStep(q, s);
    if s[0] == '\\' {
      var q1 := Step(q, '\\');
      AcceptedStep(q1, s[1..]);
      if s[1] == 'u' {
        AcceptedHex(Step(q1, 'u'), s[2..]);
        x := Unicode(s[2], s[3], s[4], s[5]);
      } else {
        x := Escaped(s[1]);
      }
    } else {
      x := Raw(s[0]);
    }
  }

  lemma AcceptedHex(q: Parser, s: Bytes)
    requires q.Live? && q.lex.Str? && q.lex.sub == Hex(4) && Accepted(q, s)
    ensures |s| >= 4 && IsHex(s[0]) && IsHex(s[1]) && IsHex(s[2]) && IsHex(s[3])
  {
    hide Run;
    AcceptedStep(q, s);
    var q1 := Step(q, s[0]);
    AcceptedStep(q1, s[1..]);
    var q2 := Step(q1, s[1]);
    AcceptedStep(q2, s[2..]);
    var q3 := Step(q2, s[2]);
    AcceptedStep(q3, s[3..]);
  }

  lemma {:induction false} AcceptedChars(p: Parser, isKey: bool, a: Bytes, s: Bytes)
    returns (xs: seq<StrChar>, rest: Bytes)
    requires p.Live? && Accepted(p.(lex := Str(isKey, Clip(a, Limit(isKey)), Plain)), s)
    ensures ValidChars(xs) && s == PrintChars(xs) + (['"'] + rest)
    decreases |s|
  {
    hide Run;
    var q := p.(lex := Str(isKey, Clip(a, Limit(isKey)), Plain));
    AcceptedStep(q, s);
    if s[0] == '"' {
      xs, rest := [], s[1..];
    } else {
      var x := AcceptedChar(p, isKey, Clip(a, Limit(isKey)), s);
      var n := |PrintChar(x)|;
      RunChar(p, isKey, a, x, s[n..]);
      xs, rest := AcceptedChars(p, isKey, a + PrintChar(x), s[n..]);
      assert ([x] + xs)[1..] == xs;
      xs := [x] + xs;
    }
  }

  lemma AcceptedString(p: Parser, isKey: bool, s: Bytes) returns (xs: seq<StrChar>, rest: Bytes)
    requires p.Live? && p.lex.Idle?
    requires Accepted(p.(lex := Str(isKey, Token(['"'], false), Plain)), s)
    ensures ValidChars(xs) && ['"'] + s == PrintString(xs) + rest && |rest| < |s|
    ensures isKey ==> Accepted(EndKey(p, Clip(PrintString(xs), KEY_LIMIT)), rest)
    ensures !isKey ==> Accepted(EndValue(p, Clip(PrintString(xs), VALUE_LIMIT), true), rest)
  {
    hide Run;
    assert Clip(['"'], Limit(isKey)) == Token(['"'], false);
    xs, rest := AcceptedChars(p, isKey, ['"'], s);
    RunString(p, isKey, xs, rest);
    assert ['"'] + s == PrintString(xs) + rest;
  }

  // ---- Scalars -------------------------------------------------------------------------

  lemma {:induction false} AcceptedScalarBytes(p: Parser, a: Bytes, num: Num, s: Bytes)
    returns (t: Bytes, rest: Bytes)
    requires p.Live? && Reachable(num) && !num.Fail?
    requires Accepted(p.(lex := Scalar(Clip(a, VALUE_LIMIT), num)), s)
    ensures s == t + rest && rest != [] && IsDelim(rest[0]) && !NumRun(num, t).Fail?
    ensures Accepted(p.(lex := Scalar(Clip(a + t, VALUE_LIMIT), NumRun(num, t))), rest)
    decreases |s|
  {
    hide Run;
    var q := p.(lex := Scalar(Clip(a, VALUE_LIMIT), num));
    AcceptedStep(q, s);
    if IsDelim(s[0]) {
      t, rest := [], s;
      assert a + t == a;
    } else {
      KeepClip(a, s[0], VALUE_LIMIT);
      t, rest := AcceptedScalarBytes(p, a + [s[0]], NumStep(num, s[0]), s[1..]);
      assert a + [s[0]] + t == a + ([s[0]] + t);
      assert ([s[0]] + t)[1..] == t;
      t := [s[0]] + t;
    }
  }

  // The end of an accepted scalar: it was complete, and stored whole if selected.
  lemma AcceptedEnd(p: Parser, t: Bytes, num: Num, rest: Bytes)
    requires ValueReady(p) && t != [] && t[0] != '"' && num == NumRun(Start, t)
    requires rest != [] && IsDelim(rest[0])
    requires Accepted(p.(lex := Scalar(Clip(t, VALUE_LIMIT), num)), rest)
    ensures Accepts(Start, t)
    ensures Selected(LocOf(p.stack)) ==> |t| <= VALUE_LIMIT
  {
    hide Run, LocOf, NumberToken, IsLiteralName, UnquoteBody, NumRun, StructureStep, Selected;
    var tok := Clip(t, VALUE_LIMIT);
    AcceptedStep(p.(lex := Scalar(tok, num)), rest);
    EndIgnoresLex(p.(lex := Scalar(tok, num)), p, tok);
    assert EndValue(p, tok, NumComplete(num)).Live?;
    TokenAgrees(t);
  }

  // ---- Values ---------------------------------------------------------------------------

  // After a value inside a container, only white space, a comma or a closing bracket may follow.
  lemma AcceptedDelim(p: Parser, rest: Bytes)
    requires p.Live? && p.lex.Idle? && p.stack != [] && Top(p.stack).pos.AtSeparator? && Accepted(p, rest)
    ensures rest != [] && IsDelim(rest[0])
  {
    hide Run;
    AcceptedStep(p, rest);
  }

  // v is read off the front of s, leaving rest.
  ghost predicate ReadsValue(p: Parser, s: Bytes, v: Value, rest: Bytes)
    requires p.Live? && p.stack != []
  {
    && ValidValue(v) && |p.stack| + Depth(v) <= DEPTH_LIMIT && Fits(Occurrences(v, LocOf(p.stack)))
    && s == PrintValue(v) + rest && |rest| < |s|
    && rest != [] && IsDelim(rest[0])
  }

  lemma AcceptedText(p: Parser, s: Bytes) returns (v: Value, rest: Bytes)
    requires ValueReady(p) && |p.stack| <= DEPTH_LIMIT && Accepted(p, s) && s != [] && s[0] == '"'
    ensures ReadsValue(p, s, v, rest)
  {
    hide Run, Selected, LocOf, Unquote;
    AcceptedStep(p, s);
    var xs;
    xs, rest := AcceptedString(p, false, s[1..]);
    v := Text(xs);
    var q := EndValue(p, Clip(PrintString(xs), VALUE_LIMIT), true);
    if q.Dead? {
      DeadSticks(q, rest);
    }
    AcceptedDelim(q, rest);
    assert Occurrences(v, LocOf(p.stack)) == [Occurrence(LocOf(p.stack), PrintString(xs))];
  }

  lemma AcceptedBare(p: Parser, s: Bytes) returns (v: Value, rest: Bytes)
    requires ValueReady(p) && |p.stack| <= DEPTH_LIMIT && Accepted(p, s) && s != [] && StartsScalar(s[0])
    ensures ReadsValue(p, s, v, rest)
  {
    hide Run, Selected, LocOf;
    AcceptedStep(p, s);
    StartBare(p, s[0]);
    var t;
    t, rest := AcceptedScalarBytes(p, [s[0]], NumStep(Start, s[0]), s[1..]);
    var token := [s[0]] + t;
    assert token[1..] == t;
    AcceptedEnd(p, token, NumRun(Start, token), rest);
    AcceptsScalars(token);
    v := Bare(token);
    assert s == token + rest;
    assert Occurrences(v, LocOf(p.stack)) == [Occurrence(LocOf(p.stack), token)];
  }

  // ---- Containers ------------------------------------------------------------------------

  ghost predicate ReadsMembers(p: Parser, s: Bytes, ms: Members, rest: Bytes)
    requires p.Live? && p.stack != []
  {
    && ValidMembers(ms) && |p.stack| + DepthMembers(ms) <= DEPTH_LIMIT
    && Fits(MemberOccurrences(ms, LocOf(Below(p.stack))))
    && s == PrintMembers(ms) + rest && EndsWith(rest, '}')
  }

  ghost predicate ReadsElems(p: Parser, s: Bytes, es: Elems, rest: Bytes)
    requires p.Live? && p.stack != []
  {
    && ValidElems(es) && |p.stack| + DepthElems(es) <= DEPTH_LIMIT
    && Fits(ElemOccurrences(es, LocOf(Below(p.stack))))
    && s == PrintElems(es) + rest && EndsWith(rest, ']')
  }

  lemma FitsJoin(a: seq<Occurrence>, b: seq<Occurrence>)
    requires Fits(a) && Fits(b)
    ensures Fits(a + b)
  {
  }

  lemma FitsBrackets(loc: Loc, raw: Bytes)
    requires |raw| == 2
    ensures Fits([Occurrence(loc, raw)])
  {
  }

  // The closing bracket is the next byte; what follows it may follow a value.
  lemma AcceptedClose(p: Parser, isObject: bool, s: Bytes)
    requires p.Live? && p.lex.Idle? && |p.stack| >= 2 && Top(p.stack).isObject == isObject
    requires var pos := Top(p.stack).pos;
             pos.AtSeparator? || (if isObject then pos.AtFirstKey? else pos.AtFirstElem?)
    requires EndsWith(s, if isObject then '}' else ']') && Accepted(p, s)
    ensures s[1..] != [] && IsDelim(s[1..][0])
  {
    hide Run;
    assert s == [if isObject then '}' else ']'] + s[1..];
    CloseContainer(p, isObject, s[1..]);
    AcceptedDelim(p.(stack := MoveTop(Below(p.stack), AtSeparator)), s[1..]);
  }

  lemma AcceptedOpen(p: Parser, isObject: bool, s: Bytes)
    requires ValueReady(p) && |p.stack| <= DEPTH_LIMIT && Accepted(p, s)
    requires EndsWith(s, if isObject then '{' else '[')
    ensures |p.stack| < DEPTH_LIMIT && Accepted(Pushed(p, isObject), s[1..])
    ensures Below(Pushed(p, isObject).stack) == p.stack
  {
    hide Run;
    AcceptedStep(p, s);
    OpenContainer(p, isObject, s[1..]);
  }

  lemma {:induction false} AcceptedValue(p: Parser, s: Bytes) returns (v: Value, rest: Bytes)
    requires ValueReady(p) && |p.stack| <= DEPTH_LIMIT && Accepted(p, s)
    requires s != [] && !IsWs(s[0]) && (Top(p.stack).pos.AtFirstElem? ==> s[0] != ']')
    ensures ReadsValue(p, s, v, rest)
    decreases |s|, 2
  {
    hide Run, Selected, LocOf;
    AcceptedStep(p, s);
    if s[0] == '"' {
      v, rest := AcceptedText(p, s);
    } else if StartsScalar(s[0]) {
      v, rest := AcceptedBare(p, s);
    } else if s[0] == '{' {
      v, rest := AcceptedObject(p, s);
    } else {
      v, rest := AcceptedArray(p, s);
    }
  }

  lemma {:induction false} AcceptedObject(p: Parser, s: Bytes) returns (v: Value, rest: Bytes)
    requires ValueReady(p) && |p.stack| <= DEPTH_LIMIT && Accepted(p, s) && EndsWith(s, '{')
    ensures ReadsValue(p, s, v, rest)
    decreases |s|, 1
  {
    hide Run, Selected, LocOf, Step;
    AcceptedOpen(p, true, s);
    var q := Pushed(p, true);
    var loc := LocOf(p.stack);
    var ws, r := AcceptedWs(q, s[1..]);
    FitsBrackets(loc, "{}");
    if r[0] == '}' {
      AcceptedClose(q, true, r);
      v, rest := EmptyObject(ws), r[1..];
      assert s == ['{'] + (ws + ['}']) + rest;
    } else {
      AcceptedKeyQuote(q, r);
      var ms, r' := AcceptedMembers(q, ws, r);
      RunMembers(q, ms, r');
      AcceptedClose(AfterMembers(q, ms), true, r');
      FitsJoin([Occurrence(loc, "{}")], MemberOccurrences(ms, loc));
      v, rest := Object(ms), r'[1..];
      assert s == ['{'] + (PrintMembers(ms) + ['}']) + rest;
    }
  }

  lemma AcceptedKeyQuote(p: Parser, r: Bytes)
    requires KeyReady(p) && Accepted(p, r) && r != [] && !IsWs(r[0])
    requires r[0] != '}' || Top(p.stack).pos.AtNextKey?
    ensures r[0] == '"'
  {
    hide Run;
    AcceptedStep(p, r);
  }

  lemma {:induction false} AcceptedArray(p: Parser, s: Bytes) returns (v: Value, rest: Bytes)
    requires ValueReady(p) && |p.stack| <= DEPTH_LIMIT && Accepted(p, s) && EndsWith(s, '[')
    ensures ReadsValue(p, s, v, rest)
    decreases |s|, 1
  {
    hide Run, Selected, LocOf, Step;
    AcceptedOpen(p, false, s);
    var q := Pushed(p, false);
    var loc := LocOf(p.stack);
    var ws, r := AcceptedWs(q, s[1..]);
    FitsBrackets(loc, "[]");
    if r[0] == ']' {
      AcceptedClose(q, false, r);
      v, rest := EmptyArray(ws), r[1..];
      assert s == ['['] + (ws + [']']) + rest;
    } else {
      var es, r' := AcceptedElems(q, ws, r);
      RunElems(q, es, r');
      AcceptedClose(AfterElems(q, es), false, r');
      FitsJoin([Occurrence(loc, "[]")], ElemOccurrences(es, loc));
      v, rest := Array(es), r'[1..];
      assert s == ['['] + (PrintElems(es) + [']']) + rest;
    }
  }

  // A key and a colon, up to the first byte of the value.
  lemma AcceptedKey(p: Parser, r: Bytes)
    returns (key: seq<StrChar>, w1: Bytes, w2: Bytes, s: Bytes)
    requires KeyReady(p) && Accepted(p, r) && EndsWith(r, '"')
    ensures ValidChars(key) && AllWs(w1) && AllWs(w2)
    ensures r == PrintString(key) + (w1 + ([':'] + (w2 + s))) && |s| < |r|
    ensures s != [] && !IsWs(s[0]) && Accepted(AtMemberValue(p, key), s)
  {
    hide Run, LocOf;
    AcceptedStep(p, r);
    var r1;
    key, r1 := AcceptedString(p, true, r[1..]);
    var q := AtMemberColon(p, key);
    assert r == PrintString(key) + r1;
    RunKeyToken(p, key, r1);
    var r2;
    w1, r2 := AcceptedWs(q, r1);
    AcceptedStep(q, r2);
    assert Step(q, ':') == AtMemberValue(p, key);
    w2, s := AcceptedWs(AtMemberValue(p, key), r2[1..]);
  }

  lemma {:induction false} AcceptedMember(p: Parser, w0: Bytes, r: Bytes) returns (m: Member, rest: Bytes)
    requires KeyReady(p) && |p.stack| <= DEPTH_LIMIT && AllWs(w0) && Accepted(p, r) && EndsWith(r, '"')
    ensures ReadsMember(p, w0 + r, m, rest) && |rest| < |r|
    ensures !IsWs(rest[0]) && Accepted(AfterMembers(p, LastMember(m)), rest)
    decreases |r|, 0
  {
    hide Run, Selected, Step;
    var key, w1, w2, s := AcceptedKey(p, r);
    var q := AtMemberValue(p, key);
    LocOfPush(Below(p.stack), Top(q.stack));
    var v, t := AcceptedValue(q, s);
    RunValue(q, v, t);
    var w3;
    w3, rest := AcceptedWs(After(q, v), t);
    AcceptedDelim(After(q, v), rest);
    m := Member(w0, key, w1, w2, v, w3);
    assert w0 + r == PrintMember(m) + rest;
  }

  ghost predicate ReadsMember(p: Parser, s: Bytes, m: Member, rest: Bytes)
    requires p.Live? && p.stack != []
  {
    && ValidMember(m) && |p.stack| + Depth(m.value) <= DEPTH_LIMIT
    && Fits(Occurrences(m.value, LocOf(Below(p.stack)) + [Key(KeyName(m.key))]))
    && s == PrintMember(m) + rest && rest != [] && IsDelim(rest[0])
  }

  // After a member or an element: a comma with more to come, or the closing bracket.
  lemma AcceptedSeparator(p: Parser, s: Bytes)
    requires p.Live? && p.lex.Idle? && p.stack != [] && Top(p.stack).pos.AtSeparator?
    requires Accepted(p, s) && s != [] && !IsWs(s[0])
    ensures s[0] == ',' || s[0] == if Top(p.stack).isObject then '}' else ']'
    ensures s[0] == ',' ==> Accepted(AfterComma(p), s[1..])
  {
    hide Run, LocOf;
    AcceptedStep(p, s);
  }

  lemma {:induction false} AcceptedMembers(p: Parser, w0: Bytes, r: Bytes) returns (ms: Members, rest: Bytes)
    requires KeyReady(p) && |p.stack| <= DEPTH_LIMIT && AllWs(w0) && Accepted(p, r) && EndsWith(r, '"')
    ensures ReadsMembers(p, w0 + r, ms, rest) && |rest| < |r|
    decreases |r|, 1
  {
    hide Run, Selected, Step, LocOf;
    var m, s := AcceptedMember(p, w0, r);
    var q := AfterMembers(p, LastMember(m));
    AcceptedSeparator(q, s);
    if s[0] == ',' {
      var n := AfterComma(q);
      var ws, r' := AcceptedWs(n, s[1..]);
      AcceptedKeyQuote(n, r');
      var more;
      more, rest := AcceptedMembers(n, ws, r');
      RunComma(q, []);
      FitsJoin(Occurrences(m.value, LocOf(Below(p.stack)) + [Key(KeyName(m.key))]),
               MemberOccurrences(more, LocOf(Below(p.stack))));
      ms := MoreMembers(m, more);
      assert w0 + r == PrintMembers(ms) + rest;
    } else {
      ms, rest := LastMember(m), s;
    }
  }

  ghost predicate ReadsElem(p: Parser, s: Bytes, e: Elem, rest: Bytes)
    requires p.Live? && p.stack != []
  {
    && ValidElem(e) && |p.stack| + Depth(e.value) <= DEPTH_LIMIT
    && Fits(Occurrences(e.value, LocOf(Below(p.stack)) + [Index]))
    && s == PrintElem(e) + rest && rest != [] && IsDelim(rest[0])
  }

  lemma {:induction false} AcceptedElem(p: Parser, w0: Bytes, r: Bytes) returns (e: Elem, rest: Bytes)
    requires ElemReady(p) && |p.stack| <= DEPTH_LIMIT && AllWs(w0) && Accepted(p, r)
    requires r != [] && !IsWs(r[0]) && (Top(p.stack).pos.AtFirstElem? ==> r[0] != ']')
    ensures ReadsElem(p, w0 + r, e, rest) && |rest| < |r|
    ensures !IsWs(rest[0]) && Accepted(AfterElems(p, LastElem(e)), rest)
    decreases |r|, 3
  {
    hide Run, Selected, Step;
    LocOfPush(Below(p.stack), Top(p.stack));
    assert p.stack == Below(p.stack) + [Top(p.stack)];
    var v, t := AcceptedValue(p, r);
    RunValue(p, v, t);
    var w1;
    w1, rest := AcceptedWs(After(p, v), t);
    AcceptedDelim(After(p, v), rest);
    e := Elem(w0, v, w1);
    assert w0 + r == PrintElem(e) + rest;
  }

  lemma {:induction false} AcceptedElems(p: Parser, w0: Bytes, r: Bytes) returns (es: Elems, rest: Bytes)
    requires ElemReady(p) && |p.stack| <= DEPTH_LIMIT && AllWs(w0) && Accepted(p, r)
    requires r != [] && !IsWs(r[0]) && (Top(p.stack).pos.AtFirstElem? ==> r[0] != ']')
    ensures ReadsElems(p, w0 + r, es, rest) && |rest| < |r|
    decreases |r|, 4
  {
    hide Run, Selected, Step, LocOf;
    var e, s := AcceptedElem(p, w0, r);
    var q := AfterElems(p, LastElem(e));
    AcceptedSeparator(q, s);
    if s[0] == ',' {
      var n := AfterComma(q);
      var ws, r' := AcceptedWs(n, s[1..]);
      var more;
      more, rest := AcceptedElems(n, ws, r');
      RunComma(q, []);
      FitsJoin(Occurrences(e.value, LocOf(Below(p.stack)) + [Index]),
               ElemOccurrences(more, LocOf(Below(p.stack))));
      es := MoreElems(e, more);
      assert w0 + r == PrintElems(es) + rest;
    } else {
      es, rest := LastElem(e), s;
    }
  }

  // ---- Documents -----------------------------------------------------------------------------

  lemma AcceptedRoot(p: Parser, s: Bytes) returns (v: Value, rest: Bytes)
    requires RootReady(p) && Accepted(p, s) && s != [] && !IsWs(s[0])
    ensures ValidValue(v) && (v.EmptyObject? || v.Object?) && RootFits(v)
    ensures s == PrintValue(v) + rest && |rest| < |s| && Accepted(AfterRoot(p, v), rest)
  {
    hide Run, Selected, LocOf;
    assert s == [s[0]] + s[1..];
    RootBrace(p, s);
    OpenRoot(p, s[1..]);
    var q := Opened(p);
    var ws, r := AcceptedWs(q, s[1..]);
    if r[0] == '}' {
      v, rest := EmptyObject(ws), r[1..];
      assert s == ['{'] + (ws + ['}']) + rest;
    } else {
      AcceptedKeyQuote(q, r);
      var ms, r' := AcceptedMembers(q, ws, r);
      v, rest := Object(ms), r'[1..];
      NoFrames();
      assert s == ['{'] + (PrintMembers(ms) + ['}']) + rest;
    }
    RunRoot(p, v, rest);
  }

  lemma NoFrames()
    ensures LocOf([]) == []
  {
  }

  lemma RootBrace(p: Parser, s: Bytes)
    requires RootReady(p) && Accepted(p, s) && s != [] && !IsWs(s[0])
    ensures s[0] == '{'
  {
    var q := Step(p, s[0]);
    if q.Dead? {
      DeadSticks(q, s[1..]);
    }
  }

  lemma {:induction false} AcceptedDocument(p: Parser, s: Bytes) returns (d: Document)
    requires RootReady(p) && Accepted(p, s)
    ensures ValidDocument(d) && DocumentFits(d) && PrintDocument(d) == s
    decreases |s|
  {
    hide Run;
    var ws, r := SplitWs(s);
    RunWs(p, ws, r);
    if r == [] {
      d := End(ws);
    } else {
      var v, rest := AcceptedRoot(p, r);
      var more := AcceptedDocument(AfterRoot(p, v), rest);
      d := Root(ws, v, more);
    }
  }
}
