/**
 Completeness of the recognizer: running it over what a well-formed tree prints,
 from the position where that tree may stand, leaves it just after the tree with
 the tree's selected values recorded.
 */
module JsonForward {
  import opened Bytes
  import opened Options
  import opened Rfc8259
  import opened Selection
  import opened ScalarAutomaton
  import opened JsonMachine

  lemma RunCons(p: Parser, c: Byte, s: Bytes)
    ensures Run(p, [c] + s) == Run(Step(p, c), s)
  {
    assert ([c] + s)[1..] == s;
  }

  lemma {:induction false} RunWs(p: Parser, ws: Bytes, s: Bytes)
    requires p.Live? && p.lex.Idle? && AllWs(ws)
    ensures Run(p, ws + s) == Run(p, s)
    decreases |ws|
  {
    if ws == [] {
      assert ws + s == s;
    } else {
      RunCons(p, ws[0], ws[1..] + s);
      assert ws + s == [ws[0]] + (ws[1..] + s);
      RunWs(p, ws[1..], s);
    }
  }

  // ---- Tokens --------------------------------------------------------------------

  ghost function KeepAll(t: Token, s: Bytes, limit: nat): Token
    decreases |s|
  {
    if s == [] then t else KeepAll(Keep(t, s[0], limit), s[1..], limit)
  }

  // What is stored of a token: all of it, or its beginning and a mark.
  ghost function Clip(s: Bytes, limit: nat): Token {
    if |s| <= limit then Token(s, false) else Token(s[..limit], true)
  }

  lemma KeepClip(s: Bytes, c: Byte, limit: nat)
    ensures Keep(Clip(s, limit), c, limit) == Clip(s + [c], limit)
  {
    if |s| >= limit {
      assert (s + [c])[..limit] == s[..limit];
    }
  }

  lemma {:induction false} KeepAllClip(a: Bytes, s: Bytes, limit: nat)
    ensures KeepAll(Clip(a, limit), s, limit) == Clip(a + s, limit)
    decreases |s|
  {
    if s == [] {
      assert a + s == a;
    } else {
      KeepClip(a, s[0], limit);
      KeepAllClip(a + [s[0]], s[1..], limit);
      assert a + s == a + [s[0]] + s[1..];
    }
  }

  // ---- Strings -----------------------------------------------------------------------

  lemma RunChar(p: Parser, isKey: bool, a: Bytes, x: StrChar, s: Bytes)
    requires p.Live? && ValidChar(x)
    ensures Run(p.(lex := Str(isKey, Clip(a, Limit(isKey)), Plain)), PrintChar(x) + s)
         == Run(p.(lex := Str(isKey, Clip(a + PrintChar(x), Limit(isKey)), Plain)), s)
  {
    var n := Limit(isKey);
    var q := p.(lex := Str(isKey, Clip(a, n), Plain));
    match x {
      case Raw(c) =>
        RunCons(q, c, s);
        KeepClip(a, c, n);
      case Escaped(c) =>
        RunEscaped(p, isKey, a, c, s);
      case Unicode(h1, h2, h3, h4) =>
        RunUnicode(p, isKey, a, x, h1, h2, h3, h4, s);
    }
  }

  lemma RunEscaped(p: Parser, isKey: bool, a: Bytes, c: Byte, s: Bytes)
    requires p.Live? && ValidChar(Escaped(c))
    ensures Run(p.(lex := Str(isKey, Clip(a, Limit(isKey)), Plain)), PrintChar(Escaped(c)) + s)
         == Run(p.(lex := Str(isKey, Clip(a + PrintChar(Escaped(c)), Limit(isKey)), Plain)), s)
  {
    hide Run, Clip;
    var n := Limit(isKey);
    var q := p.(lex := Str(isKey, Clip(a, n), Plain));
    assert PrintChar(Escaped(c)) + s == ['\\'] + ([c] + s);
    RunCons(q, '\\', [c] + s);
    KeepClip(a, '\\', n);
    RunCons(Step(q, '\\'), c, s);
    KeepClip(a + ['\\'], c, n);
    assert a + PrintChar(Escaped(c)) == a + ['\\'] + [c];
  }

  lemma RunUnicode(p: Parser, isKey: bool, a: Bytes, x: StrChar, h1: Byte, h2: Byte, h3: Byte, h4: Byte, s: Bytes)
    requires p.Live? && x == Unicode(h1, h2, h3, h4) && ValidChar(x)
    ensures Run(p.(lex := Str(isKey, Clip(a, Limit(isKey)), Plain)), PrintChar(x) + s)
         == Run(p.(lex := Str(isKey, Clip(a + PrintChar(x), Limit(isKey)), Plain)), s)
  {
    hide Run, Clip;
    var n := Limit(isKey);
    var q := p.(lex := Str(isKey, Clip(a, n), Plain));
    var b := a + ['\\', 'u'];
    var hex := [h1] + ([h2] + ([h3] + ([h4] + s)));
    assert PrintChar(x) + s == ['\\'] + (['u'] + hex);
    RunCons(q, '\\', ['u'] + hex);
    KeepClip(a, '\\', n);
    RunCons(Step(q, '\\'), 'u', hex);
    KeepClip(a + ['\\'], 'u', n);
    assert b == a + ['\\'] + ['u'];
    RunHex(p, isKey, b, h1, h2, h3, h4, s);
    assert a + PrintChar(x) == b + [h1, h2, h3, h4];
  }

  lemma RunHex(p: Parser, isKey: bool, b: Bytes, h1: Byte, h2: Byte, h3: Byte, h4: Byte, s: Bytes)
    requires p.Live? && IsHex(h1) && IsHex(h2) && IsHex(h3) && IsHex(h4)
    ensures Run(p.(lex := Str(isKey, Clip(b, Limit(isKey)), Hex(4))), [h1] + ([h2] + ([h3] + ([h4] + s))))
         == Run(p.(lex := Str(isKey, Clip(b + [h1, h2, h3, h4], Limit(isKey)), Plain)), s)
  {
    var n := Limit(isKey);
    var q1 := p.(lex := Str(isKey, Clip(b, n), Hex(4)));
    var q2 := p.(lex := Str(isKey, Clip(b + [h1], n), Hex(3)));
    var q3 := p.(lex := Str(isKey, Clip(b + [h1] + [h2], n), Hex(2)));
    var q4 := p.(lex := Str(isKey, Clip(b + [h1] + [h2] + [h3], n), Hex(1)));
    RunCons(q1, h1, [h2] + ([h3] + ([h4] + s)));
    KeepClip(b, h1, n);
    RunCons(q2, h2, [h3] + ([h4] + s));
    KeepClip(b + [h1], h2, n);
    RunCons(q3, h3, [h4] + s);
    KeepClip(b + [h1] + [h2], h3, n);
    RunCons(q4, h4, s);
    KeepClip(b + [h1] + [h2] + [h3], h4, n);
    assert b + [h1, h2, h3, h4] == b + [h1] + [h2] + [h3] + [h4];
  }

  lemma {:induction false} RunChars(p: Parser, isKey: bool, a: Bytes, xs: seq<StrChar>, s: Bytes)
    requires p.Live? && ValidChars(xs)
    ensures Run(p.(lex := Str(isKey, Clip(a, Limit(isKey)), Plain)), PrintChars(xs) + s)
         == Run(p.(lex := Str(isKey, Clip(a + PrintChars(xs), Limit(isKey)), Plain)), s)
    decreases |xs|
  {
    if xs == [] {
      assert PrintChars(xs) + s == s && a + PrintChars(xs) == a;
    } else {
      var x, tail := xs[0], PrintChars(xs[1..]);
      assert PrintChars(xs) + s == PrintChar(x) + (tail + s);
      RunChar(p, isKey, a, x, tail + s);
      RunChars(p, isKey, a + PrintChar(x), xs[1..], s);
      assert a + PrintChars(xs) == a + PrintChar(x) + tail;
    }
  }

  // From the state after the opening quote to the end of the token.
  lemma RunString(p: Parser, isKey: bool, xs: seq<StrChar>, s: Bytes)
    requires p.Live? && p.lex.Idle? && ValidChars(xs)
    ensures Run(p.(lex := Str(isKey, Token(['"'], false), Plain)), PrintChars(xs) + (['"'] + s))
         == Run(if isKey then EndKey(p, Clip(PrintString(xs), Limit(isKey)))
                else EndValue(p, Clip(PrintString(xs), Limit(isKey)), true), s)
  {
    var n := Limit(isKey);
    var a: Bytes := ['"'];
    assert Clip(a, n) == Token(a, false);
    RunChars(p, isKey, a, xs, ['"'] + s);
    var b := a + PrintChars(xs);
    var q := p.(lex := Str(isKey, Clip(b, n), Plain));
    RunCons(q, '"', s);
    KeepClip(b, '"', n);
    assert b + ['"'] == PrintString(xs);
    EndIgnoresLex(q, p, Clip(PrintString(xs), n));
  }

  lemma EndIgnoresLex(q: Parser, p: Parser, tok: Token)
    requires p.Live? && q.Live? && q == p.(lex := q.lex)
    ensures EndKey(q, tok) == EndKey(p, tok)
    ensures forall complete :: EndValue(q, tok, complete) == EndValue(p, tok, complete)
  {
  }

  lemma UnquoteChar(x: StrChar, s: Bytes)
    requires ValidChar(x)
    ensures UnquoteBody(PrintChar(x) + s) == Push(DecodeChar(x), UnquoteBody(s))
  {
    var t := PrintChar(x) + s;
    match x {
      case Raw(c) => assert t[1..] == s;
      case Escaped(c) => assert t[2..] == s;
      case Unicode(a, b, c, d) => assert t[6..] == s;
    }
  }

  lemma {:induction false} UnquoteChars(xs: seq<StrChar>)
    requires ValidChars(xs)
    ensures UnquoteBody(PrintChars(xs) + ['"']) == Some(Decode(xs))
    decreases |xs|
  {
    if xs == [] {
      assert PrintChars(xs) + ['"'] == ['"'];
    } else {
      var tail := PrintChars(xs[1..]) + ['"'];
      assert PrintChars(xs) + ['"'] == PrintChar(xs[0]) + tail;
      UnquoteChar(xs[0], tail);
      UnquoteChars(xs[1..]);
    }
  }

  /** A string token decodes to the text of its characters. */
  lemma UnquoteString(xs: seq<StrChar>)
    requires ValidChars(xs)
    ensures Unquote(PrintString(xs)) == Some(Decode(xs))
  {
    UnquoteChars(xs);
    assert PrintString(xs)[1..] == PrintChars(xs) + ['"'];
  }

  // The token is a string whose characters are those of the text.
  ghost predicate Spells(raw: Bytes, text: string) {
    exists xs :: ValidChars(xs) && raw == PrintString(xs) && Decode(xs) == text
  }

  // The first character of a text that is unquoted.
  lemma UnquotedChar(s: Bytes) returns (x: StrChar)
    requires UnquoteBody(s).Some? && s != [] && s[0] != '"'
    ensures ValidChar(x) && |PrintChar(x)| <= |s| && s == PrintChar(x) + s[|PrintChar(x)|..]
    ensures UnquoteBody(s[|PrintChar(x)|..]).Some?
  {
    if s[0] != '\\' {
      x := Raw(s[0]);
    } else if s[1] == 'u' {
      x := Unicode(s[2], s[3], s[4], s[5]);
    } else {
      x := Escaped(s[1]);
    }
  }

  lemma {:induction false} UnquotedChars(s: Bytes) returns (xs: seq<StrChar>)
    requires UnquoteBody(s).Some?
    ensures ValidChars(xs) && s == PrintChars(xs) + ['"']
    decreases |s|
  {
    if s[0] == '"' {
      xs := [];
    } else {
      var x := UnquotedChar(s);
      var more := UnquotedChars(s[|PrintChar(x)|..]);
      xs := [x] + more;
      assert xs[1..] == more;
    }
  }

  /** A token is unquoted exactly if it is a JSON string, and to the text of its characters. */
  lemma UnquoteMeans(raw: Bytes, text: string)
    ensures Unquote(raw) == Some(text) <==> Spells(raw, text)
  {
    if Unquote(raw) == Some(text) {
      var xs := UnquotedChars(raw[1..]);
      assert raw == PrintString(xs);
      UnquoteString(xs);
    }
    if Spells(raw, text) {
      var xs :| ValidChars(xs) && raw == PrintString(xs) && Decode(xs) == text;
      UnquoteString(xs);
    }
  }

  // ---- Bare scalars ------------------------------------------------------------------------

  ghost predicate Reachable(n: Num) {
    n.Lit? ==> IsLiteralName(n.word)
  }

  lemma DelimFails(n: Num, c: Byte)
    requires Reachable(n) && IsDelim(c)
    ensures NumStep(n, c).Fail?
  {
  }

  lemma {:induction false} RunScalar(p: Parser, a: Bytes, num: Num, t: Bytes, s: Bytes)
    requires p.Live? && Reachable(num) && !NumRun(num, t).Fail?
    ensures Run(p.(lex := Scalar(Clip(a, VALUE_LIMIT), num)), t + s)
         == Run(p.(lex := Scalar(Clip(a + t, VALUE_LIMIT), NumRun(num, t))), s)
    decreases |t|
  {
    hide Clip;
    if t == [] {
      assert t + s == s && a + t == a;
    } else {
      var next := NumStep(num, t[0]);
      FailSticks(t[1..]);
      if IsDelim(t[0]) {
        DelimFails(num, t[0]);
      }
      assert t + s == [t[0]] + (t[1..] + s);
      RunCons(p.(lex := Scalar(Clip(a, VALUE_LIMIT), num)), t[0], t[1..] + s);
      KeepClip(a, t[0], VALUE_LIMIT);
      RunScalar(p, a + [t[0]], next, t[1..], s);
      assert a + t == a + [t[0]] + t[1..];
    }
  }

  // ---- Where a value may stand, and what it leaves behind -------------------------------------

  ghost predicate ValueReady(p: Parser) {
    p.Live? && p.lex.Idle? && p.stack != [] &&
    (Top(p.stack).pos.AtValue? || Top(p.stack).pos.AtFirstElem?)
  }

  ghost predicate KeyReady(p: Parser) {
    p.Live? && p.lex.Idle? && p.stack != [] && Top(p.stack).isObject &&
    (Top(p.stack).pos.AtFirstKey? || Top(p.stack).pos.AtNextKey?)
  }

  ghost predicate ElemReady(p: Parser) {
    ValueReady(p) && !Top(p.stack).isObject
  }

  ghost predicate EndsWith(rest: Bytes, c: Byte) {
    rest != [] && rest[0] == c
  }

  ghost function After(p: Parser, v: Value): Parser
    requires p.Live? && p.stack != []
  {
    p.(stack := MoveTop(p.stack, AtSeparator),
       fields := Record(p.fields, Occurrences(v, LocOf(p.stack))),
       keySkipped := p.keySkipped || LongKey(v))
  }

  ghost function LastKey(ms: Members): string {
    match ms
    case LastMember(m) => KeyName(m.key)
    case MoreMembers(_, rest) => LastKey(rest)
  }

  ghost function AfterMembers(p: Parser, ms: Members): Parser
    requires p.Live? && p.stack != []
  {
    p.(stack := Below(p.stack) + [Frame(true, AtSeparator, LastKey(ms))],
       fields := Record(p.fields, MemberOccurrences(ms, LocOf(Below(p.stack)))),
       keySkipped := p.keySkipped || LongKeyMembers(ms))
  }

  ghost function AfterElems(p: Parser, es: Elems): Parser
    requires p.Live? && p.stack != []
  {
    p.(stack := Below(p.stack) + [Frame(false, AtSeparator, Top(p.stack).key)],
       fields := Record(p.fields, ElemOccurrences(es, LocOf(Below(p.stack)))),
       keySkipped := p.keySkipped || LongKeyElems(es))
  }

  lemma LocOfPush(below: seq<Frame>, f: Frame)
    ensures LocOf(below + [f]) == LocOf(below) + [HopOf(f)]
  {
    var s := below + [f];
    assert s[..|s| - 1] == below;
  }

  lemma RecordOne(f: Fields, o: Occurrence)
    ensures Record(f, [o]) == if Selected(o.loc) then f[Dotted(o.loc) := o.raw] else f
  {
  }

  lemma FitsSplit(a: seq<Occurrence>, b: seq<Occurrence>)
    requires Fits(a + b)
    ensures Fits(a) && Fits(b)
  {
    assert forall i :: 0 <= i < |a| ==> (a + b)[i] == a[i];
    assert forall i :: 0 <= i < |b| ==> (a + b)[|a| + i] == b[i];
  }

  // ---- Values ------------------------------------------------------------------------------------

  // A complete scalar token is recorded when it is selected, whole.
  lemma EndScalar(p: Parser, v: Value)
    requires ValueReady(p) && (v.Text? || v.Bare?) && ValidToken(PrintValue(v))
    requires Fits(Occurrences(v, LocOf(p.stack)))
    ensures EndValue(p, Clip(PrintValue(v), VALUE_LIMIT), true) == After(p, v)
  {
    var o := Occurrence(LocOf(p.stack), PrintValue(v));
    assert Occurrences(v, LocOf(p.stack)) == [o];
    assert [o][0] == o;
    RecordOne(p.fields, o);
  }

  lemma RunText(p: Parser, xs: seq<StrChar>, rest: Bytes)
    requires ValueReady(p) && ValidChars(xs)
    requires Fits(Occurrences(Text(xs), LocOf(p.stack)))
    ensures Run(p, PrintValue(Text(xs)) + rest) == Run(After(p, Text(xs)), rest)
  {
    var t := PrintString(xs);
    assert t + rest == ['"'] + (PrintChars(xs) + (['"'] + rest));
    RunCons(p, '"', PrintChars(xs) + (['"'] + rest));
    RunString(p, false, xs, rest);
    UnquoteString(xs);
    EndScalar(p, Text(xs));
  }

  lemma ScalarStart(t: Bytes)
    requires IsNumber(t) || IsLiteralName(t)
    ensures t != [] && StartsScalar(t[0]) && Accepts(Start, t) && ValidToken(t)
    ensures Reachable(NumStep(Start, t[0])) && NumComplete(NumRun(NumStep(Start, t[0]), t[1..]))
  {
    AcceptsScalars(t);
    TokenAgrees(t);
    FailSticks(t[1..]);
  }

  // The delimiter that ends a bare scalar is handled again as structure.
  lemma RunDelim(p: Parser, tok: Token, num: Num, q: Parser, rest: Bytes)
    requires p.Live? && p.lex.Idle? && NumComplete(num)
    requires EndValue(p, tok, true) == q && q.Live? && q.lex.Idle?
    requires rest != [] && IsDelim(rest[0])
    ensures Run(p.(lex := Scalar(tok, num)), rest) == Run(q, rest)
  {
    var r := p.(lex := Scalar(tok, num));
    EndIgnoresLex(r, p, tok);
    assert Step(r, rest[0]) == Step(q, rest[0]);
  }

  lemma RunBareToken(p: Parser, c: Byte, tail: Bytes, rest: Bytes)
    requires ValueReady(p) && StartsScalar(c)
    requires Reachable(NumStep(Start, c)) && !NumRun(NumStep(Start, c), tail).Fail?
    ensures Run(p, [c] + (tail + rest))
         == Run(p.(lex := Scalar(Clip([c] + tail, VALUE_LIMIT), NumRun(NumStep(Start, c), tail))), rest)
  {
    RunCons(p, c, tail + rest);
    StartBare(p, c);
    RunScalar(p, [c], NumStep(Start, c), tail, rest);
  }

  lemma RunBare(p: Parser, t: Bytes, rest: Bytes)
    requires ValueReady(p) && ValidValue(Bare(t))
    requires Fits(Occurrences(Bare(t), LocOf(p.stack)))
    requires rest != [] && IsDelim(rest[0])
    ensures Run(p, PrintValue(Bare(t)) + rest) == Run(After(p, Bare(t)), rest)
  {
    hide Run, NumRun, Occurrences, NumStep;
    ScalarStart(t);
    var c, tail := t[0], t[1..];
    assert t == [c] + tail && t + rest == [c] + (tail + rest);
    EndScalar(p, Bare(t));
    RunDelim(p, Clip(t, VALUE_LIMIT), NumRun(NumStep(Start, c), tail), After(p, Bare(t)), rest);
    RunBareToken(p, c, tail, rest);
  }

  lemma StartBare(p: Parser, c: Byte)
    requires ValueReady(p) && StartsScalar(c)
    ensures Step(p, c) == p.(lex := Scalar(Clip([c], VALUE_LIMIT), NumStep(Start, c)))
  {
  }
}
