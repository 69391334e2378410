/**
 Why an input is refused, on its bytes alone: it breaks off, nests too deeply,
 holds a selected value that is too long, or is no JSON text.
 */
module JsonReasons {
  import opened Bytes
  import opened Options
  import opened Rfc8259
  import opened Selection
  import opened ScalarAutomaton
  import opened JsonMachine
  import opened JsonForward
  import opened JsonContainers
  import opened JsonBackward
  import opened JsonTheorems

  // ---- Beginnings --------------------------------------------------------------------------

  // The bytes can be continued to a stream of objects within the limits.
  ghost predicate Viable(s: Bytes) {
    exists ext :: IsObjectStream(s + ext)
  }

  // A value may stand behind u: a line feed, a zero and a comma may follow, which no token can hold.
  ghost predicate ValuePlace(u: Bytes) {
    Viable(u + "\n0,")
  }

  ghost predicate IsString(t: Bytes) {
    exists xs :: ValidChars(xs) && t == PrintString(xs)
  }

  // The beginning of a string, short of its end.
  ghost predicate StringStart(t: Bytes) {
    t != [] && exists y :: y != [] && IsString(t + y)
  }

  // A number or a literal name, or the beginning of one.
  ghost predicate BareStart(t: Bytes) {
    t != [] && exists y :: IsNumber(t + y) || IsLiteralName(t + y)
  }

  // The input ends inside a value that is a token.
  ghost predicate OpenToken(s: Bytes) {
    exists u, t :: s == u + t && ValuePlace(u) && (StringStart(t) || BareStart(t))
  }

  // A bracket opens a value behind u, and no continuation is within the limits.
  ghost predicate Deep(u: Bytes, rest: Bytes) {
    ValuePlace(u) && rest != [] && (rest[0] == '{' || rest[0] == '[') && !Viable(u + [rest[0]])
  }

  ghost predicate DeepIn(s: Bytes) {
    exists u, rest :: s == u + rest && Deep(u, rest)
  }

  // A token of more than 4096 bytes ends behind u, and no continuation is within the limits.
  ghost predicate Long(u: Bytes, t: Bytes, rest: Bytes) {
    && ValuePlace(u) && |t| > 4096 && !Viable(u + t)
    && (IsString(t) || (BareStart(t) && rest != [] && IsDelim(rest[0])))
  }

  ghost predicate LongIn(s: Bytes) {
    exists u, t, rest :: s == u + t + rest && Long(u, t, rest)
  }

  // Why s, which is no stream of objects within the limits, is refused.
  ghost function ReasonOf(s: Bytes): string {
    if DeepIn(s) then "depth_limit"
    else if LongIn(s) then "selected_value_limit"
    else if Viable(s) || OpenToken(s) then "incomplete"
    else "malformed"
  }

  // ---- From a state to the end of the input ---------------------------------------------------

  lemma RunOn(u: Bytes, t: Bytes)
    ensures Run(FRESH, u + t) == Run(Run(FRESH, u), t)
    ensures Inv(Run(FRESH, u))
  {
    RunAppend(FRESH, u, t);
    RunInv(FRESH, u);
  }

  lemma ViableRun(s: Bytes, ext: Bytes)
    requires Complete(Run(Run(FRESH, s), ext))
    ensures Viable(s)
  {
    hide Run, IsObjectStream;
    RunOn(s, ext);
    Recognizes(s + ext);
  }

  lemma ViableLive(s: Bytes)
    requires Viable(s)
    ensures Run(FRESH, s).Live?
  {
    hide IsObjectStream;
    var ext :| IsObjectStream(s + ext);
    Recognizes(s + ext);
    RunOn(s, ext);
    if Run(FRESH, s).Dead? {
      DeadSticks(Run(FRESH, s), ext);
    }
  }

  lemma ZeroIsNumber()
    ensures ValidValue(Bare("0")) && PrintValue(Bare("0")) == "0" && Depth(Bare("0")) == 0
  {
    assert PrintNumber(Number([], "0", [], [])) == "0";
  }

  // A zero, where a value may stand.
  lemma RunZero(p: Parser, rest: Bytes)
    requires ValueReady(p) && Inv(p) && rest != [] && IsDelim(rest[0])
    ensures Run(p, "0" + rest) == Run(After(p, Bare("0")), rest)
    ensures After(p, Bare("0")).Live? && After(p, Bare("0")).lex.Idle?
    ensures After(p, Bare("0")).stack == MoveTop(p.stack, AtSeparator)
  {
    ZeroIsNumber();
    RunBare(p, "0", rest);
  }

  // The nearest separator position in the same container.
  lemma ToSeparator(p: Parser) returns (ext: Bytes)
    requires p.Live? && p.lex.Idle? && p.stack != [] && Inv(p)
    ensures var q := Run(p, ext);
            && q.Live? && q.lex.Idle? && |q.stack| == |p.stack| && Below(q.stack) == Below(p.stack)
            && Top(q.stack).pos.AtSeparator? && Top(q.stack).isObject == Top(p.stack).isObject
  {
    hide Run, Selected, Record, LocOf;
    if Top(p.stack).pos.AtSeparator? {
      ext := [];
      RunEmptyInput(p);
    } else if ValueReady(p) {
      ext := "0" + "\n";
      RunZero(p, "\n");
      RunWsOnly(After(p, Bare("0")));
    } else if Top(p.stack).pos.AtColon? {
      var q := p.(stack := MoveTop(p.stack, AtValue));
      ext := [':'] + ("0" + "\n");
      RunCons(p, ':', "0" + "\n");
      assert Step(p, ':') == q;
      MoveTopInv(p, AtValue);
      RunZero(q, "\n");
      RunWsOnly(After(q, Bare("0")));
    } else {
      assert KeyReady(p);
      ext := PrintString([]) + ([':'] + ("0" + "\n"));
      RunKeyToken(p, [], [':'] + ("0" + "\n"));
      var c := AtMemberColon(p, []);
      var q := AtMemberValue(p, []);
      RunCons(c, ':', "0" + "\n");
      assert Step(c, ':') == q;
      assert Inv(q);
      RunZero(q, "\n");
      RunWsOnly(After(q, Bare("0")));
    }
  }

  lemma RunEmptyInput(p: Parser)
    ensures Run(p, []) == p
  {
  }

  lemma RunWsOnly(p: Parser)
    requires p.Live? && p.lex.Idle?
    ensures Run(p, "\n") == p
  {
    RunCons(p, '\n', []);
    assert ['\n'] + [] == "\n";
  }

  /** Between tokens every input can be continued to a stream of objects. */
  lemma {:induction false} Closable(p: Parser) returns (ext: Bytes)
    requires p.Live? && p.lex.Idle? && Inv(p)
    ensures Complete(Run(p, ext))
    decreases |p.stack|
  {
    hide Run, Selected, LocOf;
    if p.stack == [] {
      ext := [];
      RunEmptyInput(p);
    } else {
      var a := ToSeparator(p);
      var q := Run(p, a);
      RunInv(p, a);
      var c: Byte := if Top(q.stack).isObject then '}' else ']';
      var r := Step(q, c);
      StepInv(q, c);
      assert r.Live? && r.lex.Idle? && |r.stack| == |p.stack| - 1;
      var b := Closable(r);
      ext := a + ([c] + b);
      RunAppend(p, a, [c] + b);
      RunCons(q, c, b);
    }
  }

  lemma IdleViable(s: Bytes)
    requires Run(FRESH, s).Live? && Run(FRESH, s).lex.Idle?
    ensures Viable(s)
  {
    hide Run;
    RunInv(FRESH, s);
    var ext := Closable(Run(FRESH, s));
    ViableRun(s, ext);
  }

  /** A value may stand exactly where the recognizer awaits one. */
  lemma PlaceMeans(u: Bytes)
    ensures ValuePlace(u) <==> ValueReady(Run(FRESH, u))
  {
    hide Run, Viable, Selected, LocOf;
    var p := Run(FRESH, u);
    RunOn(u, "\n0,");
    assert "\n0," == ['\n'] + ("0" + ",");
    RunCons(p, '\n', "0" + ",");
    if ValueReady(p) {
      RunZero(p, ",");
      var q := After(p, Bare("0"));
      RunCons(q, ',', []);
      assert [','] + [] == ",";
      RunEmptyInput(Step(q, ','));
      IdleViable(u + "\n0,");
    }
    if ValuePlace(u) {
      ViableLive(u + "\n0,");
      PlaceNeeded(p);
    }
  }

  lemma PlaceNeeded(p: Parser)
    requires Inv(p) && Run(Step(p, '\n'), "0" + ",").Live?
    ensures ValueReady(p)
  {
    hide Run, Selected, LocOf, Dotted;
    var q := Step(p, '\n');
    assert "0" + "," == ['0'] + ",";
    RunCons(q, '0', ",");
    if Step(q, '0').Dead? {
      DeadSticks(Step(q, '0'), ",");
    }
  }

  // ---- Inside a token ---------------------------------------------------------------------------

  // The part of a character that has been read.
  ghost predicate PartOf(part: Bytes, sub: Sub) {
    match sub
    case Plain => part == []
    case Escape => part == ['\\']
    case Hex(left) =>
      && 1 <= left <= 4 && |part| == 6 - left && part[0] == '\\' && part[1] == 'u'
      && forall i :: 2 <= i < |part| ==> IsHex(part[i])
  }

  ghost predicate InString(t: Bytes, sub: Sub) {
    exists xs, part :: ValidChars(xs) && t == ['"'] + PrintChars(xs) + part && PartOf(part, sub)
  }

  // The token t began behind u, where the recognizer was between tokens, and has not ended.
  ghost predicate Within(u: Bytes, t: Bytes, p: Parser) {
    var b := Run(FRESH, u);
    && p.Live? && b.Live? && p == b.(lex := p.lex)
    && match p.lex
       case Idle => false
       case Str(isKey, tok, sub) =>
         && (if isKey then KeyReady(b) else ValueReady(b))
         && tok == Clip(t, Limit(isKey)) && InString(t, sub)
       case Scalar(tok, num) =>
         && ValueReady(b) && t != [] && StartsScalar(t[0])
         && tok == Clip(t, VALUE_LIMIT) && num == NumRun(Start, t) && !num.Fail?
  }

  lemma {:induction false} PrintCharsSnoc(xs: seq<StrChar>, x: StrChar)
    ensures PrintChars(xs + [x]) == PrintChars(xs) + PrintChar(x)
    decreases |xs|
  {
    var all := xs + [x];
    if xs == [] {
      assert all == [x] && [x][1..] == [];
    } else {
      assert all[0] == xs[0] && all[1..] == xs[1..] + [x];
      PrintCharsSnoc(xs[1..], x);
    }
  }

  // A whole character has been read.
  lemma CharDone(t: Bytes, xs: seq<StrChar>, x: StrChar)
    requires ValidChars(xs) && ValidChar(x) && t == ['"'] + PrintChars(xs) + PrintChar(x)
    ensures InString(t, Plain)
  {
    hide PrintChars, PrintChar, ValidChar;
    PrintCharsSnoc(xs, x);
    var all := xs + [x];
    assert ValidChars(all);
    assert t == ['"'] + PrintChars(all) + [];
    assert PartOf([], Plain);
  }

  lemma PartGrows(t: Bytes, c: Byte, xs: seq<StrChar>, part: Bytes, sub: Sub)
    requires ValidChars(xs) && t == ['"'] + PrintChars(xs) + part && PartOf(part + [c], sub)
    ensures InString(t + [c], sub)
  {
    assert t + [c] == ['"'] + PrintChars(xs) + (part + [c]);
  }

  // One more byte of a string.
  lemma StringGrows(p: Parser, t: Bytes, c: Byte)
    requires p.Live? && p.lex.Str? && InString(t, p.lex.sub) && p.lex.tok == Clip(t, Limit(p.lex.isKey))
    ensures var isKey := p.lex.isKey;
            var q := Step(p, c);
            if p.lex.sub.Plain? && c == '"' then
              && IsString(t + [c])
              && q == if isKey then EndKey(p, Clip(t + [c], KEY_LIMIT))
                      else EndValue(p, Clip(t + [c], VALUE_LIMIT), true)
            else if q.Live? then
              && q.lex.Str? && InString(t + [c], q.lex.sub)
              && q == p.(lex := Str(isKey, Clip(t + [c], Limit(isKey)), q.lex.sub))
            else q == Die(p, "")
  {
    hide InString, Clip;
    KeepClip(t, c, Limit(p.lex.isKey));
    NextPart(t, p.lex.sub, c);
  }

  lemma NextPart(t: Bytes, sub: Sub, c: Byte)
    requires InString(t, sub)
    ensures sub.Plain? && c == '"' ==> IsString(t + [c])
    ensures sub.Plain? && c == '\\' ==> InString(t + [c], Escape)
    ensures sub.Plain? && c != '\\' && c != '"' && c >= ' ' ==> InString(t + [c], Plain)
    ensures sub.Escape? && c == 'u' ==> InString(t + [c], Hex(4))
    ensures sub.Escape? && IsEscape(c) ==> InString(t + [c], Plain)
    ensures sub.Hex? && IsHex(c) ==> InString(t + [c], if sub.left > 1 then Hex(sub.left - 1) else Plain)
  {
    hide InString, PrintChars;
    var xs, part := Parts(t, sub);
    match sub {
      case Plain =>
        assert t + [c] == PrintString(xs) || c != '"';
        if c == '\\' {
          PartGrows(t, c, xs, part, Escape);
        } else if c != '"' && c >= ' ' {
          CharDone(t + [c], xs, Raw(c));
        }
      case Escape =>
        assert t + [c] == ['"'] + PrintChars(xs) + ['\\', c];
        if c == 'u' {
          PartGrows(t, c, xs, part, Hex(4));
        } else if IsEscape(c) {
          CharDone(t + [c], xs, Escaped(c));
        }
      case Hex(left) =>
        assert t + [c] == ['"'] + PrintChars(xs) + (part + [c]);
        if IsHex(c) {
          if left > 1 {
            PartGrows(t, c, xs, part, Hex(left - 1));
          } else {
            assert part + [c] == PrintChar(Unicode(part[2], part[3], part[4], c));
            CharDone(t + [c], xs, Unicode(part[2], part[3], part[4], c));
          }
        }
    }
  }

  lemma Parts(t: Bytes, sub: Sub) returns (xs: seq<StrChar>, part: Bytes)
    requires InString(t, sub)
    ensures ValidChars(xs) && t == ['"'] + PrintChars(xs) + part && PartOf(part, sub)
  {
    xs, part :| ValidChars(xs) && t == ['"'] + PrintChars(xs) + part && PartOf(part, sub);
  }

  lemma ScalarGrows(p: Parser, t: Bytes, c: Byte)
    requires p.Live? && p.lex == Scalar(Clip(t, VALUE_LIMIT), NumRun(Start, t)) && !IsDelim(c)
    ensures var num := NumRun(Start, t + [c]);
            Step(p, c) == if num.Fail? then Die(p, "") else p.(lex := Scalar(Clip(t + [c], VALUE_LIMIT), num))
  {
    hide Clip;
    KeepClip(t, c, VALUE_LIMIT);
    NumRunAppend(Start, t, [c]);
    assert NumRun(NumRun(Start, t), [c]) == NumStep(NumRun(Start, t), c) by {
      assert [c][1..] == [];
    }
  }

  lemma SeparatorIdles(q: Parser, c: Byte)
    requires q.Live? && q.lex.Idle? && q.stack != [] && Top(q.stack).pos.AtSeparator?
    ensures StructureStep(q, c).Live? ==> StructureStep(q, c).lex.Idle?
  {
    hide LocOf, Selected;
  }

  // Behind a bare scalar the recognizer is between tokens, whatever ended it.
  lemma DelimIdles(p: Parser, c: Byte)
    requires p.Live? && p.lex.Scalar? && IsDelim(c) && Step(p, c).Live?
    ensures Step(p, c).lex.Idle?
  {
    hide EndValue, StructureStep, IsDelim;
    var q := EndValue(p, p.lex.tok, NumComplete(p.lex.num));
    ValueFails(p, p.lex.tok, NumComplete(p.lex.num));
    if q.Live? {
      SeparatorIdles(q, c);
    }
  }

  // Between tokens a byte that starts one does so where a name or a value may stand.
  lemma FirstByte(b: Parser, c: Byte)
    requires Inv(b) && b.Live? && b.lex.Idle? && Step(b, c).Live? && !Step(b, c).lex.Idle?
    ensures var q := Step(b, c);
            || (c == '"' && KeyReady(b) && q == b.(lex := Str(true, Token([c], false), Plain)))
            || (c == '"' && ValueReady(b) && q == b.(lex := Str(false, Token([c], false), Plain)))
            || (StartsScalar(c) && ValueReady(b) && q == b.(lex := Scalar(Token([c], false), NumStep(Start, c))))
  {
    hide LocOf, Selected, NumStep;
  }

  lemma QuoteShape()
    ensures InString(['"'], Plain)
  {
    var t: Bytes := ['"'];
    assert t == ['"'] + PrintChars([]) + [];
    assert PartOf([], Plain);
  }

  lemma TokenStarts(u: Bytes, c: Byte)
    requires Run(FRESH, u).Live? && Run(FRESH, u).lex.Idle?
    requires var q := Step(Run(FRESH, u), c); q.Live? && !q.lex.Idle?
    ensures Within(u, [c], Step(Run(FRESH, u), c))
  {
    hide Run, Step, InString, NumStep, Inv;
    assert Inv(Run(FRESH, u)) by { RunOn(u, []); }
    FirstByte(Run(FRESH, u), c);
    NumOne(Start, c);
    QuoteShape();
    assert StartsScalar(c) ==> !NumStep(Start, c).Fail? by { ScalarLives(c); }
  }

  lemma ScalarLives(c: Byte)
    ensures StartsScalar(c) ==> !NumStep(Start, c).Fail?
  {
  }

  lemma RunSnoc(s: Bytes, c: Byte)
    ensures Run(FRESH, s + [c]) == Step(Run(FRESH, s), c)
  {
    RunOn(s, [c]);
    RunCons(Run(FRESH, s), c, []);
    assert [c] + [] == [c];
    RunEmptyInput(Step(Run(FRESH, s), c));
  }

  /** Inside a token the input is what precedes the token, and its beginning. */
  lemma {:induction false} Decomposed(s: Bytes) returns (u: Bytes, t: Bytes)
    requires Run(FRESH, s).Live? && !Run(FRESH, s).lex.Idle?
    ensures s == u + t && Within(u, t, Run(FRESH, s))
    decreases |s|
  {
    hide Run, Step, InString;
    assert s != [] by { RunEmptyInput(FRESH); }
    var init, c := s[..|s| - 1], s[|s| - 1];
    assert s == init + [c];
    RunSnoc(init, c);
    var p := Run(FRESH, init);
    assert p.Live? by { LiveBefore(p, c); }
    if p.lex.Idle? {
      u, t := init, [c];
      TokenStarts(init, c);
    } else {
      u, t := Decomposed(init);
      assert s == u + (t + [c]);
      if p.lex.Str? {
        StringGrows(p, t, c);
        EndsIdle(p, Clip(t + [c], VALUE_LIMIT), Clip(t + [c], KEY_LIMIT));
      } else if IsDelim(c) {
        DelimIdles(p, c);
      } else {
        ScalarGrows(p, t, c);
      }
      t := t + [c];
    }
  }

  lemma LiveBefore(p: Parser, c: Byte)
    requires Step(p, c).Live?
    ensures p.Live?
  {
  }

  lemma EndsIdle(p: Parser, value: Token, key: Token)
    requires p.Live?
    ensures var q := EndValue(p, value, true); q.Live? ==> q.lex.Idle?
    ensures var q := EndKey(p, key); q.Live? ==> q.lex.Idle?
  {
  }

  // ---- Tokens that can be finished ----------------------------------------------------------------

  lemma PartEnds(part: Bytes, sub: Sub) returns (x: StrChar, rest: Bytes)
    requires PartOf(part, sub)
    ensures ValidChar(x) && part + rest == PrintChar(x)
  {
    match sub {
      case Plain =>
        x, rest := Raw(' '), " ";
      case Escape =>
        x, rest := Escaped('n'), "n";
      case Hex(left) =>
        var zeros: Bytes := "0000";
        var h := part[2..] + zeros[..left];
        x, rest := Unicode(h[0], h[1], h[2], h[3]), zeros[..left];
        assert part == ['\\', 'u'] + part[2..];
        assert h == [h[0], h[1], h[2], h[3]];
    }
  }

  // The rest of a character and the closing quotation mark.
  lemma StringEnds(t: Bytes, sub: Sub) returns (y: Bytes)
    requires InString(t, sub)
    ensures y != [] && IsString(t + y)
  {
    hide InString, PrintChars, PrintChar, ValidChar, PartOf;
    var xs, part := Parts(t, sub);
    var x, rest := PartEnds(part, sub);
    y := rest + ['"'];
    PrintCharsSnoc(xs, x);
    assert ValidChars(xs + [x]);
    assert t + y == ['"'] + (PrintChars(xs) + (part + rest)) + ['"'];
    assert t + y == PrintString(xs + [x]);
  }

  lemma NumEnds(n: Num) returns (y: Bytes)
    requires !n.Fail? && !n.Start? && (n.Lit? ==> n.pos <= |n.word|)
    ensures NumComplete(NumRun(n, y))
  {
    match n {
      case Lit(word, pos) =>
        y := word[pos..];
        RunLiteral(word, pos, y);
      case Minus => y := "0"; NumOne(n, '0');
      case Dot => y := "0"; NumOne(n, '0');
      case E => y := "0"; NumOne(n, '0');
      case Sign => y := "0"; NumOne(n, '0');
      case _ => y := [];
    }
  }

  lemma NumOne(n: Num, c: Byte)
    ensures NumRun(n, [c]) == NumStep(n, c)
  {
    assert [c][1..] == [];
  }

  lemma {:induction false} LitInside(n: Num, s: Bytes)
    requires n.Lit? ==> n.pos <= |n.word| && IsLiteralName(n.word)
    ensures var m := NumRun(n, s); m.Lit? ==> m.pos <= |m.word| && IsLiteralName(m.word)
    decreases |s|
  {
    if s != [] {
      LitInside(NumStep(n, s[0]), s[1..]);
    }
  }

  // What the automaton has not failed on is the beginning of a number or a literal name.
  lemma BareMeans(t: Bytes)
    requires t != []
    ensures BareStart(t) <==> !NumRun(Start, t).Fail?
    ensures BareStart(t) ==> StartsScalar(t[0]) && Reachable(NumRun(Start, t))
  {
    var n := NumRun(Start, t);
    LitInside(Start, t);
    if !n.Fail? {
      NeverStart(Start, t);
      var y := NumEnds(n);
      NumRunAppend(Start, t, y);
      AcceptsScalars(t + y);
    }
    if BareStart(t) {
      var y :| IsNumber(t + y) || IsLiteralName(t + y);
      AcceptsScalars(t + y);
      NumRunAppend(Start, t, y);
      FailSticks(y);
      FailSticks(t[1..]);
    }
  }

  lemma {:induction false} NeverStart(n: Num, t: Bytes)
    requires t != []
    ensures !NumRun(n, t).Start?
    decreases |t|
  {
    if |t| > 1 {
      NeverStart(NumStep(n, t[0]), t[1..]);
    }
  }

  // From a place of a value into a bare scalar.
  lemma RunBareStart(p: Parser, t: Bytes)
    requires ValueReady(p) && BareStart(t)
    ensures Run(p, t) == p.(lex := Scalar(Clip(t, VALUE_LIMIT), NumRun(Start, t)))
  {
    hide Run;
    BareMeans(t);
    var c, tail := t[0], t[1..];
    assert t == [c] + (tail + []);
    FailSticks(tail);
    assert Reachable(NumStep(Start, c));
    RunBareToken(p, c, tail, []);
    assert [c] + tail == t;
    RunEmptyInput(p.(lex := Scalar(Clip(t, VALUE_LIMIT), NumRun(Start, t))));
  }

  lemma RunWholeString(p: Parser, t: Bytes)
    requires ValueReady(p) && IsString(t)
    ensures Run(p, t) == EndValue(p, Clip(t, VALUE_LIMIT), true)
    ensures ValidToken(t)
  {
    hide Run, EndValue, Clip, Unquote, NumberToken, IsLiteralName, PrintChars;
    var xs :| ValidChars(xs) && t == PrintString(xs);
    UnquoteString(xs);
    assert t == ['"'] + (PrintChars(xs) + (['"'] + []));
    RunCons(p, '"', PrintChars(xs) + (['"'] + []));
    RunString(p, false, xs, []);
    RunEmptyInput(EndValue(p, Clip(t, VALUE_LIMIT), true));
  }

  // ---- An input that breaks off ----------------------------------------------------------------------

  lemma RunWholeKey(b: Parser, xs: seq<StrChar>)
    requires KeyReady(b) && ValidChars(xs)
    ensures Run(b, PrintString(xs)).Live? && Run(b, PrintString(xs)).lex.Idle?
  {
    hide Run;
    RunKeyToken(b, xs, []);
    assert PrintString(xs) + [] == PrintString(xs);
    RunEmptyInput(AtMemberColon(b, xs));
  }

  lemma ViableBefore(s: Bytes, y: Bytes)
    requires Viable(s + y)
    ensures Viable(s)
  {
    hide IsObjectStream;
    var ext: Bytes :| IsObjectStream(s + y + ext);
    assert s + y + ext == s + (y + ext);
  }

  lemma KeyViable(s: Bytes, u: Bytes, t: Bytes)
    requires s == u + t && Within(u, t, Run(FRESH, s)) && Run(FRESH, s).lex.Str? && Run(FRESH, s).lex.isKey
    ensures Viable(s)
  {
    hide Run, InString, PrintString, Viable, AtMemberColon;
    var b := Run(FRESH, u);
    var y := StringEnds(t, Run(FRESH, s).lex.sub);
    var xs :| ValidChars(xs) && t + y == PrintString(xs);
    assert s + y == u + PrintString(xs);
    RunOn(u, PrintString(xs));
    RunWholeKey(b, xs);
    IdleViable(s + y);
    ViableBefore(s, y);
  }

  lemma OpenLive(u: Bytes, t: Bytes)
    requires ValueReady(Run(FRESH, u)) && (StringStart(t) || BareStart(t))
    ensures Run(FRESH, u + t).Live? && !Run(FRESH, u + t).lex.Idle?
  {
    hide Run;
    var p := Run(FRESH, u);
    RunOn(u, t);
    if BareStart(t) {
      RunBareStart(p, t);
    } else {
      StringStarted(t);
      RunStarted(p, t);
    }
  }

  // The quotation mark, whole characters and the part of one.
  ghost predicate Started(t: Bytes) {
    exists xs, x, n :: ValidChars(xs) && ValidChar(x) && 0 <= n < |PrintChar(x)|
                       && t == ['"'] + PrintChars(xs) + PrintChar(x)[..n]
  }

  lemma StringStarted(t: Bytes)
    requires StringStart(t)
    ensures Started(t)
  {
    var y :| y != [] && IsString(t + y);
    var xs :| ValidChars(xs) && t + y == PrintString(xs);
    hide PrintChars, ValidChar;
    assert t[0] == (t + y)[0] == PrintString(xs)[0] == '"';
    assert t[1..] + y == (t + y)[1..] == PrintString(xs)[1..] == PrintChars(xs) + ['"'];
    var ys, x, n := CutString(t[1..], y, xs);
    assert t == ['"'] + t[1..];
    assert t == ['"'] + PrintChars(ys) + PrintChar(x)[..n];
  }

  lemma CutBehind(t: Bytes, y: Bytes, c: Bytes, tail: Bytes)
    requires t + y == c + tail
    ensures |t| < |c| ==> t == c[..|t|]
    ensures |t| >= |c| ==> t == c + t[|c|..] && t[|c|..] + y == tail
  {
    if |t| < |c| {
      assert t == (t + y)[..|t|] == (c + tail)[..|t|] == c[..|t|];
    } else {
      assert c == (c + tail)[..|c|] == (t + y)[..|c|] == t[..|c|];
      assert t[|c|..] + y == (t + y)[|c|..] == (c + tail)[|c|..] == tail;
    }
  }

  lemma {:induction false} CutString(t: Bytes, y: Bytes, xs: seq<StrChar>)
    returns (ys: seq<StrChar>, x: StrChar, n: nat)
    requires ValidChars(xs) && t + y == PrintChars(xs) + ['"'] && y != []
    ensures ValidChars(ys) && ValidChar(x) && n < |PrintChar(x)|
    ensures t == PrintChars(ys) + PrintChar(x)[..n]
    decreases |xs|
  {
    hide ValidChar, PrintChar;
    if xs == [] {
      assert t == [];
      ys, x, n := [], Raw(' '), 0;
      SpaceValid();
    } else {
      var c, tail := PrintChar(xs[0]), PrintChars(xs[1..]) + ['"'];
      assert t + y == c + tail;
      CutBehind(t, y, c, tail);
      if |t| < |c| {
        ys, x, n := [], xs[0], |t|;
      } else {
        var more;
        more, x, n := CutString(t[|c|..], y, xs[1..]);
        ys := [xs[0]] + more;
        assert ys[1..] == more;
      }
    }
  }

  lemma SpaceValid()
    ensures ValidChar(Raw(' ')) && PrintChar(Raw(' ')) == " "
  {
  }

  lemma RunStarted(p: Parser, t: Bytes)
    requires ValueReady(p) && Started(t)
    ensures Run(p, t).Live? && Run(p, t).lex.Str?
  {
    hide Run, Clip, Step, PrintChars, PrintChar, ValidChar;
    var xs, x, n :| ValidChars(xs) && ValidChar(x) && 0 <= n < |PrintChar(x)|
                    && t == ['"'] + PrintChars(xs) + PrintChar(x)[..n];
    var part := PrintChar(x)[..n];
    assert t == ['"'] + (PrintChars(xs) + part);
    RunCons(p, '"', PrintChars(xs) + part);
    OpenQuote(p);
    RunChars(p, false, ['"'], xs, part);
    RunPart(p.(lex := Str(false, Clip(['"'] + PrintChars(xs), VALUE_LIMIT), Plain)), x, n);
  }

  lemma OpenQuote(p: Parser)
    requires ValueReady(p)
    ensures Step(p, '"') == p.(lex := Str(false, Clip(['"'], VALUE_LIMIT), Plain))
  {
  }

  lemma RunPart(q: Parser, x: StrChar, n: nat)
    requires q.Live? && q.lex.Str? && q.lex.sub.Plain? && ValidChar(x) && n < |PrintChar(x)|
    ensures Run(q, PrintChar(x)[..n]).Live? && Run(q, PrintChar(x)[..n]).lex.Str?
  {
    hide Run, Keep;
    var part := PrintChar(x)[..n];
    RunEmptyInput(q);
    if n > 0 {
      assert part == ['\\'] + part[1..];
      RunCons(q, '\\', part[1..]);
      var q1 := Step(q, '\\');
      RunEmptyInput(q1);
      if n > 1 {
        assert part[1..] == ['u'] + part[2..];
        RunCons(q1, 'u', part[2..]);
        RunHexes(Step(q1, 'u'), part[2..], 4);
      }
    }
  }

  lemma {:induction false} RunHexes(q: Parser, h: Bytes, left: nat)
    requires q.Live? && q.lex.Str? && q.lex.sub == Hex(left) && |h| < left
    requires forall i :: 0 <= i < |h| ==> IsHex(h[i])
    ensures Run(q, h).Live? && Run(q, h).lex.Str?
    decreases |h|
  {
    hide Keep;
    if h != [] {
      RunHexes(Step(q, h[0]), h[1..], left - 1);
    }
  }

  /** The input breaks off exactly if it can be continued, or ends inside the token of a value. */
  lemma IncompleteMeans(s: Bytes)
    requires !IsObjectStream(s)
    ensures Run(FRESH, s).Live? <==> Viable(s) || OpenToken(s)
  {
    hide Run, IsObjectStream, InString;
    if Run(FRESH, s).Live? {
      if Run(FRESH, s).lex.Idle? {
        IdleViable(s);
      } else {
        var u, t := Decomposed(s);
        PlaceMeans(u);
        if Run(FRESH, s).lex.Scalar? {
          BareMeans(t);
        } else if Run(FRESH, s).lex.isKey {
          KeyViable(s, u, t);
        } else {
          var y := StringEnds(t, Run(FRESH, s).lex.sub);
          assert t != [] by { StringNonEmpty(t, Run(FRESH, s).lex.sub); }
          assert StringStart(t);
        }
      }
    }
    if Viable(s) {
      ViableLive(s);
    }
    if OpenToken(s) {
      var u, t :| s == u + t && ValuePlace(u) && (StringStart(t) || BareStart(t));
      PlaceMeans(u);
      OpenLive(u, t);
    }
  }

  lemma StringNonEmpty(t: Bytes, sub: Sub)
    requires InString(t, sub)
    ensures t != []
  {
  }

  // ---- Limits ------------------------------------------------------------------------------------------

  // The byte at which the recognizer failed.
  lemma {:induction false} FailsAt(s: Bytes) returns (k: nat)
    requires Run(FRESH, s).Dead?
    ensures k < |s| && Run(FRESH, s[..k]).Live? && Step(Run(FRESH, s[..k]), s[k]).Dead?
    ensures Run(FRESH, s).failure == Step(Run(FRESH, s[..k]), s[k]).failure
    decreases |s|
  {
    hide Run, Step;
    assert s != [] by { RunEmptyInput(FRESH); }
    var init, c := s[..|s| - 1], s[|s| - 1];
    assert s == init + [c];
    RunSnoc(init, c);
    if Run(FRESH, init).Live? {
      k := |s| - 1;
    } else {
      StaysDead(Run(FRESH, init), c);
      k := FailsAt(init);
      assert init[..k] == s[..k];
    }
  }

  lemma StaysDead(p: Parser, c: Byte)
    requires p.Dead?
    ensures Step(p, c) == p
  {
  }

  lemma DeadUnviable(s: Bytes)
    requires Run(FRESH, s).Dead?
    ensures !Viable(s)
  {
    hide Run;
    if Viable(s) {
      ViableLive(s);
    }
  }

  lemma PrefixFails(u: Bytes, rest: Bytes)
    requires Run(FRESH, u).Dead?
    ensures Run(FRESH, u + rest) == Run(FRESH, u)
  {
    RunOn(u, rest);
    DeadSticks(Run(FRESH, u), rest);
  }

  lemma ValueFails(p: Parser, tok: Token, complete: bool)
    requires p.Live?
    ensures var q := EndValue(p, tok, complete);
            match q
            case Dead(failure, _, _) =>
              failure == "" || (failure == "selected_value_limit" && tok.overflow && p.stack != []
                                && Selected(LocOf(p.stack)))
            case Live(stack, lex, _, _, _) => lex.Idle? && stack != [] && Top(stack).pos.AtSeparator?
  {
    hide LocOf, Selected, ValidToken;
  }

  lemma KeyFails(p: Parser, tok: Token)
    requires p.Live?
    ensures var q := EndKey(p, tok); q.Dead? ==> q.failure == ""
  {
    hide Unquote;
  }

  lemma StructureFails(p: Parser, c: Byte)
    requires p.Live? && StructureStep(p, c).Dead?
    ensures StructureStep(p, c).failure == "" ||
            (StructureStep(p, c).failure == "depth_limit" && p.stack != [] && (c == '{' || c == '[')
             && (Top(p.stack).pos.AtValue? || Top(p.stack).pos.AtFirstElem?))
  {
    hide LocOf, Selected, NumStep;
  }

  // How one byte may fail: where a token ends, because it is too long; where a value may stand,
  // because of the depth; otherwise without a reason of its own.
  lemma StepFails(p: Parser, c: Byte)
    requires p.Live? && Step(p, c).Dead?
    ensures match Step(p, c).failure
            case "depth_limit" => ValueReady(p) && (c == '{' || c == '[')
            case "selected_value_limit" =>
              && p.stack != [] && Selected(LocOf(p.stack))
              && ((p.lex.Scalar? && IsDelim(c) && p.lex.tok.overflow)
                  || (p.lex.Str? && !p.lex.isKey && p.lex.sub.Plain? && c == '"'
                      && Keep(p.lex.tok, c, VALUE_LIMIT).overflow))
            case reason => reason == ""
  {
    hide LocOf, Selected, NumStep, EndValue, EndKey, StructureStep, Keep;
    match p.lex {
      case Idle =>
        StructureFails(p, c);
      case Str(isKey, tok, _) =>
        KeyFails(p, Keep(tok, c, Limit(isKey)));
        ValueFails(p, Keep(tok, c, Limit(isKey)), true);
      case Scalar(tok, num) =>
        ValueFails(p, tok, NumComplete(num));
        var q := EndValue(p, tok, NumComplete(num));
        if q.Live? && IsDelim(c) {
          StructureFails(q, c);
        }
    }
  }

  lemma BracketStep(p: Parser, c: Byte)
    requires ValueReady(p) && (c == '{' || c == '[')
    ensures var q := Step(p, c);
            (q.Dead? && q.failure == "depth_limit") || (q.Live? && q.lex.Idle?)
  {
    hide LocOf, Selected;
  }

  /** The depth limit is reported exactly if the input nests too deeply. */
  lemma DeepMeans(s: Bytes)
    ensures DeepIn(s) <==> Run(FRESH, s).Dead? && Run(FRESH, s).failure == "depth_limit"
  {
    hide Run, Step, Viable;
    if Run(FRESH, s).Dead? && Run(FRESH, s).failure == "depth_limit" {
      var k := FailsAt(s);
      var u, rest := s[..k], s[k..];
      RunOn(u, []);
      StepFails(Run(FRESH, u), s[k]);
      PlaceMeans(u);
      RunSnoc(u, s[k]);
      DeadUnviable(u + [s[k]]);
      assert s == u + rest && Deep(u, rest);
    }
    if DeepIn(s) {
      var u, rest :| s == u + rest && Deep(u, rest);
      var c := rest[0];
      PlaceMeans(u);
      RunSnoc(u, c);
      BracketStep(Run(FRESH, u), c);
      if Run(FRESH, u + [c]).Live? {
        IdleViable(u + [c]);
      }
      assert s == (u + [c]) + rest[1..];
      PrefixFails(u + [c], rest[1..]);
    }
  }

  // A selected token of which some was dropped never ends well.
  lemma {:induction false} NeverEnds(p: Parser, ext: Bytes)
    requires p.Live? && p.lex.Scalar? && p.lex.tok.overflow && |p.lex.tok.kept| >= VALUE_LIMIT
    requires p.stack != [] && Selected(LocOf(p.stack))
    ensures !Complete(Run(p, ext))
    decreases |ext|
  {
    hide LocOf, Selected, ValidToken, NumStep;
    if ext != [] {
      var q := Step(p, ext[0]);
      if q.Dead? {
        DeadSticks(q, ext[1..]);
      } else {
        NeverEnds(q, ext[1..]);
      }
    }
  }

  lemma OverflowLong(t: Bytes)
    ensures Clip(t, VALUE_LIMIT).overflow <==> |t| > 4096
    ensures Clip(t, VALUE_LIMIT).overflow ==> |Clip(t, VALUE_LIMIT).kept| == VALUE_LIMIT
  {
  }

  lemma StuckUnviable(s: Bytes)
    requires var p := Run(FRESH, s);
             && p.Live? && p.lex.Scalar? && p.lex.tok.overflow && |p.lex.tok.kept| >= VALUE_LIMIT
             && p.stack != [] && Selected(LocOf(p.stack))
    ensures !Viable(s)
  {
    hide Run, Selected, LocOf, IsObjectStream;
    if Viable(s) {
      var ext :| IsObjectStream(s + ext);
      Recognizes(s + ext);
      RunOn(s, ext);
      NeverEnds(Run(FRESH, s), ext);
    }
  }

  // A beginning of a bare scalar that is not selected can be finished.
  lemma UnselectedViable(u: Bytes, t: Bytes)
    requires ValueReady(Run(FRESH, u)) && BareStart(t) && !Selected(LocOf(Run(FRESH, u).stack))
    ensures Viable(u + t)
  {
    hide Run, Selected, LocOf, NumRun, NumStep, IsNumber, IsLiteralName, IsObjectStream;
    var p := Run(FRESH, u);
    var y: Bytes :| IsNumber(t + y) || IsLiteralName(t + y);
    var v := Bare(t + y);
    assert Fits(Occurrences(v, LocOf(p.stack))) by {
      assert Occurrences(v, LocOf(p.stack)) == [Occurrence(LocOf(p.stack), t + y)];
    }
    RunBare(p, t + y, "\n");
    RunWsOnly(After(p, v));
    RunOn(u, t + y + "\n");
    IdleViable(u + (t + y + "\n"));
    var ext: Bytes :| IsObjectStream(u + (t + y + "\n") + ext);
    assert u + (t + y + "\n") + ext == (u + t) + (y + "\n" + ext);
    assert IsObjectStream((u + t) + (y + "\n" + ext));
  }

  // A string that is not selected, or short enough, is followed by more.
  lemma StringFollowed(u: Bytes, t: Bytes)
    requires ValueReady(Run(FRESH, u)) && IsString(t)
    ensures if Selected(LocOf(Run(FRESH, u).stack)) && |t| > 4096
            then Run(FRESH, u + t).Dead? && Run(FRESH, u + t).failure == "selected_value_limit"
            else Viable(u + t)
  {
    hide Run, Selected, LocOf, Viable;
    var p := Run(FRESH, u);
    RunOn(u, t);
    RunWholeString(p, t);
    OverflowLong(t);
    if !(Selected(LocOf(p.stack)) && |t| > 4096) {
      IdleViable(u + t);
    }
  }

  lemma BareFails(p: Parser, c: Byte)
    requires p.Live? && ValueReady(p.(lex := Idle)) && p.lex.Scalar? && p.lex.tok.overflow && IsDelim(c)
    requires Selected(LocOf(p.stack))
    ensures Step(p, c).Dead? && Step(p, c).failure == "selected_value_limit"
  {
  }

  lemma LongFound(s: Bytes)
    requires Run(FRESH, s).Dead? && Run(FRESH, s).failure == "selected_value_limit"
    ensures LongIn(s)
  {
    hide Run, Step, Viable, Selected, LocOf, Clip, InString;
    var k := FailsAt(s);
    var p, c := Run(FRESH, s[..k]), s[k];
    StepFails(p, c);
    var u, t := Decomposed(s[..k]);
    PlaceMeans(u);
    OverflowLong(t);
    if p.lex.Scalar? {
      BareMeans(t);
      StuckUnviable(s[..k]);
      assert s == u + t + s[k..];
      assert Long(u, t, s[k..]);
    } else {
      StringGrows(p, t, c);
      KeepClip(t, c, VALUE_LIMIT);
      OverflowLong(t + [c]);
      RunSnoc(s[..k], c);
      assert s[..k] + [c] == u + (t + [c]);
      DeadUnviable(u + (t + [c]));
      assert s == u + (t + [c]) + s[k + 1..];
      assert Long(u, t + [c], s[k + 1..]);
    }
  }

  lemma LongFails(s: Bytes, u: Bytes, t: Bytes, rest: Bytes)
    requires s == u + t + rest && Long(u, t, rest)
    ensures Run(FRESH, s).Dead? && Run(FRESH, s).failure == "selected_value_limit"
  {
    hide Run, Step, Viable, Selected, LocOf, Clip, IsString, BareStart;
    PlaceMeans(u);
    var p := Run(FRESH, u);
    if IsString(t) {
      StringFollowed(u, t);
      PrefixFails(u + t, rest);
    } else {
      if !Selected(LocOf(p.stack)) {
        UnselectedViable(u, t);
      }
      RunOn(u, t);
      RunBareStart(p, t);
      OverflowLong(t);
      BareFails(Run(FRESH, u + t), rest[0]);
      RunSnoc(u + t, rest[0]);
      assert s == (u + t + [rest[0]]) + rest[1..];
      PrefixFails(u + t + [rest[0]], rest[1..]);
    }
  }

  /** The length limit is reported exactly if the input holds a selected value that is too long. */
  lemma LongMeans(s: Bytes)
    ensures LongIn(s) <==> Run(FRESH, s).Dead? && Run(FRESH, s).failure == "selected_value_limit"
  {
    hide Run, Long;
    if Run(FRESH, s).Dead? && Run(FRESH, s).failure == "selected_value_limit" {
      LongFound(s);
    }
    if LongIn(s) {
      var u, t, rest :| s == u + t + rest && Long(u, t, rest);
      LongFails(s, u, t, rest);
    }
  }

  /** The reason for which the recognizer refuses an input is the one that its bytes give. */
  lemma ReasonMeans(s: Bytes)
    requires !IsObjectStream(s)
    ensures FailureReason(Run(FRESH, s)) == ReasonOf(s)
  {
    hide Run, Step, DeepIn, LongIn, Viable, OpenToken, IsObjectStream;
    DeepMeans(s);
    LongMeans(s);
    IncompleteMeans(s);
    if Run(FRESH, s).Dead? {
      var k := FailsAt(s);
      StepFails(Run(FRESH, s[..k]), s[k]);
    }
  }

  // ---- Long field names ----------------------------------------------------------------------------------

  // A field name may stand behind u: a line feed, the empty name and a colon may follow.
  ghost predicate NamePlace(u: Bytes) {
    Viable(u + "\n\"\":")
  }

  // A field name of more than 128 bytes ends behind u.
  ghost predicate LongName(s: Bytes) {
    exists u, t, rest :: s == u + t + rest && NamePlace(u) && IsString(t) && |t| > 128
  }

  lemma NoName()
    ensures ValidChars([]) && PrintString([]) == "\"\"" && IsString("\"\"")
  {
    assert PrintString([]) == "\"\"";
  }

  lemma NamePossible(p: Parser)
    requires KeyReady(p)
    ensures Run(p, "\n\"\":").Live? && Run(p, "\n\"\":").lex.Idle?
  {
    hide Run;
    NoName();
    assert "\n\"\":" == ['\n'] + ("\"\"" + ":");
    RunCons(p, '\n', "\"\"" + ":");
    RunKeyToken(p, [], ":");
    assert ":" == [':'] + [];
    RunCons(AtMemberColon(p, []), ':', []);
    RunEmptyInput(Step(AtMemberColon(p, []), ':'));
  }

  lemma ColonFails(q: Parser)
    requires q.Live? && q.lex.Idle? && q.stack != [] && Top(q.stack).pos.AtSeparator?
    ensures Step(q, ':').Dead?
  {
  }

  lemma FeedIdles(p: Parser)
    requires Inv(p) && Step(p, '\n').Live?
    ensures p.Live? && Step(p, '\n').lex.Idle? && Inv(Step(p, '\n'))
    ensures p == Step(p, '\n') || (Step(p, '\n').stack != [] && Top(Step(p, '\n').stack).pos.AtSeparator?)
  {
    hide EndValue, Inv;
    StepInv(p, '\n');
    if p.Live? && p.lex.Scalar? {
      ValueFails(p, p.lex.tok, NumComplete(p.lex.num));
    }
  }

  lemma NameNeeded(p: Parser)
    requires Inv(p) && Run(Step(p, '\n'), "\"\":").Live?
    ensures KeyReady(p)
  {
    hide Run, Step, Inv, EndValue, Clip;
    var q := Step(p, '\n');
    if q.Dead? {
      DeadSticks(q, "\"\":");
    }
    FeedIdles(p);
    assert "\"\":" == ['"'] + "\":" == "\"\"" + ":" && ":" == [':'] + [];
    RunCons(q, '"', "\":");
    if Step(q, '"').Dead? {
      DeadSticks(Step(q, '"'), "\":");
    }
    QuoteStarts(q);
    if ValueReady(q) {
      NoName();
      RunAppend(q, "\"\"", ":");
      RunWholeString(q, "\"\"");
      var r := EndValue(q, Clip("\"\"", VALUE_LIMIT), true);
      ValueFails(q, Clip("\"\"", VALUE_LIMIT), true);
      if r.Live? {
        ColonFails(r);
        RunCons(r, ':', []);
        RunEmptyInput(Step(r, ':'));
      } else {
        DeadSticks(r, ":");
      }
      assert false;
    }
  }

  lemma QuoteStarts(q: Parser)
    requires q.Live? && q.lex.Idle? && Inv(q) && Step(q, '"').Live?
    ensures KeyReady(q) || ValueReady(q)
  {
    hide LocOf, Selected;
  }

  /** A field name may stand exactly where the recognizer awaits one. */
  lemma NameMeans(u: Bytes)
    ensures NamePlace(u) <==> KeyReady(Run(FRESH, u))
  {
    hide Run, Viable;
    var p, ext: Bytes := Run(FRESH, u), "\n\"\":";
    RunOn(u, ext);
    if KeyReady(p) {
      NamePossible(p);
      IdleViable(u + ext);
    }
    if NamePlace(u) {
      ViableLive(u + ext);
      assert ext == ['\n'] + "\"\":";
      RunCons(p, '\n', "\"\":");
      NameNeeded(p);
    }
  }

  lemma {:induction false} SkipSticks(p: Parser, s: Bytes)
    requires p.keySkipped
    ensures Run(p, s).keySkipped
    decreases |s|
  {
    hide Step;
    if s != [] {
      StepGrows(p, s[0]);
      SkipSticks(Step(p, s[0]), s[1..]);
    }
  }

  lemma KeySkips(p: Parser, tok: Token)
    requires p.Live? && !p.keySkipped
    ensures EndKey(p, tok).keySkipped ==> tok.overflow
  {
    hide Unquote;
  }

  lemma StructureSkips(p: Parser, c: Byte)
    requires p.Live?
    ensures StructureStep(p, c).keySkipped == p.keySkipped
  {
    hide LocOf, Selected, NumStep;
  }

  // Only at the end of a field name that was cut is it noted that one was skipped.
  lemma StepSkips(p: Parser, c: Byte)
    requires !p.keySkipped && Step(p, c).keySkipped
    ensures p.Live? && p.lex.Str? && p.lex.isKey && p.lex.sub.Plain? && c == '"'
    ensures Keep(p.lex.tok, c, KEY_LIMIT).overflow
  {
    hide EndValue, EndKey, StructureStep, Keep;
    if p.Live? {
      match p.lex {
        case Idle =>
          StructureSkips(p, c);
        case Str(isKey, tok, _) =>
          KeySkips(p, Keep(tok, c, Limit(isKey)));
          EndValueKeeps(p, Keep(tok, c, Limit(isKey)), true);
        case Scalar(tok, num) =>
          EndValueKeeps(p, tok, NumComplete(num));
          var q := EndValue(p, tok, NumComplete(num));
          if q.Live? {
            StructureSkips(q, c);
          }
      }
    }
  }

  lemma {:induction false} SkipsAt(s: Bytes) returns (k: nat)
    requires Run(FRESH, s).keySkipped
    ensures k < |s| && !Run(FRESH, s[..k]).keySkipped && Step(Run(FRESH, s[..k]), s[k]).keySkipped
    decreases |s|
  {
    hide Run, Step;
    assert s != [] by { RunEmptyInput(FRESH); }
    var init, c := s[..|s| - 1], s[|s| - 1];
    assert s == init + [c];
    RunSnoc(init, c);
    if Run(FRESH, init).keySkipped {
      k := SkipsAt(init);
      assert init[..k] == s[..k];
    } else {
      k := |s| - 1;
    }
  }

  lemma NameFound(s: Bytes)
    requires Run(FRESH, s).keySkipped
    ensures LongName(s)
  {
    hide Run, Step, NamePlace, Clip, InString, IsString;
    var k := SkipsAt(s);
    var p, c := Run(FRESH, s[..k]), s[k];
    StepSkips(p, c);
    var u, t := Decomposed(s[..k]);
    NameMeans(u);
    StringGrows(p, t, c);
    KeepClip(t, c, KEY_LIMIT);
    LongKeyClip(t + [c]);
    assert s == u + (t + [c]) + s[k + 1..];
  }

  lemma NameNoted(u: Bytes, t: Bytes, rest: Bytes)
    requires NamePlace(u) && IsString(t) && |t| > 128
    ensures Run(FRESH, u + t + rest).keySkipped
  {
    hide Run, Step, NamePlace, KeyReady, PrintString;
    NameMeans(u);
    var xs :| ValidChars(xs) && t == PrintString(xs);
    var p := Run(FRESH, u);
    assert u + t + rest == u + (PrintString(xs) + rest);
    RunOn(u, PrintString(xs) + rest);
    assert p.Live? && p.stack != [] by { NeedsFrame(p); }
    RunKeyToken(p, xs, rest);
    SkipSticks(AtMemberColon(p, xs), rest);
  }

  lemma NeedsFrame(p: Parser)
    requires KeyReady(p)
    ensures p.Live? && p.stack != []
  {
  }

  /** It is noted that a field name was skipped exactly if the input, refused or not, holds one that is too long. */
  lemma SkipMeans(s: Bytes)
    ensures Run(FRESH, s).keySkipped <==> LongName(s)
  {
    hide Run, NamePlace, IsString;
    if Run(FRESH, s).keySkipped {
      NameFound(s);
    }
    if LongName(s) {
      var u, t, rest :| s == u + t + rest && NamePlace(u) && IsString(t) && |t| > 128;
      NameNoted(u, t, rest);
    }
  }

  lemma LongKeyClip(t: Bytes)
    ensures Clip(t, KEY_LIMIT).overflow ==> |t| > 128
  {
  }
}
