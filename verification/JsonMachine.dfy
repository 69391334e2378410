/**
 The recognizer as a state machine over single bytes. A state keeps only what
 the rest of the input can depend on: fields that the source leaves set between
 tokens, or after a failure, are not part of it.
 */
module JsonMachine {
  import opened Bytes
  import opened Options
  import opened Rfc8259
  import opened Selection
  import opened ScalarAutomaton

  datatype Pos = AtFirstKey | AtNextKey | AtColon | AtValue | AtFirstElem | AtSeparator
  datatype Frame = Frame(isObject: bool, pos: Pos, key: string)

  // The stored beginning of a token, and whether some of it was dropped.
  datatype Token = Token(kept: Bytes, overflow: bool)
  datatype Sub = Plain | Escape | Hex(left: nat)
  datatype Lex = Idle | Str(isKey: bool, tok: Token, sub: Sub) | Scalar(tok: Token, num: Num)

  datatype Parser =
    | Dead(failure: string, keySkipped: bool, out: seq<Fields>)
    | Live(stack: seq<Frame>, lex: Lex, keySkipped: bool, fields: Fields, out: seq<Fields>)

  const FRESH: Parser := Live([], Idle, false, map[], [])

  function Limit(isKey: bool): nat {
    if isKey then KEY_LIMIT else VALUE_LIMIT
  }

  function Keep(t: Token, c: Byte, limit: nat): Token {
    if |t.kept| < limit then Token(t.kept + [c], t.overflow) else Token(t.kept, true)
  }

  // ---- Tokens to strings -------------------------------------------------------

  // The text after an opening quote, up to a closing quote that ends the token.
  function UnquoteBody(s: Bytes): Option<string>
    decreases |s|
  {
    if s == [] then None
    else if s[0] == '"' then (if |s| == 1 then Some("") else None)
    else if s[0] == '\\' then
      if |s| < 2 then None
      else if s[1] == 'u' then
        if |s| >= 6 && IsHex(s[2]) && IsHex(s[3]) && IsHex(s[4]) && IsHex(s[5])
        then Push(DecodeHex(s[2], s[3], s[4], s[5]), UnquoteBody(s[6..]))
        else None
      else if IsEscape(s[1]) then Push(DecodeEscape(s[1]), UnquoteBody(s[2..]))
      else None
    else if s[0] < ' ' then None
    else Push(DecodeRaw(s[0]), UnquoteBody(s[1..]))
  }

  function Push(c: char, s: Option<string>): Option<string> {
    match s
    case None => None
    case Some(t) => Some([c] + t)
  }

  // The text of a string token.
  function Unquote(t: Bytes): Option<string> {
    if t == [] || t[0] != '"' then None else UnquoteBody(t[1..])
  }

  // Validity of a token that does not begin with white space, '{' or '['.
  predicate ValidToken(t: Bytes) {
    Unquote(t).Some? || NumberToken(t) || IsLiteralName(t)
  }

  // ---- Frames --------------------------------------------------------------------

  function HopOf(f: Frame): Hop {
    if f.isObject then Key(f.key) else Index
  }

  function Below(stack: seq<Frame>): seq<Frame>
    requires stack != []
  {
    stack[..|stack| - 1]
  }

  function LocOf(stack: seq<Frame>): Loc {
    if stack == [] then [] else LocOf(Below(stack)) + [HopOf(Top(stack))]
  }

  function Top(stack: seq<Frame>): Frame
    requires stack != []
  {
    stack[|stack| - 1]
  }

  function MoveTop(stack: seq<Frame>, pos: Pos): seq<Frame>
    requires stack != []
  {
    Below(stack) + [Top(stack).(pos := pos)]
  }

  // ---- One byte --------------------------------------------------------------------

  function Die(p: Parser, failure: string): Parser {
    Dead(failure, p.keySkipped, p.out)
  }

  function Step(p: Parser, c: Byte): Parser {
    if p.Dead? then p
    else match p.lex
      case Str(isKey, tok, sub) => StringStep(p, isKey, Keep(tok, c, Limit(isKey)), sub, c)
      case Scalar(tok, num) =>
        if IsDelim(c) then
          var q := EndValue(p, tok, NumComplete(num));
          if q.Live? then StructureStep(q, c) else q
        else
          var next := NumStep(num, c);
          if next.Fail? then Die(p, "") else p.(lex := Scalar(Keep(tok, c, VALUE_LIMIT), next))
      case Idle => StructureStep(p, c)
  }

  function StringStep(p: Parser, isKey: bool, tok: Token, sub: Sub, c: Byte): Parser
    requires p.Live?
  {
    match sub
    case Hex(left) =>
      if !IsHex(c) then Die(p, "")
      else p.(lex := Str(isKey, tok, if left > 1 then Hex(left - 1) else Plain))
    case Escape =>
      if c == 'u' then p.(lex := Str(isKey, tok, Hex(4)))
      else if IsEscape(c) then p.(lex := Str(isKey, tok, Plain))
      else Die(p, "")
    case Plain =>
      if c == '\\' then p.(lex := Str(isKey, tok, Escape))
      else if c == '"' then (if isKey then EndKey(p, tok) else EndValue(p, tok, true))
      else if c < ' ' then Die(p, "")
      else p.(lex := Str(isKey, tok, Plain))
  }

  // A field name is complete.
  function EndKey(p: Parser, tok: Token): Parser
    requires p.Live?
  {
    if p.stack == [] then Die(p, "")
    else
      var name := if tok.overflow then Some("") else Unquote(tok.kept);
      match name
      case None => Die(p, "")
      case Some(key) =>
        var top := Frame(Top(p.stack).isObject, AtColon, key);
        p.(stack := Below(p.stack) + [top], lex := Idle, keySkipped := p.keySkipped || tok.overflow)
  }

  // A string, number or literal name is complete as far as its automaton knows.
  function EndValue(p: Parser, tok: Token, complete: bool): Parser
    requires p.Live?
  {
    if p.stack == [] then Die(p, "")
    else
      var loc := LocOf(p.stack);
      if Selected(loc) then
        if tok.overflow then Die(p, "selected_value_limit")
        else if !ValidToken(tok.kept) then Die(p, "")
        else p.(fields := p.fields[Dotted(loc) := tok.kept], lex := Idle, stack := MoveTop(p.stack, AtSeparator))
      else if !complete then Die(p, "")
      else p.(lex := Idle, stack := MoveTop(p.stack, AtSeparator))
  }

  // A byte between tokens.
  function StructureStep(p: Parser, c: Byte): Parser
    requires p.Live?
  {
    if IsWs(c) then p
    else if p.stack == [] then
      if c == '{' then p.(stack := [Frame(true, AtFirstKey, "")], fields := map[]) else Die(p, "")
    else
      match Top(p.stack).pos
      case AtFirstKey => if c == '}' then Close(p, c) else KeyStart(p, c)
      case AtNextKey => KeyStart(p, c)
      case AtColon => if c == ':' then p.(stack := MoveTop(p.stack, AtValue)) else Die(p, "")
      case AtSeparator =>
        if c == '}' || c == ']' then Close(p, c)
        else if c == ',' then
          p.(stack := MoveTop(p.stack, if Top(p.stack).isObject then AtNextKey else AtValue))
        else Die(p, "")
      case AtFirstElem => if c == ']' then Close(p, c) else ValueStart(p, c)
      case AtValue => ValueStart(p, c)
  }

  function KeyStart(p: Parser, c: Byte): Parser
    requires p.Live?
  {
    if c == '"' then p.(lex := Str(true, Token([c], false), Plain)) else Die(p, "")
  }

  predicate StartsScalar(c: Byte) {
    c == '-' || IsDigit(c) || c == 't' || c == 'f' || c == 'n'
  }

  function ValueStart(p: Parser, c: Byte): Parser
    requires p.Live? && p.stack != []
  {
    if c == '{' || c == '[' then
      var loc := LocOf(p.stack);
      var raw: Bytes := if c == '{' then "{}" else "[]";
      if |p.stack| == DEPTH_LIMIT then Die(p, "depth_limit")
      else
        p.(fields := if Selected(loc) then p.fields[Dotted(loc) := raw] else p.fields,
           stack := p.stack + [Frame(c == '{', if c == '{' then AtFirstKey else AtFirstElem, "")])
    else if c == '"' then p.(lex := Str(false, Token([c], false), Plain))
    else if StartsScalar(c) then p.(lex := Scalar(Token([c], false), NumStep(Start, c)))
    else Die(p, "")
  }

  // An object or array ends; a root object is handed over.
  function Close(p: Parser, c: Byte): Parser
    requires p.Live? && p.stack != []
  {
    var below := Below(p.stack);
    if (c == '}') != Top(p.stack).isObject then Die(p, "")
    else if below == [] then p.(stack := [], fields := map[], out := p.out + [p.fields])
    else p.(stack := MoveTop(below, AtSeparator))
  }

  // ---- Whole inputs -------------------------------------------------------------------

  function Run(p: Parser, s: Bytes): Parser
    decreases |s|
  {
    if s == [] then p else Run(Step(p, s[0]), s[1..])
  }

  predicate Complete(p: Parser) {
    p.Live? && p.stack == [] && p.lex.Idle?
  }

  function FailureReason(p: Parser): string {
    if p.Dead? then (if p.failure != "" then p.failure else "malformed") else "incomplete"
  }

  lemma {:induction false} RunAppend(p: Parser, a: Bytes, b: Bytes)
    ensures Run(p, a + b) == Run(Run(p, a), b)
    decreases |a|
  {
    if a == [] {
      assert a + b == b;
    } else {
      assert (a + b)[0] == a[0] && (a + b)[1..] == a[1..] + b;
      RunAppend(Step(p, a[0]), a[1..], b);
    }
  }

  lemma {:induction false} DeadSticks(p: Parser, s: Bytes)
    requires p.Dead?
    ensures Run(p, s) == p
    decreases |s|
  {
    if s != [] {
      DeadSticks(p, s[1..]);
    }
  }

  // ---- What every reachable state keeps -------------------------------------------------

  ghost predicate BoundedFields(f: Fields) {
    forall k :: k in f ==> Wanted(k) && |f[k]| <= VALUE_LIMIT
  }

  ghost predicate FramesOk(stack: seq<Frame>) {
    forall i :: 0 <= i < |stack| ==>
      && (stack[i].pos.AtFirstKey? || stack[i].pos.AtNextKey? || stack[i].pos.AtColon? ==> stack[i].isObject)
      && (stack[i].pos.AtFirstElem? ==> !stack[i].isObject)
  }

  ghost predicate LexOk(stack: seq<Frame>, lex: Lex) {
    match lex
    case Idle => true
    case Str(isKey, tok, sub) =>
      && stack != [] && |tok.kept| <= Limit(isKey)
      && (if isKey then Top(stack).pos.AtFirstKey? || Top(stack).pos.AtNextKey?
          else Top(stack).pos.AtValue? || Top(stack).pos.AtFirstElem?)
      && (sub.Hex? ==> 1 <= sub.left <= 4)
    case Scalar(tok, num) =>
      && stack != [] && |tok.kept| <= VALUE_LIMIT && !num.Fail? && !num.Start?
      && (Top(stack).pos.AtValue? || Top(stack).pos.AtFirstElem?)
  }

  ghost predicate Inv(p: Parser) {
    && (forall i :: 0 <= i < |p.out| ==> BoundedFields(p.out[i]))
    && (p.Live? ==>
          && |p.stack| <= DEPTH_LIMIT && (p.stack != [] ==> p.stack[0].isObject)
          && FramesOk(p.stack) && LexOk(p.stack, p.lex)
          && BoundedFields(p.fields)
          && (p.stack == [] ==> p.fields == map[]))
  }

  lemma {:induction false} DistinctBound<T>(a: set<T>, s: seq<T>)
    requires forall x :: x in a ==> x in s
    ensures |a| <= |s|
    decreases |s|
  {
    if s == [] {
      assert a == {};
    } else {
      DistinctBound(a - {s[0]}, s[1..]);
    }
  }

  /** A map of selected fields has at most sixteen entries, each of at most 4096 bytes. */
  lemma FieldCount(f: Fields)
    requires BoundedFields(f)
    ensures |f| <= 16
    ensures forall k :: k in f ==> |f[k]| <= 4096
  {
    DistinctBound(f.Keys, WANTED);
  }

  lemma MoveTopInv(p: Parser, pos: Pos)
    requires p.Live? && p.lex.Idle? && p.stack != [] && Inv(p)
    requires pos.AtNextKey? || pos.AtColon? ==> Top(p.stack).isObject
    requires !pos.AtFirstKey? && !pos.AtFirstElem?
    ensures Inv(p.(stack := MoveTop(p.stack, pos)))
  {
  }

  lemma EndValueInv(p: Parser, tok: Token, complete: bool)
    requires p.Live? && p.stack != [] && Inv(p.(lex := Idle))
    requires |tok.kept| <= VALUE_LIMIT
    ensures Inv(EndValue(p, tok, complete))
  {
    var f := p.fields;
    var loc := LocOf(p.stack);
    if Selected(loc) {
      f := p.fields[Dotted(loc) := tok.kept];
      assert forall k :: k in f ==> k == Dotted(loc) || k in p.fields;
      assert BoundedFields(f);
    }
    MoveTopInv(p.(lex := Idle, fields := f), AtSeparator);
  }

  lemma CloseInv(p: Parser, c: Byte)
    requires p.Live? && p.lex.Idle? && p.stack != [] && Inv(p)
    ensures Inv(Close(p, c))
  {
    var below := Below(p.stack);
    if below != [] {
      MoveTopInv(p.(stack := below), AtSeparator);
    }
  }

  lemma ValueStartInv(p: Parser, c: Byte)
    requires p.Live? && p.lex.Idle? && p.stack != [] && Inv(p)
    requires Top(p.stack).pos.AtValue? || Top(p.stack).pos.AtFirstElem?
    ensures Inv(ValueStart(p, c))
  {
    var loc := LocOf(p.stack);
    var raw: Bytes := if c == '{' then "{}" else "[]";
    if Selected(loc) {
      var f := p.fields[Dotted(loc) := raw];
      assert forall k :: k in f ==> k == Dotted(loc) || k in p.fields;
      assert BoundedFields(f);
    }
  }

  lemma StructureStepInv(p: Parser, c: Byte)
    requires p.Live? && p.lex.Idle? && Inv(p)
    ensures Inv(StructureStep(p, c))
  {
    if p.stack != [] {
      var top := Top(p.stack);
      CloseInv(p, c);
      if top.pos.AtFirstElem? || top.pos.AtValue? {
        ValueStartInv(p, c);
      } else if top.pos.AtColon? {
        MoveTopInv(p, AtValue);
      } else if top.pos.AtSeparator? {
        MoveTopInv(p, if top.isObject then AtNextKey else AtValue);
      }
    }
  }

  lemma StringStepInv(p: Parser, isKey: bool, tok: Token, sub: Sub, c: Byte)
    requires p.Live? && Inv(p.(lex := Str(isKey, tok, sub)))
    ensures Inv(StringStep(p, isKey, tok, sub, c))
  {
    if sub.Plain? && c == '"' && !isKey {
      EndValueInv(p, tok, true);
    }
  }

  lemma ScalarStepInv(p: Parser, tok: Token, num: Num, c: Byte)
    requires p.Live? && p.lex == Scalar(tok, num) && Inv(p)
    ensures Inv(Step(p, c))
  {
    var q := EndValue(p, tok, NumComplete(num));
    EndValueInv(p, tok, NumComplete(num));
    if q.Live? {
      StructureStepInv(q, c);
    }
  }

  /**
   Over inputs of any length the state stays bounded: at most 64 frames, 128
   bytes of a field name, 4096 bytes of a value, and only selected fields.
   */
  lemma StepInv(p: Parser, c: Byte)
    requires Inv(p)
    ensures Inv(Step(p, c))
  {
    if p.Live? {
      match p.lex {
        case Str(isKey, tok, sub) => StringStepInv(p, isKey, Keep(tok, c, Limit(isKey)), sub, c);
        case Scalar(tok, num) => ScalarStepInv(p, tok, num, c);
        case Idle => StructureStepInv(p, c);
      }
    }
  }

  lemma {:induction false} RunInv(p: Parser, s: Bytes)
    requires Inv(p)
    ensures Inv(Run(p, s))
    decreases |s|
  {
    if s != [] {
      StepInv(p, s[0]);
      RunInv(Step(p, s[0]), s[1..]);
    }
  }

  ghost predicate Grows(p: Parser, q: Parser) {
    p.out <= q.out && |q.out| <= |p.out| + 1 && (p.keySkipped ==> q.keySkipped)
  }

  lemma StructureStepGrows(p: Parser, c: Byte)
    requires p.Live?
    ensures Grows(p, StructureStep(p, c))
  {
  }

  lemma EndValueKeeps(p: Parser, tok: Token, complete: bool)
    requires p.Live?
    ensures EndValue(p, tok, complete).out == p.out && EndValue(p, tok, complete).keySkipped == p.keySkipped
  {
  }

  /** One byte completes at most one object, and what was reported stays reported. */
  lemma StepGrows(p: Parser, c: Byte)
    ensures Grows(p, Step(p, c))
  {
    if p.Live? {
      match p.lex {
        case Str(isKey, tok, sub) => EndValueKeeps(p, Keep(tok, c, Limit(isKey)), true);
        case Scalar(tok, num) =>
          EndValueKeeps(p, tok, NumComplete(num));
          var q := EndValue(p, tok, NumComplete(num));
          if q.Live? {
            StructureStepGrows(q, c);
          }
        case Idle => StructureStepGrows(p, c);
      }
    }
  }
}
