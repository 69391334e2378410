/** The recognizer as the source writes it: one object whose methods update its fields. */
module JsonFields {
  import opened Bytes
  import opened Selection
  import opened ScalarAutomaton
  import Rfc8259
  import M = JsonMachine

  const NONE: char := '\0'

  // kind is '{' or '['; state is one of k, K, ':', v, a and ','.
  datatype JsonFrame = JsonFrame(kind: char, state: char, key: string)

  function PosOf(state: char): M.Pos {
    match state
    case 'k' => M.AtFirstKey
    case 'K' => M.AtNextKey
    case ':' => M.AtColon
    case 'v' => M.AtValue
    case 'a' => M.AtFirstElem
    case _ => M.AtSeparator
  }

  function FrameOf(f: JsonFrame): M.Frame {
    M.Frame(f.kind == '{', PosOf(f.state), f.key)
  }

  function FramesOf(s: seq<JsonFrame>): (fs: seq<M.Frame>)
    ensures |fs| == |s| && forall i :: 0 <= i < |s| ==> fs[i] == FrameOf(s[i])
  {
    seq(|s|, i requires 0 <= i < |s| => FrameOf(s[i]))
  }

  ghost predicate GoodFrame(f: JsonFrame) {
    (f.kind == '{' || f.kind == '[') && f.state in {'k', 'K', ':', 'v', 'a', ','}
  }

  function NumOf(number: char, literal: Bytes, pos: nat): Num {
    if literal != [] then Lit(literal, pos)
    else match number
      case '-' => Minus
      case '0' => Zero
      case 'i' => Int
      case '.' => Dot
      case 'f' => Frac
      case 'e' => E
      case 's' => Sign
      case 'd' => Exp
      case _ => Start
  }

  lemma LocOfIndex(s: seq<M.Frame>)
    ensures |M.LocOf(s)| == |s|
    ensures forall i :: 0 <= i < |s| ==> M.LocOf(s)[i] == M.HopOf(s[i])
  {
    if s != [] {
      LocOfIndex(M.Below(s));
    }
  }

  lemma EmptyPathUnwanted()
    ensures !Wanted("")
  {
  }

  lemma NothingBounded()
    ensures M.BoundedFields(map[])
  {
  }

  lemma StoreKeepsBounds(f: Fields, path: string, raw: Bytes)
    requires M.BoundedFields(f) && Wanted(path) && |raw| <= VALUE_LIMIT
    ensures M.BoundedFields(f[path := raw])
  {
  }

  class JsonFields {
    var stack: seq<JsonFrame>
    var token: Bytes
    var mode: char
    var escape: bool
    var unicode: nat
    var number: char
    var literal: Bytes
    var literalPos: nat
    var keyToken: bool
    var overflow: bool
    var bad: bool
    var failure: string
    var keySkipped: bool
    var fields: Fields
    // The maps passed to emit so far.
    var emitted: seq<Fields>

    constructor ()
      ensures Valid() && Parser() == M.FRESH
    {
      stack, token, mode, escape, unicode, number := [], [], NONE, false, 0, NONE;
      literal, literalPos, keyToken, overflow, bad := [], 0, false, false, false;
      failure, keySkipped, fields, emitted := "", false, map[], [];
    }

    function NumNow(): Num
      reads this
    {
      NumOf(number, literal, literalPos)
    }

    ghost predicate NoScalar()
      reads this
    {
      number == NONE && literal == [] && literalPos == 0
    }

    ghost predicate GoodScalar()
      reads this
    {
      && (literal != [] ==> number == NONE && literalPos <= |literal|)
      && number in {NONE, '-', '0', 'i', '.', 'f', 'e', 's', 'd'}
    }

    // The limits on what is stored, of a failed recognizer too.
    ghost predicate Bounded()
      reads this
    {
      && |stack| <= 64 && |token| <= (if keyToken then 128 else 4096)
      && M.BoundedFields(fields)
      && forall i :: 0 <= i < |emitted| ==> M.BoundedFields(emitted[i])
    }

    ghost predicate Valid()
      reads this
    {
      Bounded() && (bad || Sound())
    }

    ghost predicate Sound()
      reads this
    {
      (&& failure == ""
       && (forall i :: 0 <= i < |stack| ==> GoodFrame(stack[i]))
       && (mode != '"' ==> !escape && unicode == 0)
       && (mode == '"' ==> unicode <= 4 && !(escape && unicode > 0))
       && (mode != 's' ==> NoScalar())
       && (mode == 's' ==> GoodScalar() && !keyToken)
       && (if mode == NONE then token == [] && !overflow else (mode == '"' || mode == 's') && stack != []))
    }

    /** Whatever has been fed, and whether or not it has failed: what is retained stays within the limits. */
    lemma RetainsLittle()
      requires Valid()
      ensures |stack| <= 64 && |token| <= (if keyToken then 128 else 4096)
      ensures |fields| <= 16 && forall k :: k in fields ==> |fields[k]| <= 4096
      ensures forall i :: 0 <= i < |emitted| ==>
                |emitted[i]| <= 16 && forall k :: k in emitted[i] ==> |emitted[i][k]| <= 4096
    {
      M.FieldCount(fields);
      forall i | 0 <= i < |emitted|
        ensures |emitted[i]| <= 16 && forall k :: k in emitted[i] ==> |emitted[i][k]| <= 4096
      {
        M.FieldCount(emitted[i]);
      }
    }

    ghost function Lex(): M.Lex
      reads this
    {
      if mode == '"' then
        M.Str(keyToken, M.Token(token, overflow),
              if unicode > 0 then M.Hex(unicode) else if escape then M.Escape else M.Plain)
      else if mode == 's' then M.Scalar(M.Token(token, overflow), NumNow())
      else M.Idle
    }

    // The abstract state.
    ghost function Parser(): M.Parser
      reads this
    {
      if bad then M.Dead(failure, keySkipped, emitted)
      else M.Live(FramesOf(stack), Lex(), keySkipped, if stack == [] then map[] else fields, emitted)
    }

    // The joined names around the current value, or nothing when no selected path can match.
    method Path() returns (p: string)
      ensures Wanted(p) <==> Selected(M.LocOf(FramesOf(stack)))
      ensures Wanted(p) ==> p == Dotted(M.LocOf(FramesOf(stack)))
    {
      LocOfIndex(FramesOf(stack));
      EmptyPathUnwanted();
      if |stack| > 3 {
        return "";
      }
      var i := 0;
      while i < |stack|
        invariant 0 <= i <= |stack|
        invariant forall k :: 0 <= k < i ==> stack[k].kind == '{' && '.' !in stack[k].key
      {
        if stack[i].kind != '{' || '.' in stack[i].key {
          assert !Dottable(M.LocOf(FramesOf(stack))) by {
            assert M.LocOf(FramesOf(stack))[i] == M.HopOf(FrameOf(stack[i]));
          }
          return "";
        }
        i := i + 1;
      }
      match |stack| {
        case 1 => return stack[0].key;
        case 2 => return stack[0].key + "." + stack[1].key;
        case 3 => return stack[0].key + "." + stack[1].key + "." + stack[2].key;
        case _ => return "";
      }
    }

    method Append(c: Byte)
      modifies this`token, this`overflow
      ensures M.Token(token, overflow) == M.Keep(old(M.Token(token, overflow)), c, M.Limit(keyToken))
      ensures old(Bounded()) ==> Bounded()
    {
      var limit := if keyToken then 128 else 4096;
      if |token| < limit {
        token := token + [c];
      } else {
        overflow := true;
      }
    }

    method SetTopState(state: char)
      requires stack != []
      modifies this`stack
      ensures stack == old(stack)[|old(stack)| - 1 := old(stack)[|old(stack)| - 1].(state := state)]
      ensures FramesOf(stack) == M.MoveTop(FramesOf(old(stack)), PosOf(state))
    {
      stack := stack[|stack| - 1 := stack[|stack| - 1].(state := state)];
    }

    method ValueDone()
      requires !bad
      modifies this`stack, this`bad
      ensures bad == (old(stack) == []) && |stack| == |old(stack)|
      ensures !bad ==> |stack| == |old(stack)| && FramesOf(stack) == M.MoveTop(FramesOf(old(stack)), M.AtSeparator)
      ensures !bad && (forall i :: 0 <= i < |old(stack)| ==> GoodFrame(old(stack)[i])) ==>
                forall i :: 0 <= i < |stack| ==> GoodFrame(stack[i])
    {
      if stack == [] {
        bad := true;
        return;
      }
      SetTopState(',');
    }

    // A whole field name has been read.
    method KeyDone()
      requires Valid() && !bad && stack != []
      modifies this`stack, this`keySkipped, this`bad
      ensures bad == (!overflow && M.Unquote(token).None?)
      ensures !bad ==>
                && stack != [] && (forall i :: 0 <= i < |stack| ==> GoodFrame(stack[i]))
                && var key := if overflow then "" else M.Unquote(token).value;
                   FramesOf(stack) == M.Below(FramesOf(old(stack)))
                                      + [M.Frame(M.Top(FramesOf(old(stack))).isObject, M.AtColon, key)]
      ensures keySkipped == (old(keySkipped) || overflow) && |stack| == |old(stack)|
    {
      var top := |stack| - 1;
      if overflow {
        stack := stack[top := stack[top].(key := "")];
        keySkipped := true;
      } else {
        var key := M.Unquote(token);
        if key.None? {
          bad := true;
        } else {
          stack := stack[top := stack[top].(key := key.value)];
        }
      }
      SetTopState(':');
    }

    // A whole value token has been read.
    method ValueScalarDone()
      requires Valid() && !bad && stack != []
      modifies this`stack, this`fields, this`bad, this`failure
      ensures var loc := M.LocOf(FramesOf(old(stack)));
              if Selected(loc) then
                && bad == (overflow || !M.ValidToken(token))
                && failure == (if overflow then "selected_value_limit" else "")
                && (!bad ==> fields == old(fields)[Dotted(loc) := token])
              else
                bad == (mode != '"' && !NumComplete(NumNow())) && failure == "" && fields == old(fields)
      ensures |stack| == |old(stack)| && M.BoundedFields(fields)
      ensures !bad ==>
                && stack != [] && (forall i :: 0 <= i < |stack| ==> GoodFrame(stack[i]))
                && FramesOf(stack) == M.MoveTop(FramesOf(old(stack)), M.AtSeparator)
    {
      hide M.BoundedFields;
      var path := Path();
      if Wanted(path) {
        StoreKeepsBounds(fields, path, token[..if |token| <= VALUE_LIMIT then |token| else VALUE_LIMIT]);
        assert token[..|token|] == token;
        if overflow || !M.ValidToken(token) {
          if overflow {
            failure := "selected_value_limit";
          }
          bad := true;
          return;
        }
        fields := fields[path := token];
      } else if mode != '"' && !ScalarComplete() {
        bad := true;
        return;
      }
      ValueDone();
    }

    /** A whole token has been read. */
    method ScalarDone()
      requires Valid() && !bad && mode != NONE
      requires mode == '"' ==> !escape && unicode == 0
      modifies this
      ensures Valid() && emitted == old(emitted)
      ensures !bad ==> mode == NONE
      ensures var p, tok := old(Parser()), old(M.Token(token, overflow));
              var complete := old(mode) == '"' || NumComplete(old(NumNow()));
              Parser() == if old(keyToken) then M.EndKey(p, tok) else M.EndValue(p, tok, complete)
    {
      hide M.Unquote, M.ValidToken, Selected, NumOf, M.LocOf, FramesOf, FrameOf, M.MoveTop;
      if keyToken {
        KeyDone();
      } else {
        ValueScalarDone();
        if bad {
          return;
        }
      }
      ResetToken();
    }

    method ResetToken()
      modifies this`token, this`mode, this`overflow, this`number, this`literal, this`literalPos
      ensures token == [] && mode == NONE && !overflow && NoScalar()
    {
      token := [];
      mode := NONE;
      overflow := false;
      number := NONE;
      literal := [];
      literalPos := 0;
    }

    predicate ScalarComplete()
      reads this
    {
      if literal != [] then literalPos == |literal|
      else number == '0' || number == 'i' || number == 'f' || number == 'd'
    }

    method ScalarByte(c: Byte)
      requires !bad && GoodScalar()
      modifies this`number, this`literal, this`literalPos, this`bad
      ensures bad == NumStep(old(NumNow()), c).Fail?
      ensures !bad ==> NumNow() == NumStep(old(NumNow()), c)
      ensures !bad ==> GoodScalar()
    {
      var digit := '0' <= c <= '9';
      if literal != [] {
        if literalPos >= |literal| || c != literal[literalPos] {
          bad := true;
        } else {
          literalPos := literalPos + 1;
        }
        return;
      }
      match number {
        case '-' =>
          if c == '0' {
            number := '0';
          } else if digit {
            number := 'i';
          } else {
            bad := true;
          }
        case '0' =>
          if c == '.' {
            number := '.';
          } else if c == 'e' || c == 'E' {
            number := 'e';
          } else {
            bad := true;
          }
        case 'i' =>
          if c == '.' {
            number := '.';
          } else if c == 'e' || c == 'E' {
            number := 'e';
          } else if !digit {
            bad := true;
          }
        case '.' =>
          if digit {
            number := 'f';
          } else {
            bad := true;
          }
        case 'f' =>
          if c == 'e' || c == 'E' {
            number := 'e';
          } else if !digit {
            bad := true;
          }
        case 'e' =>
          if c == '+' || c == '-' {
            number := 's';
          } else if digit {
            number := 'd';
          } else {
            bad := true;
          }
        case 's' =>
          if digit {
            number := 'd';
          } else {
            bad := true;
          }
        case 'd' =>
          if !digit {
            bad := true;
          }
        case _ =>
          if c == 't' {
            literal, literalPos := "true", 1;
          } else if c == 'f' {
            literal, literalPos := "false", 1;
          } else if c == 'n' {
            literal, literalPos := "null", 1;
          } else if c == '-' {
            number := '-';
          } else if c == '0' {
            number := '0';
          } else if digit {
            number := 'i';
          } else {
            bad := true;
          }
      }
    }

    method Close(c: Byte)
      requires Valid() && !bad && mode == NONE && stack != [] && (c == '}' || c == ']')
      modifies this
      ensures Valid() && Parser() == M.Close(old(Parser()), c)
    {
      hide M.BoundedFields;
      var f := stack[|stack| - 1];
      if (c == '}' && f.kind != '{') || (c == ']' && f.kind != '[') {
        bad := true;
        return;
      }
      stack := stack[..|stack| - 1];
      assert FramesOf(stack) == M.Below(FramesOf(old(stack)));
      if stack == [] {
        emitted := emitted + [fields];
      } else {
        ValueDone();
      }
    }

    method StringByte(c: Byte)
      requires Valid() && !bad && mode == '"'
      modifies this
      ensures Valid() && Parser() == M.Step(old(Parser()), c)
    {
      hide M.BoundedFields, FramesOf, M.LocOf, M.ValidToken, M.Unquote, Selected, M.MoveTop;
      Append(c);
      if unicode > 0 {
        if !IsHex(c) {
          bad := true;
        }
        unicode := unicode - 1;
        return;
      }
      if escape {
        escape := false;
        if c == 'u' {
          unicode := 4;
        } else if !Rfc8259.IsEscape(c) {
          bad := true;
        }
        return;
      }
      if c == '\\' {
        escape := true;
        return;
      }
      if c == '"' {
        ScalarDone();
      } else if c < ' ' {
        bad := true;
      }
    }

    // An object or array begins.
    method OpenByte(c: Byte)
      requires Valid() && !bad && mode == NONE && stack != [] && (c == '{' || c == '[')
      modifies this
      ensures Valid() && Parser() == M.ValueStart(old(Parser()), c)
    {
      hide M.LocOf, M.BoundedFields, Wanted;
      keyToken := false;
      var path := Path();
      if Wanted(path) {
        StoreKeepsBounds(fields, path, if c == '{' then "{}" else "[]");
        fields := fields[path := if c == '{' then "{}" else "[]"];
      }
      if |stack| == 64 {
        failure := "depth_limit";
        bad := true;
        return;
      }
      var f := JsonFrame(c, if c == '[' then 'a' else 'k', "");
      assert FramesOf(stack + [f]) == FramesOf(stack) + [FrameOf(f)];
      stack := stack + [f];
    }

    // Where a value may begin.
    method ValueByte(c: Byte)
      requires Valid() && !bad && mode == NONE && stack != []
      modifies this
      ensures Valid() && Parser() == M.ValueStart(old(Parser()), c)
    {
      hide M.LocOf, Selected, M.BoundedFields, FramesOf;
      keyToken := false;
      if c == '{' || c == '[' {
        OpenByte(c);
      } else if c == '"' {
        mode := '"';
        Append(c);
        assert token == [c];
      } else if !M.StartsScalar(c) {
        bad := true;
      } else {
        mode := 's';
        ScalarByte(c);
        Append(c);
        assert token == [c];
      }
    }

    method StructureByte(c: Byte)
      requires Valid() && !bad && mode == NONE
      modifies this
      ensures Valid() && Parser() == M.StructureStep(old(Parser()), c)
    {
      hide M.BoundedFields, M.Close, M.ValueStart, M.KeyStart;
      if c == ' ' || c == '\n' || c == '\r' || c == '\t' {
        return;
      }
      if stack == [] {
        if c != '{' {
          bad := true;
          return;
        }
        NothingBounded();
        fields := map[];
        stack := [JsonFrame('{', 'k', "")];
        assert FramesOf(stack) == [M.Frame(true, M.AtFirstKey, "")];
        return;
      }
      var f := stack[|stack| - 1];
      match f.state {
        case 'k' =>
          if c == '}' {
            Close(c);
            return;
          }
          KeyByte(c);
        case 'K' =>
          KeyByte(c);
        case ':' =>
          if c != ':' {
            bad := true;
            return;
          }
          SetTopState('v');
        case ',' =>
          if c == '}' || c == ']' {
            Close(c);
            return;
          }
          if c != ',' {
            bad := true;
            return;
          }
          SetTopState(if f.kind == '{' then 'K' else 'v');
        case _ =>
          if c == ']' && f.state == 'a' {
            Close(c);
            return;
          }
          ValueByte(c);
      }
    }

    method KeyByte(c: Byte)
      requires Valid() && !bad && mode == NONE && stack != []
      modifies this
      ensures Valid() && Parser() == M.KeyStart(old(Parser()), c)
    {
      hide M.BoundedFields, FramesOf;
      if c != '"' {
        bad := true;
        return;
      }
      keyToken := true;
      mode := '"';
      Append(c);
      assert token == [c];
    }

    /** One byte of input. The byte that ends a bare scalar is handled a second time, as structure. */
    method Byte(c: Byte)
      requires Valid()
      modifies this
      ensures Valid() && Parser() == M.Step(old(Parser()), c)
      decreases if !bad && mode == 's' then 1 else 0
    {
      hide M.BoundedFields, M.StructureStep, M.StringStep, M.EndValue, FramesOf;
      if bad {
        return;
      }
      if mode == '"' {
        StringByte(c);
      } else if mode == 's' {
        if c == ',' || c == '}' || c == ']' || c == ' ' || c == '\n' || c == '\r' || c == '\t' {
          ScalarDone();
          Byte(c);
        } else {
          ScalarByte(c);
          Append(c);
        }
      } else {
        StructureByte(c);
      }
    }

    method Feed(data: Bytes)
      requires Valid()
      modifies this
      ensures Valid() && Parser() == M.Run(old(Parser()), data)
    {
      for i := 0 to |data|
        invariant Valid() && Parser() == M.Run(old(Parser()), data[..i])
      {
        Byte(data[i]);
        M.RunAppend(old(Parser()), data[..i], [data[i]]);
        assert data[..i + 1] == data[..i] + [data[i]];
      }
      assert data[..|data|] == data;
    }

    predicate Complete()
      reads this
    {
      !bad && |stack| == 0 && mode == NONE
    }

    function FailureReason(): (r: string)
      requires Valid()
      reads this
      ensures r == M.FailureReason(Parser())
    {
      if failure != "" then failure
      else if bad then "malformed"
      else "incomplete"
    }
  }
}
