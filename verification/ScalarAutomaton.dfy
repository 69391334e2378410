/**
 The byte-at-a-time automaton for numbers and literal names. It keeps no token,
 so it can validate a scalar of any length; it accepts exactly what RFC 8259
 sections 3 and 6 allow, and agrees with whole-token validation.
 */
module ScalarAutomaton {
  import opened Bytes
  import opened Rfc8259

  datatype Num =
    | Start | Minus | Zero | Int | Dot | Frac | E | Sign | Exp
    | Lit(word: Bytes, pos: nat)
    | Fail

  function NumStep(n: Num, c: Byte): Num {
    match n
    case Start =>
      if c == 't' then Lit("true", 1)
      else if c == 'f' then Lit("false", 1)
      else if c == 'n' then Lit("null", 1)
      else if c == '-' then Minus
      else if c == '0' then Zero
      else if IsDigit(c) then Int
      else Fail
    case Minus => if c == '0' then Zero else if IsDigit(c) then Int else Fail
    case Zero => if c == '.' then Dot else if c == 'e' || c == 'E' then E else Fail
    case Int => if c == '.' then Dot else if c == 'e' || c == 'E' then E else if IsDigit(c) then Int else Fail
    case Dot => if IsDigit(c) then Frac else Fail
    case Frac => if c == 'e' || c == 'E' then E else if IsDigit(c) then Frac else Fail
    case E => if c == '+' || c == '-' then Sign else if IsDigit(c) then Exp else Fail
    case Sign => if IsDigit(c) then Exp else Fail
    case Exp => if IsDigit(c) then Exp else Fail
    case Lit(word, pos) => if pos < |word| && c == word[pos] then Lit(word, pos + 1) else Fail
    case Fail => Fail
  }

  function NumRun(n: Num, s: Bytes): Num
    decreases |s|
  {
    if s == [] then n else NumRun(NumStep(n, s[0]), s[1..])
  }

  predicate NumComplete(n: Num) {
    n.Zero? || n.Int? || n.Frac? || n.Exp? || (n.Lit? && n.pos == |n.word|)
  }

  ghost predicate Accepts(n: Num, s: Bytes) {
    NumComplete(NumRun(n, s))
  }

  lemma {:induction false} NumRunAppend(n: Num, a: Bytes, b: Bytes)
    ensures NumRun(n, a + b) == NumRun(NumRun(n, a), b)
    decreases |a|
  {
    if a == [] {
      assert a + b == b;
    } else {
      assert (a + b)[0] == a[0] && (a + b)[1..] == a[1..] + b;
      NumRunAppend(NumStep(n, a[0]), a[1..], b);
    }
  }

  lemma {:induction false} FailSticks(s: Bytes)
    ensures NumRun(Fail, s) == Fail
  {
    if s != [] {
      FailSticks(s[1..]);
    }
  }

  lemma {:induction false} RunDigits(n: Num, s: Bytes)
    requires n in {Int, Frac, Exp} && AllDigits(s)
    ensures NumRun(n, s) == n
  {
    if s != [] {
      RunDigits(n, s[1..]);
    }
  }

  lemma {:induction false} RunLiteral(word: Bytes, pos: nat, s: Bytes)
    requires pos <= |word|
    ensures Accepts(Lit(word, pos), s) <==> s == word[pos..]
    decreases |s|
  {
    if s != [] {
      if pos < |word| && s[0] == word[pos] {
        RunLiteral(word, pos + 1, s[1..]);
        assert s == [s[0]] + s[1..];
        assert word[pos..] == [word[pos]] + word[pos + 1..];
      } else {
        FailSticks(s[1..]);
      }
    }
  }

  // ---- What the grammar prints is accepted -------------------------------------

  lemma RunExp(n: Num, e: Bytes)
    requires IsExp(e) && n in {Zero, Int, Frac}
    ensures Accepts(n, e)
  {
    if e != [] {
      assert NumRun(n, e) == NumRun(E, e[1..]);
      if AllDigits(e[1..]) {
        RunDigits(Exp, e[1..][1..]);
      } else {
        assert e[1..][1..] == e[2..];
        assert NumRun(E, e[1..]) == NumRun(Sign, e[2..]);
        RunDigits(Exp, e[2..][1..]);
      }
    }
  }

  lemma RunFraction(n: Num, f: Bytes, e: Bytes)
    requires IsFrac(f) && IsExp(e) && n in {Zero, Int}
    ensures Accepts(n, f + e)
  {
    NumRunAppend(n, f, e);
    if f == [] {
      RunExp(n, e);
    } else {
      assert NumRun(n, f) == NumRun(Dot, f[1..]) == NumRun(Frac, f[1..][1..]);
      RunDigits(Frac, f[1..][1..]);
      RunExp(Frac, e);
    }
  }

  lemma RunMinus(m: Bytes)
    requires m == [] || m == "-"
    ensures NumRun(Start, m) == if m == [] then Start else Minus
  {
  }

  lemma RunWhole(n: Num, i: Bytes)
    requires IsInt(i) && n in {Start, Minus}
    ensures NumRun(n, i) == if i == "0" then Zero else Int
  {
    assert NumRun(n, i) == NumRun(NumStep(n, i[0]), i[1..]);
    if i != "0" {
      RunDigits(Int, i[1..]);
    }
  }

  lemma NumberAccepted(n: Number)
    requires ValidNumber(n)
    ensures Accepts(Start, PrintNumber(n))
  {
    hide NumRun, NumStep, IsInt, IsFrac, IsExp;
    var i, fe := n.whole, n.frac + n.exp;
    var m := if n.minus == [] then Start else Minus;
    RunMinus(n.minus);
    RunWhole(m, i);
    RunFraction(if i == "0" then Zero else Int, n.frac, n.exp);
    NumRunAppend(m, i, fe);
    NumRunAppend(Start, n.minus, i + fe);
    assert PrintNumber(n) == n.minus + (i + fe);
  }

  // ---- What is accepted, the grammar prints --------------------------------------

  lemma {:induction false} AcceptedDigits(s: Bytes)
    requires Accepts(Exp, s)
    ensures AllDigits(s)
  {
    if s != [] {
      if !IsDigit(s[0]) {
        FailSticks(s[1..]);
      }
      AcceptedDigits(s[1..]);
      assert s == [s[0]] + s[1..];
    }
  }

  lemma AcceptedExp(n: Num, s: Bytes)
    requires n in {Zero, Int, Frac} && Accepts(n, s)
    requires s != [] ==> !IsDigit(s[0]) && s[0] != '.'
    ensures IsExp(s)
  {
    if s != [] {
      if s[0] != 'e' && s[0] != 'E' {
        FailSticks(s[1..]);
      }
      var t := s[1..];
      assert Accepts(E, t);
      assert t != [];
      FailSticks(t[1..]);
      if IsDigit(t[0]) {
        AcceptedDigits(t[1..]);
        assert t == [t[0]] + t[1..];
      } else {
        var u := t[1..];
        assert Accepts(Sign, u) && u == s[2..];
        FailSticks(u[1..]);
        AcceptedDigits(u[1..]);
        assert u == [u[0]] + u[1..];
      }
    }
  }

  // The leading digits of s, and the rest.
  lemma {:induction false} SplitDigits(s: Bytes) returns (d: Bytes, r: Bytes)
    ensures s == d + r && AllDigits(d) && (r != [] ==> !IsDigit(r[0]))
  {
    if s == [] || !IsDigit(s[0]) {
      d, r := [], s;
    } else {
      d, r := SplitDigits(s[1..]);
      d := [s[0]] + d;
    }
  }

  lemma AcceptedFraction(n: Num, s: Bytes) returns (f: Bytes, e: Bytes)
    requires n in {Zero, Int} && Accepts(n, s)
    requires s != [] ==> !IsDigit(s[0])
    ensures s == f + e && IsFrac(f) && IsExp(e)
  {
    if s != [] && s[0] == '.' {
      var t := s[1..];
      assert Accepts(Dot, t);
      FailSticks(t[1..]);
      var d;
      d, e := SplitDigits(t[1..]);
      NumRunAppend(Frac, d, e);
      RunDigits(Frac, d);
      if e != [] && e[0] == '.' {
        FailSticks(e[1..]);
      }
      AcceptedExp(Frac, e);
      f := ['.', t[0]] + d;
      assert s == ['.'] + ([t[0]] + t[1..]);
    } else {
      AcceptedExp(n, s);
      f, e := [], s;
    }
  }

  lemma AcceptedWhole(n: Num, s: Bytes) returns (i: Bytes, r: Bytes)
    requires n in {Start, Minus} && Accepts(n, s) && s != [] && IsDigit(s[0])
    ensures s == i + r && IsInt(i) && (r != [] ==> !IsDigit(r[0]))
    ensures exists k :: k in {Zero, Int} && Accepts(k, r)
  {
    if s[0] == '0' {
      i, r := "0", s[1..];
      assert Accepts(Zero, r);
      if r != [] && IsDigit(r[0]) {
        FailSticks(r[1..]);
      }
    } else {
      var d;
      d, r := SplitDigits(s[1..]);
      NumRunAppend(Int, d, r);
      RunDigits(Int, d);
      assert Accepts(Int, r);
      i := [s[0]] + d;
    }
  }

  lemma AcceptedUnsigned(n: Num, s: Bytes) returns (i: Bytes, f: Bytes, e: Bytes)
    requires n.Start? || n.Minus?
    requires Accepts(n, s) && s != [] && !StartsLiteral(s) && s[0] != '-'
    ensures s == i + (f + e) && IsInt(i) && IsFrac(f) && IsExp(e)
  {
    FailSticks(s[1..]);
    var r;
    i, r := AcceptedWhole(n, s);
    if Accepts(Zero, r) {
      f, e := AcceptedFraction(Zero, r);
    } else {
      f, e := AcceptedFraction(Int, r);
    }
  }

  lemma PrintsAs(s: Bytes, m: Bytes, i: Bytes, f: Bytes, e: Bytes)
    requires ValidNumber(Number(m, i, f, e)) && s == m + (i + (f + e))
    ensures IsNumber(s)
  {
    hide ValidNumber;
    assert PrintNumber(Number(m, i, f, e)) == s;
  }

  lemma AcceptedNumber(s: Bytes)
    requires Accepts(Start, s) && s != [] && !StartsLiteral(s)
    ensures IsNumber(s)
  {
    hide IsNumber, IsInt, IsFrac, IsExp;
    if s[0] == '-' {
      var t := s[1..];
      assert Accepts(Minus, t) && t != [];
      FailSticks(t[1..]);
      var i, f, e := AcceptedUnsigned(Minus, t);
      assert s == ['-'] + t;
      PrintsAs(s, "-", i, f, e);
    } else {
      var i, f, e := AcceptedUnsigned(Start, s);
      assert s == [] + s;
      PrintsAs(s, [], i, f, e);
    }
  }

  predicate StartsLiteral(s: Bytes) {
    s != [] && (s[0] == 't' || s[0] == 'f' || s[0] == 'n')
  }

  lemma AcceptedLiteral(s: Bytes)
    requires StartsLiteral(s)
    ensures Accepts(Start, s) <==> IsLiteralName(s)
  {
    var word: Bytes := if s[0] == 't' then "true" else if s[0] == 'f' then "false" else "null";
    RunLiteral(word, 1, s[1..]);
    assert s == [s[0]] + s[1..] && word == [word[0]] + word[1..];
  }

  /** The automaton accepts exactly the numbers and the literal names, of any length. */
  lemma AcceptsScalars(s: Bytes)
    ensures Accepts(Start, s) <==> IsNumber(s) || IsLiteralName(s)
  {
    if IsNumber(s) {
      var n :| ValidNumber(n) && PrintNumber(n) == s;
      NumberAccepted(n);
    } else if StartsLiteral(s) {
      AcceptedLiteral(s);
    } else if Accepts(Start, s) {
      AcceptedNumber(s);
    }
  }

  // ---- Whole-token validation ------------------------------------------------------

  function Digits(s: Bytes): (k: nat)
    ensures k <= |s|
  {
    if s == [] || !IsDigit(s[0]) then 0 else 1 + Digits(s[1..])
  }

  predicate ExpToken(s: Bytes) {
    s == [] ||
    ((s[0] == 'e' || s[0] == 'E') &&
     var r := if |s| > 1 && (s[1] == '+' || s[1] == '-') then s[2..] else s[1..];
     r != [] && Digits(r) == |r|)
  }

  predicate FractionToken(s: Bytes) {
    if s != [] && s[0] == '.' then
      var k := Digits(s[1..]);
      k > 0 && ExpToken(s[1..][k..])
    else
      ExpToken(s)
  }

  predicate WholeToken(s: Bytes) {
    s != [] &&
    if s[0] == '0' then FractionToken(s[1..]) else Digits(s) > 0 && FractionToken(s[Digits(s)..])
  }

  predicate NumberToken(s: Bytes) {
    WholeToken(if s != [] && s[0] == '-' then s[1..] else s)
  }

  lemma {:induction false} SkipDigits(n: Num, s: Bytes)
    requires n in {Int, Frac, Exp}
    ensures NumRun(n, s) == NumRun(n, s[Digits(s)..])
    ensures AllDigits(s[..Digits(s)])
    ensures Digits(s) < |s| ==> !IsDigit(s[Digits(s)])
  {
    if s != [] && IsDigit(s[0]) {
      SkipDigits(n, s[1..]);
      assert s[Digits(s)..] == s[1..][Digits(s[1..])..];
      assert s[..Digits(s)] == [s[0]] + s[1..][..Digits(s[1..])];
    }
  }

  lemma ExpTokenAccepted(n: Num, s: Bytes)
    requires n == Zero || n == Int || n == Frac
    requires s != [] ==> !IsDigit(s[0]) && s[0] != '.'
    ensures ExpToken(s) <==> Accepts(n, s)
  {
    if s != [] {
      FailSticks(s[1..]);
      if s[0] == 'e' || s[0] == 'E' {
        var t := s[1..];
        assert NumRun(n, s) == NumRun(E, t);
        if t != [] {
          var signed := t[0] == '+' || t[0] == '-';
          var r := if signed then t[1..] else t;
          assert t[0] == s[1] && (signed ==> r == s[2..]);
          assert NumRun(E, t) == NumRun(if signed then Sign else E, r);
          ExpDigitsAccepted(if signed then Sign else E, r);
        }
      }
    }
  }

  lemma ExpDigitsAccepted(n: Num, r: Bytes)
    requires n == Sign || (n == E && r != [] && r[0] != '+' && r[0] != '-')
    ensures (r != [] && Digits(r) == |r|) <==> Accepts(n, r)
  {
    if r != [] {
      FailSticks(r[1..]);
      SkipDigits(Exp, r[1..]);
      var z := r[1..][Digits(r[1..])..];
      if z != [] {
        FailSticks(z[1..]);
      }
    }
  }

  // What may follow the point of a fraction.
  lemma DigitsThenExp(t: Bytes)
    ensures (t != [] && Digits(t) > 0 && ExpToken(t[Digits(t)..])) <==> Accepts(Dot, t)
  {
    hide ExpToken;
    if t != [] {
      FailSticks(t[1..]);
      if IsDigit(t[0]) {
        var z := t[Digits(t)..];
        SkipDigits(Frac, t[1..]);
        assert z == t[1..][Digits(t[1..])..];
        assert NumRun(Dot, t) == NumRun(NumStep(Dot, t[0]), t[1..]) == NumRun(Frac, z);
        if z != [] && z[0] == '.' {
          FailSticks(z[1..]);
          NoPoint(z);
        } else {
          ExpTokenAccepted(Frac, z);
        }
      }
    }
  }

  lemma NoPoint(z: Bytes)
    requires z != [] && z[0] == '.'
    ensures !ExpToken(z)
  {
  }

  lemma FractionTokenAccepted(n: Num, s: Bytes)
    requires n == Zero || n == Int
    requires s != [] && IsDigit(s[0]) ==> n == Zero
    ensures FractionToken(s) <==> Accepts(n, s)
  {
    if s == [] {
    } else if s[0] == '.' {
      assert NumRun(n, s) == NumRun(Dot, s[1..]);
      DigitsThenExp(s[1..]);
    } else if IsDigit(s[0]) {
      FailSticks(s[1..]);
    } else {
      ExpTokenAccepted(n, s);
    }
  }

  lemma WholeTokenAccepted(n: Num, s: Bytes)
    requires n == Minus || (n == Start && !StartsLiteral(s) && (s != [] ==> s[0] != '-'))
    ensures WholeToken(s) <==> Accepts(n, s)
  {
    if s != [] {
      FailSticks(s[1..]);
      if s[0] == '0' {
        FractionTokenAccepted(Zero, s[1..]);
      } else if IsDigit(s[0]) {
        SkipDigits(Int, s[1..]);
        assert s[Digits(s)..] == s[1..][Digits(s[1..])..];
        FractionTokenAccepted(Int, s[Digits(s)..]);
      }
    }
  }

  /** On a whole token, validation and the automaton agree. */
  lemma TokenAgrees(s: Bytes)
    ensures NumberToken(s) || IsLiteralName(s) <==> Accepts(Start, s)
  {
    if StartsLiteral(s) {
      AcceptedLiteral(s);
    } else if s != [] && s[0] == '-' {
      WholeTokenAccepted(Minus, s[1..]);
    } else {
      WholeTokenAccepted(Start, s);
    }
  }
}
