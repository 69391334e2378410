/** The owner's side of a response: reading its fields and counting the request. */
module Usage {
  import opened Bytes
  import opened Options
  import opened Selection
  import opened Rfc8259
  import opened ScalarAutomaton
  import opened JsonMachine
  import opened JsonForward
  import opened JsonTheorems
  import opened SseTheorems
  import opened SseMeaning
  import opened ObserverSession
  import P = PollerSpec

  const INPUT_KEYS: seq<string> := ["usage.prompt_tokens", "usage.input_tokens", "message.usage.input_tokens"]
  const OUTPUT_KEYS: seq<string> :=
    ["usage.completion_tokens", "usage.output_tokens", "message.usage.output_tokens"]

  const MAX_INT64: int := 0x7FFF_FFFF_FFFF_FFFF

  // ---- Token counts -----------------------------------------------------------------

  function DigitsValue(s: Bytes): Option<nat>
    decreases |s|
  {
    if s == [] then Some(0)
    else if !IsDigit(s[|s| - 1]) then None
    else match DigitsValue(s[..|s| - 1])
      case None => None
      case Some(n) => Some(10 * n + (s[|s| - 1] as int - '0' as int))
  }

  // A raw value as a 64-bit integer; fractions, exponents and other kinds of value are refused.
  function Int64(raw: Bytes): Option<int> {
    var negative := raw != [] && raw[0] == '-';
    var digits := if negative then raw[1..] else raw;
    match DigitsValue(digits)
    case None => None
    case Some(n) =>
      var m: int := n;
      var value := if negative then -m else m;
      if digits != [] && -MAX_INT64 - 1 <= value <= MAX_INT64 then Some(value) else None
  }

  // ---- Decimal texts --------------------------------------------------------------------

  // How an integer is written: no leading zero, and a minus sign if it is negative.
  function Decimal(n: nat): Bytes {
    var last := [('0' as int + n % 10) as char];
    if n < 10 then last else Decimal(n / 10) + last
  }

  function DecimalText(i: int): Bytes {
    if i < 0 then ['-'] + Decimal(-i) else Decimal(i)
  }

  lemma {:induction false} DecimalValue(n: nat)
    ensures DigitsValue(Decimal(n)) == Some(n)
    ensures Decimal(n) != [] && IsDigit(Decimal(n)[0]) && (n > 0 ==> Decimal(n)[0] != '0')
  {
    if n >= 10 {
      DecimalValue(n / 10);
      var t := Decimal(n);
      assert t[..|t| - 1] == Decimal(n / 10);
    } else {
      var t := Decimal(n);
      assert t[..|t| - 1] == [];
      assert DigitsValue([]) == Some(0);
    }
  }

  // Digits without a leading zero are the decimal text of their value.
  lemma {:induction false} ValueDecimal(s: Bytes)
    requires s != [] && (s[0] != '0' || |s| == 1)
    ensures DigitsValue(s).Some? ==> s == Decimal(DigitsValue(s).value)
    decreases |s|
  {
    var init, c := s[..|s| - 1], s[|s| - 1];
    assert s == init + [c];
    if |s| == 1 {
      assert DigitsValue([]) == Some(0);
    } else if DigitsValue(s).Some? {
      ValueDecimal(init);
      PositiveValue(init);
      var n, d := DigitsValue(init).value, c as int - '0' as int;
      assert (10 * n + d) / 10 == n && (10 * n + d) % 10 == d;
    }
  }

  lemma {:induction false} PositiveValue(s: Bytes)
    requires s != [] && s[0] != '0' && DigitsValue(s).Some?
    ensures DigitsValue(s).value > 0
    decreases |s|
  {
    if |s| == 1 {
      assert DigitsValue([]) == Some(0);
    } else {
      PositiveValue(s[..|s| - 1]);
    }
  }

  /** A 64-bit integer is read back from its decimal text. */
  lemma Int64OfText(i: int)
    requires -MAX_INT64 - 1 <= i <= MAX_INT64
    ensures Int64(DecimalText(i)) == Some(i)
  {
    DecimalValue(if i < 0 then -i else i);
    if i < 0 {
      assert DecimalText(i)[1..] == Decimal(-i);
    }
  }

  // The digits of a token that is read as an integer have no leading zero.
  lemma NoLeadingZero(raw: Bytes)
    requires IsRaw(raw) && Int64(raw).Some?
    ensures var digits := if raw != [] && raw[0] == '-' then raw[1..] else raw;
            digits != [] && (digits[0] != '0' || |digits| == 1)
  {
    var digits := if raw[0] == '-' then raw[1..] else raw;
    AreDigits(digits);
  }

  lemma {:induction false} AreDigits(s: Bytes)
    requires DigitsValue(s).Some?
    ensures AllDigits(s)
    decreases |s|
  {
    if s != [] {
      AreDigits(s[..|s| - 1]);
    }
  }

  lemma Int64Read(raw: Bytes)
    requires IsRaw(raw) && Int64(raw).Some?
    ensures var i := Int64(raw).value;
            -MAX_INT64 - 1 <= i <= MAX_INT64 && (raw == DecimalText(i) || (raw == "-0" && i == 0))
  {
    hide Decimal, DigitsValue, IsRaw;
    var negative := raw != [] && raw[0] == '-';
    var digits := if negative then raw[1..] else raw;
    NoLeadingZero(raw);
    ValueDecimal(digits);
    assert negative ==> raw == ['-'] + digits;
    assert Decimal(0) == "0" by { DecimalZero(); }
  }

  lemma DecimalZero()
    ensures Decimal(0) == "0" && Int64("-0") == Some(0)
  {
    var raw: Bytes := "-0";
    assert raw[1..] == Decimal(0);
    DecimalValue(0);
  }

  /** An integer is read exactly from its decimal text, or for zero also from minus zero, when it fits 64 bits. */
  lemma Int64Means(raw: Bytes, i: int)
    requires IsRaw(raw)
    ensures Int64(raw) == Some(i) <==>
            -MAX_INT64 - 1 <= i <= MAX_INT64 && (raw == DecimalText(i) || (raw == "-0" && i == 0))
  {
    hide Int64, DecimalText, IsRaw;
    if Int64(raw) == Some(i) {
      Int64Read(raw);
    }
    if -MAX_INT64 - 1 <= i <= MAX_INT64 && raw == DecimalText(i) {
      Int64OfText(i);
    }
    DecimalZero();
  }

  // ---- Fields -----------------------------------------------------------------------------

  predicate Given(f: Fields, key: string) {
    key in f && f[key] != "null"
  }

  function CountOf(f: Fields, key: string): Option<nat> {
    if !Given(f, key) then None
    else match Int64(f[key])
      case None => None
      case Some(n) => if n >= 0 then Some(n) else None
  }

  // A value is given but is not a count.
  predicate Invalid(f: Fields, keys: seq<string>) {
    exists i :: 0 <= i < |keys| && Given(f, keys[i]) && CountOf(f, keys[i]).None?
  }

  predicate Present(f: Fields, keys: seq<string>) {
    exists i :: 0 <= i < |keys| && Given(f, keys[i])
  }

  // The count of the first key that has one.
  function FirstCount(f: Fields, keys: seq<string>): Option<nat>
    decreases |keys|
  {
    if keys == [] then None
    else if CountOf(f, keys[0]).Some? then CountOf(f, keys[0])
    else FirstCount(f, keys[1..])
  }

  function NonEmptyText(f: Fields, key: string, otherwise: string): string {
    if key !in f then otherwise
    else match Unquote(f[key])
      case None => otherwise
      case Some(text) => if text == "" then otherwise else text
  }

  // The model named last by the request, the response and its message.
  function ModelOf(requested: string, f: Fields): string {
    NonEmptyText(f, "message.model", NonEmptyText(f, "model", requested))
  }

  function UsageOutcome(f: Fields): Outcome {
    if Invalid(f, INPUT_KEYS + OUTPUT_KEYS) then ("failed", "invalid_fields")
    else if Present(f, INPUT_KEYS + OUTPUT_KEYS) then ("success", "none")
    else ("skipped", "usage_absent")
  }

  lemma {:induction false} FirstCountFound(f: Fields, keys: seq<string>)
    requires !Invalid(f, keys)
    ensures FirstCount(f, keys).Some? <==> Present(f, keys)
    decreases |keys|
  {
    if keys != [] {
      var rest := keys[1..];
      assert forall i :: 0 <= i < |rest| ==> rest[i] == keys[i + 1];
      assert forall i :: 1 <= i < |keys| ==> keys[i] == rest[i - 1];
      FirstCountFound(f, rest);
      if CountOf(f, keys[0]).Some? {
        assert Given(f, keys[0]);
      }
    }
  }

  // ---- What the counts are ------------------------------------------------------------------

  // The field holds the number n.
  predicate Holds(f: Fields, key: string, n: nat) {
    key in f && n <= MAX_INT64 && (f[key] == DecimalText(n) || (f[key] == "-0" && n == 0))
  }

  // Of three fields, the first one that is given holds n.
  predicate FirstHolds(f: Fields, a: string, b: string, c: string, n: nat) {
    if Given(f, a) then Holds(f, a, n)
    else if Given(f, b) then Holds(f, b, n)
    else Holds(f, c, n)
  }

  lemma CountHeld(f: Fields, key: string, n: nat)
    requires AllRaw(f)
    ensures CountOf(f, key) == Some(n) <==> Holds(f, key, n)
  {
    hide Int64, IsRaw;
    if key in f {
      Int64Means(f[key], n);
      DecimalValue(n);
      assert "null"[0] == 'n' && "-0"[0] == '-';
    }
  }

  /** The input tokens are those of the prompt, or else those of the response, or else of its message. */
  lemma InputsHeld(f: Fields, n: nat)
    requires AllRaw(f) && !Invalid(f, INPUT_KEYS)
    ensures FirstCount(f, INPUT_KEYS) == Some(n) <==>
            FirstHolds(f, "usage.prompt_tokens", "usage.input_tokens", "message.usage.input_tokens", n)
  {
    FirstOfThree(f, INPUT_KEYS, n);
  }

  /** The output tokens are those of the completion, or else those of the response, or else of its message. */
  lemma OutputsHeld(f: Fields, n: nat)
    requires AllRaw(f) && !Invalid(f, OUTPUT_KEYS)
    ensures FirstCount(f, OUTPUT_KEYS) == Some(n) <==>
            FirstHolds(f, "usage.completion_tokens", "usage.output_tokens", "message.usage.output_tokens", n)
  {
    FirstOfThree(f, OUTPUT_KEYS, n);
  }

  lemma FirstOfThree(f: Fields, keys: seq<string>, n: nat)
    requires AllRaw(f) && |keys| == 3 && !Invalid(f, keys)
    ensures FirstCount(f, keys) == Some(n) <==> FirstHolds(f, keys[0], keys[1], keys[2], n)
  {
    hide CountOf, Holds;
    forall i | 0 <= i < 3
      ensures CountOf(f, keys[i]) == Some(n) <==> Holds(f, keys[i], n)
      ensures CountOf(f, keys[i]).Some? <==> Given(f, keys[i])
    {
      CountHeld(f, keys[i], n);
      OnlyGiven(f, keys[i]);
    }
    assert keys[1..][0] == keys[1] && keys[1..][1..][0] == keys[2] && keys[1..][1..][1..] == [];
    assert FirstCount(f, keys[1..][1..]) == CountOf(f, keys[2]);
  }

  lemma NumbersHeld(f: Fields)
    requires !Invalid(f, INPUT_KEYS + OUTPUT_KEYS)
    ensures AllRaw(f) ==>
              forall n: nat ::
                FirstHolds(f, "usage.prompt_tokens", "usage.input_tokens", "message.usage.input_tokens", n) ==>
                  FirstCount(f, INPUT_KEYS) == Some(n)
    ensures AllRaw(f) ==>
              forall n: nat ::
                FirstHolds(f, "usage.completion_tokens", "usage.output_tokens", "message.usage.output_tokens", n) ==>
                  FirstCount(f, OUTPUT_KEYS) == Some(n)
  {
    hide FirstCount, FirstHolds;
    SplitKeys(f, INPUT_KEYS, OUTPUT_KEYS);
    if AllRaw(f) {
      forall n: nat
        ensures FirstHolds(f, "usage.prompt_tokens", "usage.input_tokens", "message.usage.input_tokens", n) ==>
                  FirstCount(f, INPUT_KEYS) == Some(n)
        ensures FirstHolds(f, "usage.completion_tokens", "usage.output_tokens", "message.usage.output_tokens", n) ==>
                  FirstCount(f, OUTPUT_KEYS) == Some(n)
      {
        InputsHeld(f, n);
        OutputsHeld(f, n);
      }
    }
  }

  lemma OnlyGiven(f: Fields, key: string)
    ensures CountOf(f, key).Some? ==> Given(f, key)
  {
  }

  const USAGE_KEYS: set<string> := {
    "usage.prompt_tokens", "usage.input_tokens", "message.usage.input_tokens",
    "usage.completion_tokens", "usage.output_tokens", "message.usage.output_tokens"}

  /** Usage fails exactly if one of six given fields holds no count; it is absent exactly if none of them is given. */
  lemma OutcomeMeans(f: Fields)
    requires AllRaw(f)
    ensures UsageOutcome(f) == ("failed", "invalid_fields") <==>
            exists key :: key in USAGE_KEYS && Given(f, key) && forall n :: !Holds(f, key, n)
    ensures UsageOutcome(f) == ("skipped", "usage_absent") <==> forall key :: key in USAGE_KEYS ==> !Given(f, key)
    ensures UsageOutcome(f) in
              {("failed", "invalid_fields"), ("skipped", "usage_absent"), ("success", "none")}
  {
    hide CountOf, Holds;
    var keys := INPUT_KEYS + OUTPUT_KEYS;
    assert keys == ["usage.prompt_tokens", "usage.input_tokens", "message.usage.input_tokens",
                    "usage.completion_tokens", "usage.output_tokens", "message.usage.output_tokens"];
    assert forall i :: 0 <= i < |keys| ==> keys[i] in USAGE_KEYS;
    assert forall key :: key in USAGE_KEYS ==>
             key == keys[0] || key == keys[1] || key == keys[2] || key == keys[3] || key == keys[4] || key == keys[5];
    forall key | key in USAGE_KEYS
      ensures CountOf(f, key).None? <==> forall n :: !Holds(f, key, n)
    {
      forall n: nat
        ensures CountOf(f, key) == Some(n) <==> Holds(f, key, n)
      {
        CountHeld(f, key, n);
      }
      if CountOf(f, key).Some? {
        assert Holds(f, key, CountOf(f, key).value);
      }
    }
  }

  // The field is a text that is not empty.
  ghost predicate Named(f: Fields, key: string) {
    key in f && exists text :: text != "" && Spells(f[key], text)
  }

  /** The model is the one that the message names, or else the response, or else the request. */
  lemma ModelMeans(requested: string, f: Fields, model: string)
    ensures ModelOf(requested, f) == model <==>
            if Named(f, "message.model") then Spells(f["message.model"], model)
            else if Named(f, "model") then Spells(f["model"], model)
            else model == requested
  {
    NameMeans(f, "message.model", NonEmptyText(f, "model", requested), model);
    NameMeans(f, "model", requested, model);
  }

  lemma NameMeans(f: Fields, key: string, otherwise: string, text: string)
    ensures NonEmptyText(f, key, otherwise) == text <==>
            if Named(f, key) then Spells(f[key], text) else text == otherwise
  {
    hide Unquote, Spells;
    if key in f {
      UnquoteMeans(f[key], text);
      forall t
        ensures Unquote(f[key]) == Some(t) <==> Spells(f[key], t)
      {
        UnquoteMeans(f[key], t);
      }
    }
  }

  /** Usage is reported as a success exactly when nothing given is invalid and an input or output count is observed. */
  lemma SuccessObserves(f: Fields)
    ensures UsageOutcome(f).0 == "success" <==>
            && !Invalid(f, INPUT_KEYS + OUTPUT_KEYS)
            && (FirstCount(f, INPUT_KEYS).Some? || FirstCount(f, OUTPUT_KEYS).Some?)
  {
    SplitKeys(f, INPUT_KEYS, OUTPUT_KEYS);
    if !Invalid(f, INPUT_KEYS + OUTPUT_KEYS) {
      FirstCountFound(f, INPUT_KEYS);
      FirstCountFound(f, OUTPUT_KEYS);
    }
  }

  lemma SplitKeys(f: Fields, a: seq<string>, b: seq<string>)
    ensures Invalid(f, a + b) <==> Invalid(f, a) || Invalid(f, b)
    ensures Present(f, a + b) <==> Present(f, a) || Present(f, b)
  {
    assert forall i :: 0 <= i < |a| ==> (a + b)[i] == a[i];
    assert forall i :: 0 <= i < |b| ==> (a + b)[|a| + i] == b[i];
    if Invalid(f, a + b) {
      var i :| 0 <= i < |a + b| && Given(f, (a + b)[i]) && CountOf(f, (a + b)[i]).None?;
      assert i >= |a| ==> (a + b)[i] == b[i - |a|];
    }
    if Present(f, a + b) {
      var i :| 0 <= i < |a + b| && Given(f, (a + b)[i]);
      assert i >= |a| ==> (a + b)[i] == b[i - |a|];
    }
  }

  // ---- Recording ------------------------------------------------------------------------

  // The metadata of a model comes from the cache.
  datatype Labels = Labels(model: string, info: P.Info, endpoint: string)

  function CountAt(requests: map<Labels, nat>, labels: Labels): nat {
    if labels in requests then requests[labels] else 0
  }

  function Counted(requests: map<Labels, nat>, labels: Labels, n: nat): (r: map<Labels, nat>)
    ensures CountAt(r, labels) == CountAt(requests, labels) + n
    ensures forall l :: l != labels ==> CountAt(r, l) == CountAt(requests, l)
  {
    requests[labels := CountAt(requests, labels) + n]
  }

  class UsageMetrics {
    var requests: map<Labels, nat>
    var inputs: seq<(Labels, nat)>
    var outputs: seq<(Labels, nat)>
    // Token totals of the native endpoints.
    var promptTokens: map<Labels, nat>
    var evalTokens: map<Labels, nat>

    constructor ()
      ensures requests == map[] && inputs == [] && outputs == [] && promptTokens == map[] && evalTokens == map[]
    {
      requests, inputs, outputs, promptTokens, evalTokens := map[], [], [], map[], map[];
    }

    /** Nothing is counted unless every given value is a count; the request is then counted once. */
    method RecordUsage(requested: string, endpoint: string, f: Fields, show: P.Show) returns (outcome: Outcome)
      modifies this`requests, this`inputs, this`outputs
      ensures outcome == UsageOutcome(f)
      ensures outcome.0 == "failed" ==> requests == old(requests) && inputs == old(inputs) && outputs == old(outputs)
      ensures outcome.0 != "failed" ==>
                var model := ModelOf(requested, f);
                var labels := Labels(model, show(model), endpoint);
                && requests == Counted(old(requests), labels, 1)
                && inputs == old(inputs) + Observation(labels, FirstCount(f, INPUT_KEYS))
                && outputs == old(outputs) + Observation(labels, FirstCount(f, OUTPUT_KEYS))
      // The numbers observed are those that the fields hold.
      ensures outcome.0 != "failed" && AllRaw(f) ==>
                forall n: nat ::
                  FirstHolds(f, "usage.prompt_tokens", "usage.input_tokens", "message.usage.input_tokens", n) ==>
                    |inputs| == |old(inputs)| + 1 && inputs[|old(inputs)|].1 == n
      ensures outcome.0 != "failed" && AllRaw(f) ==>
                forall n: nat ::
                  FirstHolds(f, "usage.completion_tokens", "usage.output_tokens", "message.usage.output_tokens", n) ==>
                    |outputs| == |old(outputs)| + 1 && outputs[|old(outputs)|].1 == n
    {
      var model := requested;
      var names := ["model", "message.model"];
      for i := 0 to |names|
        invariant i == 0 ==> model == requested
        invariant i == 1 ==> model == NonEmptyText(f, "model", requested)
        invariant i == 2 ==> model == ModelOf(requested, f)
      {
        model := NonEmptyText(f, names[i], model);
      }
      var keys := INPUT_KEYS + OUTPUT_KEYS;
      var present := false;
      for i := 0 to |keys|
        invariant forall k :: 0 <= k < i ==> !(Given(f, keys[k]) && CountOf(f, keys[k]).None?)
        invariant present <==> exists k :: 0 <= k < i && Given(f, keys[k])
      {
        if Given(f, keys[i]) {
          if CountOf(f, keys[i]).None? {
            return ("failed", "invalid_fields");
          }
          present := true;
        }
      }
      var labels := Labels(model, show(model), endpoint);
      requests := Counted(requests, labels, 1);
      var input := FindCount(f, INPUT_KEYS);
      inputs := inputs + Observation(labels, input);
      var output := FindCount(f, OUTPUT_KEYS);
      outputs := outputs + Observation(labels, output);
      NumbersHeld(f);
      if !present {
        return ("skipped", "usage_absent");
      }
      return ("success", "none");
    }

    /** A finished response of a native endpoint is counted once, and its positive token counts are added up. */
    method RecordGenerate(endpoint: string, f: Fields, show: P.Show) returns (outcome: Outcome)
      modifies this`requests, this`promptTokens, this`evalTokens
      ensures outcome == NativeOutcome(f)
      ensures outcome.0 != "success" ==>
                requests == old(requests) && promptTokens == old(promptTokens) && evalTokens == old(evalTokens)
      ensures outcome.0 == "success" ==>
                var labels := Labels(TextOr(f, "model"), show(TextOr(f, "model")), endpoint);
                var prompt, eval := NumberOr(f, "prompt_eval_count"), NumberOr(f, "eval_count");
                && requests == Counted(old(requests), labels, 1)
                && promptTokens == (if prompt > 0 then Counted(old(promptTokens), labels, prompt)
                                    else old(promptTokens))
                && evalTokens == (if eval > 0 then Counted(old(evalTokens), labels, eval) else old(evalTokens))
      // The numbers added up are those that the fields hold.
      ensures outcome.0 == "success" && AllRaw(f) ==>
                var labels := Labels(TextOr(f, "model"), show(TextOr(f, "model")), endpoint);
                forall n: nat :: n > 0 ==>
                  && (HoldsInteger(f, "prompt_eval_count", n) ==>
                        promptTokens == Counted(old(promptTokens), labels, n))
                  && (HoldsInteger(f, "eval_count", n) ==> evalTokens == Counted(old(evalTokens), labels, n))
    {
      NumbersRead(f);
      if !Decodes(f) {
        return ("failed", "invalid_fields");
      }
      if !("done" in f && f["done"] == "true") {
        return ("skipped", "incomplete");
      }
      var model := TextOr(f, "model");
      var labels := Labels(model, show(model), endpoint);
      var prompt := NumberOr(f, "prompt_eval_count");
      if prompt > 0 {
        promptTokens := Counted(promptTokens, labels, prompt);
      }
      var eval := NumberOr(f, "eval_count");
      if eval > 0 {
        evalTokens := Counted(evalTokens, labels, eval);
      }
      requests := Counted(requests, labels, 1);
      return ("success", "none");
    }
  }

  function Observation(labels: Labels, count: Option<nat>): seq<(Labels, nat)> {
    if count.Some? then [(labels, count.value)] else []
  }

  method FindCount(f: Fields, keys: seq<string>) returns (count: Option<nat>)
    ensures count == FirstCount(f, keys)
  {
    for i := 0 to |keys|
      invariant FirstCount(f, keys) == FirstCount(f, keys[i..])
    {
      var c := CountOf(f, keys[i]);
      if c.Some? {
        return c;
      }
      assert keys[i..][1..] == keys[i + 1..];
    }
    return None;
  }

  // ---- Native endpoints --------------------------------------------------------------------

  const NATIVE_NUMBERS: seq<string> :=
    ["load_duration", "prompt_eval_count", "prompt_eval_duration", "eval_count", "eval_duration"]

  // The fields have the types that the response of a native endpoint gives them; null stands for none.
  predicate Decodes(f: Fields) {
    && (Given(f, "model") ==> Unquote(f["model"]).Some?)
    && (Given(f, "done") ==> f["done"] == "true" || f["done"] == "false")
    && forall i :: 0 <= i < |NATIVE_NUMBERS| && Given(f, NATIVE_NUMBERS[i]) ==> Int64(f[NATIVE_NUMBERS[i]]).Some?
  }

  function TextOr(f: Fields, key: string): string {
    if Given(f, key) && Unquote(f[key]).Some? then Unquote(f[key]).value else ""
  }

  function NumberOr(f: Fields, key: string): int {
    if Given(f, key) && Int64(f[key]).Some? then Int64(f[key]).value else 0
  }

  function NativeOutcome(f: Fields): Outcome {
    if !Decodes(f) then ("failed", "invalid_fields")
    else if !("done" in f && f["done"] == "true") then ("skipped", "incomplete")
    else ("success", "none")
  }

  // The field holds the integer i of 64 bits.
  predicate HoldsInteger(f: Fields, key: string, i: int) {
    key in f && -MAX_INT64 - 1 <= i <= MAX_INT64 && (f[key] == DecimalText(i) || (f[key] == "-0" && i == 0))
  }

  /** A number that a field holds is the integer that it spells; without the field it is zero. */
  lemma NumberHeld(f: Fields, key: string, i: int)
    requires AllRaw(f)
    ensures HoldsInteger(f, key, i) ==> NumberOr(f, key) == i
    ensures !Given(f, key) ==> NumberOr(f, key) == 0
    ensures Given(f, key) ==> (Int64(f[key]) == Some(i) <==> HoldsInteger(f, key, i))
  {
    hide Int64, IsRaw;
    if key in f {
      Int64Means(f[key], i);
      DecimalValue(if i < 0 then -i else i);
      assert "null"[0] == 'n' && "-0"[0] == '-';
    }
  }

  lemma NumbersRead(f: Fields)
    ensures AllRaw(f) ==> forall key, i :: HoldsInteger(f, key, i) ==> NumberOr(f, key) == i
  {
    hide HoldsInteger, NumberOr;
    if AllRaw(f) {
      forall key, i
        ensures HoldsInteger(f, key, i) ==> NumberOr(f, key) == i
      {
        NumberHeld(f, key, i);
      }
    }
  }

  // A field that is given has its type.
  ghost predicate HasType(f: Fields, key: string) {
    Given(f, key) ==>
      if key == "model" then exists text :: Spells(f[key], text)
      else if key == "done" then f[key] == "true" || f[key] == "false"
      else exists i :: HoldsInteger(f, key, i)
  }

  /** A native response succeeds exactly if it is done and seven fields have their types. */
  lemma NativeMeans(f: Fields)
    requires AllRaw(f)
    ensures NativeOutcome(f) == ("failed", "invalid_fields") <==>
            exists key :: key in {"model", "done", "load_duration", "prompt_eval_count", "prompt_eval_duration",
                                  "eval_count", "eval_duration"} && !HasType(f, key)
    ensures NativeOutcome(f) == ("success", "none") ==> "done" in f && f["done"] == "true"
    ensures NativeOutcome(f) == ("skipped", "incomplete") ==> "done" !in f || f["done"] != "true"
    ensures NativeOutcome(f) in {("failed", "invalid_fields"), ("skipped", "incomplete"), ("success", "none")}
  {
    hide Int64, IsRaw, Unquote, Spells, HoldsInteger;
    assert NATIVE_NUMBERS == ["load_duration", "prompt_eval_count", "prompt_eval_duration", "eval_count",
                              "eval_duration"];
    if "model" in f {
      forall text
        ensures Unquote(f["model"]) == Some(text) <==> Spells(f["model"], text)
      {
        UnquoteMeans(f["model"], text);
      }
      assert Unquote(f["model"]).Some? ==> Spells(f["model"], Unquote(f["model"]).value);
    }
    forall k | 0 <= k < |NATIVE_NUMBERS|
      ensures HasType(f, NATIVE_NUMBERS[k]) <==> (Given(f, NATIVE_NUMBERS[k]) ==> Int64(f[NATIVE_NUMBERS[k]]).Some?)
    {
      IntegerTyped(f, NATIVE_NUMBERS[k]);
    }
    assert (HasType(f, NATIVE_NUMBERS[0]) && HasType(f, NATIVE_NUMBERS[1]) && HasType(f, NATIVE_NUMBERS[2])
            && HasType(f, NATIVE_NUMBERS[3]) && HasType(f, NATIVE_NUMBERS[4])
            && HasType(f, "model") && HasType(f, "done")) <==> Decodes(f);
  }

  lemma IntegerTyped(f: Fields, key: string)
    requires AllRaw(f) && key != "model" && key != "done"
    ensures HasType(f, key) <==> (Given(f, key) ==> Int64(f[key]).Some?)
  {
    hide Int64, IsRaw, HoldsInteger;
    forall i
      ensures Given(f, key) ==> (Int64(f[key]) == Some(i) <==> HoldsInteger(f, key, i))
    {
      NumberHeld(f, key, i);
    }
    if Given(f, key) && Int64(f[key]).Some? {
      assert HoldsInteger(f, key, Int64(f[key]).value);
    }
  }

  // ---- Whole responses ------------------------------------------------------------------------

  // The owner of the responses of an endpoint.
  function OwnerOf(native: bool): Owner {
    if native then NativeOutcome else UsageOutcome
  }

  // The sample counts a request.
  predicate Counts(native: bool, f: Fields) {
    if native then NativeOutcome(f).0 == "success" else UsageOutcome(f).0 != "failed"
  }

  // How many requests the samples handed over so far have counted.
  function RequestsCounted(native: bool, emits: seq<Fields>): nat
    decreases |emits|
  {
    if emits == [] then 0
    else RequestsCounted(native, emits[1..]) + if Counts(native, emits[0]) then 1 else 0
  }

  /**
   One response counts at most one request, and exactly when it ended cleanly, its
   meaning counts and so does its sample: for a compatibility endpoint no given value is
   invalid, for a native one every field has its type and the response is done. When it
   was not closed early, the reported result is that of the sample.
   */
  lemma CountedOnce(native: bool, sse: bool, ops: seq<Op>)
    ensures var f := SessionRun(NewSession(sse), ops, OwnerOf(native));
            && RequestsCounted(native, f.emits) <= 1
            && (RequestsCounted(native, f.emits) == 1 <==>
                  && Ending(ops).Eof? && VerdictOn(sse, Content(ops)).Emit?
                  && Counts(native, VerdictOn(sse, Content(ops)).sample))
            && (f.emits != [] && !ClosedEarly(ops) ==> f.results == [OwnerOf(native)(f.emits[0])])
  {
    hide SessionRun, VerdictOn, UsageOutcome, NativeOutcome;
    ExactlyOnce(sse, ops, OwnerOf(native));
  }
}
