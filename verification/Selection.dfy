/**
 What the recognizer is meant to extract from a JSON tree: for each selected
 key path, the encoded bytes of the last value found at exactly that path.
 */
module Selection {
  import opened Bytes
  import opened Rfc8259

  const DEPTH_LIMIT: nat := 64
  const KEY_LIMIT: nat := 128
  const VALUE_LIMIT: nat := 4096

  // Selected values by dotted path, as raw JSON.
  type Fields = map<string, Bytes>

  // ---- Decoding string tokens ---------------------------------------------------

  // A decoded string is compared only with ASCII text and searched only for a
  // dot, so every character outside ASCII is represented by U+FFFD.
  function DecodeRaw(c: Byte): char {
    if c as int < 128 then c else '\U{FFFD}'
  }

  function DecodeEscape(c: Byte): char {
    match c
    case 'b' => '\U{8}'
    case 'f' => '\U{C}'
    case 'n' => '\n'
    case 'r' => '\r'
    case 't' => '\t'
    case _ => DecodeRaw(c)
  }

  function DecodeHex(a: Byte, b: Byte, c: Byte, d: Byte): char {
    var code := ((HexValue(a) * 16 + HexValue(b)) * 16 + HexValue(c)) * 16 + HexValue(d);
    if code < 128 then code as char else '\U{FFFD}'
  }

  ghost function DecodeChar(x: StrChar): char {
    match x
    case Raw(c) => DecodeRaw(c)
    case Escaped(c) => DecodeEscape(c)
    case Unicode(a, b, c, d) => DecodeHex(a, b, c, d)
  }

  ghost function Decode(xs: seq<StrChar>): string {
    if xs == [] then [] else [DecodeChar(xs[0])] + Decode(xs[1..])
  }

  // A field name longer than the limit is recorded as the empty name, which
  // occurs in no selected path.
  ghost function KeyName(xs: seq<StrChar>): string {
    if |PrintString(xs)| > 128 then "" else Decode(xs)
  }

  // ---- Selected paths --------------------------------------------------------------

  datatype Hop = Index | Key(name: string)
  type Loc = seq<Hop>

  const WANTED: seq<string> := [
    "model", "done", "error", "type", "load_duration", "eval_count", "eval_duration",
    "prompt_eval_count", "prompt_eval_duration", "usage.prompt_tokens",
    "usage.completion_tokens", "usage.input_tokens", "usage.output_tokens",
    "message.model", "message.usage.input_tokens", "message.usage.output_tokens"]

  predicate Wanted(path: string) {
    path in WANTED
  }

  // The path of a location that lies under objects only, with no dot in a name.
  predicate Dottable(loc: Loc) {
    1 <= |loc| <= 3 && forall i :: 0 <= i < |loc| ==> loc[i].Key? && '.' !in loc[i].name
  }

  function Dotted(loc: Loc): string
    requires Dottable(loc)
  {
    match |loc|
    case 1 => loc[0].name
    case 2 => loc[0].name + "." + loc[1].name
    case _ => loc[0].name + "." + loc[1].name + "." + loc[2].name
  }

  predicate Selected(loc: Loc) {
    Dottable(loc) && Wanted(Dotted(loc))
  }

  // ---- Occurrences in document order -------------------------------------------------

  datatype Occurrence = Occurrence(loc: Loc, raw: Bytes)

  ghost function Occurrences(v: Value, loc: Loc): seq<Occurrence> {
    match v
    case Text(xs) => [Occurrence(loc, PrintString(xs))]
    case Bare(t) => [Occurrence(loc, t)]
    case EmptyObject(_) => [Occurrence(loc, "{}")]
    case Object(ms) => [Occurrence(loc, "{}")] + MemberOccurrences(ms, loc)
    case EmptyArray(_) => [Occurrence(loc, "[]")]
    case Array(es) => [Occurrence(loc, "[]")] + ElemOccurrences(es, loc)
  }

  ghost function MemberOccurrences(ms: Members, loc: Loc): seq<Occurrence> {
    match ms
    case LastMember(m) => Occurrences(m.value, loc + [Key(KeyName(m.key))])
    case MoreMembers(m, rest) =>
      Occurrences(m.value, loc + [Key(KeyName(m.key))]) + MemberOccurrences(rest, loc)
  }

  ghost function ElemOccurrences(es: Elems, loc: Loc): seq<Occurrence> {
    match es
    case LastElem(e) => Occurrences(e.value, loc + [Index])
    case MoreElems(e, rest) => Occurrences(e.value, loc + [Index]) + ElemOccurrences(rest, loc)
  }

  // The occurrences inside a root object; the root itself has no path.
  ghost function RootOccurrences(v: Value): seq<Occurrence> {
    if v.Object? then MemberOccurrences(v.members, []) else []
  }

  ghost predicate Fits(occs: seq<Occurrence>) {
    forall i :: 0 <= i < |occs| && Selected(occs[i].loc) ==> |occs[i].raw| <= 4096
  }

  // Some field name is longer than the limit.
  ghost predicate LongKey(v: Value) {
    match v
    case Object(ms) => LongKeyMembers(ms)
    case Array(es) => LongKeyElems(es)
    case _ => false
  }

  ghost predicate LongKeyMembers(ms: Members) {
    match ms
    case LastMember(m) => |PrintString(m.key)| > 128 || LongKey(m.value)
    case MoreMembers(m, rest) => |PrintString(m.key)| > 128 || LongKey(m.value) || LongKeyMembers(rest)
  }

  ghost predicate LongKeyElems(es: Elems) {
    match es
    case LastElem(e) => LongKey(e.value)
    case MoreElems(e, rest) => LongKey(e.value) || LongKeyElems(rest)
  }

  // ---- Last occurrence wins ---------------------------------------------------------

  // The occurrences written into a map one after the other.
  ghost function Record(f: Fields, occs: seq<Occurrence>): Fields
    decreases |occs|
  {
    if occs == [] then f
    else
      var o := occs[0];
      Record(if Selected(o.loc) then f[Dotted(o.loc) := o.raw] else f, occs[1..])
  }

  ghost function Extract(v: Value): Fields {
    Record(map[], RootOccurrences(v))
  }

  // Occurrence i is the last one at its location.
  ghost predicate IsLast(occs: seq<Occurrence>, i: int) {
    0 <= i < |occs| && forall j :: i < j < |occs| ==> occs[j].loc != occs[i].loc
  }

  lemma {:induction false} RecordAppend(f: Fields, a: seq<Occurrence>, b: seq<Occurrence>)
    ensures Record(f, a + b) == Record(Record(f, a), b)
    decreases |a|
  {
    if a == [] {
      assert a + b == b;
    } else {
      assert (a + b)[0] == a[0] && (a + b)[1..] == a[1..] + b;
      var f' := if Selected(a[0].loc) then f[Dotted(a[0].loc) := a[0].raw] else f;
      RecordAppend(f', a[1..], b);
    }
  }

  // ---- Joining dot-free names is injective ----------------------------------------------

  lemma CutAtDot(a: string, x: string, b: string, y: string)
    requires '.' !in a && '.' !in b
    requires a + "." + x == b + "." + y
    ensures a == b && x == y
  {
    var s := a + "." + x;
    assert s[|a|] == '.' && s[|b|] == '.';
    assert forall i :: 0 <= i < |a| ==> s[i] == a[i];
    assert forall i :: 0 <= i < |b| ==> s[i] == b[i];
    assert |a| == |b|;
    assert s[..|a|] == a && s[..|b|] == b;
    assert s[|a| + 1..] == x && s[|b| + 1..] == y;
  }

  // The number of names in a joined path.
  ghost function Dots(s: string): nat {
    if s == [] then 0 else (if s[0] == '.' then 1 else 0) + Dots(s[1..])
  }

  lemma {:induction false} DotsFree(a: string)
    requires '.' !in a
    ensures Dots(a) == 0
  {
    if a != [] {
      DotsFree(a[1..]);
    }
  }

  lemma {:induction false} DotsJoin(a: string, x: string)
    requires '.' !in a
    ensures Dots(a + "." + x) == 1 + Dots(x)
  {
    var s := a + "." + x;
    if a == [] {
      assert s[1..] == x;
    } else {
      assert s[1..] == a[1..] + "." + x;
      DotsJoin(a[1..], x);
    }
  }

  lemma DottedDots(loc: Loc)
    requires Dottable(loc)
    ensures Dots(Dotted(loc)) == |loc| - 1
  {
    DotsFree(loc[|loc| - 1].name);
    if |loc| == 2 {
      DotsJoin(loc[0].name, loc[1].name);
    } else if |loc| == 3 {
      DotsJoin(loc[1].name, loc[2].name);
      var tail := loc[1].name + "." + loc[2].name;
      DotsJoin(loc[0].name, tail);
      assert Dotted(loc) == loc[0].name + "." + tail;
    }
  }

  lemma DottedInjective(a: Loc, b: Loc)
    requires Dottable(a) && Dottable(b) && Dotted(a) == Dotted(b)
    ensures a == b
  {
    DottedDots(a);
    DottedDots(b);
    if |a| == 2 {
      CutAtDot(a[0].name, a[1].name, b[0].name, b[1].name);
    } else if |a| == 3 {
      var x, y := a[1].name + "." + a[2].name, b[1].name + "." + b[2].name;
      assert Dotted(a) == a[0].name + "." + x && Dotted(b) == b[0].name + "." + y;
      CutAtDot(a[0].name, x, b[0].name, y);
      CutAtDot(a[1].name, a[2].name, b[1].name, b[2].name);
    }
  }

  // The selected locations, name by name.
  const LISTED: set<Loc> := {
    [Key("model")], [Key("done")], [Key("error")], [Key("type")], [Key("load_duration")], [Key("eval_count")],
    [Key("eval_duration")], [Key("prompt_eval_count")], [Key("prompt_eval_duration")],
    [Key("usage"), Key("prompt_tokens")], [Key("usage"), Key("completion_tokens")],
    [Key("usage"), Key("input_tokens")], [Key("usage"), Key("output_tokens")],
    [Key("message"), Key("model")],
    [Key("message"), Key("usage"), Key("input_tokens")], [Key("message"), Key("usage"), Key("output_tokens")]}

  lemma JoinedNames()
    ensures "usage" + "." + "prompt_tokens" == "usage.prompt_tokens"
    ensures "usage" + "." + "completion_tokens" == "usage.completion_tokens"
    ensures "usage" + "." + "input_tokens" == "usage.input_tokens"
    ensures "usage" + "." + "output_tokens" == "usage.output_tokens"
    ensures "message" + "." + "model" == "message.model"
  {
  }

  lemma JoinedUsageNames()
    ensures "message" + "." + "usage" + "." + "input_tokens" == "message.usage.input_tokens"
    ensures "message" + "." + "usage" + "." + "output_tokens" == "message.usage.output_tokens"
  {
  }

  const TOP_NAMES: set<string> := {
    "model", "done", "error", "type", "load_duration", "eval_count", "eval_duration", "prompt_eval_count",
    "prompt_eval_duration"}
  const INNER_NAMES: set<string> := {
    "usage", "message", "model", "prompt_tokens", "completion_tokens", "input_tokens", "output_tokens"}

  lemma DotFreeTopName(name: string)
    requires name in TOP_NAMES
    ensures '.' !in name
  {
  }

  lemma DotFreeInnerName(name: string)
    requires name in INNER_NAMES
    ensures '.' !in name
  {
  }

  lemma DotFreeNames(loc: Loc)
    requires loc in LISTED
    ensures Dottable(loc)
  {
    if |loc| == 1 {
      DotFreeTopName(loc[0].name);
    } else {
      forall i | 0 <= i < |loc|
        ensures loc[i].Key? && '.' !in loc[i].name
      {
        DotFreeInnerName(loc[i].name);
      }
    }
  }

  lemma ListedIsWanted(loc: Loc)
    requires loc in LISTED
    ensures Dottable(loc) && Dotted(loc) in WANTED
  {
    DotFreeNames(loc);
    JoinedNames();
    JoinedUsageNames();
  }

  lemma WantedIsListed(path: string) returns (loc: Loc)
    requires path in WANTED
    ensures loc in LISTED && Dottable(loc) && Dotted(loc) == path
  {
    JoinedNames();
    JoinedUsageNames();
    loc :=
      if path == "usage.prompt_tokens" then [Key("usage"), Key("prompt_tokens")]
      else if path == "usage.completion_tokens" then [Key("usage"), Key("completion_tokens")]
      else if path == "usage.input_tokens" then [Key("usage"), Key("input_tokens")]
      else if path == "usage.output_tokens" then [Key("usage"), Key("output_tokens")]
      else if path == "message.model" then [Key("message"), Key("model")]
      else if path == "message.usage.input_tokens" then [Key("message"), Key("usage"), Key("input_tokens")]
      else if path == "message.usage.output_tokens" then [Key("message"), Key("usage"), Key("output_tokens")]
      else [Key(path)];
    assert loc in LISTED;
    DotFreeNames(loc);
  }

  /** A location is selected exactly when its names are one of the sixteen lists: a name with a dot never counts. */
  lemma SelectedIsListed(loc: Loc)
    ensures Selected(loc) <==> loc in LISTED
  {
    if Selected(loc) {
      var l := WantedIsListed(Dotted(loc));
      DottedInjective(l, loc);
    } else if loc in LISTED {
      ListedIsWanted(loc);
    }
  }

  /** Recording keeps, at each path, the last occurrence found exactly there, and nothing else. */
  lemma {:induction false} RecordIsLast(occs: seq<Occurrence>)
    ensures forall i :: IsLast(occs, i) && Selected(occs[i].loc) ==>
              Dotted(occs[i].loc) in Record(map[], occs) && Record(map[], occs)[Dotted(occs[i].loc)] == occs[i].raw
    ensures forall path :: path in Record(map[], occs) ==>
              exists i :: IsLast(occs, i) && Selected(occs[i].loc) && Dotted(occs[i].loc) == path
    decreases |occs|
  {
    if occs != [] {
      var n := |occs| - 1;
      var init, o := occs[..n], occs[n];
      RecordIsLast(init);
      assert occs == init + [o];
      RecordAppend(map[], init, [o]);
      var f, g := Record(map[], init), Record(map[], occs);
      assert g == if Selected(o.loc) then f[Dotted(o.loc) := o.raw] else f;
      forall i | IsLast(occs, i) && Selected(occs[i].loc)
        ensures Dotted(occs[i].loc) in g && g[Dotted(occs[i].loc)] == occs[i].raw
      {
        if i < n {
          assert IsLast(init, i) && init[i] == occs[i];
          if Selected(o.loc) && Dotted(o.loc) == Dotted(occs[i].loc) {
            DottedInjective(o.loc, occs[i].loc);
          }
        }
      }
      forall path | path in g
        ensures exists i :: IsLast(occs, i) && Selected(occs[i].loc) && Dotted(occs[i].loc) == path
      {
        if Selected(o.loc) && Dotted(o.loc) == path {
          assert IsLast(occs, n);
        } else {
          var i :| IsLast(init, i) && Selected(init[i].loc) && Dotted(init[i].loc) == path;
          assert occs[i] == init[i];
          assert IsLast(occs, i);
        }
      }
    }
  }
}
