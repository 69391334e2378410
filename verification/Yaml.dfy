/** The indentation-stack parser of the configuration files, and its round trip. */
module Yaml {
  import opened Strings
  import opened YamlText
  import opened YamlTree

  // An open node and the indent of the line that opened it. The node of a frame is the last
  // child of the node of the frame below, and is put back there when the frame is popped.
  datatype Frame = Frame(indent: int, node: Node)

  datatype Error =
    | LineTooLong
    | OddIndent(line: nat)
    | ItemUnderMap(line: nat)
    | NoColonIn(line: nat)
    | KeyUnderList(line: nat)

  datatype State = Reading(stack: seq<Frame>, line: nat) | Failed(error: Error)
  datatype Parsed = Tree(root: Node) | Refused(error: Error)

  function Top(stack: seq<Frame>): Frame
    requires stack != []
  {
    stack[|stack| - 1]
  }

  function Below(stack: seq<Frame>): seq<Frame>
    requires stack != []
  {
    stack[..|stack| - 1]
  }

  function WithTop(stack: seq<Frame>, node: Node): (r: seq<Frame>)
    requires stack != []
    ensures r != [] && Below(r) == Below(stack) && Top(r) == Frame(Top(stack).indent, node)
  {
    Below(stack) + [Frame(Top(stack).indent, node)]
  }

  function WithLast(node: Node, child: Node): Node {
    match node
    case Map(es) => if es == [] then node else Map(es[..|es| - 1] + [Entry(es[|es| - 1].key, child)])
    case List(items) => if items == [] then node else List(items[..|items| - 1] + [child])
    case _ => node
  }

  function Pop(stack: seq<Frame>): (r: seq<Frame>)
    requires |stack| > 1
    ensures |r| == |stack| - 1
  {
    WithTop(Below(stack), WithLast(Top(Below(stack)).node, Top(stack).node))
  }

  function Close(stack: seq<Frame>, indent: int): (r: seq<Frame>)
    requires stack != []
    ensures r != [] && (|r| == 1 || Top(r).indent < indent)
    decreases |stack|
  {
    if |stack| > 1 && Top(stack).indent >= indent then Close(Pop(stack), indent) else stack
  }

  predicate IsItem(body: string) {
    "- " <= body || body == "-"
  }

  // An item with a colon starts a map, which stays open; one without text is a map that does not.
  function ItemOf(text: string): Node {
    if text == "" then Map([])
    else
      match SplitKeyValue(text)
      case Some(kv) => Map([Entry(kv.key, Scalar(Unquote(kv.value)))])
      case None => Scalar(Unquote(text))
  }

  function PlaceItem(stack: seq<Frame>, indent: nat, body: string, line: nat): State
    requires stack != [] && IsItem(body)
  {
    var text := if body == "-" then "" else TrimSpace(body[2..]);
    var parent := Top(stack).node;
    if parent.Map? then Failed(ItemUnderMap(line))
    else
      var items := if parent.List? then parent.items else [];
      var item := ItemOf(text);
      var grown := WithTop(stack, List(items + [item]));
      Reading(if item.Map? && item.entries != [] then grown + [Frame(indent, item)] else grown, line)
  }

  function PlaceEntry(stack: seq<Frame>, indent: nat, body: string, line: nat): State
    requires stack != []
  {
    var parent := Top(stack).node;
    match SplitKeyValue(body)
    case None => Failed(NoColonIn(line))
    case Some(kv) =>
      if parent.List? then Failed(KeyUnderList(line))
      else
        var entries := if parent.Map? then parent.entries else [];
        if kv.value == "" then
          Reading(WithTop(stack, Map(entries + [Entry(kv.key, Unset)])) + [Frame(indent, Unset)], line)
        else
          Reading(WithTop(stack, Map(entries + [Entry(kv.key, Scalar(Unquote(kv.value)))])), line)
  }

  function Place(stack: seq<Frame>, indent: nat, body: string, line: nat): State
    requires stack != []
  {
    if IsItem(body) then PlaceItem(stack, indent, body, line) else PlaceEntry(stack, indent, body, line)
  }

  function Step(st: State, raw: string, limit: nat): (r: State)
    requires st.Reading? && st.stack != []
    ensures r.Reading? ==> r.stack != [] && r.line == st.line + 1
  {
    if !Fits(raw, limit) then Failed(LineTooLong)
    else
      match Classify(DropCR(raw))
      case Skipped => Reading(st.stack, st.line + 1)
      case Odd => Failed(OddIndent(st.line + 1))
      case Content(indent, body) => Place(Close(st.stack, indent), indent, body, st.line + 1)
  }

  function Run(st: State, lines: seq<string>, limit: nat): (r: State)
    requires st.Reading? ==> st.stack != []
    ensures r.Reading? ==> r.stack != []
    decreases |lines|
  {
    if st.Failed? || lines == [] then st else Run(Step(st, lines[0], limit), lines[1..], limit)
  }

  const START: State := Reading([Frame(-2, Map([]))], 0)

  function Finish(st: State): Parsed
    requires st.Reading? ==> st.stack != []
  {
    match st
    case Failed(e) => Refused(e)
    case Reading(stack, _) => Tree(Close(stack, 0)[0].node)
  }

  // The whole text, for a line buffer of this size.
  function ParseWithin(text: string, limit: nat): Parsed {
    Finish(Run(START, Scan(text), limit))
  }

  function Parse(text: string): Parsed {
    ParseWithin(text, LINE_LIMIT)
  }

  // The line loop: frames that the line is not inside are popped, then the line is placed.
  method ParseTree(text: string) returns (r: Parsed)
    ensures r == Parse(text)
  {
    hide Place, Fits, Classify, DropCR, Scan;
    var lines := Scan(text);
    var stack, n := START.stack, 0;
    while n < |lines|
      invariant 0 <= n <= |lines| && stack != []
      invariant Run(Reading(stack, n), lines[n..], LINE_LIMIT) == Run(START, lines, LINE_LIMIT)
    {
      var raw := lines[n];
      assert lines[n..][0] == raw && lines[n..][1..] == lines[n + 1..];
      n := n + 1;
      if !Fits(raw, LINE_LIMIT) {
        return Refused(LineTooLong);
      }
      match Classify(DropCR(raw)) {
        case Skipped =>
        case Odd =>
          return Refused(OddIndent(n));
        case Content(indent, body) =>
          ghost var before := stack;
          while |stack| > 1 && Top(stack).indent >= indent
            invariant stack != [] && Close(stack, indent) == Close(before, indent)
            decreases |stack|
          {
            stack := Pop(stack);
          }
          match Place(stack, indent, body, n) {
            case Failed(e) =>
              return Refused(e);
            case Reading(next, _) =>
              stack := next;
          }
      }
    }
    r := Tree(Close(stack, 0)[0].node);
  }

  // ---- The frame stack ------------------------------------------------------------------

  // The node has a last child to put back.
  ghost predicate HasLast(node: Node) {
    match node
    case Map(es) => es != []
    case List(items) => items != []
    case _ => false
  }

  ghost predicate Sound(stack: seq<Frame>) {
    && stack != [] && stack[0].indent == -2 && stack[0].node.Map?
    && (forall k :: 0 <= k < |stack| ==> stack[k].indent % 2 == 0 && !stack[k].node.Scalar?)
    && (forall j, k :: 0 <= j < k < |stack| ==> stack[j].indent < stack[k].indent)
    && (forall k :: 0 <= k < |stack| - 1 ==> HasLast(stack[k].node))
  }

  ghost predicate SoundState(st: State) {
    st.Reading? ==> Sound(st.stack)
  }

  lemma {:induction false} CloseSound(stack: seq<Frame>, indent: nat)
    requires Sound(stack)
    ensures Sound(Close(stack, indent)) && Top(Close(stack, indent)).indent < indent
    decreases |stack|
  {
    if |stack| > 1 && Top(stack).indent >= indent {
      CloseSound(Pop(stack), indent);
    }
  }

  lemma WithTopSound(stack: seq<Frame>, node: Node)
    requires Sound(stack) && !node.Scalar? && (|stack| == 1 ==> node.Map?)
    ensures Sound(WithTop(stack, node))
  {
    var r := WithTop(stack, node);
    assert forall k :: 0 <= k < |r| ==> r[k].indent == stack[k].indent;
    assert forall k :: 0 <= k < |r| - 1 ==> r[k] == stack[k];
  }

  lemma PushSound(stack: seq<Frame>, indent: nat, node: Node)
    requires Sound(stack) && HasLast(Top(stack).node)
    requires Top(stack).indent < indent && indent % 2 == 0 && !node.Scalar?
    ensures Sound(stack + [Frame(indent, node)])
  {
    var r := stack + [Frame(indent, node)];
    assert forall k :: 0 <= k < |stack| ==> r[k] == stack[k];
  }

  lemma PlaceItemSound(stack: seq<Frame>, indent: nat, body: string, line: nat)
    requires Sound(stack) && Top(stack).indent < indent && indent % 2 == 0 && IsItem(body)
    ensures SoundState(PlaceItem(stack, indent, body, line))
  {
    hide SplitKeyValue, TrimSpace, Unquote, Sound;
    SoundOpen(stack);
    var parent := Top(stack).node;
    if !parent.Map? {
      var items := if parent.List? then parent.items else [];
      var text := if body == "-" then "" else TrimSpace(body[2..]);
      var item := ItemOf(text);
      WithTopSound(stack, List(items + [item]));
      if item.Map? && item.entries != [] {
        PushSound(WithTop(stack, List(items + [item])), indent, item);
      }
    }
  }

  lemma PlaceEntrySound(stack: seq<Frame>, indent: nat, body: string, line: nat)
    requires Sound(stack) && Top(stack).indent < indent && indent % 2 == 0
    ensures SoundState(PlaceEntry(stack, indent, body, line))
  {
    hide SplitKeyValue, TrimSpace, Unquote, Sound;
    SoundOpen(stack);
    var parent := Top(stack).node;
    match SplitKeyValue(body)
    case None =>
    case Some(kv) =>
      if !parent.List? {
        var entries := if parent.Map? then parent.entries else [];
        var child := if kv.value == "" then Unset else Scalar(Unquote(kv.value));
        var grown := WithTop(stack, Map(entries + [Entry(kv.key, child)]));
        WithTopSound(stack, Map(entries + [Entry(kv.key, child)]));
        if kv.value == "" {
          PushSound(grown, indent, Unset);
        }
      }
  }

  lemma ContentEven(raw: string)
    ensures Classify(raw).Content? ==> Classify(raw).indent % 2 == 0
  {
    hide StripComment, TrimSpace, TrimBlanks, LeadingBlanks;
  }

  /** Every line keeps the indents of the open nodes strictly increasing, and each has a child to put back. */
  lemma StepSound(st: State, raw: string, limit: nat)
    requires st.Reading? && Sound(st.stack)
    ensures SoundState(Step(st, raw, limit))
  {
    hide PlaceItem, PlaceEntry, Sound, Fits, Classify;
    if Fits(raw, limit) {
      match Classify(DropCR(raw))
      case Skipped =>
      case Odd =>
      case Content(indent, body) =>
        ContentEven(DropCR(raw));
        SoundOpen(st.stack);
        CloseSound(st.stack, indent);
        var base := Close(st.stack, indent);
        if IsItem(body) {
          PlaceItemSound(base, indent, body, st.line + 1);
        } else {
          PlaceEntrySound(base, indent, body, st.line + 1);
        }
    }
  }

  lemma {:induction false} RunSound(st: State, lines: seq<string>, limit: nat)
    requires SoundState(st)
    ensures SoundState(Run(st, lines, limit))
    decreases |lines|
  {
    hide Step, Sound;
    if st.Reading? && lines != [] {
      assert st.stack != [] by { SoundOpen(st.stack); }
      StepSound(st, lines[0], limit);
      RunSound(Step(st, lines[0], limit), lines[1..], limit);
    }
  }

  lemma SoundOpen(stack: seq<Frame>)
    requires Sound(stack)
    ensures stack != [] && (|stack| == 1 ==> Top(stack).node.Map?)
  {
  }

  /** In every reachable state, for every text. */
  lemma AlwaysSound(lines: seq<string>, limit: nat)
    ensures SoundState(Run(START, lines, limit))
  {
    StartSound();
    RunSound(START, lines, limit);
  }

  lemma StartSound()
    ensures SoundState(START)
  {
  }

  lemma {:induction false} RootIsMap(stack: seq<Frame>)
    requires Sound(stack)
    ensures |Close(stack, 0)| == 1 && Close(stack, 0)[0].node.Map?
    decreases |stack|
  {
    hide Pop;
    CloseSound(stack, 0);
  }

  /** A file is refused, or its tree is a map. */
  lemma ParsedIsMap(text: string)
    ensures Parse(text).Tree? ==> Parse(text).root.Map?
  {
    hide Run, Close, Sound, Scan;
    AlwaysSound(Scan(text), LINE_LIMIT);
    var st := Run(START, Scan(text), LINE_LIMIT);
    if st.Reading? {
      RootIsMap(st.stack);
    }
  }

  function LineOf(e: Error, otherwise: nat): nat {
    match e
    case LineTooLong => otherwise
    case _ => e.line
  }

  /** The refusal is that of the first bad line, and a line number in it, counted from one, is that line's. */
  lemma {:induction false} FirstBadLine(st: State, lines: seq<string>, limit: nat) returns (n: nat)
    requires st.Reading? && st.stack != [] && Run(st, lines, limit).Failed?
    ensures n < |lines| && Run(st, lines[..n], limit).Reading?
    ensures Step(Run(st, lines[..n], limit), lines[n], limit) == Run(st, lines, limit)
    ensures LineOf(Run(st, lines, limit).error, st.line + n + 1) == st.line + n + 1
    decreases |lines|
  {
    hide Step;
    var next := Step(st, lines[0], limit);
    if next.Failed? {
      n := 0;
      StepLine(st, lines[0], limit);
    } else {
      var m := FirstBadLine(next, lines[1..], limit);
      n := m + 1;
      assert lines[..n][0] == lines[0] && lines[..n][1..] == lines[1..][..m];
    }
  }

  lemma StepLine(st: State, raw: string, limit: nat)
    requires st.Reading? && st.stack != []
    ensures var r := Step(st, raw, limit); r.Failed? ==> LineOf(r.error, st.line + 1) == st.line + 1
  {
    hide Classify, Close, SplitKeyValue, ItemOf, WithTop, Fits;
  }
}
