/** Every layout of a configuration tree is read as that tree. */
module YamlLayout {
  import opened Options
  import opened Strings
  import opened YamlText
  import opened YamlTree
  import opened YamlLines
  import opened Yaml

  // ---- Layouts ---------------------------------------------------------------------------
  // The values in quotes or plain, any number of blanks after a colon or a dash, blocks further in by
  // any even number of blanks, comments and lines that say nothing anywhere.

  ghost predicate AllNothing(lines: seq<string>) {
    forall i :: 0 <= i < |lines| ==> SaysNothing(lines[i])
  }

  // A field with a text value.
  ghost predicate FieldLine(raw: string, indent: nat, k: string, v: string) {
    exists n: nat, w :: Written(w, v) && HoldsText(raw, indent, FieldText(k, n, w))
  }

  ghost predicate ItemLine(raw: string, indent: nat, v: string) {
    exists n: nat, w :: Written(w, v) && HoldsText(raw, indent, DashText(n, w))
  }

  // A first field behind the dash of its item; here an empty value may also be left out.
  ghost predicate FirstText(text: string, k: string, v: string) {
    (v == "" && text == OpenText(k)) || exists n: nat, w :: Written(w, v) && text == FieldText(k, n, w)
  }

  ghost predicate FirstLine(raw: string, indent: nat, k: string, v: string) {
    exists n: nat, text :: FirstText(text, k, v) && HoldsText(raw, indent, DashText(n, text))
  }

  // Fields of a map at the same indent.
  ghost predicate LaysEntries(es: seq<Entry>, indent: nat, lines: seq<string>)
    decreases es
  {
    if es == [] then AllNothing(lines)
    else
      exists i ::
        0 <= i <= |lines| && LaysEntry(es[0], indent, lines[..i]) && LaysEntries(es[1..], indent, lines[i..])
  }

  ghost predicate LaysEntry(e: Entry, indent: nat, lines: seq<string>)
    decreases e
  {
    exists i :: 0 <= i < |lines| && AllNothing(lines[..i]) &&
      match e.value
      case Scalar(v) => i + 1 == |lines| && FieldLine(lines[i], indent, e.key, v)
      case Unset => i + 1 == |lines| && HoldsText(lines[i], indent, OpenText(e.key))
      case Map(sub) =>
        && HoldsText(lines[i], indent, OpenText(e.key))
        && exists deeper: nat :: indent < deeper && deeper % 2 == 0 && LaysEntries(sub, deeper, lines[i + 1..])
      case List(items) =>
        && HoldsText(lines[i], indent, OpenText(e.key))
        && exists deeper: nat :: indent < deeper && deeper % 2 == 0 && LaysItems(items, deeper, lines[i + 1..])
  }

  ghost predicate LaysItems(items: seq<Node>, indent: nat, lines: seq<string>)
    decreases items
  {
    if items == [] then AllNothing(lines)
    else
      exists i ::
        0 <= i <= |lines| && LaysItem(items[0], indent, lines[..i]) && LaysItems(items[1..], indent, lines[i..])
  }

  ghost predicate LaysItem(item: Node, indent: nat, lines: seq<string>)
    decreases item
  {
    exists i :: 0 <= i < |lines| && AllNothing(lines[..i]) &&
      match item
      case Scalar(v) => i + 1 == |lines| && ItemLine(lines[i], indent, v)
      case Map(es) =>
        if es == [] then i + 1 == |lines| && HoldsText(lines[i], indent, "-")
        else
          && es[0].value.Scalar? && FirstLine(lines[i], indent, es[0].key, es[0].value.text)
          && exists deeper: nat :: indent < deeper && deeper % 2 == 0 && LaysEntries(es[1..], deeper, lines[i + 1..])
      case _ => false
  }

  // ---- Frames and lines ----------------------------------------------------------------------

  ghost predicate AllFit(lines: seq<string>, limit: nat) {
    forall i :: 0 <= i < |lines| ==> Fits(lines[i], limit)
  }

  lemma {:induction false} CloseTwice(stack: seq<Frame>, inner: int, outer: int)
    requires stack != [] && outer <= inner
    ensures Close(Close(stack, inner), outer) == Close(stack, outer)
    decreases |stack|
  {
    hide Pop, WithTop;
    if |stack| > 1 && Top(stack).indent >= inner {
      CloseTwice(Pop(stack), inner, outer);
    }
  }

  lemma {:induction false} RunJoins(st: State, a: seq<string>, b: seq<string>, limit: nat)
    requires st.Reading? ==> st.stack != []
    ensures Run(st, a + b, limit) == Run(Run(st, a, limit), b, limit)
    decreases |a|
  {
    hide Step;
    if a == [] {
      assert a + b == b;
    } else if st.Reading? {
      assert (a + b)[0] == a[0] && (a + b)[1..] == a[1..] + b;
      RunJoins(Step(st, a[0], limit), a[1..], b, limit);
    }
  }

  // The lines so far leave, at this indent, the frames of base with the given node on top.
  ghost predicate At(st: State, indent: nat, base: seq<Frame>, node: Node) {
    st.Reading? && st.stack != [] && base != [] && Close(st.stack, indent) == WithTop(base, node)
  }

  // Frames that a line at this indent does not pop.
  ghost predicate Holds(base: seq<Frame>, indent: nat) {
    base != [] && (|base| == 1 || Top(base).indent < indent)
  }

  lemma StandsStill(base: seq<Frame>, indent: nat, node: Node)
    requires Holds(base, indent)
    ensures Close(WithTop(base, node), indent) == WithTop(base, node)
  {
  }

  function GrownMap(node: Node): seq<Entry> {
    if node.Map? then node.entries else []
  }

  function GrownList(node: Node): seq<Node> {
    if node.List? then node.items else []
  }

  lemma TopTwice(base: seq<Frame>, a: Node, b: Node)
    requires base != []
    ensures WithTop(WithTop(base, a), b) == WithTop(base, b)
  {
  }

  lemma Started(st: State, indent: nat, base: seq<Frame>, node: Node)
    requires At(st, indent, base, node)
    ensures st.Reading? && st.stack != [] && base != []
  {
  }

  lemma FitParts(a: seq<string>, b: seq<string>, limit: nat)
    requires AllFit(a + b, limit)
    ensures AllFit(a, limit) && AllFit(b, limit)
  {
    var ab := a + b;
    assert forall i :: 0 <= i < |a| ==> ab[i] == a[i];
    assert forall i :: 0 <= i < |b| ==> ab[|a| + i] == b[i];
  }

  // The block of a field or an item is closed and stored in its parent.
  lemma BlockClosed(
      st: State, indent: nat, deeper: nat, base: seq<Frame>, outer: Node, first: Node, inner: Node)
    requires Holds(base, indent) && indent < deeper
    requires At(st, deeper, WithTop(base, outer) + [Frame(indent, first)], inner)
    ensures At(st, indent, base, WithLast(outer, inner))
  {
    hide WithLast;
    var closed := WithTop(base, outer) + [Frame(indent, inner)];
    assert WithTop(WithTop(base, outer) + [Frame(indent, first)], inner) == closed;
    CloseTwice(st.stack, deeper, indent);
    assert Below(closed) == WithTop(base, outer);
    assert Pop(closed) == WithTop(base, WithLast(outer, inner));
    StandsStill(base, indent, WithLast(outer, inner));
  }


  // After a line that opened a block the new frame is on top, ready for the lines of the block.
  lemma BlockOpened(st: State, indent: nat, deeper: nat, below: seq<Frame>, node: Node)
    requires st.Reading? && below != [] && st.stack == below + [Frame(indent, node)] && indent < deeper
    ensures At(st, deeper, st.stack, node) && Holds(st.stack, deeper)
  {
    assert WithTop(st.stack, node) == st.stack;
  }

  lemma RunNothing(st: State, limit: nat)
    requires st.Reading? ==> st.stack != []
    ensures Run(st, [], limit) == st
  {
  }

  lemma RunLine(st: State, raw: string, limit: nat)
    requires st.Reading? && st.stack != []
    ensures Run(st, [raw], limit) == Step(st, raw, limit)
  {
    hide Step;
    RunNothing(Step(st, raw, limit), limit);
    assert [raw][1..] == [];
  }

  /** Lines that say nothing change nothing. */
  lemma {:induction false} NothingRead(st: State, lines: seq<string>, limit: nat)
    requires st.Reading? && st.stack != [] && AllNothing(lines) && AllFit(lines, limit)
    ensures Run(st, lines, limit).Reading? && Run(st, lines, limit).stack == st.stack
    decreases |lines|
  {
    hide SaysNothing, Fits, Classify, Place, Close, DropCR;
    if lines != [] {
      SkippedMeans(lines[0]);
      assert forall i :: 0 <= i < |lines[1..]| ==> lines[1..][i] == lines[i + 1];
      NothingRead(Step(st, lines[0], limit), lines[1..], limit);
    }
  }

  lemma NothingAt(st: State, lines: seq<string>, indent: nat, base: seq<Frame>, node: Node, limit: nat)
    requires AllNothing(lines) && AllFit(lines, limit) && At(st, indent, base, node)
    ensures At(Run(st, lines, limit), indent, base, node)
  {
    hide SaysNothing, Fits, Close, WithTop;
    NothingRead(st, lines, limit);
  }

  // A line is placed under the open node at its indent.
  lemma BodyPlaced(st: State, indent: nat, raw: string, body: string, base: seq<Frame>, node: Node, limit: nat)
    requires indent % 2 == 0 && GoodBody(body) && HoldsText(raw, indent, body) && Fits(raw, limit)
    requires At(st, indent, base, node)
    ensures Run(st, [raw], limit) == Place(WithTop(base, node), indent, body, st.line + 1)
  {
    hide Place, Close, WithTop, Classify, GoodBody, Fits, HoldsText, DropCR;
    LineRead(raw, indent, body);
    RunLine(st, raw, limit);
  }

  /**
   A line is refused exactly if its indent is odd, it puts an item under fields or a field under items,
   or it is neither an item nor has a colon; the refusal names the line.
   */
  lemma LineRefused(st: State, indent: nat, raw: string, body: string, base: seq<Frame>, node: Node, limit: nat)
    requires GoodBody(body) && HoldsText(raw, indent, body) && Fits(raw, limit)
    requires At(st, indent, base, node)
    ensures var r, n := Run(st, [raw], limit), st.line + 1;
            var dash := "- " <= body || body == "-";
            && (indent % 2 != 0 ==> r == Failed(OddIndent(n)))
            && (indent % 2 == 0 && dash && node.Map? ==> r == Failed(ItemUnderMap(n)))
            && (indent % 2 == 0 && !dash && ':' !in body ==> r == Failed(NoColonIn(n)))
            && (indent % 2 == 0 && !dash && ':' in body && node.List? ==> r == Failed(KeyUnderList(n)))
            && (indent % 2 == 0 && (if dash then !node.Map? else ':' in body && !node.List?) ==> r.Reading?)
  {
    hide Close, WithTop, Classify, GoodBody, Fits, HoldsText, DropCR, ItemOf, TrimSpace;
    LineRead(raw, indent, body);
    RunLine(st, raw, limit);
    if indent % 2 == 0 {
      BodyPlaced(st, indent, raw, body, base, node, limit);
      if ':' in body {
        SomeColon(body);
      } else {
        NoColon(body);
      }
    }
  }

  lemma {:induction false} SomeColon(s: string)
    requires ':' in s
    ensures FirstColon(s).Some?
    decreases |s|
  {
    if s[0] != ':' {
      SomeColon(s[1..]);
    }
  }

  // ---- One line ---------------------------------------------------------------------------

  lemma ScalarEntry(
      st: State, indent: nat, raw: string, k: string, v: string, base: seq<Frame>, node: Node, limit: nat)
    requires indent % 2 == 0 && GoodKey(k) && GoodValue(v) && FieldLine(raw, indent, k, v) && Fits(raw, limit)
    requires At(st, indent, base, node) && Holds(base, indent) && (node.Map? || node.Unset?)
    ensures At(Run(st, [raw], limit), indent, base, Map(GrownMap(node) + [Entry(k, Scalar(v))]))
  {
    hide Close, GoodBody, GoodText, FairKey, GoodValue, SplitKeyValue, Fits, Unquote, Run;
    hide HoldsText, Written, FieldText;
    var n: nat, w :| Written(w, v) && HoldsText(raw, indent, FieldText(k, n, w));
    var body := FieldText(k, n, w);
    WrittenRead(w, v);
    FieldGood(k, n, w);
    TextTight(w);
    FieldSplits(k, n, w);
    BodyPlaced(st, indent, raw, body, base, node, limit);
    StandsStill(base, indent, Map(GrownMap(node) + [Entry(k, Scalar(v))]));
  }

  lemma TextTight(w: string)
    requires GoodText(w)
    ensures Tight(w) && w != ""
  {
  }

  lemma OpenPlaced(stack: seq<Frame>, indent: nat, k: string, line: nat)
    requires stack != [] && GoodKey(k) && !Top(stack).node.List?
    ensures var grown := Map(GrownMap(Top(stack).node) + [Entry(k, Unset)]);
            Place(stack, indent, OpenText(k), line) == Reading(WithTop(stack, grown) + [Frame(indent, Unset)], line)
  {
    hide GoodBody, FairKey, SplitKeyValue, WithTop, OpenText;
    OpenGood(k);
    OpenSplits(k);
  }

  // A field that opens a block.
  lemma OpenEntry(st: State, indent: nat, raw: string, k: string, base: seq<Frame>, node: Node, limit: nat)
    requires indent % 2 == 0 && GoodKey(k) && HoldsText(raw, indent, OpenText(k)) && Fits(raw, limit)
    requires At(st, indent, base, node) && Holds(base, indent) && (node.Map? || node.Unset?)
    ensures var r := Run(st, [raw], limit);
            && r.Reading?
            && r.stack == WithTop(base, Map(GrownMap(node) + [Entry(k, Unset)])) + [Frame(indent, Unset)]
  {
    hide Close, GoodBody, FairKey, Fits, Run, Place, OpenText, At, WithTop, HoldsText;
    OpenGood(k);
    Started(st, indent, base, node);
    BodyPlaced(st, indent, raw, OpenText(k), base, node, limit);
    OpenPlaced(WithTop(base, node), indent, k, st.line + 1);
    TopTwice(base, node, Map(GrownMap(node) + [Entry(k, Unset)]));
  }

  lemma ScalarItem(st: State, indent: nat, raw: string, v: string, base: seq<Frame>, node: Node, limit: nat)
    requires indent % 2 == 0 && GoodValue(v) && ':' !in v && ItemLine(raw, indent, v) && Fits(raw, limit)
    requires At(st, indent, base, node) && Holds(base, indent) && (node.List? || node.Unset?)
    ensures At(Run(st, [raw], limit), indent, base, List(GrownList(node) + [Scalar(v)]))
  {
    hide Close, GoodBody, GoodText, GoodValue, Fits, Run, TrimSpace, Unquote, HoldsText, Written;
    var n: nat, w :| Written(w, v) && HoldsText(raw, indent, DashText(n, w));
    WrittenRead(w, v);
    DashTextGood(n, w);
    NoColon(w);
    TextTight(w);
    DashStarts(n, w);
    hide DashText;
    BodyPlaced(st, indent, raw, DashText(n, w), base, node, limit);
    StandsStill(base, indent, List(GrownList(node) + [Scalar(v)]));
  }

  lemma DashStarts(n: nat, b: string)
    ensures "- " <= DashText(n, b) && DashText(n, b) != "-"
  {
  }

  lemma EmptyItem(st: State, indent: nat, raw: string, base: seq<Frame>, node: Node, limit: nat)
    requires indent % 2 == 0 && HoldsText(raw, indent, "-") && Fits(raw, limit)
    requires At(st, indent, base, node) && Holds(base, indent) && (node.List? || node.Unset?)
    ensures At(Run(st, [raw], limit), indent, base, List(GrownList(node) + [Map([])]))
  {
    hide Close, Fits, Run, TrimSpace, Unquote, SplitKeyValue, HoldsText;
    DashIsNoSpace();
    BodyPlaced(st, indent, raw, "-", base, node, limit);
    StandsStill(base, indent, List(GrownList(node) + [Map([])]));
  }

  // An item that opens a map with its first field.
  lemma MapItem(
      st: State, indent: nat, raw: string, k: string, v: string, base: seq<Frame>, node: Node, limit: nat)
    requires indent % 2 == 0 && PlainKey(k) && GoodValue(v) && FirstLine(raw, indent, k, v) && Fits(raw, limit)
    requires At(st, indent, base, node) && Holds(base, indent) && (node.List? || node.Unset?)
    ensures var r := Run(st, [raw], limit);
            var item := Map([Entry(k, Scalar(v))]);
            && r.Reading?
            && r.stack == WithTop(base, List(GrownList(node) + [item])) + [Frame(indent, item)]
  {
    hide Close, GoodBody, GoodText, PlainKey, GoodValue, Fits, Run, TrimSpace, Unquote, SplitKeyValue;
    hide HoldsText, FirstText, At, Holds;
    var n: nat, text :| FirstText(text, k, v) && HoldsText(raw, indent, DashText(n, text));
    FirstSplits(text, k, v);
    DashTextGood(n, text);
    DashStarts(n, text);
    TextTight(text);
    hide DashText;
    Started(st, indent, base, node);
    BodyPlaced(st, indent, raw, DashText(n, text), base, node, limit);
    TopTwice(base, node, List(GrownList(node) + [Map([Entry(k, Scalar(v))])]));
    hide WithTop;
  }

  lemma FirstSplits(text: string, k: string, v: string)
    requires PlainKey(k) && GoodValue(v) && FirstText(text, k, v)
    ensures GoodText(text) && exists u :: SplitKeyValue(text) == Some(KeyValue(k, u)) && Unquote(u) == v
  {
    hide SplitKeyValue, GoodText, GoodBody, GoodValue, Written, FairKey, FieldText;
    if v == "" && text == OpenText(k) {
      OpenGood(k);
      OpenSplits(k);
      GoodIsText(OpenText(k));
      assert Unquote("") == v;
    } else {
      var n: nat, w :| Written(w, v) && text == FieldText(k, n, w);
      WrittenRead(w, v);
      FieldGood(k, n, w);
      TextTight(w);
      FieldSplits(k, n, w);
      GoodIsText(text);
    }
  }

  // ---- Whole blocks ------------------------------------------------------------------------

  lemma FitHead(lines: seq<string>, i: nat, limit: nat)
    requires i <= |lines| && AllFit(lines, limit)
    ensures AllFit(lines[..i], limit) && AllFit(lines[i..], limit)
    ensures lines == lines[..i] + lines[i..]
  {
    assert lines == lines[..i] + lines[i..];
    FitParts(lines[..i], lines[i..], limit);
  }

  /** However the fields of a map are laid out, they are appended to the open node, and nothing else is opened. */
  lemma {:induction false} EntriesRead(
      es: seq<Entry>, lines: seq<string>, st: State, indent: nat, base: seq<Frame>, node: Node, limit: nat)
    requires indent % 2 == 0 && GoodEntries(es) && LaysEntries(es, indent, lines) && AllFit(lines, limit)
    requires At(st, indent, base, node) && Holds(base, indent)
    requires node.Map? || (node.Unset? && es != [])
    ensures At(Run(st, lines, limit), indent, base, Map(GrownMap(node) + es))
    decreases es
  {
    hide GoodEntry, LaysEntry, At, Holds, Fits, Step, AllFit, Run, SaysNothing;
    if es == [] {
      assert GrownMap(node) + es == node.entries;
      NothingAt(st, lines, indent, base, node, limit);
    } else {
      var i :| 0 <= i <= |lines| && LaysEntry(es[0], indent, lines[..i]) && LaysEntries(es[1..], indent, lines[i..]);
      var head, tail := lines[..i], lines[i..];
      FitHead(lines, i, limit);
      Started(st, indent, base, node);
      EntryRead(es[0], head, st, indent, base, node, limit);
      var grown := Map(GrownMap(node) + [es[0]]);
      EntriesRead(es[1..], tail, Run(st, head, limit), indent, base, grown, limit);
      RunJoins(st, head, tail, limit);
      assert GrownMap(node) + es == GrownMap(grown) + es[1..];
    }
  }

  // Lines that say nothing, one line, and a block.
  lemma ThreeParts(st: State, lines: seq<string>, i: nat, indent: nat, base: seq<Frame>, node: Node, limit: nat)
    returns (ready: State, raw: string, block: seq<string>)
    requires i < |lines| && AllFit(lines, limit) && AllNothing(lines[..i])
    requires At(st, indent, base, node)
    ensures raw == lines[i] && block == lines[i + 1..] && Fits(raw, limit) && AllFit(block, limit)
    ensures At(ready, indent, base, node) && ready.Reading? && ready.stack != [] && base != []
    ensures Run(ready, [raw], limit).Reading? ==> Run(ready, [raw], limit).stack != []
    ensures st.Reading? && st.stack != []
    ensures Run(st, lines, limit) == Run(Run(ready, [raw], limit), block, limit)
  {
    hide At, Fits, Step, Run, SaysNothing;
    Started(st, indent, base, node);
    raw, block := lines[i], lines[i + 1..];
    var before := lines[..i];
    FitHead(lines, i, limit);
    FitHead(lines[i..], 1, limit);
    assert lines[i..][1..] == block && lines[i..] == [raw] + block;
    NothingAt(st, before, indent, base, node, limit);
    ready := Run(st, before, limit);
    Started(ready, indent, base, node);
    RunJoins(st, before, [raw] + block, limit);
    RunJoins(ready, [raw], block, limit);
  }

  lemma {:induction false} EntryRead(
      e: Entry, lines: seq<string>, st: State, indent: nat, base: seq<Frame>, node: Node, limit: nat)
    requires indent % 2 == 0 && GoodEntry(e) && LaysEntry(e, indent, lines) && AllFit(lines, limit)
    requires At(st, indent, base, node) && Holds(base, indent)
    requires node.Map? || node.Unset?
    ensures At(Run(st, lines, limit), indent, base, Map(GrownMap(node) + [e]))
    decreases e
  {
    hide At, Holds, Fits, Step, Run, GoodKey, GoodValue, OpenText, Close, WithTop, HoldsText, FieldLine, AllNothing;
    Started(st, indent, base, node);
    match e.value {
      case Scalar(v) =>
        var i :| 0 <= i < |lines| && AllNothing(lines[..i]) && i + 1 == |lines|
                 && FieldLine(lines[i], indent, e.key, v);
        var ready, raw, block := ThreeParts(st, lines, i, indent, base, node, limit);
        RunNothing(Run(ready, [raw], limit), limit);
        ScalarEntry(ready, indent, raw, e.key, v, base, node, limit);
      case Unset =>
        var i :| 0 <= i < |lines| && AllNothing(lines[..i]) && i + 1 == |lines|
                 && HoldsText(lines[i], indent, OpenText(e.key));
        var ready, raw, block := ThreeParts(st, lines, i, indent, base, node, limit);
        RunNothing(Run(ready, [raw], limit), limit);
        var after, outer := OpenedBlock(ready, indent, indent + 2, raw, e, base, node, limit);
        BlockClosed(after, indent, indent + 2, base, outer, Unset, e.value);
      case Map(sub) =>
        var i :| 0 <= i < |lines| && AllNothing(lines[..i]) && HoldsText(lines[i], indent, OpenText(e.key))
                 && exists deeper: nat ::
                      indent < deeper && deeper % 2 == 0 && LaysEntries(sub, deeper, lines[i + 1..]);
        var deeper: nat :| indent < deeper && deeper % 2 == 0 && LaysEntries(sub, deeper, lines[i + 1..]);
        var ready, raw, block := ThreeParts(st, lines, i, indent, base, node, limit);
        var after, outer := OpenedBlock(ready, indent, deeper, raw, e, base, node, limit);
        EntriesRead(sub, block, after, deeper, after.stack, Unset, limit);
        assert [] + sub == sub;
        BlockClosed(Run(after, block, limit), indent, deeper, base, outer, Unset, e.value);
      case List(items) =>
        var i :| 0 <= i < |lines| && AllNothing(lines[..i]) && HoldsText(lines[i], indent, OpenText(e.key))
                 && exists deeper: nat ::
                      indent < deeper && deeper % 2 == 0 && LaysItems(items, deeper, lines[i + 1..]);
        var deeper: nat :| indent < deeper && deeper % 2 == 0 && LaysItems(items, deeper, lines[i + 1..]);
        var ready, raw, block := ThreeParts(st, lines, i, indent, base, node, limit);
        var after, outer := OpenedBlock(ready, indent, deeper, raw, e, base, node, limit);
        ItemsRead(items, block, after, deeper, after.stack, Unset, limit);
        assert [] + items == items;
        BlockClosed(Run(after, block, limit), indent, deeper, base, outer, Unset, e.value);
    }
  }

  // After the line of a field without a value.
  lemma OpenedBlock(
      st: State, indent: nat, deeper: nat, raw: string, e: Entry, base: seq<Frame>, node: Node, limit: nat)
    returns (after: State, outer: Node)
    requires indent % 2 == 0 && GoodKey(e.key) && HoldsText(raw, indent, OpenText(e.key)) && Fits(raw, limit)
    requires At(st, indent, base, node) && Holds(base, indent) && (node.Map? || node.Unset?) && indent < deeper
    ensures st.Reading? && st.stack != [] && base != [] && after == Run(st, [raw], limit)
    ensures after.Reading? && after.stack == WithTop(base, outer) + [Frame(indent, Unset)]
    ensures At(after, deeper, after.stack, Unset) && Holds(after.stack, deeper)
    ensures WithLast(outer, e.value) == Map(GrownMap(node) + [e])
  {
    hide Close, GoodKey, Fits, Run, Holds, WithTop, HoldsText, OpenText;
    OpenEntry(st, indent, raw, e.key, base, node, limit);
    outer := Map(GrownMap(node) + [Entry(e.key, Unset)]);
    after := Run(st, [raw], limit);
    BlockOpened(after, indent, deeper, WithTop(base, outer), Unset);
  }

  /** However the items of a list are laid out, they are appended to the open node, and nothing else is opened. */
  lemma {:induction false} ItemsRead(
      items: seq<Node>, lines: seq<string>, st: State, indent: nat, base: seq<Frame>, node: Node, limit: nat)
    requires indent % 2 == 0 && GoodItems(items) && LaysItems(items, indent, lines) && AllFit(lines, limit)
    requires At(st, indent, base, node) && Holds(base, indent)
    requires node.List? || (node.Unset? && items != [])
    ensures At(Run(st, lines, limit), indent, base, List(GrownList(node) + items))
    decreases items
  {
    hide GoodItem, LaysItem, At, Holds, Fits, Step, Run, AllFit, SaysNothing;
    if items == [] {
      assert GrownList(node) + items == node.items;
      NothingAt(st, lines, indent, base, node, limit);
    } else {
      var i :| 0 <= i <= |lines| && LaysItem(items[0], indent, lines[..i]) && LaysItems(items[1..], indent, lines[i..]);
      var head, tail := lines[..i], lines[i..];
      FitHead(lines, i, limit);
      Started(st, indent, base, node);
      ItemRead(items[0], head, st, indent, base, node, limit);
      var grown := List(GrownList(node) + [items[0]]);
      ItemsRead(items[1..], tail, Run(st, head, limit), indent, base, grown, limit);
      RunJoins(st, head, tail, limit);
      assert GrownList(node) + items == GrownList(grown) + items[1..];
    }
  }

  lemma {:induction false} ItemRead(
      item: Node, lines: seq<string>, st: State, indent: nat, base: seq<Frame>, node: Node, limit: nat)
    requires indent % 2 == 0 && GoodItem(item) && LaysItem(item, indent, lines) && AllFit(lines, limit)
    requires At(st, indent, base, node) && Holds(base, indent)
    requires node.List? || node.Unset?
    ensures At(Run(st, lines, limit), indent, base, List(GrownList(node) + [item]))
    decreases item
  {
    hide At, Holds, Fits, Step, Run, PlainKey, GoodValue, Close, WithTop, HoldsText, ItemLine, FirstLine, AllNothing;
    Started(st, indent, base, node);
    if item.Scalar? {
      var i :| 0 <= i < |lines| && AllNothing(lines[..i]) && i + 1 == |lines| && ItemLine(lines[i], indent, item.text);
      var ready, raw, block := ThreeParts(st, lines, i, indent, base, node, limit);
      RunNothing(Run(ready, [raw], limit), limit);
      ScalarItem(ready, indent, raw, item.text, base, node, limit);
    } else if item.entries == [] {
      var i :| 0 <= i < |lines| && AllNothing(lines[..i]) && i + 1 == |lines| && HoldsText(lines[i], indent, "-");
      var ready, raw, block := ThreeParts(st, lines, i, indent, base, node, limit);
      RunNothing(Run(ready, [raw], limit), limit);
      EmptyItem(ready, indent, raw, base, node, limit);
    } else {
      var e, rest := item.entries[0], item.entries[1..];
      var i :| 0 <= i < |lines| && AllNothing(lines[..i]) && FirstLine(lines[i], indent, e.key, e.value.text)
               && exists deeper: nat :: indent < deeper && deeper % 2 == 0 && LaysEntries(rest, deeper, lines[i + 1..]);
      var deeper: nat :| indent < deeper && deeper % 2 == 0 && LaysEntries(rest, deeper, lines[i + 1..]);
      var ready, raw, block := ThreeParts(st, lines, i, indent, base, node, limit);
      MapItem(ready, indent, raw, e.key, e.value.text, base, node, limit);
      var first := Map([e]);
      var outer := List(GrownList(node) + [first]);
      var after := Run(ready, [raw], limit);
      BlockOpened(after, indent, deeper, WithTop(base, outer), first);
      EntriesRead(rest, block, after, deeper, after.stack, first, limit);
      assert [e] + rest == item.entries;
      BlockClosed(Run(after, block, limit), indent, deeper, base, outer, first, item);
      assert WithLast(outer, item) == List(GrownList(node) + [item]);
    }
  }

  // ---- The whole file ------------------------------------------------------------------------

  lemma {:induction false} LongLineRefused(st: State, lines: seq<string>, limit: nat)
    requires st.Reading? ==> st.stack != []
    requires !AllFit(lines, limit)
    ensures Run(st, lines, limit).Failed?
    decreases |lines|
  {
    hide Classify, Place, Fits, Close;
    if st.Reading? && Fits(lines[0], limit) {
      assert forall i :: 0 < i < |lines| ==> lines[1..][i - 1] == lines[i];
      LongLineRefused(Step(st, lines[0], limit), lines[1..], limit);
    }
  }

  // The whole file starts in the root map, which no line closes.
  lemma RootReady()
    ensures At(START, 0, START.stack, Map([])) && Holds(START.stack, 0) && |START.stack| == 1
  {
  }

  lemma RootDone(st: State, es: seq<Entry>)
    requires At(st, 0, START.stack, Map(es))
    ensures Finish(st) == Tree(Map(es))
  {
  }

  lemma FittingRead(es: seq<Entry>, lines: seq<string>, limit: nat)
    requires GoodEntries(es) && LaysEntries(es, 0, lines) && AllFit(lines, limit)
    ensures Finish(Run(START, lines, limit)) == Tree(Map(es))
  {
    hide *;
    RootReady();
    EntriesRead(es, lines, START, 0, START.stack, Map([]), limit);
    assert GrownMap(Map([])) + es == es by { NothingGrown(es); }
    RootDone(Run(START, lines, limit), es);
  }

  lemma NothingGrown(es: seq<Entry>)
    ensures GrownMap(Map([])) + es == es
  {
  }

  /**
   Any layout of a tree is read as that tree, whatever quotes, blanks, comments and
   further lines it uses, and refused exactly if some line does not fit the line buffer.
   */
  lemma LayoutRead(es: seq<Entry>, lines: seq<string>)
    requires GoodEntries(es) && LaysEntries(es, 0, lines) && NoFeeds(lines)
    ensures Parse(Joined(lines)) == Tree(Map(es)) <==> AllFit(lines, LINE_LIMIT)
    ensures Parse(Joined(lines)).Refused? <==> !AllFit(lines, LINE_LIMIT)
  {
    hide GoodEntries, LaysEntries, AllFit, ParseWithin, Joined;
    LayoutReadWithin(es, lines, LINE_LIMIT);
  }

  // For a line buffer of any size.
  lemma LayoutReadWithin(es: seq<Entry>, lines: seq<string>, limit: nat)
    requires GoodEntries(es) && LaysEntries(es, 0, lines) && NoFeeds(lines)
    ensures ParseWithin(Joined(lines), limit) == Tree(Map(es)) <==> AllFit(lines, limit)
    ensures ParseWithin(Joined(lines), limit).Refused? <==> !AllFit(lines, limit)
  {
    hide Run, GoodEntries, LaysEntries, AllFit, Scan, Joined;
    ScanJoined(lines);
    if AllFit(lines, limit) {
      FittingRead(es, lines, limit);
    } else {
      LongLineRefused(START, lines, limit);
    }
  }
}
