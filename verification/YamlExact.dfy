/**
 Exactly which trees have a canonical text that reads back: the fields and items
 of a tree are counted against those that each of its lines adds.
 */
module YamlExact {
  import opened Strings
  import opened YamlText
  import opened YamlTree
  import opened Yaml
  import opened YamlLayout
  import opened YamlRoundTrip
  import opened YamlImage

  // ---- Counting fields, or list items -----------------------------------------------------

  datatype What = Fields | Items

  function Field(w: What): nat {
    if w.Fields? then 1 else 0
  }

  function Item(w: What): nat {
    if w.Items? then 1 else 0
  }

  ghost function Count(w: What, n: Node): nat
    decreases n
  {
    match n
    case Map(es) => CountEntries(w, es)
    case List(items) => CountItems(w, items)
    case _ => 0
  }

  ghost function CountEntries(w: What, es: seq<Entry>): nat
    decreases es
  {
    if es == [] then 0 else CountEntry(w, es[0]) + CountEntries(w, es[1..])
  }

  ghost function CountEntry(w: What, e: Entry): nat
    decreases e
  {
    Field(w) + Count(w, e.value)
  }

  ghost function CountItems(w: What, items: seq<Node>): nat
    decreases items
  {
    if items == [] then 0 else Item(w) + Count(w, items[0]) + CountItems(w, items[1..])
  }

  lemma {:induction false} CountEntrySnoc(w: What, es: seq<Entry>, e: Entry)
    ensures CountEntries(w, es + [e]) == CountEntries(w, es) + CountEntry(w, e)
    decreases |es|
  {
    var all := es + [e];
    if es == [] {
      assert all == [e] && CountEntries(w, [e][1..]) == 0;
    } else {
      assert all[0] == es[0] && all[1..] == es[1..] + [e];
      CountEntrySnoc(w, es[1..], e);
    }
  }

  lemma {:induction false} CountItemSnoc(w: What, items: seq<Node>, item: Node)
    ensures CountItems(w, items + [item]) == CountItems(w, items) + Item(w) + Count(w, item)
    decreases |items|
  {
    var all := items + [item];
    if items == [] {
      assert all == [item] && CountItems(w, [item][1..]) == 0;
    } else {
      assert all[0] == items[0] && all[1..] == items[1..] + [item];
      CountItemSnoc(w, items[1..], item);
    }
  }

  // Another last child makes a difference only by itself.
  lemma CountWithLast(w: What, p: Node, a: Node, b: Node)
    requires HasLast(p)
    ensures Count(w, WithLast(p, a)) - Count(w, a) == Count(w, WithLast(p, b)) - Count(w, b)
  {
    match p {
      case Map(es) =>
        var init, k := es[..|es| - 1], es[|es| - 1].key;
        CountEntrySnoc(w, init, Entry(k, a));
        CountEntrySnoc(w, init, Entry(k, b));
      case List(items) =>
        CountItemSnoc(w, items[..|items| - 1], a);
        CountItemSnoc(w, items[..|items| - 1], b);
      case _ =>
    }
  }

  // ---- What a line adds -------------------------------------------------------------------

  function Adds(w: What, raw: string): nat {
    match Classify(DropCR(raw))
    case Content(_, body) => BodyAdds(w, body)
    case _ => 0
  }

  function BodyAdds(w: What, body: string): nat {
    if IsItem(body) then
      var text := if body == "-" then "" else TrimSpace(body[2..]);
      Item(w) + if text != "" && SplitKeyValue(text).Some? then Field(w) else 0
    else Field(w)
  }

  function LinesAdd(w: What, lines: seq<string>): nat
    decreases |lines|
  {
    if lines == [] then 0 else Adds(w, lines[0]) + LinesAdd(w, lines[1..])
  }

  lemma {:induction false} LinesAddJoin(w: What, a: seq<string>, b: seq<string>)
    ensures LinesAdd(w, a + b) == LinesAdd(w, a) + LinesAdd(w, b)
    decreases |a|
  {
    hide Adds;
    if a == [] {
      assert a + b == b;
    } else {
      assert (a + b)[0] == a[0] && (a + b)[1..] == a[1..] + b;
      LinesAddJoin(w, a[1..], b);
    }
  }

  // ---- What the parser has counted ---------------------------------------------------------

  // All that is in the tree once every frame is popped.
  ghost function CountStack(w: What, stack: seq<Frame>): nat
    requires stack != []
    decreases |stack|
  {
    if |stack| == 1 then Count(w, stack[0].node) else CountStack(w, Pop(stack))
  }

  ghost predicate Stacked(stack: seq<Frame>) {
    stack != [] && forall k :: 0 <= k < |stack| - 1 ==> HasLast(stack[k].node)
  }

  lemma {:induction false} CountTop(w: What, stack: seq<Frame>, a: Node, b: Node)
    requires Stacked(stack)
    ensures CountStack(w, WithTop(stack, a)) - Count(w, a) == CountStack(w, WithTop(stack, b)) - Count(w, b)
    decreases |stack|
  {
    hide Count, CountStack, HasLast, WithLast, WithTop;
    if |stack| == 1 {
      CountOne(w, stack, a);
      CountOne(w, stack, b);
    } else {
      var base := Below(stack);
      var p := Top(base).node;
      assert forall k :: 0 <= k < |base| ==> base[k] == stack[k];
      CountPopped(w, stack, a);
      CountPopped(w, stack, b);
      CountTop(w, base, WithLast(p, a), WithLast(p, b));
      CountWithLast(w, p, a, b);
    }
  }

  lemma CountOne(w: What, stack: seq<Frame>, node: Node)
    requires |stack| == 1
    ensures CountStack(w, WithTop(stack, node)) == Count(w, node)
  {
    hide Count;
  }

  lemma CountPopped(w: What, stack: seq<Frame>, node: Node)
    requires |stack| > 1
    ensures CountStack(w, WithTop(stack, node))
         == CountStack(w, WithTop(Below(stack), WithLast(Top(Below(stack)).node, node)))
  {
    hide Count, WithLast;
    var s := WithTop(stack, node);
    assert |s| == |stack| && Below(s) == Below(stack);
    assert Pop(s) == WithTop(Below(stack), WithLast(Top(Below(stack)).node, node));
  }

  lemma CountPush(w: What, stack: seq<Frame>, f: Frame)
    requires stack != [] && WithLast(Top(stack).node, f.node) == Top(stack).node
    ensures CountStack(w, stack + [f]) == CountStack(w, stack)
  {
    hide WithLast;
    var s := stack + [f];
    assert Below(s) == stack && Pop(s) == stack;
  }

  lemma {:induction false} CountClose(w: What, stack: seq<Frame>, indent: int)
    requires stack != []
    ensures CountStack(w, Close(stack, indent)) == CountStack(w, stack)
    decreases |stack|
  {
    hide Pop;
    if |stack| > 1 && Top(stack).indent >= indent {
      CountClose(w, Pop(stack), indent);
    }
  }

  lemma WithSameTop(stack: seq<Frame>)
    requires stack != []
    ensures WithTop(stack, Top(stack).node) == stack
  {
  }

  lemma EntryCounted(w: What, stack: seq<Frame>, indent: nat, body: string, line: nat)
    requires stack != [] && Stacked(stack) && !Top(stack).node.Scalar?
    ensures var r := PlaceEntry(stack, indent, body, line);
            r.Reading? ==> CountStack(w, r.stack) == CountStack(w, stack) + Field(w)
  {
    hide SplitKeyValue, Unquote, CountStack, WithTop, Stacked;
    var parent := Top(stack).node;
    match SplitKeyValue(body) {
      case None =>
      case Some(kv) =>
        if !parent.List? {
          var entries := if parent.Map? then parent.entries else [];
          var child := if kv.value == "" then Unset else Scalar(Unquote(kv.value));
          var node := Map(entries + [Entry(kv.key, child)]);
          CountEntrySnoc(w, entries, Entry(kv.key, child));
          CountTop(w, stack, parent, node);
          WithSameTop(stack);
          if kv.value == "" {
            CountPush(w, WithTop(stack, node), Frame(indent, Unset));
          }
        }
    }
  }

  lemma ItemCounted(w: What, stack: seq<Frame>, indent: nat, body: string, line: nat)
    requires stack != [] && Stacked(stack) && !Top(stack).node.Scalar? && IsItem(body)
    ensures var r := PlaceItem(stack, indent, body, line);
            r.Reading? ==> CountStack(w, r.stack) == CountStack(w, stack) + BodyAdds(w, body)
  {
    hide SplitKeyValue, Unquote, TrimSpace, CountStack, WithTop, Stacked, ItemOf;
    var parent := Top(stack).node;
    if !parent.Map? {
      var items := if parent.List? then parent.items else [];
      var text := if body == "-" then "" else TrimSpace(body[2..]);
      var item := ItemOf(text);
      ItemOfCounts(w, text);
      var node := List(items + [item]);
      CountItemSnoc(w, items, item);
      CountTop(w, stack, parent, node);
      WithSameTop(stack);
      if item.Map? && item.entries != [] {
        assert (items + [item])[..|items|] == items;
        CountPush(w, WithTop(stack, node), Frame(indent, item));
      }
    }
  }

  lemma ItemOfCounts(w: What, text: string)
    ensures Count(w, ItemOf(text)) == if text != "" && SplitKeyValue(text).Some? then Field(w) else 0
  {
    hide SplitKeyValue, Unquote;
    if text != "" && SplitKeyValue(text).Some? {
      var kv := SplitKeyValue(text).value;
      var e := Entry(kv.key, Scalar(Unquote(kv.value)));
      assert [e][1..] == [];
      assert CountEntries(w, [e]) == CountEntry(w, e) + CountEntries(w, []);
    }
  }

  lemma StepCounted(w: What, st: State, raw: string, limit: nat)
    requires st.Reading? && Sound(st.stack)
    ensures st.stack != []
    ensures var r := Step(st, raw, limit);
            r.Reading? ==> CountStack(w, r.stack) == CountStack(w, st.stack) + Adds(w, raw)
  {
    hide Sound, Close, PlaceItem, PlaceEntry, Classify, BodyAdds, Fits, CountStack;
    SoundOpen(st.stack);
    match Classify(DropCR(raw)) {
      case Skipped =>
      case Odd =>
      case Content(indent, body) =>
        CloseSound(st.stack, indent);
        var base := Close(st.stack, indent);
        CountClose(w, st.stack, indent);
        SoundIsStacked(base);
        if IsItem(body) {
          ItemCounted(w, base, indent, body, st.line + 1);
        } else {
          EntryCounted(w, base, indent, body, st.line + 1);
          assert BodyAdds(w, body) == Field(w) by { EntryAdds(w, body); }
        }
    }
  }

  lemma EntryAdds(w: What, body: string)
    requires !IsItem(body)
    ensures BodyAdds(w, body) == Field(w)
  {
  }

  lemma SoundIsStacked(stack: seq<Frame>)
    requires Sound(stack)
    ensures Stacked(stack) && !Top(stack).node.Scalar?
  {
  }

  lemma {:induction false} RunCounted(w: What, st: State, lines: seq<string>, limit: nat)
    requires st.Reading? && Sound(st.stack)
    ensures st.stack != []
    ensures var r := Run(st, lines, limit);
            r.Reading? ==> CountStack(w, r.stack) == CountStack(w, st.stack) + LinesAdd(w, lines)
    decreases |lines|
  {
    hide Step, Sound, Adds, CountStack;
    SoundOpen(st.stack);
    if lines != [] {
      var t := Step(st, lines[0], limit);
      StepCounted(w, st, lines[0], limit);
      StepSound(st, lines[0], limit);
      if t.Reading? {
        RunCounted(w, t, lines[1..], limit);
      }
    }
  }

  // ---- What the canonical lines add ---------------------------------------------------------

  lemma KeepsEnd(n: nat, body: string)
    requires body != [] && body[|body| - 1] != '\r'
    ensures DropCR(Blanks(n) + body) == Blanks(n) + body
  {
    var raw := Blanks(n) + body;
    assert raw[|raw| - 1] == body[|body| - 1];
  }

  lemma GoodAdds(w: What, indent: nat, body: string)
    requires indent % 2 == 0 && GoodBody(body)
    ensures Adds(w, Blanks(indent) + body) == BodyAdds(w, body)
  {
    hide Classify, BodyAdds;
    KeepsEnd(indent, body);
    GoodLine(indent, body);
  }

  lemma {:induction false} StripBlanks(n: nat, body: string)
    requires body != [] && body[0] == '#' && n > 0
    ensures StripComment(Blanks(n) + body) == Blanks(n - 1)
    decreases n
  {
    var s := Blanks(n) + body;
    if n == 1 {
      assert s[0] == ' ' && s[1] == '#';
    } else {
      assert s[0] == ' ' && s[1] == ' ' && s[1..] == Blanks(n - 1) + body;
      StripBlanks(n - 1, body);
    }
  }

  lemma {:induction false} BlanksAreNothing(n: nat)
    ensures TrimSpace(Blanks(n)) == "" && TrimBlanks(Blanks(n)) == ""
    decreases n
  {
    if n > 0 {
      var b := Blanks(n);
      assert b[1..] == Blanks(n - 1) && b[..n - 1] == Blanks(n - 1);
      BlanksAreNothing(n - 1);
    }
  }

  lemma {:induction false} TrimKeepsFirst(s: string)
    requires s != [] && !IsSpace(s[0])
    ensures TrimRight(s) != [] && TrimRight(s)[0] == s[0]
    decreases |s|
  {
    if IsSpace(s[|s| - 1]) {
      TrimKeepsFirst(s[..|s| - 1]);
    }
  }

  // A line that begins with a hash is skipped, whether it is indented or not.
  lemma HashAdds(w: What, indent: nat, body: string)
    requires body != [] && body[0] == '#' && body[|body| - 1] != '\r'
    ensures Adds(w, Blanks(indent) + body) == 0
  {
    hide TrimBlanks, LeadingBlanks, TrimRight;
    var raw := Blanks(indent) + body;
    KeepsEnd(indent, body);
    BlanksAreNothing(0);
    if indent == 0 {
      assert raw == body;
      var text := StripComment(raw);
      assert text[0] == '#';
      TrimKeepsFirst(text);
    } else {
      StripBlanks(indent, body);
      BlanksAreNothing(indent - 1);
      assert Blanks(0) == "";
    }
  }

  lemma {:induction false} StripDash(n: nat, t: string)
    ensures StripComment(Blanks(n) + ("- #" + t)) == Blanks(n) + "-"
    ensures StripComment(Blanks(n) + "-") == Blanks(n) + "-"
    decreases n
  {
    hide StripComment;
    if n == 0 {
      StripBare(t);
      assert Blanks(0) + ("- #" + t) == "- #" + t && Blanks(0) + "-" == "-";
    } else {
      var s, d := Blanks(n - 1) + ("- #" + t), Blanks(n - 1) + "-";
      assert Blanks(n) + ("- #" + t) == [' '] + s && Blanks(n) + "-" == [' '] + d;
      assert s[0] != '#' && d[0] != '#';
      StripNext(' ', s);
      StripNext(' ', d);
      StripDash(n - 1, t);
      assert [' '] + d == Blanks(n) + "-";
    }
  }

  lemma StripBare(t: string)
    ensures StripComment("- #" + t) == "-" && StripComment("-") == "-"
  {
    var s := "- #" + t;
    assert s[0] == '-' && s[1..] == " #" + t && (" #" + t)[0] == ' ' && (" #" + t)[1] == '#';
    assert StripComment(" #" + t) == [];
    assert "-"[1..] == [];
  }

  lemma StripNext(c: char, s: string)
    requires s != [] && (c == ' ' ==> s[0] != '#')
    ensures StripComment([c] + s) == [c] + StripComment(s)
  {
    assert ([c] + s)[1..] == s;
  }

  lemma DashAdds(w: What, indent: nat)
    requires indent % 2 == 0
    ensures Adds(w, Blanks(indent) + "-") == Item(w)
  {
    hide Classify;
    KeepsEnd(indent, "-");
    ClassifyLine(indent, "-");
  }

  // What is left of an item whose first field has a name that begins with a hash is its dash.
  lemma DashHashAdds(w: What, indent: nat, text: string)
    requires indent % 2 == 0 && text != [] && text[0] == '#' && text[|text| - 1] != '\r'
    ensures Adds(w, Blanks(indent) + ("- " + text)) == Item(w)
  {
    hide StripComment, TrimBlanks, LeadingBlanks, TrimSpace, BodyAdds;
    var body := "- " + text;
    assert body == "- #" + text[1..];
    assert body[|body| - 1] == text[|text| - 1];
    KeepsEnd(indent, body);
    StripDash(indent, text[1..]);
    KeepsEnd(indent, "-");
    assert Classify(Blanks(indent) + body) == Classify(Blanks(indent) + "-");
    DashAdds(w, indent);
  }

  // The line of a field: it adds the field and nothing else exactly if the name may start a line.
  ghost predicate FieldLine(k: string, raw: string) {
    && Adds(Fields, raw) <= 1
    && (Adds(Fields, raw) == 1 && Adds(Items, raw) == 0 ==> GoodKey(k))
  }

  lemma FieldAdds(indent: nat, k: string, body: string)
    requires indent % 2 == 0 && FairKey(k) && k < body && body[|body| - 1] != '\r'
    requires PlainKey(k) ==> GoodBody(body) && ("- " <= body <==> "- " <= k)
    ensures FieldLine(k, Blanks(indent) + body)
  {
    hide Adds, FairKey, GoodBody;
    if PlainKey(k) {
      GoodAdds(Fields, indent, body);
      GoodAdds(Items, indent, body);
    } else {
      assert body[0] == k[0];
      HashAdds(Fields, indent, body);
    }
  }

  lemma EntryLine(indent: nat, k: string, v: string)
    requires indent % 2 == 0 && FairKey(k) && GoodValue(v)
    ensures FieldLine(k, Blanks(indent) + EntryText(k, v))
  {
    hide FairKey, GoodValue, GoodBody, FieldLine;
    var body := EntryText(k, v);
    EntryShape(k, v);
    assert body[|body| - 1] == '"' && k < body;
    if PlainKey(k) {
      EntryGood(k, v);
    }
    FieldAdds(indent, k, body);
  }

  lemma OpenLine(indent: nat, k: string)
    requires indent % 2 == 0 && FairKey(k)
    ensures FieldLine(k, Blanks(indent) + OpenText(k))
  {
    hide FairKey, GoodBody, FieldLine;
    var body := OpenText(k);
    assert body[|body| - 1] == ':' && k < body;
    if PlainKey(k) {
      OpenGood(k);
    }
    FieldAdds(indent, k, body);
  }

  // The line of an item adds the item, and its first field at most.
  lemma ItemLine(indent: nat, k: string, v: string)
    requires indent % 2 == 0 && FairKey(k) && GoodValue(v)
    ensures var raw := Blanks(indent) + ("- " + EntryText(k, v));
            Adds(Items, raw) == 1 && Adds(Fields, raw) <= 1 && (Adds(Fields, raw) == 1 ==> PlainKey(k))
  {
    hide Adds, FairKey, GoodValue, GoodBody, SplitKeyValue, TrimSpace;
    var text := EntryText(k, v);
    EntryShape(k, v);
    assert text[|text| - 1] == '"';
    if PlainKey(k) {
      EntryGood(k, v);
      GoodIsText(text);
      DashGood(text);
      GoodAdds(Items, indent, "- " + text);
      GoodAdds(Fields, indent, "- " + text);
    } else {
      assert text[0] == k[0];
      DashHashAdds(Items, indent, text);
      DashHashAdds(Fields, indent, text);
    }
  }

  lemma ScalarLine(indent: nat, v: string)
    requires indent % 2 == 0 && GoodValue(v) && ':' !in v
    ensures var raw := Blanks(indent) + ("- " + Quoted(v));
            Adds(Items, raw) == 1 && Adds(Fields, raw) == 0
  {
    hide Adds, GoodValue, GoodBody, TrimSpace;
    var q := Quoted(v);
    QuotedGood(v);
    DashGood(q);
    QuotedShape(v);
    NoColon(q);
    GoodAdds(Items, indent, "- " + q);
    GoodAdds(Fields, indent, "- " + q);
  }

  // The lines add no more fields, and no fewer items, than there are.
  ghost predicate Covers(lines: seq<string>, fields: nat, items: nat) {
    LinesAdd(Fields, lines) <= fields && LinesAdd(Items, lines) >= items
  }

  ghost predicate Meets(lines: seq<string>, fields: nat, items: nat) {
    LinesAdd(Fields, lines) == fields && LinesAdd(Items, lines) == items
  }

  lemma Both(a: seq<string>, b: seq<string>, f: nat, i: nat, g: nat, j: nat)
    requires Covers(a, f, i) && Covers(b, g, j)
    ensures Covers(a + b, f + g, i + j)
    ensures Meets(a + b, f + g, i + j) ==> Meets(a, f, i) && Meets(b, g, j)
  {
    hide LinesAdd;
    LinesAddJoin(Fields, a, b);
    LinesAddJoin(Items, a, b);
  }

  lemma OneLine(w: What, raw: string)
    ensures LinesAdd(w, [raw]) == Adds(w, raw)
  {
    hide Adds;
    assert [raw][1..] == [];
  }

  lemma {:induction false} EntriesCovered(es: seq<Entry>, indent: nat)
    requires indent % 2 == 0 && FairEntries(es)
    ensures Covers(PrintEntries(es, indent), CountEntries(Fields, es), CountEntries(Items, es))
    ensures Meets(PrintEntries(es, indent), CountEntries(Fields, es), CountEntries(Items, es)) ==> GoodEntries(es)
    decreases es, 0
  {
    hide FairEntry, PrintEntry, CountEntry, GoodEntry, Adds, Covers, Meets;
    if es == [] {
      NothingCovered();
    } else {
      EntryCovered(es[0], indent);
      EntriesCovered(es[1..], indent);
      Both(PrintEntry(es[0], indent), PrintEntries(es[1..], indent), CountEntry(Fields, es[0]),
           CountEntry(Items, es[0]), CountEntries(Fields, es[1..]), CountEntries(Items, es[1..]));
    }
  }

  lemma NothingCovered()
    ensures Covers([], 0, 0)
  {
  }

  lemma {:induction false} EntryCovered(e: Entry, indent: nat)
    requires indent % 2 == 0 && FairEntry(e)
    ensures Covers(PrintEntry(e, indent), CountEntry(Fields, e), CountEntry(Items, e))
    ensures Meets(PrintEntry(e, indent), CountEntry(Fields, e), CountEntry(Items, e)) ==> GoodEntry(e)
    decreases e, 0
  {
    hide Adds, FairKey, GoodKey, GoodValue, EntryText, OpenText, Covers, Meets;
    match e.value
    case Scalar(v) =>
      EntryLine(indent, e.key, v);
      FieldCovered(e.key, Blanks(indent) + EntryText(e.key, v));
    case Unset =>
      OpenLine(indent, e.key);
      FieldCovered(e.key, Blanks(indent) + OpenText(e.key));
    case Map(sub) =>
      OpenLine(indent, e.key);
      FieldCovered(e.key, Blanks(indent) + OpenText(e.key));
      EntriesCovered(sub, indent + 2);
      Both([Blanks(indent) + OpenText(e.key)], PrintEntries(sub, indent + 2), 1, 0,
           CountEntries(Fields, sub), CountEntries(Items, sub));
    case List(items) =>
      OpenLine(indent, e.key);
      FieldCovered(e.key, Blanks(indent) + OpenText(e.key));
      ItemsCovered(items, indent + 2);
      Both([Blanks(indent) + OpenText(e.key)], PrintItems(items, indent + 2), 1, 0,
           CountItems(Fields, items), CountItems(Items, items));
  }

  lemma FieldCovered(k: string, raw: string)
    requires FieldLine(k, raw)
    ensures Covers([raw], 1, 0) && (Meets([raw], 1, 0) ==> GoodKey(k))
  {
    hide Adds, GoodKey;
    OneLine(Fields, raw);
    OneLine(Items, raw);
  }

  lemma {:induction false} ItemsCovered(items: seq<Node>, indent: nat)
    requires indent % 2 == 0 && FairItems(items)
    ensures Covers(PrintItems(items, indent), CountItems(Fields, items), CountItems(Items, items))
    ensures Meets(PrintItems(items, indent), CountItems(Fields, items), CountItems(Items, items)) ==> GoodItems(items)
    decreases items, 0
  {
    hide FairItem, PrintItem, Count, GoodItem, Adds, Covers, Meets;
    if items == [] {
      NothingCovered();
    } else {
      ItemCovered(items[0], indent);
      ItemsCovered(items[1..], indent);
      Both(PrintItem(items[0], indent), PrintItems(items[1..], indent), Count(Fields, items[0]),
           1 + Count(Items, items[0]), CountItems(Fields, items[1..]), CountItems(Items, items[1..]));
    }
  }

  lemma {:induction false} ItemCovered(item: Node, indent: nat)
    requires indent % 2 == 0 && FairItem(item)
    ensures Covers(PrintItem(item, indent), Count(Fields, item), 1 + Count(Items, item))
    ensures Meets(PrintItem(item, indent), Count(Fields, item), 1 + Count(Items, item)) ==> GoodItem(item)
    decreases item, 0
  {
    hide Adds, FairKey, PlainKey, GoodValue, EntryText, Quoted, Covers, Meets;
    match item
    case Scalar(v) =>
      ScalarLine(indent, v);
      LineCovered(Blanks(indent) + ("- " + Quoted(v)), 0);
    case Map(es) =>
      if es == [] {
        DashAdds(Fields, indent);
        DashAdds(Items, indent);
        LineCovered(Blanks(indent) + "-", 0);
      } else {
        var e, rest := es[0], es[1..];
        assert FairEntries(es) && FairEntry(e);
        var raw := Blanks(indent) + ("- " + EntryText(e.key, e.value.text));
        ItemLine(indent, e.key, e.value.text);
        LineCovered(raw, 1);
        FirstCounted(Fields, es);
        FirstCounted(Items, es);
        EntriesCovered(rest, indent + 2);
        Both([raw], PrintEntries(rest, indent + 2), 1, 1, CountEntries(Fields, rest), CountEntries(Items, rest));
      }
  }

  lemma FirstCounted(w: What, es: seq<Entry>)
    requires es != [] && es[0].value.Scalar?
    ensures Count(w, Map(es)) == Field(w) + CountEntries(w, es[1..])
  {
    assert CountEntries(w, es) == CountEntry(w, es[0]) + CountEntries(w, es[1..]);
  }

  lemma LineCovered(raw: string, fields: nat)
    requires Adds(Fields, raw) <= fields && Adds(Items, raw) == 1
    ensures Covers([raw], fields, 1) && (Meets([raw], fields, 1) ==> Adds(Fields, raw) == fields)
  {
    hide Adds;
    OneLine(Fields, raw);
    OneLine(Items, raw);
  }

  // ---- The converse of the round trip -------------------------------------------------------

  lemma ReadBackIsGood(es: seq<Entry>, limit: nat)
    requires ParseWithin(Joined(PrintEntries(es, 0)), limit) == Tree(Map(es))
    ensures GoodEntries(es)
  {
    hide Run, FairEntries, PrintEntries, Scan, Joined, Sound, CountStack, GoodEntries, LinesAdd;
    var lines := PrintEntries(es, 0);
    ParsedIsFair(Joined(lines), limit);
    EntriesFeedFree(es, 0);
    ScanJoined(lines);
    StartSound();
    AlwaysSound(lines, limit);
    RunCounted(Fields, START, lines, limit);
    RunCounted(Items, START, lines, limit);
    var stack := Run(START, lines, limit).stack;
    RootCounted(Fields, stack);
    RootCounted(Items, stack);
    StartCounted(Fields);
    StartCounted(Items);
    EntriesCovered(es, 0);
  }

  lemma RootCounted(w: What, stack: seq<Frame>)
    requires Sound(stack)
    ensures stack != [] && CountStack(w, stack) == Count(w, Close(stack, 0)[0].node)
  {
    hide Sound, Close;
    SoundOpen(stack);
    RootIsMap(stack);
    CountClose(w, stack, 0);
  }

  lemma StartCounted(w: What)
    ensures CountStack(w, START.stack) == 0
  {
  }

  /** The canonical text of a tree reads back if and only if the tree is in the class and every line fits. */
  lemma RoundTripExactly(es: seq<Entry>)
    ensures Parse(Joined(PrintEntries(es, 0))) == Tree(Map(es)) <==>
            GoodEntries(es) && AllFit(PrintEntries(es, 0), LINE_LIMIT)
  {
    hide GoodEntries, PrintEntries, AllFit, ParseWithin, Joined;
    if Parse(Joined(PrintEntries(es, 0))) == Tree(Map(es)) {
      ReadBackIsGood(es, LINE_LIMIT);
    }
    if GoodEntries(es) {
      RoundTrip(es);
    }
  }
}
