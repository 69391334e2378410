/** Reading back the canonical text of a configuration tree. */
module YamlRoundTrip {
  import opened Strings
  import opened YamlText
  import opened YamlTree
  import opened YamlLines
  import opened YamlLayout
  import opened Yaml

  // ---- The canonical text is a layout ------------------------------------------------------

  lemma PlainLine(indent: nat, body: string)
    ensures HoldsText(Blanks(indent) + body, indent, body)
  {
    var raw := Blanks(indent) + body;
    assert AllBlank("") && IsNote("") && raw == Blanks(indent) + body + "" + "";
  }

  lemma EntryIsField(k: string, v: string)
    ensures EntryText(k, v) == FieldText(k, 1, Quoted(v)) && Written(Quoted(v), v)
    ensures "- " + Quoted(v) == DashText(0, Quoted(v))
    ensures "- " + EntryText(k, v) == DashText(0, EntryText(k, v))
  {
    assert Blanks(1) == " " && Blanks(0) == "";
  }

  // The head of a block and what follows it.
  lemma HeadFirst(head: seq<string>, tail: seq<string>)
    ensures (head + tail)[..|head|] == head && (head + tail)[|head|..] == tail
  {
  }

  lemma {:induction false} EntriesLaid(es: seq<Entry>, indent: nat)
    requires GoodEntries(es) && indent % 2 == 0
    ensures LaysEntries(es, indent, PrintEntries(es, indent))
    decreases es
  {
    hide GoodEntry, LaysEntry, PrintEntry, SaysNothing;
    if es != [] {
      var head, tail := PrintEntry(es[0], indent), PrintEntries(es[1..], indent);
      EntryLaid(es[0], indent);
      EntriesLaid(es[1..], indent);
      HeadFirst(head, tail);
      assert PrintEntries(es, indent) == head + tail;
    }
  }

  lemma {:induction false} EntryLaid(e: Entry, indent: nat)
    requires GoodEntry(e) && indent % 2 == 0
    ensures LaysEntry(e, indent, PrintEntry(e, indent))
    decreases e
  {
    hide GoodKey, GoodValue, HoldsText, SaysNothing, Written, EntryText, OpenText, FieldText, Quoted;
    var lines := PrintEntry(e, indent);
    PlainLine(indent, OpenText(e.key));
    assert lines[..0] == [];
    match e.value {
      case Scalar(v) =>
        EntryIsField(e.key, v);
        PlainLine(indent, EntryText(e.key, v));
        assert FieldLine(lines[0], indent, e.key, v);
      case Unset =>
      case Map(sub) =>
        EntriesLaid(sub, indent + 2);
        assert lines[1..] == PrintEntries(sub, indent + 2);
      case List(items) =>
        ItemsLaid(items, indent + 2);
        assert lines[1..] == PrintItems(items, indent + 2);
    }
  }

  lemma {:induction false} ItemsLaid(items: seq<Node>, indent: nat)
    requires GoodItems(items) && indent % 2 == 0
    ensures LaysItems(items, indent, PrintItems(items, indent))
    decreases items
  {
    hide GoodItem, LaysItem, PrintItem, SaysNothing;
    if items != [] {
      var head, tail := PrintItem(items[0], indent), PrintItems(items[1..], indent);
      ItemLaid(items[0], indent);
      ItemsLaid(items[1..], indent);
      HeadFirst(head, tail);
      assert PrintItems(items, indent) == head + tail;
    }
  }

  lemma {:induction false} ItemLaid(item: Node, indent: nat)
    requires GoodItem(item) && indent % 2 == 0
    ensures LaysItem(item, indent, PrintItem(item, indent))
    decreases item
  {
    hide PlainKey, GoodValue, HoldsText, SaysNothing, Written, EntryText, OpenText, FieldText, Quoted, DashText;
    var lines := PrintItem(item, indent);
    assert lines[..0] == [];
    if item.Scalar? {
      EntryIsField("", item.text);
      PlainLine(indent, "- " + Quoted(item.text));
      assert ItemLine(lines[0], indent, item.text);
    } else if item.entries == [] {
      PlainLine(indent, "-");
    } else {
      var e, rest := item.entries[0], item.entries[1..];
      EntryIsField(e.key, e.value.text);
      PlainLine(indent, "- " + EntryText(e.key, e.value.text));
      assert FirstText(EntryText(e.key, e.value.text), e.key, e.value.text);
      assert FirstLine(lines[0], indent, e.key, e.value.text);
      EntriesLaid(rest, indent + 2);
      assert lines[1..] == PrintEntries(rest, indent + 2);
    }
  }

  // ---- The round trip ------------------------------------------------------------------------

  // For a line buffer of any size.
  lemma RoundTripWithin(es: seq<Entry>, limit: nat)
    requires GoodEntries(es)
    ensures ParseWithin(Joined(PrintEntries(es, 0)), limit) == Tree(Map(es)) <==> AllFit(PrintEntries(es, 0), limit)
    ensures ParseWithin(Joined(PrintEntries(es, 0)), limit).Refused? <==> !AllFit(PrintEntries(es, 0), limit)
  {
    hide GoodEntries, FairEntries, LaysEntries, PrintEntries, AllFit, ParseWithin, Joined;
    GoodIsFair(es);
    EntriesFeedFree(es, 0);
    EntriesLaid(es, 0);
    LayoutReadWithin(es, PrintEntries(es, 0), limit);
  }

  /**
   Parsing the canonical text of a tree returns the tree, in every case but one: when some
   line does not fit the line buffer, the file is refused.
   */
  lemma RoundTrip(es: seq<Entry>)
    requires GoodEntries(es)
    ensures Parse(Joined(PrintEntries(es, 0))) == Tree(Map(es)) <==> AllFit(PrintEntries(es, 0), LINE_LIMIT)
    ensures Parse(Joined(PrintEntries(es, 0))).Refused? <==> !AllFit(PrintEntries(es, 0), LINE_LIMIT)
  {
    hide GoodEntries, PrintEntries, AllFit, ParseWithin, Joined;
    RoundTripWithin(es, LINE_LIMIT);
  }

  // A line buffer that is large enough for all the lines.
  lemma {:induction false} SomeLimit(lines: seq<string>) returns (limit: nat)
    ensures AllFit(lines, limit)
    decreases |lines|
  {
    hide Utf8Length;
    if lines == [] {
      limit := 0;
    } else {
      var init, n := lines[..|lines| - 1], Utf8Length(lines[|lines| - 1]) + 1;
      var more := SomeLimit(init);
      limit := if n < more then more else n;
      assert forall i :: 0 <= i < |init| ==> Fits(init[i], more) && init[i] == lines[i];
    }
  }

  /** Two trees with the same canonical text are the same tree. */
  lemma PrintInjective(a: seq<Entry>, b: seq<Entry>)
    requires GoodEntries(a) && GoodEntries(b)
    requires Joined(PrintEntries(a, 0)) == Joined(PrintEntries(b, 0))
    ensures a == b
  {
    hide GoodEntries, FairEntries, PrintEntries, AllFit, ParseWithin, Joined, Scan;
    GoodIsFair(a);
    GoodIsFair(b);
    EntriesFeedFree(a, 0);
    EntriesFeedFree(b, 0);
    ScanJoined(PrintEntries(a, 0));
    ScanJoined(PrintEntries(b, 0));
    var limit := SomeLimit(PrintEntries(a, 0));
    RoundTripWithin(a, limit);
    RoundTripWithin(b, limit);
  }
}
