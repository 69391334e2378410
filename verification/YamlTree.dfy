/** Configuration trees and their canonical text. */
module YamlTree {
  import opened YamlText

  // A node is unset while the field that opens its block has seen no line of it.
  datatype Node = Unset | Scalar(text: string) | Map(entries: seq<Entry>) | List(items: seq<Node>)
  datatype Entry = Entry(key: string, value: Node)

  // ---- Two blanks a level, every value in double quotes --------------------------------

  function PrintEntries(es: seq<Entry>, indent: nat): seq<string>
    decreases es
  {
    if es == [] then [] else PrintEntry(es[0], indent) + PrintEntries(es[1..], indent)
  }

  function PrintEntry(e: Entry, indent: nat): seq<string>
    decreases e
  {
    match e.value
    case Scalar(v) => [Blanks(indent) + EntryText(e.key, v)]
    case Unset => [Blanks(indent) + OpenText(e.key)]
    case Map(sub) => [Blanks(indent) + OpenText(e.key)] + PrintEntries(sub, indent + 2)
    case List(items) => [Blanks(indent) + OpenText(e.key)] + PrintItems(items, indent + 2)
  }

  function PrintItems(items: seq<Node>, indent: nat): seq<string>
    decreases items
  {
    if items == [] then [] else PrintItem(items[0], indent) + PrintItems(items[1..], indent)
  }

  // The rest of a map stands below its first entry, two blanks further in.
  function PrintItem(item: Node, indent: nat): seq<string>
    decreases item
  {
    match item
    case Scalar(v) => [Blanks(indent) + ("- " + Quoted(v))]
    case Map(es) =>
      if es == [] then [Blanks(indent) + "-"]
      else if es[0].value.Scalar? then
        [Blanks(indent) + ("- " + EntryText(es[0].key, es[0].value.text))] + PrintEntries(es[1..], indent + 2)
      else []
    case _ => []
  }

  // ---- Trees that have a canonical text ---------------------------------------------------

  ghost predicate GoodEntries(es: seq<Entry>)
    decreases es
  {
    es == [] || (GoodEntry(es[0]) && GoodEntries(es[1..]))
  }

  ghost predicate GoodEntry(e: Entry)
    decreases e
  {
    && GoodKey(e.key)
    && match e.value
       case Unset => true
       case Scalar(v) => GoodValue(v)
       case Map(sub) => sub != [] && GoodEntries(sub)
       case List(items) => items != [] && GoodItems(items)
  }

  ghost predicate GoodItems(items: seq<Node>)
    decreases items
  {
    items == [] || (GoodItem(items[0]) && GoodItems(items[1..]))
  }

  ghost predicate GoodItem(item: Node)
    decreases item
  {
    match item
    case Scalar(v) => GoodValue(v) && ':' !in v
    case Map(es) =>
      es == [] ||
      (es[0].value.Scalar? && PlainKey(es[0].key) && GoodValue(es[0].value.text) && GoodEntries(es[1..]))
    case _ => false
  }

  // ---- Trees as the parser builds them -----------------------------------------------------

  ghost predicate FairEntries(es: seq<Entry>)
    decreases es
  {
    forall i :: 0 <= i < |es| ==> FairEntry(es[i])
  }

  ghost predicate FairEntry(e: Entry)
    decreases e
  {
    && FairKey(e.key)
    && match e.value
       case Unset => true
       case Scalar(v) => GoodValue(v)
       case Map(sub) => sub != [] && FairEntries(sub)
       case List(items) => items != [] && FairItems(items)
  }

  ghost predicate FairItems(items: seq<Node>)
    decreases items
  {
    forall i :: 0 <= i < |items| ==> FairItem(items[i])
  }

  ghost predicate FairItem(item: Node)
    decreases item
  {
    match item
    case Scalar(v) => GoodValue(v) && ':' !in v
    case Map(es) => es == [] || (es[0].value.Scalar? && FairEntries(es))
    case _ => false
  }

  lemma {:induction false} GoodIsFair(es: seq<Entry>)
    requires GoodEntries(es)
    ensures FairEntries(es)
    decreases es
  {
    if es != [] {
      GoodEntryIsFair(es[0]);
      GoodIsFair(es[1..]);
      assert forall i :: 1 <= i < |es| ==> es[i] == es[1..][i - 1];
    }
  }

  lemma {:induction false} GoodEntryIsFair(e: Entry)
    requires GoodEntry(e)
    ensures FairEntry(e)
    decreases e
  {
    match e.value
    case Map(sub) => GoodIsFair(sub);
    case List(items) => GoodItemsAreFair(items);
    case _ =>
  }

  lemma {:induction false} GoodItemsAreFair(items: seq<Node>)
    requires GoodItems(items)
    ensures FairItems(items)
    decreases items
  {
    if items != [] {
      GoodItemIsFair(items[0]);
      GoodItemsAreFair(items[1..]);
      assert forall i :: 1 <= i < |items| ==> items[i] == items[1..][i - 1];
    }
  }

  lemma {:induction false} GoodItemIsFair(item: Node)
    requires GoodItem(item)
    ensures FairItem(item)
    decreases item
  {
    if item.Map? && item.entries != [] {
      var es := item.entries;
      GoodIsFair(es[1..]);
      assert forall i :: 1 <= i < |es| ==> es[i] == es[1..][i - 1];
    }
  }

  // ---- The lines of the canonical text ------------------------------------------------------

  ghost predicate NoFeeds(lines: seq<string>) {
    forall i :: 0 <= i < |lines| ==> NoLineFeed(lines[i])
  }

  lemma LineFeedFree(n: nat, body: string)
    requires NoLineFeed(body)
    ensures NoFeeds([Blanks(n) + body])
  {
  }

  lemma TextFeedFree(k: string, v: string)
    requires NoLineFeed(k) && NoLineFeed(v)
    ensures NoLineFeed(EntryText(k, v)) && NoLineFeed(OpenText(k)) && NoLineFeed("- " + EntryText(k, v))
    ensures NoLineFeed("- " + Quoted(v)) && NoLineFeed("-")
  {
  }

  /** No line of the canonical text holds a line feed, so joining the lines loses nothing. */
  lemma {:induction false} EntriesFeedFree(es: seq<Entry>, indent: nat)
    requires FairEntries(es)
    ensures NoFeeds(PrintEntries(es, indent))
    decreases es
  {
    hide FairEntry, PrintEntry;
    if es != [] {
      EntryFeedFree(es[0], indent);
      EntriesFeedFree(es[1..], indent);
    }
  }

  lemma {:induction false} EntryFeedFree(e: Entry, indent: nat)
    requires FairEntry(e)
    ensures NoFeeds(PrintEntry(e, indent))
    decreases e
  {
    hide EntryText, OpenText, NoLineFeed;
    match e.value
    case Scalar(v) =>
      TextFeedFree(e.key, v);
      LineFeedFree(indent, EntryText(e.key, v));
    case Unset =>
      TextFeedFree(e.key, e.key);
      LineFeedFree(indent, OpenText(e.key));
    case Map(sub) =>
      TextFeedFree(e.key, e.key);
      LineFeedFree(indent, OpenText(e.key));
      EntriesFeedFree(sub, indent + 2);
    case List(items) =>
      TextFeedFree(e.key, e.key);
      LineFeedFree(indent, OpenText(e.key));
      ItemsFeedFree(items, indent + 2);
  }

  lemma {:induction false} ItemsFeedFree(items: seq<Node>, indent: nat)
    requires FairItems(items)
    ensures NoFeeds(PrintItems(items, indent))
    decreases items
  {
    hide FairItem, PrintItem;
    if items != [] {
      ItemFeedFree(items[0], indent);
      ItemsFeedFree(items[1..], indent);
    }
  }

  lemma {:induction false} ItemFeedFree(item: Node, indent: nat)
    requires FairItem(item)
    ensures NoFeeds(PrintItem(item, indent))
    decreases item
  {
    hide EntryText, NoLineFeed, Quoted;
    match item
    case Scalar(v) =>
      TextFeedFree(v, v);
      LineFeedFree(indent, "- " + Quoted(v));
    case Map(es) =>
      if es == [] {
        NothingFeeds();
        TextFeedFree([], []);
        LineFeedFree(indent, "-");
      } else {
        assert FairEntries(es) && FairEntry(es[0]);
        TextFeedFree(es[0].key, es[0].value.text);
        LineFeedFree(indent, "- " + EntryText(es[0].key, es[0].value.text));
        EntriesFeedFree(es[1..], indent + 2);
      }
  }

  lemma NothingFeeds()
    ensures NoLineFeed([])
  {
  }
}
