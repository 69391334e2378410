/** What every tree is like that the parser builds. */
module YamlImage {
  import opened Strings
  import opened YamlText
  import opened YamlTree
  import opened Yaml

  // ---- Pieces of a line ------------------------------------------------------------------

  lemma PieceGood(s: string, i: nat, j: nat)
    requires i <= j <= |s|
    ensures GoodValue(s) ==> GoodValue(s[i..j])
    ensures ':' !in s ==> ':' !in s[i..j]
  {
    var t := s[i..j];
    assert forall k :: 0 <= k < |t| ==> t[k] == s[i + k];
  }

  lemma {:induction false} TrimLeftGood(s: string)
    ensures GoodValue(s) ==> GoodValue(TrimLeft(s))
    ensures ':' !in s ==> ':' !in TrimLeft(s)
    ensures TrimLeft(s) != [] ==> !IsSpace(TrimLeft(s)[0])
    decreases |s|
  {
    hide GoodValue, IsSpace;
    if s != [] && IsSpace(s[0]) {
      PieceGood(s, 1, |s|);
      assert s[1..|s|] == s[1..];
      TrimLeftGood(s[1..]);
    }
  }

  lemma {:induction false} TrimRightGood(s: string)
    ensures GoodValue(s) ==> GoodValue(TrimRight(s))
    ensures ':' !in s ==> ':' !in TrimRight(s)
    ensures TrimRight(s) <= s && (TrimRight(s) != [] ==> !IsSpace(TrimRight(s)[|TrimRight(s)| - 1]))
    decreases |s|
  {
    hide GoodValue, IsSpace;
    if s != [] && IsSpace(s[|s| - 1]) {
      PieceGood(s, 0, |s| - 1);
      TrimRightGood(s[..|s| - 1]);
    }
  }

  lemma TrimGood(s: string)
    ensures GoodValue(s) ==> GoodValue(TrimSpace(s))
    ensures ':' !in s ==> ':' !in TrimSpace(s)
    ensures Tight(TrimSpace(s))
  {
    hide GoodValue, IsSpace;
    TrimLeftGood(s);
    TrimRightGood(TrimLeft(s));
  }

  lemma UnquoteGood(s: string)
    ensures GoodValue(s) ==> GoodValue(Unquote(s))
    ensures ':' !in s ==> ':' !in Unquote(s)
  {
    hide GoodValue;
    if |s| >= 2 {
      PieceGood(s, 1, |s| - 1);
    }
  }

  lemma {:induction false} FirstColonFirst(s: string)
    ensures FirstColon(s).None? ==> ':' !in s
    ensures FirstColon(s).Some? ==> ':' !in s[..FirstColon(s).value]
    decreases |s|
  {
    if s != [] && s[0] != ':' {
      FirstColonFirst(s[1..]);
      var i := FirstColon(s[1..]);
      if i.Some? {
        assert s[..i.value + 1] == [s[0]] + s[1..][..i.value];
      } else {
        assert s == [s[0]] + s[1..];
      }
    }
  }

  /** A line without comment splits into a name and a value that can stand in a tree. */
  lemma SplitGood(s: string)
    requires GoodValue(s)
    ensures match SplitKeyValue(s)
            case None => ':' !in s
            case Some(kv) => FairKey(kv.key) && GoodValue(Unquote(kv.value))
  {
    hide GoodValue, Tight, TrimSpace, Unquote, FirstColon;
    FirstColonFirst(s);
    match FirstColon(s) {
      case None =>
      case Some(i) =>
        PieceGood(s, 0, i);
        TrimGood(s[..i]);
        PieceGood(s, i + 1, |s|);
        assert s[i + 1..|s|] == s[i + 1..] && s[0..i] == s[..i];
        TrimGood(s[i + 1..]);
        UnquoteGood(TrimSpace(s[i + 1..]));
    }
  }

  lemma {:induction false} StripGood(s: string)
    ensures StripComment(s) <= s && NoComment(StripComment(s))
    decreases |s|
  {
    if s != [] && !(|s| >= 2 && s[0] == ' ' && s[1] == '#') {
      var t := StripComment(s[1..]);
      StripGood(s[1..]);
      var r := StripComment(s);
      assert r == [s[0]] + t;
      assert s == [s[0]] + s[1..];
      forall i | 0 <= i < |r| - 1
        ensures !(r[i] == ' ' && r[i + 1] == '#')
      {
        if i > 0 {
          assert r[i] == t[i - 1] && r[i + 1] == t[i];
        } else {
          assert r[1] == t[0] == s[1];
        }
      }
    }
  }

  lemma {:induction false} TrimBlanksPrefix(s: string)
    ensures TrimBlanks(s) <= s
    decreases |s|
  {
    if s != [] && (s[|s| - 1] == ' ' || s[|s| - 1] == '\t') {
      TrimBlanksPrefix(s[..|s| - 1]);
    }
  }

  lemma BodyGood(raw: string)
    requires NoLineFeed(raw)
    ensures Classify(raw).Content? ==> GoodValue(Classify(raw).body)
  {
    hide IsSpace, TrimSpace, StripComment, TrimBlanks, LeadingBlanks, GoodValue, NoComment;
    var text := StripComment(raw);
    var trimmed := TrimBlanks(text);
    StripGood(raw);
    PrefixLineFeed(raw, text);
    TrimBlanksPrefix(text);
    assert GoodValue(text) by { NowGood(text); }
    assert trimmed == text[0..|trimmed|];
    PieceGood(text, 0, |trimmed|);
    LeadingBlanksBound(trimmed);
    PieceGood(trimmed, LeadingBlanks(trimmed), |trimmed|);
    assert trimmed[LeadingBlanks(trimmed)..|trimmed|] == trimmed[LeadingBlanks(trimmed)..];
  }

  lemma PrefixLineFeed(s: string, t: string)
    requires NoLineFeed(s) && t <= s
    ensures NoLineFeed(t)
  {
    assert forall i :: 0 <= i < |t| ==> t[i] == s[i];
  }

  lemma NowGood(s: string)
    requires NoLineFeed(s) && NoComment(s)
    ensures GoodValue(s)
  {
  }

  // ---- The frame stack ----------------------------------------------------------------------

  // The node of an open block: unset, or with children that can stand in a tree.
  ghost predicate FairNode(n: Node) {
    match n
    case Unset => true
    case Scalar(_) => false
    case Map(es) => es != [] && FairEntries(es)
    case List(items) => items != [] && FairItems(items)
  }

  // A list item that has been opened by its first field.
  ghost predicate ItemMap(n: Node) {
    n.Map? && n.entries != [] && n.entries[0].value.Scalar? && FairEntries(n.entries)
  }

  // The last child of p stands for the open block c.
  ghost predicate Awaits(p: Node, c: Node) {
    match p
    case Map(es) => es != [] && es[|es| - 1].value.Unset?
    case List(items) => items != [] && ItemMap(c)
    case _ => false
  }

  ghost predicate FairStack(stack: seq<Frame>) {
    && stack != [] && stack[0].node.Map? && FairEntries(stack[0].node.entries)
    && (forall k :: 0 < k < |stack| ==> FairNode(stack[k].node))
    && (forall k :: 0 <= k < |stack| - 1 ==> Awaits(stack[k].node, stack[k + 1].node))
  }

  // One entry more, or another value of the last one.
  lemma FairSnoc(es: seq<Entry>, e: Entry)
    requires FairEntries(es) && FairEntry(e)
    ensures FairEntries(es + [e])
  {
  }

  lemma FairItemSnoc(items: seq<Node>, item: Node)
    requires FairItems(items) && FairItem(item)
    ensures FairItems(items + [item])
  {
  }

  lemma FairInit(es: seq<Entry>)
    requires FairEntries(es) && es != []
    ensures FairEntries(es[..|es| - 1]) && FairEntry(es[|es| - 1])
  {
  }

  lemma FairItemInit(items: seq<Node>)
    requires FairItems(items) && items != []
    ensures FairItems(items[..|items| - 1]) && FairItem(items[|items| - 1])
  {
  }

  lemma FairWithLast(p: Node, c: Node)
    requires Awaits(p, c) && FairNode(c)
    requires (p.Map? && FairEntries(p.entries)) || (p.List? && FairItems(p.items))
    ensures FairNode(WithLast(p, c))
    ensures ItemMap(p) ==> ItemMap(WithLast(p, c))
    ensures p.Map? ==> WithLast(p, c).Map? && FairEntries(WithLast(p, c).entries)
  {
    hide FairEntries, FairItems;
    match p {
      case Map(es) =>
        FairInit(es);
        var e := Entry(es[|es| - 1].key, c);
        assert FairEntry(e);
        FairSnoc(es[..|es| - 1], e);
      case List(items) =>
        FairItemInit(items);
        FairItemSnoc(items[..|items| - 1], c);
      case _ =>
    }
  }

  lemma PopFair(stack: seq<Frame>)
    requires FairStack(stack) && |stack| > 1
    ensures FairStack(Pop(stack))
  {
    hide FairEntries, FairItems, WithLast;
    var n := |stack|;
    var p, c := stack[n - 2].node, stack[n - 1].node;
    assert Awaits(stack[n - 2].node, stack[n - 2 + 1].node);
    FairWithLast(p, c);
    var r := Pop(stack);
    assert forall k :: 0 <= k < n - 2 ==> r[k] == stack[k];
    assert r[n - 2].node == WithLast(p, c);
    if n > 2 {
      assert Awaits(stack[n - 3].node, stack[n - 3 + 1].node);
    }
  }

  lemma {:induction false} CloseFair(stack: seq<Frame>, indent: int)
    requires FairStack(stack)
    ensures FairStack(Close(stack, indent))
    decreases |stack|
  {
    hide Pop, FairStack;
    FairOpen(stack);
    if |stack| > 1 && Top(stack).indent >= indent {
      PopFair(stack);
      CloseFair(Pop(stack), indent);
    }
  }

  lemma FairOpen(stack: seq<Frame>)
    requires FairStack(stack)
    ensures stack != []
  {
  }

  // The top node changes to one that its parent awaits as well.
  lemma ReplaceFair(stack: seq<Frame>, node: Node)
    requires FairStack(stack) && FairNode(node) && (|stack| == 1 ==> node.Map?)
    requires ItemMap(Top(stack).node) ==> ItemMap(node)
    ensures FairStack(WithTop(stack, node))
  {
    hide FairEntries, FairItems;
    var r, n := WithTop(stack, node), |stack|;
    assert forall k :: 0 <= k < n - 1 ==> r[k] == stack[k];
    if n > 1 {
      assert Awaits(stack[n - 2].node, stack[n - 2 + 1].node);
    }
  }

  lemma PushFair(stack: seq<Frame>, indent: nat, node: Node)
    requires FairStack(stack) && FairNode(node) && Awaits(Top(stack).node, node)
    ensures FairStack(stack + [Frame(indent, node)])
  {
    hide FairEntries, FairItems, FairNode;
    var r := stack + [Frame(indent, node)];
    assert forall k :: 0 <= k < |stack| ==> r[k] == stack[k];
  }

  lemma TopFair(stack: seq<Frame>)
    requires FairStack(stack)
    ensures var n := Top(stack).node;
            (n.Map? && FairEntries(n.entries)) || n.Unset? || (n.List? && FairItems(n.items) && |stack| > 1)
  {
    assert |stack| > 1 ==> FairNode(stack[|stack| - 1].node);
  }

  lemma EntryPlacedFair(stack: seq<Frame>, indent: nat, body: string, line: nat)
    requires FairStack(stack) && GoodValue(body)
    ensures var r := PlaceEntry(stack, indent, body, line); r.Reading? ==> FairStack(r.stack)
  {
    hide FairStack, FairEntries, GoodValue, FairKey, SplitKeyValue, Unquote, WithTop;
    FairOpen(stack);
    SplitGood(body);
    TopFair(stack);
    var parent := Top(stack).node;
    match SplitKeyValue(body) {
      case None =>
      case Some(kv) =>
        if !parent.List? {
          var entries := if parent.Map? then parent.entries else [];
          NoEntriesFair();
          var child := if kv.value == "" then Unset else Scalar(Unquote(kv.value));
          var e := Entry(kv.key, child);
          assert FairEntry(e);
          FairSnoc(entries, e);
          var node := Map(entries + [e]);
          ReplaceFair(stack, node);
          if kv.value == "" {
            PushFair(WithTop(stack, node), indent, Unset);
          }
        }
    }
  }

  lemma NoEntriesFair()
    ensures FairEntries([]) && FairItems([])
  {
  }

  lemma ItemOfFair(text: string)
    requires GoodValue(text)
    ensures FairItem(ItemOf(text))
    ensures ItemOf(text).Map? && ItemOf(text).entries != [] ==> ItemMap(ItemOf(text))
  {
    hide GoodValue, FairKey, SplitKeyValue, Unquote;
    SplitGood(text);
    UnquoteGood(text);
    if text != "" && SplitKeyValue(text).Some? {
      var kv := SplitKeyValue(text).value;
      assert FairEntry(Entry(kv.key, Scalar(Unquote(kv.value))));
      NoEntriesFair();
      FairSnoc([], Entry(kv.key, Scalar(Unquote(kv.value))));
      assert [] + [Entry(kv.key, Scalar(Unquote(kv.value)))] == [Entry(kv.key, Scalar(Unquote(kv.value)))];
    }
  }

  lemma ItemPlacedFair(stack: seq<Frame>, indent: nat, body: string, line: nat)
    requires FairStack(stack) && GoodValue(body) && IsItem(body)
    ensures var r := PlaceItem(stack, indent, body, line); r.Reading? ==> FairStack(r.stack)
  {
    hide FairStack, FairEntries, FairItems, GoodValue, ItemOf, TrimSpace, WithTop, FairItem;
    FairOpen(stack);
    TopFair(stack);
    var parent := Top(stack).node;
    if !parent.Map? {
      var items := if parent.List? then parent.items else [];
      var text := if body == "-" then "" else TrimSpace(body[2..]);
      NoValueGood();
      if body != "-" {
        PieceGood(body, 2, |body|);
        assert body[2..|body|] == body[2..];
        TrimGood(body[2..]);
      }
      var item := ItemOf(text);
      NoEntriesFair();
      ItemOfFair(text);
      FairItemSnoc(items, item);
      var node := List(items + [item]);
      RootNotUnset(stack);
      ReplaceFair(stack, node);
      if item.Map? && item.entries != [] {
        PushFair(WithTop(stack, node), indent, item);
      }
    }
  }

  lemma RootNotUnset(stack: seq<Frame>)
    requires FairStack(stack)
    ensures |stack| == 1 ==> Top(stack).node.Map?
  {
  }

  lemma NoValueGood()
    ensures GoodValue("")
  {
  }

  ghost predicate FairState(st: State) {
    st.Reading? ==> FairStack(st.stack)
  }

  lemma StepFair(st: State, raw: string, limit: nat)
    requires st.Reading? && FairStack(st.stack) && NoLineFeed(raw)
    ensures st.stack != [] && FairState(Step(st, raw, limit))
  {
    hide FairStack, Close, PlaceItem, PlaceEntry, Classify, GoodValue, Fits, NoLineFeed;
    FairOpen(st.stack);
    CutLineFeed(raw);
    BodyGood(DropCR(raw));
    match Classify(DropCR(raw)) {
      case Skipped =>
      case Odd =>
      case Content(indent, body) =>
        CloseFair(st.stack, indent);
        var base := Close(st.stack, indent);
        if IsItem(body) {
          ItemPlacedFair(base, indent, body, st.line + 1);
        } else {
          EntryPlacedFair(base, indent, body, st.line + 1);
        }
    }
  }

  lemma CutLineFeed(raw: string)
    requires NoLineFeed(raw)
    ensures NoLineFeed(DropCR(raw))
  {
    PrefixLineFeed(raw, DropCR(raw));
  }

  lemma {:induction false} RunFair(st: State, lines: seq<string>, limit: nat)
    requires FairState(st) && NoFeeds(lines)
    ensures (st.Reading? ==> st.stack != []) && FairState(Run(st, lines, limit))
    decreases |lines|
  {
    hide Step, FairStack, NoLineFeed;
    if st.Reading? {
      FairOpen(st.stack);
      if lines != [] {
        StepFair(st, lines[0], limit);
        assert forall i :: 0 <= i < |lines[1..]| ==> lines[1..][i] == lines[i + 1];
        RunFair(Step(st, lines[0], limit), lines[1..], limit);
      }
    }
  }

  lemma {:induction false} ScanFeeds(text: string)
    ensures NoFeeds(Scan(text))
    decreases |text|
  {
    if text != [] {
      var n := LineLength(text);
      LineLengthBound(text);
      LineHasNone(text);
      if n < |text| {
        ScanFeeds(text[n + 1..]);
      }
    }
  }

  lemma {:induction false} LineHasNone(text: string)
    ensures LineLength(text) <= |text| && '\n' !in text[..LineLength(text)]
    decreases |text|
  {
    if text != [] && text[0] != '\n' {
      LineHasNone(text[1..]);
      assert text[..LineLength(text)] == [text[0]] + text[1..][..LineLength(text[1..])];
    }
  }

  lemma StartFair()
    ensures FairState(START)
  {
    NoEntriesFair();
  }

  /** Whatever the text: names and values in the tree can stand on a line, and no block in it is empty. */
  lemma ParsedIsFair(text: string, limit: nat)
    ensures ParseWithin(text, limit).Tree? ==>
              ParseWithin(text, limit).root.Map? && FairEntries(ParseWithin(text, limit).root.entries)
  {
    hide Run, Close, FairStack, Scan, FairEntries;
    ScanFeeds(text);
    StartFair();
    RunFair(START, Scan(text), limit);
    AlwaysSound(Scan(text), limit);
    var st := Run(START, Scan(text), limit);
    if st.Reading? {
      RootIsMap(st.stack);
      CloseFair(st.stack, 0);
      RootFair(Close(st.stack, 0));
    }
  }

  lemma RootFair(stack: seq<Frame>)
    requires FairStack(stack)
    ensures stack != [] && stack[0].node.Map? && FairEntries(stack[0].node.entries)
  {
  }
}
