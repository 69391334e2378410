/** Label sets in the canonical form that Prometheus Remote Write asks for, and the series they identify. */
module Labels {
  import opened Options

  datatype Label = Label(name: string, value: string)

  // ---- Byte-wise order on names ------------------------------------------------------

  predicate Less(a: string, b: string)
    decreases |a|
  {
    b != [] && (a == [] || a[0] < b[0] || (a[0] == b[0] && Less(a[1..], b[1..])))
  }

  lemma {:induction false} LessTotal(a: string, b: string)
    ensures Less(a, b) || a == b || Less(b, a)
    decreases |a|
  {
    if a != [] && b != [] && a[0] == b[0] {
      LessTotal(a[1..], b[1..]);
      assert a == [a[0]] + a[1..] && b == [b[0]] + b[1..];
    }
  }

  lemma {:induction false} LessIrreflexive(a: string)
    ensures !Less(a, a)
  {
    if a != [] {
      LessIrreflexive(a[1..]);
    }
  }

  lemma {:induction false} LessTransitive(a: string, b: string, c: string)
    requires Less(a, b) && Less(b, c)
    ensures Less(a, c)
    decreases |a|
  {
    if a != [] && a[0] == b[0] && b[0] == c[0] {
      LessTransitive(a[1..], b[1..], c[1..]);
    }
  }

  // Each name is below the next: sorted, and without duplicates.
  ghost predicate Ascending(s: seq<Label>) {
    forall i, j :: 0 <= i < j < |s| ==> Less(s[i].name, s[j].name)
  }

  ghost predicate SameElements(a: seq<Label>, b: seq<Label>) {
    forall l :: l in a <==> l in b
  }

  /** A canonical label set is determined by its labels. */
  lemma {:induction false} CanonicalUnique(a: seq<Label>, b: seq<Label>)
    requires Ascending(a) && Ascending(b) && SameElements(a, b)
    ensures a == b
    decreases |a|
  {
    if a == [] {
      assert forall i :: 0 <= i < |b| ==> b[i] in b;
    } else {
      assert a[0] in b && b != [] && b[0] in b && b[0] in a;
      var i :| 0 <= i < |b| && b[i] == a[0];
      var j :| 0 <= j < |a| && a[j] == b[0];
      if i > 0 && j > 0 {
        LessTransitive(a[0].name, a[j].name, b[i].name);
        LessIrreflexive(a[0].name);
      }
      TailSame(a, b);
      CanonicalUnique(a[1..], b[1..]);
    }
  }

  lemma TailSame(a: seq<Label>, b: seq<Label>)
    requires a != [] && b != [] && a[0] == b[0] && Ascending(a) && Ascending(b) && SameElements(a, b)
    ensures Ascending(a[1..]) && Ascending(b[1..]) && SameElements(a[1..], b[1..])
  {
    LessIrreflexive(a[0].name);
    forall l
      ensures l in a[1..] <==> l in b[1..]
    {
      assert l in a <==> l in b;
      assert a == [a[0]] + a[1..] && b == [b[0]] + b[1..];
      if l in a[1..] {
        var k :| 0 <= k < |a[1..]| && a[1..][k] == l;
        assert Less(a[0].name, a[k + 1].name);
      }
      if l in b[1..] {
        var k :| 0 <= k < |b[1..]| && b[1..][k] == l;
        assert Less(b[0].name, b[k + 1].name);
      }
    }
  }

  // ---- What the merged set means -------------------------------------------------------

  // The labels of a metric that have a name.
  function Named(labels: seq<Label>): seq<Label> {
    if labels == [] then []
    else (if labels[0].name == "" then [] else [labels[0]]) + Named(labels[1..])
  }

  // All candidates, in order of precedence.
  function Candidates(name: string, labels: seq<Label>, extra: Option<Label>, ext: seq<Label>): seq<Label> {
    [Label("__name__", name)] + Named(labels) + (if extra.Some? then [extra.value] else []) + ext
  }

  // The first value that is given to a name.
  function First(s: seq<Label>, name: string): Option<string>
    decreases |s|
  {
    if s == [] then None
    else if s[0].name == name then Some(s[0].value)
    else First(s[1..], name)
  }

  // The canonical label set of the candidates: for each name the first value.
  ghost predicate Merges(candidates: seq<Label>, out: seq<Label>) {
    Ascending(out) && Chosen(candidates, out)
  }

  ghost predicate Chosen(candidates: seq<Label>, out: seq<Label>) {
    forall l :: l in out <==> First(candidates, l.name) == Some(l.value)
  }

  /** There is only one such set. */
  lemma MergeUnique(candidates: seq<Label>, a: seq<Label>, b: seq<Label>)
    requires Merges(candidates, a) && Merges(candidates, b)
    ensures a == b
  {
    CanonicalUnique(a, b);
  }

  // ---- Distinct series stay distinct ------------------------------------------------------

  lemma {:induction false} FirstAppend(a: seq<Label>, b: seq<Label>, name: string)
    ensures First(a + b, name) == if First(a, name).Some? then First(a, name) else First(b, name)
    decreases |a|
  {
    if a == [] {
      assert a + b == b;
    } else {
      assert (a + b)[1..] == a[1..] + b;
      FirstAppend(a[1..], b, name);
    }
  }

  // A metric's own labels: named, none of them the metric name, none twice.
  ghost predicate WellNamed(labels: seq<Label>) {
    && (forall i :: 0 <= i < |labels| ==> labels[i].name != "" && labels[i].name != "__name__")
    && (forall i, j :: 0 <= i < j < |labels| ==> labels[i].name != labels[j].name)
  }

  lemma {:induction false} AllNamed(labels: seq<Label>)
    requires WellNamed(labels)
    ensures Named(labels) == labels
    decreases |labels|
  {
    if labels != [] {
      assert forall i :: 0 <= i < |labels[1..]| ==> labels[1..][i] == labels[i + 1];
      AllNamed(labels[1..]);
    }
  }

  lemma {:induction false} FirstAt(labels: seq<Label>, i: nat)
    requires i < |labels| && forall j, k :: 0 <= j < k < |labels| ==> labels[j].name != labels[k].name
    ensures First(labels, labels[i].name) == Some(labels[i].value)
    decreases |labels|
  {
    if i > 0 {
      assert forall j :: 0 <= j < |labels[1..]| ==> labels[1..][j] == labels[j + 1];
      FirstAt(labels[1..], i - 1);
    }
  }

  lemma {:induction false} FirstNone(labels: seq<Label>, name: string)
    requires forall i :: 0 <= i < |labels| ==> labels[i].name != name
    ensures First(labels, name) == None
    decreases |labels|
  {
    if labels != [] {
      assert forall i :: 0 <= i < |labels[1..]| ==> labels[1..][i] == labels[i + 1];
      FirstNone(labels[1..], name);
    }
  }

  // What identifies a series before merging.
  datatype Series = Series(name: string, labels: seq<Label>, extra: Option<Label>)

  ghost predicate WellFormed(s: Series) {
    && WellNamed(s.labels)
    && (s.extra.Some? ==>
          && s.extra.value.name != "__name__"
          && forall i :: 0 <= i < |s.labels| ==> s.labels[i].name != s.extra.value.name)
  }

  // The same label names, in the same order.
  ghost predicate SameShape(a: Series, b: Series) {
    && |a.labels| == |b.labels| && (forall i :: 0 <= i < |a.labels| ==> a.labels[i].name == b.labels[i].name)
    && a.extra.Some? == b.extra.Some? && (a.extra.Some? ==> a.extra.value.name == b.extra.value.name)
  }

  function CandidatesOf(s: Series, ext: seq<Label>): seq<Label> {
    Candidates(s.name, s.labels, s.extra, ext)
  }

  // What a well-formed series contributes is not overridden.
  lemma OwnLabels(s: Series, ext: seq<Label>)
    requires WellFormed(s)
    ensures First(CandidatesOf(s, ext), "__name__") == Some(s.name)
    ensures forall i :: 0 <= i < |s.labels| ==> First(CandidatesOf(s, ext), s.labels[i].name) == Some(s.labels[i].value)
    ensures s.extra.Some? ==> First(CandidatesOf(s, ext), s.extra.value.name) == Some(s.extra.value.value)
  {
    AllNamed(s.labels);
    var own := [Label("__name__", s.name)];
    var tail := (if s.extra.Some? then [s.extra.value] else []) + ext;
    assert CandidatesOf(s, ext) == own + (s.labels + tail);
    FirstAppend(own, s.labels + tail, "__name__");
    forall i | 0 <= i < |s.labels|
      ensures First(CandidatesOf(s, ext), s.labels[i].name) == Some(s.labels[i].value)
    {
      FirstAppend(own, s.labels + tail, s.labels[i].name);
      FirstAppend(s.labels, tail, s.labels[i].name);
      FirstAt(s.labels, i);
    }
    if s.extra.Some? {
      var n := s.extra.value.name;
      FirstAppend(own, s.labels + tail, n);
      FirstAppend(s.labels, tail, n);
      FirstNone(s.labels, n);
      FirstAppend([s.extra.value], ext, n);
    }
  }

  /**
   Merging keeps identities apart: two series of the same shape that merge to
   the same label set have the same name, labels and extra label.
   */
  lemma MergeInjective(a: Series, b: Series, ext: seq<Label>, out: seq<Label>)
    requires WellFormed(a) && WellFormed(b)
    requires Merges(CandidatesOf(a, ext), out) && Merges(CandidatesOf(b, ext), out)
    ensures a.name == b.name
    ensures SameShape(a, b) ==> a == b
  {
    OwnLabels(a, ext);
    OwnLabels(b, ext);
    SameFirst(CandidatesOf(a, ext), CandidatesOf(b, ext), out, "__name__");
    if SameShape(a, b) {
      forall i | 0 <= i < |a.labels|
        ensures a.labels[i] == b.labels[i]
      {
        SameFirst(CandidatesOf(a, ext), CandidatesOf(b, ext), out, a.labels[i].name);
      }
      assert a.labels == b.labels;
      if a.extra.Some? {
        SameFirst(CandidatesOf(a, ext), CandidatesOf(b, ext), out, a.extra.value.name);
      }
    }
  }

  lemma SameFirst(c: seq<Label>, d: seq<Label>, out: seq<Label>, name: string)
    requires Merges(c, out) && Merges(d, out)
    requires First(c, name).Some?
    ensures First(c, name) == First(d, name)
  {
    assert Label(name, First(c, name).value) in out;
  }

  // ---- Which value a name gets ----------------------------------------------------------------

  lemma {:induction false} NamedFirst(labels: seq<Label>, name: string)
    ensures First(Named(labels), name) == if name == "" then None else First(labels, name)
    decreases |labels|
  {
    if labels != [] {
      NamedFirst(labels[1..], name);
      var head := if labels[0].name == "" then [] else [labels[0]];
      FirstAppend(head, Named(labels[1..]), name);
      assert First(head, name) == if name != "" && labels[0].name == name then Some(labels[0].value) else None;
    }
  }

  lemma FirstOne(l: Label, name: string)
    ensures First([l], name) == if l.name == name then Some(l.value) else None
  {
    assert First([l][1..], name) == None;
  }

  /**
   In the merged labels the metric name comes first, then the metric's own labels that have a name,
   then the extra label of a bucket or quantile, and an external label only where none of these has its name.
   */
  lemma Precedence(s: Series, ext: seq<Label>, out: seq<Label>, name: string, value: string)
    requires Merges(CandidatesOf(s, ext), out)
    ensures Label(name, value) in out <==>
            if name == "__name__" then value == s.name
            else if name != "" && First(s.labels, name).Some? then First(s.labels, name) == Some(value)
            else if s.extra.Some? && s.extra.value.name == name then value == s.extra.value.value
            else First(ext, name) == Some(value)
  {
    hide Ascending, First, Named;
    var own := [Label("__name__", s.name)];
    var extra := if s.extra.Some? then [s.extra.value] else [];
    assert CandidatesOf(s, ext) == own + (Named(s.labels) + (extra + ext));
    FirstAppend(own, Named(s.labels) + (extra + ext), name);
    FirstAppend(Named(s.labels), extra + ext, name);
    NamedFirst(s.labels, name);
    FirstOne(own[0], name);
    if s.extra.Some? {
      FirstAppend(extra, ext, name);
      FirstOne(s.extra.value, name);
    } else {
      assert extra + ext == ext;
    }
    assert Label(name, value) in out <==> First(CandidatesOf(s, ext), name) == Some(value);
  }

  // ---- Merging as the source does it ----------------------------------------------------------

  // The place of a name in an ascending list.
  ghost predicate SplitsAt(s: seq<Label>, k: nat, l: Label) {
    && k <= |s|
    && (forall i :: 0 <= i < k ==> Less(s[i].name, l.name))
    && (forall i :: k <= i < |s| ==> Less(l.name, s[i].name))
  }

  lemma InsertKeeps(s: seq<Label>, k: nat, l: Label)
    requires Ascending(s) && SplitsAt(s, k, l)
    ensures Ascending(s[..k] + [l] + s[k..])
    ensures forall x :: x in s[..k] + [l] + s[k..] <==> x in s || x == l
  {
    hide Less;
    var t := s[..k] + [l] + s[k..];
    assert forall i :: 0 <= i < k ==> t[i] == s[i];
    assert t[k] == l;
    assert forall i :: k < i < |t| ==> t[i] == s[i - 1];
    assert s == s[..k] + s[k..];
  }

  // Sorting by name, for labels with pairwise different names.
  method SortByName(s: seq<Label>) returns (out: seq<Label>)
    requires forall i, j :: 0 <= i < j < |s| ==> s[i].name != s[j].name
    ensures Ascending(out) && SameElements(s, out)
  {
    out := [];
    for n := 0 to |s|
      invariant Ascending(out) && SameElements(s[..n], out)
    {
      var l := s[n];
      var k := 0;
      while k < |out| && Less(out[k].name, l.name)
        invariant 0 <= k <= |out|
        invariant forall i :: 0 <= i < k ==> Less(out[i].name, l.name)
      {
        k := k + 1;
      }
      forall i | k <= i < |out|
        ensures Less(l.name, out[i].name)
      {
        assert out[i] in s[..n] && out[k] in s[..n];
        LessTotal(l.name, out[k].name);
        if i > k {
          LessTransitive(l.name, out[k].name, out[i].name);
        }
      }
      InsertKeeps(out, k, l);
      assert s[..n + 1] == s[..n] + [l];
      out := out[..k] + [l] + out[k..];
    }
    assert s[..|s|] == s;
  }

  // out holds the first label of each name among the candidates, and have their names.
  ghost predicate Collected(candidates: seq<Label>, out: seq<Label>, have: set<string>) {
    && Chosen(candidates, out)
    && (forall n :: n in have <==> First(candidates, n).Some?)
    && (forall i, j :: 0 <= i < j < |out| ==> out[i].name != out[j].name)
  }

  lemma CollectOne(candidates: seq<Label>, out: seq<Label>, have: set<string>, l: Label)
    requires Collected(candidates, out, have)
    ensures l.name in have ==> Collected(candidates + [l], out, have)
    ensures l.name !in have ==> Collected(candidates + [l], out + [l], have + {l.name})
  {
    forall n
      ensures First(candidates + [l], n)
           == if n in have then First(candidates, n) else if n == l.name then Some(l.value) else None
    {
      FirstAppend(candidates, [l], n);
      assert First([l], n) == if n == l.name then Some(l.value) else None;
    }
    if l.name !in have {
      forall i | 0 <= i < |out|
        ensures out[i].name != l.name
      {
        assert out[i] in out;
        assert First(candidates, out[i].name).Some?;
      }
    }
  }

  lemma {:induction false} NamedSnoc(labels: seq<Label>, l: Label)
    ensures Named(labels + [l]) == Named(labels) + if l.name == "" then [] else [l]
    decreases |labels|
  {
    if labels == [] {
      assert labels + [l] == [l];
      assert Named([l][1..]) == [];
    } else {
      var all := labels + [l];
      assert all[0] == labels[0] && all[1..] == labels[1..] + [l];
      NamedSnoc(labels[1..], l);
      var head := if labels[0].name == "" then [] else [labels[0]];
      var tail := if l.name == "" then [] else [l];
      assert Named(all) == head + (Named(labels[1..]) + tail) == head + Named(labels[1..]) + tail;
    }
  }

  /** The merged labels are canonical: for each name the first candidate, in ascending order of names. */
  method MergeLabels(name: string, labels: seq<Label>, ext: seq<Label>, extraName: string, extraValue: string)
    returns (out: seq<Label>)
    ensures var extra := if extraName == "" then None else Some(Label(extraName, extraValue));
            Merges(Candidates(name, labels, extra, ext), out)
  {
    hide Chosen, Named;
    var first := Label("__name__", name);
    var all := [first];
    var have := {"__name__"};
    StartCollecting(first);
    ghost var seen := [first];
    NoneNamed();
    assert labels[..0] == [];
    for i := 0 to |labels|
      invariant seen == [first] + Named(labels[..i])
      invariant Collected(seen, all, have)
    {
      var l := labels[i];
      assert labels[..i + 1] == labels[..i] + [l];
      NamedSnoc(labels[..i], l);
      if l.name != "" {
        CollectOne(seen, all, have, l);
        seen := seen + [l];
        if l.name !in have {
          all := all + [l];
          have := have + {l.name};
        }
      }
    }
    assert labels[..|labels|] == labels;
    ghost var extra: seq<Label> := [];
    if extraName != "" {
      var l := Label(extraName, extraValue);
      extra := [l];
      CollectOne(seen, all, have, l);
      if extraName !in have {
        all := all + [l];
        have := have + {extraName};
      }
    }
    ghost var before := [first] + Named(labels) + extra;
    assert seen + extra == before && seen + [] == seen;
    assert before + ext[..0] == before;
    for i := 0 to |ext|
      invariant Collected(before + ext[..i], all, have)
    {
      var l := ext[i];
      CollectOne(before + ext[..i], all, have, l);
      assert before + ext[..i + 1] == before + ext[..i] + [l];
      if l.name !in have {
        all := all + [l];
        have := have + {l.name};
      }
    }
    assert ext[..|ext|] == ext;
    out := SortByName(all);
    SameChosen(before + ext, all, out);
  }

  lemma NoneNamed()
    ensures Named([]) == []
  {
  }

  lemma SameChosen(candidates: seq<Label>, a: seq<Label>, b: seq<Label>)
    requires Chosen(candidates, a) && SameElements(a, b)
    ensures Chosen(candidates, b)
  {
  }

  lemma StartCollecting(l: Label)
    ensures Collected([l], [l], {l.name})
  {
    forall n
      ensures First([l], n) == if n == l.name then Some(l.value) else None
    {
    }
  }

  // ---- Histograms --------------------------------------------------------------------------------

  // An upper bound, as it is written in a label; only an infinite one is written "+Inf".
  datatype Bound = Finite(text: string) | Infinite

  function BoundText(b: Bound): string {
    match b
    case Finite(text) => text
    case Infinite => "+Inf"
  }

  function Occurrences<T(==)>(s: seq<T>, x: T): nat
    decreases |s|
  {
    if s == [] then 0 else Occurrences(s[..|s| - 1], x) + if s[|s| - 1] == x then 1 else 0
  }
}
