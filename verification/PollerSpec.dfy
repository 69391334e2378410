/**
 The model poller as a function on its state: what one scrape does to the
 metrics, the metadata cache and the set of models seen loaded.
 */
module PollerSpec {
  import opened Options

  datatype Info = Info(family: string, quant: string)
  datatype Label = Label(name: string, info: Info)

  datatype Running = Running(name: string, vram: int)

  // What a list request came back with; a JSON null differs from an empty list.
  datatype Listing<T> = Failed | Null | Models(models: seq<T>)

  datatype Snapshot = Snapshot(healthy: bool, ps: Listing<Running>, tags: Listing<string>)

  // What the metadata service would answer during this scrape.
  type Show = string -> Info

  datatype State = State(
    up: bool,
    initialized: bool,
    prevLoaded: set<string>,
    cache: map<string, Info>,
    loaded: map<Label, int>,
    vram: map<Label, int>,
    loadTotal: map<Label, nat>,
    unloadTotal: map<Label, nat>,
    loadEvents: map<string, nat>,
    unloadEvents: map<string, nat>)

  const NEW: State := State(false, false, {}, map[], map[], map[], map[], map[], map[], map[])

  function Count<K>(m: map<K, nat>, k: K): nat {
    if k in m then m[k] else 0
  }

  function Inc<K>(m: map<K, nat>, k: K): map<K, nat> {
    m[k := Count(m, k) + 1]
  }

  // What a map holds at a key.
  function Get<K, V>(m: map<K, V>, k: K): Option<V> {
    if k in m then Some(m[k]) else None
  }

  // Zero written at each of the keys.
  ghost function ZeroAll(m: map<Label, int>, keys: set<Label>): (r: map<Label, int>)
    ensures forall k :: Get(r, k) == if k in keys then Some(0) else Get(m, k)
    decreases |keys|
  {
    if keys == {} then m
    else
      var k :| k in keys;
      var r := ZeroAll(m, keys - {k});
      ZeroOne(m, keys, k, r);
      r[k := 0]
  }

  lemma ZeroOne(m: map<Label, int>, keys: set<Label>, k: Label, r: map<Label, int>)
    requires k in keys && forall x :: Get(r, x) == if x in keys - {k} then Some(0) else Get(m, x)
    ensures forall x :: Get(r[k := 0], x) == if x in keys then Some(0) else Get(m, x)
  {
    forall x
      ensures Get(r[k := 0], x) == if x in keys then Some(0) else Get(m, x)
    {
      assert Get(r, x) == if x in keys - {k} then Some(0) else Get(m, x);
    }
  }

  // Each of the keys counted once more.
  ghost function IncAll<K(!new)>(m: map<K, nat>, keys: set<K>): (r: map<K, nat>)
    ensures CountedAt(m, keys, r)
    decreases |keys|
  {
    if keys == {} then m
    else
      var k :| k in keys;
      var r := IncAll(m, keys - {k});
      IncOne(m, keys, k, r);
      Inc(r, k)
  }

  ghost predicate CountedAt<K(!new)>(m: map<K, nat>, keys: set<K>, r: map<K, nat>) {
    && (forall k :: k in r <==> k in m || k in keys)
    && (forall k :: Count(r, k) == Count(m, k) + if k in keys then 1 else 0)
  }

  lemma IncOne<K(!new)>(m: map<K, nat>, keys: set<K>, k: K, r: map<K, nat>)
    requires k in keys && CountedAt(m, keys - {k}, r)
    ensures CountedAt(m, keys, Inc(r, k))
  {
    forall x
      ensures Count(Inc(r, k), x) == Count(m, x) + if x in keys then 1 else 0
    {
      assert Count(r, x) == Count(m, x) + if x in keys - {k} then 1 else 0;
    }
  }

  function Lookup(cache: map<string, Info>, name: string, show: Show): Info {
    if name in cache then cache[name] else show(name)
  }

  // ---- Loads --------------------------------------------------------------------------

  function OneRunning(s: State, m: Running, show: Show): State {
    var info := Lookup(s.cache, m.name, show);
    var key := Label(m.name, info);
    var isNew := m.name !in s.prevLoaded;
    s.(cache := s.cache[m.name := info],
       loaded := s.loaded[key := 1],
       vram := s.vram[key := m.vram],
       loadTotal := if isNew then Inc(s.loadTotal, key) else s.loadTotal,
       loadEvents := if isNew && s.initialized then Inc(s.loadEvents, m.name) else s.loadEvents)
  }

  function AllRunning(s: State, models: seq<Running>, show: Show): State
    decreases |models|
  {
    if models == [] then s
    else OneRunning(AllRunning(s, models[..|models| - 1], show), models[|models| - 1], show)
  }

  function Names(models: seq<Running>): set<string> {
    set m | m in models :: m.name
  }

  // ---- Unloads ---------------------------------------------------------------------------

  // The cache after every name has been looked up.
  ghost function Filled(cache: map<string, Info>, names: set<string>, show: Show): (c: map<string, Info>)
    ensures FilledAt(cache, names, show, c)
    decreases |names|
  {
    if names == {} then cache
    else
      var n :| n in names;
      var c := Filled(cache, names - {n}, show);
      c[n := Lookup(c, n, show)]
  }

  ghost predicate FilledAt(cache: map<string, Info>, names: set<string>, show: Show, c: map<string, Info>) {
    forall n :: Get(c, n) == if n in names then Some(Lookup(cache, n, show)) else Get(cache, n)
  }

  function LabelsOf(names: set<string>, cache: map<string, Info>): set<Label> {
    set n | n in names && n in cache :: Label(n, cache[n])
  }

  ghost function Unloaded(s: State, gone: set<string>, show: Show): State {
    var cache := Filled(s.cache, gone, show);
    var labels := LabelsOf(gone, cache);
    s.(cache := cache,
       loaded := ZeroAll(s.loaded, labels),
       vram := ZeroAll(s.vram, labels),
       unloadTotal := IncAll(s.unloadTotal, labels),
       unloadEvents := IncAll(s.unloadEvents, gone))
  }

  // ---- Reconciliation with the inventory ----------------------------------------------------

  function PrunedGauge(m: map<Label, int>, present: set<string>): map<Label, int> {
    m - set l | l in m && l.name !in present
  }

  function Pruned(s: State, present: set<string>): State {
    s.(cache := s.cache - (s.cache.Keys - present),
       loaded := PrunedGauge(s.loaded, present),
       vram := PrunedGauge(s.vram, present))
  }

  function Present(tags: seq<string>, current: set<string>): set<string> {
    (set t | t in tags) + current
  }

  function ModelsOf<T>(l: Listing<T>): seq<T> {
    if l.Models? then l.models else []
  }

  ghost function Scraped(s: State, snap: Snapshot, show: Show): State {
    if !snap.healthy then s.(up := false)
    else if snap.ps.Failed? then s.(up := true)
    else
      var models := ModelsOf(snap.ps);
      var current := Names(models);
      var s1 := AllRunning(s.(up := true), models, show);
      var s2 := Unloaded(s1, s.prevLoaded - current, show);
      var s3 := if snap.tags.Models? && snap.ps.Models? then Pruned(s2, Present(snap.tags.models, current)) else s2;
      s3.(prevLoaded := current, initialized := true)
  }

  // A request that completes between scrapes looks its model up, too.
  function Requested(s: State, name: string, show: Show): State {
    s.(cache := s.cache[name := Lookup(s.cache, name, show)])
  }

  // ---- Agreement with the snapshots ------------------------------------------------------------

  // The label under which a loaded model is exported.
  predicate Shown(s: State, l: Label) {
    l.name in s.prevLoaded && l.name in s.cache && s.cache[l.name] == l.info
  }

  // The gauge is one exactly for the loaded models, and per label the loads exceed the unloads by that much.
  ghost predicate Agrees(s: State) {
    Steady(s) && Balanced(s)
  }

  ghost predicate Steady(s: State) {
    (forall n :: n in s.prevLoaded ==> n in s.cache) && GaugeIs(s)
  }

  ghost predicate GaugeIs(s: State) {
    forall l :: if Shown(s, l) then Get(s.loaded, l) == Some(1)
                else Get(s.loaded, l) == None || Get(s.loaded, l) == Some(0)
  }

  ghost predicate Balanced(s: State) {
    forall l :: Count(s.loadTotal, l) == Count(s.unloadTotal, l) + if Shown(s, l) then 1 else 0
  }

  // By how much the counters miss their balance at one label.
  function Excess(s: State, l: Label): int {
    Count(s.loadTotal, l) - Count(s.unloadTotal, l) - if Shown(s, l) then 1 else 0
  }

  ghost predicate NoLess(s: State, t: State) {
    forall l :: Excess(s, l) <= Excess(t, l)
  }

  ghost predicate Alike(s: State, t: State) {
    forall l :: Excess(s, l) == Excess(t, l)
  }

  lemma BalancedMeans(s: State)
    ensures Balanced(s) <==> forall l :: Excess(s, l) == 0
  {
    if Balanced(s) {
      forall l ensures Excess(s, l) == 0 {
        assert Count(s.loadTotal, l) == Count(s.unloadTotal, l) + if Shown(s, l) then 1 else 0;
      }
    }
    if forall l :: Excess(s, l) == 0 {
      forall l
        ensures Count(s.loadTotal, l) == Count(s.unloadTotal, l) + if Shown(s, l) then 1 else 0
      {
        assert Excess(s, l) == 0;
      }
    }
  }

  function Multiplicity(models: seq<Running>, name: string): nat
    decreases |models|
  {
    if models == [] then 0
    else Multiplicity(models[..|models| - 1], name) + if models[|models| - 1].name == name then 1 else 0
  }

  lemma {:induction false} MultiplicityNames(models: seq<Running>, name: string)
    ensures Multiplicity(models, name) > 0 <==> name in Names(models)
    decreases |models|
  {
    if models != [] {
      var init, m := models[..|models| - 1], models[|models| - 1];
      MultiplicityNames(init, name);
      assert models == init + [m];
    }
  }

  // ---- What the loop over running models does -------------------------------------------------------

  ghost predicate LoadedBy(s: State, r: State, models: seq<Running>, show: Show) {
    var names := Names(models);
    && r.prevLoaded == s.prevLoaded && r.initialized == s.initialized && r.up == s.up
    && r.unloadTotal == s.unloadTotal && r.unloadEvents == s.unloadEvents
    && FilledAt(s.cache, names, show, r.cache)
    && SetAt(s.loaded, LabelsOf(names, r.cache), 1, r.loaded)
    && Counted(s, r.loadTotal, LabelsOf(names, r.cache), models)
    && EventsCounted(s, r.loadEvents, models)
  }

  // g is m with v written at each of the labels.
  ghost predicate SetAt(m: map<Label, int>, labels: set<Label>, v: int, g: map<Label, int>) {
    forall l :: Get(g, l) == if l in labels then Some(v) else Get(m, l)
  }

  ghost predicate Counted(s: State, loadTotal: map<Label, nat>, labels: set<Label>, models: seq<Running>) {
    forall l :: Count(loadTotal, l) == Count(s.loadTotal, l)
                  + if l.name !in s.prevLoaded && l in labels then Multiplicity(models, l.name) else 0
  }

  ghost predicate EventsCounted(s: State, loadEvents: map<string, nat>, models: seq<Running>) {
    forall n :: Count(loadEvents, n) == Count(s.loadEvents, n)
                  + if n !in s.prevLoaded && s.initialized then Multiplicity(models, n) else 0
  }

  lemma NamesSnoc(models: seq<Running>, m: Running)
    ensures Names(models + [m]) == Names(models) + {m.name}
    ensures forall n :: Multiplicity(models + [m], n) == Multiplicity(models, n) + if m.name == n then 1 else 0
  {
    var all := models + [m];
    assert all[..|all| - 1] == models;
    assert forall x :: x in all <==> x in models || x == m;
  }

  // One more name in a filled cache.
  lemma FilledSnoc(cache: map<string, Info>, names: set<string>, name: string, show: Show, c: map<string, Info>)
    requires FilledAt(cache, names, show, c)
    ensures var d := c[name := Lookup(c, name, show)];
            && FilledAt(cache, names + {name}, show, d)
            && LabelsOf(names + {name}, d) == LabelsOf(names, c) + {Label(name, Lookup(c, name, show))}
  {
    var d := c[name := Lookup(c, name, show)];
    assert Get(c, name) == if name in names then Some(Lookup(cache, name, show)) else Get(cache, name);
    forall n
      ensures Get(d, n) == if n in names + {name} then Some(Lookup(cache, n, show)) else Get(cache, n)
    {
      assert Get(c, n) == if n in names then Some(Lookup(cache, n, show)) else Get(cache, n);
    }
    forall n | n in names
      ensures n in c && n in d && d[n] == c[n]
    {
      assert Get(c, n) == Some(Lookup(cache, n, show));
    }
  }

  // Once a name is in the cache, it has one label.
  lemma LabelOfName(name: string, names: set<string>, cache: map<string, Info>, show: Show, before: map<string, Info>)
    requires FilledAt(before, names, show, cache)
    ensures name in names ==> Label(name, Lookup(cache, name, show)) in LabelsOf(names, cache)
    ensures forall l :: l in LabelsOf(names, cache) && l.name == name ==> l == Label(name, Lookup(cache, name, show))
  {
    assert name in names ==> Get(cache, name) == Some(Lookup(before, name, show));
  }

  lemma {:induction false} LoadsModels(s: State, models: seq<Running>, show: Show)
    ensures LoadedBy(s, AllRunning(s, models, show), models, show)
    decreases |models|
  {
    if models == [] {
      assert Names(models) == {} && LabelsOf({}, s.cache) == {};
    } else {
      var init, m := models[..|models| - 1], models[|models| - 1];
      assert models == init + [m];
      LoadsModels(s, init, show);
      LoadsOne(s, AllRunning(s, init, show), init, m, show);
    }
  }

  lemma LoadsOne(s: State, p: State, models: seq<Running>, m: Running, show: Show)
    requires LoadedBy(s, p, models, show)
    ensures LoadedBy(s, OneRunning(p, m, show), models + [m], show)
  {
    hide Counted, EventsCounted, Multiplicity, Names, FilledAt, LabelsOf, Count, Inc, SetAt;
    var names := Names(models);
    var key := Label(m.name, Lookup(p.cache, m.name, show));
    NamesSnoc(models, m);
    FilledSnoc(s.cache, names, m.name, show, p.cache);
    var labels := LabelsOf(names, p.cache);
    GaugeOne(s.loaded, labels, p.loaded, key);
    LabelOfName(m.name, names, p.cache, show, s.cache);
    CountsOne(s, p.loadTotal, labels, models, m, key);
    EventsOne(s, p.loadEvents, models, m);
  }

  lemma GaugeOne(m: map<Label, int>, labels: set<Label>, g: map<Label, int>, key: Label)
    requires SetAt(m, labels, 1, g)
    ensures SetAt(m, labels + {key}, 1, g[key := 1])
  {
    assert forall l :: l != key ==> Get(g[key := 1], l) == Get(g, l);
  }

  lemma CountsOne(s: State, total: map<Label, nat>, labels: set<Label>, models: seq<Running>, m: Running, key: Label)
    requires Counted(s, total, labels, models) && key.name == m.name
    requires m.name in Names(models) ==> key in labels
    requires forall l :: l in labels && l.name == m.name ==> l == key
    ensures Counted(s, if m.name !in s.prevLoaded then Inc(total, key) else total, labels + {key}, models + [m])
  {
    hide Multiplicity, Names;
    NamesSnoc(models, m);
    MultiplicityNames(models, m.name);
  }

  lemma EventsOne(s: State, events: map<string, nat>, models: seq<Running>, m: Running)
    requires EventsCounted(s, events, models)
    ensures var more := if m.name !in s.prevLoaded && s.initialized then Inc(events, m.name) else events;
            EventsCounted(s, more, models + [m])
  {
    hide Multiplicity, Names;
    NamesSnoc(models, m);
  }

  // ---- One scrape ---------------------------------------------------------------------------

  // No model appears twice in the list in which it is first seen loaded.
  ghost predicate NewOnce(prev: set<string>, models: seq<Running>) {
    forall n :: n in Names(models) && n !in prev ==> Multiplicity(models, n) == 1
  }

  // The state after the loops over running and vanished models.
  ghost function Compared(s: State, models: seq<Running>, show: Show): State {
    var current := Names(models);
    Unloaded(AllRunning(s, models, show), s.prevLoaded - current, show).(prevLoaded := current)
  }

  // What the loops leave behind, label by label.
  ghost predicate ComparedAt(s: State, models: seq<Running>, show: Show, t: State, on: set<Label>, off: set<Label>) {
    && t.prevLoaded == Names(models)
    && (forall n :: n in s.prevLoaded || n in t.prevLoaded ==> n in t.cache)
    && (forall n :: n in s.prevLoaded ==> n in s.cache && t.cache[n] == s.cache[n])
    && (forall l :: l in on <==> Shown(t, l))
    && (forall l :: l in off <==> Shown(s, l) && l.name !in Names(models))
    && (forall l :: Get(t.loaded, l) == if l in off then Some(0) else if l in on then Some(1) else Get(s.loaded, l))
    && (forall l :: Count(t.unloadTotal, l) == Count(s.unloadTotal, l) + if l in off then 1 else 0)
    && Counted(s, t.loadTotal, on, models)
  }

  lemma ComparesModels(s: State, models: seq<Running>, show: Show) returns (on: set<Label>, off: set<Label>)
    requires forall n :: n in s.prevLoaded ==> n in s.cache
    ensures ComparedAt(s, models, show, Compared(s, models, show), on, off)
  {
    hide Counted, EventsCounted, Multiplicity, Names, AllRunning, Count;
    hide Filled, ZeroAll, IncAll, FilledAt, LabelsOf, Shown;
    LoadsModels(s, models, show);
    var r := AllRunning(s, models, show);
    var current := Names(models);
    var gone := s.prevLoaded - current;
    var t := Compared(s, models, show);
    on, off := LabelsOf(current, r.cache), LabelsOf(gone, t.cache);
    KnownNames(s.cache, current, show, r.cache, gone, t.cache);
    LabelsShown(s, t, r.cache, current);
  }

  // The labels written by the two loops, in terms of what is shown before and after.
  lemma LabelsShown(s: State, t: State, cache: map<string, Info>, current: set<string>)
    requires forall n :: n in s.prevLoaded ==> n in s.cache && n in t.cache && t.cache[n] == s.cache[n]
    requires forall n :: n in current ==> n in cache && n in t.cache && t.cache[n] == cache[n]
    requires t.prevLoaded == current
    ensures forall l :: l in LabelsOf(current, cache) <==> Shown(t, l)
    ensures forall l :: l in LabelsOf(s.prevLoaded - current, t.cache) <==> Shown(s, l) && l.name !in current
  {
  }

  // Names that are known keep their metadata, and every name looked up becomes known.
  lemma KnownNames(cache: map<string, Info>, current: set<string>, show: Show, c: map<string, Info>,
                   gone: set<string>, d: map<string, Info>)
    requires FilledAt(cache, current, show, c) && FilledAt(c, gone, show, d)
    requires forall n :: n in gone ==> n in cache
    ensures forall n :: n in cache ==> n in c && n in d && c[n] == cache[n] && d[n] == cache[n]
    ensures forall n :: n in current ==> n in c && n in d && d[n] == c[n]
  {
    forall n | n in cache || n in current
      ensures n in c && n in d && d[n] == c[n] && (n in cache ==> c[n] == cache[n])
    {
      assert Get(c, n) == if n in current then Some(Lookup(cache, n, show)) else Get(cache, n);
      assert Get(d, n) == if n in gone then Some(Lookup(c, n, show)) else Get(c, n);
    }
  }

  lemma GaugeAgrees(s: State, models: seq<Running>, show: Show, t: State, on: set<Label>, off: set<Label>)
    requires GaugeIs(s) && ComparedAt(s, models, show, t, on, off)
    ensures GaugeIs(t)
  {
    hide Counted, Names, Count;
    forall l
      ensures if Shown(t, l) then Get(t.loaded, l) == Some(1)
              else Get(t.loaded, l) == None || Get(t.loaded, l) == Some(0)
    {
      assert l in on <==> Shown(t, l);
      assert l in off <==> Shown(s, l) && l.name !in Names(models);
    }
  }

  // The loops never lower an excess, and raise one exactly if a new model is listed twice.
  lemma CountersAgree(s: State, models: seq<Running>, show: Show, t: State, on: set<Label>, off: set<Label>)
    requires ComparedAt(s, models, show, t, on, off)
    ensures NoLess(s, t)
    ensures Alike(s, t) <==> NewOnce(s.prevLoaded, models)
    ensures Balanced(s) ==> (Balanced(t) <==> NewOnce(s.prevLoaded, models))
  {
    hide Count, Multiplicity, Names, Get, Excess, Balanced;
    forall l
      ensures Excess(s, l) <= Excess(t, l)
      ensures Excess(t, l) == Excess(s, l)
                              + if l in on && l.name !in s.prevLoaded then Multiplicity(models, l.name) - 1 else 0
    {
      MultiplicityNames(models, l.name);
      CounterDifference(s, models, show, t, on, off, l);
    }
    if Alike(s, t) {
      forall n | n in Names(models) && n !in s.prevLoaded
        ensures Multiplicity(models, n) == 1
      {
        assert Shown(t, Label(n, t.cache[n]));
        assert Excess(s, Label(n, t.cache[n])) == Excess(t, Label(n, t.cache[n]));
      }
    }
    BalancedMeans(s);
    BalancedMeans(t);
  }

  lemma CounterDifference(
      s: State, models: seq<Running>, show: Show, t: State, on: set<Label>, off: set<Label>, l: Label)
    requires ComparedAt(s, models, show, t, on, off)
    ensures Excess(t, l) == Excess(s, l)
                            + if l in on && l.name !in s.prevLoaded then Multiplicity(models, l.name) - 1 else 0
    ensures l in on ==> l.name in Names(models)
  {
    hide Count, Multiplicity, Names, Get;
    assert Count(t.unloadTotal, l) == Count(s.unloadTotal, l) + if l in off then 1 else 0;
    assert l in on <==> Shown(t, l);
    assert l in off <==> Shown(s, l) && l.name !in Names(models);
    assert l.name in s.prevLoaded ==> s.cache[l.name] == t.cache[l.name];
  }

  lemma PrunedAgrees(t: State, present: set<string>)
    requires GaugeIs(t) && forall n :: n in t.prevLoaded ==> n in present && n in t.cache
    ensures Steady(Pruned(t, present)) && Alike(t, Pruned(t, present))
    ensures Agrees(Pruned(t, present)) <==> Balanced(t)
  {
    var p := Pruned(t, present);
    assert forall l :: Shown(p, l) <==> Shown(t, l);
    assert forall l :: Get(p.loaded, l) == if l.name in present then Get(t.loaded, l) else None;
  }

  // A scrape that got the list of running models, from any state that is not out of step with its gauge.
  lemma ScrapeExcess(s: State, snap: Snapshot, show: Show)
    requires Steady(s) && snap.healthy && !snap.ps.Failed?
    ensures Steady(Scraped(s, snap, show)) && NoLess(s, Scraped(s, snap, show))
    ensures Alike(s, Scraped(s, snap, show)) <==> NewOnce(s.prevLoaded, ModelsOf(snap.ps))
  {
    hide Names, NewOnce, Balanced, Unloaded, AllRunning, GaugeIs, Shown, Excess;
    var models := ModelsOf(snap.ps);
    var s0 := s.(up := true);
    SameAgreement(s, s0);
    var on, off := ComparesModels(s0, models, show);
    var t := Compared(s0, models, show);
    GaugeAgrees(s0, models, show, t, on, off);
    CountersAgree(s0, models, show, t, on, off);
    var current := Names(models);
    if snap.tags.Models? && snap.ps.Models? {
      PrunedAgrees(t, Present(snap.tags.models, current));
      SameAgreement(Pruned(t, Present(snap.tags.models, current)), Scraped(s, snap, show));
    } else {
      SameAgreement(t, Scraped(s, snap, show));
    }
  }

  /**
   A scrape that got the list of running models leaves the gauge and the
   counters in agreement with it, whatever the inventory says, exactly when no
   new model is listed twice.
   */
  lemma ScrapeAgrees(s: State, snap: Snapshot, show: Show)
    requires Agrees(s) && snap.healthy && !snap.ps.Failed?
    ensures Scraped(s, snap, show).prevLoaded == Names(ModelsOf(snap.ps))
    ensures Agrees(Scraped(s, snap, show)) <==> NewOnce(s.prevLoaded, ModelsOf(snap.ps))
  {
    hide Names, NewOnce, Balanced, Steady, Scraped, Excess;
    ScrapedLoaded(s, snap, show);
    ScrapeExcess(s, snap, show);
    BalancedMeans(s);
    BalancedMeans(Scraped(s, snap, show));
    ZeroAlike(s, Scraped(s, snap, show));
  }

  // From balanced counters, an excess is nowhere lowered: so the counters stay balanced exactly if none is raised.
  lemma ZeroAlike(s: State, t: State)
    requires (forall l :: Excess(s, l) == 0)
    ensures Alike(s, t) <==> forall l :: Excess(t, l) == 0
  {
    hide Excess;
  }

  lemma SameAgreement(s: State, t: State)
    requires s.prevLoaded == t.prevLoaded && s.cache == t.cache && s.loaded == t.loaded
    requires s.loadTotal == t.loadTotal && s.unloadTotal == t.unloadTotal
    ensures Steady(s) <==> Steady(t)
    ensures forall l :: Excess(s, l) == Excess(t, l)
  {
    assert forall l :: Shown(s, l) <==> Shown(t, l);
  }

  // ---- What else one scrape leaves behind ------------------------------------------------------

  // Item i is the last one that lists its model.
  ghost predicate LastListing(models: seq<Running>, i: int) {
    0 <= i < |models| && forall j :: i < j < |models| ==> models[j].name != models[i].name
  }

  lemma {:induction false} RunningVram(s: State, models: seq<Running>, show: Show, i: nat)
    requires LastListing(models, i)
    ensures var r, n := AllRunning(s, models, show), models[i].name;
            n in r.cache && Get(r.vram, Label(n, r.cache[n])) == Some(models[i].vram)
    decreases |models|
  {
    var last := |models| - 1;
    if i < last {
      assert models[..last][i] == models[i];
      assert forall j :: 0 <= j < last ==> models[..last][j] == models[j];
      RunningVram(s, models[..last], show, i);
    }
  }

  // The loops over running and vanished models, in turn.
  lemma LoopsLeave(s: State, models: seq<Running>, show: Show, i: int)
    requires forall n :: n in s.prevLoaded ==> n in s.cache
    ensures var current := Names(models);
            var t := Unloaded(AllRunning(s, models, show), s.prevLoaded - current, show);
            && (forall n :: n in s.cache ==> n in t.cache && t.cache[n] == s.cache[n])
            && (LastListing(models, i) ==>
                  var n := models[i].name;
                  n in current && n in t.cache && Get(t.vram, Label(n, t.cache[n])) == Some(models[i].vram))
            && (forall n :: n in current && n !in s.cache ==> n in t.cache && t.cache[n] == show(n))
            && (forall n :: n in s.prevLoaded && n !in current ==>
                  n in t.cache && Get(t.vram, Label(n, t.cache[n])) == Some(0))
  {
    hide Counted, EventsCounted, Multiplicity, AllRunning, Count, Filled, ZeroAll, IncAll, FilledAt;
    var current := Names(models);
    var r := AllRunning(s, models, show);
    var gone := s.prevLoaded - current;
    LoadsModels(s, models, show);
    KnownNames(s.cache, current, show, r.cache, gone, Filled(r.cache, gone, show));
    if LastListing(models, i) {
      RunningVram(s, models, show, i);
      assert models[i] in models;
    }
    FreshNames(s.cache, current, show, r.cache);
  }

  lemma FreshNames(cache: map<string, Info>, names: set<string>, show: Show, c: map<string, Info>)
    requires FilledAt(cache, names, show, c)
    ensures forall n :: n in names && n !in cache ==> n in c && c[n] == show(n)
  {
    forall n | n in names && n !in cache
      ensures n in c && c[n] == show(n)
    {
      assert Get(c, n) == Some(Lookup(cache, n, show));
    }
  }

  lemma EventsLeft(s: State, models: seq<Running>, show: Show)
    ensures var current := Names(models);
            var t := Unloaded(AllRunning(s, models, show), s.prevLoaded - current, show);
            && (forall n :: Count(t.loadEvents, n) == Count(s.loadEvents, n)
                              + if s.initialized && n !in s.prevLoaded then Multiplicity(models, n) else 0)
            && (forall n :: Count(t.unloadEvents, n) == Count(s.unloadEvents, n)
                              + if n in s.prevLoaded && n !in current then 1 else 0)
  {
    hide Counted, Multiplicity, AllRunning, Count, Filled, ZeroAll, IncAll, FilledAt, LabelsOf;
    LoadsModels(s, models, show);
  }

  // The inventory keeps the names that it lists or that are running, and drops the others.
  lemma PrunedMeans(s: State, present: set<string>)
    ensures var p := Pruned(s, present);
            && (forall n :: Get(p.cache, n) == if n in present then Get(s.cache, n) else None)
            && (forall l :: Get(p.loaded, l) == if l.name in present then Get(s.loaded, l) else None)
            && (forall l :: Get(p.vram, l) == if l.name in present then Get(s.vram, l) else None)
  {
  }

  /** A scrape shows whether the service is up; without a list of running models it changes nothing else. */
  lemma UpShown(s: State, snap: Snapshot, show: Show)
    ensures Scraped(s, snap, show).up == snap.healthy
    ensures !snap.healthy || snap.ps.Failed? ==> Scraped(s, snap, show) == s.(up := snap.healthy)
  {
    hide Unloaded, AllRunning, Names, PrunedGauge, Present;
    if snap.healthy && !snap.ps.Failed? {
      UpKept(s.(up := true), ModelsOf(snap.ps), show);
    }
  }

  lemma UpKept(s: State, models: seq<Running>, show: Show)
    ensures Unloaded(AllRunning(s, models, show), s.prevLoaded - Names(models), show).up == s.up
  {
    hide AllRunning, Names, IncAll, ZeroAll, Filled, LabelsOf, FilledAt, Counted, EventsCounted;
    LoadsModels(s, models, show);
  }

  /**
   With a list of running models: each has the memory that its last listing gives,
   a vanished one has none, the events count each first listing after the first
   scrape and each model that vanished; what is known of a model is kept, except
   that with an inventory exactly the models it does not list and that are not
   running are forgotten.
   */
  lemma ScrapeShows(s: State, snap: Snapshot, show: Show, i: int)
    requires Steady(s) && snap.healthy && !snap.ps.Failed?
    ensures var models := ModelsOf(snap.ps);
            var current := Names(models);
            var t := Scraped(s, snap, show);
            var listed := snap.tags.Models? && snap.ps.Models?;
            && t.initialized
            && (LastListing(models, i) ==>
                  var n := models[i].name;
                  n in t.cache && Get(t.vram, Label(n, t.cache[n])) == Some(models[i].vram))
            && (forall n :: Count(t.loadEvents, n) == Count(s.loadEvents, n)
                              + if s.initialized && n !in s.prevLoaded then Multiplicity(models, n) else 0)
            && (forall n :: Count(t.unloadEvents, n) == Count(s.unloadEvents, n)
                              + if n in s.prevLoaded && n !in current then 1 else 0)
            && (forall n :: n in s.prevLoaded && n !in current ==>
                  if listed && n !in snap.tags.models then forall l :: l in t.vram ==> l.name != n
                  else Get(t.vram, Label(n, s.cache[n])) == Some(0))
            && (forall n :: n in s.cache && (n in current || !listed || n in snap.tags.models) ==>
                  n in t.cache && t.cache[n] == s.cache[n])
            && (forall n :: n in current && n !in s.cache ==> n in t.cache && t.cache[n] == show(n))
            && (listed ==>
                  && (forall n :: n in t.cache ==> n in current || n in snap.tags.models)
                  && (forall l :: l in t.loaded || l in t.vram ==> l.name in current || l.name in snap.tags.models))
  {
    hide Unloaded, AllRunning, Names, Pruned, Count, Multiplicity, GaugeIs;
    var s0 := s.(up := true);
    var models := ModelsOf(snap.ps);
    var current := Names(models);
    LoopsLeave(s0, models, show, i);
    EventsLeft(s0, models, show);
    var t := Unloaded(AllRunning(s0, models, show), s.prevLoaded - current, show);
    if snap.tags.Models? && snap.ps.Models? {
      PrunedMeans(t, Present(snap.tags.models, current));
      PrunedRest(t, Present(snap.tags.models, current));
      GetMeans(Pruned(t, Present(snap.tags.models, current)), t);
    }
  }

  lemma PrunedRest(s: State, present: set<string>)
    ensures Pruned(s, present).loadEvents == s.loadEvents && Pruned(s, present).unloadEvents == s.unloadEvents
  {
  }

  lemma GetMeans(p: State, t: State)
    ensures forall n :: n in p.cache <==> Get(p.cache, n).Some?
    ensures forall l :: (l in p.loaded <==> Get(p.loaded, l).Some?) && (l in p.vram <==> Get(p.vram, l).Some?)
  {
  }

  // ---- Whole runs --------------------------------------------------------------------------------

  datatype Tick = Scrape(snap: Snapshot, show: Show) | Request(name: string, show: Show)

  ghost function Ticked(s: State, t: Tick): State {
    match t
    case Scrape(snap, show) => Scraped(s, snap, show)
    case Request(name, show) => Requested(s, name, show)
  }

  ghost function Run(s: State, ticks: seq<Tick>): State
    decreases |ticks|
  {
    if ticks == [] then s else Run(Ticked(s, ticks[0]), ticks[1..])
  }

  // Each list of running models has distinct names.
  ghost predicate DistinctNames(t: Tick) {
    t.Scrape? ==> forall n :: n in Names(ModelsOf(t.snap.ps)) ==> Multiplicity(ModelsOf(t.snap.ps), n) == 1
  }

  // The scrape got a list of running models.
  ghost predicate Lists(t: Tick) {
    t.Scrape? && t.snap.healthy && !t.snap.ps.Failed?
  }

  // Tick i is the last one that got a list.
  ghost predicate LastList(ticks: seq<Tick>, i: int) {
    0 <= i < |ticks| && Lists(ticks[i]) && forall j :: i < j < |ticks| ==> !Lists(ticks[j])
  }

  lemma {:induction false} LoadedIsLastList(s: State, ticks: seq<Tick>)
    ensures forall i :: LastList(ticks, i) ==> Run(s, ticks).prevLoaded == Names(ModelsOf(ticks[i].snap.ps))
    ensures (forall i :: 0 <= i < |ticks| ==> !Lists(ticks[i])) ==> Run(s, ticks).prevLoaded == s.prevLoaded
    decreases |ticks|
  {
    hide Ticked, Names;
    if ticks != [] {
      var t, rest := Ticked(s, ticks[0]), ticks[1..];
      TickLoaded(s, ticks[0]);
      LoadedIsLastList(t, rest);
      assert forall i :: 0 <= i < |rest| ==> rest[i] == ticks[i + 1];
      forall i | LastList(ticks, i)
        ensures Run(s, ticks).prevLoaded == Names(ModelsOf(ticks[i].snap.ps))
      {
        if i > 0 {
          assert LastList(rest, i - 1);
        }
      }
    }
  }

  lemma TickLoaded(s: State, t: Tick)
    ensures Ticked(s, t).prevLoaded == if Lists(t) then Names(ModelsOf(t.snap.ps)) else s.prevLoaded
  {
    hide Scraped, Names;
    if t.Scrape? {
      ScrapedLoaded(s, t.snap, t.show);
    }
  }

  lemma ScrapedLoaded(s: State, snap: Snapshot, show: Show)
    ensures Scraped(s, snap, show).prevLoaded
         == if snap.healthy && !snap.ps.Failed? then Names(ModelsOf(snap.ps)) else s.prevLoaded
  {
    hide Unloaded, AllRunning, Names, Pruned, Present;
  }

  // Each list of the run names a model once when it is new in it.
  ghost predicate AllNewOnce(prev: set<string>, ticks: seq<Tick>)
    decreases |ticks|
  {
    ticks == [] ||
    if Lists(ticks[0]) then
      var models := ModelsOf(ticks[0].snap.ps);
      NewOnce(prev, models) && AllNewOnce(Names(models), ticks[1..])
    else AllNewOnce(prev, ticks[1..])
  }

  lemma TickExcess(s: State, t: Tick)
    requires Steady(s)
    ensures Steady(Ticked(s, t)) && NoLess(s, Ticked(s, t))
    ensures Alike(s, Ticked(s, t)) <==> (Lists(t) ==> NewOnce(s.prevLoaded, ModelsOf(t.snap.ps)))
  {
    hide Steady, Names, Excess, NewOnce, Scraped, Requested;
    match t {
      case Scrape(snap, show) =>
        if Lists(t) {
          ScrapeExcess(s, snap, show);
        } else {
          FailedScrape(s, snap, show);
        }
      case Request(name, show) => RequestKeeps(s, name, show);
    }
  }

  lemma FailedScrape(s: State, snap: Snapshot, show: Show)
    requires Steady(s) && !(snap.healthy && !snap.ps.Failed?)
    ensures Steady(Scraped(s, snap, show)) && Alike(s, Scraped(s, snap, show))
  {
    hide Unloaded, AllRunning, Names, Pruned, Present, Steady, Excess;
    SameAgreement(s, Scraped(s, snap, show));
  }

  lemma RequestKeeps(s: State, name: string, show: Show)
    requires Steady(s)
    ensures Steady(Requested(s, name, show)) && Alike(s, Requested(s, name, show))
  {
    assert forall l :: Shown(Requested(s, name, show), l) <==> Shown(s, l);
  }

  // What the counters miss never shrinks again: they are as they were exactly if no list raised anything.
  lemma {:induction false} RunExcess(s: State, ticks: seq<Tick>)
    requires Steady(s)
    ensures Steady(Run(s, ticks)) && NoLess(s, Run(s, ticks))
    ensures Alike(s, Run(s, ticks)) <==> AllNewOnce(s.prevLoaded, ticks)
    decreases |ticks|
  {
    hide Ticked, Steady, Names, Excess, NewOnce;
    if ticks != [] {
      var t := Ticked(s, ticks[0]);
      TickLoaded(s, ticks[0]);
      TickExcess(s, ticks[0]);
      RunExcess(t, ticks[1..]);
      Between(s, t, Run(t, ticks[1..]));
    }
  }

  lemma Between(s: State, t: State, r: State)
    requires NoLess(s, t) && NoLess(t, r)
    ensures NoLess(s, r)
    ensures Alike(s, r) <==> Alike(s, t) && Alike(t, r)
  {
    hide Excess;
    assert forall l :: Excess(s, l) <= Excess(t, l) <= Excess(r, l);
  }

  lemma {:induction false} DistinctIsNewOnce(prev: set<string>, ticks: seq<Tick>)
    requires forall i :: 0 <= i < |ticks| ==> DistinctNames(ticks[i])
    ensures AllNewOnce(prev, ticks)
    decreases |ticks|
  {
    hide Multiplicity, Names;
    if ticks != [] {
      assert DistinctNames(ticks[0]);
      DistinctIsNewOnce(if Lists(ticks[0]) then Names(ModelsOf(ticks[0].snap.ps)) else prev, ticks[1..]);
    }
  }

  /**
   Over any run of scrapes and requests, failed ones included: the loaded models
   are those of the last list; the gauge shows exactly them, each under its cached
   label, and per label the loads exceed the unloads by one for a loaded model and
   by none otherwise, exactly if no list names a model twice that is new in it, as
   when all names are distinct.
   */
  lemma AlwaysAgrees(s: State, ticks: seq<Tick>)
    requires Agrees(s)
    ensures Agrees(Run(s, ticks)) <==> AllNewOnce(s.prevLoaded, ticks)
    ensures (forall i :: 0 <= i < |ticks| ==> DistinctNames(ticks[i])) ==> Agrees(Run(s, ticks))
    ensures forall i :: LastList(ticks, i) ==> Run(s, ticks).prevLoaded == Names(ModelsOf(ticks[i].snap.ps))
  {
    hide Run, Names, LastList, DistinctNames, AllNewOnce, Steady, Balanced, Excess;
    LoadedIsLastList(s, ticks);
    RunExcess(s, ticks);
    BalancedMeans(s);
    BalancedMeans(Run(s, ticks));
    ZeroAlike(s, Run(s, ticks));
    if forall i :: 0 <= i < |ticks| ==> DistinctNames(ticks[i]) {
      DistinctIsNewOnce(s.prevLoaded, ticks);
    }
  }

  lemma NewAgrees()
    ensures Agrees(NEW)
  {
  }

  // A model that is listed twice when it first appears is counted as loaded twice.
  lemma TwiceListed(show: Show)
    ensures var snap := Snapshot(true, Models([Running("m", 1), Running("m", 1)]), Failed);
            !Agrees(Scraped(NEW, snap, show)) && Count(Scraped(NEW, snap, show).loadTotal, Label("m", show("m"))) == 2
  {
    var m := Running("m", 1);
    var models := [m, m];
    var snap := Snapshot(true, Models(models), Failed);
    assert models[..1] == [m] && [m][..0] == [];
    assert Multiplicity([m], "m") == 1;
    assert Multiplicity(models, "m") == 2;
    assert m in models;
    NewAgrees();
    ScrapeAgrees(NEW, snap, show);
    TwiceCounted(models, show);
  }

  lemma TwiceCounted(models: seq<Running>, show: Show)
    requires models == [Running("m", 1), Running("m", 1)]
    ensures Count(Scraped(NEW, Snapshot(true, Models(models), Failed), show).loadTotal, Label("m", show("m"))) == 2
  {
    hide Unloaded;
    var s := NEW.(up := true);
    assert models[..1] == [models[0]] && [models[0]][..0] == [];
    var one := AllRunning(s, models[..1], show);
    assert AllRunning(s, models[..1][..0], show) == s;
    assert one == OneRunning(s, models[0], show);
    assert AllRunning(s, models, show) == OneRunning(one, models[1], show);
    UnloadedKeepsLoads(AllRunning(s, models, show), s.prevLoaded - Names(models), show);
  }

  lemma UnloadedKeepsLoads(s: State, gone: set<string>, show: Show)
    ensures Unloaded(s, gone, show).loadTotal == s.loadTotal
  {
    hide Filled, ZeroAll, IncAll, LabelsOf;
  }
}
