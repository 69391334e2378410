/** The metadata cache and the poller as the source writes them. */
module Poller {
  import opened Options
  import opened P = PollerSpec

  class ModelCache {
    var cache: map<string, Info>

    constructor ()
      ensures cache == map[]
    {
      cache := map[];
    }

    // Metadata is fetched at the first access and kept.
    method Get(name: string, show: Show) returns (info: Info)
      modifies this
      ensures info == Lookup(old(cache), name, show)
      ensures cache == old(cache)[name := info]
    {
      if name in cache {
        assert cache == cache[name := cache[name]];
        return cache[name];
      }
      info := show(name);
      cache := cache[name := info];
    }

    method Prune(present: set<string>)
      modifies this
      ensures cache == old(cache) - (old(cache).Keys - present)
    {
      var names := cache.Keys;
      while names != {}
        invariant names <= old(cache).Keys
        invariant cache == old(cache) - (old(cache).Keys - names - present)
        decreases names
      {
        var name :| name in names;
        names := names - {name};
        if name !in present {
          cache := cache - {name};
        }
      }
    }
  }

  // ---- Steps of the loop over vanished models ------------------------------------------

  lemma SameMap<K, V>(a: map<K, V>, b: map<K, V>)
    requires forall k :: k in a <==> k in b
    requires forall k :: k in a ==> a[k] == b[k]
    ensures a == b
  {
    assert a.Keys == b.Keys;
  }

  lemma FillOne(cache: map<string, Info>, names: set<string>, name: string, show: Show)
    ensures var c := Filled(cache, names, show);
            c[name := Lookup(c, name, show)] == Filled(cache, names + {name}, show)
  {
    var c := Filled(cache, names, show);
    FilledSnoc(cache, names, name, show, c);
    var a, b := c[name := Lookup(c, name, show)], Filled(cache, names + {name}, show);
    forall n
      ensures P.Get(a, n) == P.Get(b, n)
    {
    }
    SameByGet(a, b);
  }

  lemma SameByGet<K(!new), V>(a: map<K, V>, b: map<K, V>)
    requires forall k :: P.Get(a, k) == P.Get(b, k)
    ensures a == b
  {
    forall k
      ensures k in a <==> k in b
      ensures k in a ==> a[k] == b[k]
    {
      assert P.Get(a, k) == P.Get(b, k);
    }
    SameMap(a, b);
  }

  lemma ZeroStep(m: map<Label, int>, keys: set<Label>, key: Label)
    ensures ZeroAll(m, keys)[key := 0] == ZeroAll(m, keys + {key})
  {
    var a, b := ZeroAll(m, keys)[key := 0], ZeroAll(m, keys + {key});
    forall k
      ensures P.Get(a, k) == P.Get(b, k)
    {
      assert P.Get(ZeroAll(m, keys), k) == if k in keys then Some(0) else P.Get(m, k);
    }
    SameByGet(a, b);
  }

  lemma IncStep<K(!new)>(m: map<K, nat>, keys: set<K>, key: K)
    requires key !in keys
    ensures Inc(IncAll(m, keys), key) == IncAll(m, keys + {key})
  {
    var a, b := Inc(IncAll(m, keys), key), IncAll(m, keys + {key});
    assert keys + {key} - {key} == keys;
    IncOne(m, keys + {key}, key, IncAll(m, keys));
    forall k
      ensures k in a <==> k in b
      ensures k in a ==> a[k] == b[k]
    {
      assert Count(a, k) == Count(b, k);
    }
    SameMap(a, b);
  }

  // One vanished model more.
  ghost function OneGone(s: State, name: string, show: Show): State {
    var info := Lookup(s.cache, name, show);
    var key := Label(name, info);
    s.(cache := s.cache[name := info],
       loaded := s.loaded[key := 0],
       vram := s.vram[key := 0],
       unloadTotal := Inc(s.unloadTotal, key),
       unloadEvents := Inc(s.unloadEvents, name))
  }

  lemma UnloadStep(s: State, gone: set<string>, name: string, show: Show)
    requires name !in gone
    ensures OneGone(Unloaded(s, gone, show), name, show) == Unloaded(s, gone + {name}, show)
  {
    hide Filled, ZeroAll, IncAll, LabelsOf;
    var c := Filled(s.cache, gone, show);
    var key := Label(name, Lookup(c, name, show));
    var labels := LabelsOf(gone, c);
    FillOne(s.cache, gone, name, show);
    FilledSnoc(s.cache, gone, name, show, c);
    NotLabelled(name, gone, c, key);
    ZeroStep(s.loaded, labels, key);
    ZeroStep(s.vram, labels, key);
    IncStep(s.unloadTotal, labels, key);
    IncStep(s.unloadEvents, gone, name);
  }

  lemma NotLabelled(name: string, gone: set<string>, c: map<string, Info>, key: Label)
    requires name !in gone && key.name == name
    ensures key !in LabelsOf(gone, c)
  {
  }

  lemma UnloadNone(s: State, show: Show)
    ensures Unloaded(s, {}, show) == s
  {
    assert LabelsOf({}, s.cache) == {};
  }

  lemma NoNames()
    ensures Names([]) == {}
  {
  }

  class Poller {
    const mc: ModelCache
    var up: bool
    var initialized: bool
    var prevLoaded: set<string>
    var loaded: map<Label, int>
    var vram: map<Label, int>
    var loadTotal: map<Label, nat>
    var unloadTotal: map<Label, nat>
    var loadEvents: map<string, nat>
    var unloadEvents: map<string, nat>

    constructor ()
      ensures fresh(mc) && Now() == NEW
    {
      mc := new ModelCache();
      up, initialized, prevLoaded := false, false, {};
      loaded, vram, loadTotal, unloadTotal, loadEvents, unloadEvents := map[], map[], map[], map[], map[], map[];
    }

    ghost function Now(): State
      reads this, mc
    {
      State(up, initialized, prevLoaded, mc.cache, loaded, vram, loadTotal, unloadTotal, loadEvents, unloadEvents)
    }

    // Loads: every running model is exported, and a new one counted.
    method Load(models: seq<Running>, show: Show) returns (current: set<string>)
      modifies this`loaded, this`vram, this`loadTotal, this`loadEvents, mc
      ensures Now() == AllRunning(old(Now()), models, show) && current == Names(models)
    {
      hide Names, Multiplicity, Inc, Count;
      current := {};
      NoNames();
      assert models[..0] == [];
      for i := 0 to |models|
        invariant Now() == AllRunning(old(Now()), models[..i], show)
        invariant current == Names(models[..i])
      {
        var m := models[i];
        var info := mc.Get(m.name, show);
        var key := Label(m.name, info);
        loaded := loaded[key := 1];
        vram := vram[key := m.vram];
        current := current + {m.name};
        if m.name !in prevLoaded {
          loadTotal := Inc(loadTotal, key);
          if initialized {
            loadEvents := Inc(loadEvents, m.name);
          }
        }
        assert models[..i + 1][..i] == models[..i];
        assert models[..i + 1] == models[..i] + [m];
        NamesSnoc(models[..i], m);
      }
      assert models[..|models|] == models;
    }

    // Unloads: models seen last time but not this time, in whatever order they come.
    method Unload(current: set<string>, show: Show)
      modifies this`loaded, this`vram, this`unloadTotal, this`unloadEvents, mc
      ensures Now() == Unloaded(old(Now()), prevLoaded - current, show)
    {
      hide Unloaded;
      var names := prevLoaded;
      UnloadNone(Now(), show);
      assert prevLoaded - names - current == {};
      while names != {}
        invariant names <= prevLoaded
        invariant Now() == Unloaded(old(Now()), prevLoaded - names - current, show)
        decreases names
      {
        var name :| name in names;
        ghost var done := prevLoaded - names - current;
        names := names - {name};
        if name !in current {
          UnloadStep(old(Now()), done, name, show);
          var info := mc.Get(name, show);
          var key := Label(name, info);
          loaded := loaded[key := 0];
          vram := vram[key := 0];
          unloadTotal := Inc(unloadTotal, key);
          unloadEvents := Inc(unloadEvents, name);
          assert prevLoaded - names - current == done + {name};
        } else {
          assert prevLoaded - names - current == done;
        }
      }
      assert prevLoaded - {} - current == prevLoaded - current;
    }

    method PruneGauge(g: map<Label, int>, present: set<string>) returns (r: map<Label, int>)
      ensures r == PrunedGauge(g, present)
    {
      var absent := set l | l in g && l.name !in present :: l.name;
      r := g;
      var names := absent;
      while names != {}
        invariant names <= absent
        invariant r == g - set l | l in g && l.name in absent - names
        decreases names
      {
        var name :| name in names;
        r := r - set l | l in g && l.name == name;
        names := names - {name};
      }
      assert (set l | l in g && l.name in absent) == set l | l in g && l.name !in present;
    }

    /** One scrape of the running models and the inventory; either request may fail. */
    method Scrape(snap: Snapshot, show: Show)
      modifies this, mc
      ensures Now() == Scraped(old(Now()), snap, show)
    {
      hide Unloaded, AllRunning, Names, PrunedGauge;
      if !snap.healthy {
        up := false;
        return;
      }
      up := true;
      if snap.ps.Failed? {
        return;
      }
      var current := Load(ModelsOf(snap.ps), show);
      Unload(current, show);
      if snap.tags.Models? && snap.ps.Models? {
        var present := (set t | t in snap.tags.models) + current;
        mc.Prune(present);
        loaded := PruneGauge(loaded, present);
        vram := PruneGauge(vram, present);
      }
      prevLoaded := current;
      initialized := true;
    }
  }
}
