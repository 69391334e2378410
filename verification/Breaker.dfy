/** The circuit breaker: its state as a value, and what that value means over a whole run. */
module BreakerSpec {

  datatype Mode = Closed | Open | HalfOpen
  datatype Config = Config(threshold: int, window: int, cooldown: int)

  // Zero and negative settings fall back to defaults; times are in nanoseconds.
  const SECOND: int := 1_000_000_000

  function Effective(c: Config): Config {
    Config(if c.threshold < 1 then 5 else c.threshold,
           if c.window <= 0 then 60 * SECOND else c.window,
           if c.cooldown <= 0 then 30 * SECOND else c.cooldown)
  }

  /** A setting that is zero or negative takes its default: five failures, a minute, half a minute; others are kept. */
  lemma Defaults(c: Config)
    ensures Usable(Effective(c)) && (Usable(c) ==> Effective(c) == c)
    ensures c.threshold < 1 ==> Effective(c).threshold == 5 && Effective(c) == Effective(c.(threshold := 5))
    ensures c.window <= 0 ==>
              Effective(c).window == 60_000_000_000 && Effective(c) == Effective(c.(window := 60_000_000_000))
    ensures c.cooldown <= 0 ==>
              Effective(c).cooldown == 30_000_000_000 && Effective(c) == Effective(c.(cooldown := 30_000_000_000))
  {
  }

  predicate Usable(c: Config) {
    c.threshold >= 1 && c.window > 0 && c.cooldown > 0
  }

  datatype State = State(mode: Mode, openedAt: int, failures: seq<int>)

  const NEW: State := State(Closed, 0, [])

  // The times after a cutoff, in order.
  function Recent(times: seq<int>, cutoff: int): seq<int>
    decreases |times|
  {
    if times == [] then []
    else
      var k := |times| - 1;
      Recent(times[..k], cutoff) + if times[k] > cutoff then [times[k]] else []
  }

  function Allowed(s: State, now: int, c: Config): State {
    if s.mode.Open? && now - s.openedAt >= c.cooldown then s.(mode := HalfOpen) else s
  }

  function Success(s: State): State {
    s.(mode := Closed, failures := [])
  }

  function Failure(s: State, now: int, c: Config): State {
    if s.mode.HalfOpen? then s.(mode := Open, openedAt := now)
    else
      var failures := Recent(s.failures, now - c.window) + [now];
      if |failures| >= c.threshold then State(Open, now, []) else s.(failures := failures)
  }

  // ---- Whole runs ------------------------------------------------------------------

  datatype Call = Allow(now: int) | RecordSuccess | RecordFailure(now: int)

  function Apply(s: State, call: Call, c: Config): State {
    match call
    case Allow(now) => Allowed(s, now, c)
    case RecordSuccess => Success(s)
    case RecordFailure(now) => Failure(s, now, c)
  }

  function Run(calls: seq<Call>, c: Config): State
    decreases |calls|
  {
    if calls == [] then NEW else Apply(Run(calls[..|calls| - 1], c), calls[|calls| - 1], c)
  }

  // The full history of failures since the count last started afresh: at a
  // success, or when the breaker opened because of them.
  ghost function NextHistory(s: State, history: seq<int>, call: Call, c: Config): seq<int> {
    match call
    case Allow(_) => history
    case RecordSuccess => []
    case RecordFailure(now) =>
      if s.mode.HalfOpen? then history
      else if |InWindow(history + [now], now, c)| >= c.threshold then []
      else history + [now]
  }

  ghost function SinceReset(calls: seq<Call>, c: Config): seq<int>
    decreases |calls|
  {
    if calls == [] then []
    else
      var before := calls[..|calls| - 1];
      NextHistory(Run(before, c), SinceReset(before, c), calls[|calls| - 1], c)
  }

  // The failures of a history that lie within the window before now.
  function InWindow(times: seq<int>, now: int, c: Config): seq<int> {
    Recent(times, now - c.window)
  }

  // The clock readings of the calls never go back.
  ghost predicate Monotone(calls: seq<Call>) {
    forall i, j :: 0 <= i < j < |calls| && calls[i].RecordFailure? && calls[j].RecordFailure? ==>
                     calls[i].now <= calls[j].now
  }

  lemma {:induction false} RecentTwice(times: seq<int>, a: int, b: int)
    requires a <= b
    ensures Recent(Recent(times, a), b) == Recent(times, b)
    decreases |times|
  {
    if times != [] {
      var k := |times| - 1;
      RecentTwice(times[..k], a, b);
      var r := Recent(times[..k], a);
      if times[k] > a {
        assert (r + [times[k]])[..|r|] == r;
      } else {
        assert r + [] == r;
      }
    }
  }

  lemma RecentSnoc(times: seq<int>, t: int, cutoff: int)
    ensures Recent(times + [t], cutoff) == Recent(times, cutoff) + if t > cutoff then [t] else []
  {
    assert (times + [t])[..|times|] == times;
  }

  // The start of the window as of the last failure that was counted.
  ghost function NextCutoff(s: State, cutoff: int, call: Call, c: Config): int {
    if call.RecordFailure? && !s.mode.HalfOpen? then call.now - c.window else cutoff
  }

  ghost function LastCutoff(calls: seq<Call>, c: Config, first: int): int
    decreases |calls|
  {
    if calls == [] then first
    else
      var before := calls[..|calls| - 1];
      NextCutoff(Run(before, c), LastCutoff(before, c, first), calls[|calls| - 1], c)
  }

  // No failure is recorded after now, and first lies before every window.
  ghost predicate Within(calls: seq<Call>, c: Config, first: int, now: int) {
    && first <= now - c.window
    && forall i :: 0 <= i < |calls| && calls[i].RecordFailure? ==> calls[i].now <= now
  }

  lemma {:induction false} LastCutoffBound(calls: seq<Call>, c: Config, first: int, now: int)
    requires Within(calls, c, first, now)
    ensures LastCutoff(calls, c, first) <= now - c.window
    decreases |calls|
  {
    hide Run;
    if calls != [] {
      LastCutoffBound(calls[..|calls| - 1], c, first, now);
    }
  }

  // What is kept is the recent part of the full history.
  ghost predicate Kept(s: State, history: seq<int>, cutoff: int) {
    s.failures == Recent(history, cutoff)
  }

  // A counted failure prunes to its own window, whatever was pruned before.
  lemma CountedFailure(s: State, history: seq<int>, cutoff: int, now: int, c: Config)
    requires Usable(c) && Kept(s, history, cutoff) && cutoff <= now - c.window
    ensures Recent(s.failures, now - c.window) + [now] == InWindow(history + [now], now, c)
  {
    RecentTwice(history, cutoff, now - c.window);
    RecentSnoc(history, now, now - c.window);
  }

  lemma StepKept(s: State, history: seq<int>, cutoff: int, call: Call, c: Config)
    requires Usable(c) && Kept(s, history, cutoff) && |s.failures| < c.threshold
    requires call.RecordFailure? ==> cutoff <= call.now - c.window
    ensures Kept(Apply(s, call, c), NextHistory(s, history, call, c), NextCutoff(s, cutoff, call, c))
    ensures |Apply(s, call, c).failures| < c.threshold
  {
    if call.RecordFailure? {
      CountedFailure(s, history, cutoff, call.now, c);
    }
  }

  ghost predicate Timely(calls: seq<Call>, c: Config, first: int) {
    Monotone(calls) && forall i :: 0 <= i < |calls| && calls[i].RecordFailure? ==> first <= calls[i].now - c.window
  }

  lemma TimelyPrefix(calls: seq<Call>, c: Config, first: int)
    requires calls != [] && Timely(calls, c, first)
    ensures var before, call := calls[..|calls| - 1], calls[|calls| - 1];
            Timely(before, c, first) && (call.RecordFailure? ==> Within(before, c, first, call.now))
  {
    var before := calls[..|calls| - 1];
    assert forall i :: 0 <= i < |before| ==> before[i] == calls[i];
  }

  /**
   Pruning as failures arrive keeps exactly the part of the full history that
   lies within the window of the last counted failure, and always less than the
   threshold.
   */
  lemma {:induction false} PruningIsExact(calls: seq<Call>, c: Config, first: int)
    requires Usable(c) && Timely(calls, c, first)
    ensures Kept(Run(calls, c), SinceReset(calls, c), LastCutoff(calls, c, first))
    ensures |Run(calls, c).failures| < c.threshold
    decreases |calls|
  {
    hide Kept, NextHistory, NextCutoff, Apply, InWindow;
    if calls == [] {
      assert Kept(NEW, [], first) by {
        NothingKept(first);
      }
    } else {
      var before, call := calls[..|calls| - 1], calls[|calls| - 1];
      TimelyPrefix(calls, c, first);
      PruningIsExact(before, c, first);
      if call.RecordFailure? {
        LastCutoffBound(before, c, first, call.now);
      }
      StepKept(Run(before, c), SinceReset(before, c), LastCutoff(before, c, first), call, c);
    }
  }

  lemma NothingKept(cutoff: int)
    ensures Kept(NEW, [], cutoff)
  {
  }

  /**
   A breaker that is closed opens at a failure exactly when the failures since
   the last reset, this one included, reach the threshold within the window.
   */
  lemma OpensAtThreshold(calls: seq<Call>, c: Config, first: int, now: int)
    requires Usable(c) && Timely(calls, c, first) && Within(calls, c, first, now)
    requires Run(calls, c).mode.Closed?
    ensures Failure(Run(calls, c), now, c).mode.Open? <==>
            |InWindow(SinceReset(calls, c) + [now], now, c)| >= c.threshold
  {
    hide Run, SinceReset, LastCutoff, InWindow, Timely, Within;
    PruningIsExact(calls, c, first);
    LastCutoffBound(calls, c, first, now);
    CountedFailure(Run(calls, c), SinceReset(calls, c), LastCutoff(calls, c, first), now, c);
  }
}

/** The breaker as the source writes it. */
module Breaker {
  import opened BreakerSpec

  class CircuitBreaker {
    const config: Config
    var mode: Mode
    var openedAt: int
    // A slice: the first count cells of buf.
    var buf: array<int>
    var count: nat
    // How often the observer has been told of a change of state.
    var changes: nat

    ghost predicate Valid()
      reads this
    {
      Usable(config) && count <= buf.Length && (mode.Closed? ==> count < config.threshold)
    }

    ghost function Now(): State
      requires count <= buf.Length
      reads this, buf
    {
      State(mode, openedAt, buf[..count])
    }

    constructor (cfg: Config)
      ensures Valid() && fresh(buf) && config == Effective(cfg) && Now() == NEW
    {
      config := Effective(cfg);
      mode, openedAt, count, changes := Closed, 0, 0, 1;
      buf := new int[4];
    }

    method SetMode(m: Mode)
      modifies this`mode, this`changes
      ensures mode == m && changes == old(changes) + if old(mode) == m then 0 else 1
    {
      if mode == m {
        return;
      }
      mode := m;
      changes := changes + 1;
    }

    method Allow(now: int) returns (ok: bool)
      requires Valid()
      modifies this`mode, this`changes
      ensures Valid() && Now() == Allowed(old(Now()), now, config)
      ensures ok == !mode.Open?
    {
      if mode.Open? && now - openedAt >= config.cooldown {
        SetMode(HalfOpen);
      }
      return !mode.Open?;
    }

    method RecordSuccess()
      requires Valid()
      modifies this`mode, this`changes, this`count
      ensures Valid() && Now() == Success(old(Now()))
    {
      if !mode.Closed? {
        SetMode(Closed);
      }
      count := 0;
    }

    // The times after the cutoff are moved to the front of the same array.
    method Prune(cutoff: int)
      requires count <= buf.Length
      modifies this`count, buf
      ensures count <= buf.Length && count <= old(count)
      ensures buf[..count] == Recent(old(buf[..count]), cutoff)
    {
      var kept := 0;
      var n := count;
      for i := 0 to n
        invariant kept <= i <= n == count == old(count)
        invariant buf[..kept] == Recent(old(buf[..count])[..i], cutoff)
        invariant forall k :: i <= k < n ==> buf[k] == old(buf[..count])[k]
      {
        ghost var was := old(buf[..count]);
        assert was[..i + 1][..i] == was[..i] && was[..i + 1][i] == was[i];
        var t := buf[i];
        assert t == was[i];
        if t > cutoff {
          ghost var front := buf[..kept];
          buf[kept] := t;
          assert buf[..kept] == front;
          assert buf[..kept + 1] == front + [t];
          kept := kept + 1;
        }
        assert forall k :: i < k < n ==> buf[k] == was[k];
      }
      assert old(buf[..count])[..n] == old(buf[..count]);
      count := kept;
    }

    // Appending grows the array when it is full.
    method Append(t: int)
      requires count <= buf.Length
      modifies this`count, this`buf, buf
      ensures count == old(count) + 1 <= buf.Length && (buf == old(buf) || fresh(buf))
      ensures buf[..count] == old(buf[..count]) + [t]
    {
      if count == buf.Length {
        var bigger := new int[2 * buf.Length + 1];
        for i := 0 to count
          invariant buf == old(buf) && buf[..] == old(buf[..]) && count == old(count)
          invariant bigger[..i] == buf[..i]
        {
          bigger[i] := buf[i];
        }
        buf := bigger;
      }
      buf[count] := t;
      count := count + 1;
    }

    // The window is pruned and the failure joins it.
    method Count(now: int)
      requires count <= buf.Length
      modifies this`count, this`buf, buf
      ensures 1 <= count <= buf.Length && (buf == old(buf) || fresh(buf))
      ensures buf[..count] == Recent(old(buf[..count]), now - config.window) + [now]
    {
      hide Recent;
      Prune(now - config.window);
      Append(now);
    }

    method Trip(now: int)
      modifies this`mode, this`changes, this`openedAt
      ensures mode == Open && openedAt == now
    {
      openedAt := now;
      SetMode(Open);
    }

    method RecordFailure(now: int)
      requires Valid()
      modifies this, buf
      ensures Valid() && (buf == old(buf) || fresh(buf))
      ensures Now() == Failure(old(Now()), now, config)
    {
      hide Recent;
      if mode.HalfOpen? {
        Trip(now);
        return;
      }
      Count(now);
      if count >= config.threshold {
        Trip(now);
        count := 0;
      }
    }
  }
}
