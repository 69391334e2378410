/**
 The flush loop and the sender side by side: every interleaving of their atomic
 steps around the queue, through shutdown to the end.
 */
module Pipeline {
  import opened Options
  import opened QueueSpec
  import S = SenderSpec

  // The flush loop: running, shutting down, or returned.
  datatype Phase = Flushing | Draining | Finished

  // The sender: asking for a batch, holding one after some attempts on it, or returned.
  datatype Hand = Waiting | Holding(samples: nat, attempts: nat) | Returned

  // Batches are represented by their numbers of samples. dropped is the batch that the flush
  // loop has evicted but not yet reported.
  datatype Pipe = Pipe(
    queue: seq<nat>, closed: bool, cancelled: bool, phase: Phase, dropped: Option<nat>, hand: Hand,
    accepted: nat, queueFull: nat, ledger: S.Ledger)

  datatype Limits = Limits(cap: nat, attempts: nat)

  const START: Pipe := Pipe([], false, false, Flushing, None, Waiting, 0, 0, S.NEW_LEDGER)

  datatype Action =
    | Enqueue(samples: nat)
    | ReportDrop
    | CloseQueue
    | DrainTimeout
    | Finish
    | Take
    | Leave
    | Attempt
    | Settle(fate: S.Fate)

  predicate Enabled(p: Pipe, a: Action, l: Limits) {
    match a
    case Enqueue(_) => p.phase.Flushing? && p.dropped.None?
    case ReportDrop => p.dropped.Some?
    case CloseQueue => p.phase.Flushing? && p.dropped.None?
    case DrainTimeout => p.phase.Draining? && !p.cancelled
    case Finish => p.phase.Draining? && p.hand.Returned?
    case Take => p.hand.Waiting? && Taken(p.queue, p.closed, p.cancelled).Got?
    case Leave =>
      p.hand.Waiting? &&
      (Taken(p.queue, p.closed, p.cancelled).QueueClosed? || Taken(p.queue, p.closed, p.cancelled).Cancelled?)
    case Attempt => p.hand.Holding? && p.hand.attempts < l.attempts
    case Settle(fate) => p.hand.Holding? && fate != S.Crashed && (fate == S.ShutDown ==> p.cancelled)
  }

  function Next(p: Pipe, a: Action, l: Limits): Pipe
    requires Enabled(p, a, l)
  {
    match a
    case Enqueue(n) =>
      if p.closed then p
      else
        p.(queue := Added(p.queue, l.cap, n), accepted := p.accepted + n,
           dropped := if |p.queue| == l.cap && p.queue != [] then Some(p.queue[0]) else None)
    case ReportDrop => p.(dropped := None, queueFull := p.queueFull + p.dropped.value)
    case CloseQueue => p.(closed := true, phase := Draining)
    case DrainTimeout => p.(cancelled := true)
    case Finish => p.(phase := Finished)
    case Take => p.(hand := Holding(p.queue[0], 0), queue := p.queue[1..])
    case Leave => p.(hand := Returned)
    case Attempt => p.(hand := Holding(p.hand.samples, p.hand.attempts + 1))
    case Settle(fate) => p.(hand := Waiting, ledger := S.Booked(p.ledger, fate, p.hand.samples))
  }

  ghost predicate IsRun(p: Pipe, actions: seq<Action>, l: Limits)
    decreases |actions|
  {
    actions == [] || (Enabled(p, actions[0], l) && IsRun(Next(p, actions[0], l), actions[1..], l))
  }

  ghost function RunAll(p: Pipe, actions: seq<Action>, l: Limits): Pipe
    requires IsRun(p, actions, l)
    decreases |actions|
  {
    if actions == [] then p else RunAll(Next(p, actions[0], l), actions[1..], l)
  }

  // ---- Conservation ---------------------------------------------------------------------

  ghost function Sum(s: seq<nat>): nat
    decreases |s|
  {
    if s == [] then 0 else s[0] + Sum(s[1..])
  }

  lemma {:induction false} SumSnoc(s: seq<nat>, n: nat)
    ensures Sum(s + [n]) == Sum(s) + n
    decreases |s|
  {
    if s == [] {
      assert s + [n] == [n];
      assert Sum([n][1..]) == 0;
    } else {
      assert (s + [n])[1..] == s[1..] + [n];
      SumSnoc(s[1..], n);
    }
  }

  ghost function InHand(p: Pipe): nat {
    (if p.hand.Holding? then p.hand.samples else 0) + (if p.dropped.Some? then p.dropped.value else 0)
  }

  // Every accepted sample is queued, in hand, or booked under exactly one heading.
  ghost predicate Conserved(p: Pipe) {
    p.accepted == Sum(p.queue) + InHand(p) + p.queueFull + S.Total(p.ledger)
  }

  ghost predicate Inv(p: Pipe, l: Limits) {
    && Conserved(p) && |p.queue| <= l.cap
    && (p.phase.Flushing? <==> !p.closed)
    && (p.cancelled ==> p.closed)
    && (!p.cancelled ==> p.ledger.shutDown == 0)
    && (p.dropped.Some? ==> p.phase.Flushing?)
    && (p.hand.Returned? ==> p.closed && p.queue == [])
    && (p.phase.Finished? ==> p.hand.Returned?)
    && (p.hand.Holding? ==> p.hand.attempts <= l.attempts)
  }

  lemma StepKeeps(p: Pipe, a: Action, l: Limits)
    requires l.cap >= 1 && Inv(p, l) && Enabled(p, a, l)
    ensures Inv(Next(p, a, l), l)
  {
    if a.Enqueue? && !p.closed {
      var rest := if |p.queue| == l.cap && p.queue != [] then p.queue[1..] else p.queue;
      SumSnoc(rest, a.samples);
    }
  }

  /** Samples are conserved at every step of every interleaving. */
  lemma {:induction false} RunKeeps(p: Pipe, actions: seq<Action>, l: Limits)
    requires l.cap >= 1 && Inv(p, l) && IsRun(p, actions, l)
    ensures Inv(RunAll(p, actions, l), l)
    decreases |actions|
  {
    if actions != [] {
      StepKeeps(p, actions[0], l);
      RunKeeps(Next(p, actions[0], l), actions[1..], l);
    }
  }

  lemma StartKeeps(l: Limits)
    ensures Inv(START, l)
  {
  }

  ghost predicate Settled(p: Pipe) {
    && Conserved(p)
    && (p.hand.Returned? ==> p.queue == [] && p.accepted == p.queueFull + S.Total(p.ledger))
    && (p.phase.Finished? ==> p.hand.Returned?)
  }

  lemma InvSettles(p: Pipe, l: Limits)
    requires Inv(p, l)
    ensures Settled(p)
  {
  }

  /** When the flush loop has returned, nothing is left behind, not even after the drain was cut short. */
  lemma NothingLost(actions: seq<Action>, l: Limits)
    requires l.cap >= 1 && IsRun(START, actions, l)
    ensures Settled(RunAll(START, actions, l))
  {
    hide Inv, RunAll, IsRun, Settled;
    StartKeeps(l);
    RunKeeps(START, actions, l);
    InvSettles(RunAll(START, actions, l), l);
  }

  /**
   A drain that does not time out drops nothing for the shutdown: what was accepted and
   not evicted has been sent, rejected, given up or dropped by the breaker.
   */
  lemma NothingShutDown(actions: seq<Action>, l: Limits)
    requires l.cap >= 1 && IsRun(START, actions, l) && DrainTimeout !in actions
    ensures var p := RunAll(START, actions, l);
            && p.ledger.shutDown == 0
            && (p.hand.Returned? ==>
                  p.accepted == p.queueFull + p.ledger.sent + p.ledger.rejected
                                + p.ledger.exhausted + p.ledger.breakerOpen)
  {
    hide RunAll, IsRun, Inv;
    StartKeeps(l);
    RunKeeps(START, actions, l);
    NotCancelled(START, actions, l);
    InvNothingShutDown(RunAll(START, actions, l), l);
  }

  lemma InvNothingShutDown(p: Pipe, l: Limits)
    requires Inv(p, l) && !p.cancelled
    ensures p.ledger.shutDown == 0
    ensures p.hand.Returned? ==>
              p.accepted == p.queueFull + p.ledger.sent + p.ledger.rejected
                            + p.ledger.exhausted + p.ledger.breakerOpen
  {
  }

  lemma {:induction false} NotCancelled(p: Pipe, actions: seq<Action>, l: Limits)
    requires IsRun(p, actions, l) && !p.cancelled && DrainTimeout !in actions
    ensures !RunAll(p, actions, l).cancelled
    decreases |actions|
  {
    if actions != [] {
      NotCancelled(Next(p, actions[0], l), actions[1..], l);
    }
  }

  // ---- The end of the drain -----------------------------------------------------------------

  ghost function HandWork(h: Hand, l: Limits): nat {
    match h
    case Waiting => 1
    case Holding(_, k) => if k <= l.attempts then l.attempts - k + 2 else 2
    case Returned => 0
  }

  // How many steps can still be taken after the queue has been closed.
  ghost function Work(p: Pipe, l: Limits): nat {
    |p.queue| * (l.attempts + 2) + HandWork(p.hand, l) +
    if p.phase.Finished? then (if p.cancelled then 0 else 1) else if p.cancelled then 1 else 2
  }

  lemma StepWorks(p: Pipe, a: Action, l: Limits)
    requires Inv(p, l) && p.closed && Enabled(p, a, l)
    ensures Next(p, a, l).closed && Work(Next(p, a, l), l) < Work(p, l)
  {
    if a.Take? {
      assert |p.queue| * (l.attempts + 2) == (|p.queue| - 1) * (l.attempts + 2) + (l.attempts + 2);
    }
  }

  // The attempts that can still be made.
  ghost function AttemptsLeft(p: Pipe, l: Limits): int {
    |p.queue| * l.attempts + if p.hand.Holding? then l.attempts - p.hand.attempts else 0
  }

  ghost function AttemptsIn(actions: seq<Action>): nat
    decreases |actions|
  {
    if actions == [] then 0 else (if actions[0].Attempt? then 1 else 0) + AttemptsIn(actions[1..])
  }

  /** After the queue is closed every run is bounded, and so are the requests made in it. */
  lemma {:induction false} DrainBounded(p: Pipe, actions: seq<Action>, l: Limits)
    requires l.cap >= 1 && Inv(p, l) && p.closed && IsRun(p, actions, l)
    ensures |actions| <= Work(p, l)
    ensures AttemptsIn(actions) <= AttemptsLeft(p, l)
    decreases |actions|
  {
    if actions != [] {
      StepKeeps(p, actions[0], l);
      StepWorks(p, actions[0], l);
      AttemptsStep(p, actions[0], l);
      DrainBounded(Next(p, actions[0], l), actions[1..], l);
    }
    assert |p.queue| * l.attempts >= 0;
  }

  lemma AttemptsStep(p: Pipe, a: Action, l: Limits)
    requires Inv(p, l) && p.closed && Enabled(p, a, l)
    ensures AttemptsLeft(Next(p, a, l), l) + (if a.Attempt? then 1 else 0) <= AttemptsLeft(p, l)
  {
    if a.Take? {
      assert |p.queue| * l.attempts == (|p.queue| - 1) * l.attempts + l.attempts;
    }
  }

  /** After the queue is closed some step can always be taken until the flush loop has returned. */
  lemma NeverStuck(p: Pipe, l: Limits)
    requires Inv(p, l) && p.closed && !p.phase.Finished?
    ensures exists a :: Enabled(p, a, l)
  {
    match p.hand {
      case Waiting =>
        if p.queue != [] {
          assert Enabled(p, Take, l);
        } else {
          assert Enabled(p, Leave, l);
        }
      case Holding(_, _) => assert Enabled(p, Settle(S.Exhausted), l);
      case Returned => assert Enabled(p, Finish, l);
    }
  }

  // ---- One batch of the sender as steps of the pipeline -------------------------------------------

  ghost function Repeat(n: nat): seq<Action> {
    if n == 0 then [] else [Attempt] + Repeat(n - 1)
  }

  // A crash leaves the batch in hand; otherwise it is booked. The sender is only ever cancelled by
  // the drain timing out, which may be while the batch is in hand.
  ghost function Steps(p: Pipe, n: nat, fate: S.Fate): seq<Action> {
    Repeat(n)
    + (if fate == S.ShutDown && !p.cancelled then [DrainTimeout] else [])
    + if fate == S.Crashed then [] else [Settle(fate)]
  }

  ghost function Delivered(p: Pipe, n: nat, fate: S.Fate): Pipe
    requires p.hand.Holding?
  {
    if fate == S.Crashed then p.(hand := Holding(p.hand.samples, p.hand.attempts + n))
    else
      p.(hand := Waiting, ledger := S.Booked(p.ledger, fate, p.hand.samples),
         cancelled := p.cancelled || fate == S.ShutDown)
  }

  lemma {:induction false} AttemptsRun(p: Pipe, n: nat, fate: S.Fate, l: Limits)
    requires p.hand.Holding? && p.hand.attempts + n <= l.attempts
    requires fate == S.ShutDown ==> p.cancelled || p.phase.Draining?
    ensures IsRun(p, Steps(p, n, fate), l)
    ensures RunAll(p, Steps(p, n, fate), l) == Delivered(p, n, fate)
    decreases n
  {
    var actions := Steps(p, n, fate);
    if n == 0 {
      EndRun(p, fate, l);
    } else {
      assert actions[0] == Attempt && actions[1..] == Steps(Next(p, Attempt, l), n - 1, fate);
      AttemptsRun(Next(p, Attempt, l), n - 1, fate, l);
    }
  }

  lemma OneStep(p: Pipe, a: Action, l: Limits)
    requires Enabled(p, a, l)
    ensures IsRun(p, [a], l) && RunAll(p, [a], l) == Next(p, a, l)
  {
    var actions := [a];
    assert actions[0] == a && actions[1..] == [];
    assert RunAll(Next(p, a, l), [], l) == Next(p, a, l);
    assert RunAll(p, actions, l) == RunAll(Next(p, actions[0], l), actions[1..], l);
  }

  lemma EndRun(p: Pipe, fate: S.Fate, l: Limits)
    requires p.hand.Holding? && (fate == S.ShutDown ==> p.cancelled || p.phase.Draining?)
    ensures IsRun(p, Steps(p, 0, fate), l) && RunAll(p, Steps(p, 0, fate), l) == Delivered(p, 0, fate)
  {
    var actions := Steps(p, 0, fate);
    assert Repeat(0) == [];
    if fate == S.ShutDown && !p.cancelled {
      var q := Next(p, DrainTimeout, l);
      assert actions == [DrainTimeout] + [Settle(fate)] && actions[1..] == [Settle(fate)];
      OneStep(q, Settle(fate), l);
    } else if fate != S.Crashed {
      assert actions == [Settle(fate)] && actions[1..] == [];
    }
  }

  /**
   What the retry loop does with a batch is one such run: its attempts, and then one entry in the
   ledger. A shutdown in it means that the drain has timed out by then.
   */
  lemma BatchIsRun(p: Pipe, c: S.SenderConfig, now: int, env: S.Environment)
    requires p.hand.Holding? && p.hand.attempts == 0
    requires S.Try(c, S.Deadline(c, now), 0, now, env).fate == S.ShutDown ==> p.cancelled || p.phase.Draining?
    ensures var a := S.Try(c, S.Deadline(c, now), 0, now, env);
            var l := Limits(1, S.MaxAttempts(c));
            var actions := Steps(p, |a.starts|, a.fate);
            && IsRun(p, actions, l)
            && RunAll(p, actions, l).ledger == S.Booked(p.ledger, a.fate, p.hand.samples)
            && (RunAll(p, actions, l).hand == Waiting <==> a.fate != S.Crashed)
  {
    hide S.Try;
    S.AttemptsBounded(c, S.Deadline(c, now), 0, now, env);
    var a := S.Try(c, S.Deadline(c, now), 0, now, env);
    AttemptsRun(p, |a.starts|, a.fate, Limits(1, S.MaxAttempts(c)));
  }
}
