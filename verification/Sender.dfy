/** The sender as the source writes it: a retry loop around a circuit breaker, with early exits. */
module Sender {
  import opened Options
  import B = BreakerSpec
  import C = Breaker
  import S = SenderSpec
  import Q = Queue
  import opened QueueSpec

  // The attempts made so far, followed by the rest.
  ghost function Joined(starts: seq<int>, retries: nat, rest: S.Attempts): S.Attempts {
    S.Attempts(rest.fate, starts + rest.starts, retries + rest.retries, rest.end)
  }

  lemma JoinedStep(starts: seq<int>, retries: nat, start: int, rest: S.Attempts)
    ensures Joined(starts, retries, S.Attempts(rest.fate, [start] + rest.starts, rest.retries + 1, rest.end))
         == Joined(starts + [start], retries + 1, rest)
  {
    assert starts + ([start] + rest.starts) == starts + [start] + rest.starts;
  }

  lemma JoinedNone(rest: S.Attempts)
    ensures Joined([], 0, rest) == rest
  {
    assert [] + rest.starts == rest.starts;
  }

  lemma JoinedEnd(starts: seq<int>, retries: nat, start: int)
    ensures forall fate, k, end :: Joined(starts, retries, S.Attempts(fate, [start], k, end))
                                   == S.Attempts(fate, starts + [start], retries + k, end)
  {
  }

  // What the environment does while one more batch is taken up.
  datatype Chance = Chance(cancelled: bool, idle: nat, encodes: bool, env: S.Environment)

  function JobFor<T>(batch: seq<T>, chance: Chance): S.Job {
    S.Job(chance.idle, |batch|, chance.encodes, chance.env)
  }

  ghost function JobsFor<T>(batches: seq<seq<T>>, n: nat, chance: nat -> Chance): seq<S.Job>
    decreases |batches|
  {
    if batches == [] then [] else [JobFor(batches[0], chance(n))] + JobsFor(batches[1..], n + 1, chance)
  }

  class Sender {
    const cfg: S.SenderConfig
    const breaker: C.CircuitBreaker
    // The clock of the environment.
    var now: int
    // Samples, by what became of them.
    var sent: nat
    var rejected: nat
    var exhausted: nat
    var breakerOpen: nat
    var shutDown: nat
    var retries: nat
    // The random draw has panicked, and the process with it.
    var crashed: bool
    // When attempts began and when the breaker opened.
    ghost var trace: seq<S.Event>

    constructor (cfg: S.SenderConfig, breakerCfg: B.Config, now: int)
      ensures Valid() && fresh(breaker) && fresh(breaker.buf)
      ensures this.cfg == cfg && breaker.config == B.Effective(breakerCfg)
      ensures State() == S.Start(now)
    {
      this.cfg := cfg;
      breaker := new C.CircuitBreaker(breakerCfg);
      this.now := now;
      sent, rejected, exhausted, breakerOpen, shutDown, retries := 0, 0, 0, 0, 0, 0;
      crashed := false;
      trace := [];
    }

    ghost predicate Valid()
      reads this, breaker
    {
      breaker.Valid()
    }

    ghost function Ledger(): S.Ledger
      reads this
    {
      S.Ledger(sent, rejected, exhausted, breakerOpen, shutDown)
    }

    ghost function State(): S.Sender
      requires Valid()
      reads this, breaker, breaker.buf
    {
      S.Sender(now, breaker.Now(), Ledger(), retries, trace, crashed)
    }

    /** The wait before the next attempt, if the draw does not panic: within the largest backoff and the deadline. */
    method ComputeWait(deadline: Option<int>, attempt: nat, r: S.Reaction) returns (wait: Option<int>)
      ensures wait == S.Wait(cfg, deadline, attempt, now, r)
      ensures wait.Some? ==> wait.value <= S.Ceiling(cfg) && (deadline.Some? ==> now + wait.value <= deadline.value)
      ensures wait.Some? ==> S.Floor(cfg, r.response) <= wait.value
                             || (deadline.Some? && now + wait.value == deadline.value)
    {
      var drawn := S.Backoff(cfg, attempt, r.response, r.draw);
      S.BackoffRange(cfg, attempt, r.response, r.draw);
      if drawn.None? {
        return None;
      }
      var value := drawn.value;
      if deadline.Some? {
        var remaining := deadline.value - now;
        if value > remaining {
          value := remaining;
        }
      }
      return Some(value);
    }

    // The observer counts samples by what became of them.
    method Book(fate: S.Fate, n: nat)
      modifies this`sent, this`rejected, this`exhausted, this`breakerOpen, this`shutDown
      ensures Ledger() == S.Booked(old(Ledger()), fate, n)
    {
      match fate
      case SentAll => sent := sent + n;
      case Rejected => rejected := rejected + n;
      case Exhausted => exhausted := exhausted + n;
      case BreakerOpen => breakerOpen := breakerOpen + n;
      case ShutDown => shutDown := shutDown + n;
      case Crashed =>
    }

    // A response that ends the attempts is booked, and reported to the breaker.
    method Answer(response: S.Response, n: nat) returns (answered: bool)
      requires Valid()
      modifies this`sent, this`rejected, this`exhausted, this`breakerOpen, this`shutDown, breaker, breaker.buf
      ensures Valid() && (breaker.buf == old(breaker.buf) || fresh(breaker.buf))
      ensures answered == !S.Retries(response)
      ensures !answered ==> Ledger() == old(Ledger()) && breaker.Now() == old(breaker.Now())
      ensures !answered ==> breaker.buf == old(breaker.buf)
      ensures answered ==>
                && Ledger() == S.Booked(old(Ledger()), S.FateOf(response), n)
                && breaker.Now() == S.AfterFate(old(breaker.Now()), S.FateOf(response), now, breaker.config)
    {
      hide B.Recent;
      match response {
        case Sent =>
          Book(S.SentAll, n);
          breaker.RecordSuccess();
          return true;
        case Canceled =>
          Book(S.ShutDown, n);
          return true;
        case NonRetryable(_) =>
          Book(S.Rejected, n);
          breaker.RecordFailure(now);
          return true;
        case _ =>
          return false;
      }
    }

    // After an attempt that may be retried: the wait, unless there is nothing to wait for.
    method Pause(deadline: Option<int>, attempt: nat, maxAttempts: int, r: S.Reaction, n: nat) returns (p: S.Pause)
      requires maxAttempts == S.MaxAttempts(cfg) && !crashed
      modifies this`now, this`retries, this`crashed
      modifies this`sent, this`rejected, this`exhausted, this`breakerOpen, this`shutDown
      ensures p == S.AfterFailure(cfg, deadline, attempt, old(now), r)
      ensures now == (if p.Again? then p.at else p.end)
      ensures retries == old(retries) + if p.Again? then 1 else p.retries
      ensures Ledger() == if p.Ends? && p.fate.ShutDown? then S.Booked(old(Ledger()), p.fate, n) else old(Ledger())
      ensures crashed == (p.Ends? && p.fate.Crashed?)
      ensures p.Ends? && p.fate.Exhausted? <==> S.Spent(cfg, deadline, attempt, old(now), r)
    {
      hide S.Booked, S.Wait, S.Spent;
      S.SpentMeans(cfg, deadline, attempt, now, r);
      if attempt + 1 >= maxAttempts {
        return S.Ends(S.Exhausted, 0, now);
      }
      if deadline.Some? && now > deadline.value {
        return S.Ends(S.Exhausted, 0, now);
      }
      var drawn := ComputeWait(deadline, attempt, r);
      if drawn.None? {
        crashed := true;
        return S.Ends(S.Crashed, 0, now);
      }
      var wait := drawn.value;
      if deadline.Some? && wait <= 0 {
        return S.Ends(S.Exhausted, 0, now);
      }
      retries := retries + 1;
      if r.cancelled && r.cancelAfter <= wait {
        now := now + r.cancelAfter;
        Book(S.ShutDown, n);
        return S.Ends(S.ShutDown, 1, now);
      }
      now := now + wait;
      return S.Again(now);
    }

    /** The attempts on one encoded batch of n samples; at each exit the samples are booked. */
    method Deliver(n: nat, env: S.Environment)
      requires Valid() && !crashed
      modifies this, breaker, breaker.buf
      ensures Valid() && (breaker.buf == old(breaker.buf) || fresh(breaker.buf))
      ensures State() == S.AfterAttempts(old(State()), n, S.Try(cfg, S.Deadline(cfg, old(now)), 0, old(now), env),
                                         breaker.config)
    {
      hide Joined, S.Wait, S.GivesUp, S.AfterFailure, S.Try, S.AttemptEvents, S.Booked, S.AfterFate;
      hide B.Recent, B.Success, B.Failure;
      S.OtherFates(Ledger(), breaker.Now(), n, breaker.config);
      var maxAttempts := if cfg.maxAttempts < 1 then 1 else cfg.maxAttempts;
      var deadline := if cfg.maxElapsed > 0 then Some(now + cfg.maxElapsed) else None;
      ghost var whole := S.Try(cfg, deadline, 0, now, env);
      ghost var starts: seq<int> := [];
      JoinedNone(whole);
      var attempt := 0;
      while attempt < maxAttempts
        invariant 0 <= attempt < maxAttempts == S.MaxAttempts(cfg)
        invariant Valid() && breaker.Now() == old(breaker.Now()) && breaker.buf == old(breaker.buf)
        invariant Ledger() == old(Ledger()) && trace == old(trace) && !crashed && retries >= old(retries)
        invariant whole == Joined(starts, retries - old(retries), S.Try(cfg, deadline, attempt, now, env))
        decreases maxAttempts - attempt
      {
        var r := env(attempt);
        S.FirstAttempt(cfg, deadline, attempt, now, env);
        ghost var start, before := now, starts;
        JoinedEnd(before, retries - old(retries), now);
        starts := starts + [now];
        now := now + r.duration;
        var answered := Answer(r.response, n);
        if answered {
          trace := trace + S.AttemptEvents(starts)
                   + if r.response.NonRetryable? && breaker.mode.Open? then [S.Opened(now)] else [];
          return;
        }
        S.LastEnds(cfg, deadline, attempt, now, r);
        var p := Pause(deadline, attempt, maxAttempts, r, n);
        if p.Ends? {
          if p.fate.Exhausted? {
            break;
          }
          trace := trace + S.AttemptEvents(starts);
          return;
        }
        attempt := attempt + 1;
        JoinedStep(before, retries - 1 - old(retries), start, S.Try(cfg, deadline, attempt, now, env));
      }
      Book(S.Exhausted, n);
      trace := trace + S.AttemptEvents(starts);
    }

    /** One batch: it is sent, rejected, given up or dropped, and its samples are booked accordingly. */
    method ProcessBatch(job: S.Job)
      requires Valid() && !crashed
      modifies this, breaker, breaker.buf
      ensures Valid() && (breaker.buf == old(breaker.buf) || fresh(breaker.buf))
      ensures State() == S.Process(old(State()), job, cfg, breaker.config)
    {
      hide S.Try, B.Recent, S.AfterAttempts;
      now := now + job.idle;
      var ok := breaker.Allow(now);
      if !ok {
        Book(S.BreakerOpen, job.samples);
        return;
      }
      if !job.encodes {
        Book(S.Rejected, job.samples);
        return;
      }
      Deliver(job.samples, job.env);
    }

    /**
     The loop of the sender: whether or not it is cancelled, it takes up every batch that is
     queued, oldest first. It ends when the queue is empty and closed, or empty and the sender
     cancelled; at an empty open queue it waits.
     */
    method Run<T>(queue: Q.Queue<T>, chance: nat -> Chance) returns (end: Dequeued<seq<T>>)
      requires Valid() && queue.Valid() && !crashed
      modifies this, breaker, breaker.buf, queue, queue.buf
      ensures Valid() && queue.Valid()
      ensures State() == S.ProcessAll(old(State()), JobsFor(old(queue.Contents()), 0, chance), cfg, breaker.config)
      ensures !crashed ==>
                && queue.Contents() == [] && end == Taken([], queue.closed, chance(|old(queue.Contents())|).cancelled)
                && Deliveries(queue.accepted, queue.fates)
                   == Deliveries(old(queue.accepted), old(queue.fates)) + old(queue.Contents())
    {
      hide S.Process, Deliveries, B.Recent;
      var n := 0;
      ghost var batches := queue.Contents();
      ghost var before := Deliveries(queue.accepted, queue.fates);
      ghost var whole := S.ProcessAll(State(), JobsFor(batches, 0, chance), cfg, breaker.config);
      assert batches[..0] == [] && batches[0..] == batches;
      while true
        invariant Valid() && queue.Valid() && !crashed && 0 <= n <= |batches|
        invariant queue.closed == old(queue.closed)
        invariant queue.buf == old(queue.buf) && (breaker.buf == old(breaker.buf) || fresh(breaker.buf))
        invariant queue.Contents() == batches[n..]
        invariant Deliveries(queue.accepted, queue.fates) == before + batches[..n]
        invariant whole == S.ProcessAll(State(), JobsFor(batches[n..], n, chance), cfg, breaker.config)
        decreases |batches| - n
      {
        assert n == |batches| ==> batches[..n] == batches;
        end := queue.Dequeue(chance(n).cancelled);
        match end {
          case Got(batch) =>
            assert batches[n..][1..] == batches[n + 1..];
            assert batches[..n + 1] == batches[..n] + [batch];
            ProcessBatch(JobFor(batch, chance(n)));
            n := n + 1;
            if crashed {
              S.CrashedStays(State(), JobsFor(batches[n..], n, chance), cfg, breaker.config);
              return;
            }
          case _ =>
            return;
        }
      }
    }
  }
}
