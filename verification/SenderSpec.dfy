/**
 The retry loop of the sender as functions of its environment: the receiver's
 responses, how long each takes, the jitter drawn and when a cancellation comes.
 Time passes only while a request is in flight or the sender waits.
 */
module SenderSpec {
  import opened Options
  import opened BreakerSpec

  const MAX_INT64: int := 0x7FFF_FFFF_FFFF_FFFF
  const TWO_64: int := 0x1_0000_0000_0000_0000

  // ---- Responses ---------------------------------------------------------------------

  datatype Response =
    | Sent
    | Canceled
    | TimedOut
    | NonRetryable(status: int)
    | Retryable(retryAfter: int)
    | OtherError

  // A response status and the delay its Retry-After header asks for.
  function Classify(status: int, retryAfter: int): Response {
    if 200 <= status < 300 then Sent
    else if status == 400 || status == 401 || status == 403 || status == 404 then NonRetryable(status)
    else if status == 408 || status == 429 || 500 <= status < 600 then Retryable(retryAfter)
    else Retryable(0)
  }

  /**
   A response is a success by its class; the four statuses that reject it are not
   retried, any other status is, and the delay asked for counts only with a
   server error, a request timeout or too many requests.
   */
  lemma StatusMeans(status: int, retryAfter: int)
    ensures var r := Classify(status, retryAfter);
            && (r.Sent? <==> status / 100 == 2)
            && (r.NonRetryable? <==> status in {400, 401, 403, 404})
            && (r.NonRetryable? ==> r.status == status)
            && (r.Retryable? <==> status / 100 != 2 && status !in {400, 401, 403, 404})
            && (r.Retryable? ==>
                  r.retryAfter == if status / 100 == 5 || status in {408, 429} then retryAfter else 0)
  {
  }

  // ---- Backoff ----------------------------------------------------------------------------

  datatype SenderConfig = SenderConfig(
    timeout: int, maxAttempts: int, maxElapsed: int, initialBackoff: int, maxBackoff: int)

  function Pow2(n: nat): int {
    if n == 0 then 1 else 2 * Pow2(n - 1)
  }

  // Two's-complement wrap-around of a 64-bit integer.
  function Wrap64(x: int): int {
    (x + MAX_INT64 + 1) % TWO_64 - (MAX_INT64 + 1)
  }

  function Base(c: SenderConfig): int {
    if c.initialBackoff <= 0 then SECOND else c.initialBackoff
  }

  function Ceiling(c: SenderConfig): int {
    if c.maxBackoff <= 0 then 30 * SECOND else c.maxBackoff
  }

  function Exponent(attempt: int): nat {
    if attempt < 0 then 0 else if attempt > 16 then 16 else attempt
  }

  function Upper(c: SenderConfig, attempt: int): int {
    var shifted := Wrap64(Base(c) * Pow2(Exponent(attempt)));
    if shifted > Ceiling(c) || shifted <= 0 then Ceiling(c) else shifted
  }

  // The floor that a receiver may ask for.
  function Floor(c: SenderConfig, r: Response): int {
    if r.Retryable? && r.retryAfter > 0 then
      if r.retryAfter > Ceiling(c) then Ceiling(c) else r.retryAfter
    else 0
  }

  // A random number below a bound, from the generator's raw value. For a bound that is not
  // positive there is none: the generator panics.
  function Draw(bound: int, raw: nat): Option<int> {
    if bound <= 0 then None else Some(raw % bound)
  }

  function Backoff(c: SenderConfig, attempt: int, r: Response, draw: nat): Option<int> {
    match Draw(Wrap64(Upper(c, attempt) + 1), draw)
    case None => None
    case Some(jittered) => Some(if jittered < Floor(c, r) then Floor(c, r) else jittered)
  }

  lemma {:induction false} Pow2Bound(n: nat)
    requires n <= 16
    ensures 1 <= Pow2(n) <= 65536
  {
    if n > 0 {
      Pow2Bound(n - 1);
      Pow2Cap(n);
    }
  }

  lemma Pow2Cap(n: nat)
    requires n <= 16
    ensures Pow2(n) <= Pow2(16) == 65536
    decreases 16 - n
  {
    Pow2Sixteen();
    if n < 16 {
      Pow2Cap(n + 1);
      Pow2Positive(n);
    }
  }

  lemma {:induction false} Pow2Positive(n: nat)
    ensures Pow2(n) >= 1
  {
    if n > 0 {
      Pow2Positive(n - 1);
    }
  }

  lemma Pow2Sixteen()
    ensures Pow2(16) == 65536
  {
    assert Pow2(4) == 16;
    assert Pow2(8) == 256;
    assert Pow2(12) == 4096;
  }

  lemma UpperRange(c: SenderConfig, attempt: int)
    ensures 0 < Upper(c, attempt) <= Ceiling(c)
  {
  }

  // The next number after a positive one wraps to a negative one, or it is the next number.
  lemma WrapNext(x: int)
    requires x > 0
    ensures Wrap64(x + 1) <= x + 1
    ensures x < MAX_INT64 ==> Wrap64(x + 1) == x + 1
    ensures x == MAX_INT64 ==> Wrap64(x + 1) < 0
  {
  }

  /**
   The draw panics exactly when the range is the largest 64-bit number: the
   largest backoff is that number, and the shift wraps to something that is not
   positive or reaches it.
   */
  lemma DrawPanics(c: SenderConfig, attempt: int, r: Response, draw: nat)
    requires Ceiling(c) <= MAX_INT64
    ensures var shifted := Wrap64(Base(c) * Pow2(Exponent(attempt)));
            Backoff(c, attempt, r, draw).None? <==>
            Ceiling(c) == MAX_INT64 && (shifted <= 0 || shifted == MAX_INT64)
  {
    UpperRange(c, attempt);
    WrapNext(Upper(c, attempt));
  }

  // A base for which it does panic, at the first retry but one.
  lemma PanicInput(r: Response, draw: nat)
    ensures var c := SenderConfig(0, 3, 0, 0x4000_0000_0000_0000, MAX_INT64);
            Backoff(c, 0, r, draw).Some? && Backoff(c, 1, r, draw).None?
  {
    assert Pow2(0) == 1 && Pow2(1) == 2;
  }

  /** If there is a wait, it lies between zero and the largest backoff, and honours what the receiver asks for. */
  lemma BackoffRange(c: SenderConfig, attempt: int, r: Response, draw: nat)
    ensures 0 < Upper(c, attempt)
    ensures Backoff(c, attempt, r, draw).Some? ==> Floor(c, r) <= Backoff(c, attempt, r, draw).value <= Ceiling(c)
    ensures Backoff(c, attempt, r, draw).Some? ==>
              || Backoff(c, attempt, r, draw).value == Floor(c, r)
              || Backoff(c, attempt, r, draw).value <= Upper(c, attempt)
    ensures Floor(c, r) >= 0
    ensures Ceiling(c) < MAX_INT64 ==> Backoff(c, attempt, r, draw).Some?
  {
    hide Wrap64;
    UpperRange(c, attempt);
    WrapNext(Upper(c, attempt));
  }

  /** Below 2^47 nanoseconds the shift is exact: the wait is drawn from doubling ranges up to the largest backoff. */
  lemma BackoffDoubles(c: SenderConfig, attempt: int, r: Response, draw: nat)
    requires Base(c) < 0x8000_0000_0000
    ensures var range := Base(c) * Pow2(Exponent(attempt));
            && Upper(c, attempt) == (if range < Ceiling(c) then range else Ceiling(c))
            && Floor(c, r) <= Ceiling(c)
            && (Floor(c, r) == 0 && Backoff(c, attempt, r, draw).Some? ==>
                  Backoff(c, attempt, r, draw).value <= Upper(c, attempt))
  {
    var p := Pow2(Exponent(attempt));
    Pow2Bound(Exponent(attempt));
    ShiftFits(Base(c), p);
    UpperRange(c, attempt);
    BackoffRange(c, attempt, r, draw);
  }

  lemma ShiftFits(base: int, p: int)
    requires 0 < base < 0x8000_0000_0000 && 1 <= p <= 65536
    ensures 0 < base * p <= MAX_INT64 && Wrap64(base * p) == base * p
  {
    assert base * p <= base * 65536;
  }

  /** For any base, the range is the doubled one exactly when the shift does not wrap to a smaller positive number. */
  lemma ShiftExact(c: SenderConfig, attempt: int)
    requires Ceiling(c) <= MAX_INT64
    ensures var range := Base(c) * Pow2(Exponent(attempt));
            Upper(c, attempt) == (if range < Ceiling(c) then range else Ceiling(c)) <==>
            range <= MAX_INT64 || Wrap64(range) <= 0 || Wrap64(range) >= Ceiling(c)
  {
    var p := Pow2(Exponent(attempt));
    Pow2Bound(Exponent(attempt));
    assert Base(c) * p >= Base(c);
  }

  /**
   Below 2^47 nanoseconds the ranges are the first backoff, one second unless
   configured, doubled at each attempt up to the seventeenth and capped at the
   largest backoff, thirty seconds unless configured.
   */
  lemma RangeDoubles(c: SenderConfig, attempt: nat)
    requires c.initialBackoff < 0x8000_0000_0000
    ensures var base := if c.initialBackoff > 0 then c.initialBackoff else 1_000_000_000;
            var cap := if c.maxBackoff > 0 then c.maxBackoff else 30_000_000_000;
            var next := 2 * Upper(c, attempt);
            && Upper(c, 0) == (if base < cap then base else cap)
            && (attempt < 16 ==> Upper(c, attempt + 1) == if next < cap then next else cap)
            && (attempt >= 16 ==> Upper(c, attempt + 1) == Upper(c, attempt))
  {
    hide Upper, Range;
    RangeAt(c, 0);
    RangeAt(c, attempt);
    RangeAt(c, attempt + 1);
    RangeNext(c, attempt);
    if attempt >= 16 {
      SameUpper(c, attempt);
    }
  }

  function Range(c: SenderConfig, attempt: int): int {
    Base(c) * Pow2(Exponent(attempt))
  }

  lemma RangeAt(c: SenderConfig, attempt: int)
    requires Base(c) < 0x8000_0000_0000
    ensures Range(c, attempt) > 0
    ensures Upper(c, attempt) == if Range(c, attempt) < Ceiling(c) then Range(c, attempt) else Ceiling(c)
  {
    hide Upper;
    Pow2Bound(Exponent(attempt));
    ShiftFits(Base(c), Pow2(Exponent(attempt)));
    BackoffDoubles(c, attempt, OtherError, 0);
  }

  lemma RangeNext(c: SenderConfig, attempt: nat)
    ensures Range(c, 0) == Base(c)
    ensures attempt < 16 ==> Range(c, attempt + 1) == 2 * Range(c, attempt)
  {
    assert Pow2(0) == 1;
    if attempt < 16 {
      assert Pow2(attempt + 1) == 2 * Pow2(attempt);
      Twice(Base(c), Pow2(attempt));
    }
  }

  lemma SameUpper(c: SenderConfig, attempt: nat)
    requires attempt >= 16
    ensures Upper(c, attempt + 1) == Upper(c, attempt)
  {
  }

  lemma Twice(base: int, p: int)
    ensures base * (2 * p) == 2 * (base * p)
  {
  }

  /**
   The wait is drawn with full jitter: for the right draw it is any number from
   what the receiver asks for, within the largest backoff, up to the end of the
   range, and no other number.
   */
  lemma FullJitter(c: SenderConfig, attempt: int, r: Response, wait: int)
    requires Ceiling(c) < MAX_INT64
    ensures var asked := if r.Retryable? && r.retryAfter > 0 then r.retryAfter else 0;
            var least := if asked < Ceiling(c) then asked else Ceiling(c);
            (exists draw: nat :: Backoff(c, attempt, r, draw) == Some(wait)) <==>
            wait == least || least <= wait <= Upper(c, attempt)
  {
    hide Upper, Floor;
    UpperRange(c, attempt);
    var upper := Upper(c, attempt);
    WrapNext(upper);
    var least := Floor(c, r);
    assert 0 <= least <= Ceiling(c) by {
      BackoffRange(c, attempt, r, 0);
    }
    assert Backoff(c, attempt, r, 0) == Some(least);
    if least <= wait <= upper {
      SmallModulus(wait, upper + 1);
      assert Backoff(c, attempt, r, wait) == Some(wait);
    }
    FloorMeans(c, r);
    forall draw: nat | Backoff(c, attempt, r, draw) == Some(wait)
      ensures wait == least || least <= wait <= upper
    {
      assert 0 <= draw % (upper + 1) <= upper;
    }
  }

  lemma SmallModulus(x: nat, m: nat)
    requires x < m
    ensures x % m == x
  {
  }

  lemma FloorMeans(c: SenderConfig, r: Response)
    ensures var asked := if r.Retryable? && r.retryAfter > 0 then r.retryAfter else 0;
            Floor(c, r) == if asked < Ceiling(c) then asked else Ceiling(c)
  {
  }

  // A base for which it does wrap: the range at the sixteenth retry is some 65 microseconds.
  lemma ShiftWraps()
    ensures var c := SenderConfig(0, 20, 0, 0x1_0000_0000_0001, MAX_INT64 - 1);
            Upper(c, 16) == 65536 && Base(c) * Pow2(Exponent(16)) > Ceiling(c)
  {
    Pow2Sixteen();
    assert Wrap64(0x1_0000_0000_0001 * 65536) == 65536;
  }

  // ---- One batch ------------------------------------------------------------------------

  // How the environment reacts to one attempt. A cancellation may come while the
  // sender waits, that long after the wait began.
  datatype Reaction = Reaction(response: Response, duration: nat, draw: nat, cancelled: bool, cancelAfter: nat)
  type Environment = nat -> Reaction

  // A batch during which the process crashed is Crashed.
  datatype Fate = SentAll | Rejected | Exhausted | BreakerOpen | ShutDown | Crashed

  // The attempts on one batch: when each began, how many retries were announced and when it was over.
  datatype Attempts = Attempts(fate: Fate, starts: seq<int>, retries: nat, end: int)

  function MaxAttempts(c: SenderConfig): int {
    if c.maxAttempts < 1 then 1 else c.maxAttempts
  }

  function Deadline(c: SenderConfig, now: int): Option<int> {
    if c.maxElapsed > 0 then Some(now + c.maxElapsed) else None
  }

  // None if the draw panics.
  function Wait(c: SenderConfig, deadline: Option<int>, attempt: nat, done: int, r: Reaction): Option<int> {
    match Backoff(c, attempt, r.response, r.draw)
    case None => None
    case Some(wait) => Some(if deadline.Some? && wait > deadline.value - done then deadline.value - done else wait)
  }

  // No further attempt is made.
  predicate GivesUp(c: SenderConfig, deadline: Option<int>, attempt: nat, done: int, r: Reaction) {
    || attempt + 1 >= MaxAttempts(c)
    || (deadline.Some? && done > deadline.value)
    || (deadline.Some? && Wait(c, deadline, attempt, done, r).Some? && Wait(c, deadline, attempt, done, r).value <= 0)
  }

  function Try(c: SenderConfig, deadline: Option<int>, attempt: nat, now: int, env: Environment): Attempts
    decreases MaxAttempts(c) - attempt
  {
    var r := env(attempt);
    var done := now + r.duration;
    match r.response
    case Sent => Attempts(SentAll, [now], 0, done)
    case Canceled => Attempts(ShutDown, [now], 0, done)
    case NonRetryable(_) => Attempts(Rejected, [now], 0, done)
    case _ =>
      if GivesUp(c, deadline, attempt, done, r) then Attempts(Exhausted, [now], 0, done)
      else if Wait(c, deadline, attempt, done, r).None? then Attempts(Crashed, [now], 0, done)
      else
        var wait := Wait(c, deadline, attempt, done, r).value;
        if r.cancelled && r.cancelAfter <= wait then Attempts(ShutDown, [now], 1, done + r.cancelAfter)
        else
          var rest := Try(c, deadline, attempt + 1, done + wait, env);
          Attempts(rest.fate, [now] + rest.starts, rest.retries + 1, rest.end)
  }

  // What a response makes of the batch, if it is not retried.
  function FateOf(r: Response): Fate {
    match r
    case Sent => SentAll
    case Canceled => ShutDown
    case _ => Rejected
  }

  predicate Retries(r: Response) {
    !r.Sent? && !r.Canceled? && !r.NonRetryable?
  }

  // What follows an attempt that failed and may be retried, once its request is done: another
  // attempt after a wait, or the end of the batch.
  datatype Pause = Again(at: int) | Ends(fate: Fate, retries: nat, end: int)

  function AfterFailure(c: SenderConfig, deadline: Option<int>, attempt: nat, done: int, r: Reaction): Pause {
    if GivesUp(c, deadline, attempt, done, r) then Ends(Exhausted, 0, done)
    else
      match Wait(c, deadline, attempt, done, r)
      case None => Ends(Crashed, 0, done)
      case Some(wait) =>
        if r.cancelled && r.cancelAfter <= wait then Ends(ShutDown, 1, done + r.cancelAfter)
        else Again(done + wait)
  }

  lemma LastEnds(c: SenderConfig, deadline: Option<int>, attempt: nat, done: int, r: Reaction)
    ensures var p := AfterFailure(c, deadline, attempt, done, r);
            && (p.Again? ==> attempt + 1 < MaxAttempts(c))
            && (p.Ends? ==> p.fate.Exhausted? || p.fate.ShutDown? || p.fate.Crashed?)
  {
    hide Wait;
  }

  // The first attempt of Try, for an attempt that began at now.
  lemma FirstAttempt(c: SenderConfig, deadline: Option<int>, attempt: nat, now: int, env: Environment)
    requires attempt < MaxAttempts(c)
    ensures var r := env(attempt);
            var done := now + r.duration;
            var a := Try(c, deadline, attempt, now, env);
            && (!Retries(r.response) ==> a == Attempts(FateOf(r.response), [now], 0, done))
            && (Retries(r.response) ==>
                  match AfterFailure(c, deadline, attempt, done, r)
                  case Ends(fate, retries, end) => a == Attempts(fate, [now], retries, end)
                  case Again(at) =>
                    var rest := Try(c, deadline, attempt + 1, at, env);
                    a == Attempts(rest.fate, [now] + rest.starts, rest.retries + 1, rest.end))
  {
  }

  /**
   The wait keeps within the largest backoff and the deadline; only the deadline
   cuts it below what the receiver asks for.
   */
  lemma WaitRange(c: SenderConfig, deadline: Option<int>, attempt: nat, done: int, r: Reaction)
    requires Wait(c, deadline, attempt, done, r).Some?
    ensures var wait := Wait(c, deadline, attempt, done, r).value;
            && wait <= Ceiling(c)
            && (deadline.Some? ==> done + wait <= deadline.value)
            && (Floor(c, r.response) <= wait || (deadline.Some? && done + wait == deadline.value))
            && (!GivesUp(c, deadline, attempt, done, r) ==> 0 <= wait)
  {
    hide Backoff;
    BackoffRange(c, attempt, r.response, r.draw);
  }

  /**
   A batch is attempted at least once and at most as often as configured; every
   attempt but the last is followed by a retry.
   */
  lemma {:induction false} AttemptsBounded(
      c: SenderConfig, deadline: Option<int>, attempt: nat, now: int, env: Environment)
    requires attempt < MaxAttempts(c)
    ensures var a := Try(c, deadline, attempt, now, env);
            && 1 <= |a.starts| <= MaxAttempts(c) - attempt
            && |a.starts| - 1 <= a.retries <= |a.starts|
            && a.starts[0] == now
            && (forall i, j :: 0 <= i <= j < |a.starts| ==> a.starts[i] <= a.starts[j] <= a.end)
            && (a.retries == |a.starts| ==> a.fate == ShutDown)
    decreases MaxAttempts(c) - attempt
  {
    hide Wait, GivesUp;
    var r := env(attempt);
    var done := now + r.duration;
    if Retries(r.response) && !GivesUp(c, deadline, attempt, done, r)
       && Wait(c, deadline, attempt, done, r).Some? {
      WaitRange(c, deadline, attempt, done, r);
      var wait := Wait(c, deadline, attempt, done, r).value;
      if !(r.cancelled && r.cancelAfter <= wait) {
        NotLast(c, deadline, attempt, done, r);
        AttemptsBounded(c, deadline, attempt + 1, done + wait, env);
      }
    }
  }

  lemma NotLast(c: SenderConfig, deadline: Option<int>, attempt: nat, done: int, r: Reaction)
    requires !GivesUp(c, deadline, attempt, done, r)
    ensures attempt + 1 < MaxAttempts(c)
  {
  }

  ghost predicate AllBy(times: seq<int>, limit: int) {
    forall i :: 0 <= i < |times| ==> times[i] <= limit
  }

  // Each request is cut off at its timeout.
  ghost predicate Prompt(c: SenderConfig, env: Environment) {
    c.timeout > 0 && forall k: nat :: env(k).duration <= c.timeout
  }

  /** Every attempt begins by the deadline, and the batch is over at most one request timeout later. */
  lemma {:induction false} WithinBudget(
      c: SenderConfig, deadline: Option<int>, attempt: nat, now: int, env: Environment)
    requires attempt < MaxAttempts(c) && deadline.Some? && now <= deadline.value
    ensures AllBy(Try(c, deadline, attempt, now, env).starts, deadline.value)
    ensures Prompt(c, env) ==> Try(c, deadline, attempt, now, env).end <= deadline.value + c.timeout
    decreases MaxAttempts(c) - attempt
  {
    hide Wait, GivesUp;
    var r := env(attempt);
    var done := now + r.duration;
    if Retries(r.response) && !GivesUp(c, deadline, attempt, done, r)
       && Wait(c, deadline, attempt, done, r).Some? {
      WaitRange(c, deadline, attempt, done, r);
      var wait := Wait(c, deadline, attempt, done, r).value;
      if !(r.cancelled && r.cancelAfter <= wait) {
        NotLast(c, deadline, attempt, done, r);
        WithinBudget(c, deadline, attempt + 1, done + wait, env);
      }
    }
  }

  lemma WaitDrawn(c: SenderConfig, deadline: Option<int>, attempt: nat, done: int, r: Reaction)
    ensures Wait(c, deadline, attempt, done, r).Some? <==> Backoff(c, attempt, r.response, r.draw).Some?
  {
  }

  // The response to the last attempt decides what becomes of the batch.
  lemma {:induction false} LastResponse(
      c: SenderConfig, deadline: Option<int>, attempt: nat, now: int, env: Environment)
    requires attempt < MaxAttempts(c)
    ensures var a := Try(c, deadline, attempt, now, env);
            && |a.starts| >= 1
            && var last := env(attempt + |a.starts| - 1).response;
               && (a.fate == SentAll <==> last.Sent?)
               && (a.fate == Rejected <==> last.NonRetryable?)
               && a.fate != BreakerOpen
               && (a.fate.Crashed? ==> Ceiling(c) >= MAX_INT64)
    decreases MaxAttempts(c) - attempt
  {
    hide Wait, GivesUp;
    BackoffRange(c, attempt, env(attempt).response, env(attempt).draw);
    WaitDrawn(c, deadline, attempt, now + env(attempt).duration, env(attempt));
    var r := env(attempt);
    var done := now + r.duration;
    if Retries(r.response) && !GivesUp(c, deadline, attempt, done, r)
       && Wait(c, deadline, attempt, done, r).Some? {
      var wait := Wait(c, deadline, attempt, done, r).value;
      if !(r.cancelled && r.cancelAfter <= wait) {
        NotLast(c, deadline, attempt, done, r);
        LastResponse(c, deadline, attempt + 1, done + wait, env);
      }
    }
  }

  // ---- Why an attempt is the last one ------------------------------------------------------

  // The attempts or the time are used up: this was the last attempt allowed, or it ended
  // after the deadline, or no time is left to wait for another one.
  predicate Spent(c: SenderConfig, deadline: Option<int>, attempt: nat, done: int, r: Reaction) {
    var backoff := Backoff(c, attempt, r.response, r.draw);
    || attempt + 1 >= c.maxAttempts
    || (deadline.Some? && done > deadline.value)
    || (deadline.Some? && backoff.Some? && (done == deadline.value || backoff.value == 0))
  }

  // The wait that was drawn, cut at the deadline.
  function CutAt(deadline: Option<int>, done: int, backoff: int): int {
    if deadline.Some? && done + backoff > deadline.value then deadline.value - done else backoff
  }

  // The attempt that ended at done is followed by another one, after a wait that nothing interrupts.
  predicate GoesOn(c: SenderConfig, deadline: Option<int>, attempt: nat, done: int, r: Reaction) {
    var backoff := Backoff(c, attempt, r.response, r.draw);
    && (r.response.TimedOut? || r.response.Retryable? || r.response.OtherError?)
    && !Spent(c, deadline, attempt, done, r) && backoff.Some?
    && !(r.cancelled && r.cancelAfter <= CutAt(deadline, done, backoff.value))
  }

  lemma SpentMeans(c: SenderConfig, deadline: Option<int>, attempt: nat, done: int, r: Reaction)
    ensures GivesUp(c, deadline, attempt, done, r) <==> Spent(c, deadline, attempt, done, r)
    ensures var backoff := Backoff(c, attempt, r.response, r.draw);
            Wait(c, deadline, attempt, done, r) ==
            if backoff.None? then None else Some(CutAt(deadline, done, backoff.value))
  {
    hide Backoff;
    BackoffRange(c, attempt, r.response, r.draw);
  }

  // The last attempt of a batch, that ended at done, and what it makes of the batch.
  predicate EndsBatch(
      a: Attempts, c: SenderConfig, deadline: Option<int>, attempt: nat, done: int, r: Reaction)
  {
    var drawn := Backoff(c, attempt, r.response, r.draw).Some?;
    match r.response
    case Sent => a.fate == SentAll && a.end == done
    case NonRetryable(_) => a.fate == Rejected && a.end == done
    case Canceled => a.fate == ShutDown && a.end == done
    case _ =>
      if Spent(c, deadline, attempt, done, r) then a.fate == Exhausted && a.end == done
      else if drawn then a.fate == ShutDown && a.end == done + r.cancelAfter
      else a.fate == Crashed && a.end == done
  }

  lemma OneAttempt(c: SenderConfig, deadline: Option<int>, attempt: nat, now: int, env: Environment)
    requires attempt < MaxAttempts(c)
    ensures var a := Try(c, deadline, attempt, now, env);
            var r := env(attempt);
            var done := now + r.duration;
            && (!GoesOn(c, deadline, attempt, done, r) ==>
                  a.starts == [now] && EndsBatch(a, c, deadline, attempt, done, r))
            && (GoesOn(c, deadline, attempt, done, r) ==>
                  var at := done + CutAt(deadline, done, Backoff(c, attempt, r.response, r.draw).value);
                  var rest := Try(c, deadline, attempt + 1, at, env);
                  && attempt + 1 < MaxAttempts(c)
                  && a.starts == [now] + rest.starts && a.fate == rest.fate && a.end == rest.end)
  {
    hide Wait, GivesUp, Backoff, CutAt;
    var r := env(attempt);
    SpentMeans(c, deadline, attempt, now + r.duration, r);
    FirstAttempt(c, deadline, attempt, now, env);
  }

  /**
   Every attempt of a batch is followed by another one, at the end of the drawn
   wait, exactly if its response may be retried and neither attempts nor time are
   used up, unless the wait is interrupted or the draw panics; otherwise it ends
   the batch, and its response or what was used up says how.
   */
  lemma {:induction false} EachAttempt(
      c: SenderConfig, deadline: Option<int>, attempt: nat, now: int, env: Environment, j: nat)
    requires attempt < MaxAttempts(c) && j < |Try(c, deadline, attempt, now, env).starts|
    ensures var a := Try(c, deadline, attempt, now, env);
            var r := env(attempt + j);
            var done := a.starts[j] + r.duration;
            && (j + 1 < |a.starts| <==> GoesOn(c, deadline, attempt + j, done, r))
            && (j + 1 < |a.starts| ==>
                  a.starts[j + 1] ==
                  done + CutAt(deadline, done, Backoff(c, attempt + j, r.response, r.draw).value))
            && (j + 1 == |a.starts| ==> EndsBatch(a, c, deadline, attempt + j, done, r))
    decreases MaxAttempts(c) - attempt
  {
    hide Try, Backoff, CutAt, Spent;
    var r := env(attempt);
    var done := now + r.duration;
    OneAttempt(c, deadline, attempt, now, env);
    if GoesOn(c, deadline, attempt, done, r) {
      var at := done + CutAt(deadline, done, Backoff(c, attempt, r.response, r.draw).value);
      var rest := Try(c, deadline, attempt + 1, at, env);
      AttemptsBounded(c, deadline, attempt + 1, at, env);
      if j > 0 {
        EachAttempt(c, deadline, attempt + 1, at, env, j - 1);
      }
    }
  }

  // ---- The ledger -------------------------------------------------------------------------

  datatype Ledger = Ledger(sent: nat, rejected: nat, exhausted: nat, breakerOpen: nat, shutDown: nat)

  const NEW_LEDGER: Ledger := Ledger(0, 0, 0, 0, 0)

  function Booked(l: Ledger, fate: Fate, n: nat): Ledger {
    match fate
    case SentAll => l.(sent := l.sent + n)
    case Rejected => l.(rejected := l.rejected + n)
    case Exhausted => l.(exhausted := l.exhausted + n)
    case BreakerOpen => l.(breakerOpen := l.breakerOpen + n)
    case ShutDown => l.(shutDown := l.shutDown + n)
    case Crashed => l
  }

  function Total(l: Ledger): nat {
    l.sent + l.rejected + l.exhausted + l.breakerOpen + l.shutDown
  }

  // ---- The sender over many batches ----------------------------------------------------------

  // A batch of samples that is taken up after some idle time; it may not be encodable.
  datatype Job = Job(idle: nat, samples: nat, encodes: bool, env: Environment)

  datatype Event = Attempted(time: int) | Opened(time: int)

  // Nothing more happens once the process has crashed.
  datatype Sender = Sender(
    now: int, breaker: State, ledger: Ledger, retries: nat, trace: seq<Event>, crashed: bool)

  function AttemptEvents(starts: seq<int>): seq<Event> {
    seq(|starts|, i requires 0 <= i < |starts| => Attempted(starts[i]))
  }

  // What the end of a batch means for the breaker.
  function AfterFate(b: State, fate: Fate, end: int, bc: Config): State {
    match fate
    case SentAll => Success(b)
    case Rejected => Failure(b, end, bc)
    case _ => b
  }

  // The other fates are nothing to the breaker, and a crash books nothing.
  lemma OtherFates(l: Ledger, b: State, n: nat, bc: Config)
    ensures Booked(l, Crashed, n) == l
    ensures forall end :: AfterFate(b, ShutDown, end, bc) == b
    ensures forall end :: AfterFate(b, Exhausted, end, bc) == b
    ensures forall end :: AfterFate(b, Crashed, end, bc) == b
  {
  }

  function AfterBatch(b: State, a: Attempts, bc: Config): State {
    AfterFate(b, a.fate, a.end, bc)
  }

  function AfterAttempts(s: Sender, samples: nat, a: Attempts, bc: Config): Sender {
    var b := AfterBatch(s.breaker, a, bc);
    Sender(a.end, b, Booked(s.ledger, a.fate, samples), s.retries + a.retries,
           s.trace + AttemptEvents(a.starts) + if a.fate.Rejected? && b.mode.Open? then [Opened(a.end)] else [],
           a.fate.Crashed?)
  }

  function Process(s: Sender, job: Job, c: SenderConfig, bc: Config): Sender {
    var now := s.now + job.idle;
    var b := Allowed(s.breaker, now, bc);
    if s.crashed then s
    else if b.mode.Open? then s.(now := now, breaker := b, ledger := Booked(s.ledger, BreakerOpen, job.samples))
    else if !job.encodes then s.(now := now, breaker := b, ledger := Booked(s.ledger, Rejected, job.samples))
    else
      var a := Try(c, Deadline(c, now), 0, now, job.env);
      AfterAttempts(s.(now := now, breaker := b), job.samples, a, bc)
  }

  // The samples booked under each heading since a ledger was l.
  predicate Books(l: Ledger, m: Ledger, sent: nat, rejected: nat, exhausted: nat, breakerOpen: nat, shutDown: nat) {
    && m.sent == l.sent + sent && m.rejected == l.rejected + rejected && m.exhausted == l.exhausted + exhausted
    && m.breakerOpen == l.breakerOpen + breakerOpen && m.shutDown == l.shutDown + shutDown
  }

  /**
   A batch is booked under the heading that its last attempt calls for: as
   exhausted exactly when that attempt could be retried but the attempts or the
   time, counted from when the batch was taken up, were used up.
   */
  lemma BookedAs(s: Sender, job: Job, c: SenderConfig, bc: Config)
    requires !s.crashed
    ensures var now := s.now + job.idle;
            var t := Process(s, job, c, bc);
            var deadline := if c.maxElapsed > 0 then Some(now + c.maxElapsed) else None;
            var starts := Try(c, deadline, 0, now, job.env).starts;
            var last := |starts| - 1;
            var n := job.samples;
            if s.breaker.mode.Open? && now < s.breaker.openedAt + bc.cooldown then
              Books(s.ledger, t.ledger, 0, 0, 0, n, 0) && t.trace == s.trace
            else if !job.encodes then Books(s.ledger, t.ledger, 0, n, 0, 0, 0) && t.trace == s.trace
            else
              && last >= 0
              && var r := job.env(last);
                 var retry := r.response.TimedOut? || r.response.Retryable? || r.response.OtherError?;
                 var spent := Spent(c, deadline, last, starts[last] + r.duration, r);
                 if r.response.Sent? then Books(s.ledger, t.ledger, n, 0, 0, 0, 0)
                 else if r.response.NonRetryable? then Books(s.ledger, t.ledger, 0, n, 0, 0, 0)
                 else if retry && spent then Books(s.ledger, t.ledger, 0, 0, n, 0, 0)
                 else if t.crashed then retry && Books(s.ledger, t.ledger, 0, 0, 0, 0, 0)
                 else Books(s.ledger, t.ledger, 0, 0, 0, 0, n) && (retry ==> r.cancelled)
  {
    hide Try, Spent, Backoff, CutAt, Failure;
    var now := s.now + job.idle;
    var deadline := Deadline(c, now);
    var a := Try(c, deadline, 0, now, job.env);
    AttemptsBounded(c, deadline, 0, now, job.env);
    EachAttempt(c, deadline, 0, now, job.env, |a.starts| - 1);
  }

  function ProcessAll(s: Sender, jobs: seq<Job>, c: SenderConfig, bc: Config): Sender
    decreases |jobs|
  {
    if jobs == [] then s else ProcessAll(Process(s, jobs[0], c, bc), jobs[1..], c, bc)
  }

  function Start(now: int): Sender {
    Sender(now, NEW, NEW_LEDGER, 0, [], false)
  }

  function Samples(jobs: seq<Job>): nat
    decreases |jobs|
  {
    if jobs == [] then 0 else jobs[0].samples + Samples(jobs[1..])
  }

  lemma {:induction false} CrashedStays(s: Sender, jobs: seq<Job>, c: SenderConfig, bc: Config)
    requires s.crashed
    ensures ProcessAll(s, jobs, c, bc) == s
    decreases |jobs|
  {
    if jobs != [] {
      CrashedStays(s, jobs[1..], c, bc);
    }
  }

  /** Whatever happens to a batch, its samples are booked once, under one heading, unless the process crashes. */
  lemma {:induction false} BookedOnce(s: Sender, jobs: seq<Job>, c: SenderConfig, bc: Config)
    ensures var t := ProcessAll(s, jobs, c, bc);
            && (!t.crashed ==> Total(t.ledger) == Total(s.ledger) + Samples(jobs))
            && (t.crashed ==> s.crashed || Ceiling(c) >= MAX_INT64)
    decreases |jobs|
  {
    hide Try;
    if s.crashed {
      CrashedStays(s, jobs, c, bc);
    } else if jobs != [] {
      var now := s.now + jobs[0].idle;
      LastResponse(c, Deadline(c, now), 0, now, jobs[0].env);
      var t := Process(s, jobs[0], c, bc);
      BookedOnce(t, jobs[1..], c, bc);
      if t.crashed {
        CrashedStays(t, jobs[1..], c, bc);
      }
    }
  }

  // ---- Cooldown -----------------------------------------------------------------------------------

  // No attempt begins before the breaker has been open for the whole cooldown.
  ghost predicate CooldownKept(trace: seq<Event>, bc: Config) {
    forall i, j :: 0 <= i < j < |trace| && trace[i].Opened? && trace[j].Attempted? ==>
                     trace[j].time >= trace[i].time + bc.cooldown
  }

  ghost predicate SenderInv(s: Sender, bc: Config) {
    && CooldownKept(s.trace, bc)
    && (forall i :: 0 <= i < |s.trace| ==> s.trace[i].time <= s.now)
    && (forall i :: 0 <= i < |s.trace| && s.trace[i].Opened? ==>
          if s.breaker.mode.Open? then s.trace[i].time <= s.breaker.openedAt
          else s.trace[i].time + bc.cooldown <= s.now)
    && (!s.breaker.mode.Closed? ==> s.breaker.failures == [])
  }

  // A breaker that lets a batch through has been open for long enough, if ever.
  ghost predicate Rested(s: Sender, now: int, bc: Config) {
    forall i :: 0 <= i < |s.trace| && s.trace[i].Opened? ==> s.trace[i].time + bc.cooldown <= now
  }

  lemma AllowedRests(s: Sender, now: int, bc: Config)
    requires SenderInv(s, bc) && s.now <= now && !Allowed(s.breaker, now, bc).mode.Open?
    ensures Rested(s, now, bc)
  {
  }

  lemma TraceExtends(trace: seq<Event>, starts: seq<int>, now: int, bc: Config)
    requires CooldownKept(trace, bc)
    requires forall i :: 0 <= i < |trace| && trace[i].Opened? ==> trace[i].time + bc.cooldown <= now
    requires forall i :: 0 <= i < |starts| ==> now <= starts[i]
    ensures CooldownKept(trace + AttemptEvents(starts), bc)
  {
    var more := AttemptEvents(starts);
    var all := trace + more;
    assert forall i :: 0 <= i < |trace| ==> all[i] == trace[i];
    assert forall i :: |trace| <= i < |all| ==> all[i] == Attempted(starts[i - |trace|]);
  }

  lemma ProcessKeeps(s: Sender, job: Job, c: SenderConfig, bc: Config)
    requires Usable(bc) && SenderInv(s, bc)
    ensures SenderInv(Process(s, job, c, bc), bc)
  {
    hide Try, Recent;
    var now := s.now + job.idle;
    var b := Allowed(s.breaker, now, bc);
    if !s.crashed && !b.mode.Open? {
      AllowedRests(s, now, bc);
      if job.encodes {
        AttemptsBounded(c, Deadline(c, now), 0, now, job.env);
        LastResponse(c, Deadline(c, now), 0, now, job.env);
        var a := Try(c, Deadline(c, now), 0, now, job.env);
        BatchKeeps(s, now, b, a, bc);
      }
    }
  }

  lemma BatchKeeps(s: Sender, now: int, b: State, a: Attempts, bc: Config)
    requires Usable(bc) && SenderInv(s, bc) && s.now <= now && Rested(s, now, bc)
    requires !b.mode.Open? && (b.mode.HalfOpen? ==> b.failures == [])
    requires |a.starts| >= 1 && a.starts[0] == now && a.fate != BreakerOpen
    requires forall i, j :: 0 <= i <= j < |a.starts| ==> a.starts[i] <= a.starts[j] <= a.end
    ensures var b' := AfterBatch(b, a, bc);
            var mark := if a.fate.Rejected? && b'.mode.Open? then [Opened(a.end)] else [];
            forall l, r, x :: SenderInv(Sender(a.end, b', l, r, s.trace + AttemptEvents(a.starts) + mark, x), bc)
  {
    hide Recent;
    var b' := AfterBatch(b, a, bc);
    var mark := if a.fate.Rejected? && b'.mode.Open? then [Opened(a.end)] else [];
    var mid := s.trace + AttemptEvents(a.starts);
    var all := mid + mark;
    TraceExtends(s.trace, a.starts, now, bc);
    assert forall i :: 0 <= i < |s.trace| ==> mid[i] == s.trace[i];
    assert forall i :: |s.trace| <= i < |mid| ==> mid[i] == Attempted(a.starts[i - |s.trace|]);
    assert forall i :: 0 <= i < |mid| ==> all[i] == mid[i];
    assert forall i :: |mid| <= i < |all| ==> all[i] == Opened(a.end);
  }

  /**
   Over any run of the sender, no attempt begins while the breaker that opened
   earlier is still cooling down, and failures are remembered only while it is closed.
   */
  lemma {:induction false} CooldownRespected(s: Sender, jobs: seq<Job>, c: SenderConfig, bc: Config)
    requires Usable(bc) && SenderInv(s, bc)
    ensures SenderInv(ProcessAll(s, jobs, c, bc), bc)
    ensures CooldownKept(ProcessAll(s, jobs, c, bc).trace, bc)
    decreases |jobs|
  {
    hide Process, SenderInv, CooldownKept;
    if jobs != [] {
      ProcessKeeps(s, jobs[0], c, bc);
      CooldownRespected(Process(s, jobs[0], c, bc), jobs[1..], c, bc);
    } else {
      InvCooldown(s, bc);
    }
  }

  lemma InvCooldown(s: Sender, bc: Config)
    requires SenderInv(s, bc)
    ensures CooldownKept(s.trace, bc)
  {
  }

  lemma StartInv(now: int, bc: Config)
    ensures SenderInv(Start(now), bc)
  {
  }

  /** So it is in every run of a new sender. */
  lemma CooldownFromStart(now: int, jobs: seq<Job>, c: SenderConfig, bc: Config)
    requires Usable(bc)
    ensures CooldownKept(ProcessAll(Start(now), jobs, c, bc).trace, bc)
  {
    hide ProcessAll, CooldownKept;
    StartInv(now, bc);
    CooldownRespected(Start(now), jobs, c, bc);
  }

  // ---- What opens the breaker --------------------------------------------------------------------

  const REJECTING: set<int> := {400, 401, 403, 404}

  // A response that came with a status, or an attempt that got no response.
  ghost predicate OnTheWire(r: Response) {
    || r.Canceled? || r.TimedOut? || r.OtherError?
    || exists status, retryAfter :: r == Classify(status, retryAfter)
  }

  // The response to the last attempt on a batch taken up at now.
  function LastOf(c: SenderConfig, now: int, env: Environment): (last: Response)
    ensures exists k :: last == env(k).response
  {
    AttemptsBounded(c, Deadline(c, now), 0, now, env);
    env(|Try(c, Deadline(c, now), 0, now, env).starts| - 1).response
  }

  // The batch is taken up and sent.
  predicate IsAttempted(s: Sender, job: Job, bc: Config) {
    !s.crashed && job.encodes && !Allowed(s.breaker, s.now + job.idle, bc).mode.Open?
  }

  /**
   From any state: a batch opens a breaker that let it through exactly when the
   last response to it is a rejection and that failure is enough to open it.
   */
  lemma OpensByRejection(s: Sender, job: Job, c: SenderConfig, bc: Config)
    requires !s.crashed && !Allowed(s.breaker, s.now + job.idle, bc).mode.Open?
    ensures var now := s.now + job.idle;
            var t := Process(s, job, c, bc);
            t.breaker.mode.Open? <==>
            job.encodes && LastOf(c, now, job.env).NonRetryable?
            && Failure(Allowed(s.breaker, now, bc), t.now, bc).mode.Open?
  {
    hide Try;
    LastResponse(c, Deadline(c, s.now + job.idle), 0, s.now + job.idle, job.env);
  }

  /**
   A success closes the breaker and clears its failures, a rejection is counted, and anything else
   leaves the breaker as the batch found it: half-open if it had been open for the whole cooldown.
   */
  lemma LeftBehind(s: Sender, job: Job, c: SenderConfig, bc: Config)
    requires IsAttempted(s, job, bc)
    ensures var t := Process(s, job, c, bc);
            var last := LastOf(c, s.now + job.idle, job.env);
            var found := if s.breaker.mode.Open? then State(HalfOpen, s.breaker.openedAt, s.breaker.failures)
                         else s.breaker;
            && (last.Sent? ==> t.breaker == State(Closed, found.openedAt, []))
            && (last.NonRetryable? ==> t.breaker == Failure(found, t.now, bc))
            && (!last.Sent? && !last.NonRetryable? ==> t.breaker == found)
  {
    hide Try, Failure;
    LastResponse(c, Deadline(c, s.now + job.idle), 0, s.now + job.idle, job.env);
  }

  /** On the wire a rejection is one of four statuses. */
  lemma RejectingStatuses(r: Response)
    ensures OnTheWire(r) && r.NonRetryable? ==> r.status in REJECTING
  {
  }

  /** Without a rejection, a run from any state opens nothing: only a breaker that was open stays so. */
  lemma {:induction false} OnlyRejectionsOpen(s: Sender, jobs: seq<Job>, c: SenderConfig, bc: Config)
    requires forall i, k :: 0 <= i < |jobs| ==> !jobs[i].env(k).response.NonRetryable?
    ensures ProcessAll(s, jobs, c, bc).breaker.mode.Open? ==> s.breaker.mode.Open?
    ensures s.breaker.mode.Closed? ==> ProcessAll(s, jobs, c, bc).breaker.mode.Closed?
    ensures !s.breaker.mode.Open? ==> ProcessAll(s, jobs, c, bc).ledger.breakerOpen == s.ledger.breakerOpen
    decreases |jobs|
  {
    hide Try;
    if jobs != [] {
      var now := s.now + jobs[0].idle;
      LastResponse(c, Deadline(c, now), 0, now, jobs[0].env);
      assert forall i :: 0 <= i < |jobs[1..]| ==> jobs[1..][i] == jobs[i + 1];
      OnlyRejectionsOpen(Process(s, jobs[0], c, bc), jobs[1..], c, bc);
    }
  }

  // At time t, the end of batch k of the run, the breaker opened because of one of the four statuses.
  ghost predicate OpenedBy(s: Sender, jobs: seq<Job>, c: SenderConfig, bc: Config, k: nat, t: int) {
    && k < |jobs|
    && var before := ProcessAll(s, jobs[..k], c, bc);
       var last := LastOf(c, before.now + jobs[k].idle, jobs[k].env);
       && IsAttempted(before, jobs[k], bc) && Process(before, jobs[k], c, bc).now == t
       && Process(before, jobs[k], c, bc).breaker.mode.Open?
       && last.NonRetryable? && last.status in REJECTING
  }

  ghost predicate AllOnTheWire(jobs: seq<Job>) {
    forall i, k :: 0 <= i < |jobs| ==> OnTheWire(jobs[i].env(k).response)
  }

  /**
   Over any run from any state: each time the breaker opens, it is at the end of
   a batch whose last status is 400, 401, 403 or 404.
   */
  lemma {:induction false} OnlyTheseStatusesOpen(s: Sender, jobs: seq<Job>, c: SenderConfig, bc: Config, e: int)
    requires AllOnTheWire(jobs)
    requires |s.trace| <= e < |ProcessAll(s, jobs, c, bc).trace| && ProcessAll(s, jobs, c, bc).trace[e].Opened?
    ensures exists k: nat :: OpenedBy(s, jobs, c, bc, k, ProcessAll(s, jobs, c, bc).trace[e].time)
    decreases |jobs|
  {
    hide Process, OnTheWire, OpenedBy;
    var t := Process(s, jobs[0], c, bc);
    var rest := jobs[1..];
    assert forall i :: 0 <= i < |rest| ==> rest[i] == jobs[i + 1];
    TraceGrows(t, rest, c, bc);
    if e < |t.trace| {
      FirstOpening(s, jobs[0], c, bc, e);
      OpenedFirst(s, jobs, c, bc, t.trace[e].time);
    } else {
      OnlyTheseStatusesOpen(t, rest, c, bc, e);
      var k: nat :| OpenedBy(t, rest, c, bc, k, ProcessAll(t, rest, c, bc).trace[e].time);
      OpenedLater(s, jobs, c, bc, k, ProcessAll(t, rest, c, bc).trace[e].time);
    }
  }

  lemma OpenedFirst(s: Sender, jobs: seq<Job>, c: SenderConfig, bc: Config, t: int)
    requires jobs != [] && IsAttempted(s, jobs[0], bc)
    requires Process(s, jobs[0], c, bc).breaker.mode.Open? && Process(s, jobs[0], c, bc).now == t
    requires var last := LastOf(c, s.now + jobs[0].idle, jobs[0].env);
             last.NonRetryable? && last.status in REJECTING
    ensures OpenedBy(s, jobs, c, bc, 0, t)
  {
    hide Process, LastOf;
    assert jobs[..0] == [];
  }

  lemma OpenedLater(s: Sender, jobs: seq<Job>, c: SenderConfig, bc: Config, k: nat, t: int)
    requires jobs != [] && OpenedBy(Process(s, jobs[0], c, bc), jobs[1..], c, bc, k, t)
    ensures OpenedBy(s, jobs, c, bc, k + 1, t)
  {
    hide Process, LastOf;
    assert jobs[..k + 1][0] == jobs[0] && jobs[..k + 1][1..] == jobs[1..][..k];
  }

  lemma {:induction false} TraceGrows(s: Sender, jobs: seq<Job>, c: SenderConfig, bc: Config)
    ensures s.trace <= ProcessAll(s, jobs, c, bc).trace
    decreases |jobs|
  {
    hide Try;
    if jobs != [] {
      TraceGrows(Process(s, jobs[0], c, bc), jobs[1..], c, bc);
    }
  }

  lemma FirstOpening(s: Sender, job: Job, c: SenderConfig, bc: Config, e: int)
    requires forall k :: OnTheWire(job.env(k).response)
    requires |s.trace| <= e < |Process(s, job, c, bc).trace| && Process(s, job, c, bc).trace[e].Opened?
    ensures IsAttempted(s, job, bc) && Process(s, job, c, bc).breaker.mode.Open?
    ensures Process(s, job, c, bc).trace[e].time == Process(s, job, c, bc).now
    ensures var last := LastOf(c, s.now + job.idle, job.env);
            last.NonRetryable? && last.status in REJECTING
  {
    hide Try, OnTheWire;
    var now := s.now + job.idle;
    LastResponse(c, Deadline(c, now), 0, now, job.env);
    RejectingStatuses(LastOf(c, now, job.env));
  }

  /** Each of these statuses is counted at once, without a retry, and opens a closed breaker at the threshold. */
  lemma TheseStatusesCount(s: Sender, job: Job, c: SenderConfig, bc: Config, status: int, retryAfter: int)
    requires IsAttempted(s, job, bc) && status in REJECTING
    requires job.env(0).response == Classify(status, retryAfter)
    ensures var now := s.now + job.idle;
            var after := Process(s, job, c, bc);
            && after.breaker == Failure(Allowed(s.breaker, now, bc), now + job.env(0).duration, bc)
            && after.retries == s.retries && after.ledger == Booked(s.ledger, Rejected, job.samples)
            && (s.breaker.mode.HalfOpen? || bc.threshold <= 1 ==> after.breaker.mode.Open?)
  {
  }

  // ---- Probes of a half-open breaker -----------------------------------------------------------------

  // How many batches are sent before the breaker leaves the half-open state.
  function Probes(s: Sender, jobs: seq<Job>, c: SenderConfig, bc: Config): nat
    decreases |jobs|
  {
    if jobs == [] || s.crashed || !s.breaker.mode.HalfOpen? then 0
    else (if jobs[0].encodes then 1 else 0) + Probes(Process(s, jobs[0], c, bc), jobs[1..], c, bc)
  }

  function Encodable(jobs: seq<Job>): nat
    decreases |jobs|
  {
    if jobs == [] then 0 else (if jobs[0].encodes then 1 else 0) + Encodable(jobs[1..])
  }

  // What becomes of the first batch that can be encoded, for a sender that has reached now.
  function FirstProbe(now: int, jobs: seq<Job>, c: SenderConfig): Option<Attempts>
    decreases |jobs|
  {
    if jobs == [] then None
    else
      var start := now + jobs[0].idle;
      if jobs[0].encodes then Some(Try(c, Deadline(c, start), 0, start, jobs[0].env))
      else FirstProbe(start, jobs[1..], c)
  }

  /** A batch leaves a breaker half-open exactly when the last response to it is neither a success nor a rejection. */
  lemma ProbeConcludes(s: Sender, job: Job, c: SenderConfig, bc: Config)
    requires IsAttempted(s, job, bc) && Allowed(s.breaker, s.now + job.idle, bc).mode.HalfOpen?
    ensures var last := LastOf(c, s.now + job.idle, job.env);
            Process(s, job, c, bc).breaker.mode.HalfOpen? <==> !last.Sent? && !last.NonRetryable?
  {
    hide Try;
    LastResponse(c, Deadline(c, s.now + job.idle), 0, s.now + job.idle, job.env);
  }

  predicate Concludes(a: Attempts) {
    a.fate.SentAll? || a.fate.Rejected? || a.fate.Crashed?
  }

  /**
   A half-open breaker sends at most one batch if and only if there are no two to send, or the
   first is sent or rejected (or the process crashes over it). It is not so for every run.
   */
  lemma {:induction false} OneProbe(s: Sender, jobs: seq<Job>, c: SenderConfig, bc: Config)
    requires s.breaker.mode.HalfOpen? && !s.crashed
    ensures FirstProbe(s.now, jobs, c).Some? <==> Encodable(jobs) > 0
    ensures Probes(s, jobs, c, bc) <= 1 <==>
            Encodable(jobs) <= 1 || Concludes(FirstProbe(s.now, jobs, c).value)
    ensures Probes(s, jobs, c, bc) <= Encodable(jobs) && (Encodable(jobs) > 0 ==> Probes(s, jobs, c, bc) > 0)
    decreases |jobs|
  {
    hide Try;
    if jobs != [] {
      var now := s.now + jobs[0].idle;
      var t := Process(s, jobs[0], c, bc);
      if jobs[0].encodes {
        LastResponse(c, Deadline(c, now), 0, now, jobs[0].env);
      }
      if t.breaker.mode.HalfOpen? && !t.crashed {
        OneProbe(t, jobs[1..], c, bc);
      }
    }
  }

  // A batch that is sent without retries: it times out, or it is rejected and opens the breaker.
  lemma SingleAttempt(s: Sender, job: Job, c: SenderConfig, bc: Config)
    requires IsAttempted(s, job, bc) && MaxAttempts(c) == 1
    ensures var now := s.now + job.idle;
            var b := Allowed(s.breaker, now, bc);
            var end := now + job.env(0).duration;
            var r := job.env(0).response;
            var t := Process(s, job, c, bc);
            && (r.TimedOut? ==> t.now == end && t.breaker == b && !t.crashed && t.trace == s.trace + [Attempted(now)])
            && (r.NonRetryable? && Failure(b, end, bc).mode.Open? ==>
                  && t.now == end && t.breaker == Failure(b, end, bc) && !t.crashed
                  && t.trace == s.trace + [Attempted(now), Opened(end)])
  {
    hide Try, Failure, Allowed;
    var now := s.now + job.idle;
    FirstAttempt(c, Deadline(c, now), 0, now, job.env);
    assert AttemptEvents([now]) == [Attempted(now)];
    assert [Attempted(now)] + [Opened(now + job.env(0).duration)]
        == [Attempted(now), Opened(now + job.env(0).duration)];
  }

  const ONCE: SenderConfig := SenderConfig(0, 1, 0, 0, 0)
  const EAGER: Config := Config(1, 1, 5)

  function Replying(idle: nat, r: Response): Job {
    Job(idle, 1, true, _ => Reaction(r, 0, 0, false, 0))
  }

  // A run from the start in which it is not: the breaker opens, and after the cooldown two batches
  // in a row time out, each of them sent, while it stays half-open.
  lemma TwoProbes()
    ensures var jobs := [Replying(0, NonRetryable(400)), Replying(5, TimedOut), Replying(0, TimedOut)];
            var s := ProcessAll(Start(0), jobs, ONCE, EAGER);
            && s.breaker.mode.HalfOpen?
            && s.trace == [Attempted(0), Opened(0), Attempted(5), Attempted(5)]
  {
    hide Process, Recent;
    var jobs := [Replying(0, NonRetryable(400)), Replying(5, TimedOut), Replying(0, TimedOut)];
    var s0 := Start(0);
    var s1 := Process(s0, jobs[0], ONCE, EAGER);
    assert Failure(NEW, 0, EAGER) == State(Open, 0, []) by { FirstFailureOpens(); }
    SingleAttempt(s0, jobs[0], ONCE, EAGER);
    assert s1.breaker == State(Open, 0, []) && s1.trace == [Attempted(0), Opened(0)];
    SingleAttempt(s1, jobs[1], ONCE, EAGER);
    var s2 := Process(s1, jobs[1], ONCE, EAGER);
    assert s2.breaker == State(HalfOpen, 0, []) && s2.now == 5;
    SingleAttempt(s2, jobs[2], ONCE, EAGER);
    var s3 := Process(s2, jobs[2], ONCE, EAGER);
    assert jobs[1..][1..] == [jobs[2]] && [jobs[2]][1..] == [];
    assert ProcessAll(s2, [jobs[2]], ONCE, EAGER) == s3;
  }

  lemma FirstFailureOpens()
    ensures Failure(NEW, 0, EAGER) == State(Open, 0, [])
  {
  }

  /** A batch takes up at most the retry budget and one request timeout after it is taken up. */
  lemma BatchBudget(s: Sender, job: Job, c: SenderConfig, bc: Config)
    requires c.maxElapsed > 0 && Prompt(c, job.env)
    ensures Process(s, job, c, bc).now <= s.now + job.idle + c.maxElapsed + c.timeout
    ensures Process(s, job, c, bc).retries <= s.retries + MaxAttempts(c)
  {
    hide Try;
    var now := s.now + job.idle;
    WithinBudget(c, Deadline(c, now), 0, now, job.env);
    AttemptsBounded(c, Deadline(c, now), 0, now, job.env);
  }
}
