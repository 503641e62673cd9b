/** Calling an executor: the retry loop with exponential backoff, around a circuit breaker. */
module Retry {
  import opened Values

  datatype CallError =
    | CircuitOpen
    | Canceled
    | DeadlineExceeded
    | Permanent(message: string)
    | Transient(message: string)

  datatype Answer = Answered(data: Object) | Refused(error: CallError)

  /** The answer handed on, the attempt that gave it, and the seconds spent waiting before it. */
  datatype Retried = Retried(answer: Answer, attempts: nat, slept: nat)

  const MAX_RETRIES: nat := 5

  function Pow2(n: nat): (r: nat)
    ensures r >= 1
  {
    if n == 0 then 1 else 2 * Pow2(n - 1)
  }

  function Backoff(attempt: nat): nat
    requires attempt >= 1
  {
    Pow2(attempt - 1)
  }

  /** No further attempt follows attempt k. */
  predicate Stops(attempt: nat -> Answer, interrupt: nat -> Option<CallError>, k: nat) {
    || attempt(k).Answered?
    || !attempt(k).error.Transient?
    || k >= MAX_RETRIES
    || interrupt(k).Some?
  }

  /** What the loop returns when it stops after attempt k: an interrupted wait replaces the error. */
  function AnswerAt(attempt: nat -> Answer, interrupt: nat -> Option<CallError>, k: nat): Answer {
    var a := attempt(k);
    if a.Refused? && a.error.Transient? && k < MAX_RETRIES && interrupt(k).Some?
    then Refused(interrupt(k).value) else a
  }

  /** The first attempt after which the loop stops. */
  function LastAttempt(attempt: nat -> Answer, interrupt: nat -> Option<CallError>, from: nat): (k: nat)
    requires 1 <= from <= MAX_RETRIES
    ensures from <= k <= MAX_RETRIES && Stops(attempt, interrupt, k)
    ensures forall j :: from <= j < k ==> !Stops(attempt, interrupt, j)
    decreases MAX_RETRIES - from
  {
    if Stops(attempt, interrupt, from) then from else LastAttempt(attempt, interrupt, from + 1)
  }

  /** The loop in one expression: the wait before attempt k totals 2^(k-1) - 1 seconds. */
  function RetrySpec(attempt: nat -> Answer, interrupt: nat -> Option<CallError>): Retried {
    var k := LastAttempt(attempt, interrupt, 1);
    Retried(AnswerAt(attempt, interrupt, k), k, Pow2(k - 1) - 1)
  }

  /** The retry loop. `attempt(k)` is what the k-th call brings back; `interrupt(k)` says whether
      the context ends while the loop waits after attempt k. */
  method ExecuteRunnerWithRetry(attempt: nat -> Answer, interrupt: nat -> Option<CallError>)
    returns (r: Retried)
    ensures r == RetrySpec(attempt, interrupt)
    ensures 1 <= r.attempts <= 5 && r.slept <= 15
  {
    var slept: nat := 0;
    var k: nat := 1;
    assert Pow2(4) == 16 by { assert Pow2(2) == 4; }
    while true
      invariant 1 <= k <= MAX_RETRIES
      invariant slept == Pow2(k - 1) - 1 <= 15
      invariant forall j :: 1 <= j < k ==> !Stops(attempt, interrupt, j)
      decreases MAX_RETRIES - k
    {
      var answer := attempt(k);
      if answer.Answered? || !answer.error.Transient? {
        return Retried(answer, k, slept);
      }
      if k == MAX_RETRIES {
        return Retried(answer, k, slept);
      }
      if interrupt(k).Some? {
        return Retried(Refused(interrupt(k).value), k, slept);
      }
      slept := slept + Backoff(k);
      k := k + 1;
      assert Pow2(k - 1) == 2 * Pow2(k - 2);
      if k <= 4 { Pow2Grows(k - 1, 4); } else { assert k == 5; }
    }
  }

  lemma {:induction false} Pow2Grows(a: nat, b: nat)
    requires a <= b
    ensures Pow2(a) <= Pow2(b)
    decreases b
  {
    if a == b {
    } else {
      Pow2Grows(a, b - 1);
    }
  }

  // ---------- the circuit breaker ----------

  const FAILURE_THRESHOLD: nat := 5
  const OPEN_SECONDS: nat := 30

  datatype Breaker = Closed(failures: nat) | Open(until: nat) | HalfOpen

  /** Whether a call may pass at time `now`, and the breaker it then meets. */
  function Admit(b: Breaker, now: nat): (r: (bool, Breaker)) {
    match b
    case Open(until) => if now > until then (true, HalfOpen) else (false, b)
    case _ => (true, b)
  }

  /** The breaker after an admitted call that failed at time `now`. */
  function AfterFailure(b: Breaker, now: nat): Breaker {
    match b
    case Closed(n) => if n + 1 >= FAILURE_THRESHOLD then Open(now + OPEN_SECONDS) else Closed(n + 1)
    case _ => Open(now + OPEN_SECONDS)
  }

  /** Breaker and clock just before attempt k of a loop whose calls all fail, starting from b at
      time `start`; call j takes `takes(j)` seconds. */
  function BeforeAttempt(b: Breaker, start: nat, takes: nat -> nat, k: nat): (Breaker, nat)
    requires k >= 1
  {
    if k == 1 then (b, start)
    else
      var (b1, t) := BeforeAttempt(b, start, takes, k - 1);
      var (ok, b2) := Admit(b1, t);
      if ok then (AfterFailure(b2, t + takes(k - 1)), t + takes(k - 1) + Backoff(k - 1))
      else (b2, t + Backoff(k - 1))
  }

  function Admitted(b: Breaker, start: nat, takes: nat -> nat, k: nat): bool
    requires k >= 1
  {
    var (b1, t) := BeforeAttempt(b, start, takes, k);
    Admit(b1, t).0
  }

  /** An executor that fails every time, seen through the breaker. */
  function FailingThrough(b: Breaker, start: nat, takes: nat -> nat): nat -> Answer {
    (k: nat) =>
      if k >= 1 && !Admitted(b, start, takes, k) then Refused(CircuitOpen)
      else Refused(Transient("executor error"))
  }

  function Calls(b: Breaker, start: nat, takes: nat -> nat, upTo: nat): nat {
    if upTo == 0 then 0
    else Calls(b, start, takes, upTo - 1) + (if Admitted(b, start, takes, upTo) then 1 else 0)
  }

  /** From a closed breaker with c failures on record, the attempts up to 5 - c are admitted, and
      one failure later the breaker is open for longer than any backoff. */
  lemma {:induction false} ClosedCountsUp(c: nat, start: nat, takes: nat -> nat, k: nat)
    requires c < FAILURE_THRESHOLD && 1 <= k <= FAILURE_THRESHOLD + 1 - c && k <= MAX_RETRIES
    ensures var (b, t) := BeforeAttempt(Closed(c), start, takes, k);
            if k <= FAILURE_THRESHOLD - c then b == Closed(c + k - 1)
            else b.Open? && t < b.until
    decreases k
  {
    if k == 1 {
    } else {
      ClosedCountsUp(c, start, takes, k - 1);
      Pow2Grows(k - 2, 4);
      assert Pow2(4) == 16 by { assert Pow2(2) == 4; }
    }
  }

  lemma {:induction false} CallsCount(c: nat, start: nat, takes: nat -> nat, k: nat)
    requires c < FAILURE_THRESHOLD && k <= FAILURE_THRESHOLD + 1 - c && k <= MAX_RETRIES
    ensures Calls(Closed(c), start, takes, k) == if k <= FAILURE_THRESHOLD - c then k else k - 1
    decreases k
  {
    if k == 0 {
    } else {
      CallsCount(c, start, takes, k - 1);
      ClosedCountsUp(c, start, takes, k);
    }
  }

  /** What attempt k gets from a closed breaker with c failures: the executor's error up to attempt 5 - c,
      the open circuit at the next one. */
  function FailureAt(c: nat, k: nat): Answer {
    if c + k <= FAILURE_THRESHOLD then Refused(Transient("executor error")) else Refused(CircuitOpen)
  }

  lemma FailsThrough(c: nat, start: nat, takes: nat -> nat, k: nat)
    requires c < FAILURE_THRESHOLD && 1 <= k <= 6 - c && k <= MAX_RETRIES
    ensures FailingThrough(Closed(c), start, takes)(k) == FailureAt(c, k)
  {
    ClosedCountsUp(c, start, takes, k);
  }

  lemma StopsAtOpen(c: nat, attempt: nat -> Answer, interrupt: nat -> Option<CallError>)
    requires c < FAILURE_THRESHOLD && forall k :: 1 <= k <= 5 && k <= 6 - c ==> attempt(k) == FailureAt(c, k)
    requires forall k :: interrupt(k).None?
    ensures var r := RetrySpec(attempt, interrupt);
      r.attempts == (if c == 0 then 5 else 6 - c) && (r.answer == Refused(CircuitOpen) <==> c > 0)
  {
    var k := LastAttempt(attempt, interrupt, 1);
    assert c > 0 ==> Stops(attempt, interrupt, 6 - c);
    assert forall j :: 1 <= j <= 5 - c && j < 5 ==> !Stops(attempt, interrupt, j);
  }

  /** The fifth consecutive failure, at time t, opens the breaker: it refuses every call up to t + 30 seconds
      and admits the next one as a trial, whose failure opens it again. */
  lemma BreakerTrips(n: nat, t: nat, now: nat)
    ensures n < 4 ==> AfterFailure(Closed(n), t) == Closed(n + 1) && Admit(Closed(n), t) == (true, Closed(n))
    ensures var b := AfterFailure(Closed(4), t);
      && (now <= t + 30 ==> Admit(b, now) == (false, b))
      && (now > t + 30 ==> Admit(b, now) == (true, HalfOpen))
    ensures AfterFailure(HalfOpen, t) == AfterFailure(Closed(4), t) && Admit(HalfOpen, now) == (true, HalfOpen)
  {
  }

  /** On an unshared closed breaker with c earlier failures, an executor that keeps failing is
      called exactly 5 - c times, and the loop reports an open circuit exactly when c > 0. */
  lemma BreakerMeetsRetry(c: nat, start: nat, takes: nat -> nat)
    requires c < FAILURE_THRESHOLD
    ensures var r := RetrySpec(FailingThrough(Closed(c), start, takes), (k: nat) => None);
            && r.attempts == (if c == 0 then 5 else 6 - c)
            && Calls(Closed(c), start, takes, r.attempts) == 5 - c
            && (r.answer == Refused(CircuitOpen) <==> c > 0)
  {
    var attempt := FailingThrough(Closed(c), start, takes);
    forall k: nat | 1 <= k <= 5 ensures k <= 6 - c ==> attempt(k) == FailureAt(c, k) {
      if k <= 6 - c { FailsThrough(c, start, takes, k); }
    }
    StopsAtOpen(c, attempt, (k: nat) => None);
    CallsCount(c, start, takes, if c == 0 then 5 else 6 - c);
  }

  /** The loop ends after attempt n: all attempts before were transient refusals followed by an undisturbed
      wait, and after n there is an answer, a refusal that is not retried, no attempt left, or a wait cut
      short. */
  ghost predicate EndsAt(attempt: nat -> Answer, interrupt: nat -> Option<CallError>, n: nat) {
    && 1 <= n <= 5
    && (forall j :: 1 <= j < n ==> attempt(j).Refused? && attempt(j).error.Transient? && interrupt(j).None?)
    && (attempt(n).Answered? || !attempt(n).error.Transient? || n == 5 || interrupt(n).Some?)
  }

  /** The loop ends after exactly one attempt, and hands on what that attempt brought, except that the
      error of a wait cut short replaces the transient refusal before it. */
  lemma RetryEndsAt(attempt: nat -> Answer, interrupt: nat -> Option<CallError>)
    ensures var r := RetrySpec(attempt, interrupt);
      && (forall n: nat :: EndsAt(attempt, interrupt, n) <==> n == r.attempts)
      && r.answer == if attempt(r.attempts).Refused? && attempt(r.attempts).error.Transient?
                        && r.attempts < 5 && interrupt(r.attempts).Some?
                     then Refused(interrupt(r.attempts).value) else attempt(r.attempts)
  {
    var r := RetrySpec(attempt, interrupt);
    forall j | 1 <= j < r.attempts
      ensures attempt(j).Refused? && attempt(j).error.Transient? && interrupt(j).None?
    {
      assert !Stops(attempt, interrupt, j);
    }
    assert EndsAt(attempt, interrupt, r.attempts);
    forall n: nat | EndsAt(attempt, interrupt, n) ensures n == r.attempts {
      assert Stops(attempt, interrupt, n) && Stops(attempt, interrupt, r.attempts);
    }
  }

  /** What RetrySpec means: attempts are numbered as made, all but the last were transient
      refusals, and the last is an answer, a refusal that is not retried, or the fifth. */
  lemma RetryMeaning(attempt: nat -> Answer, interrupt: nat -> Option<CallError>)
    ensures var r := RetrySpec(attempt, interrupt);
            && 1 <= r.attempts <= 5 && r.slept == Pow2(r.attempts - 1) - 1 <= 15
            && (forall j :: 1 <= j < r.attempts ==> attempt(j).Refused? && attempt(j).error.Transient?)
            && (attempt(r.attempts).Answered? <==> r.answer.Answered?)
            && (r.answer.Answered? ==> r.answer == attempt(r.attempts))
            && ((r.answer.Refused? && r.answer.error.Transient? && forall j :: interrupt(j).None?)
                ==> r.attempts == 5)
  {
    var r := RetrySpec(attempt, interrupt);
    Pow2Grows(r.attempts - 1, 4);
    assert Pow2(4) == 16 by { assert Pow2(2) == 4; }
    forall j | 1 <= j < r.attempts ensures attempt(j).Refused? && attempt(j).error.Transient? {
      assert !Stops(attempt, interrupt, j);
    }
  }
}
