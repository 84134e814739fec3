/** One row of a lease queue. The validation queue and the embedding queue share this protocol: a
    worker claims a row for a limited time, then delivers a result or reports a failure. A failed
    attempt is retried after an exponentially growing delay. */
module Leases {
  import opened Results

  type Time = int
  type WorkerId = string
  type JobId = nat
  type PhotoId = nat

  /** `Done` carries the queue's own final status: PASSED or REJECTED, or COMPLETED. */
  datatype JobStatus<V> = Pending | Processing | Done(verdict: V) | Failed

  datatype Job<V> = Job(
    photo: PhotoId,
    status: JobStatus<V>,
    attempts: nat,
    worker: Option<WorkerId>,
    nextAttemptAt: Option<Time>,
    startedAt: Option<Time>,
    createdAt: Time,
    completedAt: Option<Time>,
    errorCode: Option<string>)
  {
    predicate Open() { status.Pending? || status.Processing? }
  }

  /** The two queues differ in three places: a PENDING validation takes a result from any worker,
      and a validation clears its error and retry time where an embedding job leaves them. */
  datatype QueueKind = ValidationQueue | EmbeddingQueue

  datatype Policy = Policy(kind: QueueKind, lease: Time, maxAttempts: int, retryBase: Time)

  function NewJob<V>(photo: PhotoId, createdAt: Time): Job<V> {
    Job(photo, Pending, 0, None, None, None, createdAt, None, None)
  }

  /** The WHERE clause of `claim_next`. */
  predicate Eligible<V>(job: Job<V>, lease: Time, now: Time) {
    || (job.status.Pending? && (job.nextAttemptAt.None? || job.nextAttemptAt.value <= now))
    || (job.status.Processing? && job.startedAt.Some? && job.startedAt.value < now - lease)
  }

  function Claimed<V>(job: Job<V>, worker: WorkerId, now: Time): Job<V> {
    job.(status := Processing, worker := Some(worker), attempts := job.attempts + 1,
         startedAt := Some(now), nextAttemptAt := None)
  }

  /** A claim whose photo is no longer available gives the row up for good. */
  function Retired<V>(job: Job<V>, now: Time): Job<V> {
    job.(status := Failed, errorCode := Some("PHOTO_NOT_AVAILABLE"), completedAt := Some(now))
  }

  function Pow2(n: nat): (p: nat)
    ensures p >= 1
  {
    if n == 0 then 1 else 2 * Pow2(n - 1)
  }

  /** retry_base * 2 ** (attempt_count - 1); a row that is PROCESSING has at least one attempt. */
  function Delay(retryBase: Time, attempts: nat): Time {
    retryBase * Pow2(if attempts == 0 then 0 else attempts - 1)
  }

  function FailedAttempt<V>(job: Job<V>, code: string, retryable: bool, policy: Policy, now: Time): Job<V> {
    var j := job.(errorCode := Some(code), worker := None, startedAt := None);
    if retryable && job.attempts < policy.maxAttempts then
      j.(status := Pending, nextAttemptAt := Some(now + Delay(policy.retryBase, job.attempts)))
    else
      j.(status := Failed, completedAt := Some(now),
         nextAttemptAt := if policy.kind.ValidationQueue? then None else j.nextAttemptAt)
  }

  function Delivered<V>(job: Job<V>, verdict: V, policy: Policy, now: Time): Job<V> {
    var j := job.(status := Done(verdict), worker := None, completedAt := Some(now));
    if policy.kind.ValidationQueue? then j.(errorCode := None, nextAttemptAt := None) else j
  }

  predicate AcceptsResult<V>(job: Job<V>, sender: Option<WorkerId>, policy: Policy) {
    || (job.status.Pending? && policy.kind.ValidationQueue?)
    || (job.status.Processing? && job.worker == sender)
  }

  predicate AcceptsFailure<V>(job: Job<V>, sender: WorkerId) {
    job.status.Processing? && job.worker == Some(sender)
  }

  /** What every stored row satisfies. */
  predicate WellFormed<V>(job: Job<V>) {
    && (job.status.Processing? ==>
          job.attempts >= 1 && job.worker.Some? && job.startedAt.Some? && job.nextAttemptAt.None?)
    && (job.status.Pending? ==> job.worker.None? && job.startedAt.None?)
  }

  // Histories of one row: the events it accepted, oldest first.

  datatype Event<V> =
    | Claim(worker: WorkerId, at: Time)
    | Retire(at: Time)
    | Deliver(sender: Option<WorkerId>, verdict: V, at: Time)
    | Fail(worker: WorkerId, code: string, retryable: bool, at: Time)

  /** The row after an event, if it accepts it. */
  function React<V>(job: Job<V>, e: Event<V>, policy: Policy): Option<Job<V>> {
    match e
    case Claim(w, now) =>
      if Eligible(job, policy.lease, now) then Some(Claimed(job, w, now)) else None
    case Retire(now) =>
      if Eligible(job, policy.lease, now) then Some(Retired(job, now)) else None
    case Deliver(sender, verdict, now) =>
      if AcceptsResult(job, sender, policy) then Some(Delivered(job, verdict, policy, now)) else None
    case Fail(w, code, retryable, now) =>
      if AcceptsFailure(job, w) then Some(FailedAttempt(job, code, retryable, policy, now)) else None
  }

  /** The row after a history, provided it accepted every event. */
  function After<V>(job: Job<V>, events: seq<Event<V>>, policy: Policy): Option<Job<V>> {
    if events == [] then Some(job) else
      match After(job, events[..|events| - 1], policy)
      case None => None
      case Some(j) => React(j, events[|events| - 1], policy)
  }

  /** A row's whole history: it starts as inserted, accepts every event, and the clock never runs
      backwards. */
  predicate IsHistory<V>(photo: PhotoId, createdAt: Time, events: seq<Event<V>>, policy: Policy) {
    && After(NewJob(photo, createdAt), events, policy).Some?
    && forall i, j :: 0 <= i <= j < |events| ==> events[i].at <= events[j].at
  }

  function RowAfter<V>(photo: PhotoId, createdAt: Time, events: seq<Event<V>>, policy: Policy): Job<V>
    requires IsHistory(photo, createdAt, events, policy)
  {
    After(NewJob(photo, createdAt), events, policy).value
  }

  function Failures<V>(events: seq<Event<V>>): nat {
    if events == [] then 0 else
      Failures(events[..|events| - 1]) + if events[|events| - 1].Fail? then 1 else 0
  }

  function Claims<V>(events: seq<Event<V>>): nat {
    if events == [] then 0 else
      Claims(events[..|events| - 1]) + if events[|events| - 1].Claim? then 1 else 0
  }

  /** Claims that took the row over from a worker whose lease had run out. */
  function Takeovers<V>(photo: PhotoId, createdAt: Time, events: seq<Event<V>>, policy: Policy): nat {
    if events == [] then 0 else
      var before := events[..|events| - 1];
      var job := After(NewJob(photo, createdAt), before, policy);
      Takeovers(photo, createdAt, before, policy)
      + if events[|events| - 1].Claim? && job.Some? && job.value.status.Processing? then 1 else 0
  }

  // Every prefix of a history is a history.

  lemma {:induction false} Prefix<V>(photo: PhotoId, createdAt: Time, events: seq<Event<V>>, policy: Policy, n: nat)
    requires IsHistory(photo, createdAt, events, policy) && n <= |events|
    ensures IsHistory(photo, createdAt, events[..n], policy)
    ensures n < |events| ==>
      && After(NewJob(photo, createdAt), events[..n + 1], policy).Some?
      && React(RowAfter(photo, createdAt, events[..n], policy), events[n], policy)
      == After(NewJob(photo, createdAt), events[..n + 1], policy)
    decreases |events| - n
  {
    if n == |events| {
      assert events[..n] == events;
    } else {
      Prefix(photo, createdAt, events, policy, n + 1);
      assert events[..n + 1][..n] == events[..n];
      assert events[..n + 1][n] == events[n];
    }
  }

  /** The bookkeeping behind the bounds: an open row has used one attempt per failure and per
      takeover, and one more while it is being processed; it has failed fewer than `maxAttempts`
      times. */
  lemma {:induction false} Tally<V>(photo: PhotoId, createdAt: Time, events: seq<Event<V>>, policy: Policy)
    requires IsHistory(photo, createdAt, events, policy)
    ensures var job := RowAfter(photo, createdAt, events, policy);
      var f, t := Failures(events), Takeovers(photo, createdAt, events, policy);
      && WellFormed(job)
      && job.attempts == Claims(events)
      && (job.Open() ==> job.attempts == f + t + (if job.status.Processing? then 1 else 0))
      && (policy.maxAttempts >= 1 ==> job.attempts <= policy.maxAttempts + t)
      && (job.Open() && f > 0 ==> f < policy.maxAttempts)
      && (f > 1 ==> f <= policy.maxAttempts)
  {
    if events != [] {
      var n := |events| - 1;
      Prefix(photo, createdAt, events, policy, n);
      Tally(photo, createdAt, events[..n], policy);
    }
  }

  function Max(a: int, b: int): int {
    if a < b then b else a
  }

  /** However often workers report, a row accepts at most `max(1, max_attempts)` failures. Only a
      takeover can push its attempt count past `max_attempts`. */
  lemma BoundedRetry<V>(photo: PhotoId, createdAt: Time, events: seq<Event<V>>, policy: Policy)
    requires IsHistory(photo, createdAt, events, policy)
    ensures Failures(events) <= Max(1, policy.maxAttempts)
    ensures policy.maxAttempts >= 1 ==>
      Claims(events) <= policy.maxAttempts + Takeovers(photo, createdAt, events, policy)
  {
    Tally(photo, createdAt, events, policy);
  }

  /** `max_attempts` does not bound the attempts themselves: `claim_next` never looks at it. */
  lemma AttemptsPassTheMaximum() returns (events: seq<Event<int>>, policy: Policy)
    ensures IsHistory(0, 0, events, policy)
    ensures policy.maxAttempts == 1 && RowAfter(0, 0, events, policy).attempts == 2
  {
    policy := Policy(ValidationQueue, 300, 1, 30);
    var first, second: Event<int> := Claim("a", 0), Claim("b", 301);
    events := [first, second];
    assert events[..1] == [first] && [first][..0] == [];
    assert After(NewJob(0, 0), [first], policy) == Some(Claimed(NewJob(0, 0), "a", 0));
  }

  /** Claim `i` takes the row over although it has already used its last attempt. */
  predicate LateTakeover<V>(photo: PhotoId, createdAt: Time, events: seq<Event<V>>, policy: Policy, i: nat)
    requires i < |events|
  {
    var job := After(NewJob(photo, createdAt), events[..i], policy);
    events[i].Claim? && job.Some? && job.value.status.Processing? && job.value.attempts >= policy.maxAttempts
  }

  lemma {:induction false} AttemptsGrow<V>(photo: PhotoId, createdAt: Time, events: seq<Event<V>>, policy: Policy)
    requires IsHistory(photo, createdAt, events, policy) && policy.maxAttempts >= 1
    ensures RowAfter(photo, createdAt, events, policy).attempts <= policy.maxAttempts
            <==> forall i :: 0 <= i < |events| ==> !LateTakeover(photo, createdAt, events, policy, i)
    ensures var job := RowAfter(photo, createdAt, events, policy);
      job.status.Pending? && (forall i :: 0 <= i < |events| ==> !LateTakeover(photo, createdAt, events, policy, i)) ==>
        job.attempts < policy.maxAttempts
  {
    if events != [] {
      var n := |events| - 1;
      var before := events[..n];
      Prefix(photo, createdAt, events, policy, n);
      AttemptsGrow(photo, createdAt, before, policy);
      forall i | 0 <= i < n
        ensures LateTakeover(photo, createdAt, events, policy, i) <==> LateTakeover(photo, createdAt, before, policy, i)
      {
        assert before[..i] == events[..i];
      }
      assert (forall i :: 0 <= i < |events| ==> !LateTakeover(photo, createdAt, events, policy, i))
        <==> (forall i :: 0 <= i < n ==> !LateTakeover(photo, createdAt, before, policy, i))
             && !LateTakeover(photo, createdAt, events, policy, n);
    }
  }

  /** Exactly when `max_attempts` does bound the attempts: if and only if no claim takes over a row that
      has used its last attempt. A claim could check that before it takes the row. */
  lemma AttemptsBoundedIff<V>(photo: PhotoId, createdAt: Time, events: seq<Event<V>>, policy: Policy)
    requires IsHistory(photo, createdAt, events, policy) && policy.maxAttempts >= 1
    ensures RowAfter(photo, createdAt, events, policy).attempts <= policy.maxAttempts
            <==> forall i :: 0 <= i < |events| ==> !LateTakeover(photo, createdAt, events, policy, i)
  {
    AttemptsGrow(photo, createdAt, events, policy);
  }

  /** A terminal status is written once: a row that still accepts an event is open, and nothing
      follows a result or a retirement. */
  lemma TerminalIsFinal<V>(photo: PhotoId, createdAt: Time, events: seq<Event<V>>, policy: Policy, i: nat)
    requires IsHistory(photo, createdAt, events, policy) && i < |events|
    ensures IsHistory(photo, createdAt, events[..i], policy)
    ensures RowAfter(photo, createdAt, events[..i], policy).Open()
    ensures events[i].Deliver? || events[i].Retire? ==> i == |events| - 1
  {
    Prefix(photo, createdAt, events, policy, i);
    if i + 1 < |events| {
      Prefix(photo, createdAt, events, policy, i + 1);
    }
  }

  // Who may change a row that is being processed.

  /** The last claim of a row that is being processed: its position, and that nothing but the claim's
      own worker has touched the row since. */
  lemma {:induction false} LastClaim<V>(photo: PhotoId, createdAt: Time, events: seq<Event<V>>, policy: Policy)
    returns (k: nat)
    requires IsHistory(photo, createdAt, events, policy)
    requires RowAfter(photo, createdAt, events, policy).status.Processing?
    ensures k == |events| - 1 && events[k].Claim?
    ensures RowAfter(photo, createdAt, events, policy).worker == Some(events[k].worker)
    ensures RowAfter(photo, createdAt, events, policy).startedAt == Some(events[k].at)
  {
    assert events != [];
    k := |events| - 1;
    Prefix(photo, createdAt, events, policy, k);
  }

  /** A failure report, and a result for a row being processed, is accepted only directly after a
      claim and only from the worker of that claim: nobody reports on another worker's lease. */
  lemma OnlyTheHolderReports<V>(photo: PhotoId, createdAt: Time, events: seq<Event<V>>, policy: Policy, i: nat)
    requires IsHistory(photo, createdAt, events, policy) && i < |events|
    requires IsHistory(photo, createdAt, events[..i], policy)
    requires events[i].Fail?
             || (events[i].Deliver? && RowAfter(photo, createdAt, events[..i], policy).status.Processing?)
    ensures i > 0 && events[i - 1].Claim?
    ensures events[i].Fail? ==> events[i].worker == events[i - 1].worker
    ensures events[i].Deliver? ==> events[i].sender == Some(events[i - 1].worker)
  {
    Prefix(photo, createdAt, events, policy, i);
    var k := LastClaim(photo, createdAt, events[..i], policy);
  }

  /** Two claims of one row are separated by an accepted failure or by more than the lease. */
  lemma ClaimsAreSeparated<V>(photo: PhotoId, createdAt: Time, events: seq<Event<V>>, policy: Policy, i: nat, j: nat)
    requires IsHistory(photo, createdAt, events, policy) && i < j < |events|
    requires events[i].Claim? && events[j].Claim?
    ensures (exists k :: i < k < j && events[k].Fail?) || events[j].at > events[i].at + policy.lease
  {
    Prefix(photo, createdAt, events, policy, i);
    Prefix(photo, createdAt, events, policy, i + 1);
    TerminalIsFinal(photo, createdAt, events, policy, i + 1);
    assert events[..i + 1][i] == events[i];
    if !events[i + 1].Fail? {
      assert events[i + 1].Claim?;
      assert events[i + 1].at > events[i].at + policy.lease;
    }
  }

  // Backoff.

  lemma Pow2Monotone(m: nat, n: nat)
    requires m <= n
    ensures Pow2(m) <= Pow2(n)
  {
    if m < n { Pow2Monotone(m, n - 1); }
  }

  /** After `r` scheduled retries the row is next claimed, or waits to be claimed, no earlier than
      `retry_base * (2^r - 1)` after the first claim. */
  lemma {:induction false} Backoff<V>(photo: PhotoId, createdAt: Time, events: seq<Event<V>>, policy: Policy)
    requires IsHistory(photo, createdAt, events, policy) && policy.retryBase >= 0
    requires events != []
    ensures var job := RowAfter(photo, createdAt, events, policy);
      var wait := policy.retryBase * (Pow2(Failures(events)) - 1);
      && (job.status.Processing? ==> events[0].Claim? && job.startedAt.value >= events[0].at + wait)
      && (job.status.Pending? ==> events[0].Claim? && job.nextAttemptAt.Some?
                                  && job.nextAttemptAt.value >= events[0].at + wait)
  {
    var n := |events| - 1;
    Prefix(photo, createdAt, events, policy, n);
    if n > 0 {
      var before := events[..n];
      Backoff(photo, createdAt, before, policy);
      Tally(photo, createdAt, before, policy);
      ClaimedBefore(photo, createdAt, events, policy);
      BackoffEvent(RowAfter(photo, createdAt, before, policy), events[n], policy, events[0].at, Failures(before));
    } else {
      assert events[..0] == [];
      assert Failures(events) == 0;
    }
  }

  /** A row that is being processed was claimed no later than its next event. */
  lemma ClaimedBefore<V>(photo: PhotoId, createdAt: Time, events: seq<Event<V>>, policy: Policy)
    requires IsHistory(photo, createdAt, events, policy) && events != []
    requires IsHistory(photo, createdAt, events[..|events| - 1], policy)
    ensures var job := RowAfter(photo, createdAt, events[..|events| - 1], policy);
      job.status.Processing? ==> job.startedAt.Some? && events[|events| - 1].at >= job.startedAt.value
  {
    if RowAfter(photo, createdAt, events[..|events| - 1], policy).status.Processing? {
      var k := LastClaim(photo, createdAt, events[..|events| - 1], policy);
    }
  }

  /** One more event keeps the distance: a failure waits at least as long as all delays before it. */
  lemma BackoffEvent<V>(job: Job<V>, e: Event<V>, policy: Policy, first: Time, f: nat)
    requires React(job, e, policy).Some? && policy.retryBase >= 0 && WellFormed(job)
    requires job.status.Processing? ==>
      job.attempts > f && job.startedAt.value >= first + policy.retryBase * (Pow2(f) - 1)
    requires job.status.Pending? ==>
      job.nextAttemptAt.Some? && job.nextAttemptAt.value >= first + policy.retryBase * (Pow2(f) - 1)
    requires job.status.Processing? ==> e.at >= job.startedAt.value
    ensures var after := React(job, e, policy).value;
      var wait := policy.retryBase * (Pow2(if e.Fail? then f + 1 else f) - 1);
      && (after.status.Processing? ==> after.startedAt.value >= first + wait)
      && (after.status.Pending? ==> after.nextAttemptAt.Some? && after.nextAttemptAt.value >= first + wait)
  {
    if e.Fail? { LongerDelay(policy.retryBase, f, job.attempts); }
  }

  /** A delay for at least `f + 1` attempts makes up for one more doubling. */
  lemma LongerDelay(b: int, f: nat, attempts: nat)
    requires b >= 0 && f < attempts
    ensures b * (Pow2(f) - 1) + Delay(b, attempts) >= b * (Pow2(f + 1) - 1)
  {
    Pow2Monotone(f, attempts - 1);
    BackoffStep(b, Pow2(f), Pow2(attempts - 1));
  }

  lemma BackoffStep(b: int, p: int, q: int)
    requires b >= 0 && p <= q
    ensures b * (p - 1) + b * q >= b * (2 * p - 1)
  {
    assert b * q >= b * p;
    assert b * (p - 1) + b * p == b * (2 * p - 1);
  }

  /** The next claim after `r` retries. */
  lemma RetriesAreSpacedOut<V>(photo: PhotoId, createdAt: Time, events: seq<Event<V>>, policy: Policy, i: nat)
    requires IsHistory(photo, createdAt, events, policy) && policy.retryBase >= 0
    requires 0 < i < |events| && events[i].Claim?
    ensures events[0].Claim?
    ensures events[i].at >= events[0].at + policy.retryBase * (Pow2(Failures(events[..i])) - 1)
  {
    Prefix(photo, createdAt, events, policy, i);
    Prefix(photo, createdAt, events, policy, i + 1);
    Backoff(photo, createdAt, events[..i + 1], policy);
    assert events[..i + 1][..i] == events[..i];
  }

  // The protocol read off the history alone.

  lemma Pow2Adds(m: nat, n: nat)
    ensures Pow2(m + n) == Pow2(m) * Pow2(n) && Pow2(0) == 1 && Pow2(1) == 2
  {
    if n > 0 {
      Pow2Adds(m, n - 1);
      assert m + n - 1 == m + (n - 1);
      Doubled(Pow2(m), Pow2(n - 1));
    }
  }

  lemma Doubled(x: int, y: int)
    ensures x * (2 * y) == 2 * (x * y)
  {}

  /** The last event was a failure that leaves another attempt. */
  predicate RetryPending<V>(events: seq<Event<V>>, policy: Policy) {
    && events != [] && events[|events| - 1].Fail? && events[|events| - 1].retryable
    && Claims(events) < policy.maxAttempts
  }

  /** When the retry comes up: after `retry_base` seconds for the first claim, and twice as long for each
      further one. */
  function RetryTime<V>(events: seq<Event<V>>, policy: Policy): Time
    requires events != []
  {
    events[|events| - 1].at + policy.retryBase * Pow2(if Claims(events) == 0 then 0 else Claims(events) - 1)
  }

  /** When the next worker may take the row: at once if nobody has, at the time of the retry, or once the
      lease of the last claim has run out. */
  predicate MayClaim<V>(events: seq<Event<V>>, policy: Policy, now: Time) {
    if events == [] then true else
      match events[|events| - 1]
      case Claim(_, at) => now > at + policy.lease
      case Fail(_, _, _, _) => RetryPending(events, policy) && now >= RetryTime(events, policy)
      case _ => false
  }

  /** The worker that holds the row. */
  predicate HeldBy<V>(events: seq<Event<V>>, worker: WorkerId) {
    events != [] && events[|events| - 1].Claim? && events[|events| - 1].worker == worker
  }

  predicate MayFollow<V>(events: seq<Event<V>>, e: Event<V>, policy: Policy) {
    match e
    case Claim(_, now) => MayClaim(events, policy, now)
    case Retire(now) => MayClaim(events, policy, now)
    case Fail(worker, _, _, _) => HeldBy(events, worker)
    case Deliver(sender, _, _) =>
      || (sender.Some? && HeldBy(events, sender.value))
      || (policy.kind.ValidationQueue? && (events == [] || RetryPending(events, policy)))
  }

  /** What the history says of the row: who holds it, since when and for which time, when it is retried, and
      how it ended. */
  predicate TellsStatus<V(==)>(events: seq<Event<V>>, job: Job<V>, policy: Policy) {
    && job.attempts == Claims(events)
    && if events == [] then job.status.Pending? && job.nextAttemptAt.None? else
         match events[|events| - 1]
         case Claim(worker, at) =>
           job.status.Processing? && job.worker == Some(worker) && job.startedAt == Some(at) && job.nextAttemptAt.None?
         case Retire(at) => job.status.Failed? && job.completedAt == Some(at)
         case Deliver(_, verdict, at) => job.status == Done(verdict) && job.completedAt == Some(at) && job.worker.None?
         case Fail(_, code, _, at) =>
           && job.errorCode == Some(code) && job.worker.None?
           && if RetryPending(events, policy)
              then job.status.Pending? && job.nextAttemptAt == Some(RetryTime(events, policy))
              else job.status.Failed? && job.completedAt == Some(at)
  }

  lemma {:induction false} HistoryTellsStatus<V>(photo: PhotoId, createdAt: Time, events: seq<Event<V>>, policy: Policy)
    requires IsHistory(photo, createdAt, events, policy)
    ensures TellsStatus(events, RowAfter(photo, createdAt, events, policy), policy)
  {
    if events != [] {
      var n := |events| - 1;
      Prefix(photo, createdAt, events, policy, n);
      Tally(photo, createdAt, events[..n], policy);
      HistoryTellsStatus(photo, createdAt, events[..n], policy);
    }
  }

  /** Exactly what the row accepts next, by its history alone: every claim from the time it comes up on, a
      report from the worker that holds it, and a validation result from anybody while it waits. */
  lemma AcceptsExactly<V>(photo: PhotoId, createdAt: Time, events: seq<Event<V>>, policy: Policy, e: Event<V>)
    requires IsHistory(photo, createdAt, events, policy)
    ensures IsHistory(photo, createdAt, events + [e], policy)
            <==> (events != [] ==> events[|events| - 1].at <= e.at) && MayFollow(events, e, policy)
  {
    HistoryTellsStatus(photo, createdAt, events, policy);
    var all := events + [e];
    assert all[..|all| - 1] == events;
    if events != [] && events[|events| - 1].at <= e.at {
      forall i, j | 0 <= i <= j < |all| ensures all[i].at <= all[j].at {
        if j == |events| && i < j { assert events[i].at <= events[|events| - 1].at; }
      }
    }
    if IsHistory(photo, createdAt, all, policy) && events != [] { assert all[|events| - 1].at <= all[|events|].at; }
  }

  /** No scheduled retry is lost: a failure that leaves an attempt is followed by a claim at any time from
      its retry on, and by none before. */
  lemma RetryIsTaken<V>(photo: PhotoId, createdAt: Time, events: seq<Event<V>>, policy: Policy,
                        worker: WorkerId, now: Time)
    requires IsHistory(photo, createdAt, events, policy) && RetryPending(events, policy)
    requires events[|events| - 1].at <= now
    ensures IsHistory(photo, createdAt, events + [Claim(worker, now)], policy)
            <==> now >= events[|events| - 1].at
                        + policy.retryBase * Pow2(if Claims(events) == 0 then 0 else Claims(events) - 1)
  {
    AcceptsExactly(photo, createdAt, events, policy, Claim(worker, now));
  }
}
