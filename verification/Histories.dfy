/** Every queue row of every run follows the lease protocol: its changes are a history in the sense of
    module Leases, so the theorems about histories hold of all reachable rows. */
module Histories {
  import opened Results
  import opened Leases
  import opened Queues
  import opened Similarity
  import opened Tables
  import opened Pipeline
  import opened Runs

  function SettleEvent<V>(claim: InFlight): Event<V> {
    if claim.available then Claim(claim.worker, claim.at) else Retire(claim.at)
  }

  predicate Same<V(==)>(rows: map<JobId, Job<V>>, rows': map<JobId, Job<V>>, j: JobId)
    requires j in rows
  {
    j in rows' && rows'[j] == rows[j]
  }

  /** What a step does to a validation row, if it changes it. */
  function ValidationEvent(c: Config, s: Sys, step: Step, j: JobId): Option<Event<Verdict>> {
    if j !in s.db.validations.rows || !Enabled(c, s, step)
       || Same(s.db.validations.rows, Next(c, s, step).db.validations.rows, j) then None else
      match step
      case CommitValidationClaim(k) => if j == k then Some(SettleEvent(s.validationClaims[j])) else None
      case ValidationResult(k, verdict, _, sender, _, now, _) =>
        if j == k then Some(Deliver(sender, verdict, now)) else None
      case ValidationFailure(k, worker, error, retryable, now) =>
        if j == k then Some(Fail(worker, error, retryable, now)) else None
      case _ => None
  }

  function EmbeddingEvent(c: Config, s: Sys, step: Step, j: JobId): Option<Event<Embedded>> {
    if j !in s.db.embeddingJobs.rows || !Enabled(c, s, step)
       || Same(s.db.embeddingJobs.rows, Next(c, s, step).db.embeddingJobs.rows, j) then None else
      match step
      case CommitEmbeddingClaim(k) => if j == k then Some(SettleEvent(s.embeddingClaims[j])) else None
      case EmbeddingResult(k, worker, _, now) => if j == k then Some(Deliver(Some(worker), COMPLETED, now)) else None
      case EmbeddingFailure(k, worker, error, retryable, now) =>
        if j == k then Some(Fail(worker, error, retryable, now)) else None
      case _ => None
  }

  /** The events of one validation row over a run. */
  function ValidationEvents(c: Config, steps: seq<Step>, j: JobId): seq<Event<Verdict>>
    requires Run(c, steps).Some?
  {
    if steps == [] then [] else
      var n := |steps| - 1;
      var e := ValidationEvent(c, Run(c, steps[..n]).value, steps[n], j);
      With(ValidationEvents(c, steps[..n], j), e)
  }

  function EmbeddingEvents(c: Config, steps: seq<Step>, j: JobId): seq<Event<Embedded>>
    requires Run(c, steps).Some?
  {
    if steps == [] then [] else
      var n := |steps| - 1;
      var e := EmbeddingEvent(c, Run(c, steps[..n]).value, steps[n], j);
      With(EmbeddingEvents(c, steps[..n], j), e)
  }

  /** The row an upload in mock mode inserts: decided from the start. */
  predicate Mocked(job: Job<Verdict>) {
    job.status == Done(PASSED) && job.attempts == 1 && job.worker.None? && job.startedAt.None?
  }

  /** The history explains the row, and fits on the clock and before a claim in flight. */
  ghost predicate Explains<V>(events: seq<Event<V>>, job: Job<V>, policy: Policy, clock: Time,
                              claim: Option<InFlight>) {
    && After(NewJob(job.photo, job.createdAt), events, policy) == Some(job)
    && (forall i, k :: 0 <= i <= k < |events| ==> events[i].at <= events[k].at)
    && (forall i :: 0 <= i < |events| ==> events[i].at <= clock && (claim.Some? ==> events[i].at <= claim.value.at))
  }

  /** One more accepted event. */
  lemma Extend<V>(events: seq<Event<V>>, job: Job<V>, e: Event<V>, job': Job<V>, policy: Policy, clock: Time,
                  claim: Option<InFlight>, clock': Time)
    requires Explains(events, job, policy, clock, claim)
    requires React(job, e, policy) == Some(job')
    requires clock <= clock' && e.at <= clock'
    requires if claim.Some? then e.at == claim.value.at else e.at >= clock
    ensures Explains(events + [e], job', policy, clock', None)
  {
    var all := events + [e];
    assert all[..|all| - 1] == events;
  }

  // How a step changes a row.

  predicate Reacts<V(==)>(job: Job<V>, e: Option<Event<V>>, job': Job<V>, policy: Policy) {
    && (e.None? ==> job' == job)
    && (e.Some? ==> React(job, e.value, policy) == Some(job'))
  }

  /** An event happens now, or when its claim was begun; it is no longer in flight. */
  predicate Timed<V>(e: Option<Event<V>>, claim: Option<InFlight>, after: Option<InFlight>, clock: Time, clock': Time) {
    if e.None? then true else
      && after.None? && clock <= clock' && e.value.at <= clock'
      && (if claim.Some? then e.value.at == claim.value.at else e.value.at >= clock)
  }

  function At(claims: map<JobId, InFlight>, j: JobId): Option<InFlight> {
    if j in claims then Some(claims[j]) else None
  }

  predicate ValidationReacts(c: Config, s: Sys, step: Step, j: JobId)
    requires Enabled(c, s, step) && j in s.db.validations.rows
  {
    var s' := Next(c, s, step);
    && j in s'.db.validations.rows
    && Reacts(s.db.validations.rows[j], ValidationEvent(c, s, step, j), s'.db.validations.rows[j], ValidationPolicy(c))
    && Timed(ValidationEvent(c, s, step, j), At(s.validationClaims, j), At(s'.validationClaims, j), s.clock, s'.clock)
  }

  predicate EmbeddingReacts(c: Config, s: Sys, step: Step, j: JobId)
    requires Enabled(c, s, step) && j in s.db.embeddingJobs.rows
  {
    var s' := Next(c, s, step);
    && j in s'.db.embeddingJobs.rows
    && Reacts(s.db.embeddingJobs.rows[j], EmbeddingEvent(c, s, step, j), s'.db.embeddingJobs.rows[j],
              EmbeddingPolicy(c))
    && Timed(EmbeddingEvent(c, s, step, j), At(s.embeddingClaims, j), At(s'.embeddingClaims, j), s.clock, s'.clock)
  }

  lemma CommitValidationReacts(c: Config, s: Sys, step: Step, j: JobId)
    requires Enabled(c, s, step) && step.CommitValidationClaim? && ValidationClaimOk(c, s, step.job)
    ensures j in s.db.validations.rows ==> ValidationReacts(c, s, step, j)
  {}

  lemma CommitEmbeddingReacts(c: Config, s: Sys, step: Step, j: JobId)
    requires Enabled(c, s, step) && step.CommitEmbeddingClaim? && EmbeddingClaimOk(c, s, step.job)
    ensures j in s.db.embeddingJobs.rows ==> EmbeddingReacts(c, s, step, j)
  {}

  /** A claim leaves the other queue alone. */
  lemma CommitReactsNot(c: Config, s: Sys, step: Step, j: JobId)
    requires Enabled(c, s, step)
    ensures step.CommitEmbeddingClaim? && j in s.db.validations.rows ==> ValidationReacts(c, s, step, j)
    ensures step.CommitValidationClaim? && j in s.db.embeddingJobs.rows ==> EmbeddingReacts(c, s, step, j)
  {}

  lemma VerdictReacts(c: Config, s: Sys, step: Step, j: JobId)
    requires Enabled(c, s, step) && step.ValidationResult?
    ensures j in s.db.validations.rows ==> ValidationReacts(c, s, step, j)
    ensures j in s.db.embeddingJobs.rows ==> EmbeddingReacts(c, s, step, j)
  {
    var policy := ValidationPolicy(c);
    VerdictKeepsRows(s.db, policy, step.job, step.verdict, step.code, step.sender, step.embeddingJob, step.now,
                     step.txn, j);
    if j == step.job && j in s.db.validations.rows {
      VerdictRow(s.db, policy, j, step.verdict, step.code, step.sender, step.embeddingJob, step.now, step.txn);
    }
  }

  lemma FailureReacts(c: Config, s: Sys, step: Step, j: JobId)
    requires Enabled(c, s, step) && step.ValidationFailure? && j in s.db.validations.rows
    ensures ValidationReacts(c, s, step, j)
  {
    var policy := ValidationPolicy(c);
    if j == step.job {
      FailureRow(s.db, policy, j, step.worker, step.error, step.retryable, step.now);
    } else {
      FailureKeepsRows(s.db, policy, step.job, step.worker, step.error, step.retryable, step.now, j);
    }
  }

  lemma FailureReactsNot(c: Config, s: Sys, step: Step, j: JobId)
    requires Enabled(c, s, step) && step.ValidationFailure? && j in s.db.embeddingJobs.rows
    ensures EmbeddingReacts(c, s, step, j)
  {
    FailureFrame(s.db, ValidationPolicy(c), step.job, step.worker, step.error, step.retryable, step.now);
  }

  lemma EmbeddingResultReacts(c: Config, s: Sys, step: Step, j: JobId)
    requires Enabled(c, s, step) && step.EmbeddingResult?
    ensures j in s.db.validations.rows ==> ValidationReacts(c, s, step, j)
    ensures j in s.db.embeddingJobs.rows ==> EmbeddingReacts(c, s, step, j)
  {
    EmbeddingResultRow(s.db, EmbeddingPolicy(c), step.job, step.worker, step.embedding, step.now, j);
  }

  lemma EmbeddingFailureReacts(c: Config, s: Sys, step: Step, j: JobId)
    requires Enabled(c, s, step) && step.EmbeddingFailure?
    ensures j in s.db.validations.rows ==> ValidationReacts(c, s, step, j)
    ensures j in s.db.embeddingJobs.rows ==> EmbeddingReacts(c, s, step, j)
  {
    EmbeddingFailureRow(s.db, EmbeddingPolicy(c), step.job, step.worker, step.error, step.retryable, step.now, j);
  }

  lemma EmbeddingResultRow(db: Db, policy: Policy, k: JobId, worker: WorkerId, embedding: Embedding, now: Time,
                           j: JobId)
    ensures var db' := ApplyEmbeddingResult(db, policy, k, worker, embedding, now).db;
      && db'.validations == db.validations
      && (j in db.embeddingJobs.rows ==>
            && j in db'.embeddingJobs.rows
            && (Same(db.embeddingJobs.rows, db'.embeddingJobs.rows, j)
                || (j == k && React(db.embeddingJobs.rows[j], Deliver(Some(worker), COMPLETED, now), policy)
                              == Some(db'.embeddingJobs.rows[j]))))
  {}

  lemma EmbeddingFailureRow(db: Db, policy: Policy, k: JobId, worker: WorkerId, error: string, retryable: bool,
                            now: Time, j: JobId)
    ensures var db' := RecordEmbeddingFailure(db, policy, k, worker, error, retryable, now).db;
      && db'.validations == db.validations
      && (j in db.embeddingJobs.rows ==>
            && j in db'.embeddingJobs.rows
            && (Same(db.embeddingJobs.rows, db'.embeddingJobs.rows, j)
                || (j == k && React(db.embeddingJobs.rows[j], Fail(worker, error, retryable, now), policy)
                              == Some(db'.embeddingJobs.rows[j]))))
  {}

  lemma BeginReacts(c: Config, s: Sys, step: Step, j: JobId)
    requires Enabled(c, s, step) && (step.BeginValidationClaim? || step.BeginEmbeddingClaim?)
    ensures j in s.db.validations.rows ==> ValidationReacts(c, s, step, j)
    ensures j in s.db.embeddingJobs.rows ==> EmbeddingReacts(c, s, step, j)
  {}

  lemma OtherReacts(c: Config, s: Sys, step: Step, j: JobId)
    requires Enabled(c, s, step) && !IsJobStep(step)
    ensures j in s.db.validations.rows ==> ValidationReacts(c, s, step, j)
    ensures j in s.db.embeddingJobs.rows ==> EmbeddingReacts(c, s, step, j)
  {
    OtherStepKeepsRows(c, s, step, j);
  }

  lemma OtherStepKeepsRows(c: Config, s: Sys, step: Step, j: JobId)
    requires Enabled(c, s, step) && !IsJobStep(step)
    ensures var db, db' := s.db, Next(c, s, step).db;
      && (j in db.validations.rows ==> j in db'.validations.rows && db'.validations.rows[j] == db.validations.rows[j])
      && (j in db.embeddingJobs.rows ==>
            j in db'.embeddingJobs.rows && db'.embeddingJobs.rows[j] == db.embeddingJobs.rows[j])
  {
    match step
    case PutPhoto(u, now, txn) => InsertKeepsRows(s.db, u, now, txn, j);
    case SendCard(u, m, content, key, id, at) => SendFrame(s.db, u, m, content, key, id, at);
    case DropCard(u, card, now) => DropFrame(s.db, u, card, now);
    case _ =>
  }

  /** Every step leaves a queue row alone or makes it accept one event. */
  lemma StepReacts(c: Config, s: Sys, step: Step, j: JobId)
    requires Enabled(c, s, step) && Inv(c, s)
    ensures j in s.db.validations.rows ==> ValidationReacts(c, s, step, j)
    ensures j in s.db.embeddingJobs.rows ==> EmbeddingReacts(c, s, step, j)
  {
    if !IsJobStep(step) { OtherReacts(c, s, step, j); }
    else if step.BeginValidationClaim? || step.BeginEmbeddingClaim? { BeginReacts(c, s, step, j); }
    else if step.CommitValidationClaim? {
      assert ValidationClaimOk(c, s, step.job);
      CommitValidationReacts(c, s, step, j); CommitReactsNot(c, s, step, j); }
    else if step.CommitEmbeddingClaim? {
      assert EmbeddingClaimOk(c, s, step.job);
      CommitEmbeddingReacts(c, s, step, j); CommitReactsNot(c, s, step, j); }
    else if step.ValidationResult? { VerdictReacts(c, s, step, j); }
    else if step.ValidationFailure? {
      if j in s.db.validations.rows { FailureReacts(c, s, step, j); }
      if j in s.db.embeddingJobs.rows { FailureReactsNot(c, s, step, j); }
    }
    else if step.EmbeddingResult? { EmbeddingResultReacts(c, s, step, j); }
    else { EmbeddingFailureReacts(c, s, step, j); }
  }

  lemma VerdictRow(db: Db, policy: Policy, j: JobId, verdict: Verdict, code: Option<string>,
                   sender: Option<WorkerId>, e: JobId, now: Time, txn: Time)
    requires j in db.validations.rows
    ensures var db' := ApplyValidationResult(db, policy, j, verdict, code, sender, e, now, txn).db;
      && j in db'.validations.rows
      && (Same(db.validations.rows, db'.validations.rows, j)
          || React(db.validations.rows[j], Deliver(sender, verdict, now), policy) == Some(db'.validations.rows[j]))
  {}

  lemma FailureRow(db: Db, policy: Policy, j: JobId, worker: WorkerId, error: string, retryable: bool, now: Time)
    requires j in db.validations.rows
    ensures var db' := RecordValidationFailure(db, policy, j, worker, error, retryable, now).db;
      && j in db'.validations.rows
      && (Same(db.validations.rows, db'.validations.rows, j)
          || React(db.validations.rows[j], Fail(worker, error, retryable, now), policy)
             == Some(db'.validations.rows[j]))
  {}

  // Over a run.

  ghost predicate ValidationExplained(c: Config, s: Sys, events: seq<Event<Verdict>>, j: JobId) {
    if j !in s.db.validations.rows then events == [] else
      var job := s.db.validations.rows[j];
      || (Mocked(job) && events == [])
      || Explains(events, job, ValidationPolicy(c), s.clock, At(s.validationClaims, j))
  }

  ghost predicate EmbeddingExplained(c: Config, s: Sys, events: seq<Event<Embedded>>, j: JobId) {
    if j !in s.db.embeddingJobs.rows then events == [] else
      Explains(events, s.db.embeddingJobs.rows[j], EmbeddingPolicy(c), s.clock, At(s.embeddingClaims, j))
  }

  /** A row no event happens to: time passes, or a claim on it begins. */
  lemma Wait<V>(events: seq<Event<V>>, job: Job<V>, policy: Policy, clock: Time, claim: Option<InFlight>,
                clock': Time, claim': Option<InFlight>)
    requires Explains(events, job, policy, clock, claim) && clock <= clock'
    requires claim'.None? || claim' == claim || claim'.value.at >= clock
    ensures Explains(events, job, policy, clock', claim')
  {}

  /** Claims only begin now. */
  lemma ClaimsBeginNow(c: Config, s: Sys, step: Step, j: JobId)
    requires Enabled(c, s, step) && Inv(c, s)
    ensures s.clock <= Next(c, s, step).clock
    ensures var v, v' := At(s.validationClaims, j), At(Next(c, s, step).validationClaims, j);
            v'.None? || v' == v || v'.value.at >= s.clock
    ensures var e, e' := At(s.embeddingClaims, j), At(Next(c, s, step).embeddingClaims, j);
            e'.None? || e' == e || e'.value.at >= s.clock
  {
    StepAdvancesClock(c, s, step);
    if !step.BeginValidationClaim? && !step.BeginEmbeddingClaim? { ClaimsStay(c, s, step, j); }
  }

  lemma ClaimsStay(c: Config, s: Sys, step: Step, j: JobId)
    requires Enabled(c, s, step) && !step.BeginValidationClaim? && !step.BeginEmbeddingClaim?
    ensures var v' := At(Next(c, s, step).validationClaims, j); v'.None? || v' == At(s.validationClaims, j)
    ensures var e' := At(Next(c, s, step).embeddingClaims, j); e'.None? || e' == At(s.embeddingClaims, j)
  {}

  /** Rows are inserted as new jobs, or decided already in mock mode. */
  lemma InsertedRow(c: Config, s: Sys, step: Step, j: JobId)
    requires Enabled(c, s, step) && Inv(c, s)
    ensures var s' := Next(c, s, step);
      j !in s.db.validations.rows && j in s'.db.validations.rows ==>
        var job := s'.db.validations.rows[j];
        At(s'.validationClaims, j).None? && (Mocked(job) || job == NewJob(job.photo, job.createdAt))
    ensures var s' := Next(c, s, step);
      j !in s.db.embeddingJobs.rows && j in s'.db.embeddingJobs.rows ==>
        var job := s'.db.embeddingJobs.rows[j];
        At(s'.embeddingClaims, j).None? && job == NewJob(job.photo, job.createdAt)
  {
    assert ValidationClaimOk(c, s, j) && EmbeddingClaimOk(c, s, j);
    if step.PutPhoto? {
      InsertedByUpload(s.db, step.upload, step.now, step.txn, j);
    } else if step.ValidationResult? {
      InsertedByVerdict(s.db, ValidationPolicy(c), step.job, step.verdict, step.code, step.sender, step.embeddingJob,
                        step.now, step.txn, j);
    } else {
      if IsJobStep(step) { JobsInsertNone(c, s, step); } else { OthersInsertNone(c, s, step); }
    }
  }

  lemma JobsInsertNone(c: Config, s: Sys, step: Step)
    requires Enabled(c, s, step) && IsJobStep(step) && !step.ValidationResult?
    ensures Next(c, s, step).db.validations.rows.Keys == s.db.validations.rows.Keys
    ensures Next(c, s, step).db.embeddingJobs.rows.Keys == s.db.embeddingJobs.rows.Keys
  {
    if step.ValidationFailure? {
      FailureInsertsNone(s.db, ValidationPolicy(c), step.job, step.worker, step.error, step.retryable, step.now);
    } else if step.EmbeddingResult? || step.EmbeddingFailure? {
      EmbeddingReportInsertsNone(c, s, step);
    }
  }

  lemma FailureInsertsNone(db: Db, policy: Policy, j: JobId, worker: WorkerId, error: string, retryable: bool,
                           now: Time)
    ensures var db' := RecordValidationFailure(db, policy, j, worker, error, retryable, now).db;
      db'.validations.rows.Keys == db.validations.rows.Keys && db'.embeddingJobs == db.embeddingJobs
  {
    var db' := RecordValidationFailure(db, policy, j, worker, error, retryable, now).db;
    assert db'.validations == db.validations
           || db'.validations
              == Update(db.validations, j, FailedAttempt(db.validations.rows[j], error, retryable, policy, now));
  }

  lemma EmbeddingReportInsertsNone(c: Config, s: Sys, step: Step)
    requires Enabled(c, s, step) && (step.EmbeddingResult? || step.EmbeddingFailure?)
    ensures Next(c, s, step).db.validations.rows.Keys == s.db.validations.rows.Keys
    ensures Next(c, s, step).db.embeddingJobs.rows.Keys == s.db.embeddingJobs.rows.Keys
  {
    if step.EmbeddingResult? {
      EmbeddingResultFrame(s.db, EmbeddingPolicy(c), step.job, step.worker, step.embedding, step.now);
    } else {
      EmbeddingFailureFrame(s.db, EmbeddingPolicy(c), step.job, step.worker, step.error, step.retryable, step.now);
    }
  }

  lemma OthersInsertNone(c: Config, s: Sys, step: Step)
    requires Enabled(c, s, step) && !IsJobStep(step) && !step.PutPhoto?
    ensures Next(c, s, step).db.validations.rows.Keys == s.db.validations.rows.Keys
    ensures Next(c, s, step).db.embeddingJobs.rows.Keys == s.db.embeddingJobs.rows.Keys
  {
    match step
    case SendCard(u, m, content, key, id, at) => SendFrame(s.db, u, m, content, key, id, at);
    case DropCard(u, card, now) => DropFrame(s.db, u, card, now);
    case _ =>
  }

  lemma InsertedByUpload(db: Db, u: Upload, now: Time, txn: Time, j: JobId)
    ensures var db' := InsertPhoto(db, u, now, txn).db;
      && (j !in db.validations.rows && j in db'.validations.rows ==>
            db'.validations.rows[j] == UploadedValidation(u, now, txn))
      && (j !in db.embeddingJobs.rows && j in db'.embeddingJobs.rows ==>
            db'.embeddingJobs.rows[j] == NewJob(u.photo, txn))
  {}

  lemma InsertedByVerdict(db: Db, policy: Policy, k: JobId, verdict: Verdict, code: Option<string>,
                          sender: Option<WorkerId>, e: JobId, now: Time, txn: Time, j: JobId)
    ensures var db' := ApplyValidationResult(db, policy, k, verdict, code, sender, e, now, txn).db;
      && db'.validations.rows.Keys == db.validations.rows.Keys
      && (j !in db.embeddingJobs.rows && j in db'.embeddingJobs.rows ==>
            && k in db.validations.rows
            && db'.embeddingJobs.rows[j] == NewJob(db.validations.rows[k].photo, txn))
  {
    if ApplyValidationResult(db, policy, k, verdict, code, sender, e, now, txn).db != db {
      InsertedByCommit(db, policy, k, verdict, code, e, now, txn, j);
    }
  }

  lemma InsertedByCommit(db: Db, policy: Policy, k: JobId, verdict: Verdict, code: Option<string>,
                         e: JobId, now: Time, txn: Time, j: JobId)
    requires k in db.validations.rows && db.validations.rows[k].photo in db.photos
    ensures var db' := CommitVerdict(db, policy, k, verdict, code, e, now, txn).db;
      && db'.validations.rows.Keys == db.validations.rows.Keys
      && (j !in db.embeddingJobs.rows && j in db'.embeddingJobs.rows ==>
            db'.embeddingJobs.rows[j] == NewJob(db.validations.rows[k].photo, txn))
  {}

  lemma StepExplains(c: Config, s: Sys, step: Step, events: seq<Event<Verdict>>, j: JobId)
    requires Enabled(c, s, step) && Inv(c, s) && ValidationExplained(c, s, events, j)
    ensures ValidationExplained(c, Next(c, s, step), With(events, ValidationEvent(c, s, step, j)), j)
  {
    if j in s.db.validations.rows {
      RowExplained(c, s, step, events, j);
    } else {
      InsertedRow(c, s, step, j);
    }
  }

  lemma RowExplained(c: Config, s: Sys, step: Step, events: seq<Event<Verdict>>, j: JobId)
    requires Enabled(c, s, step) && Inv(c, s) && j in s.db.validations.rows && ValidationExplained(c, s, events, j)
    ensures ValidationExplained(c, Next(c, s, step), With(events, ValidationEvent(c, s, step, j)), j)
  {
    StepReacts(c, s, step, j);
    ClaimsBeginNow(c, s, step, j);
    var s' := Next(c, s, step);
    var job, job', e := s.db.validations.rows[j], s'.db.validations.rows[j], ValidationEvent(c, s, step, j);
    if Explains(events, job, ValidationPolicy(c), s.clock, At(s.validationClaims, j)) {
      OneMore(events, job, job', e, ValidationPolicy(c), s.clock, At(s.validationClaims, j), s'.clock,
              At(s'.validationClaims, j));
    } else {
      Unmoved(job, job', e, ValidationPolicy(c));
    }
  }

  lemma StepExplainsEmbedding(c: Config, s: Sys, step: Step, events: seq<Event<Embedded>>, j: JobId)
    requires Enabled(c, s, step) && Inv(c, s) && EmbeddingExplained(c, s, events, j)
    ensures EmbeddingExplained(c, Next(c, s, step), With(events, EmbeddingEvent(c, s, step, j)), j)
  {
    if j in s.db.embeddingJobs.rows {
      StepReacts(c, s, step, j);
      ClaimsBeginNow(c, s, step, j);
      var s' := Next(c, s, step);
      OneMore(events, s.db.embeddingJobs.rows[j], s'.db.embeddingJobs.rows[j], EmbeddingEvent(c, s, step, j),
              EmbeddingPolicy(c), s.clock, At(s.embeddingClaims, j), s'.clock, At(s'.embeddingClaims, j));
    } else {
      InsertedRow(c, s, step, j);
    }
  }

  function With<V>(events: seq<Event<V>>, e: Option<Event<V>>): seq<Event<V>> {
    if e.Some? then events + [e.value] else events
  }

  /** A row explained so far, and what one step does to it. */
  lemma OneMore<V>(events: seq<Event<V>>, job: Job<V>, job': Job<V>, e: Option<Event<V>>, policy: Policy,
                   clock: Time, claim: Option<InFlight>, clock': Time, claim': Option<InFlight>)
    requires Explains(events, job, policy, clock, claim) && clock <= clock'
    requires Reacts(job, e, job', policy) && Timed(e, claim, claim', clock, clock')
    requires claim'.None? || claim' == claim || claim'.value.at >= clock
    ensures Explains(With(events, e), job', policy, clock', claim')
  {
    if e.Some? {
      Extend(events, job, e.value, job', policy, clock, claim, clock');
    } else {
      Wait(events, job, policy, clock, claim, clock', claim');
    }
  }

  /** A row decided at upload accepts nothing. */
  lemma Unmoved(job: Job<Verdict>, job': Job<Verdict>, e: Option<Event<Verdict>>, policy: Policy)
    requires Mocked(job) && Reacts(job, e, job', policy)
    ensures e.None? && job' == job
  {}

  lemma {:induction false} RunExplains(c: Config, steps: seq<Step>, j: JobId)
    requires Run(c, steps).Some?
    ensures ValidationExplained(c, Run(c, steps).value, ValidationEvents(c, steps, j), j)
    ensures EmbeddingExplained(c, Run(c, steps).value, EmbeddingEvents(c, steps, j), j)
  {
    if steps != [] {
      var n := |steps| - 1;
      var s := Run(c, steps[..n]).value;
      RunExplains(c, steps[..n], j);
      RunInv(c, steps[..n]);
      StepExplains(c, s, steps[n], ValidationEvents(c, steps[..n], j), j);
      StepExplainsEmbedding(c, s, steps[n], EmbeddingEvents(c, steps[..n], j), j);
    }
  }

  /** In every run, a validation row is what its accepted claims, results and failures make of a new
      row under the lease protocol, with the clock running forward; only uploads in mock mode start
      decided. */
  lemma ValidationRowsHaveHistories(c: Config, steps: seq<Step>, j: JobId)
    requires Run(c, steps).Some? && j in Run(c, steps).value.db.validations.rows
    ensures var job := Run(c, steps).value.db.validations.rows[j];
      var events := ValidationEvents(c, steps, j);
      || (Mocked(job) && events == [])
      || (IsHistory(job.photo, job.createdAt, events, ValidationPolicy(c))
          && RowAfter(job.photo, job.createdAt, events, ValidationPolicy(c)) == job)
  {
    RunExplains(c, steps, j);
  }

  lemma EmbeddingRowsHaveHistories(c: Config, steps: seq<Step>, j: JobId)
    requires Run(c, steps).Some? && j in Run(c, steps).value.db.embeddingJobs.rows
    ensures var job := Run(c, steps).value.db.embeddingJobs.rows[j];
      var events := EmbeddingEvents(c, steps, j);
      && IsHistory(job.photo, job.createdAt, events, EmbeddingPolicy(c))
      && RowAfter(job.photo, job.createdAt, events, EmbeddingPolicy(c)) == job
  {
    RunExplains(c, steps, j);
  }

  /** Over a whole run, a job of either queue accepts at most `max(1, max_attempts)` failures, and its
      attempt count stays within `max_attempts` plus the takeovers. */
  lemma RunBoundsRetries(c: Config, steps: seq<Step>, j: JobId)
    requires Run(c, steps).Some?
    ensures j in Run(c, steps).value.db.validations.rows ==>
      Bounded(Run(c, steps).value.db.validations.rows[j], ValidationEvents(c, steps, j), ValidationPolicy(c))
    ensures j in Run(c, steps).value.db.embeddingJobs.rows ==>
      Bounded(Run(c, steps).value.db.embeddingJobs.rows[j], EmbeddingEvents(c, steps, j), EmbeddingPolicy(c))
  {
    var db := Run(c, steps).value.db;
    if j in db.validations.rows {
      ValidationRowsHaveHistories(c, steps, j);
      var job, events := db.validations.rows[j], ValidationEvents(c, steps, j);
      if !Mocked(job) || events != [] { Tally(job.photo, job.createdAt, events, ValidationPolicy(c)); }
    }
    if j in db.embeddingJobs.rows {
      EmbeddingRowsHaveHistories(c, steps, j);
      var job, events := db.embeddingJobs.rows[j], EmbeddingEvents(c, steps, j);
      Tally(job.photo, job.createdAt, events, EmbeddingPolicy(c));
    }
  }

  predicate Bounded<V>(job: Job<V>, events: seq<Event<V>>, policy: Policy) {
    && Failures(events) <= Max(1, policy.maxAttempts)
    && (policy.maxAttempts >= 1 ==>
          job.attempts <= policy.maxAttempts + Takeovers(job.photo, job.createdAt, events, policy))
  }
}
