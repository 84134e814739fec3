/** The two job queues as the workers call them. */
module Jobs {
  import opened Results
  import opened Leases
  import opened Queues
  import opened Similarity
  import opened Tables
  import opened Sessions

  /** What a claim hands to the worker. */
  datatype Handed<V> = Handed(id: JobId, job: Job<V>, photo: Photo)

  class PhotoValidationRepository {
    const session: Session

    constructor (session: Session)
      ensures this.session == session
    {
      this.session := session;
    }

    /** The UPDATE of one job row. */
    method Save(id: JobId, job: Job<Verdict>)
      modifies session`work
      ensures session.work == old(session.work).(validations := Update(old(session.work).validations, id, job))
    {
      session.Write(session.work.(validations := Update(session.work.validations, id, job)));
    }

    /** `locked` are the rows that other transactions hold. */
    method ClaimNext(locked: set<JobId>, worker: WorkerId, lease: Time, now: Time) returns (r: Option<Handed<Verdict>>)
      requires session.Clean()
      modifies session
      ensures var (db, claim) := ClaimValidation(old(session.committed), locked, worker, lease, now);
        && session.committed == db
        && (r.Some? <==> claim.HandedOut?)
        && (r.Some? ==> r.value.id == claim.job && r.value.id in db.validations.rows
                        && r.value.job == db.validations.rows[r.value.id]
                        && r.value.job.photo in db.photos && r.value.photo == db.photos[r.value.job.photo])
      ensures r.Some? ==>
        && r.value.photo.status.Validating? && r.value.id !in locked
        && r.value.job.status.Processing? && r.value.job.worker == Some(worker) && r.value.job.startedAt == Some(now)
        && r.value.id in old(session.committed.validations.rows)
        && r.value.job.attempts == old(session.committed.validations.rows)[r.value.id].attempts + 1
    {
      var rows := session.work.validations.rows;
      var found := Claimable(rows, locked, lease, now);
      if found == {} {
        session.Rollback();
        return None;
      }
      var id := Oldest(rows, found);
      var job := rows[id];
      var ok;
      if job.photo !in session.work.photos || !session.work.photos[job.photo].status.Validating? {
        job := job.(status := Failed);
        job := job.(errorCode := Some("PHOTO_NOT_AVAILABLE"));
        job := job.(completedAt := Some(now));
        Save(id, job);
        ok := session.Commit();
        return None;
      }
      job := job.(status := Processing);
      job := job.(worker := Some(worker));
      job := job.(attempts := job.attempts + 1);
      job := job.(startedAt := Some(now));
      job := job.(nextAttemptAt := None);
      Save(id, job);
      ok := session.Commit();
      r := Some(Handed(id, job, session.work.photos[job.photo]));
    }

    method ApplyResult(id: JobId, verdict: Verdict, code: Option<string>, sender: Option<WorkerId>, embeddingJob: JobId,
                       policy: Policy, now: Time, txn: Time)
      returns (r: Result<Job<Verdict>>)
      requires session.Clean() && policy.kind.ValidationQueue?
      modifies session
      ensures Outcome(session.committed, r)
              == ApplyValidationResult(old(session.committed), policy, id, verdict, code, sender, embeddingJob, now,
                                       txn)
    {
      if id !in session.work.validations.rows { return Err(ValidationJobNotFound); }
      var job := session.work.validations.rows[id];
      if !(job.status.Pending? || job.status.Processing?) {
        if job.status == Done(verdict) { return Ok(job); }
        return Err(ValidationAlreadyCompleted);
      }
      if job.status.Processing? && job.worker != sender { return Err(ValidationLeaseLost); }
      if job.photo !in session.work.photos || !session.work.photos[job.photo].status.Validating? {
        return Err(PhotoNotValidating);
      }
      var photo := session.work.photos[job.photo];
      job := job.(status := Done(verdict));
      job := job.(completedAt := Some(now));
      job := job.(worker := None);
      job := job.(errorCode := None);
      job := job.(nextAttemptAt := None);
      Save(id, job);
      var inbox, note := session.work.inbox, multiset{Note(photo.user, job.photo)};
      if verdict.PASSED? {
        photo := photo.(status := Searching);
        photo := photo.(searchExpiresAt := Some(photo.registeredAt + 7 * DAY));
        photo := photo.(rejectionCode := None);
        session.AddEmbeddingJob(embeddingJob, NewJob(job.photo, txn));
        session.Notify(inbox.(validationPassed := inbox.validationPassed + note));
      } else {
        photo := photo.(status := Rejected);
        photo := photo.(rejectionCode := code);
        session.Notify(inbox.(photoRejected := inbox.photoRejected + note));
      }
      session.Write(session.work.(photos := session.work.photos[job.photo := photo]));
      var ok := session.Commit();
      if !ok { return Err(IntegrityError); }
      r := Ok(job);
    }

    method RecordFailure(id: JobId, worker: WorkerId, code: string, retryable: bool, policy: Policy, now: Time)
      returns (r: Result<Job<Verdict>>)
      requires session.Clean() && policy.kind.ValidationQueue?
      modifies session
      ensures Outcome(session.committed, r)
              == RecordValidationFailure(old(session.committed), policy, id, worker, code, retryable, now)
      ensures id in old(session.committed.validations.rows) ==>
        var job := old(session.committed.validations.rows)[id];
        job.status.Processing? && job.worker == Some(worker) ==>
          && r.Ok?
          && (if retryable && job.attempts < policy.maxAttempts then
                && r.value.status.Pending?
                && r.value.nextAttemptAt
                   == Some(now + policy.retryBase * Pow2(if job.attempts == 0 then 0 else job.attempts - 1))
              else r.value.status.Failed? && r.value.completedAt == Some(now))
    {
      if id !in session.work.validations.rows { return Err(ValidationJobNotFound); }
      var job := session.work.validations.rows[id];
      if job.status.Done? { return Err(ValidationAlreadyCompleted); }
      if job.status.Failed? { return Ok(job); }
      if !job.status.Processing? { return Err(ValidationNotProcessing); }
      if job.worker != Some(worker) { return Err(ValidationLeaseLost); }
      job := job.(errorCode := Some(code));
      job := job.(worker := None);
      job := job.(startedAt := None);
      if retryable && job.attempts < policy.maxAttempts {
        job := job.(status := Pending);
        job := job.(nextAttemptAt := Some(now + Delay(policy.retryBase, job.attempts)));
        Save(id, job);
      } else {
        job := job.(status := Failed);
        job := job.(nextAttemptAt := None);
        job := job.(completedAt := Some(now));
        Save(id, job);
        if job.photo in session.work.photos && session.work.photos[job.photo].status.Validating? {
          var photo := session.work.photos[job.photo];
          photo := photo.(status := Rejected);
          photo := photo.(rejectionCode := Some("VALIDATION_FAILED"));
          session.Write(session.work.(photos := session.work.photos[job.photo := photo]));
          var inbox := session.work.inbox;
          session.Notify(inbox.(photoRejected := inbox.photoRejected + multiset{Note(photo.user, job.photo)}));
        }
      }
      var ok := session.Commit();
      r := Ok(job);
    }
  }

  class PhotoEmbeddingJobRepository {
    const session: Session

    constructor (session: Session)
      ensures this.session == session
    {
      this.session := session;
    }

    method Save(id: JobId, job: Job<Embedded>)
      modifies session`work
      ensures session.work == old(session.work).(embeddingJobs := Update(old(session.work).embeddingJobs, id, job))
    {
      session.Write(session.work.(embeddingJobs := Update(session.work.embeddingJobs, id, job)));
    }

    method ClaimNext(locked: set<JobId>, worker: WorkerId, lease: Time, now: Time) returns (r: Option<Handed<Embedded>>)
      requires session.Clean()
      modifies session
      ensures var (db, claim) := ClaimEmbedding(old(session.committed), locked, worker, lease, now);
        && session.committed == db
        && (r.Some? <==> claim.HandedOut?)
        && (r.Some? ==> r.value.id == claim.job && r.value.id in db.embeddingJobs.rows
                        && r.value.job == db.embeddingJobs.rows[r.value.id]
                        && r.value.job.photo in db.photos && r.value.photo == db.photos[r.value.job.photo])
      ensures r.Some? ==>
        && r.value.photo.status.Searching? && r.value.id !in locked
        && r.value.job.status.Processing? && r.value.job.worker == Some(worker) && r.value.job.startedAt == Some(now)
        && r.value.id in old(session.committed.embeddingJobs.rows)
        && r.value.job.attempts == old(session.committed.embeddingJobs.rows)[r.value.id].attempts + 1
    {
      var rows := session.work.embeddingJobs.rows;
      var found := Claimable(rows, locked, lease, now);
      if found == {} {
        session.Rollback();
        return None;
      }
      var id := Oldest(rows, found);
      var job := rows[id];
      var ok;
      if job.photo !in session.work.photos || !session.work.photos[job.photo].status.Searching? {
        job := job.(status := Failed);
        job := job.(errorCode := Some("PHOTO_NOT_AVAILABLE"));
        job := job.(completedAt := Some(now));
        Save(id, job);
        ok := session.Commit();
        return None;
      }
      job := job.(status := Processing);
      job := job.(worker := Some(worker));
      job := job.(attempts := job.attempts + 1);
      job := job.(startedAt := Some(now));
      job := job.(nextAttemptAt := None);
      Save(id, job);
      ok := session.Commit();
      r := Some(Handed(id, job, session.work.photos[job.photo]));
    }

    /** `_locked_job` */
    method LockedJob(id: JobId, worker: WorkerId, completedOk: bool) returns (r: Result<Job<Embedded>>)
      ensures match EmbeddingJobError(session.work, id, worker, completedOk)
              case Some(e) => r == Err(e)
              case None => id in session.work.embeddingJobs.rows && r == Ok(session.work.embeddingJobs.rows[id])
    {
      if id !in session.work.embeddingJobs.rows { return Err(EmbeddingJobNotFound); }
      var job := session.work.embeddingJobs.rows[id];
      if job.status.Done? {
        if completedOk { return Ok(job); }
        return Err(EmbeddingAlreadyCompleted);
      }
      if !job.status.Processing? || job.worker != Some(worker) { return Err(EmbeddingLeaseLost); }
      r := Ok(job);
    }

    method ApplyResult(id: JobId, worker: WorkerId, embedding: Embedding, policy: Policy, now: Time)
      returns (r: Result<Job<Embedded>>)
      requires session.Clean() && policy.kind.EmbeddingQueue?
      modifies session
      ensures Outcome(session.committed, r)
              == ApplyEmbeddingResult(old(session.committed), policy, id, worker, embedding, now)
    {
      var locked := LockedJob(id, worker, true);
      if locked.Err? { return locked; }
      var job := locked.value;
      if job.status.Done? { return Ok(job); }
      session.Write(session.work.(embeddings := session.work.embeddings[job.photo := embedding]));
      job := job.(status := Done(COMPLETED));
      job := job.(worker := None);
      job := job.(completedAt := Some(now));
      Save(id, job);
      var ok := session.Commit();
      r := Ok(job);
    }

    method RecordFailure(id: JobId, worker: WorkerId, code: string, retryable: bool, policy: Policy, now: Time)
      returns (r: Result<Job<Embedded>>)
      requires session.Clean() && policy.kind.EmbeddingQueue?
      modifies session
      ensures Outcome(session.committed, r)
              == RecordEmbeddingFailure(old(session.committed), policy, id, worker, code, retryable, now)
      ensures id in old(session.committed.embeddingJobs.rows) ==>
        var job := old(session.committed.embeddingJobs.rows)[id];
        job.status.Processing? && job.worker == Some(worker) ==>
          && r.Ok?
          && (if retryable && job.attempts < policy.maxAttempts then
                && r.value.status.Pending?
                && r.value.nextAttemptAt
                   == Some(now + policy.retryBase * Pow2(if job.attempts == 0 then 0 else job.attempts - 1))
              else r.value.status.Failed? && r.value.completedAt == Some(now))
    {
      var locked := LockedJob(id, worker, false);
      if locked.Err? { return locked; }
      var job := locked.value;
      job := job.(errorCode := Some(code));
      job := job.(worker := None);
      job := job.(startedAt := None);
      if retryable && job.attempts < policy.maxAttempts {
        job := job.(status := Pending);
        job := job.(nextAttemptAt := Some(now + Delay(policy.retryBase, job.attempts)));
      } else {
        job := job.(status := Failed);
        job := job.(completedAt := Some(now));
      }
      Save(id, job);
      var ok := session.Commit();
      r := Ok(job);
    }
  }
}
