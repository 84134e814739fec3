/** What each request answers and does, in terms of the stored rows: when it is accepted, with which error it is
    refused, which rows it changes and which it leaves alone. */
module Requests {
  import opened Results
  import opened Leases
  import opened Queues
  import opened Similarity
  import opened Tables
  import opened Pipeline
  import opened Runs
  import opened Histories

  // Uploads.

  /** The photo still takes its user's day and checksum after the sweep: it is searching, matched or expired, or
      has been waiting for its validation for less than a quarter of an hour. */
  predicate StillCounts(photo: Photo, sweep: Time) {
    || photo.status.Searching? || photo.status.Matched? || photo.status.Expired?
    || (photo.status.Validating? && sweep < photo.registeredAt + 900000000)
  }

  /** The photo has waited for its validation for a quarter of an hour. */
  predicate TimedOut(photo: Photo, user: UserId, sweep: Time) {
    photo.user == user && photo.status.Validating? && photo.registeredAt + 900000000 <= sweep
  }

  predicate MayUpload(db: Db, user: UserId) {
    user in db.accounts && db.accounts[user].status.ACTIVE? && db.accounts[user].onboarded
  }

  /** The sweep turns exactly the timed-out photos of the user to REJECTED, and changes nothing else. */
  lemma SweepEffect(db: Db, user: UserId, now: Time)
    ensures var db' := ExpireStaleValidations(db, user, now);
      && db' == db.(photos := db'.photos) && db'.photos.Keys == db.photos.Keys
      && forall p :: p in db.photos ==>
           db'.photos[p] == if TimedOut(db.photos[p], user, now)
                            then db.photos[p].(status := Rejected, rejectionCode := Some("VALIDATION_TIMEOUT"))
                            else db.photos[p]
  {}

  lemma SweepConsistentUnique(db: Db, user: UserId, now: Time)
    requires Consistent(db) && Unique(db)
    ensures Consistent(ExpireStaleValidations(db, user, now)) && Unique(ExpireStaleValidations(db, user, now))
  {
    var db' := ExpireStaleValidations(db, user, now);
    SweepConsistent(db, user, now);
    PhotosMove(db, db');
    UniqueKept(db, db');
  }

  /** After the sweep, a photo is active iff it counted before it. */
  lemma SweptCounts(db: Db, user: UserId, date: int, checksum: string, sweep: Time)
    ensures var db' := ExpireStaleValidations(db, user, sweep);
      && ((exists p :: p in db'.photos && db'.photos[p].user == user && db'.photos[p].registeredDate == date
                       && Active(db'.photos[p].status))
          <==> exists p :: p in db.photos && db.photos[p].user == user && db.photos[p].registeredDate == date
                           && StillCounts(db.photos[p], sweep))
      && ((exists p :: p in db'.photos && db'.photos[p].user == user && db'.photos[p].checksum == Some(checksum)
                       && Active(db'.photos[p].status))
          <==> exists p :: p in db.photos && db.photos[p].user == user && db.photos[p].checksum == Some(checksum)
                           && StillCounts(db.photos[p], sweep))
  {
    var db' := ExpireStaleValidations(db, user, sweep);
    forall p | p in db.photos && db.photos[p].user == user
      ensures p in db'.photos && db'.photos[p].user == user && db'.photos[p].checksum == db.photos[p].checksum
              && db'.photos[p].registeredDate == db.photos[p].registeredDate
              && (Active(db'.photos[p].status) <==> StillCounts(db.photos[p], sweep))
    {}
  }

  /** What `create_photo` answers, by the rows before the call. */
  lemma CreatePhotoAnswers(db: Db, u: Upload, sweep: Time, now: Time, txn: Time)
    requires Consistent(db) && Unique(db)
    requires u.photo !in db.photos && u.validation !in db.validations.rows && u.embeddingJob !in db.embeddingJobs.rows
    ensures var r := CreatePhoto(db, u, sweep, now, txn).result;
      var today := exists p :: p in db.photos && db.photos[p].user == u.user && db.photos[p].registeredDate == u.date
                               && StillCounts(db.photos[p], sweep);
      var again := exists p :: p in db.photos && db.photos[p].user == u.user
                               && db.photos[p].checksum == Some(u.checksum) && StillCounts(db.photos[p], sweep);
      && (r == Err(AccountNotActive) <==> u.user !in db.accounts || !db.accounts[u.user].status.ACTIVE?)
      && (r == Err(OnboardingRequired) <==>
            u.user in db.accounts && db.accounts[u.user].status.ACTIVE? && !db.accounts[u.user].onboarded)
      && (r == Err(TodayPhotoAlreadyExists) <==> MayUpload(db, u.user) && today)
      && (r == Err(DuplicatePhoto) <==> MayUpload(db, u.user) && !today && again)
      && (r.Ok? <==> MayUpload(db, u.user) && !today && !again)
      && (!MayUpload(db, u.user) ==> CreatePhoto(db, u, sweep, now, txn).db == db)
  {
    if MayUpload(db, u.user) {
      SweepEffect(db, u.user, sweep);
      SweepConsistentUnique(db, u.user, sweep);
      UploadOutcome(ExpireStaleValidations(db, u.user, sweep), u, now, txn);
      SweptCounts(db, u.user, u.date, u.checksum, sweep);
    }
  }

  /** What `create_photo` does to the photos that are there: the user's timed-out photos become REJECTED, and
      no other photo changes its status; an accepted upload releases its checksum on the user's rejected and
      deleted photos, and nothing else changes; other users' photos are not touched. */
  lemma CreatePhotoEffect(db: Db, u: Upload, sweep: Time, now: Time, txn: Time, p: PhotoId)
    requires MayUpload(db, u.user) && p in db.photos && u.photo !in db.photos
    ensures var (db', r) := (CreatePhoto(db, u, sweep, now, txn).db, CreatePhoto(db, u, sweep, now, txn).result);
      && p in db'.photos
      && (db'.photos[p].status != db.photos[p].status <==> TimedOut(db.photos[p], u.user, sweep))
      && (TimedOut(db.photos[p], u.user, sweep) ==>
            db'.photos[p].status.Rejected? && db'.photos[p].rejectionCode == Some("VALIDATION_TIMEOUT"))
      && (!TimedOut(db.photos[p], u.user, sweep) ==> db'.photos[p].rejectionCode == db.photos[p].rejectionCode)
      && (db.photos[p].user != u.user ==> db'.photos[p] == db.photos[p])
      && (db'.photos[p].checksum
          == if r.Ok? && db.photos[p].user == u.user && db.photos[p].checksum == Some(u.checksum)
                && (db'.photos[p].status.Rejected? || db'.photos[p].status.Deleted?) then None
             else db.photos[p].checksum)
      && db'.photos[p] == db.photos[p].(status := db'.photos[p].status, rejectionCode := db'.photos[p].rejectionCode,
                                        checksum := db'.photos[p].checksum)
  {
    SweepEffect(db, u.user, sweep);
    InsertEffect(ExpireStaleValidations(db, u.user, sweep), u, now, txn, p);
  }

  lemma InsertEffect(db: Db, u: Upload, now: Time, txn: Time, p: PhotoId)
    requires p in db.photos && u.photo !in db.photos
    ensures var (db', r) := (InsertPhoto(db, u, now, txn).db, InsertPhoto(db, u, now, txn).result);
      && p in db'.photos
      && db'.photos[p] == if r.Ok? && db.photos[p].user == u.user && db.photos[p].checksum == Some(u.checksum)
                             && (db.photos[p].status.Rejected? || db.photos[p].status.Deleted?)
                          then db.photos[p].(checksum := None) else db.photos[p]
  {}

  /** What an accepted upload adds: its photo, a validation, and in mock mode a passed one with an embedding job
      that waits. */
  lemma UploadAdds(db: Db, u: Upload, sweep: Time, now: Time, txn: Time)
    requires Consistent(db) && CreatePhoto(db, u, sweep, now, txn).result.Ok?
    ensures var db' := CreatePhoto(db, u, sweep, now, txn).db;
      && u.photo in db'.photos && db'.photos.Keys == db.photos.Keys + {u.photo}
      && var photo := db'.photos[u.photo];
      && CreatePhoto(db, u, sweep, now, txn).result == Ok(photo)
      && photo.user == u.user && photo.checksum == Some(u.checksum) && photo.registeredDate == u.date
      && photo.registeredAt == now && photo.deletedAt.None? && photo.rejectionCode.None?
      && u.validation in db'.validations.rows && db'.validations.rows[u.validation].photo == u.photo
      && (if u.mockPassed then
            && photo.status.Searching? && photo.searchExpiresAt == Some(now + 604800000000)
            && db'.validations.rows[u.validation].status == Done(PASSED)
            && u.embeddingJob in db'.embeddingJobs.rows
            && db'.embeddingJobs.rows[u.embeddingJob] == NewJob(u.photo, txn)
          else
            && photo.status.Validating? && photo.searchExpiresAt.None?
            && db'.validations.rows[u.validation] == NewJob(u.photo, txn)
            && db'.embeddingJobs == db.embeddingJobs)
  {
    SweepEffect(db, u.user, sweep);
    InsertAdds(ExpireStaleValidations(db, u.user, sweep), u, now, txn);
  }

  lemma InsertAdds(db: Db, u: Upload, now: Time, txn: Time)
    requires InsertPhoto(db, u, now, txn).result.Ok?
    ensures var db' := InsertPhoto(db, u, now, txn).db;
      && u.photo in db'.photos && db'.photos.Keys == db.photos.Keys + {u.photo}
      && InsertPhoto(db, u, now, txn).result == Ok(db'.photos[u.photo])
      && db'.photos[u.photo] == Photo(u.user, if u.mockPassed then Searching else Validating, Some(u.checksum), u.date,
                                      now, if u.mockPassed then Some(now + 604800000000) else None, None, None)
      && u.validation in db'.validations.rows && db'.validations.rows[u.validation].photo == u.photo
      && (if u.mockPassed then
            && db'.validations.rows[u.validation].status == Done(PASSED)
            && u.embeddingJob in db'.embeddingJobs.rows
            && db'.embeddingJobs.rows[u.embeddingJob] == NewJob(u.photo, txn)
          else
            && db'.validations.rows[u.validation] == NewJob(u.photo, txn)
            && db'.embeddingJobs == db.embeddingJobs)
  {}

  // Deletions and the end of a search.

  /** A deletion is accepted iff it comes from the owner of a photo that is neither deleted nor matched; it
      changes that photo's status and deletion time and nothing else. */
  lemma DeletePhotoAnswers(db: Db, user: UserId, p: PhotoId, now: Time)
    ensures var r := DeletePhoto(db, user, p, now);
      && (r.result == Err(PhotoNotFound) <==> p !in db.photos || db.photos[p].status.Deleted?)
      && (r.result == Err(PhotoNotOwned) <==>
            p in db.photos && !db.photos[p].status.Deleted? && db.photos[p].user != user)
      && (r.result == Err(PhotoAlreadyMatched) <==>
            p in db.photos && db.photos[p].user == user && db.photos[p].status.Matched?)
      && (r.result.Ok? <==> p in db.photos && db.photos[p].user == user
                            && (db.photos[p].status.Validating? || db.photos[p].status.Rejected?
                                || db.photos[p].status.Searching? || db.photos[p].status.Expired?))
      && r.db == if !r.result.Ok? then db else
                   db.(photos := db.photos[p := db.photos[p].(status := Deleted, deletedAt := Some(now))])
  {}

  /** In every reachable state the sweep ends exactly the searches of the photos that were registered seven days
      ago or earlier. */
  lemma ExpireDueEffect(db: Db, now: Time, p: PhotoId)
    requires Consistent(db) && p in db.photos
    ensures var (db', ids) := (ExpireDue(db, now).db, ExpireDue(db, now).result.value);
      && p in db'.photos
      && (p in ids <==> db.photos[p].status.Searching? && db.photos[p].registeredAt + 604800000000 <= now)
      && db'.photos[p] == if p in ids then db.photos[p].(status := Expired) else db.photos[p]
  {
    assert Agree(db, p);
  }

  // Claims.

  /** `claim_next` for validations: nothing iff no unlocked row is due; else the row it takes is handed out iff its
      photo is VALIDATING, and given up if not. Nothing but that row changes. */
  lemma ValidationClaimAnswers(db: Db, locked: set<JobId>, worker: WorkerId, lease: Time, now: Time)
    requires forall j :: j in db.validations.rows ==> WellFormed(db.validations.rows[j])
    ensures var (db', claim) := ClaimValidation(db, locked, worker, lease, now);
      var rows, rows' := db.validations.rows, db'.validations.rows;
      && db' == db.(validations := db.validations.(rows := rows'))
      && (claim.Nothing? <==> forall j :: j in rows && j !in locked ==> NotDue(rows[j], lease, now))
      && if claim.Nothing? then rows' == rows else
           var j := claim.job;
           && j in rows && j !in locked && !NotDue(rows[j], lease, now) && rows' == rows[j := rows'[j]]
           && (claim.HandedOut? <==> rows[j].photo in db.photos && db.photos[rows[j].photo].status.Validating?)
           && (claim.HandedOut? ==> rows'[j].status.Processing? && rows'[j].worker == Some(worker))
           && (claim.Orphan? ==> rows'[j].status.Failed? && rows'[j].errorCode == Some("PHOTO_NOT_AVAILABLE"))
  {
    ClaimByFields(db.validations.rows, locked, Validatable(db), worker, lease, now);
  }

  /** The same for embedding jobs, whose photos have to be SEARCHING. */
  lemma EmbeddingClaimAnswers(db: Db, locked: set<JobId>, worker: WorkerId, lease: Time, now: Time)
    requires forall j :: j in db.embeddingJobs.rows ==> WellFormed(db.embeddingJobs.rows[j])
    ensures var (db', claim) := ClaimEmbedding(db, locked, worker, lease, now);
      var rows, rows' := db.embeddingJobs.rows, db'.embeddingJobs.rows;
      && db' == db.(embeddingJobs := db.embeddingJobs.(rows := rows'))
      && (claim.Nothing? <==> forall j :: j in rows && j !in locked ==> NotDue(rows[j], lease, now))
      && if claim.Nothing? then rows' == rows else
           var j := claim.job;
           && j in rows && j !in locked && !NotDue(rows[j], lease, now) && rows' == rows[j := rows'[j]]
           && (claim.HandedOut? <==> rows[j].photo in db.photos && db.photos[rows[j].photo].status.Searching?)
           && (claim.HandedOut? ==> rows'[j].status.Processing? && rows'[j].worker == Some(worker))
           && (claim.Orphan? ==> rows'[j].status.Failed? && rows'[j].errorCode == Some("PHOTO_NOT_AVAILABLE"))
  {
    ClaimByFields(db.embeddingJobs.rows, locked, Embeddable(db), worker, lease, now);
  }

  /** The two steps of a claim in the state machine: what they take, with the rows of other claims locked, is what
      `claim_next` takes, and one right after the other they do what `claim_next` does. */
  lemma ValidationClaimInTwoSteps(c: Config, s: Sys, j: JobId, worker: WorkerId, now: Time)
    requires s.clock <= now
    ensures var (db', claim) := ClaimValidation(s.db, s.validationClaims.Keys, worker, c.lease, now);
      var begin, commit := BeginValidationClaim(j, worker, now), CommitValidationClaim(j);
      && (Enabled(c, s, begin) <==> !claim.Nothing? && claim.job == j)
      && (Enabled(c, s, begin) ==>
            && Enabled(c, Next(c, s, begin), commit)
            && Next(c, Next(c, s, begin), commit) == s.(db := db', clock := now))
  {
    if Enabled(c, s, BeginValidationClaim(j, worker, now)) {
      var t := Next(c, s, BeginValidationClaim(j, worker, now));
      assert t.validationClaims - {j} == s.validationClaims;
    }
  }

  lemma EmbeddingClaimInTwoSteps(c: Config, s: Sys, j: JobId, worker: WorkerId, now: Time)
    requires s.clock <= now
    ensures var (db', claim) := ClaimEmbedding(s.db, s.embeddingClaims.Keys, worker, c.lease, now);
      var begin, commit := BeginEmbeddingClaim(j, worker, now), CommitEmbeddingClaim(j);
      && (Enabled(c, s, begin) <==> !claim.Nothing? && claim.job == j)
      && (Enabled(c, s, begin) ==>
            && Enabled(c, Next(c, s, begin), commit)
            && Next(c, Next(c, s, begin), commit) == s.(db := db', clock := now))
  {
    if Enabled(c, s, BeginEmbeddingClaim(j, worker, now)) {
      var t := Next(c, s, BeginEmbeddingClaim(j, worker, now));
      assert t.embeddingClaims - {j} == s.embeddingClaims;
    }
  }

  /** Between the unlocked read of the photo and the commit of a claim other transactions run, in any number. Still
      a job is given up only if at the commit its photo really needs no more work: no claim in any run retires a
      job whose photo waits for it. */
  lemma NoJobIsLost(c: Config, steps: seq<Step>, j: JobId)
    requires Run(c, steps).Some?
    ensures var s := Run(c, steps).value;
      j in s.validationClaims && j in s.db.validations.rows ==>
        var db' := SettleValidation(s.db, j, s.validationClaims[j]);
        var job, p := db'.validations.rows[j], s.db.validations.rows[j].photo;
        && p in s.db.photos && db'.photos == s.db.photos
        && (if s.validationClaims[j].available
            then job.status.Processing? && job.worker == Some(s.validationClaims[j].worker)
            else job.status.Failed?)
        && (job.status.Failed? ==> s.db.photos[p].status.Rejected? || s.db.photos[p].status.Deleted?)
    ensures var s := Run(c, steps).value;
      j in s.embeddingClaims && j in s.db.embeddingJobs.rows ==>
        var db' := SettleEmbedding(s.db, j, s.embeddingClaims[j]);
        var job, p := db'.embeddingJobs.rows[j], s.db.embeddingJobs.rows[j].photo;
        && p in s.db.photos && db'.photos == s.db.photos
        && (if s.embeddingClaims[j].available
            then job.status.Processing? && job.worker == Some(s.embeddingClaims[j].worker)
            else job.status.Failed?)
        && (job.status.Failed? ==>
              s.db.photos[p].status.Matched? || s.db.photos[p].status.Expired? || s.db.photos[p].status.Deleted?)
  {
    RunInv(c, steps);
    var s := Run(c, steps).value;
    assert ValidationClaimOk(c, s, j) && EmbeddingClaimOk(c, s, j);
    if j in s.db.validations.rows { ValidationView(s.db, j); }
    if j in s.db.embeddingJobs.rows { EmbeddingView(s.db, j); }
  }

  // Validation.

  /** What the worker of a validation job may report: a result while the job waits, or while it holds it. */
  predicate MayJudge(job: Job<Verdict>, sender: Option<WorkerId>) {
    job.status.Pending? || (job.status.Processing? && job.worker == sender)
  }

  lemma ValidationResultAnswers(db: Db, c: Config, j: JobId, verdict: Verdict, code: Option<string>,
                                sender: Option<WorkerId>, e: JobId, now: Time, txn: Time)
    requires Consistent(db) && e !in db.embeddingJobs.rows
    ensures var r := ApplyValidationResult(db, ValidationPolicy(c), j, verdict, code, sender, e, now, txn);
      if j !in db.validations.rows then r == Outcome(db, Err(ValidationJobNotFound)) else
        var job := db.validations.rows[j];
        if job.status == Done(verdict) then r == Outcome(db, Ok(job))
        else if job.status.Done? || job.status.Failed? then r == Outcome(db, Err(ValidationAlreadyCompleted))
        else if !MayJudge(job, sender) then r == Outcome(db, Err(ValidationLeaseLost))
        else if !db.photos[job.photo].status.Validating? then r == Outcome(db, Err(PhotoNotValidating))
        else r.result.Ok?
  {
    if j in db.validations.rows {
      ValidationView(db, j);
      if db.validations.rows[j].Open() && db.validations.rows[j].photo in Validatable(db) && verdict.PASSED? {
        PassedConsistent(db, ValidationPolicy(c), j, code, e, now, txn);
      }
    }
  }

  /** What an accepted result changes: the job is decided, and its photo is searching for seven days from its
      registration, with an embedding job that waits, or is rejected with the worker's code. */
  lemma ValidationResultEffect(db: Db, c: Config, j: JobId, verdict: Verdict, code: Option<string>,
                               sender: Option<WorkerId>, e: JobId, now: Time, txn: Time)
    requires Consistent(db) && e !in db.embeddingJobs.rows && j in db.validations.rows
    requires MayJudge(db.validations.rows[j], sender)
    requires db.validations.rows[j].photo in db.photos && db.photos[db.validations.rows[j].photo].status.Validating?
    ensures var db' := ApplyValidationResult(db, ValidationPolicy(c), j, verdict, code, sender, e, now, txn).db;
      var job, p := db.validations.rows[j], db.validations.rows[j].photo;
      && db'.validations.rows == db.validations.rows[j := Decided(job, verdict, now)]
      && (verdict.PASSED? ==>
            && db'.photos == db.photos[p := db.photos[p].(status := Searching, rejectionCode := None,
                 searchExpiresAt := Some(db.photos[p].registeredAt + 604800000000))]
            && db'.embeddingJobs.rows == db.embeddingJobs.rows[e := NewJob(p, txn)])
      && (verdict.REJECTED? ==>
            && db'.photos == db.photos[p := db.photos[p].(status := Rejected, rejectionCode := code)]
            && db'.embeddingJobs == db.embeddingJobs)
  {
    ValidationView(db, j);
    if verdict.PASSED? {
      PassedConsistent(db, ValidationPolicy(c), j, code, e, now, txn);
      PassedEffect(db, c, j, code, e, now, txn);
    } else {
      RejectedEffect(db, c, j, code, e, now, txn);
    }
  }

  function Decided(job: Job<Verdict>, verdict: Verdict, now: Time): Job<Verdict> {
    job.(status := Done(verdict), worker := None, completedAt := Some(now), errorCode := None, nextAttemptAt := None)
  }

  lemma PassedEffect(db: Db, c: Config, j: JobId, code: Option<string>, e: JobId, now: Time, txn: Time)
    requires j in db.validations.rows && db.validations.rows[j].photo in db.photos
    requires CommitVerdict(db, ValidationPolicy(c), j, PASSED, code, e, now, txn).result.Ok?
    ensures var db' := CommitVerdict(db, ValidationPolicy(c), j, PASSED, code, e, now, txn).db;
      var job, p := db.validations.rows[j], db.validations.rows[j].photo;
      && db'.validations.rows == db.validations.rows[j := Decided(job, PASSED, now)]
      && db'.photos == db.photos[p := db.photos[p].(status := Searching, rejectionCode := None,
           searchExpiresAt := Some(db.photos[p].registeredAt + 604800000000))]
      && db'.embeddingJobs.rows == db.embeddingJobs.rows[e := NewJob(p, txn)]
  {}

  lemma RejectedEffect(db: Db, c: Config, j: JobId, code: Option<string>, e: JobId, now: Time, txn: Time)
    requires j in db.validations.rows && db.validations.rows[j].photo in db.photos
    ensures var db' := CommitVerdict(db, ValidationPolicy(c), j, REJECTED, code, e, now, txn).db;
      var job, p := db.validations.rows[j], db.validations.rows[j].photo;
      && db'.validations.rows == db.validations.rows[j := Decided(job, REJECTED, now)]
      && db'.photos == db.photos[p := db.photos[p].(status := Rejected, rejectionCode := code)]
      && db'.embeddingJobs == db.embeddingJobs
  {}

  /** A failure is accepted iff it comes from the worker that holds the job; one that comes for a job that has
      failed already is answered with it. */
  lemma ValidationFailureAnswers(db: Db, c: Config, j: JobId, worker: WorkerId, code: string, retryable: bool,
                                 now: Time)
    ensures var r := RecordValidationFailure(db, ValidationPolicy(c), j, worker, code, retryable, now);
      if j !in db.validations.rows then r == Outcome(db, Err(ValidationJobNotFound)) else
        match db.validations.rows[j].status
        case Done(_) => r == Outcome(db, Err(ValidationAlreadyCompleted))
        case Failed => r == Outcome(db, Ok(db.validations.rows[j]))
        case Pending => r == Outcome(db, Err(ValidationNotProcessing))
        case Processing =>
          if db.validations.rows[j].worker == Some(worker) then r.result.Ok?
          else r == Outcome(db, Err(ValidationLeaseLost))
  {}

  /** The row after an accepted failure that left `claims` attempts behind: it waits for its retry iff the failure
      was retryable and attempts are left, with a delay of `retry_base` that doubles with every attempt; else it
      has failed for good. */
  predicate AfterReport<V>(after: Job<V>, before: Job<V>, code: string, retryable: bool, claims: nat, maxAttempts: int,
                           retryBase: Time, now: Time)
  {
    && after.photo == before.photo && after.attempts == before.attempts && after.createdAt == before.createdAt
    && after.errorCode == Some(code) && after.worker.None? && after.startedAt.None?
    && (after.status.Pending? <==> retryable && claims < maxAttempts)
    && (after.status.Pending? ==>
          && claims > 0 && after.nextAttemptAt == Some(now + retryBase * Pow2(claims - 1))
          && after.completedAt == before.completedAt)
    && (!after.status.Pending? ==> after.status.Failed? && after.completedAt == Some(now) && after.nextAttemptAt.None?)
  }

  /** What an accepted failure does in every reachable state: `claims` counts the claims of the job in the run. A
      photo that waits for its validation is rejected in exactly the case that the job fails for good. */
  lemma ValidationFailureEffect(c: Config, steps: seq<Step>, j: JobId, worker: WorkerId, code: string, retryable: bool,
                                now: Time)
    requires Run(c, steps).Some? && j in Run(c, steps).value.db.validations.rows
    requires var job := Run(c, steps).value.db.validations.rows[j]; job.status.Processing? && job.worker == Some(worker)
    ensures var db := Run(c, steps).value.db;
      var db' := RecordValidationFailure(db, ValidationPolicy(c), j, worker, code, retryable, now).db;
      var claims, p := Claims(ValidationEvents(c, steps, j)), db.validations.rows[j].photo;
      && p in db.photos && j in db'.validations.rows
      && db'.validations.rows == db.validations.rows[j := db'.validations.rows[j]]
      && AfterReport(db'.validations.rows[j], db.validations.rows[j], code, retryable, claims,
                     c.maxAttempts, c.retryBase, now)
      && db'.photos == (
           if db.photos[p].status.Validating? && !(retryable && claims < c.maxAttempts)
           then db.photos[p := db.photos[p].(status := Rejected, rejectionCode := Some("VALIDATION_FAILED"))]
           else db.photos)
  {
    RunInv(c, steps);
    var db := Run(c, steps).value.db;
    ValidationView(db, j);
    ValidationRowsHaveHistories(c, steps, j);
    var job := db.validations.rows[j];
    Tally(job.photo, job.createdAt, ValidationEvents(c, steps, j), ValidationPolicy(c));
    ReportOnRow(db, c, j, worker, code, retryable, now);
  }

  lemma ReportOnRow(db: Db, c: Config, j: JobId, worker: WorkerId, code: string, retryable: bool, now: Time)
    requires j in db.validations.rows && db.validations.rows[j].photo in db.photos && WellFormed(db.validations.rows[j])
    requires db.validations.rows[j].status.Processing? && db.validations.rows[j].worker == Some(worker)
    ensures var db' := RecordValidationFailure(db, ValidationPolicy(c), j, worker, code, retryable, now).db;
      var job, p := db.validations.rows[j], db.validations.rows[j].photo;
      && j in db'.validations.rows && db'.validations.rows == db.validations.rows[j := db'.validations.rows[j]]
      && AfterReport(db'.validations.rows[j], job, code, retryable, job.attempts,
                     c.maxAttempts, c.retryBase, now)
      && db'.photos == (
           if db.photos[p].status.Validating? && !(retryable && job.attempts < c.maxAttempts)
           then db.photos[p := db.photos[p].(status := Rejected, rejectionCode := Some("VALIDATION_FAILED"))]
           else db.photos)
  {}

  // Matches.

  /** strip() takes the blanks off both ends and nothing else. */
  lemma {:induction false} TrimStrips(s: string) returns (i: nat, j: nat)
    ensures i <= j <= |s| && Trim(s) == s[i..j]
    ensures forall k :: 0 <= k < i ==> IsSpace(s[k])
    ensures forall k :: j <= k < |s| ==> IsSpace(s[k])
    ensures i < j ==> !IsSpace(s[i]) && !IsSpace(s[j - 1])
    decreases |s|
  {
    if s == "" {
      i, j := 0, 0;
    } else if IsSpace(s[0]) {
      i, j := TrimStrips(s[1..]);
      i, j := i + 1, j + 1;
    } else if IsSpace(s[|s| - 1]) {
      i, j := TrimStrips(s[..|s| - 1]);
    } else {
      i, j := 0, |s|;
    }
  }

  lemma BlankIsTrimmed(s: string)
    ensures Trim(s) == "" <==> forall k :: 0 <= k < |s| ==> IsSpace(s[k])
  {
    var i, j := TrimStrips(s);
  }

  predicate Outdated(photo: Photo, now: Time) { photo.registeredAt + 604800000000 <= now }

  /** The answers of `finalize_match` with a fresh id, by the rows of the moment, in the order of its checks. */
  lemma FinalizeMatchAnswers(db: Db, a: PhotoId, b: PhotoId, m: MatchId, explanation: string, now: Time, txn: Time)
    requires Consistent(db) && m !in db.matches
    ensures var r := FinalizeMatch(db, a, b, m, explanation, now, txn).result;
      if a == b then r == Err(SamePhotoMatch)
      else if forall k :: 0 <= k < |explanation| ==> IsSpace(explanation[k]) then r == Err(MatchExplanationRequired)
      else if a !in db.photos || b !in db.photos then r == Err(MatchPhotoNotFound)
      else
        var pa, pb := db.photos[a], db.photos[b];
        if pa.user == pb.user then r == Err(SameUserMatch)
        else if !pa.status.Searching? || !pb.status.Searching? then r == Err(MatchCandidateChanged)
        else if Outdated(pa, now) || Outdated(pb, now) then r == Err(SearchPeriodExpired)
        else if (pa.user, pb.user) in db.blocks || (pb.user, pa.user) in db.blocks then r == Err(UserBlocked)
        else r == Ok(m)
  {
    BlankIsTrimmed(explanation);
    assert Agree(db, a) && Agree(db, b);
  }

  /** What an accepted finalisation adds and changes. */
  lemma FinalizeMatchEffect(db: Db, a: PhotoId, b: PhotoId, m: MatchId, explanation: string, now: Time, txn: Time)
    requires FinalizeMatch(db, a, b, m, explanation, now, txn).result.Ok?
    ensures a in db.photos && b in db.photos
    ensures var db' := FinalizeMatch(db, a, b, m, explanation, now, txn).db;
      var pa, pb := db.photos[a], db.photos[b];
      && db'.matches == db.matches[m := Match(Trim(explanation), txn)]
      && db'.participants.Keys == db.participants.Keys + {a, b}
      && db'.participants[a] == Participant(m, pa.user, None) && db'.participants[b] == Participant(m, pb.user, None)
      && (forall p :: p in db.participants ==> db'.participants[p] == db.participants[p])
      && db'.photos.Keys == db.photos.Keys
      && (forall p :: p in db.photos ==>
            db'.photos[p] == if p == a || p == b then db.photos[p].(status := Matched) else db.photos[p])
      && (forall n :: db'.inbox.matched[n] == db.inbox.matched[n]
                                              + if n == Note(pa.user, m) || n == Note(pb.user, m) then 1 else 0)
  {}

  // Blocks.

  /** A block is accepted iff it names another user whose account has not been withdrawn and whom the blocker has
      not blocked yet. It then shuts off both directions, and lifting it restores the blocks of before. */
  lemma BlockAnswers(db: Db, a: UserId, b: UserId)
    ensures var r := Block(db, a, b);
      && (r.result == Err(CannotBlockSelf) <==> a == b)
      && (r.result == Err(UserNotFound) <==> a != b && (b in db.accounts ==> db.accounts[b].status.WITHDRAWN?))
      && (r.result.Ok? <==> && a != b && b in db.accounts && !db.accounts[b].status.WITHDRAWN?
                            && (a, b) !in db.blocks)
      && (r.result.Err? ==> r.db == db)
      && (r.result.Ok? ==> Blocked(r.db, a, b) && Blocked(r.db, b, a) && Unblock(r.db, a, b) == db)
  {
    if Block(db, a, b).result.Ok? {
      assert db.blocks + {(a, b)} - {(a, b)} == db.blocks;
    }
  }

  /** Lifting a block leaves all others in place, also the one in the other direction. */
  lemma UnblockEffect(db: Db, a: UserId, b: UserId, x: UserId, y: UserId)
    ensures var db' := Unblock(db, a, b);
      && ((x, y) in db'.blocks <==> (x, y) in db.blocks && !(x == a && y == b))
      && (Blocked(db', a, b) <==> a != b && (b, a) in db.blocks)
      && db' == db.(blocks := db'.blocks)
  {}

  // Embedding.

  /** Embedding results: accepted from the worker that holds the job, answered again when the job is completed. */
  lemma EmbeddingResultAnswers(db: Db, c: Config, j: JobId, worker: WorkerId, embedding: Embedding, now: Time)
    ensures var r := ApplyEmbeddingResult(db, EmbeddingPolicy(c), j, worker, embedding, now);
      if j !in db.embeddingJobs.rows then r == Outcome(db, Err(EmbeddingJobNotFound)) else
        var job := db.embeddingJobs.rows[j];
        if job.status.Done? then r == Outcome(db, Ok(job))
        else if job.status.Processing? && job.worker == Some(worker) then
          && r.result == Ok(r.db.embeddingJobs.rows[j])
          && r.db.embeddingJobs.rows
             == db.embeddingJobs.rows[j := job.(status := Done(COMPLETED), worker := None, completedAt := Some(now))]
          && r.db.embeddings == db.embeddings[job.photo := embedding]
          && r.db.photos == db.photos
        else r == Outcome(db, Err(EmbeddingLeaseLost))
  {}

  /** Embedding failures in every reachable state: no photo changes. */
  lemma EmbeddingFailureEffect(c: Config, steps: seq<Step>, j: JobId, worker: WorkerId, code: string, retryable: bool,
                               now: Time)
    requires Run(c, steps).Some?
    ensures var db := Run(c, steps).value.db;
      var r := RecordEmbeddingFailure(db, EmbeddingPolicy(c), j, worker, code, retryable, now);
      if j !in db.embeddingJobs.rows then r == Outcome(db, Err(EmbeddingJobNotFound)) else
        var job := db.embeddingJobs.rows[j];
        if job.status.Done? then r == Outcome(db, Err(EmbeddingAlreadyCompleted))
        else if job.status.Processing? && job.worker == Some(worker) then
          && r.db.photos == db.photos && j in r.db.embeddingJobs.rows
          && r.db.embeddingJobs.rows == db.embeddingJobs.rows[j := r.db.embeddingJobs.rows[j]]
          && AfterReport(r.db.embeddingJobs.rows[j], job, code, retryable, Claims(EmbeddingEvents(c, steps, j)),
                         c.maxAttempts, c.retryBase, now)
        else r == Outcome(db, Err(EmbeddingLeaseLost))
  {
    RunInv(c, steps);
    var db := Run(c, steps).value.db;
    if j in db.embeddingJobs.rows {
      EmbeddingView(db, j);
      EmbeddingRowsHaveHistories(c, steps, j);
      var job := db.embeddingJobs.rows[j];
      Tally(job.photo, job.createdAt, EmbeddingEvents(c, steps, j), EmbeddingPolicy(c));
      EmbeddingReportOnRow(db, c, j, worker, code, retryable, now);
    }
  }

  lemma EmbeddingReportOnRow(db: Db, c: Config, j: JobId, worker: WorkerId, code: string, retryable: bool, now: Time)
    requires j in db.embeddingJobs.rows && WellFormed(db.embeddingJobs.rows[j])
    ensures var r := RecordEmbeddingFailure(db, EmbeddingPolicy(c), j, worker, code, retryable, now);
      var job := db.embeddingJobs.rows[j];
      if job.status.Done? then r == Outcome(db, Err(EmbeddingAlreadyCompleted))
      else if job.status.Processing? && job.worker == Some(worker) then
        && r.db.photos == db.photos && j in r.db.embeddingJobs.rows
        && r.db.embeddingJobs.rows == db.embeddingJobs.rows[j := r.db.embeddingJobs.rows[j]]
        && AfterReport(r.db.embeddingJobs.rows[j], job, code, retryable, job.attempts, c.maxAttempts, c.retryBase, now)
      else r == Outcome(db, Err(EmbeddingLeaseLost))
  {}
}
