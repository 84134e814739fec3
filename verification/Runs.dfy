/** Whole runs of the pipeline: what every reachable state satisfies. */
module Runs {
  import opened Results
  import opened Leases
  import opened Queues
  import opened Similarity
  import opened Tables
  import opened Pipeline

  // Rows only move forward.

  /** The status changes the code makes. */
  predicate Edge(a: PhotoStatus, b: PhotoStatus) {
    || a == b
    || (a.Validating? && (b.Rejected? || b.Searching? || b.Deleted?))
    || (a.Searching? && (b.Matched? || b.Expired? || b.Deleted?))
    || ((a.Rejected? || a.Expired?) && b.Deleted?)
  }

  predicate PhotoStep(db: Db, db': Db, p: PhotoId) {
    p in db.photos ==>
      && p in db'.photos
      && var a, b := db.photos[p], db'.photos[p];
      && Edge(a.status, b.status)
      && b.user == a.user && b.registeredAt == a.registeredAt && b.registeredDate == a.registeredDate
      && (b.checksum == a.checksum || b.checksum.None?)
  }

  ghost predicate PhotosStep(db: Db, db': Db) {
    forall p {:trigger PhotoStep(db, db', p)} :: PhotoStep(db, db', p)
  }

  /** Matches and embeddings are never undone, and a participant keeps its match and user. */
  ghost predicate MatchesKept(db: Db, db': Db) {
    && (forall m :: m in db.matches ==> m in db'.matches && db'.matches[m] == db.matches[m])
    && (forall p :: p in db.participants ==>
          && p in db'.participants
          && db'.participants[p].matchId == db.participants[p].matchId
          && db'.participants[p].user == db.participants[p].user)
    && db.embeddings.Keys <= db'.embeddings.Keys
  }

  ghost predicate Evolves(db: Db, db': Db) {
    PhotosStep(db, db') && MatchesKept(db, db')
  }

  lemma Still(db: Db, db': Db)
    requires db'.photos == db.photos && db'.matches == db.matches && db'.participants == db.participants
    requires db.embeddings.Keys <= db'.embeddings.Keys
    ensures Evolves(db, db')
  {
    forall p ensures PhotoStep(db, db', p) {}
  }

  /** A transaction that only writes photo rows, and may insert one. */
  lemma PhotosMove(db: Db, db': Db)
    requires db'.matches == db.matches && db'.participants == db.participants && db'.embeddings == db.embeddings
    requires forall p :: p in db.photos ==> PhotoStep(db, db', p)
    ensures Evolves(db, db')
  {
    forall p ensures PhotoStep(db, db', p) {}
  }

  lemma InsertPhotoEvolves(db: Db, u: Upload, now: Time, txn: Time)
    ensures Evolves(db, InsertPhoto(db, u, now, txn).db)
  {
    var db' := InsertPhoto(db, u, now, txn).db;
    if db' == db {
      Still(db, db');
    } else {
      var released := ReleaseChecksums(db, u.user, u.checksum);
      assert db'.photos == released.photos[u.photo := UploadedPhoto(u, now)] && u.photo !in released.photos;
      PhotosMove(db, db');
    }
  }

  lemma VerdictEvolves(db: Db, policy: Policy, j: JobId, verdict: Verdict, code: Option<string>,
                       sender: Option<WorkerId>, e: JobId, now: Time, txn: Time)
    ensures Evolves(db, ApplyValidationResult(db, policy, j, verdict, code, sender, e, now, txn).db)
  {
    var db' := ApplyValidationResult(db, policy, j, verdict, code, sender, e, now, txn).db;
    if db' == db { Still(db, db'); } else { PhotosMove(db, db'); }
  }

  lemma ValidationFailureEvolves(db: Db, policy: Policy, j: JobId, worker: WorkerId, error: string, retryable: bool,
                                 now: Time)
    ensures Evolves(db, RecordValidationFailure(db, policy, j, worker, error, retryable, now).db)
  {
    PhotosMove(db, RecordValidationFailure(db, policy, j, worker, error, retryable, now).db);
  }

  lemma EmbeddingFailureEvolves(db: Db, policy: Policy, j: JobId, worker: WorkerId, error: string, retryable: bool,
                                now: Time)
    ensures Evolves(db, RecordEmbeddingFailure(db, policy, j, worker, error, retryable, now).db)
  {
    Still(db, RecordEmbeddingFailure(db, policy, j, worker, error, retryable, now).db);
  }

  lemma PairEvolves(db: Db, a: PhotoId, b: PhotoId, m: MatchId, explanation: string, now: Time, txn: Time,
                    blocked: bool)
    ensures Evolves(db, Finalize(db, a, b, m, explanation, now, txn, blocked).db)
  {
    var db' := Finalize(db, a, b, m, explanation, now, txn, blocked).db;
    if db' == db {
      Still(db, db');
    } else {
      assert db' == RecordMatch(db, a, b, m, explanation, txn);
      forall p ensures PhotoStep(db, db', p) {}
    }
  }

  lemma SendEvolves(db: Db, u: UserId, m: MatchId, content: string, key: Option<nat>, id: PostcardId, at: Time)
    ensures Evolves(db, SendLocked(db, u, m, content, key, id, at).db)
  {
    SendFrame(db, u, m, content, key, id, at);
    Still(db, SendLocked(db, u, m, content, key, id, at).db);
  }

  lemma SendFrame(db: Db, u: UserId, m: MatchId, content: string, key: Option<nat>, id: PostcardId, at: Time)
    ensures var db' := SendLocked(db, u, m, content, key, id, at).db;
            db' == db.(postcards := db'.postcards, inbox := db'.inbox)
  {}

  lemma DropFrame(db: Db, u: UserId, card: PostcardId, at: Time)
    ensures var db' := DeletePostcard(db, u, card, at).db;
            db' == db.(postcards := db'.postcards)
  {}

  lemma DropEvolves(db: Db, u: UserId, card: PostcardId, at: Time)
    ensures Evolves(db, DeletePostcard(db, u, card, at).db)
  {
    DropFrame(db, u, card, at);
    Still(db, DeletePostcard(db, u, card, at).db);
  }

  lemma HideEvolves(db: Db, u: UserId, m: MatchId, at: Option<Time>)
    ensures Evolves(db, SetHidden(db, u, m, at))
  {
    forall p ensures PhotoStep(db, SetHidden(db, u, m, at), p) {}
  }

  predicate IsJobStep(step: Step) {
    || step.BeginValidationClaim? || step.CommitValidationClaim? || step.ValidationResult? || step.ValidationFailure?
    || step.BeginEmbeddingClaim? || step.CommitEmbeddingClaim? || step.EmbeddingResult? || step.EmbeddingFailure?
  }

  lemma JobStepEvolves(c: Config, s: Sys, step: Step)
    requires Enabled(c, s, step) && IsJobStep(step)
    ensures Evolves(s.db, Next(c, s, step).db)
  {
    var db := s.db;
    if step.ValidationResult? {
      VerdictEvolves(db, ValidationPolicy(c), step.job, step.verdict, step.code, step.sender, step.embeddingJob,
                     step.now, step.txn);
    } else if step.ValidationFailure? {
      ValidationFailureEvolves(db, ValidationPolicy(c), step.job, step.worker, step.error, step.retryable, step.now);
    } else if step.EmbeddingFailure? {
      EmbeddingFailureEvolves(db, EmbeddingPolicy(c), step.job, step.worker, step.error, step.retryable, step.now);
    } else {
      Still(db, Next(c, s, step).db);
    }
  }

  lemma OtherStepEvolves(c: Config, s: Sys, step: Step)
    requires Enabled(c, s, step) && !IsJobStep(step)
    ensures Evolves(s.db, Next(c, s, step).db)
  {
    var db := s.db;
    if step.Sweep? {
      PhotosMove(db, ExpireStaleValidations(db, step.user, step.now));
    } else if step.PutPhoto? {
      InsertPhotoEvolves(db, step.upload, step.now, step.txn);
    } else if step.Remove? {
      PhotosMove(db, DeletePhoto(db, step.user, step.photo, step.now).db);
    } else if step.Expire? {
      PhotosMove(db, ExpireDue(db, step.now).db);
    } else if step.Pair? {
      PairEvolves(db, step.a, step.b, step.m, step.explanation, step.now, step.txn, step.blocked);
    } else if step.Hide? {
      HideEvolves(db, step.user, step.m, step.hiddenAt);
    } else if step.SendCard? {
      SendEvolves(db, step.user, step.m, step.content, step.key, step.id, step.sentAt);
    } else if step.DropCard? {
      DropEvolves(db, step.user, step.card, step.now);
    } else {
      Still(db, Next(c, s, step).db);
    }
  }

  /** Every step moves photos along the status edges and undoes no match. */
  lemma StepEvolves(c: Config, s: Sys, step: Step)
    requires Enabled(c, s, step)
    ensures Evolves(s.db, Next(c, s, step).db)
  {
    if IsJobStep(step) { JobStepEvolves(c, s, step); } else { OtherStepEvolves(c, s, step); }
  }

  // Consistency.

  /** A claim holds a row that is open and was claimable when it was taken; what it saw of the photo is
      still true if it saw that the photo is gone. */
  predicate ValidationClaimOk(c: Config, s: Sys, j: JobId) {
    j in s.validationClaims ==>
      && j in s.db.validations.rows
      && var job, claim := s.db.validations.rows[j], s.validationClaims[j];
      && claim.at <= s.clock
      && Eligible(job, c.lease, claim.at)
      && (!claim.available ==> job.photo !in Validatable(s.db))
  }

  predicate EmbeddingClaimOk(c: Config, s: Sys, j: JobId) {
    j in s.embeddingClaims ==>
      && j in s.db.embeddingJobs.rows
      && var job, claim := s.db.embeddingJobs.rows[j], s.embeddingClaims[j];
      && claim.at <= s.clock
      && Eligible(job, c.lease, claim.at)
      && (!claim.available ==> job.photo !in Embeddable(s.db))
  }

  ghost predicate ClaimsOk(c: Config, s: Sys) {
    && (forall j {:trigger ValidationClaimOk(c, s, j)} :: ValidationClaimOk(c, s, j))
    && (forall j {:trigger EmbeddingClaimOk(c, s, j)} :: EmbeddingClaimOk(c, s, j))
  }

  lemma JobStepConsistent(c: Config, s: Sys, step: Step)
    requires Enabled(c, s, step) && Consistent(s.db) && ClaimsOk(c, s) && IsJobStep(step)
    ensures Consistent(Next(c, s, step).db)
  {
    var db := s.db;
    if step.CommitValidationClaim? {
      assert ValidationClaimOk(c, s, step.job);
      SettleValidationConsistent(db, step.job, s.validationClaims[step.job]);
    } else if step.ValidationResult? {
      VerdictConsistent(db, ValidationPolicy(c), step.job, step.verdict, step.code, step.sender, step.embeddingJob,
                        step.now, step.txn);
    } else if step.ValidationFailure? {
      ValidationFailureConsistent(db, ValidationPolicy(c), step.job, step.worker, step.error, step.retryable, step.now);
    } else if step.CommitEmbeddingClaim? {
      assert EmbeddingClaimOk(c, s, step.job);
      SettleEmbeddingConsistent(db, step.job, s.embeddingClaims[step.job]);
    } else if step.EmbeddingResult? {
      EmbeddingResultConsistent(db, EmbeddingPolicy(c), step.job, step.worker, step.embedding, step.now);
    } else if step.EmbeddingFailure? {
      EmbeddingFailureConsistent(db, EmbeddingPolicy(c), step.job, step.worker, step.error, step.retryable, step.now);
    } else {
      assert Next(c, s, step).db == db;
    }
  }

  lemma OtherStepConsistent(c: Config, s: Sys, step: Step)
    requires Enabled(c, s, step) && Consistent(s.db) && !IsJobStep(step)
    ensures Consistent(Next(c, s, step).db)
  {
    var db := s.db;
    if step.Sweep? {
      SweepConsistent(db, step.user, step.now);
    } else if step.PutPhoto? {
      InsertPhotoConsistent(db, step.upload, step.now, step.txn);
    } else if step.Remove? {
      DeleteConsistent(db, step.user, step.photo, step.now);
    } else if step.Expire? {
      ExpireConsistent(db, step.now);
    } else if step.Pair? {
      FinalizeConsistent(db, step.a, step.b, step.m, step.explanation, step.now, step.txn, step.blocked);
    } else {
      UserStepConsistent(c, s, step);
    }
  }

  lemma UserStepConsistent(c: Config, s: Sys, step: Step)
    requires Enabled(c, s, step) && Consistent(s.db)
    requires step.SetAccount? || step.Hide? || step.AddBlock? || step.RemoveBlock? || step.SendCard? || step.DropCard?
    ensures Consistent(Next(c, s, step).db)
  {
    if step.Hide? {
      HideConsistent(s.db, step.user, step.m, step.hiddenAt);
    } else if step.SendCard? {
      SendConsistent(s.db, step.user, step.m, step.content, step.key, step.id, step.sentAt);
    } else if step.DropCard? {
      DropConsistent(s.db, step.user, step.card, step.now);
    } else {
      Untouched(s.db, Next(c, s, step).db);
    }
  }

  lemma SendConsistent(db: Db, u: UserId, m: MatchId, content: string, key: Option<nat>, id: PostcardId, at: Time)
    requires Consistent(db)
    ensures Consistent(SendLocked(db, u, m, content, key, id, at).db)
  {
    SendFrame(db, u, m, content, key, id, at);
    Untouched(db, SendLocked(db, u, m, content, key, id, at).db);
  }

  lemma DropConsistent(db: Db, u: UserId, card: PostcardId, at: Time)
    requires Consistent(db)
    ensures Consistent(DeletePostcard(db, u, card, at).db)
  {
    DropFrame(db, u, card, at);
    Untouched(db, DeletePostcard(db, u, card, at).db);
  }

  /** A transaction on other tables. */
  lemma Untouched(db: Db, db': Db)
    requires Consistent(db)
    requires db'.photos == db.photos && db'.validations == db.validations && db'.embeddingJobs == db.embeddingJobs
    requires db'.embeddings == db.embeddings && db'.participants == db.participants
    ensures Consistent(db')
  {
    forall p ensures Agree(db', p) {
      assert Agree(db, p);
    }
  }

  // Claims in flight.

  predicate ValidationRowHeld(s: Sys, s': Sys, j: JobId) {
    j in s.validationClaims && j in s'.validationClaims && j in s.db.validations.rows ==>
      && j in s'.db.validations.rows && s'.db.validations.rows[j] == s.db.validations.rows[j]
      && s'.validationClaims[j] == s.validationClaims[j]
  }

  predicate EmbeddingRowHeld(s: Sys, s': Sys, j: JobId) {
    j in s.embeddingClaims && j in s'.embeddingClaims && j in s.db.embeddingJobs.rows ==>
      && j in s'.db.embeddingJobs.rows && s'.db.embeddingJobs.rows[j] == s.db.embeddingJobs.rows[j]
      && s'.embeddingClaims[j] == s.embeddingClaims[j]
  }

  lemma OtherStepHoldsRows(c: Config, s: Sys, step: Step, j: JobId)
    requires Enabled(c, s, step) && !IsJobStep(step)
    ensures ValidationRowHeld(s, Next(c, s, step), j) && EmbeddingRowHeld(s, Next(c, s, step), j)
  {
    match step
    case PutPhoto(u, now, txn) => InsertKeepsRows(s.db, u, now, txn, j);
    case SendCard(u, m, content, key, id, at) => SendFrame(s.db, u, m, content, key, id, at);
    case DropCard(u, card, now) => DropFrame(s.db, u, card, now);
    case _ =>
  }

  lemma JobStepHoldsValidations(c: Config, s: Sys, step: Step, j: JobId)
    requires Enabled(c, s, step) && IsJobStep(step)
    ensures ValidationRowHeld(s, Next(c, s, step), j)
  {
    if step.ValidationResult? {
      VerdictKeepsRows(s.db, ValidationPolicy(c), step.job, step.verdict, step.code, step.sender, step.embeddingJob,
                       step.now, step.txn, j);
    } else if step.ValidationFailure? {
      FailureKeepsRows(s.db, ValidationPolicy(c), step.job, step.worker, step.error, step.retryable, step.now, j);
    } else if step.EmbeddingResult? {
      EmbeddingResultFrame(s.db, EmbeddingPolicy(c), step.job, step.worker, step.embedding, step.now);
    } else if step.EmbeddingFailure? {
      EmbeddingFailureFrame(s.db, EmbeddingPolicy(c), step.job, step.worker, step.error, step.retryable, step.now);
    }
  }

  lemma FailureKeepsRows(db: Db, policy: Policy, k: JobId, worker: WorkerId, error: string, retryable: bool, now: Time,
                         j: JobId)
    ensures var db' := RecordValidationFailure(db, policy, k, worker, error, retryable, now).db;
      j != k && j in db.validations.rows ==>
        j in db'.validations.rows && db'.validations.rows[j] == db.validations.rows[j]
  {}

  lemma JobStepHoldsEmbeddingJobs(c: Config, s: Sys, step: Step, j: JobId)
    requires Enabled(c, s, step) && IsJobStep(step)
    ensures EmbeddingRowHeld(s, Next(c, s, step), j)
  {
    if step.ValidationResult? {
      VerdictKeepsRows(s.db, ValidationPolicy(c), step.job, step.verdict, step.code, step.sender, step.embeddingJob,
                       step.now, step.txn, j);
    } else if step.ValidationFailure? {
      FailureFrame(s.db, ValidationPolicy(c), step.job, step.worker, step.error, step.retryable, step.now);
    } else if step.EmbeddingResult? {
      EmbeddingResultKeeps(s.db, EmbeddingPolicy(c), step.job, step.worker, step.embedding, step.now, j);
    } else if step.EmbeddingFailure? {
      EmbeddingFailureKeeps(s.db, EmbeddingPolicy(c), step.job, step.worker, step.error, step.retryable, step.now, j);
    }
  }

  lemma EmbeddingResultKeeps(db: Db, policy: Policy, k: JobId, worker: WorkerId, embedding: Embedding, now: Time,
                             j: JobId)
    ensures var rows := ApplyEmbeddingResult(db, policy, k, worker, embedding, now).db.embeddingJobs.rows;
      j != k && j in db.embeddingJobs.rows ==> j in rows && rows[j] == db.embeddingJobs.rows[j]
  {}

  lemma EmbeddingFailureKeeps(db: Db, policy: Policy, k: JobId, worker: WorkerId, error: string, retryable: bool,
                              now: Time, j: JobId)
    ensures var rows := RecordEmbeddingFailure(db, policy, k, worker, error, retryable, now).db.embeddingJobs.rows;
      j != k && j in db.embeddingJobs.rows ==> j in rows && rows[j] == db.embeddingJobs.rows[j]
  {}

  lemma InsertKeepsRows(db: Db, u: Upload, now: Time, txn: Time, j: JobId)
    ensures var db' := InsertPhoto(db, u, now, txn).db;
      && (j in db.validations.rows ==> j in db'.validations.rows && db'.validations.rows[j] == db.validations.rows[j])
      && (j in db.embeddingJobs.rows ==>
            j in db'.embeddingJobs.rows && db'.embeddingJobs.rows[j] == db.embeddingJobs.rows[j])
  {}

  lemma VerdictKeepsRows(db: Db, policy: Policy, k: JobId, verdict: Verdict, code: Option<string>,
                         sender: Option<WorkerId>, e: JobId, now: Time, txn: Time, j: JobId)
    ensures var db' := ApplyValidationResult(db, policy, k, verdict, code, sender, e, now, txn).db;
      && (j != k && j in db.validations.rows ==>
            j in db'.validations.rows && db'.validations.rows[j] == db.validations.rows[j])
      && (j in db.embeddingJobs.rows ==>
            j in db'.embeddingJobs.rows && db'.embeddingJobs.rows[j] == db.embeddingJobs.rows[j])
  {
    if ApplyValidationResult(db, policy, k, verdict, code, sender, e, now, txn).db != db {
      CommitKeepsRows(db, policy, k, verdict, code, e, now, txn, j);
    }
  }

  lemma CommitKeepsRows(db: Db, policy: Policy, k: JobId, verdict: Verdict, code: Option<string>,
                        e: JobId, now: Time, txn: Time, j: JobId)
    requires k in db.validations.rows && db.validations.rows[k].photo in db.photos
    ensures var db' := CommitVerdict(db, policy, k, verdict, code, e, now, txn).db;
      && (j != k && j in db.validations.rows ==>
            j in db'.validations.rows && db'.validations.rows[j] == db.validations.rows[j])
      && (j in db.embeddingJobs.rows ==>
            j in db'.embeddingJobs.rows && db'.embeddingJobs.rows[j] == db.embeddingJobs.rows[j])
  {}

  lemma StepKeepsClaims(c: Config, s: Sys, step: Step)
    requires Enabled(c, s, step) && Consistent(s.db) && ClaimsOk(c, s)
    ensures ClaimsOk(c, Next(c, s, step))
  {
    var s' := Next(c, s, step);
    StepEvolves(c, s, step);
    StepAdvancesClock(c, s, step);
    forall j ensures ValidationClaimOk(c, s', j) {
      if j in s'.validationClaims {
        if j in s.validationClaims {
          if IsJobStep(step) { JobStepHoldsValidations(c, s, step, j); } else { OtherStepHoldsRows(c, s, step, j); }
          HeldValidation(c, s, s', j);
        } else {
          NewClaims(c, s, step, j);
        }
      }
    }
    forall j ensures EmbeddingClaimOk(c, s', j) {
      if j in s'.embeddingClaims {
        if j in s.embeddingClaims {
          if IsJobStep(step) { JobStepHoldsEmbeddingJobs(c, s, step, j); } else { OtherStepHoldsRows(c, s, step, j); }
          HeldEmbeddingJob(c, s, s', j);
        } else {
          NewClaims(c, s, step, j);
        }
      }
    }
  }

  lemma StepAdvancesClock(c: Config, s: Sys, step: Step)
    requires Enabled(c, s, step)
    ensures s.clock <= Next(c, s, step).clock
  {}

  lemma NewClaims(c: Config, s: Sys, step: Step, j: JobId)
    requires Enabled(c, s, step)
    ensures j !in s.validationClaims ==> ValidationClaimOk(c, Next(c, s, step), j)
    ensures j !in s.embeddingClaims ==> EmbeddingClaimOk(c, Next(c, s, step), j)
  {
    if step.BeginValidationClaim? || step.BeginEmbeddingClaim? {
      BegunClaims(c, s, step, j);
    } else {
      NoNewClaims(c, s, step);
    }
  }

  lemma NoNewClaims(c: Config, s: Sys, step: Step)
    requires Enabled(c, s, step) && !step.BeginValidationClaim? && !step.BeginEmbeddingClaim?
    ensures Next(c, s, step).validationClaims.Keys <= s.validationClaims.Keys
    ensures Next(c, s, step).embeddingClaims.Keys <= s.embeddingClaims.Keys
  {}

  lemma BegunClaims(c: Config, s: Sys, step: Step, j: JobId)
    requires Enabled(c, s, step) && (step.BeginValidationClaim? || step.BeginEmbeddingClaim?)
    ensures j !in s.validationClaims ==> ValidationClaimOk(c, Next(c, s, step), j)
    ensures j !in s.embeddingClaims ==> EmbeddingClaimOk(c, Next(c, s, step), j)
  {}

  /** A photo seen to have left VALIDATING has left it for good. */
  lemma HeldValidation(c: Config, s: Sys, s': Sys, j: JobId)
    requires Consistent(s.db) && Evolves(s.db, s'.db) && s.clock <= s'.clock
    requires ClaimsOk(c, s) && j in s.validationClaims && j in s'.validationClaims && ValidationRowHeld(s, s', j)
    ensures ValidationClaimOk(c, s', j)
  {
    assert ValidationClaimOk(c, s, j);
    ValidationView(s.db, j);
    assert PhotoStep(s.db, s'.db, s.db.validations.rows[j].photo);
  }

  /** A photo with an embedding job seen to have left SEARCHING has left it for good. */
  lemma HeldEmbeddingJob(c: Config, s: Sys, s': Sys, j: JobId)
    requires Consistent(s.db) && Evolves(s.db, s'.db) && s.clock <= s'.clock
    requires ClaimsOk(c, s) && j in s.embeddingClaims && j in s'.embeddingClaims && EmbeddingRowHeld(s, s', j)
    ensures EmbeddingClaimOk(c, s', j)
  {
    assert EmbeddingClaimOk(c, s, j);
    EmbeddingView(s.db, j);
    assert PhotoStep(s.db, s'.db, s.db.embeddingJobs.rows[j].photo);
  }

  // Uniqueness.

  /** The two unique constraints, for one pair of photos. */
  predicate NoClash(db: Db, p: PhotoId, q: PhotoId) {
    p in db.photos && q in db.photos && p != q && db.photos[p].user == db.photos[q].user ==>
      && !(Active(db.photos[p].status) && Active(db.photos[q].status)
           && db.photos[p].registeredDate == db.photos[q].registeredDate)
      && !(db.photos[p].checksum.Some? && db.photos[p].checksum == db.photos[q].checksum)
  }

  ghost predicate Unique(db: Db) {
    forall p, q {:trigger NoClash(db, p, q)} :: NoClash(db, p, q)
  }

  /** Rows that only move forward cannot start to clash. */
  lemma UniqueKept(db: Db, db': Db)
    requires Unique(db) && PhotosStep(db, db')
    requires forall p :: p in db'.photos ==> p in db.photos
    ensures Unique(db')
  {
    forall p, q ensures NoClash(db', p, q) {
      assert NoClash(db, p, q) && PhotoStep(db, db', p) && PhotoStep(db, db', q);
    }
  }

  lemma InsertPhotoUnique(db: Db, u: Upload, now: Time, txn: Time)
    requires Unique(db)
    ensures Unique(InsertPhoto(db, u, now, txn).db)
  {
    var db' := InsertPhoto(db, u, now, txn).db;
    if db' != db {
      var released := ReleaseChecksums(db, u.user, u.checksum);
      var photo := UploadedPhoto(u, now);
      assert db'.photos == released.photos[u.photo := photo] && !PhotoConflicts(released, u.photo, photo);
      forall p ensures PhotoStep(db, released, p) {}
      UniqueKept(db, released);
      forall p, q ensures NoClash(db', p, q) {
        assert NoClash(released, p, q);
        FreshPhotoClashesWithNone(released, u.photo, photo, p);
        FreshPhotoClashesWithNone(released, u.photo, photo, q);
      }
    }
  }

  lemma FreshPhotoClashesWithNone(db: Db, id: PhotoId, photo: Photo, q: PhotoId)
    requires !PhotoConflicts(db, id, photo)
    ensures q in db.photos && db.photos[q].user == photo.user ==>
      && !(Active(photo.status) && Active(db.photos[q].status) && db.photos[q].registeredDate == photo.registeredDate)
      && !(photo.checksum.Some? && db.photos[q].checksum == photo.checksum)
  {
    if q in db.photos && q !in ActiveToday(db, photo.user, photo.registeredDate) {}
  }

  lemma StepUnique(c: Config, s: Sys, step: Step)
    requires Enabled(c, s, step) && Unique(s.db)
    ensures Unique(Next(c, s, step).db)
  {
    if step.PutPhoto? {
      InsertPhotoUnique(s.db, step.upload, step.now, step.txn);
    } else {
      StepEvolves(c, s, step);
      OnlyUploadsInsert(c, s, step);
      UniqueKept(s.db, Next(c, s, step).db);
    }
  }

  lemma OnlyUploadsInsert(c: Config, s: Sys, step: Step)
    requires Enabled(c, s, step) && !step.PutPhoto?
    ensures Next(c, s, step).db.photos.Keys <= s.db.photos.Keys
  {
    if IsJobStep(step) {
      JobsInsertNoPhoto(c, s, step);
    } else if step.SendCard? {
      SendFrame(s.db, step.user, step.m, step.content, step.key, step.id, step.sentAt);
    } else if step.DropCard? {
      DropFrame(s.db, step.user, step.card, step.now);
    }
  }

  lemma JobsInsertNoPhoto(c: Config, s: Sys, step: Step)
    requires Enabled(c, s, step) && IsJobStep(step)
    ensures Next(c, s, step).db.photos.Keys <= s.db.photos.Keys
  {
    if step.ValidationResult? {
      VerdictFrame(s.db, ValidationPolicy(c), step.job, step.verdict, step.code, step.sender, step.embeddingJob,
                   step.now, step.txn);
    } else if step.ValidationFailure? {
      FailureFrame(s.db, ValidationPolicy(c), step.job, step.worker, step.error, step.retryable, step.now);
    } else if step.EmbeddingResult? {
      EmbeddingResultFrame(s.db, EmbeddingPolicy(c), step.job, step.worker, step.embedding, step.now);
    } else if step.EmbeddingFailure? {
      EmbeddingFailureFrame(s.db, EmbeddingPolicy(c), step.job, step.worker, step.error, step.retryable, step.now);
    }
  }

  lemma VerdictFrame(db: Db, policy: Policy, j: JobId, verdict: Verdict, code: Option<string>,
                     sender: Option<WorkerId>, e: JobId, now: Time, txn: Time)
    ensures var db' := ApplyValidationResult(db, policy, j, verdict, code, sender, e, now, txn).db;
      && db' == db.(validations := db'.validations, embeddingJobs := db'.embeddingJobs, photos := db'.photos,
                    inbox := db'.inbox)
      && db'.inbox.matched == db.inbox.matched && db'.photos.Keys == db.photos.Keys
  {
    if ApplyValidationResult(db, policy, j, verdict, code, sender, e, now, txn).db != db {
      CommitFrame(db, policy, j, verdict, code, e, now, txn);
    }
  }

  lemma CommitFrame(db: Db, policy: Policy, j: JobId, verdict: Verdict, code: Option<string>, e: JobId, now: Time,
                    txn: Time)
    requires j in db.validations.rows && db.validations.rows[j].photo in db.photos
    ensures var db' := CommitVerdict(db, policy, j, verdict, code, e, now, txn).db;
      && db' == db.(validations := db'.validations, embeddingJobs := db'.embeddingJobs, photos := db'.photos,
                    inbox := db'.inbox)
      && db'.inbox.matched == db.inbox.matched && db'.photos.Keys == db.photos.Keys
  {}

  lemma FailureFrame(db: Db, policy: Policy, j: JobId, worker: WorkerId, error: string, retryable: bool, now: Time)
    ensures var db' := RecordValidationFailure(db, policy, j, worker, error, retryable, now).db;
      && db' == db.(validations := db'.validations, photos := db'.photos, inbox := db'.inbox)
      && db'.inbox.matched == db.inbox.matched && db'.photos.Keys == db.photos.Keys
  {}

  /** The reads before an insert never meet two rows: at most one active photo per user and day, and at
      most one holder of a checksum. */
  lemma AtMostOne(db: Db, user: UserId, date: int, checksum: string)
    requires Unique(db)
    ensures |ActiveToday(db, user, date)| <= 1 && |Duplicates(db, user, checksum)| <= 1
  {
    forall p, q | p in ActiveToday(db, user, date) && q in ActiveToday(db, user, date) ensures p == q {
      assert NoClash(db, p, q);
    }
    forall p, q | p in Duplicates(db, user, checksum) && q in Duplicates(db, user, checksum) ensures p == q {
      assert NoClash(db, p, q);
    }
    Singleton(ActiveToday(db, user, date));
    Singleton(Duplicates(db, user, checksum));
  }

  lemma Singleton(s: set<nat>)
    requires forall p, q :: p in s && q in s ==> p == q
    ensures |s| <= 1
  {
    if s != {} {
      var p :| p in s;
      assert s == {p};
    }
  }

  /** With fresh ids an upload is answered by exactly one of three outcomes, each decided by the rows
      the user can see; the unique constraints never have to refuse it. */
  lemma UploadOutcome(db: Db, u: Upload, now: Time, txn: Time)
    requires Consistent(db) && Unique(db)
    requires u.photo !in db.photos && u.validation !in db.validations.rows && u.embeddingJob !in db.embeddingJobs.rows
    ensures var r := InsertPhoto(db, u, now, txn).result;
      var today := exists p :: p in db.photos && db.photos[p].user == u.user && db.photos[p].registeredDate == u.date
                               && Active(db.photos[p].status);
      var again := exists p :: p in db.photos && db.photos[p].user == u.user
                               && db.photos[p].checksum == Some(u.checksum) && Active(db.photos[p].status);
      && (r == Err(TodayPhotoAlreadyExists) <==> today)
      && (r == Err(DuplicatePhoto) <==> !today && again)
      && (r.Ok? <==> !today && !again)
  {
    var released := ReleaseChecksums(db, u.user, u.checksum);
    AtMostOne(db, u.user, u.date, u.checksum);
    forall p ensures PhotoStep(db, released, p) {}
    UniqueKept(db, released);
    AtMostOne(released, u.user, u.date, u.checksum);
    InTheWay(db, released, u);
    if ActiveToday(db, u.user, u.date) == {} && Duplicates(released, u.user, u.checksum) == {} {
      NoConflict(db, released, u, now);
    }
  }

  /** What the two reads before the insert find. */
  lemma InTheWay(db: Db, released: Db, u: Upload)
    requires Consistent(db) && released == ReleaseChecksums(db, u.user, u.checksum)
    ensures ActiveToday(db, u.user, u.date) != {} <==>
            exists p :: p in db.photos && db.photos[p].user == u.user && db.photos[p].registeredDate == u.date
                        && Active(db.photos[p].status)
    ensures Duplicates(released, u.user, u.checksum) != {} <==>
            exists p :: p in db.photos && db.photos[p].user == u.user
                        && db.photos[p].checksum == Some(u.checksum) && Active(db.photos[p].status)
  {
    var today := ActiveToday(db, u.user, u.date);
    var duplicates := Duplicates(released, u.user, u.checksum);
    if p :| p in db.photos && db.photos[p].user == u.user && db.photos[p].registeredDate == u.date
            && Active(db.photos[p].status) {
      assert p in today;
    }
    if p :| p in db.photos && db.photos[p].user == u.user
            && db.photos[p].checksum == Some(u.checksum) && Active(db.photos[p].status) {
      assert p in duplicates;
    }
    if p :| p in duplicates { assert p in db.photos && Active(db.photos[p].status); }
  }

  lemma NoConflict(db: Db, released: Db, u: Upload, now: Time)
    requires Consistent(db) && released == ReleaseChecksums(db, u.user, u.checksum)
    requires u.photo !in db.photos
    requires ActiveToday(db, u.user, u.date) == {} && Duplicates(released, u.user, u.checksum) == {}
    ensures !PhotoConflicts(released, u.photo, UploadedPhoto(u, now))
    ensures u.photo !in db.validations.byPhoto && u.photo !in db.embeddingJobs.byPhoto
  {
    forall p | p in released.photos
      ensures p !in ActiveToday(released, u.user, u.date)
      ensures !(released.photos[p].user == u.user && released.photos[p].checksum == Some(u.checksum))
    {
      assert p !in ActiveToday(db, u.user, u.date) && p !in Duplicates(released, u.user, u.checksum);
    }
    assert ActiveToday(released, u.user, u.date) == {};
  }

  // Pairing.

  /** A match has exactly two participant rows, of two users. */
  predicate MatchPaired(db: Db, m: MatchId) {
    m in db.matches ==>
      && |MatchRows(db, m)| == 2
      && forall p, q :: p in MatchRows(db, m) && q in MatchRows(db, m) && p != q ==>
           db.participants[p].user != db.participants[q].user
  }

  /** Every participant has been told of its match exactly once, and nobody else has. */
  predicate Notified(db: Db, n: Note) {
    db.inbox.matched[n] == |MyRows(db, n.user, n.target)|
  }

  ghost predicate Paired(db: Db) {
    && (forall p :: p in db.participants ==> db.participants[p].matchId in db.matches)
    && (forall m {:trigger MatchPaired(db, m)} :: MatchPaired(db, m))
    && (forall n {:trigger Notified(db, n)} :: Notified(db, n))
    && |db.participants| == 2 * |db.matches|
    && |db.inbox.matched| == |db.participants|
  }

  lemma PairedElsewhere(db: Db, db': Db)
    requires Paired(db)
    requires db'.matches == db.matches && db'.participants == db.participants && db'.inbox.matched == db.inbox.matched
    ensures Paired(db')
  {
    forall m ensures MatchPaired(db', m) {
      assert MatchPaired(db, m) && MatchRows(db', m) == MatchRows(db, m);
    }
    forall n ensures Notified(db', n) {
      assert Notified(db, n) && MyRows(db', n.user, n.target) == MyRows(db, n.user, n.target);
    }
  }

  lemma HidePaired(db: Db, u: UserId, m: MatchId, at: Option<Time>)
    requires Paired(db)
    ensures Paired(SetHidden(db, u, m, at))
  {
    var db' := SetHidden(db, u, m, at);
    assert db'.participants.Keys == db.participants.Keys;
    assert |db'.participants| == |db'.participants.Keys| == |db.participants.Keys| == |db.participants|;
    forall k ensures MatchPaired(db', k) {
      assert MatchPaired(db, k) && MatchRows(db', k) == MatchRows(db, k);
    }
    forall n ensures Notified(db', n) {
      assert Notified(db, n) && MyRows(db', n.user, n.target) == MyRows(db, n.user, n.target);
    }
  }

  lemma NewMatchRows(db: Db, a: PhotoId, b: PhotoId, m: MatchId, explanation: string, txn: Time, k: MatchId, u: UserId)
    requires Paired(db) && a in db.photos && b in db.photos && a != b && db.photos[a].user != db.photos[b].user
    requires m !in db.matches && a !in db.participants && b !in db.participants
    ensures var db' := RecordMatch(db, a, b, m, explanation, txn);
      && MatchRows(db', k) == (if k == m then {a, b} else MatchRows(db, k))
      && MyRows(db', u, k) == (if k == m && u == db.photos[a].user then {a}
                               else if k == m && u == db.photos[b].user then {b}
                               else if k == m then {}
                               else MyRows(db, u, k))
      && (k == m ==> MyRows(db, u, k) == {})
  {}

  lemma RecordMatchCounts(db: Db, a: PhotoId, b: PhotoId, m: MatchId, explanation: string, txn: Time)
    requires a in db.photos && b in db.photos && a != b
    requires m !in db.matches && a !in db.participants && b !in db.participants
    ensures var db' := RecordMatch(db, a, b, m, explanation, txn);
      && |db'.participants| == |db.participants| + 2
      && |db'.matches| == |db.matches| + 1
      && |db'.inbox.matched| == |db.inbox.matched| + 2
  {
    var db' := RecordMatch(db, a, b, m, explanation, txn);
    MapGrows(db.participants, a, Participant(m, db.photos[a].user, None));
    MapGrows(db.participants[a := Participant(m, db.photos[a].user, None)], b, Participant(m, db.photos[b].user, None));
    MapGrows(db.matches, m, Match(explanation, txn));
  }

  lemma MapGrows<K, V>(m: map<K, V>, k: K, v: V)
    requires k !in m
    ensures |m[k := v]| == |m| + 1
  {
    assert m[k := v].Keys == m.Keys + {k};
    assert |m| == |m.Keys| && |m[k := v]| == |m[k := v].Keys|;
  }

  lemma RecordMatchNotifies(db: Db, a: PhotoId, b: PhotoId, m: MatchId, explanation: string, txn: Time, n: Note)
    requires Paired(db) && a in db.photos && b in db.photos && a != b && db.photos[a].user != db.photos[b].user
    requires m !in db.matches && a !in db.participants && b !in db.participants
    ensures Notified(RecordMatch(db, a, b, m, explanation, txn), n)
  {
    NewMatchRows(db, a, b, m, explanation, txn, n.target, n.user);
    assert Notified(db, n);
  }

  lemma RecordMatchPairs(db: Db, a: PhotoId, b: PhotoId, m: MatchId, explanation: string, txn: Time, k: MatchId)
    requires Paired(db) && a in db.photos && b in db.photos && a != b && db.photos[a].user != db.photos[b].user
    requires m !in db.matches && a !in db.participants && b !in db.participants
    ensures MatchPaired(RecordMatch(db, a, b, m, explanation, txn), k)
  {
    NewMatchRows(db, a, b, m, explanation, txn, k, 0);
    assert MatchPaired(db, k);
    if k == m { assert |{a, b}| == 2; }
  }

  lemma RecordMatchPaired(db: Db, a: PhotoId, b: PhotoId, m: MatchId, explanation: string, txn: Time)
    requires Paired(db) && a in db.photos && b in db.photos && a != b && db.photos[a].user != db.photos[b].user
    requires m !in db.matches && a !in db.participants && b !in db.participants
    ensures Paired(RecordMatch(db, a, b, m, explanation, txn))
  {
    var db' := RecordMatch(db, a, b, m, explanation, txn);
    forall k ensures MatchPaired(db', k) {
      RecordMatchPairs(db, a, b, m, explanation, txn, k);
    }
    forall n ensures Notified(db', n) {
      RecordMatchNotifies(db, a, b, m, explanation, txn, n);
    }
    RecordMatchCounts(db, a, b, m, explanation, txn);
  }

  lemma StepPaired(c: Config, s: Sys, step: Step)
    requires Enabled(c, s, step) && Paired(s.db)
    ensures Paired(Next(c, s, step).db)
  {
    if step.Pair? {
      FinalizePaired(s.db, step.a, step.b, step.m, step.explanation, step.now, step.txn, step.blocked);
    } else if step.Hide? {
      HidePaired(s.db, step.user, step.m, step.hiddenAt);
    } else {
      if step.SendCard? { SendMatches(s.db, step.user, step.m, step.content, step.key, step.id, step.sentAt); }
      else { OtherMatches(c, s, step); }
      PairedElsewhere(s.db, Next(c, s, step).db);
    }
  }

  lemma FinalizePaired(db: Db, a: PhotoId, b: PhotoId, m: MatchId, explanation: string, now: Time, txn: Time,
                       blocked: bool)
    requires Paired(db)
    ensures Paired(Finalize(db, a, b, m, explanation, now, txn, blocked).db)
  {
    if Finalize(db, a, b, m, explanation, now, txn, blocked).result.Ok? {
      RecordMatchPaired(db, a, b, m, explanation, txn);
    }
  }

  lemma SendMatches(db: Db, u: UserId, m: MatchId, content: string, key: Option<nat>, id: PostcardId, at: Time)
    ensures var db' := SendLocked(db, u, m, content, key, id, at).db;
      db'.matches == db.matches && db'.participants == db.participants && db'.inbox.matched == db.inbox.matched
  {}

  lemma OtherMatches(c: Config, s: Sys, step: Step)
    requires Enabled(c, s, step) && !step.Pair? && !step.Hide? && !step.SendCard?
    ensures var db, db' := s.db, Next(c, s, step).db;
      db'.matches == db.matches && db'.participants == db.participants && db'.inbox.matched == db.inbox.matched
  {
    if IsJobStep(step) { JobMatches(c, s, step); }
    else if step.DropCard? { DropFrame(s.db, step.user, step.card, step.now); }
  }

  lemma JobMatches(c: Config, s: Sys, step: Step)
    requires Enabled(c, s, step) && IsJobStep(step)
    ensures var db, db' := s.db, Next(c, s, step).db;
      db'.matches == db.matches && db'.participants == db.participants && db'.inbox.matched == db.inbox.matched
  {
    if step.ValidationResult? {
      VerdictFrame(s.db, ValidationPolicy(c), step.job, step.verdict, step.code, step.sender, step.embeddingJob,
                   step.now, step.txn);
    } else if step.ValidationFailure? {
      FailureFrame(s.db, ValidationPolicy(c), step.job, step.worker, step.error, step.retryable, step.now);
    } else if step.EmbeddingResult? || step.EmbeddingFailure? {
      ReportMatches(c, s, step);
    } else {
      ClaimMatches(c, s, step);
    }
  }

  lemma ReportMatches(c: Config, s: Sys, step: Step)
    requires Enabled(c, s, step) && (step.EmbeddingResult? || step.EmbeddingFailure?)
    ensures var db, db' := s.db, Next(c, s, step).db;
      db'.matches == db.matches && db'.participants == db.participants && db'.inbox.matched == db.inbox.matched
  {
    if step.EmbeddingResult? {
      EmbeddingResultFrame(s.db, EmbeddingPolicy(c), step.job, step.worker, step.embedding, step.now);
    } else {
      EmbeddingFailureFrame(s.db, EmbeddingPolicy(c), step.job, step.worker, step.error, step.retryable, step.now);
    }
  }

  lemma EmbeddingResultFrame(db: Db, policy: Policy, j: JobId, worker: WorkerId, embedding: Embedding, now: Time)
    ensures var db' := ApplyEmbeddingResult(db, policy, j, worker, embedding, now).db;
      && db' == db.(embeddings := db'.embeddings, embeddingJobs := db'.embeddingJobs)
      && db'.embeddingJobs.rows.Keys == db.embeddingJobs.rows.Keys
  {}

  lemma EmbeddingFailureFrame(db: Db, policy: Policy, j: JobId, worker: WorkerId, error: string, retryable: bool,
                              now: Time)
    ensures var db' := RecordEmbeddingFailure(db, policy, j, worker, error, retryable, now).db;
      && db' == db.(embeddingJobs := db'.embeddingJobs)
      && db'.embeddingJobs.rows.Keys == db.embeddingJobs.rows.Keys
  {}

  lemma ClaimMatches(c: Config, s: Sys, step: Step)
    requires Enabled(c, s, step)
    requires step.BeginValidationClaim? || step.BeginEmbeddingClaim?
             || step.CommitValidationClaim? || step.CommitEmbeddingClaim?
    ensures var db, db' := s.db, Next(c, s, step).db;
      db'.matches == db.matches && db'.participants == db.participants && db'.inbox.matched == db.inbox.matched
  {}

  // Every reachable state.

  ghost predicate Inv(c: Config, s: Sys) {
    Consistent(s.db) && ClaimsOk(c, s) && Unique(s.db) && Paired(s.db)
  }

  lemma StepInv(c: Config, s: Sys, step: Step)
    requires Enabled(c, s, step) && Inv(c, s)
    ensures Inv(c, Next(c, s, step))
  {
    if IsJobStep(step) { JobStepConsistent(c, s, step); } else { OtherStepConsistent(c, s, step); }
    StepKeepsClaims(c, s, step);
    StepUnique(c, s, step);
    StepPaired(c, s, step);
  }

  lemma StartInv(c: Config)
    ensures Inv(c, START)
  {
    forall p ensures Agree(START.db, p) {}
    forall j ensures ValidationClaimOk(c, START, j) && EmbeddingClaimOk(c, START, j) {}
    forall p, q ensures NoClash(START.db, p, q) {}
    forall m ensures MatchPaired(START.db, m) {}
    forall n ensures Notified(START.db, n) {
      assert MyRows(START.db, n.user, n.target) == {};
    }
  }

  /** The invariant holds in every reachable state. */
  lemma {:induction false} RunInv(c: Config, steps: seq<Step>)
    requires Run(c, steps).Some?
    ensures Inv(c, Run(c, steps).value)
  {
    if steps == [] {
      StartInv(c);
    } else {
      var n := |steps| - 1;
      RunInv(c, steps[..n]);
      StepInv(c, Run(c, steps[..n]).value, steps[n]);
    }
  }
}
