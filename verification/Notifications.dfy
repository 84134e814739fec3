/** Who has been told what: the notifications about a photo follow from its state. */
module Notifications {
  import opened Results
  import opened Leases
  import opened Queues
  import opened Tables
  import opened Pipeline
  import opened Runs

  /** What is known about the photo a notification is about, if it belongs to the notified user. */
  datatype Fact = Fact(mine: bool, status: PhotoStatus, code: Option<string>, validation: JobStatus<Verdict>)

  function FactOf(db: Db, n: Note): Fact {
    if n.target in db.photos && db.photos[n.target].user == n.user then
      var row := RowFor(db.validations, n.target);
      Fact(true, db.photos[n.target].status, db.photos[n.target].rejectionCode,
           if row.Some? then row.value.status else Pending)
    else Fact(false, Validating, None, Pending)
  }

  predicate Undecided(f: Fact) { f.validation.Pending? || f.validation.Processing? }

  /** Once for a passed validation; once for a rejection or a validation that has failed for good while
      the photo waited for it, but not for a timeout; once for a search that has ended. `ended` tells
      whether the photo has ever been EXPIRED. */
  predicate Entitled(f: Fact, ended: bool, passed: nat, rejected: nat, expired: nat) {
    && (f.mine && Undecided(f) ==> f.code != Some("VALIDATION_FAILED"))
    && passed == (if f.mine && f.validation == Done(PASSED) then 1 else 0)
    && rejected == (if f.mine && (f.validation == Done(REJECTED)
                                  || (f.validation.Failed? && f.code == Some("VALIDATION_FAILED"))) then 1 else 0)
    && expired == (if f.mine && ended then 1 else 0)
    && (f.mine && f.status.Expired? ==> ended)
    && (f.mine && ended ==> f.status.Expired? || f.status.Deleted?)
  }

  predicate Told(db: Db, n: Note, ended: bool) {
    && Entitled(FactOf(db, n), ended, db.inbox.validationPassed[n], db.inbox.photoRejected[n],
                db.inbox.searchExpired[n])
    && (ended ==> n.target in db.photos)
  }

  /** What has been told after a transaction: the photo may just have become EXPIRED. */
  predicate ToldAfter(db: Db, n: Note, ended: bool) {
    Told(db, n, ended || IsExpired(db, n.target))
  }

  predicate IsExpired(db: Db, p: PhotoId) { p in db.photos && db.photos[p].status.Expired? }

  /** A photo, its validation, and what they are as facts. */
  lemma FactIs(db: Db, n: Note)
    requires Consistent(db) && FactOf(db, n).mine
    ensures n.target in db.photos && RowFor(db.validations, n.target).Some?
    ensures var f, w := FactOf(db, n), ViewOf(db, n.target);
      f.status == w.photo.status && f.code == w.photo.rejectionCode && f.validation == w.validation.value.status
    ensures FactOf(db, n).status.Validating? ==> Undecided(FactOf(db, n))
    ensures Undecided(FactOf(db, n)) ==>
      FactOf(db, n).status.Validating? || FactOf(db, n).status.Rejected? || FactOf(db, n).status.Deleted?
  {
    assert Agree(db, n.target);
    match FactOf(db, n).validation
    case Done(verdict) => assert verdict == PASSED || verdict == REJECTED;
    case _ =>
  }

  lemma SweepTold(db: Db, u: UserId, now: Time, n: Note, ended: bool)
    requires Consistent(db) && Told(db, n, ended)
    ensures ToldAfter(ExpireStaleValidations(db, u, now), n, ended)
  {
    if FactOf(db, n).mine { FactIs(db, n); }
  }

  /** Nothing is known or told anew. */
  lemma Unaffected(db: Db, db': Db, n: Note, ended: bool)
    requires Told(db, n, ended) && FactOf(db', n) == FactOf(db, n) && db.photos.Keys <= db'.photos.Keys
    requires db'.inbox.validationPassed[n] == db.inbox.validationPassed[n]
    requires db'.inbox.photoRejected[n] == db.inbox.photoRejected[n]
    requires db'.inbox.searchExpired[n] == db.inbox.searchExpired[n]
    ensures ToldAfter(db', n, ended)
  {}

  lemma DeleteTold(db: Db, u: UserId, q: PhotoId, now: Time, n: Note, ended: bool)
    requires Consistent(db) && Told(db, n, ended)
    ensures ToldAfter(DeletePhoto(db, u, q, now).db, n, ended)
  {
    var db' := DeletePhoto(db, u, q, now).db;
    if DeletePhoto(db, u, q, now).result.Ok? && n == Note(db.photos[q].user, q) {
      assert FactOf(db', n) == FactOf(db, n).(status := Deleted);
    } else {
      assert FactOf(db', n) == FactOf(db, n);
      Unaffected(db, db', n, ended);
    }
  }

  lemma ExpireTold(db: Db, now: Time, n: Note, ended: bool)
    requires Consistent(db) && Told(db, n, ended)
    ensures ToldAfter(ExpireDue(db, now).db, n, ended)
  {
    NoticesCount(db, Due(db, now), n);
  }

  /** The sweep tells the owner of each photo that it expires, once, and nobody else: a notification is new
      if and only if its photo belongs to its user and was turned from SEARCHING to EXPIRED. */
  lemma ExpireNotifies(db: Db, now: Time, n: Note)
    ensures var db' := ExpireDue(db, now).db;
      db'.inbox.searchExpired[n]
      == db.inbox.searchExpired[n]
         + if !IsExpired(db, n.target) && IsExpired(db', n.target) && db.photos[n.target].user == n.user then 1 else 0
  {
    NoticesCount(db, Due(db, now), n);
  }

  lemma NoticesCount(db: Db, ids: set<PhotoId>, n: Note)
    requires ids <= db.photos.Keys
    ensures Notices(db, ids)[n] == if n.target in ids && db.photos[n.target].user == n.user then 1 else 0
  {
    var notes := set p | p in ids :: Note(db.photos[p].user, p);
    assert n in notes <==> n.target in ids && db.photos[n.target].user == n.user;
  }

  lemma UploadTold(db: Db, u: Upload, now: Time, txn: Time, n: Note, ended: bool)
    requires Consistent(db) && Told(db, n, ended)
    ensures ToldAfter(InsertPhoto(db, u, now, txn).db, n, ended)
  {
    var db' := InsertPhoto(db, u, now, txn).db;
    if db' != db {
      var released := ReleaseChecksums(db, u.user, u.checksum);
      assert FactOf(released, n) == FactOf(db, n);
      CommitTold(db, released, u, now, txn, n, ended);
    }
  }

  lemma CommitTold(db: Db, released: Db, u: Upload, now: Time, txn: Time, n: Note, ended: bool)
    requires Linked(db) && Told(db, n, ended) && FactOf(released, n) == FactOf(db, n)
    requires released == db.(photos := released.photos) && released.photos.Keys == db.photos.Keys
    ensures ToldAfter(CommitUpload(db, released, u, now, txn).db, n, ended)
  {
    var r := CommitUpload(db, released, u, now, txn);
    if r.result.Ok? {
      InsertKeeps(db.validations, u.validation, UploadedValidation(u, now, txn));
      if n != Note(u.user, u.photo) {
        assert FactOf(r.db, n) == FactOf(db, n);
        Unaffected(db, r.db, n, ended);
      }
    } else {
      Unaffected(db, r.db, n, ended);
    }
  }

  lemma SettleTold(db: Db, j: JobId, claim: InFlight, n: Note, ended: bool)
    requires Consistent(db) && Told(db, n, ended) && j in db.validations.rows && db.validations.rows[j].Open()
    ensures ToldAfter(SettleValidation(db, j, claim), n, ended)
  {
    UpdateKeeps(db.validations, j, Settle(db.validations.rows[j], claim));
    ValidationView(db, j);
  }

  /** What a transaction on one validation row and its photo does to the facts. */
  lemma FactAfter(db: Db, db': Db, j: JobId, job: Job<Verdict>, photo: Photo, n: Note)
    requires Consistent(db) && j in db.validations.rows && job.photo == db.validations.rows[j].photo
    requires job.photo in db.photos && photo.user == db.photos[job.photo].user
    requires db'.validations == Update(db.validations, j, job) && db'.photos == db.photos[job.photo := photo]
    ensures FactOf(db', n) == if n
            == Note(photo.user, job.photo) then Fact(true, photo.status, photo.rejectionCode, job.status)
                              else FactOf(db, n)
  {
    UpdateKeeps(db.validations, j, job);
  }

  lemma VerdictTold(db: Db, policy: Policy, j: JobId, verdict: Verdict, code: Option<string>,
                    sender: Option<WorkerId>, e: JobId, now: Time, txn: Time, n: Note, ended: bool)
    requires Consistent(db) && Told(db, n, ended)
    ensures ToldAfter(ApplyValidationResult(db, policy, j, verdict, code, sender, e, now, txn).db, n, ended)
  {
    if ApplyValidationResult(db, policy, j, verdict, code, sender, e, now, txn).db != db {
      CommitVerdictTold(db, policy, j, verdict, code, e, now, txn, n, ended);
    }
  }

  lemma CommitVerdictTold(db: Db, policy: Policy, j: JobId, verdict: Verdict, code: Option<string>,
                          e: JobId, now: Time, txn: Time, n: Note, ended: bool)
    requires Consistent(db) && Told(db, n, ended) && j in db.validations.rows && db.validations.rows[j].Open()
    requires db.validations.rows[j].photo in Validatable(db)
    ensures ToldAfter(CommitVerdict(db, policy, j, verdict, code, e, now, txn).db, n, ended)
  {
    var r := CommitVerdict(db, policy, j, verdict, code, e, now, txn);
    if r.result.Ok? {
      var job := Leases.Delivered(db.validations.rows[j], verdict, policy, now);
      ValidationView(db, j);
      FactAfter(db, r.db, j, job, r.db.photos[job.photo], n);
    }
  }

  lemma FailureTold(db: Db, policy: Policy, j: JobId, worker: WorkerId, error: string, retryable: bool, now: Time,
                    n: Note, ended: bool)
    requires Consistent(db) && Told(db, n, ended)
    ensures ToldAfter(RecordValidationFailure(db, policy, j, worker, error, retryable, now).db, n, ended)
  {
    var db' := RecordValidationFailure(db, policy, j, worker, error, retryable, now).db;
    if db' != db {
      var job := db.validations.rows[j];
      var failed := FailedAttempt(job, error, retryable, policy, now);
      ValidationView(db, j);
      FailureWrites(db, policy, j, worker, error, retryable, now);
      FactAfter(db, db', j, failed, AfterFailure(db.photos[job.photo], failed), n);
      var f := FactOf(db, n);
      if n == Note(db.photos[job.photo].user, job.photo) { FactIs(db, n); }
    }
  }

  /** Only a failure for good of a photo that waits for it writes the photo, and tells its owner. */
  lemma FailureWrites(db: Db, policy: Policy, j: JobId, worker: WorkerId, error: string, retryable: bool, now: Time)
    requires j in db.validations.rows && db.validations.rows[j].photo in db.photos
    requires RecordValidationFailure(db, policy, j, worker, error, retryable, now).db != db
    ensures var db' := RecordValidationFailure(db, policy, j, worker, error, retryable, now).db;
      var job := db.validations.rows[j];
      var failed := FailedAttempt(job, error, retryable, policy, now);
      && db'.validations == Update(db.validations, j, failed)
      && db'.photos == db.photos[job.photo := AfterFailure(db.photos[job.photo], failed)]
      && job.status.Processing?
      && db'.inbox == if failed.status.Failed? && db.photos[job.photo].status.Validating?
                      then db.inbox.(photoRejected := db.inbox.photoRejected
                                                      + multiset{Note(db.photos[job.photo].user, job.photo)})
                      else db.inbox
  {
    var p := db.validations.rows[j].photo;
    assert db.photos[p := db.photos[p]] == db.photos;
  }

  lemma PairTold(db: Db, a: PhotoId, b: PhotoId, m: MatchId, explanation: string, now: Time, txn: Time, blocked: bool,
                 n: Note, ended: bool)
    requires Told(db, n, ended)
    ensures ToldAfter(Finalize(db, a, b, m, explanation, now, txn, blocked).db, n, ended)
  {
    var db' := Finalize(db, a, b, m, explanation, now, txn, blocked).db;
    if Finalize(db, a, b, m, explanation, now, txn, blocked).result.Ok? && n.target in {a, b} && FactOf(db, n).mine {
      assert FactOf(db', n) == FactOf(db, n).(status := Matched);
    } else {
      assert FactOf(db', n) == FactOf(db, n);
      Unaffected(db, db', n, ended);
    }
  }

  predicate Quiet(step: Step) {
    || step.SetAccount? || step.BeginValidationClaim? || step.BeginEmbeddingClaim? || step.CommitEmbeddingClaim?
    || step.EmbeddingResult? || step.EmbeddingFailure? || step.Hide? || step.AddBlock? || step.RemoveBlock?
    || step.SendCard? || step.DropCard?
  }

  /** Steps that touch neither a photo nor a validation. */
  lemma QuietStep(c: Config, s: Sys, step: Step)
    requires Enabled(c, s, step) && Quiet(step)
    ensures var db, db' := s.db, Next(c, s, step).db;
      && db'.photos == db.photos && db'.validations == db.validations
      && db'.inbox == db.inbox.(postcardReceived := db'.inbox.postcardReceived)
  {
    if step.SendCard? { SendInbox(s.db, step.user, step.m, step.content, step.key, step.id, step.sentAt); }
    else if step.DropCard? { DropFrame(s.db, step.user, step.card, step.now); }
  }

  lemma SendInbox(db: Db, u: UserId, m: MatchId, content: string, key: Option<nat>, id: PostcardId, at: Time)
    ensures var db' := SendLocked(db, u, m, content, key, id, at).db;
      && db'.photos == db.photos && db'.validations == db.validations
      && db'.inbox == db.inbox.(postcardReceived := db'.inbox.postcardReceived)
  {}

  lemma QuietTold(c: Config, s: Sys, step: Step, n: Note, ended: bool)
    requires Enabled(c, s, step) && Told(s.db, n, ended) && Quiet(step)
    ensures ToldAfter(Next(c, s, step).db, n, ended)
  {
    QuietStep(c, s, step);
    Unaffected(s.db, Next(c, s, step).db, n, ended);
  }

  lemma StepTold(c: Config, s: Sys, step: Step, n: Note, ended: bool)
    requires Enabled(c, s, step) && Inv(c, s) && Told(s.db, n, ended)
    ensures ToldAfter(Next(c, s, step).db, n, ended)
  {
    var db := s.db;
    if step.Sweep? { SweepTold(db, step.user, step.now, n, ended); }
    else if step.PutPhoto? { UploadTold(db, step.upload, step.now, step.txn, n, ended); }
    else if step.Remove? { DeleteTold(db, step.user, step.photo, step.now, n, ended); }
    else if step.Expire? { ExpireTold(db, step.now, n, ended); }
    else if step.CommitValidationClaim? {
      assert ValidationClaimOk(c, s, step.job);
      SettleTold(db, step.job, s.validationClaims[step.job], n, ended);
    }
    else if step.ValidationResult? {
      VerdictTold(db, ValidationPolicy(c), step.job, step.verdict, step.code, step.sender, step.embeddingJob, step.now,
                  step.txn, n, ended);
    }
    else if step.ValidationFailure? {
      FailureTold(db, ValidationPolicy(c), step.job, step.worker, step.error, step.retryable, step.now, n, ended);
    }
    else if step.Pair? {
      PairTold(db, step.a, step.b, step.m, step.explanation, step.now, step.txn, step.blocked, n, ended);
    }
    else { QuietTold(c, s, step, n, ended); }
  }

  /** The photo has been EXPIRED at some moment of the run. */
  predicate WasExpired(c: Config, steps: seq<Step>, p: PhotoId)
    requires Run(c, steps).Some?
  {
    IsExpired(Run(c, steps).value.db, p)
    || (steps != [] && WasExpired(c, steps[..|steps| - 1], p))
  }

  lemma {:induction false} WasExpiredMeans(c: Config, steps: seq<Step>, p: PhotoId)
    requires Run(c, steps).Some?
    ensures WasExpired(c, steps, p) <==> exists i :: 0 <= i <= |steps| && ExpiredAt(c, steps, i, p)
    decreases |steps|
  {
    assert steps[..|steps|] == steps;
    if steps != [] {
      var n := |steps| - 1;
      WasExpiredMeans(c, steps[..n], p);
      assert forall i :: 0 <= i <= n ==> steps[..n][..i] == steps[..i];
      if i :| 0 <= i <= |steps| && ExpiredAt(c, steps, i, p) {
        if i <= n { assert ExpiredAt(c, steps[..n], i, p); }
      }
      if i :| 0 <= i <= n && ExpiredAt(c, steps[..n], i, p) { assert ExpiredAt(c, steps, i, p); }
    }
    if IsExpired(Run(c, steps).value.db, p) { assert ExpiredAt(c, steps, |steps|, p); }
  }

  predicate ExpiredAt(c: Config, steps: seq<Step>, i: nat, p: PhotoId)
    requires i <= |steps|
  {
    Run(c, steps[..i]).Some? && IsExpired(Run(c, steps[..i]).value.db, p)
  }

  lemma {:induction false} RunTold(c: Config, steps: seq<Step>, n: Note)
    requires Run(c, steps).Some?
    ensures Told(Run(c, steps).value.db, n, WasExpired(c, steps, n.target))
    decreases |steps|
  {
    if steps != [] {
      var k := |steps| - 1;
      RunInv(c, steps[..k]);
      RunTold(c, steps[..k], n);
      StepTold(c, Run(c, steps[..k]).value, steps[k], n, WasExpired(c, steps[..k], n.target));
    }
  }

  /** In every reachable state each user has been told about the fate of each of their photos exactly once,
      and about nobody else's: of the search that has ended, if and only if the photo was EXPIRED at some
      moment of the run, whatever has become of it since. */
  lemma EverybodyIsTold(c: Config, steps: seq<Step>, n: Note)
    requires Run(c, steps).Some?
    ensures var db := Run(c, steps).value.db;
      var f := FactOf(db, n);
      && db.inbox.validationPassed[n] == (if f.mine && f.validation == Done(PASSED) then 1 else 0)
      && db.inbox.photoRejected[n] == (if f.mine && (f.validation == Done(REJECTED)
           || (f.validation.Failed? && f.code == Some("VALIDATION_FAILED"))) then 1 else 0)
      && (db.inbox.searchExpired[n] <= 1)
      && (db.inbox.searchExpired[n] == 1
          <==> f.mine && exists i :: 0 <= i <= |steps| && ExpiredAt(c, steps, i, n.target))
  {
    RunTold(c, steps, n);
    WasExpiredMeans(c, steps, n.target);
  }
}
