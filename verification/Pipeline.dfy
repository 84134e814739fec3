/** The backend as a state machine: every committed transaction is a step, in any order and number.
    A claim is two steps, because it reads its photo without a lock: other transactions may change
    the photo between that read and the commit. */
module Pipeline {
  import opened Results
  import opened Ordering
  import opened Leases
  import opened Queues
  import opened Similarity
  import opened Tables

  datatype Config = Config(lease: Time, maxAttempts: int, retryBase: Time)

  function ValidationPolicy(c: Config): Policy { Policy(ValidationQueue, c.lease, c.maxAttempts, c.retryBase) }

  function EmbeddingPolicy(c: Config): Policy { Policy(EmbeddingQueue, c.lease, c.maxAttempts, c.retryBase) }

  /** A claim that has locked its row and read its photo, but not committed. */
  datatype InFlight = InFlight(worker: WorkerId, at: Time, available: bool)

  datatype Sys = Sys(db: Db, validationClaims: map<JobId, InFlight>, embeddingClaims: map<JobId, InFlight>, clock: Time)

  const START := Sys(EMPTY_DB, map[], map[], 0)

  datatype Step =
    | SetAccount(user: UserId, account: Account)
    | Sweep(user: UserId, now: Time)
    | PutPhoto(upload: Upload, now: Time, txn: Time)
    | Remove(user: UserId, photo: PhotoId, now: Time)
    | Expire(now: Time)
    | BeginValidationClaim(job: JobId, worker: WorkerId, now: Time)
    | CommitValidationClaim(job: JobId)
    | ValidationResult(job: JobId, verdict: Verdict, code: Option<string>, sender: Option<WorkerId>,
                       embeddingJob: JobId, now: Time, txn: Time)
    | ValidationFailure(job: JobId, worker: WorkerId, error: string, retryable: bool, now: Time)
    | BeginEmbeddingClaim(job: JobId, worker: WorkerId, now: Time)
    | CommitEmbeddingClaim(job: JobId)
    | EmbeddingResult(job: JobId, worker: WorkerId, embedding: Embedding, now: Time)
    | EmbeddingFailure(job: JobId, worker: WorkerId, error: string, retryable: bool, now: Time)
    | Pair(a: PhotoId, b: PhotoId, m: MatchId, explanation: string, now: Time, txn: Time, blocked: bool)
    | Hide(user: UserId, m: MatchId, hiddenAt: Option<Time>)
    | AddBlock(blocker: UserId, other: UserId)
    | RemoveBlock(blocker: UserId, other: UserId)
    | SendCard(user: UserId, m: MatchId, content: string, key: Option<nat>, id: PostcardId, sentAt: Time)
    | DropCard(user: UserId, card: PostcardId, now: Time)

  /** When a step can happen: the clock does not run backwards, a transaction waits for a job row that
      a claim holds, and only photos with embeddings are offered to `finalize`. An upload may have read
      the clock some time before it commits. */
  predicate Enabled(c: Config, s: Sys, step: Step) {
    match step
    case BeginValidationClaim(j, _, now) =>
      var jobs := Claimable(s.db.validations.rows, s.validationClaims.Keys, c.lease, now);
      s.clock <= now && j in jobs && j == Oldest(s.db.validations.rows, jobs)
    case CommitValidationClaim(j) => j in s.validationClaims && j in s.db.validations.rows
    case ValidationResult(j, _, _, _, _, now, _) => s.clock <= now && j !in s.validationClaims
    case ValidationFailure(j, _, _, _, now) => s.clock <= now && j !in s.validationClaims
    case BeginEmbeddingClaim(j, _, now) =>
      var jobs := Claimable(s.db.embeddingJobs.rows, s.embeddingClaims.Keys, c.lease, now);
      s.clock <= now && j in jobs && j == Oldest(s.db.embeddingJobs.rows, jobs)
    case CommitEmbeddingClaim(j) => j in s.embeddingClaims && j in s.db.embeddingJobs.rows
    case EmbeddingResult(j, _, _, now) => s.clock <= now && j !in s.embeddingClaims
    case EmbeddingFailure(j, _, _, _, now) => s.clock <= now && j !in s.embeddingClaims
    case Pair(a, b, _, _, now, _, _) => s.clock <= now && a in s.db.embeddings && b in s.db.embeddings
    case Sweep(_, now) => s.clock <= now
    case Remove(_, _, now) => s.clock <= now
    case Expire(now) => s.clock <= now
    case _ => true
  }

  function Settle<V>(job: Job<V>, claim: InFlight): Job<V> {
    if claim.available then Claimed(job, claim.worker, claim.at) else Retired(job, claim.at)
  }

  function BeginValidation(s: Sys, j: JobId, worker: WorkerId, now: Time): Sys
    requires j in s.db.validations.rows
  {
    var available := s.db.validations.rows[j].photo in Validatable(s.db);
    s.(validationClaims := s.validationClaims[j := InFlight(worker, now, available)], clock := now)
  }

  function BeginEmbedding(s: Sys, j: JobId, worker: WorkerId, now: Time): Sys
    requires j in s.db.embeddingJobs.rows
  {
    var available := s.db.embeddingJobs.rows[j].photo in Embeddable(s.db);
    s.(embeddingClaims := s.embeddingClaims[j := InFlight(worker, now, available)], clock := now)
  }

  function SettleValidation(db: Db, j: JobId, claim: InFlight): Db
    requires j in db.validations.rows
  {
    db.(validations := Update(db.validations, j, Settle(db.validations.rows[j], claim)))
  }

  function SettleEmbedding(db: Db, j: JobId, claim: InFlight): Db
    requires j in db.embeddingJobs.rows
  {
    db.(embeddingJobs := Update(db.embeddingJobs, j, Settle(db.embeddingJobs.rows[j], claim)))
  }

  function Next(c: Config, s: Sys, step: Step): Sys
    requires Enabled(c, s, step)
  {
    match step
    case SetAccount(u, account) => s.(db := s.db.(accounts := s.db.accounts[u := account]))
    case Sweep(u, now) => s.(db := ExpireStaleValidations(s.db, u, now), clock := now)
    case PutPhoto(u, now, txn) => s.(db := InsertPhoto(s.db, u, now, txn).db)
    case Remove(u, p, now) => s.(db := DeletePhoto(s.db, u, p, now).db, clock := now)
    case Expire(now) => s.(db := ExpireDue(s.db, now).db, clock := now)
    case BeginValidationClaim(j, worker, now) => BeginValidation(s, j, worker, now)
    case CommitValidationClaim(j) =>
      s.(db := SettleValidation(s.db, j, s.validationClaims[j]), validationClaims := s.validationClaims - {j})
    case ValidationResult(j, verdict, code, sender, e, now, txn) =>
      s.(db := ApplyValidationResult(s.db, ValidationPolicy(c), j, verdict, code, sender, e, now, txn).db, clock := now)
    case ValidationFailure(j, worker, error, retryable, now) =>
      s.(db := RecordValidationFailure(s.db, ValidationPolicy(c), j, worker, error, retryable, now).db, clock := now)
    case BeginEmbeddingClaim(j, worker, now) => BeginEmbedding(s, j, worker, now)
    case CommitEmbeddingClaim(j) =>
      s.(db := SettleEmbedding(s.db, j, s.embeddingClaims[j]), embeddingClaims := s.embeddingClaims - {j})
    case EmbeddingResult(j, worker, embedding, now) =>
      s.(db := ApplyEmbeddingResult(s.db, EmbeddingPolicy(c), j, worker, embedding, now).db, clock := now)
    case EmbeddingFailure(j, worker, error, retryable, now) =>
      s.(db := RecordEmbeddingFailure(s.db, EmbeddingPolicy(c), j, worker, error, retryable, now).db, clock := now)
    case Pair(a, b, m, explanation, now, txn, blocked) =>
      s.(db := Finalize(s.db, a, b, m, explanation, now, txn, blocked).db, clock := now)
    case Hide(u, m, at) => s.(db := SetHidden(s.db, u, m, at))
    case AddBlock(a, b) => s.(db := Block(s.db, a, b).db)
    case RemoveBlock(a, b) => s.(db := Unblock(s.db, a, b))
    case SendCard(u, m, content, key, id, sentAt) => s.(db := SendLocked(s.db, u, m, content, key, id, sentAt).db)
    case DropCard(u, card, now) => s.(db := DeletePostcard(s.db, u, card, now).db)
  }

  /** The state after a run from the empty database, if every step could happen. */
  function Run(c: Config, steps: seq<Step>): Option<Sys> {
    if steps == [] then Some(START) else
      match Run(c, steps[..|steps| - 1])
      case None => None
      case Some(s) => if Enabled(c, s, steps[|steps| - 1]) then Some(Next(c, s, steps[|steps| - 1])) else None
  }

  // The invariant.

  ghost predicate Linked(db: Db) {
    && Indexed(db.validations)
    && Indexed(db.embeddingJobs)
    && db.validations.byPhoto.Keys == db.photos.Keys
    && db.embeddingJobs.byPhoto.Keys <= db.photos.Keys
    && db.embeddings.Keys <= db.photos.Keys
    && db.participants.Keys <= db.photos.Keys
  }

  /** Everything stored about one photo. */
  datatype View = View(photo: Photo, validation: Option<Job<Verdict>>, job: Option<Job<Embedded>>, embedded: bool,
                       participant: Option<Participant>)

  function ViewOf(db: Db, p: PhotoId): View
    requires p in db.photos
  {
    View(db.photos[p], RowFor(db.validations, p), RowFor(db.embeddingJobs, p), p in db.embeddings,
         if p in db.participants then Some(db.participants[p]) else None)
  }

  predicate Terminated(s: PhotoStatus) { s.Rejected? || s.Deleted? }

  /** How the rows about one photo agree. */
  predicate Coupled(w: View) {
    && w.validation.Some?
    && CoupledJobs(w.photo.status, w.validation.value, w.job, w.embedded)
    && (w.photo.status.Matched? <==> w.participant.Some?)
    && (w.participant.Some? ==> w.participant.value.user == w.photo.user)
    && CoupledPhoto(w.photo)
  }

  predicate CoupledJobs(s: PhotoStatus, v: Job<Verdict>, e: Option<Job<Embedded>>, embedded: bool) {
    && WellFormed(v)
    && (e.Some? ==> WellFormed(e.value))
    && (v.Open() ==> s.Validating? || Terminated(s))
    && (v.status == Done(PASSED) ==> !s.Validating? && !s.Rejected?)
    && (v.status == Done(REJECTED) || v.status.Failed? ==> Terminated(s))
    && (e.Some? <==> v.status == Done(PASSED))
    && (embedded <==> e.Some? && e.value.status.Done?)
    && (s.Matched? ==> embedded)
  }

  predicate CoupledPhoto(photo: Photo) {
    && (photo.status.Deleted? <==> photo.deletedAt.Some?)
    && (photo.status.Searching? || photo.status.Matched? || photo.status.Expired? ==>
          photo.searchExpiresAt == Some(photo.registeredAt + 7 * DAY))
    && (Active(photo.status) ==> photo.checksum.Some?)
  }

  predicate Agree(db: Db, p: PhotoId) {
    p in db.photos ==> Coupled(ViewOf(db, p))
  }

  ghost predicate Consistent(db: Db) {
    Linked(db) && forall p {:trigger Agree(db, p)} :: Agree(db, p)
  }

  // Each transaction keeps it.

  predicate SameView(db: Db, db': Db, p: PhotoId) {
    p in db'.photos ==> p in db.photos && ViewOf(db', p) == ViewOf(db, p)
  }

  /** A transaction that leaves all but some photos as they are. */
  lemma Frame(db: Db, db': Db, changed: set<PhotoId>)
    requires Consistent(db) && Linked(db')
    requires forall p {:trigger SameView(db, db', p)} :: p !in changed ==> SameView(db, db', p)
    requires forall p {:trigger Agree(db', p)} :: p in changed ==> Agree(db', p)
    ensures Consistent(db')
  {
    forall p ensures Agree(db', p) {
      assert Agree(db, p);
      assert p !in changed ==> SameView(db, db', p);
    }
  }

  /** A transaction that only writes photo rows. */
  lemma PhotosOnly(db: Db, db': Db)
    requires Consistent(db) && db' == db.(photos := db'.photos, inbox := db'.inbox)
    requires db'.photos.Keys == db.photos.Keys
    requires forall p :: p in db.photos ==> Coupled(ViewOf(db, p).(photo := db'.photos[p]))
    ensures Consistent(db')
  {
    forall p ensures Agree(db', p) {
      if p in db.photos {
        assert ViewOf(db', p) == ViewOf(db, p).(photo := db'.photos[p]);
      }
    }
  }

  lemma SweepConsistent(db: Db, u: UserId, now: Time)
    requires Consistent(db)
    ensures Consistent(ExpireStaleValidations(db, u, now))
  {
    var db' := ExpireStaleValidations(db, u, now);
    forall p | p in db.photos ensures Coupled(ViewOf(db, p).(photo := db'.photos[p])) {
      assert Agree(db, p);
    }
    PhotosOnly(db, db');
  }

  lemma DeleteConsistent(db: Db, u: UserId, q: PhotoId, now: Time)
    requires Consistent(db)
    ensures Consistent(DeletePhoto(db, u, q, now).db)
  {
    var r := DeletePhoto(db, u, q, now);
    if r.result.Ok? {
      var w := ViewOf(db, q);
      assert Agree(db, q);
      var photo := w.photo.(status := Deleted, deletedAt := Some(now));
      assert r.db == db.(photos := db.photos[q := photo]);
      forall p | p in db.photos ensures Coupled(ViewOf(db, p).(photo := r.db.photos[p])) {
        assert Agree(db, p);
        if p == q { DeletedView(w, photo); }
      }
      PhotosOnly(db, r.db);
    }
  }

  lemma DeletedView(w: View, photo: Photo)
    requires Coupled(w) && !w.photo.status.Matched?
    requires photo.status.Deleted? && photo.deletedAt.Some? && photo.user == w.photo.user
    ensures Coupled(w.(photo := photo))
  {}

  lemma ExpireConsistent(db: Db, now: Time)
    requires Consistent(db)
    ensures Consistent(ExpireDue(db, now).db)
  {
    var db' := ExpireDue(db, now).db;
    forall p | p in db.photos ensures Coupled(ViewOf(db, p).(photo := db'.photos[p])) {
      assert Agree(db, p);
    }
    PhotosOnly(db, db');
  }

  lemma ReleaseConsistent(db: Db, u: UserId, checksum: string)
    requires Consistent(db)
    ensures Consistent(ReleaseChecksums(db, u, checksum))
  {
    var db' := ReleaseChecksums(db, u, checksum);
    forall p | p in db.photos ensures Coupled(ViewOf(db, p).(photo := db'.photos[p])) {
      assert Agree(db, p);
    }
    PhotosOnly(db, db');
  }

  lemma InsertPhotoConsistent(db: Db, u: Upload, now: Time, txn: Time)
    requires Consistent(db)
    ensures Consistent(InsertPhoto(db, u, now, txn).db)
  {
    var db' := InsertPhoto(db, u, now, txn).db;
    if db' != db {
      var released := ReleaseChecksums(db, u.user, u.checksum);
      ReleaseConsistent(db, u.user, u.checksum);
      CommitUploadConsistent(db, released, u, now, txn);
    }
  }

  lemma CommitUploadConsistent(db: Db, released: Db, u: Upload, now: Time, txn: Time)
    requires Consistent(released) && released == db.(photos := released.photos)
    requires CommitUpload(db, released, u, now, txn).result.Ok?
    ensures Consistent(CommitUpload(db, released, u, now, txn).db)
  {
    var db' := CommitUpload(db, released, u, now, txn).db;
    assert u.photo !in released.photos;
    UploadedView(u, now, txn);
    var validation := UploadedValidation(u, now, txn);
    UploadedViews(released, db', u, validation, NewJob(u.photo, txn));
    Frame(released, db', {u.photo});
  }

  lemma UploadedViews(db: Db, db': Db, u: Upload, validation: Job<Verdict>, job: Job<Embedded>)
    requires Linked(db) && u.photo !in db.photos && validation.photo == u.photo == job.photo && u.photo in db'.photos
    requires Insert(db.validations, u.validation, validation).Some?
    requires u.mockPassed ==> Insert(db.embeddingJobs, u.embeddingJob, job).Some?
    requires db' == db.(photos := db.photos[u.photo := db'.photos[u.photo]],
                        validations := Insert(db.validations, u.validation, validation).value,
                        embeddingJobs := if u.mockPassed then Insert(db.embeddingJobs, u.embeddingJob, job).value
                                         else db.embeddingJobs, inbox := db'.inbox)
    ensures Linked(db')
    ensures ViewOf(db', u.photo)
            == View(db'.photos[u.photo], Some(validation), if u.mockPassed then Some(job) else None, false, None)
    ensures forall p {:trigger SameView(db, db', p)} :: p != u.photo ==> SameView(db, db', p)
  {
    InsertKeeps(db.validations, u.validation, validation);
    if u.mockPassed { InsertKeeps(db.embeddingJobs, u.embeddingJob, job); }
    UploadedLinked(db, db', u.photo);
  }

  lemma UploadedLinked(db: Db, db': Db, id: PhotoId)
    requires Linked(db) && id !in db.photos
    requires db'.photos.Keys == db.photos.Keys + {id} == db'.validations.byPhoto.Keys
    requires db'.embeddingJobs.byPhoto.Keys <= db.embeddingJobs.byPhoto.Keys + {id}
    requires Indexed(db'.validations) && Indexed(db'.embeddingJobs)
    requires db'.embeddings == db.embeddings && db'.participants == db.participants
    ensures Linked(db') && RowFor(db.embeddingJobs, id) == None
  {}

  lemma UploadedView(u: Upload, now: Time, txn: Time)
    ensures Coupled(View(UploadedPhoto(u, now), Some(UploadedValidation(u, now, txn)),
                         if u.mockPassed then Some(NewJob(u.photo, txn)) else None, false, None))
  {}

  function WithValidation(db: Db, j: JobId, job: Job<Verdict>, photo: Photo, inbox: Inbox): Db {
    db.(validations := Update(db.validations, j, job), photos := db.photos[job.photo := photo], inbox := inbox)
  }

  lemma WithValidationViews(db: Db, j: JobId, job: Job<Verdict>, photo: Photo, inbox: Inbox)
    requires Linked(db) && j in db.validations.rows && job.photo == db.validations.rows[j].photo
    ensures job.photo in db.photos
    ensures var db' := WithValidation(db, j, job, photo, inbox);
      && ViewOf(db', job.photo) == ViewOf(db, job.photo).(validation := Some(job), photo := photo)
      && forall p {:trigger SameView(db, db', p)} :: p != job.photo ==> SameView(db, db', p)
  {
    UpdateKeeps(db.validations, j, job);
  }

  lemma WithValidationLinked(db: Db, j: JobId, job: Job<Verdict>, photo: Photo, inbox: Inbox)
    requires Linked(db) && j in db.validations.rows && job.photo == db.validations.rows[j].photo
    ensures Linked(WithValidation(db, j, job, photo, inbox))
  {
    UpdateKeeps(db.validations, j, job);
  }

  /** A transaction that rewrites one validation row, and perhaps its photo. */
  lemma ValidationRowConsistent(db: Db, j: JobId, job: Job<Verdict>, photo: Photo, inbox: Inbox)
    requires Consistent(db) && j in db.validations.rows && job.photo == db.validations.rows[j].photo
    requires job.photo in db.photos && Coupled(ViewOf(db, job.photo).(validation := Some(job), photo := photo))
    ensures Consistent(WithValidation(db, j, job, photo, inbox))
  {
    WithValidationLinked(db, j, job, photo, inbox);
    WithValidationViews(db, j, job, photo, inbox);
    Frame(db, WithValidation(db, j, job, photo, inbox), {job.photo});
  }

  function WithEmbeddingJob(db: Db, j: JobId, job: Job<Embedded>, embeddings: map<PhotoId, Embedding>): Db {
    db.(embeddingJobs := Update(db.embeddingJobs, j, job), embeddings := embeddings)
  }

  lemma WithEmbeddingJobViews(db: Db, j: JobId, job: Job<Embedded>, embeddings: map<PhotoId, Embedding>)
    requires Linked(db) && j in db.embeddingJobs.rows && job.photo == db.embeddingJobs.rows[j].photo
    requires embeddings.Keys == db.embeddings.Keys || embeddings.Keys == db.embeddings.Keys + {job.photo}
    ensures job.photo in db.photos
    ensures var db' := WithEmbeddingJob(db, j, job, embeddings);
      && Linked(db')
      && ViewOf(db', job.photo) == ViewOf(db, job.photo).(job := Some(job), embedded := job.photo in embeddings)
      && forall p {:trigger SameView(db, db', p)} :: p != job.photo ==> SameView(db, db', p)
  {
    UpdateKeeps(db.embeddingJobs, j, job);
  }

  /** A transaction that rewrites one embedding job, and perhaps stores the embedding. */
  lemma EmbeddingRowConsistent(db: Db, j: JobId, job: Job<Embedded>, embeddings: map<PhotoId, Embedding>)
    requires Consistent(db) && j in db.embeddingJobs.rows && job.photo == db.embeddingJobs.rows[j].photo
    requires embeddings.Keys == db.embeddings.Keys || embeddings.Keys == db.embeddings.Keys + {job.photo}
    requires job.photo in db.photos
    requires Coupled(ViewOf(db, job.photo).(job := Some(job), embedded := job.photo in embeddings))
    ensures Consistent(WithEmbeddingJob(db, j, job, embeddings))
  {
    WithEmbeddingJobViews(db, j, job, embeddings);
    Frame(db, WithEmbeddingJob(db, j, job, embeddings), {job.photo});
  }

  /** The photo of a stored job, and what is known about both. */
  lemma ValidationView(db: Db, j: JobId)
    requires Consistent(db) && j in db.validations.rows
    ensures var p := db.validations.rows[j].photo;
      p in db.photos && Coupled(ViewOf(db, p)) && ViewOf(db, p).validation == Some(db.validations.rows[j])
  {
    RowOf(db.validations, j);
    assert Agree(db, db.validations.rows[j].photo);
  }

  lemma EmbeddingView(db: Db, j: JobId)
    requires Consistent(db) && j in db.embeddingJobs.rows
    ensures var p := db.embeddingJobs.rows[j].photo;
      p in db.photos && Coupled(ViewOf(db, p)) && ViewOf(db, p).job == Some(db.embeddingJobs.rows[j])
  {
    RowOf(db.embeddingJobs, j);
    assert Agree(db, db.embeddingJobs.rows[j].photo);
  }

  lemma SettleValidationConsistent(db: Db, j: JobId, claim: InFlight)
    requires Consistent(db) && j in db.validations.rows && db.validations.rows[j].Open()
    requires !claim.available ==> db.validations.rows[j].photo !in Validatable(db)
    ensures Consistent(SettleValidation(db, j, claim))
  {
    var job := db.validations.rows[j];
    var photo := db.photos[job.photo];
    ValidationView(db, j);
    SettledView(ViewOf(db, job.photo), job, claim);
    assert db.photos[job.photo := photo] == db.photos;
    assert SettleValidation(db, j, claim) == WithValidation(db, j, Settle(job, claim), photo, db.inbox);
    ValidationRowConsistent(db, j, Settle(job, claim), photo, db.inbox);
  }

  lemma SettledView(w: View, job: Job<Verdict>, claim: InFlight)
    requires Coupled(w) && w.validation == Some(job) && job.Open()
    requires !claim.available ==> !w.photo.status.Validating?
    ensures Coupled(w.(validation := Some(Settle(job, claim)), photo := w.photo))
  {}

  lemma SettleEmbeddingConsistent(db: Db, j: JobId, claim: InFlight)
    requires Consistent(db) && j in db.embeddingJobs.rows && db.embeddingJobs.rows[j].Open()
    ensures Consistent(SettleEmbedding(db, j, claim))
  {
    var job := db.embeddingJobs.rows[j];
    EmbeddingView(db, j);
    EmbeddingRowConsistent(db, j, Settle(job, claim), db.embeddings);
  }

  lemma VerdictConsistent(db: Db, policy: Policy, j: JobId, verdict: Verdict, code: Option<string>,
                          sender: Option<WorkerId>, e: JobId, now: Time, txn: Time)
    requires Consistent(db)
    ensures Consistent(ApplyValidationResult(db, policy, j, verdict, code, sender, e, now, txn).db)
  {
    var r := ApplyValidationResult(db, policy, j, verdict, code, sender, e, now, txn);
    if r.db != db {
      ValidationView(db, j);
      if verdict.PASSED? {
        PassedConsistent(db, policy, j, code, e, now, txn);
      } else {
        RejectedConsistent(db, policy, j, code, e, now, txn);
      }
    }
  }

  lemma RejectedConsistent(db: Db, policy: Policy, j: JobId, code: Option<string>, e: JobId, now: Time, txn: Time)
    requires Consistent(db) && j in db.validations.rows && db.validations.rows[j].Open()
    requires db.validations.rows[j].photo in Validatable(db)
    ensures Consistent(CommitVerdict(db, policy, j, REJECTED, code, e, now, txn).db)
  {
    ValidationView(db, j);
    var job := db.validations.rows[j];
    var r := CommitVerdict(db, policy, j, REJECTED, code, e, now, txn);
    var photo := db.photos[job.photo].(status := Rejected, rejectionCode := code);
    ValidationRowConsistent(db, j, Delivered(job, REJECTED, policy, now), photo, r.db.inbox);
  }

  /** The verdict, the photo and the new embedding job together. The only thing that can go wrong is
      a job id that is already taken: a photo being validated has no embedding job yet. */
  lemma PassedConsistent(db: Db, policy: Policy, j: JobId, code: Option<string>, e: JobId, now: Time, txn: Time)
    requires Consistent(db) && j in db.validations.rows && db.validations.rows[j].Open()
    requires db.validations.rows[j].photo in Validatable(db)
    ensures Consistent(CommitVerdict(db, policy, j, PASSED, code, e, now, txn).db)
    ensures CommitVerdict(db, policy, j, PASSED, code, e, now, txn).result.Ok? <==> e !in db.embeddingJobs.rows
  {
    ValidationView(db, j);
    var job := db.validations.rows[j];
    var p := job.photo;
    var done, queued := Delivered(job, PASSED, policy, now), NewJob(p, txn);
    var photo := db.photos[p].(status := Searching, searchExpiresAt := Some(db.photos[p].registeredAt + 7 * DAY),
                               rejectionCode := None);
    var w := ViewOf(db, p);
    PassedView(w, job, done, queued, photo);
    NoRow(db, p);
    if e !in db.embeddingJobs.rows {
      var db' := CommitVerdict(db, policy, j, PASSED, code, e, now, txn).db;
      WithPassed(db, db', j, done, e, queued, photo);
    }
  }

  lemma WithPassed(db: Db, db': Db, j: JobId, done: Job<Verdict>, e: JobId, job: Job<Embedded>, photo: Photo)
    requires Consistent(db) && j in db.validations.rows && done.photo == db.validations.rows[j].photo == job.photo
    requires Insert(db.embeddingJobs, e, job).Some? && job.photo in db.photos
    requires db' == db.(validations := Update(db.validations, j, done), photos := db.photos[job.photo := photo],
                        embeddingJobs := Insert(db.embeddingJobs, e, job).value, inbox := db'.inbox)
    requires Coupled(ViewOf(db, job.photo).(validation := Some(done), job := Some(job), photo := photo))
    ensures Consistent(db')
  {
    PassedViews(db, db', j, done, e, job);
    Frame(db, db', {job.photo});
  }

  lemma NoRow(db: Db, p: PhotoId)
    requires Linked(db) && p in db.photos && ViewOf(db, p).job.None?
    ensures p !in db.embeddingJobs.byPhoto
  {}

  lemma PassedView(w: View, job: Job<Verdict>, done: Job<Verdict>, queued: Job<Embedded>, photo: Photo)
    requires Coupled(w) && w.validation == Some(job) && job.Open() && w.photo.status.Validating?
    requires WellFormed(done) && done.status == Done(PASSED) && WellFormed(queued) && queued.status.Pending?
    requires photo == w.photo.(status := Searching, searchExpiresAt := photo.searchExpiresAt, rejectionCode := None)
    requires photo.searchExpiresAt == Some(w.photo.registeredAt + 7 * DAY)
    ensures Coupled(w.(validation := Some(done), job := Some(queued), photo := photo)) && w.job.None?
  {}

  lemma PassedViews(db: Db, db': Db, j: JobId, done: Job<Verdict>, e: JobId, job: Job<Embedded>)
    requires Linked(db) && j in db.validations.rows && done.photo == db.validations.rows[j].photo == job.photo
    requires Insert(db.embeddingJobs, e, job).Some? && job.photo in db'.photos
    requires db' == db.(validations := Update(db.validations, j, done),
                        photos := db.photos[job.photo := db'.photos[job.photo]],
                        embeddingJobs := Insert(db.embeddingJobs, e, job).value, inbox := db'.inbox)
    ensures Linked(db') && job.photo in db.photos
    ensures ViewOf(db', job.photo)
            == ViewOf(db, job.photo).(validation := Some(done), job := Some(job), photo := db'.photos[job.photo])
    ensures forall p {:trigger SameView(db, db', p)} :: p != job.photo ==> SameView(db, db', p)
  {
    UpdateKeeps(db.validations, j, done);
    InsertKeeps(db.embeddingJobs, e, job);
  }

  lemma ValidationFailureConsistent(db: Db, policy: Policy, j: JobId, worker: WorkerId, error: string,
                                    retryable: bool, now: Time)
    requires Consistent(db)
    ensures Consistent(RecordValidationFailure(db, policy, j, worker, error, retryable, now).db)
  {
    var r := RecordValidationFailure(db, policy, j, worker, error, retryable, now);
    if r.db != db {
      ValidationView(db, j);
      var job := db.validations.rows[j];
      var failed := FailedAttempt(job, error, retryable, policy, now);
      var photo := AfterFailure(db.photos[job.photo], failed);
      FailedView(ViewOf(db, job.photo), job, failed, photo);
      assert db.photos[job.photo := db.photos[job.photo]] == db.photos;
      assert r.db == WithValidation(db, j, failed, photo, r.db.inbox);
      ValidationRowConsistent(db, j, failed, photo, r.db.inbox);
    }
  }

  function AfterFailure(photo: Photo, failed: Job<Verdict>): Photo {
    if failed.status.Failed? && photo.status.Validating?
    then photo.(status := Rejected, rejectionCode := Some("VALIDATION_FAILED"))
    else photo
  }

  lemma FailedView(w: View, job: Job<Verdict>, failed: Job<Verdict>, photo: Photo)
    requires Coupled(w) && w.validation == Some(job) && job.Open()
    requires WellFormed(failed) && (failed.status.Pending? || failed.status.Failed?)
    requires photo == AfterFailure(w.photo, failed)
    ensures Coupled(w.(validation := Some(failed), photo := photo))
  {}

  lemma EmbeddingFailureConsistent(db: Db, policy: Policy, j: JobId, worker: WorkerId, error: string,
                                   retryable: bool, now: Time)
    requires Consistent(db)
    ensures Consistent(RecordEmbeddingFailure(db, policy, j, worker, error, retryable, now).db)
  {
    if EmbeddingJobError(db, j, worker, false).None? {
      EmbeddingView(db, j);
      var job := db.embeddingJobs.rows[j];
      EmbeddingRowConsistent(db, j, FailedAttempt(job, error, retryable, policy, now), db.embeddings);
    }
  }

  lemma EmbeddingResultConsistent(db: Db, policy: Policy, j: JobId, worker: WorkerId, embedding: Embedding, now: Time)
    requires Consistent(db)
    ensures Consistent(ApplyEmbeddingResult(db, policy, j, worker, embedding, now).db)
  {
    var r := ApplyEmbeddingResult(db, policy, j, worker, embedding, now);
    if r.db != db {
      EmbeddingView(db, j);
      var job := db.embeddingJobs.rows[j];
      EmbeddingRowConsistent(db, j, Delivered(job, COMPLETED, policy, now), db.embeddings[job.photo := embedding]);
    }
  }

  lemma FinalizeConsistent(db: Db, a: PhotoId, b: PhotoId, m: MatchId, explanation: string, now: Time, txn: Time,
                           blocked: bool)
    requires Consistent(db) && a in db.embeddings && b in db.embeddings
    ensures Consistent(Finalize(db, a, b, m, explanation, now, txn, blocked).db)
  {
    if Finalize(db, a, b, m, explanation, now, txn, blocked).result.Ok? {
      RecordMatchConsistent(db, a, b, m, explanation, txn);
    }
  }

  lemma RecordMatchConsistent(db: Db, a: PhotoId, b: PhotoId, m: MatchId, explanation: string, txn: Time)
    requires Consistent(db) && a in db.embeddings && b in db.embeddings && a != b
    requires a in db.photos && b in db.photos && db.photos[a].status.Searching? && db.photos[b].status.Searching?
    ensures Consistent(RecordMatch(db, a, b, m, explanation, txn))
  {
    var db' := RecordMatch(db, a, b, m, explanation, txn);
    MatchViews(db, a, b, m, explanation, txn);
    MatchedView(db, db', a, m);
    MatchedView(db, db', b, m);
    Frame(db, db', {a, b});
  }

  lemma MatchViews(db: Db, a: PhotoId, b: PhotoId, m: MatchId, explanation: string, txn: Time)
    requires Linked(db) && a in db.photos && b in db.photos && a != b
    ensures var db' := RecordMatch(db, a, b, m, explanation, txn);
      && Linked(db')
      && (forall p :: p in {a, b} ==> ViewOf(db', p) == ViewOf(db, p).(photo := db.photos[p].(status := Matched),
                                              participant := Some(Participant(m, db.photos[p].user, None))))
      && forall p {:trigger SameView(db, db', p)} :: p !in {a, b} ==> SameView(db, db', p)
  {}

  lemma MatchedView(db: Db, db': Db, p: PhotoId, m: MatchId)
    requires Consistent(db) && p in db.photos && p in db'.photos && p in db.embeddings
    requires db.photos[p].status.Searching?
    requires ViewOf(db', p) == ViewOf(db, p).(photo := db.photos[p].(status := Matched),
                                              participant := Some(Participant(m, db.photos[p].user, None)))
    ensures Coupled(ViewOf(db', p))
  {
    assert Agree(db, p);
  }

  lemma HideConsistent(db: Db, u: UserId, m: MatchId, at: Option<Time>)
    requires Consistent(db)
    ensures Consistent(SetHidden(db, u, m, at))
  {
    var db' := SetHidden(db, u, m, at);
    assert Linked(db');
    forall p ensures Agree(db', p) {
      assert Agree(db, p);
      if p in db'.photos {
        assert ViewOf(db', p) == ViewOf(db, p).(participant := ViewOf(db', p).participant);
      }
    }
  }
}
