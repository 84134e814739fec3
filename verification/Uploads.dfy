/** Uploads that race each other: `create_photo` reads twice, releases checksums in between, and inserts,
    while other transactions commit at any point. */
module Uploads {
  import opened Results
  import opened Leases
  import opened Queues
  import opened Tables
  import opened Pipeline
  import opened Runs
  import opened Orchestration

  /** The rows whose checksum the UPDATE releases. */
  function Releasable(db: Db, user: UserId, checksum: string): set<PhotoId> {
    set p | p in db.photos && db.photos[p].user == user && db.photos[p].checksum == Some(checksum)
            && Terminated(db.photos[p].status)
  }

  function Released(db: Db, ids: set<PhotoId>): Db {
    db.(photos := map p | p in db.photos :: if p in ids then db.photos[p].(checksum := None) else db.photos[p])
  }

  /** The database as the transaction of an upload finds it at its four statements: the read of today's
      photo, the release of checksums, the read of duplicates, and the commit. */
  datatype Instants = Instants(today: Db, release: Db, duplicate: Db, commit: Db)

  predicate ReadsPass(t: Instants, u: Upload) {
    ActiveToday(t.today, u.user, u.date) == {} && Duplicates(t.duplicate, u.user, u.checksum) == {}
  }

  /** `create_photo` from the read of today's photo on. */
  function Insertion(t: Instants, u: Upload, now: Time, txn: Time): Outcome<Photo> {
    var today := ActiveToday(t.today, u.user, u.date);
    if |today| > 1 then Outcome(t.commit, Err(MultipleResultsFound))
    else if today != {} then Outcome(t.commit, Err(TodayPhotoAlreadyExists))
    else
      var duplicates := Duplicates(t.duplicate, u.user, u.checksum);
      if |duplicates| > 1 then Outcome(t.commit, Err(MultipleResultsFound))
      else if duplicates != {} then Outcome(t.commit, Err(DuplicatePhoto))
      else
        CommitUpload(t.commit, Released(t.commit, Releasable(t.release, u.user, u.checksum)), u, now, txn)
  }

  // Time passes between the statements.

  predicate PhotoSince(db: Db, db': Db, p: PhotoId) {
    p in db.photos ==>
      && p in db'.photos
      && var a, b := db.photos[p], db'.photos[p];
      && b.user == a.user && b.registeredDate == a.registeredDate
      && (b.checksum == a.checksum || b.checksum.None?)
      && (Active(b.status) ==> Active(a.status))
      && (Terminated(a.status) ==> Terminated(b.status))
  }

  ghost predicate Since(db: Db, db': Db) {
    forall p {:trigger PhotoSince(db, db', p)} :: PhotoSince(db, db', p)
  }

  lemma SinceThen(a: Db, b: Db, c: Db)
    requires Since(a, b) && Since(b, c)
    ensures Since(a, c)
  {
    forall p ensures PhotoSince(a, c, p) {
      assert PhotoSince(a, b, p) && PhotoSince(b, c, p);
    }
  }

  lemma {:induction false} OthersSince(c: Config, s: Sys, steps: seq<Step>)
    requires Inv(c, s)
    ensures Since(s.db, Others(c, s, steps).db) && Inv(c, Others(c, s, steps))
  {
    if steps == [] {
      forall p ensures PhotoSince(s.db, s.db, p) {}
    } else {
      var n := |steps| - 1;
      var s' := Others(c, s, steps[..n]);
      OthersSince(c, s, steps[..n]);
      if Enabled(c, s', steps[n]) {
        StepInv(c, s', steps[n]);
        StepEvolves(c, s', steps[n]);
        EvolvesSince(s'.db, Next(c, s', steps[n]).db);
        SinceThen(s.db, s'.db, Next(c, s', steps[n]).db);
      }
    }
  }

  lemma EvolvesSince(db: Db, db': Db)
    requires Evolves(db, db')
    ensures Since(db, db')
  {
    forall p ensures PhotoSince(db, db', p) {
      assert PhotoStep(db, db', p);
    }
  }

  ghost predicate InOrder(t: Instants) {
    && Since(t.today, t.release) && Since(t.release, t.duplicate) && Since(t.duplicate, t.commit)
    && Unique(t.today) && Unique(t.duplicate) && Linked(t.commit)
  }

  predicate FreshIds(db: Db, u: Upload) {
    u.photo !in db.photos && u.validation !in db.validations.rows && u.embeddingJob !in db.embeddingJobs.rows
  }

  // What a racing upload runs into.

  /** Another upload of the user for the same day has committed since the first read, and is still
      active. */
  predicate OvertakenToday(t: Instants, u: Upload, p: PhotoId) {
    && p in t.commit.photos && p !in t.today.photos && t.commit.photos[p].user == u.user
    && t.commit.photos[p].registeredDate == u.date && Active(t.commit.photos[p].status)
  }

  /** A photo of the user with the same checksum has slipped through: it was uploaded after the release, or
      it was still active at the release and already rejected or deleted at the read of duplicates. */
  predicate SlippedThrough(t: Instants, u: Upload, p: PhotoId) {
    && p in t.commit.photos && t.commit.photos[p].user == u.user && t.commit.photos[p].checksum == Some(u.checksum)
    && (p !in t.release.photos
        || (Active(t.release.photos[p].status) && p in t.duplicate.photos && Terminated(t.duplicate.photos[p].status)))
  }

  /** The unique constraints refuse the insert exactly then. */
  lemma ConflictIff(t: Instants, u: Upload, now: Time)
    requires InOrder(t) && ReadsPass(t, u) && u.photo !in t.commit.photos
    ensures PhotoConflicts(Released(t.commit, Releasable(t.release, u.user, u.checksum)), u.photo,
                           UploadedPhoto(u, now))
            <==> exists p :: OvertakenToday(t, u, p) || SlippedThrough(t, u, p)
  {
    var released := Released(t.commit, Releasable(t.release, u.user, u.checksum));
    forall p ensures p in ActiveToday(released, u.user, u.date) <==> OvertakenToday(t, u, p) {
      TodayFate(t, u, p);
    }
    forall p
      ensures p in released.photos && released.photos[p].user == u.user
              && released.photos[p].checksum == Some(u.checksum)
              <==> SlippedThrough(t, u, p)
    {
      ChecksumFate(t, u, p);
    }
    if p :| p in ActiveToday(released, u.user, u.date) { assert OvertakenToday(t, u, p); }
  }

  lemma TodayFate(t: Instants, u: Upload, p: PhotoId)
    requires InOrder(t) && ReadsPass(t, u)
    ensures p in ActiveToday(t.commit, u.user, u.date) <==> OvertakenToday(t, u, p)
  {
    assert PhotoSince(t.today, t.release, p) && PhotoSince(t.release, t.duplicate, p);
    assert PhotoSince(t.duplicate, t.commit, p);
    assert p !in ActiveToday(t.today, u.user, u.date);
  }

  lemma ChecksumFate(t: Instants, u: Upload, p: PhotoId)
    requires InOrder(t) && ReadsPass(t, u)
    ensures p in t.commit.photos && t.commit.photos[p].user == u.user && t.commit.photos[p].checksum == Some(u.checksum)
            && p !in Releasable(t.release, u.user, u.checksum)
            <==> SlippedThrough(t, u, p)
  {
    assert PhotoSince(t.release, t.duplicate, p) && PhotoSince(t.duplicate, t.commit, p);
    assert p !in Duplicates(t.duplicate, u.user, u.checksum);
  }

  /** The answers of a racing upload with fresh ids: the two refusals as the reads find, PHOTO_CONFLICT
      exactly if it was overtaken, and success otherwise. Its reads never find two rows. */
  lemma RacingAnswers(t: Instants, u: Upload, now: Time, txn: Time)
    requires InOrder(t) && FreshIds(t.commit, u)
    ensures var r := Insertion(t, u, now, txn).result;
      && (r == Err(TodayPhotoAlreadyExists) <==> ActiveToday(t.today, u.user, u.date) != {})
      && (r == Err(DuplicatePhoto) <==> ActiveToday(t.today, u.user, u.date) == {}
                                        && Duplicates(t.duplicate, u.user, u.checksum) != {})
      && (r == Err(PhotoConflict)
          <==> ReadsPass(t, u) && exists p :: OvertakenToday(t, u, p) || SlippedThrough(t, u, p))
      && (r.Ok? <==> ReadsPass(t, u) && !exists p :: OvertakenToday(t, u, p) || SlippedThrough(t, u, p))
  {
    AtMostOne(t.today, u.user, u.date, u.checksum);
    AtMostOne(t.duplicate, u.user, u.date, u.checksum);
    if ReadsPass(t, u) { ConflictIff(t, u, now); }
  }

  // A racing upload is an atomic one.

  /** If it succeeds, it has done what an upload in one step would have done at the moment of its commit;
      otherwise it has done nothing. */
  lemma RacingIsAtomic(t: Instants, u: Upload, now: Time, txn: Time)
    requires InOrder(t) && FreshIds(t.commit, u)
    ensures var r := Insertion(t, u, now, txn);
      if r.result.Ok? then r == InsertPhoto(t.commit, u, now, txn) else r.db == t.commit
  {
    RacingAnswers(t, u, now, txn);
    if Insertion(t, u, now, txn).result.Ok? {
      ConflictIff(t, u, now);
      SameRelease(t, u, now);
    }
  }

  lemma SameRelease(t: Instants, u: Upload, now: Time)
    requires InOrder(t) && ReadsPass(t, u)
    requires !PhotoConflicts(Released(t.commit, Releasable(t.release, u.user, u.checksum)), u.photo,
                             UploadedPhoto(u, now))
    ensures ReleaseChecksums(t.commit, u.user, u.checksum)
            == Released(t.commit, Releasable(t.release, u.user, u.checksum))
    ensures ActiveToday(t.commit, u.user, u.date) == {}
    ensures Duplicates(ReleaseChecksums(t.commit, u.user, u.checksum), u.user, u.checksum) == {}
  {
    var ids := Releasable(t.release, u.user, u.checksum);
    forall p | p in t.commit.photos
      ensures t.commit.photos[p].user == u.user && t.commit.photos[p].checksum == Some(u.checksum) ==> p in ids
      ensures p in ids ==> t.commit.photos[p].user == u.user && Terminated(t.commit.photos[p].status)
      ensures p in ids ==> t.commit.photos[p].checksum == Some(u.checksum) || t.commit.photos[p].checksum.None?
    {
      assert PhotoSince(t.release, t.duplicate, p) && PhotoSince(t.duplicate, t.commit, p);
      assert p in Released(t.commit, ids).photos;
    }
    SameRows(t.commit, ids, u.user, u.checksum);
    forall p ensures p !in ActiveToday(t.commit, u.user, u.date) {
      assert p in ActiveToday(t.commit, u.user, u.date) <==> p in ActiveToday(Released(t.commit, ids), u.user, u.date);
    }
  }

  /** The rows released earlier are the ones a release at the commit would find, or had no checksum left. */
  lemma SameRows(db: Db, ids: set<PhotoId>, user: UserId, checksum: string)
    requires forall p :: p in db.photos && db.photos[p].user == user && db.photos[p].checksum == Some(checksum) ==>
      p in ids
    requires forall p :: p in db.photos && p in ids ==>
      && db.photos[p].user == user && Terminated(db.photos[p].status)
      && (db.photos[p].checksum == Some(checksum) || db.photos[p].checksum.None?)
    ensures ReleaseChecksums(db, user, checksum) == Released(db, ids)
    ensures Duplicates(ReleaseChecksums(db, user, checksum), user, checksum) == {}
  {
    var a, b := ReleaseChecksums(db, user, checksum), Released(db, ids);
    forall p | p in db.photos ensures a.photos[p] == b.photos[p] {}
    assert a.photos == b.photos;
  }

  /** In one moment it is the upload of one step. */
  lemma AtOnce(db: Db, u: Upload, now: Time, txn: Time)
    ensures Insertion(Instants(db, db, db, db), u, now, txn) == InsertPhoto(db, u, now, txn)
  {
    var released := ReleaseChecksums(db, u.user, u.checksum);
    assert Released(db, Releasable(db, u.user, u.checksum)).photos == released.photos;
    assert Duplicates(released, u.user, u.checksum) == Duplicates(db, u.user, u.checksum);
  }

  // In a run.

  /** The four moments, with any transactions of others between them. */
  function Between(c: Config, s: Sys, first: seq<Step>, second: seq<Step>, third: seq<Step>): Instants {
    var r := Others(c, s, first);
    var d := Others(c, r, second);
    Instants(s.db, r.db, d.db, Others(c, d, third).db)
  }

  /** Whatever commits meanwhile: an upload with fresh ids answers PHOTO_CONFLICT if and only if its reads
      pass and another photo has overtaken it or slipped through; and it does all or nothing, as in one
      step at its commit. */
  lemma RacingUpload(c: Config, s: Sys, first: seq<Step>, second: seq<Step>, third: seq<Step>, u: Upload, now: Time,
                     txn: Time)
    requires Inv(c, s) && FreshIds(Between(c, s, first, second, third).commit, u)
    ensures var t := Between(c, s, first, second, third);
      var r := Insertion(t, u, now, txn);
      && (r.result == Err(PhotoConflict)
          <==> ReadsPass(t, u) && exists p :: OvertakenToday(t, u, p) || SlippedThrough(t, u, p))
      && (if r.result.Ok? then r == InsertPhoto(t.commit, u, now, txn) else r.db == t.commit)
  {
    OthersSince(c, s, first);
    var r := Others(c, s, first);
    OthersSince(c, r, second);
    OthersSince(c, Others(c, r, second), third);
    var t := Between(c, s, first, second, third);
    assert InOrder(t);
    RacingAnswers(t, u, now, txn);
    RacingIsAtomic(t, u, now, txn);
  }
}
