/** What holds in every reachable state and over every run. */
module Guarantees {
  import opened Results
  import opened Leases
  import opened Queues
  import opened Similarity
  import opened Tables
  import opened Pipeline
  import opened Runs
  import opened Pagination

  /** How the two queues and the photo's status agree in every reachable state. */
  lemma PipelineStates(c: Config, steps: seq<Step>, p: PhotoId)
    requires Run(c, steps).Some? && p in Run(c, steps).value.db.photos
    ensures var w := ViewOf(Run(c, steps).value.db, p);
      && w.validation.Some?
      && var s, v := w.photo.status, w.validation.value;
      && (v.Open() ==> s.Validating? || s.Rejected? || s.Deleted?)
      && (s.Validating? ==> v.Open())
      && (v.status == Done(PASSED) ==> s.Searching? || s.Matched? || s.Expired? || s.Deleted?)
      && (v.status == Done(REJECTED) || v.status.Failed? ==> s.Rejected? || s.Deleted?)
      && (w.job.Some? <==> v.status == Done(PASSED))
      && (w.embedded <==> w.job.Some? && w.job.value.status.Done?)
      && (s.Matched? ==> w.embedded)
  {
    RunInv(c, steps);
    var db := Run(c, steps).value.db;
    assert Agree(db, p);
    ViewMeans(ViewOf(db, p));
  }

  lemma ViewMeans(w: View)
    requires Coupled(w)
    ensures w.photo.status.Validating? ==> w.validation.value.Open()
    ensures w.validation.value.status == Done(PASSED) ==>
      w.photo.status.Searching? || w.photo.status.Matched? || w.photo.status.Expired? || w.photo.status.Deleted?
  {
    match w.validation.value.status
    case Done(verdict) => assert verdict == PASSED || verdict == REJECTED;
    case _ =>
  }

  function MatchedPhotos(db: Db): set<PhotoId> {
    set p | p in db.photos && db.photos[p].status.Matched?
  }

  /** Pairing and conservation: photos are MATCHED exactly when a participant row names them, a match
      has exactly two rows of two users and two photos, every participant has exactly one MATCHED
      notification, and the totals agree. */
  lemma Conservation(c: Config, steps: seq<Step>)
    requires Run(c, steps).Some?
    ensures var db := Run(c, steps).value.db;
      && MatchedPhotos(db) == db.participants.Keys
      && |MatchedPhotos(db)| == |db.participants| == |db.inbox.matched| == 2 * |db.matches|
      && (forall m :: m in db.matches ==>
            exists a, b ::
              MatchRows(db, m) == {a, b} && a != b && db.participants[a].user != db.participants[b].user)
      && (forall n :: db.inbox.matched[n] == |MyRows(db, n.user, n.target)| <= 1)
  {
    RunInv(c, steps);
    var db := Run(c, steps).value.db;
    MatchedTakePart(db);
    forall m | m in db.matches
      ensures exists a, b :: MatchRows(db, m) == {a, b} && a != b && db.participants[a].user != db.participants[b].user
    {
      assert MatchPaired(db, m);
      var a, b := TwoOf(MatchRows(db, m));
    }
    forall n ensures db.inbox.matched[n] == |MyRows(db, n.user, n.target)| <= 1 {
      ToldOnce(db, n);
    }
  }

  lemma MatchedTakePart(db: Db)
    requires Consistent(db)
    ensures MatchedPhotos(db) == db.participants.Keys && |db.participants| == |db.participants.Keys|
  {
    forall p ensures p in MatchedPhotos(db) <==> p in db.participants.Keys {
      assert Agree(db, p);
    }
  }

  lemma ToldOnce(db: Db, n: Note)
    requires Paired(db)
    ensures db.inbox.matched[n] == |MyRows(db, n.user, n.target)| <= 1
  {
    assert Notified(db, n) && MatchPaired(db, n.target);
    Singleton(MyRows(db, n.user, n.target));
  }

  lemma TwoOf(s: set<nat>) returns (a: nat, b: nat)
    requires |s| == 2
    ensures a != b && s == {a, b}
  {
    a :| a in s;
    assert |s - {a}| == 1;
    b :| b in s - {a};
    assert s - {a} - {b} == {} by { assert |s - {a} - {b}| == 0; }
  }

  // Over time.

  /** Where a photo's status can get to in any number of steps. */
  predicate Reaches(a: PhotoStatus, b: PhotoStatus) {
    || a == b
    || a.Validating?
    || (a.Searching? && (b.Matched? || b.Expired? || b.Deleted?))
    || ((a.Rejected? || a.Expired?) && b.Deleted?)
  }

  predicate PhotoLater(db: Db, db': Db, p: PhotoId) {
    p in db.photos ==>
      && p in db'.photos
      && Reaches(db.photos[p].status, db'.photos[p].status)
      && (db'.photos[p].status.Validating? ==> db.photos[p].status.Validating?)
      && db'.photos[p].user == db.photos[p].user && db'.photos[p].registeredAt == db.photos[p].registeredAt
  }

  lemma RunPrefix(c: Config, steps: seq<Step>, i: nat)
    requires Run(c, steps).Some? && i <= |steps|
    ensures Run(c, steps[..i]).Some?
    decreases |steps|
  {
    if i < |steps| {
      assert steps[..|steps| - 1][..i] == steps[..i];
      RunPrefix(c, steps[..|steps| - 1], i);
    } else {
      assert steps[..i] == steps;
    }
  }

  /** From any moment of a run to any later one: statuses only move forward, and matches,
      participants and embeddings stay. */
  lemma {:induction false} RunMovesForward(c: Config, steps: seq<Step>, i: nat, p: PhotoId)
    requires Run(c, steps).Some? && i <= |steps| && Run(c, steps[..i]).Some?
    ensures PhotoLater(Run(c, steps[..i]).value.db, Run(c, steps).value.db, p)
    ensures MatchesKept(Run(c, steps[..i]).value.db, Run(c, steps).value.db)
    decreases |steps|
  {
    if i < |steps| {
      var n := |steps| - 1;
      var s := Run(c, steps[..n]).value;
      assert steps[..n][..i] == steps[..i];
      RunMovesForward(c, steps[..n], i, p);
      StepEvolves(c, s, steps[n]);
      assert PhotoStep(s.db, Run(c, steps).value.db, p);
    } else {
      assert steps[..i] == steps;
    }
  }

  /** A photo never becomes active again, and a matched or deleted photo stays so. */
  lemma NoComeback(c: Config, steps: seq<Step>, i: nat, p: PhotoId)
    requires Run(c, steps).Some? && i <= |steps| && Run(c, steps[..i]).Some? && p in Run(c, steps[..i]).value.db.photos
    ensures p in Run(c, steps).value.db.photos
    ensures var before, after := Run(c, steps[..i]).value.db.photos[p].status, Run(c, steps).value.db.photos[p].status;
      && (Active(after) ==> Active(before))
      && (before.Matched? ==> after.Matched?)
      && (before.Deleted? ==> after.Deleted?)
  {
    RunMovesForward(c, steps, i, p);
  }

  // No constraint is ever violated.

  /** In every reachable state an upload with fresh ids has one of three answers, decided by the
      user's own active photos. */
  lemma UploadsNeverConflict(c: Config, steps: seq<Step>, u: Upload, now: Time, txn: Time)
    requires Run(c, steps).Some?
    requires var db := Run(c, steps).value.db;
      u.photo !in db.photos && u.validation !in db.validations.rows && u.embeddingJob !in db.embeddingJobs.rows
    ensures var db := Run(c, steps).value.db;
      var r := InsertPhoto(db, u, now, txn).result;
      var today := exists p :: p in db.photos && db.photos[p].user == u.user && db.photos[p].registeredDate == u.date
                               && Active(db.photos[p].status);
      var again := exists p :: p in db.photos && db.photos[p].user == u.user
                               && db.photos[p].checksum == Some(u.checksum) && Active(db.photos[p].status);
      && (r == Err(TodayPhotoAlreadyExists) <==> today)
      && (r == Err(DuplicatePhoto) <==> !today && again)
      && (r.Ok? <==> !today && !again)
  {
    RunInv(c, steps);
    UploadOutcome(Run(c, steps).value.db, u, now, txn);
  }

  /** Writing a verdict or a match never meets a constraint either, as long as the new ids are fresh:
      no photo gets a second embedding job or a second participant row. */
  lemma WritesNeverConflict(db: Db, policy: Policy, j: JobId, verdict: Verdict, code: Option<string>,
                            sender: Option<WorkerId>, e: JobId, a: PhotoId, b: PhotoId, m: MatchId,
                            explanation: string, now: Time, txn: Time, blocked: bool)
    requires Consistent(db) && e !in db.embeddingJobs.rows && m !in db.matches
    ensures ApplyValidationResult(db, policy, j, verdict, code, sender, e, now, txn).result != Err(IntegrityError)
    ensures Finalize(db, a, b, m, explanation, now, txn, blocked).result != Err(IntegrityError)
  {
    VerdictNeverConflicts(db, policy, j, verdict, code, sender, e, now, txn);
    assert Agree(db, a) && Agree(db, b);
  }

  lemma VerdictNeverConflicts(db: Db, policy: Policy, j: JobId, verdict: Verdict, code: Option<string>,
                              sender: Option<WorkerId>, e: JobId, now: Time, txn: Time)
    requires Consistent(db) && e !in db.embeddingJobs.rows
    ensures ApplyValidationResult(db, policy, j, verdict, code, sender, e, now, txn).result != Err(IntegrityError)
  {
    if j in db.validations.rows && db.validations.rows[j].Open() {
      ValidationView(db, j);
      if verdict.PASSED? && db.validations.rows[j].photo in Validatable(db) {
        PassedConsistent(db, policy, j, code, e, now, txn);
      }
    }
  }

  // Redelivery of validation results.

  datatype Delivery = Delivery(verdict: Verdict, code: Option<string>, sender: Option<WorkerId>, embeddingJob: JobId,
                               now: Time, txn: Time)

  function Apply(db: Db, policy: Policy, j: JobId, d: Delivery): Outcome<Job<Verdict>> {
    ApplyValidationResult(db, policy, j, d.verdict, d.code, d.sender, d.embeddingJob, d.now, d.txn)
  }

  function ApplyAll(db: Db, policy: Policy, j: JobId, ds: seq<Delivery>): Db
    decreases ds
  {
    if ds == [] then db else ApplyAll(Apply(db, policy, j, ds[0]).db, policy, j, ds[1..])
  }

  /** A delivery that the job, as it is, takes. */
  predicate Taken(db: Db, policy: Policy, j: JobId, d: Delivery) {
    j in db.validations.rows && db.validations.rows[j].Open() && Apply(db, policy, j, d).result.Ok?
  }

  lemma NotTaken(db: Db, policy: Policy, j: JobId, d: Delivery)
    requires !Taken(db, policy, j, d)
    ensures Apply(db, policy, j, d).db == db
  {}

  lemma TakenCloses(db: Db, policy: Policy, j: JobId, d: Delivery)
    requires Taken(db, policy, j, d)
    ensures var db' := Apply(db, policy, j, d).db;
      j in db'.validations.rows && db'.validations.rows[j].status == Done(d.verdict)
  {}

  /** The first delivery that the job, as it is at the start, would take. */
  function FirstTaken(db: Db, policy: Policy, j: JobId, ds: seq<Delivery>): Option<Delivery> {
    if ds == [] then None
    else if Taken(db, policy, j, ds[0]) then Some(ds[0])
    else FirstTaken(db, policy, j, ds[1..])
  }

  lemma {:induction false} ClosedTakesNothing(db: Db, policy: Policy, j: JobId, ds: seq<Delivery>)
    requires j in db.validations.rows && !db.validations.rows[j].Open()
    ensures ApplyAll(db, policy, j, ds) == db
    decreases ds
  {
    if ds != [] {
      NotTaken(db, policy, j, ds[0]);
      ClosedTakesNothing(db, policy, j, ds[1..]);
    }
  }

  /** Delivering any sequence of results leaves the same state as delivering only the first one that
      is taken; if none is, nothing changes. */
  lemma {:induction false} RedeliveryChangesNothing(db: Db, policy: Policy, j: JobId, ds: seq<Delivery>)
    ensures ApplyAll(db, policy, j, ds) ==
      match FirstTaken(db, policy, j, ds) case None => db case Some(d) => Apply(db, policy, j, d).db
    decreases ds
  {
    if ds != [] {
      if Taken(db, policy, j, ds[0]) {
        TakenCloses(db, policy, j, ds[0]);
        ClosedTakesNothing(Apply(db, policy, j, ds[0]).db, policy, j, ds[1..]);
      } else {
        NotTaken(db, policy, j, ds[0]);
        RedeliveryChangesNothing(db, policy, j, ds[1..]);
      }
    }
  }
}
