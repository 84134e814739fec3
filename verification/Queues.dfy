/** A lease queue table, `claim_next` on it, and how claiming drains it. */
module Queues {
  import opened Results
  import opened Ordering
  import opened Leases
  import opened Pagination

  /** The rows by id, and the UNIQUE index on their photo. */
  datatype Queue<V> = Queue(rows: map<JobId, Job<V>>, byPhoto: map<PhotoId, JobId>)

  ghost predicate Indexed<V>(q: Queue<V>) {
    && (forall j :: j in q.rows ==> q.rows[j].photo in q.byPhoto && q.byPhoto[q.rows[j].photo] == j)
    && (forall p :: p in q.byPhoto ==> q.byPhoto[p] in q.rows && q.rows[q.byPhoto[p]].photo == p)
  }

  /** INSERT, refused by the primary key or by UNIQUE(photo_id). */
  function Insert<V>(q: Queue<V>, id: JobId, job: Job<V>): Option<Queue<V>> {
    if id in q.rows || job.photo in q.byPhoto then None
    else Some(Queue(q.rows[id := job], q.byPhoto[job.photo := id]))
  }

  function Update<V>(q: Queue<V>, id: JobId, job: Job<V>): Queue<V> {
    q.(rows := q.rows[id := job])
  }

  /** The row of a photo, if there is one. */
  function RowFor<V>(q: Queue<V>, p: PhotoId): Option<Job<V>> {
    if p in q.byPhoto && q.byPhoto[p] in q.rows then Some(q.rows[q.byPhoto[p]]) else None
  }

  lemma UpdateKeeps<V>(q: Queue<V>, j: JobId, job: Job<V>)
    requires Indexed(q) && j in q.rows && job.photo == q.rows[j].photo
    ensures Indexed(Update(q, j, job)) && RowFor(q, job.photo) == Some(q.rows[j])
    ensures forall p :: RowFor(Update(q, j, job), p) == if p == job.photo then Some(job) else RowFor(q, p)
  {}

  lemma InsertKeeps<V>(q: Queue<V>, j: JobId, job: Job<V>)
    requires Indexed(q) && Insert(q, j, job).Some?
    ensures Indexed(Insert(q, j, job).value) && RowFor(q, job.photo) == None
    ensures forall p :: RowFor(Insert(q, j, job).value, p) == if p == job.photo then Some(job) else RowFor(q, p)
  {}

  lemma RowOf<V>(q: Queue<V>, j: JobId)
    requires Indexed(q) && j in q.rows
    ensures RowFor(q, q.rows[j].photo) == Some(q.rows[j])
  {}

  /** The rows `claim_next` may take: eligible and, by SKIP LOCKED, not held by another
      transaction. */
  function Claimable<V>(rows: map<JobId, Job<V>>, locked: set<JobId>, lease: Time, now: Time): set<JobId> {
    set j | j in rows && j !in locked && Eligible(rows[j], lease, now)
  }

  function AgeKeys<V>(rows: map<JobId, Job<V>>, jobs: set<JobId>): set<Key>
    requires jobs <= rows.Keys
  {
    set j | j in jobs :: Key(rows[j].createdAt, j)
  }

  /** ORDER BY created_at, id LIMIT 1 */
  function Oldest<V>(rows: map<JobId, Job<V>>, jobs: set<JobId>): (oldest: JobId)
    requires jobs <= rows.Keys && jobs != {}
    ensures oldest in jobs
    ensures forall j :: j in jobs && j != oldest ==>
      Less(Key(rows[oldest].createdAt, oldest), Key(rows[j].createdAt, j))
  {
    var some :| some in jobs;
    assert Key(rows[some].createdAt, some) in AgeKeys(rows, jobs);
    Least(AgeKeys(rows, jobs)).id
  }

  datatype Claim = Nothing | Orphan(job: JobId) | HandedOut(job: JobId)

  /** One `claim_next` call. `available` are the photos a worker could still work on. */
  function ClaimNext<V>(rows: map<JobId, Job<V>>, locked: set<JobId>, available: set<PhotoId>,
                        worker: WorkerId, lease: Time, now: Time): (map<JobId, Job<V>>, Claim)
  {
    var jobs := Claimable(rows, locked, lease, now);
    if jobs == {} then (rows, Nothing) else
      var j := Oldest(rows, jobs);
      if rows[j].photo in available then (rows[j := Claimed(rows[j], worker, now)], HandedOut(j))
      else (rows[j := Retired(rows[j], now)], Orphan(j))
  }

  /** `n` calls of `claim_next` at one time, until a job is handed out. */
  function Drain<V>(rows: map<JobId, Job<V>>, locked: set<JobId>, available: set<PhotoId>,
                    worker: WorkerId, lease: Time, now: Time, n: nat): seq<Claim>
  {
    if n == 0 then [] else
      var (after, claim) := ClaimNext(rows, locked, available, worker, lease, now);
      [claim] + if claim.Orphan? then Drain(after, locked, available, worker, lease, now, n - 1) else []
  }

  function Orphans<V>(rows: map<JobId, Job<V>>, locked: set<JobId>, available: set<PhotoId>,
                      lease: Time, now: Time): set<JobId>
  {
    set j | j in Claimable(rows, locked, lease, now) && rows[j].photo !in available
  }

  lemma RetiredLeaves<V>(rows: map<JobId, Job<V>>, locked: set<JobId>, available: set<PhotoId>, lease: Time, now: Time,
                         j: JobId)
    requires j in Orphans(rows, locked, available, lease, now)
    ensures var after := rows[j := Retired(rows[j], now)];
      && Claimable(after, locked, lease, now) == Claimable(rows, locked, lease, now) - {j}
      && Orphans(after, locked, available, lease, now) == Orphans(rows, locked, available, lease, now) - {j}
  {}

  /** At most `k` orphans, and then a live job. */
  predicate EndsLive<V>(claims: seq<Claim>, rows: map<JobId, Job<V>>, locked: set<JobId>, available: set<PhotoId>,
                        lease: Time, now: Time, k: nat)
  {
    && 1 <= |claims| <= k + 1
    && (forall i :: 0 <= i < |claims| - 1 ==> claims[i].Orphan?)
    && var last := claims[|claims| - 1];
    last.HandedOut? && last.job in Claimable(rows, locked, lease, now) && rows[last.job].photo in available
  }

  /** Behind `k` claimable orphans, a live job is handed out by call `k + 1` at the latest, and every
      earlier call gets rid of one orphan. */
  lemma {:induction false} DrainReachesLive<V>(rows: map<JobId, Job<V>>, locked: set<JobId>, available: set<PhotoId>,
                                               worker: WorkerId, lease: Time, now: Time, live: JobId)
    requires live in Claimable(rows, locked, lease, now) && rows[live].photo in available
    ensures var k := |Orphans(rows, locked, available, lease, now)|;
      EndsLive(Drain(rows, locked, available, worker, lease, now, k + 1), rows, locked, available, lease, now, k)
    decreases |Orphans(rows, locked, available, lease, now)|
  {
    var orphans := Orphans(rows, locked, available, lease, now);
    var j := Oldest(rows, Claimable(rows, locked, lease, now));
    if rows[j].photo !in available {
      var after := rows[j := Retired(rows[j], now)];
      RetiredLeaves(rows, locked, available, lease, now, j);
      DrainReachesLive(after, locked, available, worker, lease, now, live);
      var rest := Drain(after, locked, available, worker, lease, now, |orphans|);
      assert Drain(rows, locked, available, worker, lease, now, |orphans| + 1) == [Orphan(j)] + rest;
      assert |orphans - {j}| == |orphans| - 1;
      EndsLiveToo(rest, rows, locked, available, lease, now, j, |orphans| - 1);
    }
  }

  lemma EndsLiveToo<V>(rest: seq<Claim>, rows: map<JobId, Job<V>>, locked: set<JobId>, available: set<PhotoId>,
                       lease: Time, now: Time, j: JobId, k: nat)
    requires j in Orphans(rows, locked, available, lease, now)
    requires EndsLive(rest, rows[j := Retired(rows[j], now)], locked, available, lease, now, k)
    ensures EndsLive([Orphan(j)] + rest, rows, locked, available, lease, now, k + 1)
  {
    RetiredLeaves(rows, locked, available, lease, now, j);
  }

  /** A row that nobody may take now: it is finished, it waits for its retry, or its lease still runs. */
  predicate NotDue<V>(job: Job<V>, lease: Time, now: Time) {
    || job.status.Done? || job.status.Failed?
    || (job.status.Pending? && job.nextAttemptAt.Some? && now < job.nextAttemptAt.value)
    || (job.status.Processing? && job.startedAt.Some? && job.startedAt.value >= now - lease)
  }

  /** A call of `claim_next` by the fields of the rows. It finds nothing iff every row that is not locked is
      finished, waits for its retry, or has a lease that still runs. Otherwise it takes the first such row by
      creation, and by id among equals: it hands the row to the worker if the photo is available, and gives
      it up for good if not. */
  lemma ClaimByFields<V>(rows: map<JobId, Job<V>>, locked: set<JobId>, available: set<PhotoId>,
                         worker: WorkerId, lease: Time, now: Time)
    requires forall j :: j in rows ==> WellFormed(rows[j])
    ensures var (after, claim) := ClaimNext(rows, locked, available, worker, lease, now);
      && (claim.Nothing? <==> forall j :: j in rows && j !in locked ==> NotDue(rows[j], lease, now))
      && (claim.Nothing? ==> after == rows)
      && (!claim.Nothing? ==>
            && claim.job in rows && claim.job !in locked && !NotDue(rows[claim.job], lease, now)
            && after == rows[claim.job := after[claim.job]]
            && forall j :: j in rows && j !in locked && j != claim.job && !NotDue(rows[j], lease, now) ==>
                 rows[claim.job].createdAt < rows[j].createdAt
                 || (rows[claim.job].createdAt == rows[j].createdAt && claim.job < j))
      && (claim.HandedOut? ==>
            && rows[claim.job].photo in available
            && after[claim.job] == rows[claim.job].(
                 status := Processing, worker := Some(worker), startedAt := Some(now), nextAttemptAt := None,
                 attempts := rows[claim.job].attempts + 1))
      && (claim.Orphan? ==>
            && rows[claim.job].photo !in available
            && after[claim.job] == rows[claim.job].(status := Failed, completedAt := Some(now),
                                                    errorCode := Some("PHOTO_NOT_AVAILABLE")))
  {
    var jobs := Claimable(rows, locked, lease, now);
    forall j | j in rows && j !in locked ensures j in jobs <==> !NotDue(rows[j], lease, now) {}
    if jobs != {} {
      var j := Oldest(rows, jobs);
      assert j in jobs;
    }
  }

  /** What a call answers: nothing only when nothing is claimable, otherwise the fate of the oldest
      claimable row, which no later call at any time finds claimable again if it was retired. */
  lemma ClaimAnswers<V>(rows: map<JobId, Job<V>>, locked: set<JobId>, available: set<PhotoId>,
                        worker: WorkerId, lease: Time, now: Time)
    ensures var (after, claim) := ClaimNext(rows, locked, available, worker, lease, now);
      var jobs := Claimable(rows, locked, lease, now);
      && (claim.Nothing? <==> forall j :: j in rows && j !in locked ==> !Eligible(rows[j], lease, now))
      && (!claim.Nothing? ==>
            && claim.job in jobs
            && (forall j :: j in jobs && j != claim.job ==>
                  Less(Key(rows[claim.job].createdAt, claim.job), Key(rows[j].createdAt, j)))
            && (forall j :: j in rows && j != claim.job ==> after[j] == rows[j])
            && (claim.HandedOut? <==> rows[claim.job].photo in available))
      && (claim.Orphan? ==> forall later: Time, l: Time :: !Eligible(after[claim.job], l, later))
      && (claim.HandedOut? && lease >= 0 ==> !Eligible(after[claim.job], lease, now))
  {
    var jobs := Claimable(rows, locked, lease, now);
    if jobs == {} {
      forall j | j in rows && j !in locked ensures !Eligible(rows[j], lease, now) {
        assert j !in jobs;
      }
    } else {
      var j := Oldest(rows, jobs);
      assert j in jobs;
    }
  }
}
