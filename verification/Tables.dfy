/** The database, and what each committed transaction does to it. Every function takes the clock
    readings its transaction makes, and returns the committed database with the answer: an error
    leaves the database as it was. */
module Tables {
  import opened Results
  import opened Ordering
  import opened Leases
  import opened Queues
  import opened Similarity
  import opened Counting

  type UserId = nat
  type MatchId = nat
  type PostcardId = nat

  const SECOND: Time := 1000000
  const MINUTE: Time := 60 * SECOND
  const DAY: Time := 86400 * SECOND

  datatype AccountStatus = ACTIVE | RESTRICTED | WITHDRAWN

  datatype Account = Account(status: AccountStatus, onboarded: bool)

  datatype PhotoStatus = Validating | Rejected | Searching | Matched | Expired | Deleted

  datatype Photo = Photo(
    user: UserId,
    status: PhotoStatus,
    checksum: Option<string>,
    registeredDate: int,
    registeredAt: Time,
    searchExpiresAt: Option<Time>,
    rejectionCode: Option<string>,
    deletedAt: Option<Time>)

  datatype Verdict = PASSED | REJECTED

  datatype Embedded = COMPLETED

  datatype Match = Match(explanation: string, matchedAt: Time)

  datatype Participant = Participant(matchId: MatchId, user: UserId, hiddenAt: Option<Time>)

  datatype Postcard = Postcard(
    matchId: MatchId,
    sender: UserId,
    receiver: UserId,
    content: string,
    idempotencyKey: Option<nat>,
    sentAt: Time,
    senderDeletedAt: Option<Time>,
    receiverDeletedAt: Option<Time>)

  datatype Note = Note(user: UserId, target: nat)

  /** The notification rows, by their `type`. */
  datatype Inbox = Inbox(
    validationPassed: multiset<Note>,
    photoRejected: multiset<Note>,
    matched: multiset<Note>,
    postcardReceived: multiset<Note>,
    searchExpired: multiset<Note>)

  /** `participants` is keyed by its UNIQUE photo_id; a block is a pair (blocker, blocked). */
  datatype Db = Db(
    accounts: map<UserId, Account>,
    photos: map<PhotoId, Photo>,
    validations: Queue<Verdict>,
    embeddingJobs: Queue<Embedded>,
    embeddings: map<PhotoId, Embedding>,
    matches: map<MatchId, Match>,
    participants: map<PhotoId, Participant>,
    blocks: set<(UserId, UserId)>,
    postcards: map<PostcardId, Postcard>,
    inbox: Inbox)

  const EMPTY_DB := Db(map[], map[], Queue(map[], map[]), Queue(map[], map[]), map[], map[], map[], {},
                       map[], Inbox(multiset{}, multiset{}, multiset{}, multiset{}, multiset{}))

  datatype Outcome<T> = Outcome(db: Db, result: Result<T>)

  function PhotoKey(db: Db, p: PhotoId): Key
    requires p in db.photos
  {
    Key(db.photos[p].registeredAt, p)
  }

  // Photos.

  /** The statuses of the partial unique index on (user_id, registered_date). */
  predicate Active(s: PhotoStatus) {
    s.Validating? || s.Searching? || s.Matched? || s.Expired?
  }

  predicate Stale(photo: Photo, user: UserId, now: Time) {
    photo.user == user && photo.status.Validating? && photo.registeredAt <= now - 15 * MINUTE
  }

  function ExpireStaleValidations(db: Db, user: UserId, now: Time): Db {
    db.(photos := map p | p in db.photos ::
      var photo := db.photos[p];
      if Stale(photo, user, now)
      then photo.(status := Rejected, rejectionCode := Some("VALIDATION_TIMEOUT"))
      else photo)
  }

  datatype Upload = Upload(photo: PhotoId, user: UserId, checksum: string, date: int, mockPassed: bool,
                           validation: JobId, embeddingJob: JobId)

  function AccountError(db: Db, user: UserId): Option<Error> {
    if user !in db.accounts || !db.accounts[user].status.ACTIVE? then Some(AccountNotActive)
    else if !db.accounts[user].onboarded then Some(OnboardingRequired)
    else None
  }

  function ActiveToday(db: Db, user: UserId, date: int): set<PhotoId> {
    set p | p in db.photos && db.photos[p].user == user && db.photos[p].registeredDate == date
            && Active(db.photos[p].status)
  }

  /** Rejected and deleted uploads give up their checksum so that the image can be sent again. */
  function ReleaseChecksums(db: Db, user: UserId, checksum: string): Db {
    db.(photos := map p | p in db.photos ::
      var photo := db.photos[p];
      if photo.user == user && photo.checksum == Some(checksum) && (photo.status.Rejected? || photo.status.Deleted?)
      then photo.(checksum := None)
      else photo)
  }

  function Duplicates(db: Db, user: UserId, checksum: string): set<PhotoId> {
    set p | p in db.photos && db.photos[p].user == user && db.photos[p].checksum == Some(checksum)
            && !db.photos[p].status.Rejected? && !db.photos[p].status.Deleted?
  }

  function UploadedPhoto(u: Upload, now: Time): Photo {
    Photo(u.user, if u.mockPassed then Searching else Validating, Some(u.checksum), u.date, now,
          if u.mockPassed then Some(now + 7 * DAY) else None, None, None)
  }

  function UploadedValidation(u: Upload, now: Time, txn: Time): Job<Verdict> {
    if u.mockPassed then Job(u.photo, Done(PASSED), 1, None, None, None, txn, Some(now), None)
    else NewJob(u.photo, txn)
  }

  /** The unique constraints an inserted photo could violate: the primary key, one active photo per
      user and day, and one row per user and checksum. */
  predicate PhotoConflicts(db: Db, id: PhotoId, photo: Photo) {
    || id in db.photos
    || (Active(photo.status) && ActiveToday(db, photo.user, photo.registeredDate) != {})
    || (photo.checksum.Some? && exists p :: p in db.photos && db.photos[p].user == photo.user
                                            && db.photos[p].checksum == photo.checksum)
  }

  /** The second transaction of `create_photo`. `now` is Python's clock, `txn` the server's `now()`. */
  function InsertPhoto(db: Db, u: Upload, now: Time, txn: Time): Outcome<Photo> {
    var today := ActiveToday(db, u.user, u.date);
    if |today| > 1 then Outcome(db, Err(MultipleResultsFound))
    else if today != {} then Outcome(db, Err(TodayPhotoAlreadyExists))
    else
      var released := ReleaseChecksums(db, u.user, u.checksum);
      var duplicates := Duplicates(released, u.user, u.checksum);
      if |duplicates| > 1 then Outcome(db, Err(MultipleResultsFound))
      else if duplicates != {} then Outcome(db, Err(DuplicatePhoto))
      else CommitUpload(db, released, u, now, txn)
  }

  function CommitUpload(db: Db, released: Db, u: Upload, now: Time, txn: Time): Outcome<Photo> {
    var photo := UploadedPhoto(u, now);
    var validations := Insert(db.validations, u.validation, UploadedValidation(u, now, txn));
    var jobs := if u.mockPassed then Insert(db.embeddingJobs, u.embeddingJob, NewJob(u.photo, txn))
                else Some(db.embeddingJobs);
    if PhotoConflicts(released, u.photo, photo) || validations.None? || jobs.None? then
      Outcome(db, Err(PhotoConflict))
    else
      var inbox := if u.mockPassed
                   then db.inbox.(validationPassed := db.inbox.validationPassed + multiset{Note(u.user, u.photo)})
                   else db.inbox;
      Outcome(released.(photos := released.photos[u.photo := photo], validations := validations.value,
                        embeddingJobs := jobs.value, inbox := inbox), Ok(photo))
  }

  /** `create_photo`: the account check, the stale-validation sweep that commits on its own, and the
      upload. */
  function CreatePhoto(db: Db, u: Upload, sweep: Time, now: Time, txn: Time): Outcome<Photo> {
    match AccountError(db, u.user)
    case Some(e) => Outcome(db, Err(e))
    case None => InsertPhoto(ExpireStaleValidations(db, u.user, sweep), u, now, txn)
  }

  /** The checks of `delete_photo` on the locked row. */
  function DeleteError(photos: map<PhotoId, Photo>, user: UserId, p: PhotoId): Option<Error> {
    if p !in photos || photos[p].status.Deleted? then Some(PhotoNotFound)
    else if photos[p].user != user then Some(PhotoNotOwned)
    else if photos[p].status.Matched? then Some(PhotoAlreadyMatched)
    else None
  }

  function DeletePhoto(db: Db, user: UserId, p: PhotoId, now: Time): Outcome<()> {
    match DeleteError(db.photos, user, p)
    case Some(e) => Outcome(db, Err(e))
    case None =>
      Outcome(db.(photos := db.photos[p := db.photos[p].(status := Deleted, deletedAt := Some(now))]), Ok(()))
  }

  function Due(db: Db, now: Time): set<PhotoId> {
    set p | p in db.photos && db.photos[p].status.Searching? && db.photos[p].deletedAt.None?
            && db.photos[p].searchExpiresAt.Some? && db.photos[p].searchExpiresAt.value <= now
  }

  function SearchEnded(db: Db, ids: set<PhotoId>): Db {
    db.(photos := map p | p in db.photos :: if p in ids then db.photos[p].(status := Expired) else db.photos[p])
  }

  function Notices(db: Db, ids: set<PhotoId>): multiset<Note>
    requires ids <= db.photos.Keys
  {
    multiset(set p | p in ids :: Note(db.photos[p].user, p))
  }

  /** `expire_due`: the sweep, and one notification for every row it changed. */
  function ExpireDue(db: Db, now: Time): Outcome<set<PhotoId>> {
    var due := Due(db, now);
    var inbox := db.inbox.(searchExpired := db.inbox.searchExpired + Notices(db, due));
    Outcome(SearchEnded(db, due).(inbox := inbox), Ok(due))
  }

  // The validation queue.

  /** Photos whose validation can still be worked on. */
  function Validatable(db: Db): set<PhotoId> {
    set p | p in db.photos && db.photos[p].status.Validating?
  }

  function ClaimValidation(db: Db, locked: set<JobId>, worker: WorkerId, lease: Time, now: Time): (Db, Queues.Claim) {
    var (rows, claim) := ClaimNext(db.validations.rows, locked, Validatable(db), worker, lease, now);
    (db.(validations := db.validations.(rows := rows)), claim)
  }

  function ApplyValidationResult(db: Db, policy: Policy, j: JobId, verdict: Verdict, code: Option<string>,
                                 worker: Option<WorkerId>, embeddingJob: JobId, now: Time, txn: Time)
    : Outcome<Job<Verdict>>
  {
    if j !in db.validations.rows then Outcome(db, Err(ValidationJobNotFound)) else
      var job := db.validations.rows[j];
      if !job.Open() then
        Outcome(db, if job.status == Done(verdict) then Ok(job) else Err(ValidationAlreadyCompleted))
      else if !AcceptsResult(job, worker, policy) then Outcome(db, Err(ValidationLeaseLost))
      else if job.photo !in db.photos || !db.photos[job.photo].status.Validating? then
        Outcome(db, Err(PhotoNotValidating))
      else CommitVerdict(db, policy, j, verdict, code, embeddingJob, now, txn)
  }

  function CommitVerdict(db: Db, policy: Policy, j: JobId, verdict: Verdict, code: Option<string>,
                         embeddingJob: JobId, now: Time, txn: Time): Outcome<Job<Verdict>>
    requires j in db.validations.rows && db.validations.rows[j].photo in db.photos
  {
    var job := Delivered(db.validations.rows[j], verdict, policy, now);
    var photo := db.photos[job.photo];
    var note := multiset{Note(photo.user, job.photo)};
    var validations := Update(db.validations, j, job);
    if verdict.PASSED? then
      match Insert(db.embeddingJobs, embeddingJob, NewJob(job.photo, txn))
      case None => Outcome(db, Err(IntegrityError))
      case Some(jobs) =>
        Outcome(db.(validations := validations, embeddingJobs := jobs,
                    photos := db.photos[job.photo := photo.(status := Searching,
                      searchExpiresAt := Some(photo.registeredAt + 7 * DAY), rejectionCode := None)],
                    inbox := db.inbox.(validationPassed := db.inbox.validationPassed + note)),
                Ok(job))
    else
      Outcome(db.(validations := validations,
                  photos := db.photos[job.photo := photo.(status := Rejected, rejectionCode := code)],
                  inbox := db.inbox.(photoRejected := db.inbox.photoRejected + note)),
              Ok(job))
  }

  function RecordValidationFailure(db: Db, policy: Policy, j: JobId, worker: WorkerId, code: string,
                                   retryable: bool, now: Time): Outcome<Job<Verdict>>
  {
    if j !in db.validations.rows then Outcome(db, Err(ValidationJobNotFound)) else
      var job := db.validations.rows[j];
      if job.status.Done? then Outcome(db, Err(ValidationAlreadyCompleted))
      else if job.status.Failed? then Outcome(db, Ok(job))
      else if !job.status.Processing? then Outcome(db, Err(ValidationNotProcessing))
      else if job.worker != Some(worker) then Outcome(db, Err(ValidationLeaseLost))
      else
        var failed := FailedAttempt(job, code, retryable, policy, now);
        var db' := db.(validations := Update(db.validations, j, failed));
        if failed.status.Failed? && job.photo in db.photos && db.photos[job.photo].status.Validating? then
          var photo := db.photos[job.photo];
          Outcome(db'.(photos := db.photos[job.photo := photo.(status := Rejected,
                                                               rejectionCode := Some("VALIDATION_FAILED"))],
                       inbox := db.inbox.(photoRejected := db.inbox.photoRejected
                                                           + multiset{Note(photo.user, job.photo)})),
                  Ok(failed))
        else Outcome(db', Ok(failed))
  }

  // The embedding queue.

  function Embeddable(db: Db): set<PhotoId> {
    set p | p in db.photos && db.photos[p].status.Searching?
  }

  function ClaimEmbedding(db: Db, locked: set<JobId>, worker: WorkerId, lease: Time, now: Time): (Db, Queues.Claim) {
    var (rows, claim) := ClaimNext(db.embeddingJobs.rows, locked, Embeddable(db), worker, lease, now);
    (db.(embeddingJobs := db.embeddingJobs.(rows := rows)), claim)
  }

  function EmbeddingJobError(db: Db, j: JobId, worker: WorkerId, completedOk: bool): Option<Error> {
    if j !in db.embeddingJobs.rows then Some(EmbeddingJobNotFound) else
      var job := db.embeddingJobs.rows[j];
      if job.status.Done? then (if completedOk then None else Some(EmbeddingAlreadyCompleted))
      else if !job.status.Processing? || job.worker != Some(worker) then Some(EmbeddingLeaseLost)
      else None
  }

  function ApplyEmbeddingResult(db: Db, policy: Policy, j: JobId, worker: WorkerId, embedding: Embedding, now: Time)
    : Outcome<Job<Embedded>>
  {
    match EmbeddingJobError(db, j, worker, true)
    case Some(e) => Outcome(db, Err(e))
    case None =>
      var job := db.embeddingJobs.rows[j];
      if job.status.Done? then Outcome(db, Ok(job)) else
        var done := Delivered(job, COMPLETED, policy, now);
        Outcome(db.(embeddings := db.embeddings[job.photo := embedding],
                    embeddingJobs := Update(db.embeddingJobs, j, done)),
                Ok(done))
  }

  function RecordEmbeddingFailure(db: Db, policy: Policy, j: JobId, worker: WorkerId, code: string,
                                  retryable: bool, now: Time): Outcome<Job<Embedded>>
  {
    match EmbeddingJobError(db, j, worker, false)
    case Some(e) => Outcome(db, Err(e))
    case None =>
      var failed := FailedAttempt(db.embeddingJobs.rows[j], code, retryable, policy, now);
      Outcome(db.(embeddingJobs := Update(db.embeddingJobs, j, failed)), Ok(failed))
  }

  // Matches.

  predicate Blocked(db: Db, a: UserId, b: UserId) {
    (a, b) in db.blocks || (b, a) in db.blocks
  }

  /** The block check on the owners of two photos. */
  predicate PairBlocked(db: Db, a: PhotoId, b: PhotoId) {
    a in db.photos && b in db.photos && Blocked(db, db.photos[a].user, db.photos[b].user)
  }

  /** The guards `finalize` evaluates on the two locked rows. */
  function MatchError(photos: map<PhotoId, Photo>, a: PhotoId, b: PhotoId, now: Time): Option<Error> {
    if a == b || a !in photos || b !in photos then Some(MatchPhotoNotFound)
    else if photos[a].user == photos[b].user then Some(SameUserMatch)
    else if !photos[a].status.Searching? || !photos[b].status.Searching? then Some(MatchCandidateChanged)
    else if Lapsed(photos[a], now) || Lapsed(photos[b], now) then Some(SearchPeriodExpired)
    else None
  }

  predicate Lapsed(photo: Photo, now: Time) {
    photo.searchExpiresAt.None? || photo.searchExpiresAt.value <= now
  }

  /** `finalize`, given what its unlocked read of the blocks table has answered. */
  function Finalize(db: Db, a: PhotoId, b: PhotoId, m: MatchId, explanation: string, now: Time, txn: Time,
                    blocked: bool): Outcome<MatchId>
  {
    match MatchError(db.photos, a, b, now)
    case Some(e) => Outcome(db, Err(e))
    case None =>
      if blocked then Outcome(db, Err(UserBlocked))
      else if m in db.matches || a in db.participants || b in db.participants then Outcome(db, Err(IntegrityError))
      else Outcome(RecordMatch(db, a, b, m, explanation, txn), Ok(m))
  }

  function RecordMatch(db: Db, a: PhotoId, b: PhotoId, m: MatchId, explanation: string, txn: Time): Db
    requires a in db.photos && b in db.photos
  {
    var pa, pb := db.photos[a], db.photos[b];
    db.(matches := db.matches[m := Match(explanation, txn)],
        participants := db.participants[a := Participant(m, pa.user, None)][b := Participant(m, pb.user, None)],
        photos := db.photos[a := pa.(status := Matched)][b := pb.(status := Matched)],
        inbox := db.inbox.(matched := db.inbox.matched + multiset{Note(pa.user, m), Note(pb.user, m)}))
  }

  /** strip() */
  function Trim(s: string): string {
    if s == "" then s
    else if IsSpace(s[0]) then Trim(s[1..])
    else if IsSpace(s[|s| - 1]) then Trim(s[..|s| - 1])
    else s
  }

  /** str.isspace() */
  predicate IsSpace(c: char) {
    var n := c as int;
    || 0x9 <= n <= 0xD || 0x1C <= n <= 0x20 || n == 0x85 || n == 0xA0 || n == 0x1680 || 0x2000 <= n <= 0x200A
    || n == 0x2028 || n == 0x2029 || n == 0x202F || n == 0x205F || n == 0x3000
  }

  /** `finalize_match` in one step: the blocks are those of the same moment. */
  function FinalizeMatch(db: Db, a: PhotoId, b: PhotoId, m: MatchId, explanation: string, now: Time, txn: Time)
    : Outcome<MatchId>
  {
    if a == b then Outcome(db, Err(SamePhotoMatch))
    else if Trim(explanation) == "" then Outcome(db, Err(MatchExplanationRequired))
    else Finalize(db, a, b, m, Trim(explanation), now, txn, PairBlocked(db, a, b))
  }

  function MatchRows(db: Db, m: MatchId): set<PhotoId> {
    set p | p in db.participants && db.participants[p].matchId == m
  }

  function MyRows(db: Db, user: UserId, m: MatchId): set<PhotoId> {
    set p | p in db.participants && db.participants[p].matchId == m && db.participants[p].user == user
  }

  /** `update_match_visibility`, and the hiding of a match by a report. */
  function SetHidden(db: Db, user: UserId, m: MatchId, hiddenAt: Option<Time>): Db {
    db.(participants := map p | p in db.participants ::
      if p in MyRows(db, user, m) then db.participants[p].(hiddenAt := hiddenAt) else db.participants[p])
  }

  // Blocks.

  function Block(db: Db, blocker: UserId, blocked: UserId): Outcome<()> {
    if blocker == blocked then Outcome(db, Err(CannotBlockSelf))
    else if blocked !in db.accounts || db.accounts[blocked].status.WITHDRAWN? then Outcome(db, Err(UserNotFound))
    else if (blocker, blocked) in db.blocks then Outcome(db, Err(UserAlreadyBlocked))
    else Outcome(db.(blocks := db.blocks + {(blocker, blocked)}), Ok(()))
  }

  function Unblock(db: Db, blocker: UserId, blocked: UserId): Db {
    db.(blocks := db.blocks - {(blocker, blocked)})
  }

  // Postcards.

  /** The postcards of a match, ordered by (sent_at, id). */
  function Cards(db: Db, m: MatchId): set<Key> {
    set c | c in db.postcards && db.postcards[c].matchId == m :: Key(db.postcards[c].sentAt, c)
  }

  function LastSender(db: Db, m: MatchId): Option<UserId> {
    var cards := Cards(db, m);
    if cards == {} then None else Some(db.postcards[Greatest(cards).id].sender)
  }

  function RowKeys(db: Db, m: MatchId): set<Key> {
    set p | p in db.participants && p in db.photos && db.participants[p].matchId == m :: PhotoKey(db, p)
  }

  /** The participant whose photo was registered first: the one who sends the first postcard. */
  function FirstRow(db: Db, m: MatchId): (p: PhotoId)
    requires RowKeys(db, m) != {}
    ensures p in MatchRows(db, m)
  {
    Least(RowKeys(db, m)).id
  }

  function SecondRow(db: Db, m: MatchId): (p: PhotoId)
    requires |RowKeys(db, m)| == 2
    ensures p in MatchRows(db, m)
  {
    Greatest(RowKeys(db, m)).id
  }

  /** What the sender may do, on the read side. */
  datatype Permission = CAN_SEND | BLOCKED | WAITING_FOR_FIRST | WAITING_FOR_REPLY

  function ResolvePermission(blocked: bool, firstSender: bool, lastSender: Option<UserId>, user: UserId): Permission {
    if blocked then BLOCKED
    else if lastSender.None? then (if firstSender then CAN_SEND else WAITING_FOR_FIRST)
    else if lastSender.value == user then WAITING_FOR_REPLY
    else CAN_SEND
  }

  function SameKey(db: Db, user: UserId, key: nat): set<PostcardId> {
    set c | c in db.postcards && db.postcards[c].sender == user && db.postcards[c].idempotencyKey == Some(key)
  }

  /** What the guards of `send` answer before the insert: the receiver, or the refusal. */
  function TurnCheck(db: Db, user: UserId, m: MatchId): Result<UserId> {
    if |RowKeys(db, m)| != 2 then Err(MatchNotFound) else
      var first, second := db.participants[FirstRow(db, m)].user, db.participants[SecondRow(db, m)].user;
      if user != first && user != second then Err(MatchNotFound) else
        var receiver := if first != user then first else second;
        if Blocked(db, user, receiver) then Err(UserBlocked)
        else if LastSender(db, m).None? && user != first then Err(PostcardOrderNotAllowed)
        else if LastSender(db, m) == Some(user) then Err(PostcardReplyNotReceived)
        else Ok(receiver)
  }

  /** The primary key, and UNIQUE(sender_id, idempotency_key). */
  predicate PostcardConflicts(db: Db, id: PostcardId, row: Postcard) {
    id in db.postcards
    || (row.idempotencyKey.Some? && SameKey(db, row.sender, row.idempotencyKey.value) != {})
  }

  /** `send` from the locking SELECT on. */
  function SendLocked(db: Db, user: UserId, m: MatchId, content: string, key: Option<nat>, id: PostcardId, sentAt: Time)
    : Outcome<PostcardId>
  {
    match TurnCheck(db, user, m)
    case Err(e) => Outcome(db, Err(e))
    case Ok(receiver) =>
      var card := Postcard(m, user, receiver, content, key, sentAt, None, None);
      if PostcardConflicts(db, id, card) then Outcome(db, Err(PostcardAlreadySent))
      else
        Outcome(db.(postcards := db.postcards[id := card],
                    inbox := db.inbox.(postcardReceived := db.inbox.postcardReceived + multiset{Note(receiver, id)})),
                Ok(id))
  }

  /** A postcard as its sender or receiver sees it. */
  predicate Visible(db: Db, user: UserId, c: PostcardId)
    requires c in db.postcards
  {
    var card := db.postcards[c];
    (card.sender == user && card.senderDeletedAt.None?) || (card.receiver == user && card.receiverDeletedAt.None?)
  }

  function GetPostcard(db: Db, user: UserId, c: PostcardId): Result<PostcardId> {
    if c in db.postcards && Visible(db, user, c) then Ok(c) else Err(PostcardNotFound)
  }

  /** `send`: a repeated idempotency key answers with the postcard sent before. */
  function Send(db: Db, user: UserId, m: MatchId, content: string, key: Option<nat>, id: PostcardId, sentAt: Time)
    : Outcome<PostcardId>
  {
    if key.Some? && SameKey(db, user, key.value) != {} then
      if |SameKey(db, user, key.value)| > 1 then Outcome(db, Err(MultipleResultsFound))
      else Outcome(db, GetPostcard(db, user, Only(SameKey(db, user, key.value))))
    else SendLocked(db, user, m, content, key, id, sentAt)
  }

  /** scalar_one_or_none on one row. */
  function Only(s: set<nat>): (x: nat)
    requires |s| == 1
    ensures s == {x}
  {
    var some :| some in s;
    assert s == {some} by { SubsetCount({some}, s); assert |s - {some}| == 0; }
    var x :| x in s;
    x
  }

  function DeletePostcard(db: Db, user: UserId, c: PostcardId, now: Time): Outcome<()> {
    if c !in db.postcards then Outcome(db, Err(PostcardNotFound)) else
      var card := db.postcards[c];
      if card.sender == user && card.senderDeletedAt.None? then
        Outcome(db.(postcards := db.postcards[c := card.(senderDeletedAt := Some(now))]), Ok(()))
      else if card.receiver == user && card.receiverDeletedAt.None? then
        Outcome(db.(postcards := db.postcards[c := card.(receiverDeletedAt := Some(now))]), Ok(()))
      else Outcome(db, Err(PostcardNotFound))
  }
}
