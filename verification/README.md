# DALM, modelled and proved in Dafny

DALM pairs photos: a user uploads one photo a day, a validation worker accepts or rejects it, an
embedding worker computes its feature vectors, and the backend looks for another user's photo that
resembles it. A match opens an exchange of postcards in which the two users take turns.

This project models the part of the backend that is hard to get right, the database protocol that many
API calls and workers run at the same time, and proves what it guarantees.

## How the model is built

- `Tables` is the database as a value, with one function for each committed transaction. Every function
  takes the clock readings of its transaction. An error leaves the database as it was.
- `Sessions`, `Home`, `Jobs`, `MatchStore`, `PostcardStore` are the repositories as classes: they change
  the rows of a session step by step and commit. Each method is proved to commit exactly the database, and
  to give exactly the answer, of the function in `Tables`.
- `Pipeline` is the backend as a state machine: any transactions in any order and number. A claim of a job
  is two steps, because it reads its photo without a lock. `Runs` has the invariant of all reachable
  states; `Guarantees`, `Notifications`, `Histories`, `Postcards`, `Threads`, `Turns` and `Moments` say what
  follows from it.
- `Requests` and `Mailboxes` say what each request answers and does in terms of the stored rows alone: which
  fields decide its answer, which rows it changes and which it leaves alone.
- `Uploads` takes `create_photo` apart into its statements, with other transactions between them.
- `Leases` and `Queues` are the lease protocol of one job and of one queue, also read off the events and the row
  fields alone. `Histories` shows that every row of
  every run is a history in their sense, so their theorems hold of both queues.
- `Locking` is a finer model of the transactions that lock photo rows, one row at a time: finalisation,
  deletion, and the sending of a postcard. `Refinement` shows that every interleaving is a sequential run of the
  atomic transactions, `Races` that a photo has one winner, `Deadlocks` who can wait for whom, and `BlockCheck`
  what the unlocked block check guarantees. `Composition` runs it together with the pipeline on one database.
- `Similarity`, `Ranking`, `Candidates` and `Orchestration` are the search for a partner; the orchestration
  runs while everybody else keeps changing the database.
- `Redis`, `TokenStores`, `TokenRefinement` and `TokenSafety` are the refresh-token store: the Redis scripts
  refine the in-memory map with a deadline for every token.
- `Cursor` and `Pagination` are the cursors and the keyset pages. `Ordering`, `Counting` and `Results` are shared.

Timestamps are integers (microseconds; seconds in the token store), ids are natural numbers in the order of
the UUIDs, scores and vectors are reals, and an embedding carries its square roots as its norms.

Assumptions, stated where they are used: the clock readings of a run do not run backwards; new ids are
fresh; a token id does not start with `subject:`.

Where a property one would expect of the code does not hold, the project proves exactly when it does:

- The alternation of postcards holds if and only if each accepted postcard has the greatest `(sent_at, id)` of
  its match (`Threads.AlternationIff`). `sent_at` is the time at which the sending transaction started, so the
  database does not guarantee it (`Turns.UntimelyIsAccepted`).
- `max_attempts` bounds the accepted failures of a job (`Leases.BoundedRetry`), but not its attempts, since a claim
  never looks at it (`Leases.AttemptsPassTheMaximum`). It bounds them if and only if no claim takes over a row that
  has used its last attempt (`Leases.AttemptsBoundedIff`).
- A match does not exclude a block. Every accepted match has passed a block check that found none
  (`BlockCheck.AcceptedWasChecked`), and right after its commit the two users are blocked if and only if somebody
  blocked one of them for the other in between (`BlockCheck.BlockedAtCommitIff`).
- An upload whose reads have passed can still be refused with PHOTO_CONFLICT, if and only if another photo of the
  user was inserted, rejected or deleted at the wrong moment (`Uploads.RacingUpload`).
- `revoke_all` leaves no live token of its subject, whatever the lifetimes, as long as no live token outlives the
  next one issued to its subject; the first token that does can be missed (`TokenSafety.ThoroughIffCovered`). One
  lifetime for all tokens is enough (`TokenRefinement.OneLifetimeCovers`).
- `revoke_all` reports the live tokens it revokes if and only if the index holds no expired one
  (`TokenRefinement.CallRefines`, `TokenSafety.RevokeAllCountsExpired`).
- Weights may sum to a billionth more than 1. Raw scores stay in [0, 1] if and only if they do not
  (`Ranking.RawScoreInRangeIff`, `Ranking.RawScorePassesOne`); the published, rounded score always does.
- A finalisation of a pair that has been matched and a send in that match can deadlock if and only if the photo
  registered first has the greater id (`Deadlocks.DeadlockIff`).
- The documented status diagram has no deletion of a photo that is being validated or was rejected; the code
  allows both, and the model follows the code.

## Model

| member | source | states |
|---|---|---|
| Runs.RunInv | app/repositories.py:725-1437 | every reachable state satisfies the invariant: rows about one photo agree, claims in flight hold open rows, no two photos clash, matches are paired and notified |
| Guarantees.PipelineStates | app/repositories.py:1251-1437 | in every reachable state: an open validation means the photo is VALIDATING, REJECTED or DELETED; a VALIDATING photo has an open one; PASSED means SEARCHING, MATCHED, EXPIRED or DELETED; REJECTED or FAILED means the photo is REJECTED or DELETED; an embedding job exists exactly when validation PASSED, an embedding exactly when that job is COMPLETED, and a MATCHED photo has one |
| Guarantees.Conservation | app/matching.py:49-99 | in every reachable state MATCHED photos, participants, MATCHED notifications and twice the matches are equally many; a photo is MATCHED iff a participant names it; a match has exactly two rows of two users; each participant is notified exactly once |
| Guarantees.RunMovesForward | app/repositories.py:692-864 | between any two moments of a run every photo only moves forward along the status edges and keeps its owner and registration time, and no match, participant or embedding is undone |
| Guarantees.NoComeback | app/repositories.py:744-762 | no photo becomes active again; MATCHED and DELETED are final |
| Guarantees.UploadsNeverConflict | app/repositories.py:744-816 | in every reachable state an upload with fresh ids that nobody overtakes has one of three answers, each iff a condition on the user's own photos; neither unique constraint nor a second row then shows |
| Uploads.RacingUpload | app/repositories.py:746-814 | with any transactions of others between the read of today's photo, the release of checksums, the read of duplicates and the commit: an upload with fresh ids is refused with PHOTO_CONFLICT iff its reads pass and another photo overtook it or slipped through; if it succeeds it did what an upload in one step at its commit would do, else nothing |
| Uploads.RacingAnswers | app/repositories.py:746-814 | each answer of a racing upload iff its condition, and its reads never find two rows |
| Uploads.ConflictIff | app/models.py:88-95 | after passing reads the constraints refuse the insert iff an active photo of the same day was uploaded since, or a photo with the checksum was uploaded since the release or turned from active to rejected or deleted between release and read |
| Runs.AtMostOne | alembic/versions/0003_home_domain.py:49-55 | under the invariant a user has at most one active photo per day and at most one holder of a checksum, so the `scalar_one_or_none` reads never see two rows |
| Guarantees.WritesNeverConflict | app/models.py:145-200 | a verdict never creates a second embedding job and a match never a second participant row for a photo |
| Guarantees.RedeliveryChangesNothing | app/repositories.py:1302-1374 | delivering any sequence of validation results leaves the same database as delivering only the first one that is accepted |
| Requests.CreatePhotoAnswers | app/repositories.py:692-816 | for an active, onboarded user in a reachable state TODAY_PHOTO_ALREADY_EXISTS iff a photo of the user and that day is SEARCHING, MATCHED or EXPIRED, or is VALIDATING and was registered less than 15 minutes before the sweep; DUPLICATE_PHOTO iff none is, but such a photo has the checksum; the account refusals iff their conditions; success otherwise |
| Requests.CreatePhotoEffect | app/repositories.py:692-762 | of the photos that are there, exactly the user's own VALIDATING ones of at least 15 minutes change status, to REJECTED with VALIDATION_TIMEOUT, whatever the answer; a checksum is released only by an accepted upload and only on the user's rejected and deleted photos with it |
| Requests.UploadAdds | app/repositories.py:763-816 | an accepted upload adds one photo and a waiting validation, or in mock mode a SEARCHING photo of seven days, a PASSED validation and a waiting embedding job |
| Requests.DeletePhotoAnswers | app/repositories.py:847-864 | accepted iff the photo is the caller's and neither deleted nor matched, each refusal iff its condition; only its status and deletion time change |
| Requests.ExpireDueEffect | app/expiration.py:20-46 | in every reachable state exactly the SEARCHING photos registered at least seven days ago become EXPIRED |
| Requests.ValidationClaimAnswers | app/repositories.py:1251-1300 | nothing iff no unlocked row is due by its fields; the row taken is handed out iff its photo is VALIDATING, else FAILED with PHOTO_NOT_AVAILABLE; no other row changes |
| Requests.EmbeddingClaimAnswers | app/embedding_jobs.py:22-63 | the same with SEARCHING |
| Requests.ValidationClaimInTwoSteps | app/repositories.py:1251-1300 | the state machine can begin the claim of a row iff `claim_next` takes it, and beginning and committing it at once do what `claim_next` does |
| Requests.EmbeddingClaimInTwoSteps | app/embedding_jobs.py:22-63 | the same for embedding jobs |
| Requests.NoJobIsLost | app/repositories.py:1281-1300 | in every run, whatever happens between its unlocked read and its commit, a claim gives a validation up only if its photo is then REJECTED or DELETED, and an embedding job only if it is MATCHED, EXPIRED or DELETED |
| Requests.ValidationResultAnswers | app/repositories.py:1302-1336 | every answer to a validation result by status and worker of the row and status of its photo, in the order of the checks |
| Requests.ValidationResultEffect | app/repositories.py:1337-1374 | an accepted result decides the row; PASSED makes the photo SEARCHING until seven days after its registration and adds a waiting embedding job, REJECTED rejects it with the given code |
| Requests.ValidationFailureAnswers | app/repositories.py:1376-1402 | accepted iff it comes from the worker that holds the row, each refusal iff its status; a FAILED row is answered again |
| Requests.ValidationFailureEffect | app/repositories.py:1403-1437 | in every run: after an accepted failure the row is PENDING iff it was retryable and its claims in the run are fewer than max_attempts, then due exactly retry_base * 2^(claims - 1) later; else it is FAILED, and a VALIDATING photo is rejected in exactly that case |
| Requests.EmbeddingResultAnswers | app/embedding_jobs.py:65-90 | accepted iff it comes from the worker that holds the job; then job and embedding are written and no photo changes; a completed job is answered again, anything else refused |
| Requests.EmbeddingFailureEffect | app/embedding_jobs.py:92-118 | in every run: the answer by status and worker; after an accepted failure PENDING iff retryable and the claims in the run are fewer than max_attempts, with the same exact delay, else FAILED; no photo changes |
| Requests.FinalizeMatchAnswers | app/matching.py:29-71 | in every reachable state each answer by the rows, in the order of the checks: same photo, blank text, missing photo, same user, status, seven days, block, success |
| Requests.FinalizeMatchEffect | app/matching.py:72-103 | an accepted finalisation adds the match with the stripped text, one participant and one notification for each side, makes the two photos MATCHED, and changes no other photo or participant |
| Requests.TrimStrips | app/matching.py:117-119 | strip() gives the part of the text between its first and last character that is not blank |
| Requests.BlockAnswers | app/repositories.py:345-360 | a block is accepted iff it names another user, not withdrawn, whom the blocker has not blocked; it shuts off both directions, and lifting it restores the database |
| Requests.UnblockEffect | app/repositories.py:362-366 | lifting a block takes away that block only, not the one in the other direction |
| Runs.StepEvolves | app/repositories.py:692-864 | every step changes photo statuses only along the edges of the code and keeps matches |
| Notifications.EverybodyIsTold | app/repositories.py:1343-1374 | in every reachable state: exactly one VALIDATION_PASSED per passed photo, one PHOTO_REJECTED per rejection or final failure of a waiting photo and none for a timeout, and one SEARCH_EXPIRED iff the photo was EXPIRED at some moment of the run, each to the owner and to nobody else |
| Notifications.ExpireNotifies | app/expiration.py:20-46 | the sweep adds a notification iff its photo belongs to its user and was just turned to EXPIRED, and only one |
| Leases.Tally | app/repositories.py:1294-1299 | over every history of a job: attempts are the claims; for an open job they are its failures and takeovers, plus one while it is processed |
| Leases.BoundedRetry | app/repositories.py:1407-1415 | a job accepts at most max(1, max_attempts) failures, and has at most max_attempts claims plus takeovers |
| Leases.AttemptsPassTheMaximum | app/repositories.py:1260-1299 | a concrete history in which a takeover pushes attempt_count past max_attempts |
| Leases.AttemptsBoundedIff | app/repositories.py:1260-1299 | with max_attempts of at least 1, attempt_count stays within it iff no claim took over a row that had used its last attempt |
| Leases.TerminalIsFinal | app/repositories.py:1320-1324 | a row that accepts anything is open; a result or a retirement is the last event of its history |
| Leases.OnlyTheHolderReports | app/embedding_jobs.py:120-136 | a failure, or a result for a row being processed, is accepted only right after a claim and only from that claim's worker |
| Leases.ClaimsAreSeparated | app/repositories.py:1257-1281 | two claims of one job are separated by an accepted failure or by more than the lease |
| Leases.RetriesAreSpacedOut | app/repositories.py:1407-1410 | after r accepted failures the next claim is at least retry_base * (2^r - 1) after the first |
| Leases.HistoryTellsStatus | app/repositories.py:1294-1415 | status, worker, lease start, attempts, retry time and error of a row are told by its last event and the number of its claims |
| Leases.AcceptsExactly | app/repositories.py:1257-1415 | an event extends a history iff it is a claim or retirement of a row that is new, was left at least a retry delay ago or was claimed more than the lease ago, a report from the last claimer, or a validation result while the row waits |
| Leases.RetryIsTaken | app/repositories.py:1261-1276 | after a failure that scheduled a retry, a claim is accepted iff it comes at failure time plus retry_base * 2^(claims - 1) or later |
| Leases.Pow2Adds | app/repositories.py:1407-1410 | the factor of the delay is a power of two: 1 and 2 at first, and multiplied when the exponents are added |
| Histories.ValidationRowsHaveHistories | app/repositories.py:1251-1437 | every validation row of every run is explained by a history of the lease protocol, or was decided at upload |
| Histories.EmbeddingRowsHaveHistories | app/embedding_jobs.py:22-136 | every embedding job of every run is explained by a history of the lease protocol |
| Histories.RunBoundsRetries | app/repositories.py:1403-1415 | in every run, for both queues: the accepted failures of a job are at most max(1, max_attempts), its attempts at most max_attempts plus takeovers |
| Queues.DrainReachesLive | app/embedding_jobs.py:22-63 | behind k claimable orphans, repeated calls retire one orphan each and hand out a live job by call k + 1 |
| Queues.ClaimAnswers | app/repositories.py:1259-1300 | a call finds nothing iff nothing is claimable; otherwise it decides the oldest claimable row and no other; a retired row is never claimable again |
| Queues.ClaimByFields | app/repositories.py:1259-1300 | nothing is found iff every row that is not locked is finished, PENDING with its retry in the future, or PROCESSING with a lease that still runs; otherwise the first other row by creation and id is claimed, field by field, iff its photo is available, and retired if not |
| Jobs.PhotoValidationRepository.ClaimNext | app/repositories.py:1251-1300 | commits the claim or retirement of the oldest claimable row, nothing iff no unlocked row is due by its fields, and hands out the committed row with its photo iff the photo is being validated |
| Jobs.PhotoValidationRepository.ApplyResult | app/repositories.py:1302-1374 | commits verdict, photo, embedding job and notification together, or answers the specified error and commits nothing |
| Jobs.PhotoValidationRepository.RecordFailure | app/repositories.py:1376-1437 | commits the retry iff retryable and attempts are left, with its exact time, and the final failure otherwise, with the rejection of a waiting photo in that case only |
| Jobs.PhotoEmbeddingJobRepository.ClaimNext | app/embedding_jobs.py:22-63 | as for validations, for photos that are searching |
| Jobs.PhotoEmbeddingJobRepository.LockedJob | app/embedding_jobs.py:120-136 | answers the locked job or the specified refusal |
| Jobs.PhotoEmbeddingJobRepository.ApplyResult | app/embedding_jobs.py:65-90 | commits embedding and completed job together; a completed job is answered again without a change |
| Jobs.PhotoEmbeddingJobRepository.RecordFailure | app/embedding_jobs.py:92-118 | commits the retry iff retryable and attempts are left, with its exact time, and the final failure otherwise |
| Home.HomeRepository.CreatePhoto | app/repositories.py:725-816 | the sweep of stale validations commits by itself; then the upload commits all its rows or none, with the specified answer |
| Home.HomeRepository.ExpireStaleValidations | app/repositories.py:692-709 | commits the timeout of exactly the user's VALIDATING photos registered at least 15 minutes ago |
| Home.HomeRepository.DeletePhoto | app/repositories.py:847-864 | marks the photo deleted, or refuses with the specified code |
| Home.SqlExpirationStore.ExpireDue | app/expiration.py:20-46 | commits the end of all due searches with one notification per changed row |
| MatchStore.SqlMatchFinalizationStore.Finalize | app/matching.py:29-103 | reads rows and blocks, and commits match, two participants, two MATCHED photos and two notifications together, or rolls back with the specified refusal |
| MatchStore.SqlMatchFinalizationStore.LockPhotos | app/matching.py:37-50 | the locked rows are the existing ones of the two photos, in ascending id order |
| MatchStore.FinalizeSymmetric | app/matching.py:106-128 | finalisation does not depend on the order in which the two photos are given |
| Refinement.InterleavingsAreSequential | app/matching.py:37-103 | every interleaving of any number of finalisations, deletions and sends that lock, read, check and commit step by step, with any other transactions in between, has a log of atomic transactions that replays to the same database |
| Refinement.AnswersAreLogged | app/matching.py:37-103 | the log has every finished call exactly once, with the answer its caller got, and no unfinished one |
| Races.OneWinner | app/repositories.py:847-864 | over every interleaving at most one accepted finalisation or deletion takes a photo |
| Races.RaceHasOneWinner | app/matching.py:37-103 | in every interleaving with any number of other calls: of a finalisation and a deletion of one of its photos, each of which could succeed alone, exactly one is accepted once both have finished, unless a third accepted call took one of the two photos or the match id, or another transaction changed one of the two rows or blocked the two users |
| Races.FirstWins | app/repositories.py:853-861 | the one that decides first is accepted; the other is refused with PHOTO_ALREADY_MATCHED or MATCH_CANDIDATE_CHANGED |
| Races.OthersAreElsewhere | app/repositories.py:692-1437 | every other transaction of the backend is one of those that the interleavings allow |
| Composition.EveryMomentSound | app/matching.py:37-103 | at every moment of every interleaving of locked transactions with whole pipeline transactions the database satisfies the pipeline's invariant, and the run is one of the fine-grained model |
| Deadlocks.NoDeadlock | app/matching.py:37-48 | finalisations, deletions, and sends whose photos are registered in id order never wait in a cycle |
| Deadlocks.CycleHasInvertedSend | app/repositories.py:528-538 | every cycle of waiting transactions has a send whose first-registered photo has the greater id |
| Deadlocks.DeadlockIff | app/repositories.py:528-538 | a finalisation of a pair and a send in the match of that pair can come to wait for each other iff the photo registered first has the greater id |
| Deadlocks.SomebodyMoves | app/matching.py:37-48 | as long as a transaction is unfinished, and no unfinished send is of that kind, some transaction can make its next move |
| BlockCheck.AcceptedWasChecked | app/matching.py:61-78 | in every interleaving every accepted finalisation made its block check before its commit, and at that moment neither user had blocked the other |
| BlockCheck.BlockedAtCommitIff | app/matching.py:61-97 | right after the commit the two users are blocked iff another transaction inserted a block between them after the check and before the commit, and it is still there |
| BlockCheck.BlockAfterTheCheck | app/matching.py:61-97 | whenever a finalisation has passed its block check, such a block can still appear and the commit still succeed |
| Candidates.ListCandidates | app/photo_embeddings.py:125-201 | lists distinct candidates, longest-waiting first, at most the limit, leaving out only later ones and only if the limit is reached |
| Candidates.CandidatesArePairable | app/photo_embeddings.py:171-201 | a photo is a candidate of a searching photo iff it has an embedding and, by the row fields, both are SEARCHING and not lapsed, of two users, and neither has blocked the other |
| Candidates.MayAsk | app/photo_embeddings.py:136-151 | a photo may ask iff it is SEARCHING and was registered less than seven days ago; PHOTO_NOT_FOUND iff it is not there |
| Candidates.FinalizeIffPairable | app/matching.py:51-97 | with a fresh match id and an explanation the finalisation succeeds iff those conditions on the row fields hold |
| Orchestration.OnlyCaughtRefusals | app/embedding_jobs.py:175-184 | once a candidate has been listed, whatever happens meanwhile, the finalisation succeeds or is refused with one of the three caught codes |
| Orchestration.ExplanationIsKept | app/embedding_jobs.py:196-206 | the generated explanation is never blank and survives strip() |
| Orchestration.ExplanationNamesTheBest | app/embedding_jobs.py:196-206 | it names the highest of the five scores and then the highest of the others, in the order scene, objects, composition, color, mood among equals |
| Orchestration.TryCandidates | app/embedding_jobs.py:172-184 | with other transactions before every try, the first candidate in rank order whose guards hold when tried is paired in one transaction; nothing is paired iff none fits |
| Orchestration.OrchestrateMatch | app/embedding_jobs.py:162-184 | the whole call: it fails iff the photo has an embedding and is no longer searching when asked, does nothing iff it fails or there is no embedding, and otherwise ranks what it listed and pairs the photo with the first candidate that fits when tried, or with none; it makes no other change |
| Orchestration.QuietTakesTheBest | app/embedding_jobs.py:162-184 | if nobody interferes the best-ranked listed candidate is taken at the first try |
| Ranking.RankCandidates | app/match_ranking.py:68-101 | the candidates that pass the floors, each as often as given, sorted by rounded score and id; one is in the list iff the sum of its six scores, each times its own weight, passes, and its published score is that sum rounded to a millionth |
| Ranking.SelectBestCandidate | app/match_ranking.py:104-109 | a passing candidate that no other is ahead of, by the weighted sum of its six scores, or none iff none passes |
| Ranking.PassingExactly | app/match_ranking.py:82-97 | exactly the candidates passing the three floors are ranked |
| Ranking.OwnWeights | app/match_ranking.py:86-92 | each of the six scores counts with its own weight and nothing else counts |
| Ranking.DefaultRanking | app/match_ranking.py:30-66 | by number: who is published, and with which score, without weights and floors of one's own |
| Ranking.RankingIgnoresInputOrder | app/match_ranking.py:98-101 | for distinct ids the ranking depends on which candidates are given, not on their order |
| Ranking.FinalScoreBounds | app/match_ranking.py:30-53 | rounded scores lie in [0, 1] for every accepted weighting, raw scores too if the weights do not sum to more than 1 |
| Ranking.RawScoreInRangeIff | app/match_ranking.py:30-53 | every raw score lies in [0, 1] iff the weights do not sum to more than 1 |
| Ranking.RawScorePassesOne | app/match_ranking.py:30-53 | accepted weights and scores with a raw score of more than 1 |
| Ranking.AheadByRawScore | app/match_ranking.py:90-101 | who is ranked ahead has a raw score at least the other's minus a millionth |
| Ranking.RankedAgainstScoreIff | app/match_ranking.py:90-101 | a candidate with the smaller raw score is ranked ahead iff both round alike and it has the lower id |
| Ranking.RoundingCanReorder | app/match_ranking.py:90-101 | two candidates with different raw scores that rounding ranks the other way round |
| Similarity.CosineNeverClampedAbove | app/embedding_jobs.py:139-145 | by the Cauchy-Schwarz inequality the quotient never exceeds 1, for nonzero vectors of any length: the upper clamp does nothing, and the cosine is the quotient, or 0 if that is negative |
| Similarity.ScoresAcceptedAndSymmetric | app/embedding_jobs.py:148-159 | scoring never violates the range check of the scores, and is symmetric |
| Similarity.EqualEmbeddingsScoreOne | app/embedding_jobs.py:148-159 | equal embeddings with nonzero vectors score exactly 1 in everything |
| Similarity.CosineIs | app/embedding_jobs.py:139-145 | for vectors with their norms: the only number that times both norms is the dot product, 0 if that is negative, and 0 for zero, empty or differently long vectors |
| Similarity.ScoresOfOwnFeatures | app/embedding_jobs.py:148-159 | each score is the cosine of the two vectors of its own feature; three times the semantic score is scene, objects and mood together |
| Similarity.DotLinear | app/embedding_jobs.py:139-145 | the dot product is linear |
| Similarity.DotPicks | app/embedding_jobs.py:139-145 | the dot product with a unit vector is the coordinate: with linearity this fixes the dot product |
| Postcards.PermissionAgreesInEveryRun | app/repositories.py:212-227 | in every reachable state what a reader is shown is what a sender is answered: CAN_SEND iff accepted, and each refusal iff its code |
| Postcards.SendKeepsThreadIff | app/repositories.py:533-572 | an accepted postcard keeps the alternation of its match iff it is the latest of the match |
| Threads.AlternationIff | app/repositories.py:511-590 | over every run: at every moment the postcards of every match alternate, the first participant first, iff every accepted postcard was the latest of its match |
| Threads.DropKeepsCards | app/repositories.py:640-652 | deleting from a mailbox takes no postcard out of the thread and changes no sender |
| Turns.ExactlyOneTurn | app/repositories.py:212-227 | in every reachable state exactly one participant of an unblocked match can send |
| Turns.PermissionByFields | app/repositories.py:212-227 | the permission shown by the rows: BLOCKED iff either has blocked the other; before the first postcard CAN_SEND iff one's photo was registered first; then iff the latest postcard is the other's |
| Turns.LastSenderIsLatest | app/repositories.py:554-564 | the last sender is that of the postcard with the greatest (sent_at, id) of the match |
| Turns.DeletionGrantsNoTurn | app/repositories.py:640-652 | a mailbox deletion changes no answer to any send |
| Turns.CountsDifferByOne | app/repositories.py:554-564 | in an alternating thread of n postcards the first participant wrote (n + 1) / 2 and the second n / 2 |
| Turns.TimelyRunCounts | app/repositories.py:554-564 | over every run of timely postcards the two participants wrote all of them, and the first at most one more |
| Turns.UntimelyIsAccepted | app/models.py:256-270 | in every unblocked match with a postcard, a send dated earlier is accepted and breaks the alternation |
| Turns.OnePostcardPerKey | app/repositories.py:511-527 | in every reachable state a sender's idempotency key names at most one postcard and each postcard has exactly one notification |
| Turns.RetryChangesNothing | app/repositories.py:514-527 | repeating a key of a postcard one has sent changes nothing and answers with that postcard unless its sender has deleted it, then with POSTCARD_NOT_FOUND |
| Turns.SendIsIdempotent | app/repositories.py:511-590 | an accepted send answers the same when repeated, even with another match or text |
| PostcardStore.PostcardRepository.Send | app/repositories.py:511-590 | commits postcard and notification together, or answers the specified refusal or replay |
| PostcardStore.PostcardRepository.List | app/repositories.py:592-611 | the first size + 1 postcards of the mailbox below the cursor, latest first |
| PostcardStore.PostcardRepository.Delete | app/repositories.py:640-652 | marks the postcard deleted for one side, or answers POSTCARD_NOT_FOUND |
| Mailboxes.SentAppears | app/repositories.py:564-611 | an accepted postcard appears in its sender's sent and the other participant's received mailbox and in no other |
| Mailboxes.DeletionDisappears | app/repositories.py:592-652 | a deletion is accepted iff the postcard is in one of the user's mailboxes, and takes it out of that one only |
| Mailboxes.OthersLeaveMailboxes | app/repositories.py:592-652 | no other transaction changes a mailbox |
| Mailboxes.MailboxListed | app/repositories.py:592-611 | the pages of an unchanging mailbox list exactly the postcards one has sent or received and not deleted, latest first |
| Moments.RowsArePhotos | app/repositories.py:959-992 | in every reachable state the outer joins give exactly one row per selected photo |
| Moments.PagesMatchCounts | app/repositories.py:921-1047 | in every reachable state the items over all pages for a status are as many as the counter reports |
| Moments.RowsShowTheMatch | app/repositories.py:993-1017 | a row has a partner iff its photo is matched, and shows the permission of the match page |
| Moments.AllOrHidden | app/repositories.py:959-992 | in every reachable state the joined rows of the lists ALL and HIDDEN have no row in common and together number the photos that are not deleted; only matched photos are hidden |
| Moments.ListedByFields | app/repositories.py:921-992 | by the rows: a list has exactly the viewer's photos that are not deleted and not of the excluded day, hidden ones in HIDDEN only, and of the status asked for |
| Moments.HidingIsPrivate | app/repositories.py:1123-1138 | hiding or showing a match changes nobody else's list |
| Moments.HidingMovesMine | app/repositories.py:1123-1138 | it moves exactly the user's photo of that match between the two lists |
| Pagination.NoRowTwice | app/main.py:963-966 | whatever is inserted or deleted between requests, no row is returned twice and pages descend |
| Pagination.EveryLastingRow | app/repositories.py:986-992 | a row that is there at every request of a finished traversal is returned exactly once |
| Pagination.NothingInvented | app/repositories.py:986-992 | every returned row was in the table when it was requested |
| Pagination.FixedTable | app/main.py:963-966 | on a fixed table of n rows the traversal ends within n / size + 1 requests and is the table in descending order |
| Cursor.CursorRoundTrip | app/main.py:558-573 | decoding an encoded cursor gives back its timestamp and id, through base64url without padding and the split at the first bar |
| Cursor.CursorInjective | app/main.py:558-560 | different rows have different cursors |
| TokenStores.InMemoryRefreshTokenStore.RevokeAll | app/token_store.py:55-60 | removes exactly the subject's tokens and counts them |
| TokenStores.InMemoryRefreshTokenStore.Rotate | app/token_store.py:33-46 | exchanges the token iff the subject owns it |
| TokenStores.RedisRefreshTokenStore.Rotate | app/token_store.py:64-80 | the script's commands one after the other have exactly the specified effect and answer |
| TokenStores.RedisRefreshTokenStore.RevokeAll | app/token_store.py:91-99 | the loop deletes every indexed key and the index, and answers their number |
| TokenRefinement.RunCoupled | app/token_store.py:63-154 | over every run with fresh ids, with any lifetimes as long as no live token outlives the next one of its subject, every live token is live in Redis and in its subject's index, and the index outlives it |
| TokenRefinement.OneLifetimeCovers | app/token_store.py:63-154 | if all tokens have one lifetime, no live token ever outlives the next one |
| TokenRefinement.CallRefines | app/token_store.py:63-154 | one call keeps that and answers as the map with deadlines does; `revoke_all` may count more, and counts the same iff the index holds no expired token |
| TokenSafety.RedisAnswersAsSpecified | app/token_store.py:111-146 | over every such run the Redis store answers `register`, `rotate` and `revoke` as the map with deadlines |
| TokenSafety.TokenLifecycle | app/token_store.py:63-146 | what each call does to every token at every later moment: registering issues one for its lifetime; a rotation or revocation is accepted iff the old token then stands for the subject, and ends it; no other token is affected |
| TokenSafety.MemoryIsSpec | app/token_store.py:23-60 | until a token expires, the in-memory store has the same tokens and answers as the map with deadlines |
| TokenSafety.RotatesOnce | app/token_store.py:64-80 | over every run with fresh ids, whatever the lifetimes, each token id rotates successfully at most once |
| TokenSafety.RotationKeepsCount | app/token_store.py:33-46 | a rotation keeps everybody's number of live tokens |
| TokenSafety.RevokeAllIsThorough | app/token_store.py:91-99 | after `revoke_all` Redis has no token of the subject, and every other token as before |
| TokenSafety.ThoroughIffCovered | app/token_store.py:64-118 | after a register or rotation with any lifetime, `revoke_all` at every later moment leaves no live token of the subject iff no live token of the subject outlives the one just issued |
| TokenSafety.RevokeAllCountsExpired | app/token_store.py:91-99 | a concrete run in which one live token is revoked and two are reported |
| TokenSafety.ShorterLifetimeHidesTokens | app/token_store.py:111-118 | two registrations with different lifetimes after which `revoke_all` leaves a live token behind |

## Left out

- HTTP routes, envelopes, authentication of requests, Kakao, Apple, JWT, object storage, image processing and worker loops: input and output around the protocol.
- Profile edits, reports, terms, device tokens, notification settings, read marks, viewed marks and the searching-photos list: straight-line code that would only add easy members.
- The mock embedding provider with its `_unit_vector`, and the mock validator: stand-ins.
- Titles, messages, image URLs, model names, validation scores and processing times: stored, never read by the modelled code.
- `storage_key` is taken to be set, as `create_photo` always sets it; the branch for a missing one in the two claims is not modelled.
- Floating point: scores are exact reals, so rounding errors of cosine and weighted sums are not captured.
- Cursor.CursorRoundTrip: the texts of timestamps and UUIDs are an abstract printer and parser that agree, with no bar in a timestamp; ISO 8601 and the UUID syntax are not modelled.
- Orchestration.OrchestrateMatch: the finalisation it tries is one step with its block check; the steps inside it, and blocks appearing between them, are in Locking and BlockCheck.
- Postcards.PermissionAgreesInEveryRun: a send that repeats an idempotency key is a replay and has no permission to agree with.
- PostcardStore.PostcardRepository.Send: the join that reads the sent postcard back is taken to find the viewer's participant row, which every sender and receiver has; nicknames and thumbnails are not modelled.
- Moments.PagesMatchCounts: it is about a fixed snapshot; between requests the table may change, and then the Pagination theorems apply.
- Locking models a locked read as the current committed row and a rollback as no change. A send is modelled by the photo rows it locks; its postcard is a change of its own while it holds them. Bulk updates only appear as other transactions that leave locked rows alone, and their own waiting is not part of the deadlock theorems.
- Two requests with one idempotency key at the same time: the second one is refused by the unique constraint, as in `SendLocked`.
- Withdrawal of a user does not touch photos, and accounts change freely in the model.
