/** Which photos are offered to a photo that is searching, and how they relate to the guards of the
    finalisation. */
module Candidates {
  import opened Results
  import opened Ordering
  import opened Leases
  import opened Tables
  import opened Pipeline
  import opened Similarity
  import Pagination

  const CANDIDATE_LIMIT := 100

  /** The checks of `list_candidates` on the source photo. */
  function SourceError(db: Db, source: PhotoId, now: Time): Option<Error> {
    if source !in db.photos then Some(PhotoNotFound)
    else if !db.photos[source].status.Searching? || Lapsed(db.photos[source], now) then Some(PhotoNotSearching)
    else None
  }

  /** The WHERE clause of `build_candidate_query`. */
  predicate IsCandidate(db: Db, source: PhotoId, user: UserId, now: Time, q: PhotoId) {
    && q in db.photos && q in db.embeddings
    && var photo := db.photos[q];
    && q != source
    && photo.user != user
    && photo.status.Searching?
    && photo.deletedAt.None?
    && photo.registeredAt >= now - 7 * DAY
    && photo.searchExpiresAt.Some?
    && photo.searchExpiresAt.value > now
    && !Blocked(db, user, photo.user)
  }

  function CandidateKeys(db: Db, source: PhotoId, user: UserId, now: Time): set<Key> {
    set q | q in db.photos && IsCandidate(db, source, user, now, q) :: PhotoKey(db, q)
  }

  /** Registered earlier, or at the same moment with the smaller id. */
  predicate Before(db: Db, p: PhotoId, q: PhotoId) {
    && p in db.photos && q in db.photos
    && (db.photos[p].registeredAt < db.photos[q].registeredAt
        || (db.photos[p].registeredAt == db.photos[q].registeredAt && p < q))
  }

  /** The `limit` longest-waiting candidates, and their embeddings. */
  method ListCandidates(db: Db, source: PhotoId, user: UserId, now: Time, limit: nat)
    returns (ids: seq<PhotoId>)
    ensures |ids|
            == if |CandidateKeys(db, source, user, now)| < limit then |CandidateKeys(db, source, user, now)| else limit
    ensures forall i :: 0 <= i < |ids| ==> IsCandidate(db, source, user, now, ids[i])
    ensures forall i, j :: 0 <= i < j < |ids| ==> Before(db, ids[i], ids[j])
    ensures forall q :: IsCandidate(db, source, user, now, q) && q !in ids ==>
      |ids| == limit && forall i :: 0 <= i < |ids| ==> Before(db, ids[i], q)
  {
    var keys := CandidateKeys(db, source, user, now);
    var sorted := Sort(keys);
    var rows := Pagination.Take(sorted, limit);
    forall i | 0 <= i < |rows|
      ensures rows[i].id in db.photos && IsCandidate(db, source, user, now, rows[i].id)
      ensures rows[i] == PhotoKey(db, rows[i].id)
    {
      assert rows[i] in sorted;
      assert rows[i] in keys;
    }
    ids := seq(|rows|, i requires 0 <= i < |rows| => rows[i].id);
    assert forall t :: 0 <= t < |ids| ==> sorted[t].id == ids[t] && ids[t] in ids;
    forall q | IsCandidate(db, source, user, now, q) && q !in ids
      ensures |ids| == limit && forall i :: 0 <= i < |ids| ==> Before(db, ids[i], q)
    {
      var k := PhotoKey(db, q);
      assert k in keys && k in sorted;
      var j :| 0 <= j < |sorted| && sorted[j] == k;
    }
  }

  // Offered and pairable are the same thing.

  /** What `finalize` demands at one moment: two photos of two users, both searching for a time that has not
      come yet, and no block in either direction. */
  predicate Pairable(db: Db, a: PhotoId, b: PhotoId, now: Time) {
    && a in db.photos && b in db.photos && a != b
    && db.photos[a].user != db.photos[b].user
    && db.photos[a].status.Searching? && db.photos[b].status.Searching?
    && db.photos[a].searchExpiresAt.Some? && db.photos[a].searchExpiresAt.value > now
    && db.photos[b].searchExpiresAt.Some? && db.photos[b].searchExpiresAt.value > now
    && (db.photos[a].user, db.photos[b].user) !in db.blocks
    && (db.photos[b].user, db.photos[a].user) !in db.blocks
  }

  /** A photo may ask for candidates iff it is there, searching, and was registered less than seven days ago. */
  lemma MayAsk(db: Db, source: PhotoId, now: Time)
    requires Consistent(db)
    ensures SourceError(db, source, now).None?
            <==> source in db.photos && db.photos[source].status.Searching?
                 && now < db.photos[source].registeredAt + 604800000000
    ensures SourceError(db, source, now) == Some(PhotoNotFound) <==> source !in db.photos
  {
    assert Agree(db, source);
  }

  /** The candidates of a searching photo are exactly the embedded photos it could be paired with at
      that moment: the extra conditions of the query (not deleted, registered within seven days) follow
      from the others. */
  lemma CandidatesArePairable(db: Db, source: PhotoId, now: Time, q: PhotoId)
    requires Consistent(db) && SourceError(db, source, now).None?
    ensures IsCandidate(db, source, db.photos[source].user, now, q)
            <==> q in db.embeddings && Pairable(db, source, q, now)
  {
    assert Agree(db, q);
  }

  /** An explanation needs more than blanks, and a match id nobody has used: then a pairing at one moment
      is accepted exactly if the two photos are pairable. */
  lemma FinalizeIffPairable(db: Db, a: PhotoId, b: PhotoId, m: MatchId, explanation: string, now: Time, txn: Time)
    requires Consistent(db) && m !in db.matches && Trim(explanation) != ""
    ensures FinalizeMatch(db, a, b, m, explanation, now, txn).result.Ok? <==> Pairable(db, a, b, now)
    ensures FinalizeMatch(db, a, b, m, explanation, now, txn).result.Err? ==>
      FinalizeMatch(db, a, b, m, explanation, now, txn).db == db
  {
    assert Agree(db, a) && Agree(db, b);
  }
}
