/** Finalising a match. */
module MatchStore {
  import opened Results
  import opened Leases
  import opened Tables
  import opened Sessions

  class SqlMatchFinalizationStore {
    const session: Session

    constructor (session: Session)
      ensures this.session == session
    {
      this.session := session;
    }

    /** The rows of the locking SELECT, in ascending id order. */
    method LockPhotos(a: PhotoId, b: PhotoId) returns (ids: seq<PhotoId>)
      ensures forall p :: p in ids <==> p in {a, b} && p in session.work.photos
      ensures forall i, j :: 0 <= i < j < |ids| ==> ids[i] < ids[j]
      ensures |ids| == 2 <==> a != b && a in session.work.photos && b in session.work.photos
      ensures |ids| == 2 ==> ids == if a < b then [a, b] else [b, a]
    {
      var ordered := if a < b then [a, b] else if b < a then [b, a] else [a];
      ids := [];
      for i := 0 to |ordered|
        invariant forall p :: p in ids <==> p in ordered[..i] && p in session.work.photos
        invariant forall i, j :: 0 <= i < j < |ids| ==> ids[i] < ids[j]
        invariant |ids| <= i && (|ids| == i ==> ids == ordered[..i])
        invariant |ids| < i ==> exists p :: p in ordered[..i] && p !in session.work.photos
      {
        if ordered[i] in session.work.photos { ids := ids + [ordered[i]]; }
      }
      assert ordered[..|ordered|] == ordered;
    }

    /** One transaction: all guards, then the match, both participants, both photos and both
        notifications, or nothing. */
    method Finalize(a: PhotoId, b: PhotoId, m: MatchId, explanation: string, now: Time, txn: Time)
      returns (r: Result<MatchId>)
      requires session.Clean()
      modifies session
      ensures Outcome(session.committed, r)
              == Tables.Finalize(old(session.committed), a, b, m, explanation, now, txn,
                                 PairBlocked(old(session.committed), a, b))
      ensures session.Clean()
    {
      var photos := LockPhotos(a, b);
      if |photos| != 2 { session.Rollback(); return Err(MatchPhotoNotFound); }
      var first, second := session.work.photos[photos[0]], session.work.photos[photos[1]];
      if first.user == second.user { session.Rollback(); return Err(SameUserMatch); }
      if !first.status.Searching? || !second.status.Searching? {
        session.Rollback();
        return Err(MatchCandidateChanged);
      }
      if Lapsed(first, now) || Lapsed(second, now) { session.Rollback(); return Err(SearchPeriodExpired); }
      if Blocked(session.work, first.user, second.user) { session.Rollback(); return Err(UserBlocked); }
      FinalizeSymmetric(session.committed, a, b, m, explanation, now, txn, false);
      r := Record(photos[0], photos[1], m, explanation, txn);
    }

    /** One round of the loop over the photos. */
    method Mark(p: PhotoId, m: MatchId)
      requires p in session.work.photos
      modifies session`work
      ensures session.work == MarkOne(old(session.work), m, p)
    {
      var photo := session.work.photos[p];
      session.Write(session.work.(photos := session.work.photos[p := photo.(status := Matched)]));
      var inbox := session.work.inbox;
      session.Notify(inbox.(matched := inbox.matched + multiset{Note(photo.user, m)}));
    }

    /** The loop. */
    method MarkAll(photos: seq<PhotoId>, m: MatchId)
      requires forall p :: p in photos ==> p in session.work.photos
      modifies session`work
      ensures session.work == Marked(old(session.work), m, photos)
    {
      ghost var added := session.work;
      for i := 0 to |photos|
        invariant session.work == Marked(added, m, photos[..i])
      {
        assert photos[i] in photos && photos[..i + 1][..i] == photos[..i];
        Mark(photos[i], m);
      }
      assert photos[..|photos|] == photos;
    }

    /** The match and its participants join the session. */
    method AddRows(a: PhotoId, b: PhotoId, m: MatchId, row: Match)
      requires session.Clean() && a != b && a in session.work.photos && b in session.work.photos
      modifies session`work, session`violated
      ensures session.violated == !Insertable(old(session.work), m, a, b)
      ensures session.work.photos == old(session.work).photos
      ensures !session.violated ==> session.work == Added(old(session.work), m, row, a, b)
    {
      session.AddMatch(m, row);
      session.AddParticipant(a, Participant(m, session.work.photos[a].user, None));
      session.AddParticipant(b, Participant(m, session.work.photos[b].user, None));
    }

    /** The new rows, the two photos and the notifications, committed together. */
    method Record(a: PhotoId, b: PhotoId, m: MatchId, explanation: string, txn: Time) returns (r: Result<MatchId>)
      requires session.Clean() && a != b && a in session.committed.photos && b in session.committed.photos
      modifies session
      ensures session.Clean()
      ensures r == if Insertable(old(session.committed), m, a, b) then Ok(m) else Err(IntegrityError)
      ensures session.committed == if r.Ok? then RecordMatch(old(session.committed), a, b, m, explanation, txn)
                                   else old(session.committed)
    {
      var photos := [a, b];
      AddRows(a, b, m, Match(explanation, txn));
      MarkAll(photos, m);
      MarkedPair(session.committed, m, explanation, txn, a, b);
      var ok := session.Commit();
      if !ok { session.Rollback(); return Err(IntegrityError); }
      r := Ok(m);
    }
  }

  predicate Insertable(db: Db, m: MatchId, a: PhotoId, b: PhotoId) {
    m !in db.matches && a !in db.participants && b !in db.participants
  }

  /** The match and its two participants. */
  function Added(db: Db, m: MatchId, row: Match, a: PhotoId, b: PhotoId): Db
    requires a in db.photos && b in db.photos
  {
    db.(matches := db.matches[m := row],
        participants := db.participants[a := Participant(m, db.photos[a].user, None)]
                                       [b := Participant(m, db.photos[b].user, None)])
  }

  /** One photo marked as matched, with its notification. */
  function MarkOne(db: Db, m: MatchId, p: PhotoId): (db': Db)
    requires p in db.photos
    ensures db'.photos.Keys == db.photos.Keys
    ensures forall q :: q in db.photos ==> db'.photos[q].user == db.photos[q].user
  {
    db.(photos := db.photos[p := db.photos[p].(status := Matched)],
        inbox := db.inbox.(matched := db.inbox.matched + multiset{Note(db.photos[p].user, m)}))
  }

  function Marked(db: Db, m: MatchId, ids: seq<PhotoId>): (db': Db)
    requires forall p :: p in ids ==> p in db.photos
    ensures db'.photos.Keys == db.photos.Keys
    ensures forall p :: p in db.photos ==> db'.photos[p].user == db.photos[p].user
  {
    if ids == [] then db else MarkOne(Marked(db, m, ids[..|ids| - 1]), m, ids[|ids| - 1])
  }

  lemma MarkedTwo(db: Db, m: MatchId, a: PhotoId, b: PhotoId)
    requires a in db.photos && b in db.photos
    ensures Marked(db, m, [a, b]) == MarkOne(MarkOne(db, m, a), m, b)
  {
    assert Marked(db, m, []) == db;
    assert [a][..0] == [] && [a, b][..1] == [a];
    assert Marked(db, m, [a]) == MarkOne(db, m, a);
  }

  lemma MarkedPair(db: Db, m: MatchId, explanation: string, txn: Time, a: PhotoId, b: PhotoId)
    requires a in db.photos && b in db.photos && a != b
    ensures Marked(Added(db, m, Match(explanation, txn), a, b), m, [a, b]) == RecordMatch(db, a, b, m, explanation, txn)
  {
    var added := Added(db, m, Match(explanation, txn), a, b);
    var marked, expected := MarkOne(MarkOne(added, m, a), m, b), RecordMatch(db, a, b, m, explanation, txn);
    MarkedTwo(added, m, a, b);
    assert marked.photos == expected.photos && marked.participants == expected.participants;
    assert marked.inbox.matched == expected.inbox.matched;
  }

  /** It does not matter in which order the two photos are given. */
  lemma FinalizeSymmetric(db: Db, a: PhotoId, b: PhotoId, m: MatchId, explanation: string, now: Time, txn: Time,
                          blocked: bool)
    ensures Finalize(db, a, b, m, explanation, now, txn, blocked)
            == Finalize(db, b, a, m, explanation, now, txn, blocked)
  {
    if Finalize(db, a, b, m, explanation, now, txn, blocked).result.Ok? {
      RecordSymmetric(db, a, b, m, explanation, txn);
    }
  }

  lemma RecordSymmetric(db: Db, a: PhotoId, b: PhotoId, m: MatchId, explanation: string, txn: Time)
    requires a in db.photos && b in db.photos && a != b
    ensures RecordMatch(db, a, b, m, explanation, txn) == RecordMatch(db, b, a, m, explanation, txn)
  {
    var x, y := RecordMatch(db, a, b, m, explanation, txn), RecordMatch(db, b, a, m, explanation, txn);
    assert x.participants == y.participants && x.photos == y.photos;
  }
}
