/** Uploads, deletions, and the sweep of searches that have run out. */
module Home {
  import opened Results
  import opened Leases
  import opened Queues
  import opened Tables
  import opened Sessions

  class HomeRepository {
    const session: Session

    constructor (session: Session)
      ensures this.session == session
    {
      this.session := session;
    }

    method ExpireStaleValidations(user: UserId, now: Time)
      requires session.Clean()
      modifies session
      ensures session.Clean() && session.committed == Tables.ExpireStaleValidations(old(session.committed), user, now)
      ensures forall p :: p in old(session.committed.photos) ==>
        var photo := old(session.committed.photos)[p];
        && p in session.committed.photos
        && session.committed.photos[p]
           == if photo.user == user && photo.status.Validating? && photo.registeredAt + 900000000 <= now
              then photo.(status := Rejected, rejectionCode := Some("VALIDATION_TIMEOUT")) else photo
    {
      session.Write(Tables.ExpireStaleValidations(session.work, user, now));
      var ok := session.Commit();
    }

    /** The upload: it leaves exactly the rows and the answer of the specification. `sweep`, `now` and
        `txn` are the clock readings of its two transactions. */
    method CreatePhoto(u: Upload, sweep: Time, now: Time, txn: Time) returns (r: Result<Photo>)
      requires session.Clean()
      modifies session
      ensures Outcome(session.committed, r) == Tables.CreatePhoto(old(session.committed), u, sweep, now, txn)
    {
      var accounts := session.work.accounts;
      if u.user !in accounts || !accounts[u.user].status.ACTIVE? { return Err(AccountNotActive); }
      if !accounts[u.user].onboarded { return Err(OnboardingRequired); }
      ExpireStaleValidations(u.user, sweep);
      var today := ActiveToday(session.work, u.user, u.date);
      if |today| > 1 { return Err(MultipleResultsFound); }
      if today != {} { return Err(TodayPhotoAlreadyExists); }
      session.Write(ReleaseChecksums(session.work, u.user, u.checksum));
      var duplicates := Duplicates(session.work, u.user, u.checksum);
      if |duplicates| > 1 { return Err(MultipleResultsFound); }
      if duplicates != {} { return Err(DuplicatePhoto); }
      r := AddUpload(u, now, txn);
    }

    /** The new rows, and one commit for all of them. */
    method AddUpload(u: Upload, now: Time, txn: Time) returns (r: Result<Photo>)
      requires !session.violated
      requires session.work == session.committed.(photos := session.work.photos)
      modifies session
      ensures Outcome(session.committed, r) == CommitUpload(old(session.committed), old(session.work), u, now, txn)
    {
      var photo := Photo(u.user, if u.mockPassed then Searching else Validating, Some(u.checksum), u.date, now,
                         if u.mockPassed then Some(now + 7 * DAY) else None, None, None);
      session.AddPhoto(u.photo, photo);
      if u.mockPassed {
        session.AddValidation(u.validation, Job(u.photo, Done(PASSED), 1, None, None, None, txn, Some(now), None));
        session.AddEmbeddingJob(u.embeddingJob, NewJob(u.photo, txn));
        var inbox := session.work.inbox;
        session.Notify(inbox.(validationPassed := inbox.validationPassed + multiset{Note(u.user, u.photo)}));
      } else {
        session.AddValidation(u.validation, NewJob(u.photo, txn));
      }
      var ok := session.Commit();
      if !ok {
        session.Rollback();
        return Err(PhotoConflict);
      }
      r := Ok(photo);
    }

    method DeletePhoto(user: UserId, id: PhotoId, now: Time) returns (r: Result<()>)
      requires session.Clean()
      modifies session
      ensures Outcome(session.committed, r) == Tables.DeletePhoto(old(session.committed), user, id, now)
    {
      if id !in session.work.photos { return Err(PhotoNotFound); }
      var photo := session.work.photos[id];
      if photo.status.Deleted? { return Err(PhotoNotFound); }
      if photo.user != user { return Err(PhotoNotOwned); }
      if !(photo.status.Validating? || photo.status.Rejected? || photo.status.Searching? || photo.status.Expired?) {
        return Err(if photo.status.Matched? then PhotoAlreadyMatched else PhotoDeleteNotAllowed);
      }
      photo := photo.(status := Deleted);
      photo := photo.(deletedAt := Some(now));
      session.Write(session.work.(photos := session.work.photos[id := photo]));
      var ok := session.Commit();
      r := Ok(());
    }
  }

  class SqlExpirationStore {
    const session: Session

    constructor (session: Session)
      ensures this.session == session
    {
      this.session := session;
    }

    /** The UPDATE returns the rows it has changed, and each of them gets a notification. */
    method ExpireDue(now: Time) returns (ids: set<PhotoId>)
      requires session.Clean()
      modifies session
      ensures Outcome(session.committed, Ok(ids)) == Tables.ExpireDue(old(session.committed), now)
    {
      var before := session.work;
      var rows := Due(before, now);
      session.Write(SearchEnded(before, rows));
      var left := rows;
      while left != {}
        invariant left <= rows
        invariant !session.violated && session.committed == old(session.committed)
        invariant session.work == SearchEnded(before, rows).(inbox := before.inbox.(searchExpired :=
          before.inbox.searchExpired + Notices(before, rows - left)))
        decreases |left|
      {
        var p :| p in left;
        var inbox := session.work.inbox;
        NoticeAdded(before, rows - left, p);
        assert rows - (left - {p}) == (rows - left) + {p};
        session.Notify(inbox.(searchExpired := inbox.searchExpired + multiset{Note(before.photos[p].user, p)}));
        left := left - {p};
      }
      assert rows - left == rows;
      var ok := session.Commit();
      ids := rows;
    }
  }

  lemma NoticeAdded(db: Db, ids: set<PhotoId>, p: PhotoId)
    requires ids + {p} <= db.photos.Keys && p !in ids
    ensures Notices(db, ids + {p}) == Notices(db, ids) + multiset{Note(db.photos[p].user, p)}
  {
    var notes := set q | q in ids :: Note(db.photos[q].user, q);
    assert (set q | q in ids + {p} :: Note(db.photos[q].user, q)) == notes + {Note(db.photos[p].user, p)};
  }
}
