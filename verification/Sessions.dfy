/** A database session: statements change its working copy, which a commit publishes. A violated
    unique constraint shows when the commit flushes the new rows. */
module Sessions {
  import opened Results
  import opened Leases
  import opened Queues
  import opened Tables

  class Session {
    var committed: Db
    var work: Db
    var violated: bool

    constructor (db: Db)
      ensures committed == work == db && !violated
    {
      committed, work, violated := db, db, false;
    }

    /** Nothing pending. */
    predicate Clean()
      reads this
    {
      work == committed && !violated
    }

    method Commit() returns (ok: bool)
      modifies this
      ensures ok == !old(violated)
      ensures ok ==> committed == work == old(work) && !violated
      ensures !ok ==> committed == old(committed) && work == old(work) && violated
    {
      ok := !violated;
      if ok { committed := work; }
    }

    method Rollback()
      modifies this
      ensures committed == old(committed) && Clean()
    {
      work, violated := committed, false;
    }

    /** An UPDATE statement, or the flush of changed rows. */
    method Write(db: Db)
      modifies this`work
      ensures work == db
    {
      work := db;
    }

    method AddPhoto(id: PhotoId, photo: Photo)
      modifies this`work, this`violated
      ensures violated <==> old(violated) || PhotoConflicts(old(work), id, photo)
      ensures work == if PhotoConflicts(old(work), id, photo) then old(work)
                      else old(work).(photos := old(work).photos[id := photo])
    {
      if PhotoConflicts(work, id, photo) { violated := true; }
      else { work := work.(photos := work.photos[id := photo]); }
    }

    method AddValidation(id: JobId, row: Job<Verdict>)
      modifies this`work, this`violated
      ensures violated <==> old(violated) || Insert(old(work).validations, id, row).None?
      ensures work == match Insert(old(work).validations, id, row)
                      case None => old(work)
                      case Some(rows) => old(work).(validations := rows)
    {
      var rows := Insert(work.validations, id, row);
      if rows.None? { violated := true; } else { work := work.(validations := rows.value); }
    }

    method AddEmbeddingJob(id: JobId, row: Job<Embedded>)
      modifies this`work, this`violated
      ensures violated <==> old(violated) || Insert(old(work).embeddingJobs, id, row).None?
      ensures work == match Insert(old(work).embeddingJobs, id, row)
                      case None => old(work)
                      case Some(rows) => old(work).(embeddingJobs := rows)
    {
      var rows := Insert(work.embeddingJobs, id, row);
      if rows.None? { violated := true; } else { work := work.(embeddingJobs := rows.value); }
    }

    method AddMatch(id: MatchId, row: Match)
      modifies this`work, this`violated
      ensures violated <==> old(violated) || id in old(work).matches
      ensures work == if id in old(work).matches then old(work)
                      else old(work).(matches := old(work).matches[id := row])
    {
      if id in work.matches { violated := true; } else { work := work.(matches := work.matches[id := row]); }
    }

    method AddParticipant(photo: PhotoId, row: Participant)
      modifies this`work, this`violated
      ensures violated <==> old(violated) || photo in old(work).participants
      ensures work == if photo in old(work).participants then old(work)
                      else old(work).(participants := old(work).participants[photo := row])
    {
      if photo in work.participants { violated := true; }
      else { work := work.(participants := work.participants[photo := row]); }
    }

    /** The primary key, and UNIQUE(sender_id, idempotency_key). */
    method AddPostcard(id: PostcardId, row: Postcard)
      modifies this`work, this`violated
      ensures violated <==> old(violated) || PostcardConflicts(old(work), id, row)
      ensures work == if PostcardConflicts(old(work), id, row) then old(work)
                      else old(work).(postcards := old(work).postcards[id := row])
    {
      if PostcardConflicts(work, id, row) { violated := true; }
      else { work := work.(postcards := work.postcards[id := row]); }
    }

    method Notify(inbox: Inbox)
      modifies this`work
      ensures work == old(work).(inbox := inbox)
    {
      work := work.(inbox := inbox);
    }
  }
}
