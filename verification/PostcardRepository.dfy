/** Sending, listing and deleting postcards. */
module PostcardStore {
  import opened Results
  import opened Ordering
  import opened Leases
  import opened Tables
  import opened Sessions
  import opened Pagination

  datatype Mailbox = Received | Sent

  function MailboxKeys(db: Db, user: UserId, box: Mailbox): set<Key> {
    set c | c in db.postcards
            && (if box.Received? then db.postcards[c].receiver == user && db.postcards[c].receiverDeletedAt.None?
                else db.postcards[c].sender == user && db.postcards[c].senderDeletedAt.None?)
         :: Key(db.postcards[c].sentAt, c)
  }

  /** Two rows in ascending order are the least and the greatest. */
  lemma SortedPair(keys: set<Key>)
    requires |keys| == 2
    ensures |Sort(keys)| == 2 && Sort(keys)[0] == Least(keys) && Sort(keys)[1] == Greatest(keys)
  {
    var s := Sort(keys);
    assert s[0] in s && s[1] in s;
    assert Least(keys) in s && Greatest(keys) in s;
  }

  class PostcardRepository {
    const session: Session

    constructor (session: Session)
      ensures this.session == session
    {
      this.session := session;
    }

    method Get(user: UserId, id: PostcardId) returns (r: Result<PostcardId>)
      ensures r == GetPostcard(session.work, user, id)
    {
      if id !in session.work.postcards { return Err(PostcardNotFound); }
      var card := session.work.postcards[id];
      if card.sender == user && card.senderDeletedAt.None? { return Ok(id); }
      if card.receiver == user && card.receiverDeletedAt.None? { return Ok(id); }
      r := Err(PostcardNotFound);
    }

    /** The turn rules, on the locked rows of the match in the order of their photos. */
    method CheckTurn(user: UserId, m: MatchId) returns (r: Result<UserId>)
      ensures r == TurnCheck(session.work, user, m)
    {
      var keys := RowKeys(session.work, m);
      var rows := Sort(keys);
      if |rows| != 2 { return Err(MatchNotFound); }
      SortedPair(keys);
      var participants := session.work.participants;
      var first, second := participants[FirstRow(session.work, m)].user, participants[SecondRow(session.work, m)].user;
      if user != first && user != second { return Err(MatchNotFound); }
      var receiver := if first != user then first else second;
      if Blocked(session.work, user, receiver) { return Err(UserBlocked); }
      var last := ReadLastSender(m);
      if last.None? {
        if user != first { return Err(PostcardOrderNotAllowed); }
      } else if last.value == user {
        return Err(PostcardReplyNotReceived);
      }
      r := Ok(receiver);
    }

    /** ORDER BY sent_at DESC, id DESC LIMIT 1 */
    method ReadLastSender(m: MatchId) returns (last: Option<UserId>)
      ensures last == LastSender(session.work, m)
    {
      var cards := Sort(Cards(session.work, m));
      LastOf(Cards(session.work, m));
      if cards == [] { return None; }
      last := Some(session.work.postcards[cards[|cards| - 1].id].sender);
    }

    /** `id` is the new postcard's id, `sentAt` the server's clock. */
    method Send(user: UserId, m: MatchId, content: string, key: Option<nat>, id: PostcardId, sentAt: Time)
      returns (r: Result<PostcardId>)
      requires session.Clean()
      modifies session
      ensures Outcome(session.committed, r) == Tables.Send(old(session.committed), user, m, content, key, id, sentAt)
    {
      if key.Some? {
        var existing := SameKey(session.work, user, key.value);
        if |existing| > 1 { return Err(MultipleResultsFound); }
        if existing != {} {
          r := Get(user, Only(existing));
          return;
        }
      }
      var receiver := CheckTurn(user, m);
      if receiver.Err? { return Err(receiver.error); }
      session.AddPostcard(id, Postcard(m, user, receiver.value, content, key, sentAt, None, None));
      var inbox := session.work.inbox;
      session.Notify(inbox.(postcardReceived := inbox.postcardReceived + multiset{Note(receiver.value, id)}));
      var ok := session.Commit();
      if !ok {
        session.Rollback();
        return Err(PostcardAlreadySent);
      }
      r := Get(user, id);
    }

    /** The first `size + 1` postcards below the cursor. */
    method List(user: UserId, box: Mailbox, size: nat, cursor: Option<Key>) returns (rows: seq<Key>)
      ensures rows == Query(MailboxKeys(session.work, user, box), size, cursor)
    {
      var keys := Below(MailboxKeys(session.work, user, box), cursor);
      var descending := Reverse(Sort(keys));
      ReverseLists(Sort(keys), keys);
      assert Decreasing(descending);
      DecreasingUnique(descending, Descending(keys));
      rows := Take(descending, size + 1);
    }

    method Delete(user: UserId, id: PostcardId, now: Time) returns (r: Result<()>)
      requires session.Clean()
      modifies session
      ensures Outcome(session.committed, r) == DeletePostcard(old(session.committed), user, id, now)
    {
      if id !in session.work.postcards { return Err(PostcardNotFound); }
      var card := session.work.postcards[id];
      if card.sender == user && card.senderDeletedAt.None? {
        card := card.(senderDeletedAt := Some(now));
      } else if card.receiver == user && card.receiverDeletedAt.None? {
        card := card.(receiverDeletedAt := Some(now));
      } else {
        return Err(PostcardNotFound);
      }
      session.Write(session.work.(postcards := session.work.postcards[id := card]));
      var ok := session.Commit();
      r := Ok(());
    }
  }

  lemma LastOf(keys: set<Key>)
    ensures keys != {} ==> Sort(keys) != [] && Sort(keys)[|keys| - 1] == Greatest(keys)
    ensures keys == {} ==> Sort(keys) == []
  {
    if keys != {} {
      var s, g := Sort(keys), Greatest(keys);
      assert g in s && s[|s| - 1] in s;
      var i :| 0 <= i < |s| && s[i] == g;
      assert i < |s| - 1 ==> Less(g, s[|s| - 1]);
    }
  }
}
