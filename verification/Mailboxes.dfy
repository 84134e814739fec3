/** What a user finds in the mailboxes: every postcard is in its sender's and in its receiver's, until that
    user deletes it. */
module Mailboxes {
  import opened Results
  import opened Ordering
  import opened Leases
  import opened Tables
  import opened Pipeline
  import opened Runs
  import opened Postcards
  import opened Threads
  import opened Turns
  import opened PostcardStore
  import Pagination
  import Cursor

  /** At first every mailbox is empty. */
  lemma MailboxStartsEmpty(user: UserId, box: Mailbox)
    ensures MailboxKeys(EMPTY_DB, user, box) == {}
  {}

  /** An accepted postcard appears, under its time of sending, in the sent mailbox of its sender and the received
      mailbox of the other participant, and changes no other mailbox. */
  lemma SentAppears(db: Db, user: UserId, m: MatchId, content: string, key: Option<nat>, id: PostcardId, at: Time,
                    who: UserId, box: Mailbox)
    returns (receiver: UserId)
    requires Consistent(db) && Paired(db) && SendLocked(db, user, m, content, key, id, at).result.Ok?
    ensures receiver != user && MyRows(db, receiver, m) != {}
    ensures var db' := SendLocked(db, user, m, content, key, id, at).db;
      MailboxKeys(db', who, box)
      == MailboxKeys(db, who, box)
         + if who == (if box.Sent? then user else receiver) then {Key(at, id)} else {}
  {
    var card := SentCard(db, user, m, content, key, id, at);
    receiver := card.receiver;
    var db' := SendLocked(db, user, m, content, key, id, at).db;
    CardAdded(db, db', id, card, who, box);
  }

  lemma CardAdded(db: Db, db': Db, id: PostcardId, card: Postcard, who: UserId, box: Mailbox)
    requires id !in db.postcards && db'.postcards == db.postcards[id := card] && card.sender != card.receiver
    requires card.senderDeletedAt == card.receiverDeletedAt == None
    ensures MailboxKeys(db', who, box)
            == MailboxKeys(db, who, box)
               + if who == (if box.Sent? then card.sender else card.receiver) then {Key(card.sentAt, id)} else {}
  {
    var added := if who == (if box.Sent? then card.sender else card.receiver) then {Key(card.sentAt, id)} else {};
    forall k ensures k in MailboxKeys(db', who, box) <==> k in MailboxKeys(db, who, box) + added {
      KeyInMailbox(db, who, box, k);
      KeyInMailbox(db', who, box, k);
    }
  }

  /** The mailbox of the user that a postcard belongs to. */
  function BoxOf(card: Postcard, user: UserId): Mailbox {
    if card.sender == user then Sent else Received
  }

  /** A deletion is accepted iff the postcard is in a mailbox of the user. It takes it out of that mailbox and
      changes no other, not even the other user's. */
  lemma DeletionDisappears(db: Db, user: UserId, c: PostcardId, now: Time, who: UserId, box: Mailbox)
    requires Filed(db)
    ensures var r := DeletePostcard(db, user, c, now);
      && (r.result.Ok? <==> c in db.postcards
                            && Key(db.postcards[c].sentAt, c) in MailboxKeys(db, user, BoxOf(db.postcards[c], user)))
      && (r.result.Err? ==> r == Outcome(db, Err(PostcardNotFound)))
      && (r.result.Ok? ==>
            MailboxKeys(r.db, who, box)
            == MailboxKeys(db, who, box)
               - if who == user && box == BoxOf(db.postcards[c], user) then {Key(db.postcards[c].sentAt, c)} else {})
  {
    assert Addressed(db, c);
    var r := DeletePostcard(db, user, c, now);
    if c in db.postcards { KeyInMailbox(db, user, BoxOf(db.postcards[c], user), Key(db.postcards[c].sentAt, c)); }
    if r.result.Ok? { CardMarked(db, r.db, c, user, now, who, box); }
  }

  lemma CardMarked(db: Db, db': Db, c: PostcardId, user: UserId, now: Time, who: UserId, box: Mailbox)
    requires c in db.postcards && db.postcards[c].sender != db.postcards[c].receiver
    requires db.postcards[c].sender == user || db.postcards[c].receiver == user
    requires db'.postcards == db.postcards[c := if db.postcards[c].sender == user
                                                then db.postcards[c].(senderDeletedAt := Some(now))
                                                else db.postcards[c].(receiverDeletedAt := Some(now))]
    ensures MailboxKeys(db', who, box)
            == MailboxKeys(db, who, box)
               - if who == user && box == BoxOf(db.postcards[c], user) then {Key(db.postcards[c].sentAt, c)} else {}
  {
    var mine := if who == user && box == BoxOf(db.postcards[c], user) then {Key(db.postcards[c].sentAt, c)} else {};
    forall k ensures k in MailboxKeys(db', who, box) <==> k in MailboxKeys(db, who, box) - mine {
      KeyInMailbox(db, who, box, k);
      KeyInMailbox(db', who, box, k);
    }
  }

  lemma KeyInMailbox(db: Db, user: UserId, box: Mailbox, k: Key)
    ensures k in MailboxKeys(db, user, box)
            <==> && k.id in db.postcards && k.at == db.postcards[k.id].sentAt
                 && var card := db.postcards[k.id];
                 if box == Sent then card.sender == user && card.senderDeletedAt == None
                 else card.receiver == user && card.receiverDeletedAt == None
  {}

  /** No other transaction changes a mailbox. */
  lemma OthersLeaveMailboxes(c: Config, s: Sys, step: Step, user: UserId, box: Mailbox)
    requires Enabled(c, s, step) && !step.SendCard? && !step.DropCard?
    ensures MailboxKeys(Next(c, s, step).db, user, box) == MailboxKeys(s.db, user, box)
  {
    OthersKeepPostcards(c, s, step);
  }

  /** A traversal of a mailbox that does not change meanwhile lists all of it, latest first. */
  lemma MailboxListed(db: Db, user: UserId, box: Mailbox, format: Cursor.Format, requests: nat, size: nat)
    requires Cursor.Lossless(format) && size >= 1 && requests > |MailboxKeys(db, user, box)| / size
    ensures var tables := Pagination.Unchanging(MailboxKeys(db, user, box), requests);
      var items := Pagination.Items(Pagination.Pages(Pagination.Follow(format, tables, size, None)));
      && (forall c :: c in db.postcards ==>
            (Key(db.postcards[c].sentAt, c) in items <==>
               || (box == Sent && db.postcards[c].sender == user && db.postcards[c].senderDeletedAt == None)
               || (box == Received && db.postcards[c].receiver == user && db.postcards[c].receiverDeletedAt == None)))
      && forall i, j :: 0 <= i < j < |items| ==>
           items[i].at > items[j].at || (items[i].at == items[j].at && items[i].id > items[j].id)
  {
    var keys := MailboxKeys(db, user, box);
    Pagination.FixedTable(format, keys, requests, size);
    assert Lists(Descending(keys), keys);
    forall c | c in db.postcards
      ensures Key(db.postcards[c].sentAt, c) in keys <==>
              || (box == Sent && db.postcards[c].sender == user && db.postcards[c].senderDeletedAt == None)
              || (box == Received && db.postcards[c].receiver == user && db.postcards[c].receiverDeletedAt == None)
    {
      KeyInMailbox(db, user, box, Key(db.postcards[c].sentAt, c));
    }
  }
}
