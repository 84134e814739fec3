/** Whose turn it is, how often each side has written, and what a repeated request does. */
module Turns {
  import opened Results
  import opened Ordering
  import opened Leases
  import opened Tables
  import opened Pipeline
  import opened Runs
  import opened Postcards
  import opened Threads

  // The register of postcards.

  /** A postcard goes from one participant of its match to the other. */
  predicate Addressed(db: Db, c: PostcardId) {
    c in db.postcards ==>
      var card := db.postcards[c];
      && card.sender != card.receiver
      && MyRows(db, card.sender, card.matchId) != {}
      && MyRows(db, card.receiver, card.matchId) != {}
  }

  ghost predicate Filed(db: Db) {
    Recorded(db) && forall c {:trigger Addressed(db, c)} :: Addressed(db, c)
  }

  lemma RowsStay(db: Db, db': Db, u: UserId, m: MatchId)
    requires MatchesKept(db, db') && MyRows(db, u, m) != {}
    ensures MyRows(db', u, m) != {}
  {
    var p :| p in MyRows(db, u, m);
    assert p in MyRows(db', u, m);
  }

  /** A transaction that changes nothing about postcards but their deletion marks. */
  lemma FiledElsewhere(db: Db, db': Db)
    requires Filed(db) && MatchesKept(db, db') && db'.inbox.postcardReceived == db.inbox.postcardReceived
    requires db'.postcards.Keys == db.postcards.Keys
    requires forall c :: c in db.postcards ==> Sealed(db'.postcards[c]) == Sealed(db.postcards[c])
    ensures Filed(db')
  {
    forall c ensures Addressed(db', c) {
      assert Addressed(db, c);
      if c in db.postcards { StillAddressed(db, db', c); }
    }
    forall x, y ensures KeysApart(db', x, y) {
      assert KeysApart(db, x, y);
      if x in db.postcards && y in db.postcards {
        assert Sealed(db'.postcards[x]) == Sealed(db.postcards[x]) && Sealed(db'.postcards[y])
               == Sealed(db.postcards[y]);
      }
    }
    forall n ensures Announced(db', n) {
      assert Announced(db, n);
      if n.target in db.postcards { assert Sealed(db'.postcards[n.target]) == Sealed(db.postcards[n.target]); }
    }
  }

  lemma StillAddressed(db: Db, db': Db, c: PostcardId)
    requires MatchesKept(db, db') && c in db.postcards && c in db'.postcards && Addressed(db, c)
    requires Sealed(db'.postcards[c]) == Sealed(db.postcards[c])
    ensures Addressed(db', c)
  {
    var card := db.postcards[c];
    assert db'.postcards[c].sender == card.sender && db'.postcards[c].receiver == card.receiver
      && db'.postcards[c].matchId == card.matchId;
    RowsStay(db, db', card.sender, card.matchId);
    RowsStay(db, db', card.receiver, card.matchId);
  }

  /** What an accepted postcard looks like. */
  lemma SentCard(db: Db, user: UserId, m: MatchId, content: string, key: Option<nat>, id: PostcardId, at: Time)
    returns (card: Postcard)
    requires Consistent(db) && Paired(db) && SendLocked(db, user, m, content, key, id, at).result.Ok?
    ensures id !in db.postcards && card.sender == user && card.sender != card.receiver && card.idempotencyKey == key
    ensures key.Some? ==> SameKey(db, user, key.value) == {}
    ensures MyRows(db, user, m) != {} && MyRows(db, card.receiver, m) != {} && card.matchId == m
    ensures card.senderDeletedAt == card.receiverDeletedAt == None && card.content == content && card.sentAt == at
    ensures var db' := SendLocked(db, user, m, content, key, id, at).db;
      db' == db.(postcards := db.postcards[id := card],
                 inbox := db.inbox.(postcardReceived := db.inbox.postcardReceived + multiset{Note(card.receiver, id)}))
  {
    SentToMatch(db, user, m, content, key, id, at);
    var first, second := MatchPair(db, m);
    var a, b := db.participants[first].user, db.participants[second].user;
    card := Postcard(m, user, if a != user then a else b, content, key, at, None, None);
    assert first in MatchRows(db, m) && second in MatchRows(db, m);
    assert first in MyRows(db, a, m) && second in MyRows(db, b, m);
  }

  lemma FileCard(db: Db, db': Db, id: PostcardId, card: Postcard)
    requires Filed(db) && id !in db.postcards && card.sender != card.receiver
    requires card.idempotencyKey.Some? ==> SameKey(db, card.sender, card.idempotencyKey.value) == {}
    requires MyRows(db, card.sender, card.matchId) != {} && MyRows(db, card.receiver, card.matchId) != {}
    requires db' == db.(postcards := db.postcards[id := card],
      inbox := db.inbox.(postcardReceived := db.inbox.postcardReceived + multiset{Note(card.receiver, id)}))
    ensures Filed(db')
  {
    forall c ensures Addressed(db', c) {
      assert Addressed(db, c);
      if c in db'.postcards {
        assert MyRows(db', db'.postcards[c].sender, db'.postcards[c].matchId)
          == MyRows(db, db'.postcards[c].sender, db'.postcards[c].matchId);
        assert MyRows(db', db'.postcards[c].receiver, db'.postcards[c].matchId)
          == MyRows(db, db'.postcards[c].receiver, db'.postcards[c].matchId);
      }
    }
    forall x, y ensures KeysApart(db', x, y) {
      assert KeysApart(db, x, y);
      if card.idempotencyKey.Some? {
        var same := SameKey(db, card.sender, card.idempotencyKey.value);
        assert x !in same && y !in same;
      }
    }
    forall n ensures Announced(db', n) {
      assert Announced(db, n);
    }
  }

  lemma SendFiled(db: Db, user: UserId, m: MatchId, content: string, key: Option<nat>, id: PostcardId, at: Time)
    requires Consistent(db) && Paired(db) && Filed(db)
    ensures Filed(SendLocked(db, user, m, content, key, id, at).db)
  {
    if SendLocked(db, user, m, content, key, id, at).result.Ok? {
      var card := SentCard(db, user, m, content, key, id, at);
      FileCard(db, SendLocked(db, user, m, content, key, id, at).db, id, card);
    }
  }

  lemma StepFiled(c: Config, s: Sys, step: Step)
    requires Enabled(c, s, step) && Inv(c, s) && Filed(s.db)
    ensures Filed(Next(c, s, step).db)
  {
    StepEvolves(c, s, step);
    if step.SendCard? {
      SendFiled(s.db, step.user, step.m, step.content, step.key, step.id, step.sentAt);
    } else {
      if step.DropCard? {
        DropKeepsPostcards(s.db, step.user, step.card, step.now);
        DropFrame(s.db, step.user, step.card, step.now);
      } else {
        OthersKeepPostcards(c, s, step);
      }
      FiledElsewhere(s.db, Next(c, s, step).db);
    }
  }

  lemma {:induction false} RunFiled(c: Config, steps: seq<Step>)
    requires Run(c, steps).Some?
    ensures Filed(Run(c, steps).value.db)
  {
    if steps == [] {
      forall x, y ensures KeysApart(START.db, x, y) && Addressed(START.db, x) {}
      forall n ensures Announced(START.db, n) {}
    } else {
      var n := |steps| - 1;
      RunInv(c, steps[..n]);
      RunFiled(c, steps[..n]);
      StepFiled(c, Run(c, steps[..n]).value, steps[n]);
    }
  }

  // Retrying a send.

  /** However often a request is repeated, a sender's idempotency key names at most one postcard, and
      every postcard has exactly one notification. */
  lemma OnePostcardPerKey(c: Config, steps: seq<Step>, user: UserId, key: nat)
    requires Run(c, steps).Some?
    ensures var db := Run(c, steps).value.db;
      && |SameKey(db, user, key)| <= 1
      && forall n :: db.inbox.postcardReceived[n]
                     == if n.target in db.postcards && db.postcards[n.target].receiver == n.user then 1 else 0
  {
    RunFiled(c, steps);
    var db := Run(c, steps).value.db;
    KeyNamesOne(db, user, key);
    forall n ensures db.inbox.postcardReceived[n]
                     == if n.target in db.postcards && db.postcards[n.target].receiver == n.user then 1 else 0
    {
      assert Announced(db, n);
    }
  }

  lemma KeyNamesOne(db: Db, user: UserId, key: nat)
    requires Filed(db)
    ensures |SameKey(db, user, key)| <= 1
  {
    forall p, q | p in SameKey(db, user, key) && q in SameKey(db, user, key) ensures p == q {
      assert KeysApart(db, p, q);
    }
    Singleton(SameKey(db, user, key));
  }

  /** A request that repeats a key changes nothing, whatever else it asks for. It is answered with the
      first postcard, as long as its sender has not deleted it. */
  lemma RetryChangesNothing(db: Db, user: UserId, m: MatchId, content: string, key: nat, id: PostcardId, at: Time,
                            sent: PostcardId)
    requires Filed(db) && sent in db.postcards
    requires db.postcards[sent].sender == user && db.postcards[sent].idempotencyKey == Some(key)
    ensures var r := Send(db, user, m, content, Some(key), id, at);
      && r.db == db
      && r.result == if db.postcards[sent].senderDeletedAt.None? then Ok(sent) else Err(PostcardNotFound)
  {
    KeyNamesOne(db, user, key);
    assert sent in SameKey(db, user, key);
    assert |SameKey(db, user, key)| == 1;
    assert Only(SameKey(db, user, key)) == sent;
    assert Addressed(db, sent);
  }

  /** Once accepted, a request answers the same when it is repeated, even with another match or
      text. */
  lemma SendIsIdempotent(db: Db, user: UserId, m: MatchId, content: string, key: nat, id: PostcardId, at: Time,
                         m': MatchId, content': string, id': PostcardId, at': Time)
    requires Consistent(db) && Paired(db) && Filed(db)
    requires SendLocked(db, user, m, content, Some(key), id, at).result.Ok?
    ensures var first := Send(db, user, m, content, Some(key), id, at);
      && first.result == Ok(id) && Filed(first.db)
      && Send(first.db, user, m', content', Some(key), id', at') == Outcome(first.db, Ok(id))
  {
    var card := SentCard(db, user, m, content, Some(key), id, at);
    var first := SendLocked(db, user, m, content, Some(key), id, at);
    SendFiled(db, user, m, content, Some(key), id, at);
    assert id in SameKey(first.db, user, key);
    RetryChangesNothing(first.db, user, m', content', key, id', at', id);
  }

  // Turns.

  /** A mailbox deletion never changes what anyone may send. */
  lemma DeletionGrantsNoTurn(db: Db, u: UserId, card: PostcardId, now: Time, user: UserId, m: MatchId, content: string,
                             key: Option<nat>, id: PostcardId, at: Time)
    ensures SendLocked(DeletePostcard(db, u, card, now).db, user, m, content, key, id, at).result
            == SendLocked(db, user, m, content, key, id, at).result
  {
    var db' := DeletePostcard(db, u, card, now).db;
    DropFrame(db, u, card, now);
    DropKeepsCards(db, u, card, now, m);
    DropKeepsPostcards(db, u, card, now);
    SameRowKeys(db, db', m);
    if key.Some? { SameKeys(db, db', user, key.value); }
  }

  lemma SameRowKeys(db: Db, db': Db, m: MatchId)
    requires db'.participants == db.participants && db'.photos == db.photos
    ensures RowKeys(db', m) == RowKeys(db, m)
  {
    assert forall p :: p in db.photos ==> PhotoKey(db', p) == PhotoKey(db, p);
  }

  lemma SameKeys(db: Db, db': Db, user: UserId, key: nat)
    requires db'.postcards.Keys == db.postcards.Keys
    requires forall c :: c in db.postcards ==> Sealed(db'.postcards[c]) == Sealed(db.postcards[c])
    ensures SameKey(db', user, key) == SameKey(db, user, key)
  {
    forall c | c in db.postcards
      ensures db'.postcards[c].sender == db.postcards[c].sender
              && db'.postcards[c].idempotencyKey == db.postcards[c].idempotencyKey
    {
      assert Sealed(db'.postcards[c]) == Sealed(db.postcards[c]);
    }
  }

  /** The last sender of a match is one of its two participants. */
  lemma LastSenderTakesPart(db: Db, m: MatchId)
    requires Consistent(db) && Paired(db) && Filed(db) && m in db.matches && |RowKeys(db, m)| == 2
    ensures LastSender(db, m).None? || LastSender(db, m).value in {FirstUser(db, m), SecondUser(db, m)}
  {
    var a, b := MatchPair(db, m);
    var cards := Cards(db, m);
    if cards != {} {
      var c := Greatest(cards).id;
      assert Addressed(db, c);
      var p :| p in MyRows(db, db.postcards[c].sender, m);
      assert p in MatchRows(db, m);
    }
  }

  /** In an unblocked match exactly one of the two participants can send, in every reachable state and
      whatever the timestamps are. */
  lemma ExactlyOneTurn(c: Config, steps: seq<Step>, m: MatchId)
    requires Run(c, steps).Some? && m in Run(c, steps).value.db.matches
    ensures var db := Run(c, steps).value.db;
      && |RowKeys(db, m)| == 2
      && var a, b := FirstUser(db, m), SecondUser(db, m);
      && a != b
      && (!Blocked(db, a, b) ==>
            (GetMatchDetail(db, a, m) == Ok(Some(CAN_SEND))) != (GetMatchDetail(db, b, m) == Ok(Some(CAN_SEND))))
  {
    RunInv(c, steps);
    RunFiled(c, steps);
    OneTurn(Run(c, steps).value.db, m);
  }

  lemma OneTurn(db: Db, m: MatchId)
    requires Consistent(db) && Paired(db) && Filed(db) && m in db.matches
    ensures |RowKeys(db, m)| == 2
    ensures var a, b := FirstUser(db, m), SecondUser(db, m);
      && a != b
      && (!Blocked(db, a, b) ==>
            (GetMatchDetail(db, a, m) == Ok(Some(CAN_SEND))) != (GetMatchDetail(db, b, m) == Ok(Some(CAN_SEND))))
  {
    var p, q := MatchPair(db, m);
    LastSenderTakesPart(db, m);
    OneDetailRow(db, FirstUser(db, m), m, p, q);
    OneDetailRow(db, SecondUser(db, m), m, p, q);
  }

  /** The postcard of a match that was sent last: of two of the same moment, the one with the greater id. */
  predicate IsLatest(db: Db, m: MatchId, c: PostcardId) {
    && c in db.postcards && db.postcards[c].matchId == m
    && forall d :: d in db.postcards && db.postcards[d].matchId == m && d != c ==>
         db.postcards[d].sentAt < db.postcards[c].sentAt
         || (db.postcards[d].sentAt == db.postcards[c].sentAt && d < c)
  }

  lemma GreatestIsLatest(db: Db, m: MatchId)
    requires Cards(db, m) != {}
    ensures IsLatest(db, m, Greatest(Cards(db, m)).id)
  {
    var g := Greatest(Cards(db, m));
    forall d | d in db.postcards && db.postcards[d].matchId == m && d != g.id
      ensures db.postcards[d].sentAt < db.postcards[g.id].sentAt
              || (db.postcards[d].sentAt == db.postcards[g.id].sentAt && d < g.id)
    {
      assert Key(db.postcards[d].sentAt, d) in Cards(db, m);
    }
  }

  lemma LastSenderIsLatest(db: Db, m: MatchId)
    ensures LastSender(db, m).None? <==> forall c :: c in db.postcards ==> db.postcards[c].matchId != m
    ensures forall c :: IsLatest(db, m, c) ==> LastSender(db, m) == Some(db.postcards[c].sender)
    ensures LastSender(db, m).Some? ==> exists c :: IsLatest(db, m, c)
  {
    var cards := Cards(db, m);
    if cards != {} { GreatestIsLatest(db, m); }
    forall c | c in db.postcards && db.postcards[c].matchId == m ensures cards != {} {
      assert Key(db.postcards[c].sentAt, c) in cards;
    }
    forall c | IsLatest(db, m, c) ensures LastSender(db, m) == Some(db.postcards[c].sender) {
      assert Key(db.postcards[c].sentAt, c) in cards;
      var g := Greatest(cards);
      assert g.id == c;
    }
  }

  /** The permission shown to the owner of `mine` in a match with the owner of `other`, by the rows: blocked if
      either user has blocked the other; before the first postcard, the photo that was registered earlier
      decides, and of two of the same moment the smaller id; afterwards, whether the latest postcard is the
      viewer's own. */
  lemma PermissionByFields(db: Db, m: MatchId, mine: PhotoId, other: PhotoId)
    requires Consistent(db) && Paired(db) && m in db.matches && mine != other
    requires mine in db.participants && db.participants[mine].matchId == m
    requires other in db.participants && db.participants[other].matchId == m
    ensures mine in db.photos && other in db.photos
    ensures var user, partner := db.participants[mine].user, db.participants[other].user;
      var shown := GetMatchDetail(db, user, m);
      if (user, partner) in db.blocks || (partner, user) in db.blocks then shown == Ok(Some(BLOCKED))
      else if forall c :: c in db.postcards ==> db.postcards[c].matchId != m then
        var a, b := db.photos[mine].registeredAt, db.photos[other].registeredAt;
        shown == Ok(Some(if a < b || (a == b && mine < other) then CAN_SEND else WAITING_FOR_FIRST))
      else forall c :: IsLatest(db, m, c) ==>
        shown == Ok(Some(if db.postcards[c].sender == user then WAITING_FOR_REPLY else CAN_SEND))
  {
    var a, b := MatchPair(db, m);
    assert mine in MatchRows(db, m) && other in MatchRows(db, m);
    OneDetailRow(db, db.participants[mine].user, m, a, b);
    LastSenderIsLatest(db, m);
  }

  // Counting.

  /** The postcards of a match that one user wrote. */
  function SentBy(db: Db, m: MatchId, u: UserId): set<Key> {
    SentIn(db, Cards(db, m), u)
  }

  function SentIn(db: Db, cards: set<Key>, u: UserId): set<Key> {
    set k | k in cards && SenderOf(db, k) == u
  }

  lemma {:induction false} CountInThread(db: Db, thread: seq<Key>, cards: set<Key>, u: UserId)
    requires Increasing(thread) && Lists(thread, cards)
    ensures |SentIn(db, cards, u)| == multiset(SendersOf(db, thread))[u]
    decreases |thread|
  {
    if thread == [] {
      assert SentIn(db, cards, u) == {};
    } else {
      var n := |thread| - 1;
      var last := thread[n];
      WithoutLast(thread, cards);
      CountInThread(db, thread[..n], cards - {last}, u);
      assert SendersOf(db, thread) == SendersOf(db, thread[..n]) + [SenderOf(db, last)];
      SentWithout(db, cards, last, u);
    }
  }

  lemma WithoutLast(thread: seq<Key>, cards: set<Key>)
    requires thread != [] && Increasing(thread) && Lists(thread, cards)
    ensures var n := |thread| - 1; Lists(thread[..n], cards - {thread[n]}) && thread[n] in cards
  {
    var n := |thread| - 1;
    assert thread == thread[..n] + [thread[n]];
    assert thread[n] in thread;
  }

  lemma SentWithout(db: Db, cards: set<Key>, k: Key, u: UserId)
    requires k in cards
    ensures |SentIn(db, cards, u)| == |SentIn(db, cards - {k}, u)| + if SenderOf(db, k) == u then 1 else 0
  {
    assert SentIn(db, cards, u) == SentIn(db, cards - {k}, u) + if SenderOf(db, k) == u then {k} else {};
  }

  lemma {:induction false} AlternatingCounts(s: seq<UserId>, first: UserId, second: UserId)
    requires AlternatesFrom(s, first, second) && first != second
    ensures multiset(s)[first] == (|s| + 1) / 2 && multiset(s)[second] == |s| / 2
  {
    if s != [] {
      var n := |s| - 1;
      AlternatingCounts(s[..n], first, second);
      CountLast(s, first);
      CountLast(s, second);
    }
  }

  lemma CountLast(s: seq<UserId>, u: UserId)
    requires s != []
    ensures multiset(s)[u] == multiset(s[..|s| - 1])[u] + if s[|s| - 1] == u then 1 else 0
  {
    assert s == s[..|s| - 1] + [s[|s| - 1]];
  }

  /** An alternating thread: the first participant has written as often as the second, or once more,
      and nobody else has written. */
  lemma CountsDifferByOne(db: Db, m: MatchId)
    requires Consistent(db) && Paired(db) && m in db.matches && ThreadOk(db, m)
    ensures var n := |Cards(db, m)|;
      && |SentBy(db, m, FirstUser(db, m))| == (n + 1) / 2
      && |SentBy(db, m, SecondUser(db, m))| == n / 2
      && 0 <= |SentBy(db, m, FirstUser(db, m))| - |SentBy(db, m, SecondUser(db, m))| <= 1
  {
    var a, b := MatchPair(db, m);
    var first, second := FirstUser(db, m), SecondUser(db, m);
    CountInThread(db, Ascending(Cards(db, m)), Cards(db, m), first);
    CountInThread(db, Ascending(Cards(db, m)), Cards(db, m), second);
    AlternatingCounts(Senders(db, m), first, second);
  }

  /** So it is at every moment of a run whose postcards are each the latest of their match. */
  lemma TimelyRunCounts(c: Config, steps: seq<Step>, m: MatchId)
    requires Run(c, steps).Some? && m in Run(c, steps).value.db.matches
    requires forall i :: 0 <= i < |steps| ==> TimelyAt(c, steps, i)
    ensures var db := Run(c, steps).value.db;
      && |RowKeys(db, m)| == 2
      && |SentBy(db, m, FirstUser(db, m))| + |SentBy(db, m, SecondUser(db, m))| == |Cards(db, m)|
      && 0 <= |SentBy(db, m, FirstUser(db, m))| - |SentBy(db, m, SecondUser(db, m))| <= 1
  {
    var db := Run(c, steps).value.db;
    RunInv(c, steps);
    AlternationIff(c, steps);
    assert AlternatesAt(c, steps, |steps|) && steps[..|steps|] == steps;
    assert ThreadOk(db, m);
    CountsDifferByOne(db, m);
  }

  /** Without the condition on the timestamps the alternation does fail: in any unblocked match that
      has a postcard, whoever's turn it is may send a postcard dated before an existing one, and is
      then the sender of two postcards in a row or out of turn. */
  lemma UntimelyIsAccepted(db: Db, m: MatchId, content: string, id: PostcardId, at: Time) returns (user: UserId)
    requires Consistent(db) && Paired(db) && Filed(db) && m in db.matches && ThreadOk(db, m)
    requires !Blocked(db, FirstUser(db, m), SecondUser(db, m)) && id !in db.postcards
    requires exists k :: k in Cards(db, m) && at < k.at
    ensures var r := SendLocked(db, user, m, content, None, id, at);
      r.result.Ok? && !ThreadOk(r.db, m)
  {
    var a, b := MatchPair(db, m);
    LastSenderTakesPart(db, m);
    user := if LastSender(db, m) == Some(FirstUser(db, m)) then SecondUser(db, m) else FirstUser(db, m);
    SendKeepsThreadIff(db, user, m, content, None, id, at);
  }
}
