/** The postcard protocol: two participants take turns, starting with the owner of the photo that was
    registered first. */
module Postcards {
  import opened Results
  import opened Ordering
  import opened Leases
  import opened Tables
  import opened Pipeline
  import opened Runs
  import opened Guarantees

  // The two rows of a match.

  /** The rows of a match in sending order. */
  lemma MatchPair(db: Db, m: MatchId) returns (a: PhotoId, b: PhotoId)
    requires Consistent(db) && Paired(db) && m in db.matches
    ensures |RowKeys(db, m)| == 2 && a == FirstRow(db, m) && b == SecondRow(db, m)
    ensures a != b && MatchRows(db, m) == {a, b} && a in db.photos && b in db.photos
    ensures Less(PhotoKey(db, a), PhotoKey(db, b))
    ensures db.participants[a].user != db.participants[b].user
  {
    assert MatchPaired(db, m);
    var p, q := TwoOf(MatchRows(db, m));
    RowKeysOfTwo(db, m, p, q);
    var kp, kq := PhotoKey(db, p), PhotoKey(db, q);
    a, b := FirstRow(db, m), SecondRow(db, m);
    assert Least({kp, kq}) in {kp, kq} && Greatest({kp, kq}) in {kp, kq};
    assert p in MatchRows(db, m) && q in MatchRows(db, m);
  }

  lemma RowKeysOfTwo(db: Db, m: MatchId, p: PhotoId, q: PhotoId)
    requires Linked(db) && MatchRows(db, m) == {p, q} && p != q
    ensures p in db.photos && q in db.photos
    ensures RowKeys(db, m) == {PhotoKey(db, p), PhotoKey(db, q)} && |RowKeys(db, m)| == 2
  {
    assert p in MatchRows(db, m) && q in MatchRows(db, m);
    assert forall r :: r in db.participants && db.participants[r].matchId == m ==> r in MatchRows(db, m);
    assert PhotoKey(db, p) != PhotoKey(db, q);
  }

  /** Nothing can be sent or read about a match that does not exist. */
  lemma NoMatchNoRows(db: Db, m: MatchId)
    requires Paired(db) && m !in db.matches
    ensures MatchRows(db, m) == {} && RowKeys(db, m) == {}
  {}

  lemma NoMatchNoDetail(db: Db, user: UserId, m: MatchId)
    requires Paired(db) && m !in db.matches
    ensures RowKeys(db, m) == {} && DetailRows(db, user, m) == {}
  {
    NoMatchNoRows(db, m);
    assert forall p :: p in db.participants && db.participants[p].matchId == m ==> p in MatchRows(db, m);
  }

  function FirstUser(db: Db, m: MatchId): UserId
    requires |RowKeys(db, m)| == 2
  {
    db.participants[FirstRow(db, m)].user
  }

  function SecondUser(db: Db, m: MatchId): UserId
    requires |RowKeys(db, m)| == 2
  {
    db.participants[SecondRow(db, m)].user
  }

  // The read side.

  /** The self-join of `get_match_detail`: my row and my partner's. */
  function DetailRows(db: Db, user: UserId, m: MatchId): set<(PhotoId, PhotoId)> {
    set p, q | p in db.participants && q in db.participants && p in db.photos && q in db.photos
               && db.participants[p].matchId == m && db.participants[p].user == user
               && db.participants[q].matchId == m && db.participants[q].user != user :: (p, q)
  }

  predicate NotAfter(a: Key, b: Key) { a == b || Less(a, b) }

  function PermissionFor(db: Db, user: UserId, m: MatchId, mine: PhotoId, partner: PhotoId): Permission
    requires mine in db.photos && partner in db.photos && partner in db.participants
  {
    ResolvePermission(Blocked(db, user, db.participants[partner].user),
                      NotAfter(PhotoKey(db, mine), PhotoKey(db, partner)), LastSender(db, m), user)
  }

  /** `get_match_detail`, as far as the permission goes. */
  ghost function GetMatchDetail(db: Db, user: UserId, m: MatchId): Result<Option<Permission>> {
    var rows := DetailRows(db, user, m);
    if rows == {} then Ok(None)
    else if |rows| > 1 then Err(MultipleResultsFound)
    else
      var row :| row in rows;
      Ok(Some(PermissionFor(db, user, m, row.0, row.1)))
  }

  /** For a participant the join finds exactly one row. */
  lemma OneDetailRow(db: Db, user: UserId, m: MatchId, a: PhotoId, b: PhotoId)
    requires MatchRows(db, m) == {a, b} && a != b && a in db.photos && b in db.photos
    requires db.participants[a].user != db.participants[b].user
    ensures user == db.participants[a].user ==> DetailRows(db, user, m) == {(a, b)}
    ensures user == db.participants[b].user ==> DetailRows(db, user, m) == {(b, a)}
    ensures user != db.participants[a].user && user != db.participants[b].user ==> DetailRows(db, user, m) == {}
  {
    assert forall r :: r in db.participants && db.participants[r].matchId == m ==> r in MatchRows(db, m);
    assert a in MatchRows(db, m) && b in MatchRows(db, m);
  }

  /** A postcard that nothing but the turn rules could refuse. */
  predicate Unhindered(db: Db, user: UserId, key: Option<nat>, id: PostcardId) {
    id !in db.postcards && (key.Some? ==> SameKey(db, user, key.value) == {})
  }

  /** What the reader is shown and what the sender is answered are the same thing. */
  ghost predicate Agrees(shown: Result<Option<Permission>>, answer: Result<PostcardId>) {
    match shown
    case Err(_) => false
    case Ok(None) => answer == Err(MatchNotFound)
    case Ok(Some(CAN_SEND)) => answer.Ok?
    case Ok(Some(BLOCKED)) => answer == Err(UserBlocked)
    case Ok(Some(WAITING_FOR_FIRST)) => answer == Err(PostcardOrderNotAllowed)
    case Ok(Some(WAITING_FOR_REPLY)) => answer == Err(PostcardReplyNotReceived)
  }

  /** The permission shown and the guard of `send` agree for every user and match, in every state that
      satisfies the invariant. */
  lemma PermissionAgrees(db: Db, user: UserId, m: MatchId, content: string, key: Option<nat>, id: PostcardId, at: Time)
    requires Consistent(db) && Paired(db) && Unhindered(db, user, key, id)
    ensures Agrees(GetMatchDetail(db, user, m), Send(db, user, m, content, key, id, at).result)
  {
    if m !in db.matches {
      NoMatchNoDetail(db, user, m);
    } else {
      var a, b := MatchPair(db, m);
      OneDetailRow(db, user, m, a, b);
      TurnAgrees(db, user, m, content, key, id, at, a, b);
    }
  }

  /** The same four cases on both sides. */
  lemma TurnAgrees(db: Db, user: UserId, m: MatchId, content: string, key: Option<nat>, id: PostcardId, at: Time,
                   a: PhotoId, b: PhotoId)
    requires Unhindered(db, user, key, id) && |RowKeys(db, m)| == 2 && a == FirstRow(db, m) && b == SecondRow(db, m)
    requires a in db.photos && b in db.photos && Less(PhotoKey(db, a), PhotoKey(db, b))
    requires db.participants[a].user != db.participants[b].user
    ensures var answer := Send(db, user, m, content, key, id, at).result;
      && (user == db.participants[a].user ==> Agrees(Ok(Some(PermissionFor(db, user, m, a, b))), answer))
      && (user == db.participants[b].user ==> Agrees(Ok(Some(PermissionFor(db, user, m, b, a))), answer))
      && (user != db.participants[a].user && user != db.participants[b].user ==> Agrees(Ok(None), answer))
  {}

  lemma PermissionAgreesInEveryRun(c: Config, steps: seq<Step>, user: UserId, m: MatchId, content: string,
                                   key: Option<nat>, id: PostcardId, at: Time)
    requires Run(c, steps).Some? && Unhindered(Run(c, steps).value.db, user, key, id)
    ensures var db := Run(c, steps).value.db;
      Agrees(GetMatchDetail(db, user, m), Send(db, user, m, content, key, id, at).result)
  {
    RunInv(c, steps);
    PermissionAgrees(Run(c, steps).value.db, user, m, content, key, id, at);
  }

  // The thread of a match.

  function SenderOf(db: Db, k: Key): UserId {
    if k.id in db.postcards then db.postcards[k.id].sender else 0
  }

  /** The senders of some postcards, in the given order. */
  function SendersOf(db: Db, thread: seq<Key>): (s: seq<UserId>)
    ensures |s| == |thread| && forall i :: 0 <= i < |s| ==> s[i] == SenderOf(db, thread[i])
  {
    seq(|thread|, i requires 0 <= i < |thread| => SenderOf(db, thread[i]))
  }

  /** The senders of a match's postcards, in the order of (sent_at, id). */
  ghost function Senders(db: Db, m: MatchId): seq<UserId> {
    SendersOf(db, Ascending(Cards(db, m)))
  }

  predicate AlternatesFrom(s: seq<UserId>, first: UserId, second: UserId) {
    forall i :: 0 <= i < |s| ==> s[i] == if i % 2 == 0 then first else second
  }

  /** The senders take turns, and every postcard goes from one participant to the other. */
  ghost predicate ThreadOk(db: Db, m: MatchId) {
    if m !in db.matches then Cards(db, m) == {} else
      && |RowKeys(db, m)| == 2
      && AlternatesFrom(Senders(db, m), FirstUser(db, m), SecondUser(db, m))
  }

  /** Two postcards of one sender never share an idempotency key. */
  predicate KeysApart(db: Db, x: PostcardId, y: PostcardId) {
    x in db.postcards && y in db.postcards && x != y && db.postcards[x].sender == db.postcards[y].sender ==>
      db.postcards[x].idempotencyKey.None? || db.postcards[x].idempotencyKey != db.postcards[y].idempotencyKey
  }

  /** One notification for every postcard, to its receiver. */
  predicate Announced(db: Db, n: Note) {
    db.inbox.postcardReceived[n]
    == if n.target in db.postcards && db.postcards[n.target].receiver == n.user then 1 else 0
  }

  ghost predicate Recorded(db: Db) {
    && (forall x, y {:trigger KeysApart(db, x, y)} :: KeysApart(db, x, y))
    && (forall n {:trigger Announced(db, n)} :: Announced(db, n))
  }

  // Sending.

  /** What an accepted send adds. */
  lemma SentCards(db: Db, user: UserId, m: MatchId, content: string, key: Option<nat>, id: PostcardId, at: Time,
                  k: MatchId)
    requires SendLocked(db, user, m, content, key, id, at).result.Ok?
    ensures var db' := SendLocked(db, user, m, content, key, id, at).db;
      && Cards(db', k) == Cards(db, k) + (if k == m then {Key(at, id)} else {})
      && (forall c :: c in Cards(db, k) ==> SenderOf(db', c) == SenderOf(db, c))
      && SenderOf(db', Key(at, id)) == user
      && Key(at, id) !in Cards(db, k)
      && RowKeys(db', k) == RowKeys(db, k) && db'.participants == db.participants && db'.matches == db.matches
  {
    var db' := SendLocked(db, user, m, content, key, id, at).db;
    assert id !in db.postcards;
    forall c ensures c in Cards(db', k) <==> c in Cards(db, k) || (k == m && c == Key(at, id)) {
      if c in Cards(db, k) { assert db'.postcards[c.id] == db.postcards[c.id]; }
      if k == m { assert db'.postcards[id].matchId == m; }
    }
    SendFrame(db, user, m, content, key, id, at);
  }

  /** The last sender is the sender of the last postcard in the thread. */
  lemma LastSenderIsLast(db: Db, m: MatchId)
    ensures Cards(db, m) == {} <==> LastSender(db, m).None?
    ensures var s := Senders(db, m); s != [] ==> LastSender(db, m) == Some(s[|s| - 1])
    ensures |Senders(db, m)| == |Cards(db, m)|
  {
    var cards := Cards(db, m);
    if cards != {} { GreatestIsLast(cards); }
  }

  lemma GreatestIsLast(keys: set<Key>)
    requires keys != {}
    ensures |keys| > 0 && Ascending(keys)[|keys| - 1] == Greatest(keys)
  {
    var s := Ascending(keys);
    var last := s[|s| - 1];
    assert last in s && last in keys;
    assert Greatest(keys) in s;
    var i :| 0 <= i < |s| && s[i] == Greatest(keys);
  }

  /** The turn rules, read off the thread: the first participant opens, then whoever did not write
      last. */
  lemma TurnOf(db: Db, user: UserId, m: MatchId, content: string, key: Option<nat>, id: PostcardId, at: Time)
    requires m in db.matches && ThreadOk(db, m) && FirstUser(db, m) != SecondUser(db, m)
    requires SendLocked(db, user, m, content, key, id, at).result.Ok?
    ensures user == if |Senders(db, m)| % 2 == 0 then FirstUser(db, m) else SecondUser(db, m)
  {
    LastSenderIsLast(db, m);
  }

  lemma SameUsers(db: Db, db': Db, m: MatchId)
    requires RowKeys(db', m) == RowKeys(db, m) && |RowKeys(db, m)| == 2
    requires forall p :: p in MatchRows(db, m) ==>
      p in db'.participants && db'.participants[p].user == db.participants[p].user
    ensures FirstUser(db', m) == FirstUser(db, m) && SecondUser(db', m) == SecondUser(db, m)
  {}

  lemma SendKeepsUsers(db: Db, user: UserId, m: MatchId, content: string, key: Option<nat>, id: PostcardId, at: Time,
                       k: MatchId)
    requires SendLocked(db, user, m, content, key, id, at).result.Ok?
    requires |RowKeys(db, k)| == 2
    ensures var db' := SendLocked(db, user, m, content, key, id, at).db;
      |RowKeys(db', k)| == 2 && FirstUser(db', k) == FirstUser(db, k) && SecondUser(db', k) == SecondUser(db, k)
  {
    var db' := SendLocked(db, user, m, content, key, id, at).db;
    SentCards(db, user, m, content, key, id, at, k);
    SameUsers(db, db', k);
  }

  /** A later postcard is appended to the thread. */
  lemma Appended(db: Db, db': Db, m: MatchId, k: Key)
    requires Cards(db', m) == Cards(db, m) + {k} && forall x :: x in Cards(db, m) ==> Less(x, k)
    requires forall c :: c in Cards(db, m) ==> SenderOf(db', c) == SenderOf(db, c)
    ensures Senders(db', m) == Senders(db, m) + [SenderOf(db', k)]
  {
    AscendingAppend(Cards(db, m), k);
    var thread := Ascending(Cards(db, m));
    forall i | 0 <= i < |thread| ensures SenderOf(db', thread[i]) == SenderOf(db, thread[i]) {
      assert thread[i] in thread;
    }
  }

  lemma AlternationContinues(s: seq<UserId>, u: UserId, first: UserId, second: UserId)
    requires AlternatesFrom(s, first, second) && u == if |s| % 2 == 0 then first else second
    ensures AlternatesFrom(s + [u], first, second)
  {}

  /** A postcard sent later than all others of its match continues the alternation. */
  lemma LatestKeepsThread(db: Db, user: UserId, m: MatchId, content: string, key: Option<nat>, id: PostcardId, at: Time)
    requires m in db.matches && ThreadOk(db, m) && FirstUser(db, m) != SecondUser(db, m)
    requires SendLocked(db, user, m, content, key, id, at).result.Ok?
    requires forall k :: k in Cards(db, m) ==> Less(k, Key(at, id))
    ensures ThreadOk(SendLocked(db, user, m, content, key, id, at).db, m)
  {
    var db' := SendLocked(db, user, m, content, key, id, at).db;
    TurnOf(db, user, m, content, key, id, at);
    SendKeepsUsers(db, user, m, content, key, id, at, m);
    AlternationContinues(Senders(db, m), user, FirstUser(db, m), SecondUser(db, m));
    SentLast(db, user, m, content, key, id, at);
  }

  lemma SentLast(db: Db, user: UserId, m: MatchId, content: string, key: Option<nat>, id: PostcardId, at: Time)
    requires SendLocked(db, user, m, content, key, id, at).result.Ok?
    requires forall k :: k in Cards(db, m) ==> Less(k, Key(at, id))
    ensures var db' := SendLocked(db, user, m, content, key, id, at).db;
      Senders(db', m) == Senders(db, m) + [user] && db'.matches == db.matches
  {
    SentCards(db, user, m, content, key, id, at, m);
    Appended(db, SendLocked(db, user, m, content, key, id, at).db, m, Key(at, id));
  }

  /** A postcard below an existing one leaves the last sender last, one place further on. */
  lemma Shifted(db: Db, db': Db, m: MatchId, k: Key, later: Key)
    requires Cards(db', m) == Cards(db, m) + {k} && k !in Cards(db, m)
    requires later in Cards(db, m) && Less(k, later)
    requires forall c :: c in Cards(db, m) ==> SenderOf(db', c) == SenderOf(db, c)
    ensures var s, s' := Senders(db, m), Senders(db', m);
      |s| > 0 && |s'| == |s| + 1 && s'[|s|] == s[|s| - 1]
  {
    var cards := Cards(db, m);
    assert Greatest(cards + {k}) == Greatest(cards);
    GreatestIsLast(cards);
    GreatestIsLast(cards + {k});
  }

  /** Nobody writes twice in a row. */
  lemma NotTwice(s: seq<UserId>, s': seq<UserId>, first: UserId, second: UserId)
    requires first != second && s != [] && |s'| == |s| + 1 && s'[|s|] == s[|s| - 1]
    ensures !(AlternatesFrom(s, first, second) && AlternatesFrom(s', first, second))
  {}

  lemma Inserted(db: Db, db': Db, m: MatchId, k: Key, first: UserId, second: UserId)
    requires AlternatesFrom(Senders(db, m), first, second) && first != second
    requires Cards(db', m) == Cards(db, m) + {k} && k !in Cards(db, m)
    requires !forall x :: x in Cards(db, m) ==> Less(x, k)
    requires forall c :: c in Cards(db, m) ==> SenderOf(db', c) == SenderOf(db, c)
    ensures !AlternatesFrom(Senders(db', m), first, second)
  {
    var later :| later in Cards(db, m) && !Less(later, k);
    LaterThan(later, k);
    Shifted(db, db', m, k, later);
    NotTwice(Senders(db, m), Senders(db', m), first, second);
  }

  /** Conversely, a postcard inserted before another one breaks it: the last postcard keeps its sender
      but moves to a turn of the other one. */
  lemma EarlierBreaksThread(db: Db, user: UserId, m: MatchId, content: string, key: Option<nat>, id: PostcardId,
                            at: Time)
    requires m in db.matches && ThreadOk(db, m) && FirstUser(db, m) != SecondUser(db, m)
    requires SendLocked(db, user, m, content, key, id, at).result.Ok?
    requires !forall k :: k in Cards(db, m) ==> Less(k, Key(at, id))
    ensures !ThreadOk(SendLocked(db, user, m, content, key, id, at).db, m)
  {
    SentCards(db, user, m, content, key, id, at, m);
    SendKeepsUsers(db, user, m, content, key, id, at, m);
    Inserted(db, SendLocked(db, user, m, content, key, id, at).db, m, Key(at, id), FirstUser(db, m), SecondUser(db, m));
  }

  lemma LaterThan(a: Key, b: Key)
    requires a != b && !Less(a, b)
    ensures Less(b, a)
  {}

  /** An accepted send keeps the strict alternation exactly if its (sent_at, id) is the greatest of the
      match. */
  lemma SendKeepsThreadIff(db: Db, user: UserId, m: MatchId, content: string, key: Option<nat>, id: PostcardId,
                           at: Time)
    requires Consistent(db) && Paired(db) && m in db.matches && ThreadOk(db, m)
    requires SendLocked(db, user, m, content, key, id, at).result.Ok?
    ensures ThreadOk(SendLocked(db, user, m, content, key, id, at).db, m)
            <==> forall k :: k in Cards(db, m) ==> Less(k, Key(at, id))
  {
    var a, b := MatchPair(db, m);
    if forall k :: k in Cards(db, m) ==> Less(k, Key(at, id)) {
      LatestKeepsThread(db, user, m, content, key, id, at);
    } else {
      EarlierBreaksThread(db, user, m, content, key, id, at);
    }
  }
}
