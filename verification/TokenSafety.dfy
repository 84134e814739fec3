/** What the token stores promise their callers. */
module TokenSafety {
  import opened Results
  import opened Redis
  import opened TokenStores
  import opened TokenRefinement
  import opened Counting

  // The two stores.

  predicate AllLive(m: Tickets, now: int) {
    forall id :: id in m ==> now < m[id].deadline
  }

  function Owners(m: Tickets): map<TokenId, Subject> {
    map id | id in m :: m[id].subject
  }

  /** Until a token expires, the in-memory store is the specification: same tokens, same answers. */
  lemma MemoryIsSpec(m: Tickets, op: Op, ttl: int, now: int)
    requires AllLive(m, now)
    ensures Memory(Owners(m), op) == (Owners(Spec(m, op, ttl, now).0), Spec(m, op, ttl, now).1)
  {
    var active, m' := Owners(m), Spec(m, op, ttl, now).0;
    match op
    case Register(id, subject) => assert Owners(m') == active[id := subject];
    case Rotate(oldId, newId, subject) =>
      if Holds(m, oldId, subject, now) { assert Owners(m') == (active - {oldId})[newId := subject]; }
    case Revoke(id, subject) =>
      if Holds(m, id, subject, now) { assert Owners(m') == active - {id}; }
    case RevokeAll(subject) =>
      assert OwnedBy(active, subject) == LiveIds(m, subject, now);
      assert Owners(m') == active - OwnedBy(active, subject);
  }

  /** Over every run with fresh ids, a clock that does not run backwards, and no token that outlives the
      next one of its subject, the Redis store answers `register`, `rotate` and `revoke` as the
      specification does. */
  lemma RedisAnswersAsSpecified(calls: seq<Request>, prefix: string)
    requires Proper(calls) && Covered(calls) && calls != []
    ensures var n := |calls| - 1;
      var answer := Impl(ImplRun(calls[..n], prefix), prefix, calls[n].op, calls[n].ttl, calls[n].now).1;
      var expected := Spec(SpecRun(calls[..n]), calls[n].op, calls[n].ttl, calls[n].now).1;
      && (!calls[n].op.RevokeAll? ==> answer == expected)
      && (calls[n].op.RevokeAll? ==> answer.Counted? && expected.Counted? && expected.n <= answer.n)
  {
    var n := |calls| - 1;
    RunCoupled(calls[..n], prefix, calls[n].now);
    CallRefines(ImplRun(calls[..n], prefix), prefix, SpecRun(calls[..n]), IssuedBy(calls[..n]),
                calls[n].op, calls[n].ttl, calls[n].now);
  }

  // What a caller observes.

  /** The subject that a token stands for at some moment, if it is live. */
  function OwnerAt(db: Keyspace, prefix: string, id: TokenId, at: int): Result<Option<Subject>> {
    GetText(db, TokenKey(prefix, id), at)
  }

  /** An issued token stands for its subject until its lifetime is over. */
  function IssuedOwner(subject: Subject, expires: int, at: int): Result<Option<Subject>> {
    Ok(if at < expires then Some(subject) else None)
  }

  /** Every operation by what it does to the tokens, now and at every later moment: registering issues a token; a
      rotation is accepted iff the old token stands for the subject, and exchanges it for the new one; a
      revocation likewise, without one; and no other token is affected. */
  lemma TokenLifecycle(db: Keyspace, prefix: string, m: Tickets, issued: map<TokenId, Subject>, op: Op, ttl: int,
                       now: int, x: TokenId, at: int)
    requires InStep(db, prefix, m, issued, now) && Fresh(issued, op) && Lasts(op, ttl) && Covers(m, op, ttl, now)
    requires WellNamed(x) && now <= at && !op.RevokeAll?
    ensures var (db', answer) := Impl(db, prefix, op, ttl, now);
      var before, after := OwnerAt(db, prefix, x, at), OwnerAt(db', prefix, x, at);
      match op
      case Register(id, subject) =>
        answer == Done && after == if x == id then IssuedOwner(subject, now + ttl, at) else before
      case Rotate(oldId, newId, subject) =>
        && answer == Said(OwnerAt(db, prefix, oldId, now) == Ok(Some(subject)))
        && after == if answer == Said(false) then before
                    else if x == newId then IssuedOwner(subject, now + ttl, at)
                    else if x == oldId then Ok(None) else before
      case Revoke(id, subject) =>
        && answer == Said(OwnerAt(db, prefix, id, now) == Ok(Some(subject)))
        && after == if answer == Said(true) && x == id then Ok(None) else before
      case RevokeAll(_) => true
  {
    var db' := Impl(db, prefix, op, ttl, now).0;
    var m', issued' := Spec(m, op, ttl, now).0, Issued(issued, op);
    CallRefines(db, prefix, m, issued, op, ttl, now);
    TimePasses(db, prefix, m, issued, now, at);
    TimePasses(db', prefix, m', issued', now, at);
    assert TokenAgrees(db, prefix, m, x, at) && TokenAgrees(db', prefix, m', x, at);
    assert TicketOk(m, issued, x);
    if op.Rotate? { assert TokenAgrees(db, prefix, m, op.oldId, now) && TicketOk(m, issued, op.oldId); }
    if op.Revoke? { assert TokenAgrees(db, prefix, m, op.id, now); }
  }

  // Each token id is rotated at most once.

  predicate RotatesAt(calls: seq<Request>, prefix: string, i: nat, id: TokenId)
    requires i < |calls|
  {
    var op := calls[i].op;
    op.Rotate? && op.oldId == id
    && Impl(ImplRun(calls[..i], prefix), prefix, op, calls[i].ttl, calls[i].now).1 == Said(true)
  }

  lemma {:induction false} ProperPrefix(calls: seq<Request>, n: nat)
    requires Proper(calls) && n <= |calls|
    ensures Proper(calls[..n])
    decreases |calls|
  {
    if n < |calls| {
      assert calls[..|calls| - 1][..n] == calls[..n];
      ProperPrefix(calls[..|calls| - 1], n);
    } else {
      assert calls[..n] == calls;
    }
  }

  /** Used up: issued, and no longer in Redis. */
  predicate Spent(calls: seq<Request>, prefix: string, id: TokenId) {
    id in IssuedBy(calls) && WellNamed(id) && TokenKey(prefix, id) !in ImplRun(calls, prefix)
  }

  /** No operation writes a token key but that of the token it issues. */
  lemma OnlyIssuedAppear(db: Keyspace, prefix: string, op: Op, ttl: int, now: int, id: TokenId)
    requires WellNamed(id) && TokenKey(prefix, id) !in db
    requires op.Register? ==> id != op.id
    requires op.Rotate? ==> id != op.newId
    ensures TokenKey(prefix, id) !in Impl(db, prefix, op, ttl, now).0
  {
    DistinctKeys(prefix, id, if op.Register? then op.id else if op.Rotate? then op.newId else id, op.subject,
                 op.subject);
  }

  /** What is in Redis was issued. */
  lemma {:induction false} FoundWasIssued(calls: seq<Request>, prefix: string, id: TokenId)
    requires Proper(calls) && WellNamed(id)
    ensures TokenKey(prefix, id) in ImplRun(calls, prefix) ==> id in IssuedBy(calls)
    decreases |calls|
  {
    if calls != [] {
      var n := |calls| - 1;
      FoundWasIssued(calls[..n], prefix, id);
      var op := calls[n].op;
      if TokenKey(prefix, id) !in ImplRun(calls[..n], prefix)
         && !(op.Register? && id == op.id) && !(op.Rotate? && id == op.newId) {
        OnlyIssuedAppear(ImplRun(calls[..n], prefix), prefix, op, calls[n].ttl, calls[n].now, id);
      }
    }
  }

  lemma StaysSpent(calls: seq<Request>, prefix: string, id: TokenId)
    requires Proper(calls) && calls != [] && Spent(calls[..|calls| - 1], prefix, id)
    ensures Spent(calls, prefix, id)
  {
    var n := |calls| - 1;
    OnlyIssuedAppear(ImplRun(calls[..n], prefix), prefix, calls[n].op, calls[n].ttl, calls[n].now, id);
  }

  lemma RotationDeletes(db: Keyspace, prefix: string, op: Op, ttl: int, now: int)
    requires op.Rotate? && WellNamed(op.oldId) && op.oldId != op.newId && Impl(db, prefix, op, ttl, now).1 == Said(true)
    ensures TokenKey(prefix, op.oldId) in db && TokenKey(prefix, op.oldId) !in Impl(db, prefix, op, ttl, now).0
  {
    DistinctKeys(prefix, op.oldId, op.newId, op.subject, op.subject);
  }

  lemma RotationSpends(calls: seq<Request>, prefix: string, id: TokenId)
    requires Proper(calls) && calls != [] && RotatesAt(calls, prefix, |calls| - 1, id)
    ensures Spent(calls, prefix, id) && !Spent(calls[..|calls| - 1], prefix, id)
  {
    var n := |calls| - 1;
    var op := calls[n].op;
    FoundWasIssued(calls[..n], prefix, id);
    RotationDeletes(ImplRun(calls[..n], prefix), prefix, Rotate(op.oldId, op.newId, op.subject), calls[n].ttl,
                    calls[n].now);
  }

  lemma {:induction false} SpentLater(calls: seq<Request>, prefix: string, i: nat, j: nat, id: TokenId)
    requires Proper(calls) && i < j <= |calls| && RotatesAt(calls, prefix, i, id)
    ensures Spent(calls[..j], prefix, id)
    decreases j
  {
    ProperPrefix(calls, j);
    assert calls[..j][..j - 1] == calls[..j - 1] && calls[..j][..i] == calls[..i];
    if i == j - 1 {
      RotationSpends(calls[..j], prefix, id);
    } else {
      SpentLater(calls, prefix, i, j - 1, id);
      StaysSpent(calls[..j], prefix, id);
    }
  }

  lemma SameCall(calls: seq<Request>, prefix: string, n: nat, i: nat, id: TokenId)
    requires i < n <= |calls|
    ensures RotatesAt(calls[..n], prefix, i, id) <==> RotatesAt(calls, prefix, i, id)
  {
    assert calls[..n][..i] == calls[..i];
  }

  lemma RotatedWasUnspent(calls: seq<Request>, prefix: string, j: nat, id: TokenId)
    requires Proper(calls) && j < |calls| && RotatesAt(calls, prefix, j, id)
    ensures !Spent(calls[..j], prefix, id)
  {
    var upTo := calls[..j + 1];
    ProperPrefix(calls, j + 1);
    SameCall(calls, prefix, j + 1, j, id);
    assert upTo[..|upTo| - 1] == calls[..j];
    RotationSpends(upTo, prefix, id);
  }

  /** A refresh token that has been exchanged is worthless: over any run, with any lifetimes, each id
      rotates successfully at most once. */
  lemma RotatesOnce(calls: seq<Request>, prefix: string, i: nat, j: nat, id: TokenId)
    requires Proper(calls) && i < |calls| && j < |calls|
    requires RotatesAt(calls, prefix, i, id) && RotatesAt(calls, prefix, j, id)
    ensures i == j
  {
    RotatedWasUnspent(calls, prefix, i, id);
    RotatedWasUnspent(calls, prefix, j, id);
    if i < j { SpentLater(calls, prefix, i, j, id); }
    if j < i { SpentLater(calls, prefix, j, i, id); }
  }

  // Counts.

  /** A successful rotation exchanges one token for another: everybody keeps as many live tokens. */
  lemma RotationKeepsCount(m: Tickets, oldId: TokenId, newId: TokenId, subject: Subject, s: Subject, ttl: int, now: int)
    requires Holds(m, oldId, subject, now) && newId !in m && ttl >= 1
    ensures var m' := Spec(m, Rotate(oldId, newId, subject), ttl, now).0;
      && |LiveIds(m', s, now)| == |LiveIds(m, s, now)|
      && Holds(m', newId, subject, now) && Live(m', oldId, now).None?
  {
    var m' := Spec(m, Rotate(oldId, newId, subject), ttl, now).0;
    var before, after := LiveIds(m, s, now), LiveIds(m', s, now);
    if s == subject {
      assert after == before - {oldId} + {newId};
      assert newId !in before - {oldId} && |before - {oldId}| == |before| - 1;
    } else {
      assert after == before;
    }
  }

  /** After `revoke_all` Redis has no token of the subject, and every other token is as it was. */
  lemma RevokeAllIsThorough(calls: seq<Request>, prefix: string, subject: Subject, ttl: int, now: int, id: TokenId)
    requires Proper(calls + [Request(RevokeAll(subject), ttl, now)]) && Covered(calls) && WellNamed(id)
    ensures var before := GetText(ImplRun(calls, prefix), TokenKey(prefix, id), now);
      var after := GetText(ImplRun(calls + [Request(RevokeAll(subject), ttl, now)], prefix), TokenKey(prefix, id), now);
      after == if before == Ok(Some(subject)) then Ok(None) else before
  {
    var all := calls + [Request(RevokeAll(subject), ttl, now)];
    assert all[..|all| - 1] == calls;
    RunCoupled(calls, prefix, now);
    RunCoupled(all, prefix, now);
    assert TokenAgrees(ImplRun(calls, prefix), prefix, SpecRun(calls), id, now);
    assert TokenAgrees(ImplRun(all, prefix), prefix, SpecRun(all), id, now);
  }

  // When a token cuts the index short.

  /** `revoke_all`, if it came at this moment, would leave no live token of the subject. */
  ghost predicate Thorough(db: Keyspace, prefix: string, subject: Subject, at: int) {
    var after := AllRevoked(db, prefix, subject, at).0;
    forall x {:trigger TokenKey(prefix, x)} :: WellNamed(x) ==>
      GetText(after, TokenKey(prefix, x), at) != Ok(Some(subject))
  }

  lemma InStepIsThorough(db: Keyspace, prefix: string, m: Tickets, issued: map<TokenId, Subject>, subject: Subject,
                         at: int)
    requires InStep(db, prefix, m, issued, at)
    ensures Thorough(db, prefix, subject, at)
  {
    assert IndexClean(db, prefix, issued, subject);
    AllGone(db, prefix, m, issued, subject, at);
    var after := AllRevoked(db, prefix, subject, at).0;
    forall x {:trigger TokenKey(prefix, x)} | WellNamed(x)
      ensures GetText(after, TokenKey(prefix, x), at) != Ok(Some(subject))
    {
      assert TokenAgrees(after, prefix, m - LiveIds(m, subject, at), x, at);
    }
  }

  /** The operation issues a token. */
  predicate Issues(m: Tickets, op: Op, now: int) {
    op.Register? || (op.Rotate? && Holds(m, op.oldId, op.subject, now))
  }

  /** What issuing a token leaves: the index has its deadline, and every other token is untouched. */
  lemma IssuedForm(db: Keyspace, prefix: string, m: Tickets, issued: map<TokenId, Subject>, op: Op, ttl: int, now: int,
                   x: TokenId)
    requires InStep(db, prefix, m, issued, now) && Fresh(issued, op) && Issues(m, op, now)
    requires x in LiveIds(m, op.subject, now)
    requires op.Rotate? ==> x != op.oldId
    ensures var db' := Impl(db, prefix, op, ttl, now).0;
      var index := SubjectKey(prefix, op.subject);
      && index in db' && db'[index].Members? && db'[index].deadline == Some(now + ttl)
      && TokenKey(prefix, x) in db' && db'[TokenKey(prefix, x)] == Text(op.subject, Some(m[x].deadline))
      && TokenKey(prefix, x) != index
  {
    var id := if op.Register? then op.id else op.newId;
    assert IndexClean(db, prefix, issued, op.subject) && TicketOk(m, issued, x) && TokenAgrees(db, prefix, m, x, now);
    DistinctKeys(prefix, x, id, op.subject, op.subject);
    if op.Register? {
      RegisterForm(db, prefix, issued, op.id, op.subject, ttl, now);
    } else {
      assert TokenAgrees(db, prefix, m, op.oldId, now) && TicketOk(m, issued, op.oldId);
      GetAgrees(db, prefix, m, op.oldId, op.subject, now);
      DistinctKeys(prefix, x, op.oldId, op.subject, op.subject);
      RotateForm(db, prefix, issued, op.oldId, op.newId, op.subject, ttl, now);
    }
  }

  /** A token that outlives the one being issued is out of reach of `revoke_all` from the moment the new
      token expires. */
  lemma OutlivedIsMissed(db: Keyspace, prefix: string, m: Tickets, issued: map<TokenId, Subject>, op: Op, ttl: int,
                         now: int, x: TokenId)
    requires InStep(db, prefix, m, issued, now) && Fresh(issued, op) && Issues(m, op, now)
    requires x in LiveIds(m, op.subject, now)
    requires op.Rotate? ==> x != op.oldId
    requires m[x].deadline > now + ttl
    ensures WellNamed(x) && !Thorough(Impl(db, prefix, op, ttl, now).0, prefix, op.subject, now + ttl)
  {
    IssuedForm(db, prefix, m, issued, op, ttl, now, x);
    assert TicketOk(m, issued, x);
    var after := AllRevoked(Impl(db, prefix, op, ttl, now).0, prefix, op.subject, now + ttl).0;
    assert GetText(after, TokenKey(prefix, x), now + ttl) == Ok(Some(op.subject));
  }

  /** Exactly when issuing a token keeps `revoke_all` thorough: at every later moment it leaves no live
      token of the subject, if and only if no live token of the subject outlives the one issued. */
  lemma ThoroughIffCovered(db: Keyspace, prefix: string, m: Tickets, issued: map<TokenId, Subject>, op: Op, ttl: int,
                           now: int)
    requires InStep(db, prefix, m, issued, now) && Fresh(issued, op) && Issues(m, op, now) && ttl >= 1
    ensures Covers(m, op, ttl, now)
            <==> forall at :: at >= now ==> Thorough(Impl(db, prefix, op, ttl, now).0, prefix, op.subject, at)
  {
    var db' := Impl(db, prefix, op, ttl, now).0;
    if Covers(m, op, ttl, now) {
      CallRefines(db, prefix, m, issued, op, ttl, now);
      forall at | at >= now ensures Thorough(db', prefix, op.subject, at) {
        TimePasses(db', prefix, Spec(m, op, ttl, now).0, Issued(issued, op), now, at);
        InStepIsThorough(db', prefix, Spec(m, op, ttl, now).0, Issued(issued, op), op.subject, at);
      }
    } else {
      var x :| x in LiveIds(m, op.subject, now) && (op.Rotate? ==> x != op.oldId) && m[x].deadline > now + ttl;
      OutlivedIsMissed(db, prefix, m, issued, op, ttl, now, x);
    }
  }

  // Where the two stores differ.

  /** The count of `revoke_all` includes tokens that have expired in the meantime: two tokens are
      registered, one has expired, and two are reported. */
  lemma RevokeAllCountsExpired() returns (calls: seq<Request>, prefix: string)
    ensures Proper(calls) && Covered(calls) && calls != [] && calls[|calls| - 1].op.RevokeAll?
    ensures var n := |calls| - 1;
      && Impl(ImplRun(calls[..n], prefix), prefix, calls[n].op, calls[n].ttl, calls[n].now).1 == Counted(2)
      && Spec(SpecRun(calls[..n]), calls[n].op, calls[n].ttl, calls[n].now).1 == Counted(1)
  {
    prefix := "";
    var first, second := Request(Register("a", "u"), 10, 0), Request(Register("b", "u"), 10, 5);
    calls := [first, second, Request(RevokeAll("u"), 10, 12)];
    assert calls[..2] == [first, second] && [first, second][..1] == [first] && [first][..0] == [];
    TwoTickets();
    TwoRegistrations();
    assert SpecRun([first]) == map["a" := Ticket("u", 10)];
    assert ImplRun([first], "") == FirstToken();
    assert ImplRun([first, second], "") == BothTokens();
    assert SpecRun([first, second]) == map["a" := Ticket("u", 10)]["b" := Ticket("u", 15)];
    assert Fresh(map[], first.op);
    assert Fresh(IssuedBy([first]), second.op);
    assert Proper([]) && Proper([first]) && Proper([first, second]) && Proper(calls);
    OneLifetimeCovers(calls, 10);
  }

  lemma TwoTickets()
    ensures LiveIds(map["a" := Ticket("u", 10)]["b" := Ticket("u", 15)], "u", 12) == {"b"} && |{"b"}| == 1
  {}

  function FirstToken(): Keyspace { WithToken(map[], "", "a", "u", {"a"}, 10) }

  function BothTokens(): Keyspace { WithToken(FirstToken(), "", "b", "u", {"a", "b"}, 15) }

  lemma Names()
    ensures TokenKey("", "a") == "a" && TokenKey("", "b") == "b" && SubjectKey("", "u") == "subject:u"
    ensures |"a"| == |"b"| == 1 && "a" != "b"
  {
    assert "a"[0] != "b"[0];
  }

  lemma TwoRegistrations()
    ensures Registered(map[], "", "a", "u", 10, 0) == (FirstToken(), Ok(()))
    ensures Registered(FirstToken(), "", "b", "u", 10, 5) == (BothTokens(), Ok(()))
    ensures AllRevoked(BothTokens(), "", "u", 12).1 == Ok(2)
  {
    Names();
    RegisterForm(map[], "", map[], "a", "u", 10, 0);
    assert KeysAt(map[], "subject:u", 0) + {"a"} == {"a"};
    assert OwnKey(map["a" := "u"], "", "u", "a");
    RegisterForm(FirstToken(), "", map["a" := "u"], "b", "u", 10, 5);
    assert KeysAt(FirstToken(), "subject:u", 5) + {"b"} == {"a", "b"};
    assert ListMembers(BothTokens(), "subject:u", 12) == Ok({"a", "b"}) && |{"a", "b"}| == 2;
  }

  /** A shorter lifetime does hide a token: after a day's token and then a second's token, `revoke_all` two
      seconds later leaves the first one alive. */
  lemma ShorterLifetimeHidesTokens() returns (db: Keyspace, now: int)
    ensures db == Registered(Registered(map[], "", "a", "u", 86400, 0).0, "", "b", "u", 1, 0).0
    ensures GetText(AllRevoked(db, "", "u", now).0, TokenKey("", "a"), now) == Ok(Some("u"))
  {
    var issued := map["a" := "u"];
    var db1 := WithToken(map[], "", "a", "u", {"a"}, 86400);
    Names();
    RegisterForm(map[], "", map[], "a", "u", 86400, 0);
    assert OwnKey(issued, "", "u", "a");
    RegisterForm(db1, "", issued, "b", "u", 1, 0);
    db, now := Registered(db1, "", "b", "u", 1, 0).0, 2;
    assert ListMembers(db, "subject:u", 2) == Ok({});
  }
}
