/** The Redis store refines the in-memory map extended with deadlines. */
module TokenRefinement {
  import opened Results
  import opened Redis
  import opened TokenStores
  import opened Counting

  // The specification.

  datatype Ticket = Ticket(subject: Subject, deadline: int)

  type Tickets = map<TokenId, Ticket>

  function Live(m: Tickets, id: TokenId, now: int): Option<Ticket> {
    if id in m && now < m[id].deadline then Some(m[id]) else None
  }

  predicate Holds(m: Tickets, id: TokenId, subject: Subject, now: int) {
    Live(m, id, now).Some? && Live(m, id, now).value.subject == subject
  }

  function LiveIds(m: Tickets, subject: Subject, now: int): set<TokenId> {
    set id | id in m && Holds(m, id, subject, now)
  }

  /** The in-memory store, with a deadline for every token. */
  function Spec(m: Tickets, op: Op, ttl: int, now: int): (Tickets, Answer) {
    match op
    case Register(id, subject) => (m[id := Ticket(subject, now + ttl)], Done)
    case Rotate(oldId, newId, subject) =>
      if Holds(m, oldId, subject, now) then ((m - {oldId})[newId := Ticket(subject, now + ttl)], Said(true))
      else (m, Said(false))
    case Revoke(id, subject) =>
      if Holds(m, id, subject, now) then (m - {id}, Said(true)) else (m, Said(false))
    case RevokeAll(subject) => (m - LiveIds(m, subject, now), Counted(|LiveIds(m, subject, now)|))
  }

  /** The Redis store. */
  function Impl(db: Keyspace, prefix: string, op: Op, ttl: int, now: int): (Keyspace, Answer) {
    match op
    case Register(id, subject) =>
      var (db', r) := Registered(db, prefix, id, subject, ttl, now);
      (db', if r.Ok? then Done else Failed)
    case Rotate(oldId, newId, subject) =>
      var (db', r) := Rotated(db, prefix, oldId, newId, subject, ttl, now);
      (db', if r.Ok? then Said(r.value) else Failed)
    case Revoke(id, subject) =>
      var (db', r) := Revoked(db, prefix, id, subject, now);
      (db', if r.Ok? then Said(r.value) else Failed)
    case RevokeAll(subject) =>
      var (db', r) := AllRevoked(db, prefix, subject, now);
      (db', if r.Ok? then Counted(r.value) else Failed)
  }

  // The assumptions: token ids are unused when they are issued, and do not look like a subject key.

  predicate WellNamed(id: TokenId) {
    |id| < 8 || id[..8] != "subject:"
  }

  predicate Fresh(issued: map<TokenId, Subject>, op: Op) {
    match op
    case Register(id, _) => WellNamed(id) && id !in issued
    case Rotate(oldId, newId, _) => WellNamed(oldId) && WellNamed(newId) && newId !in issued
    case Revoke(id, _) => WellNamed(id)
    case RevokeAll(_) => true
  }

  /** Every id ever issued, with its subject. */
  function Issued(issued: map<TokenId, Subject>, op: Op): map<TokenId, Subject> {
    match op
    case Register(id, subject) => issued[id := subject]
    case Rotate(_, newId, subject) => issued[newId := subject]
    case _ => issued
  }

  // The coupling.

  /** A token is live in Redis exactly as in the specification. */
  predicate TokenAgrees(db: Keyspace, prefix: string, m: Tickets, id: TokenId, now: int) {
    WellNamed(id) ==>
      Lookup(db, TokenKey(prefix, id), now)
      == match Live(m, id, now) case None => None case Some(t) => Some(Text(t.subject, Some(t.deadline)))
  }

  /** The index of a subject has every live token of it, and outlives it. */
  predicate TokenIndexed(db: Keyspace, prefix: string, m: Tickets, id: TokenId, now: int) {
    Live(m, id, now).Some? ==>
      var t := m[id];
      var index := SubjectKey(prefix, t.subject);
      && index in db && db[index].Members? && TokenKey(prefix, id) in db[index].keys
      && db[index].deadline.Some? && db[index].deadline.value >= t.deadline
  }

  predicate OwnKey(issued: map<TokenId, Subject>, prefix: string, subject: Subject, key: string) {
    && |key| >= |prefix| && key[..|prefix|] == prefix
    && key[|prefix|..] in issued && issued[key[|prefix|..]] == subject
  }

  /** The index of a subject names only tokens that were issued to it. */
  ghost predicate IndexClean(db: Keyspace, prefix: string, issued: map<TokenId, Subject>, subject: Subject) {
    var index := SubjectKey(prefix, subject);
    index in db ==>
      && db[index].Members? && db[index].deadline.Some?
      && forall key :: key in db[index].keys ==> OwnKey(issued, prefix, subject, key)
  }

  predicate TicketOk(m: Tickets, issued: map<TokenId, Subject>, id: TokenId) {
    && (id in issued ==> WellNamed(id))
    && (id in m ==> id in issued && issued[id] == m[id].subject)
  }

  ghost predicate InStep(db: Keyspace, prefix: string, m: Tickets, issued: map<TokenId, Subject>, now: int) {
    && (forall id {:trigger TokenAgrees(db, prefix, m, id, now)} :: TokenAgrees(db, prefix, m, id, now))
    && (forall id {:trigger TokenIndexed(db, prefix, m, id, now)} :: TokenIndexed(db, prefix, m, id, now))
    && (forall s {:trigger IndexClean(db, prefix, issued, s)} :: IndexClean(db, prefix, issued, s))
    && (forall id {:trigger TicketOk(m, issued, id)} :: TicketOk(m, issued, id))
  }

  lemma DistinctKeys(prefix: string, id: TokenId, id': TokenId, s: Subject, s': Subject)
    ensures WellNamed(id) ==> TokenKey(prefix, id) != SubjectKey(prefix, s)
    ensures TokenKey(prefix, id) == TokenKey(prefix, id') ==> id == id'
    ensures SubjectKey(prefix, s) == SubjectKey(prefix, s') ==> s == s'
  {
    assert TokenKey(prefix, id)[|prefix|..] == id && TokenKey(prefix, id')[|prefix|..] == id';
    assert SubjectKey(prefix, s)[|prefix|..] == "subject:" + s;
    assert ("subject:" + s)[..8] == "subject:" && ("subject:" + s)[8..] == s;
    assert SubjectKey(prefix, s')[|prefix|..] == "subject:" + s';
    assert ("subject:" + s')[8..] == s';
  }

  lemma OwnTokenKey(issued: map<TokenId, Subject>, prefix: string, id: TokenId)
    requires id in issued
    ensures OwnKey(issued, prefix, issued[id], TokenKey(prefix, id))
  {
    assert TokenKey(prefix, id)[..|prefix|] == prefix && TokenKey(prefix, id)[|prefix|..] == id;
  }

  lemma TimePasses(db: Keyspace, prefix: string, m: Tickets, issued: map<TokenId, Subject>, now: int, later: int)
    requires InStep(db, prefix, m, issued, now) && now <= later
    ensures InStep(db, prefix, m, issued, later)
  {
    forall id ensures TokenAgrees(db, prefix, m, id, later) {
      assert TokenAgrees(db, prefix, m, id, now);
    }
    forall id ensures TokenIndexed(db, prefix, m, id, later) {
      assert TokenIndexed(db, prefix, m, id, now);
    }
    forall id ensures TicketOk(m, issued, id) {
      assert TicketOk(m, issued, id);
    }
  }

  // What the scripts leave behind.

  /** The live members of a set. */
  function KeysAt(db: Keyspace, key: string, now: int): set<string> {
    match Lookup(db, key, now)
    case Some(Members(keys, _)) => keys
    case _ => {}
  }

  /** SADD and EXPIRE together. */
  lemma AddAndExpire(db: Keyspace, key: string, member: string, ttl: int, now: int)
    requires key in db ==> db[key].Members?
    ensures AddMember(db, key, member, now).1
    ensures ExpireIn(AddMember(db, key, member, now).0, key, ttl, now)
            == db[key := Members(KeysAt(db, key, now) + {member}, Some(now + ttl))]
  {
    var added := AddMember(db, key, member, now).0;
    var keys := KeysAt(db, key, now) + {member};
    assert added[key].Members? && added[key].keys == keys;
    assert Lookup(added, key, now) == Some(added[key]);
  }

  lemma Remove(db: Keyspace, key: string, member: string, now: int)
    requires key in db ==> db[key].Members?
    ensures var (db', ok) := RemoveMember(db, key, member, now);
      && ok && KeysAt(db', key, now) == KeysAt(db, key, now) - {member}
      && db' - {key} == db - {key}
      && (key in db' ==> key in db && db[key].Members? && db'[key].Members? && db'[key].deadline == db[key].deadline
                         && db'[key].keys <= db[key].keys)
  {}

  function WithToken(db: Keyspace, prefix: string, id: TokenId, subject: Subject, keys: set<string>,
                     deadline: int): Keyspace {
    db[TokenKey(prefix, id) := Text(subject, Some(deadline))]
      [SubjectKey(prefix, subject) := Members(keys, Some(deadline))]
  }

  lemma RegisterForm(db: Keyspace, prefix: string, issued: map<TokenId, Subject>, id: TokenId, subject: Subject,
                     ttl: int, now: int)
    requires WellNamed(id) && IndexClean(db, prefix, issued, subject)
    ensures var keys := KeysAt(db, SubjectKey(prefix, subject), now) + {TokenKey(prefix, id)};
      Registered(db, prefix, id, subject, ttl, now) == (WithToken(db, prefix, id, subject, keys, now + ttl), Ok(()))
  {
    DistinctKeys(prefix, id, id, subject, subject);
    AddAndExpire(SetText(db, TokenKey(prefix, id), subject, ttl, now), SubjectKey(prefix, subject),
                 TokenKey(prefix, id), ttl, now);
  }

  lemma RotateForm(db: Keyspace, prefix: string, issued: map<TokenId, Subject>, oldId: TokenId, newId: TokenId,
                   subject: Subject, ttl: int, now: int)
    requires WellNamed(oldId) && WellNamed(newId) && oldId != newId && IndexClean(db, prefix, issued, subject)
    requires GetText(db, TokenKey(prefix, oldId), now) == Ok(Some(subject))
    ensures var keys := KeysAt(db, SubjectKey(prefix, subject), now) - {TokenKey(prefix, oldId)}
                        + {TokenKey(prefix, newId)};
      Rotated(db, prefix, oldId, newId, subject, ttl, now)
      == (WithToken(db - {TokenKey(prefix, oldId)}, prefix, newId, subject, keys, now + ttl), Ok(true))
  {
    DistinctKeys(prefix, oldId, newId, subject, subject);
    DistinctKeys(prefix, newId, oldId, subject, subject);
    var oldKey, newKey, index := TokenKey(prefix, oldId), TokenKey(prefix, newId), SubjectKey(prefix, subject);
    var renamed := SetText(Delete(db, oldKey), newKey, subject, ttl, now);
    Remove(renamed, index, oldKey, now);
    var removed := RemoveMember(renamed, index, oldKey, now).0;
    AddAndExpire(removed, index, newKey, ttl, now);
    assert KeysAt(renamed, index, now) == KeysAt(db, index, now);
    var e := Members(KeysAt(removed, index, now) + {newKey}, Some(now + ttl));
    assert removed[index := e] == (removed - {index})[index := e] == (renamed - {index})[index := e]
           == renamed[index := e];
  }

  // Every operation keeps the coupling.

  /** Forgetting a token on both sides. */
  lemma DropKeeps(db: Keyspace, prefix: string, m: Tickets, issued: map<TokenId, Subject>, id: TokenId, now: int)
    requires InStep(db, prefix, m, issued, now) && WellNamed(id)
    ensures InStep(db - {TokenKey(prefix, id)}, prefix, m - {id}, issued, now)
  {
    var db', m' := db - {TokenKey(prefix, id)}, m - {id};
    forall x ensures TokenAgrees(db', prefix, m', x, now) {
      assert TokenAgrees(db, prefix, m, x, now);
      DistinctKeys(prefix, x, id, "", "");
    }
    forall x ensures TokenIndexed(db', prefix, m', x, now) {
      assert TokenIndexed(db, prefix, m, x, now);
      if x in m { DistinctKeys(prefix, id, x, m[x].subject, ""); }
    }
    forall s ensures IndexClean(db', prefix, issued, s) {
      assert IndexClean(db, prefix, issued, s);
    }
    forall x ensures TicketOk(m', issued, x) {
      assert TicketOk(m, issued, x);
    }
  }

  /** Issuing a fresh token and indexing it with at least the live tokens of its subject. */
  lemma IssueKeeps(db: Keyspace, prefix: string, m: Tickets, issued: map<TokenId, Subject>, id: TokenId,
                   subject: Subject,
                   keys: set<string>, ttl: int, now: int)
    requires InStep(db, prefix, m, issued, now) && WellNamed(id) && id !in issued && ttl >= 1
    requires TokenKey(prefix, id) in keys
    requires forall key :: key in keys ==> key == TokenKey(prefix, id) || OwnKey(issued, prefix, subject, key)
    requires forall x :: x in LiveIds(m, subject, now) ==> TokenKey(prefix, x) in keys && m[x].deadline <= now + ttl
    ensures InStep(WithToken(db, prefix, id, subject, keys, now + ttl), prefix, m[id := Ticket(subject, now + ttl)],
                    issued[id := subject], now)
  {
    var db', m' := WithToken(db, prefix, id, subject, keys, now + ttl), m[id := Ticket(subject, now + ttl)];
    var issued' := issued[id := subject];
    forall x ensures TokenAgrees(db', prefix, m', x, now) {
      assert TokenAgrees(db, prefix, m, x, now);
      DistinctKeys(prefix, x, id, subject, subject);
    }
    forall x ensures TokenIndexed(db', prefix, m', x, now) {
      assert TokenIndexed(db, prefix, m, x, now) && TicketOk(m, issued, x);
      if x in m {
        DistinctKeys(prefix, id, x, m[x].subject, subject);
        assert x in LiveIds(m, m[x].subject, now) <==> Live(m, x, now).Some?;
      }
    }
    forall s ensures IndexClean(db', prefix, issued', s) {
      assert IndexClean(db, prefix, issued, s);
      DistinctKeys(prefix, id, id, s, subject);
      OwnTokenKey(issued', prefix, id);
      forall key ensures OwnKey(issued, prefix, s, key) ==> OwnKey(issued', prefix, s, key) {}
    }
    forall x ensures TicketOk(m', issued', x) {
      assert TicketOk(m, issued, x);
    }
  }

  /** Shrinking an index by keys that are not live. */
  lemma UnindexKeeps(db: Keyspace, db': Keyspace, prefix: string, m: Tickets, issued: map<TokenId, Subject>,
                     subject: Subject, now: int)
    requires InStep(db, prefix, m, issued, now)
    requires var index := SubjectKey(prefix, subject);
      && db' - {index} == db - {index}
      && (index in db' ==>
            && index in db && db[index].Members? && db'[index].Members?
            && db'[index].deadline == db[index].deadline && db'[index].keys <= db[index].keys)
    requires forall x :: x in LiveIds(m, subject, now) ==>
      TokenKey(prefix, x) in KeysAt(db', SubjectKey(prefix, subject), now)
    ensures InStep(db', prefix, m, issued, now)
  {
    var index := SubjectKey(prefix, subject);
    forall k | k != index ensures k in db' <==> k in db
                          ensures k in db' ==> db'[k] == db[k]
    {
      assert k in db' - {index} <==> k in db - {index};
      if k in db' { assert (db' - {index})[k] == db'[k] && (db - {index})[k] == db[k]; }
    }
    forall x ensures TokenAgrees(db', prefix, m, x, now) {
      assert TokenAgrees(db, prefix, m, x, now);
      DistinctKeys(prefix, x, x, subject, subject);
    }
    forall x ensures TokenIndexed(db', prefix, m, x, now) {
      assert TokenIndexed(db, prefix, m, x, now);
      if x in m {
        DistinctKeys(prefix, x, x, m[x].subject, subject);
        assert x in LiveIds(m, m[x].subject, now) <==> Live(m, x, now).Some?;
      }
    }
    forall s ensures IndexClean(db', prefix, issued, s) {
      assert IndexClean(db, prefix, issued, s);
      DistinctKeys(prefix, "", "", s, subject);
    }
  }

  /** The index keys of a subject, at the moment they are read. */
  lemma IndexHasLive(db: Keyspace, prefix: string, m: Tickets, issued: map<TokenId, Subject>, subject: Subject,
                     now: int)
    requires InStep(db, prefix, m, issued, now)
    ensures forall x :: x in LiveIds(m, subject, now) ==>
      TokenKey(prefix, x) in KeysAt(db, SubjectKey(prefix, subject), now)
    ensures forall key :: key in KeysAt(db, SubjectKey(prefix, subject), now) ==> OwnKey(issued, prefix, subject, key)
  {
    forall x | x in LiveIds(m, subject, now)
      ensures TokenKey(prefix, x) in KeysAt(db, SubjectKey(prefix, subject), now)
    {
      assert TokenIndexed(db, prefix, m, x, now);
    }
    assert IndexClean(db, prefix, issued, subject);
  }

  // One operation.

  /** No live token of the subject outlives a token issued now: the condition under which issuing one does
      not cut the subject's index short. */
  predicate Covers(m: Tickets, op: Op, ttl: int, now: int) {
    match op
    case Register(_, subject) => forall x :: x in LiveIds(m, subject, now) ==> m[x].deadline <= now + ttl
    case Rotate(oldId, _, subject) =>
      Holds(m, oldId, subject, now) ==>
        forall x :: x in LiveIds(m, subject, now) && x != oldId ==> m[x].deadline <= now + ttl
    case _ => true
  }

  /** SET refuses a lifetime of less than a second. */
  predicate Lasts(op: Op, ttl: int) {
    op.Register? || op.Rotate? ==> ttl >= 1
  }

  lemma RegisterRefines(db: Keyspace, prefix: string, m: Tickets, issued: map<TokenId, Subject>, op: Op, ttl: int,
                        now: int)
    requires InStep(db, prefix, m, issued, now) && Fresh(issued, op) && ttl >= 1 && op.Register?
    requires Covers(m, op, ttl, now)
    ensures Impl(db, prefix, op, ttl, now).1 == Spec(m, op, ttl, now).1
    ensures InStep(Impl(db, prefix, op, ttl, now).0, prefix, Spec(m, op, ttl, now).0, Issued(issued, op), now)
  {
    assert IndexClean(db, prefix, issued, op.subject);
    RegisterForm(db, prefix, issued, op.id, op.subject, ttl, now);
    IndexHasLive(db, prefix, m, issued, op.subject, now);
    IssueKeeps(db, prefix, m, issued, op.id, op.subject,
               KeysAt(db, SubjectKey(prefix, op.subject), now) + {TokenKey(prefix, op.id)}, ttl, now);
  }

  /** GET answers as the specification does. */
  lemma GetAgrees(db: Keyspace, prefix: string, m: Tickets, id: TokenId, subject: Subject, now: int)
    requires WellNamed(id) && TokenAgrees(db, prefix, m, id, now)
    ensures GetText(db, TokenKey(prefix, id), now).Ok?
    ensures GetText(db, TokenKey(prefix, id), now) == Ok(Some(subject)) <==> Holds(m, id, subject, now)
  {}

  lemma RotateRefines(db: Keyspace, prefix: string, m: Tickets, issued: map<TokenId, Subject>, op: Op, ttl: int,
                      now: int)
    requires InStep(db, prefix, m, issued, now) && Fresh(issued, op) && ttl >= 1 && op.Rotate?
    requires Covers(m, op, ttl, now)
    requires Holds(m, op.oldId, op.subject, now)
    ensures Impl(db, prefix, op, ttl, now).1 == Spec(m, op, ttl, now).1
    ensures InStep(Impl(db, prefix, op, ttl, now).0, prefix, Spec(m, op, ttl, now).0, Issued(issued, op), now)
  {
    var oldKey, index := TokenKey(prefix, op.oldId), SubjectKey(prefix, op.subject);
    assert TokenAgrees(db, prefix, m, op.oldId, now) && TicketOk(m, issued, op.oldId);
    assert IndexClean(db, prefix, issued, op.subject);
    GetAgrees(db, prefix, m, op.oldId, op.subject, now);
    RotateForm(db, prefix, issued, op.oldId, op.newId, op.subject, ttl, now);
    IndexHasLive(db, prefix, m, issued, op.subject, now);
    DropKeeps(db, prefix, m, issued, op.oldId, now);
    forall x | x in LiveIds(m - {op.oldId}, op.subject, now)
      ensures TokenKey(prefix, x) in KeysAt(db, index, now) - {oldKey}
    {
      assert x in LiveIds(m, op.subject, now);
      DistinctKeys(prefix, x, op.oldId, "", "");
    }
    IssueKeeps(db - {oldKey}, prefix, m - {op.oldId}, issued, op.newId, op.subject,
               KeysAt(db, index, now) - {oldKey} + {TokenKey(prefix, op.newId)}, ttl, now);
  }

  /** A refused rotation has used up an id, and nothing else. */
  lemma RefusedRotation(db: Keyspace, prefix: string, m: Tickets, issued: map<TokenId, Subject>, op: Op, ttl: int,
                        now: int)
    requires InStep(db, prefix, m, issued, now) && Fresh(issued, op) && op.Rotate?
    requires !Holds(m, op.oldId, op.subject, now)
    ensures Impl(db, prefix, op, ttl, now).1 == Spec(m, op, ttl, now).1
    ensures InStep(Impl(db, prefix, op, ttl, now).0, prefix, Spec(m, op, ttl, now).0, Issued(issued, op), now)
  {
    assert TokenAgrees(db, prefix, m, op.oldId, now);
    GetAgrees(db, prefix, m, op.oldId, op.subject, now);
    forall s ensures IndexClean(db, prefix, Issued(issued, op), s) {
      assert IndexClean(db, prefix, issued, s);
    }
    forall x ensures TicketOk(m, Issued(issued, op), x) {
      assert TicketOk(m, issued, x);
    }
  }

  lemma RevokeRefines(db: Keyspace, prefix: string, m: Tickets, issued: map<TokenId, Subject>, op: Op, ttl: int,
                      now: int)
    requires InStep(db, prefix, m, issued, now) && Fresh(issued, op) && op.Revoke?
    ensures Impl(db, prefix, op, ttl, now).1 == Spec(m, op, ttl, now).1
    ensures InStep(Impl(db, prefix, op, ttl, now).0, prefix, Spec(m, op, ttl, now).0, issued, now)
  {
    var key, index := TokenKey(prefix, op.id), SubjectKey(prefix, op.subject);
    assert TokenAgrees(db, prefix, m, op.id, now);
    GetAgrees(db, prefix, m, op.id, op.subject, now);
    if Holds(m, op.id, op.subject, now) {
      DropKeeps(db, prefix, m, issued, op.id, now);
      DistinctKeys(prefix, op.id, op.id, op.subject, op.subject);
      assert IndexClean(db - {key}, prefix, issued, op.subject);
      Remove(db - {key}, index, key, now);
      IndexHasLive(db - {key}, prefix, m - {op.id}, issued, op.subject, now);
      forall x | x in LiveIds(m - {op.id}, op.subject, now)
        ensures TokenKey(prefix, x) in KeysAt(RemoveMember(db - {key}, index, key, now).0, index, now)
      {
        DistinctKeys(prefix, x, op.id, "", "");
      }
      UnindexKeeps(db - {key}, RemoveMember(db - {key}, index, key, now).0, prefix, m - {op.id}, issued, op.subject,
                   now);
    }
  }

  /** The token keys that `revoke_all` really takes away: those of the live tokens. */
  function LiveKeys(m: Tickets, prefix: string, subject: Subject, now: int): set<string> {
    set id | id in LiveIds(m, subject, now) :: TokenKey(prefix, id)
  }

  lemma LiveKeyCount(m: Tickets, prefix: string, subject: Subject, now: int)
    ensures |LiveKeys(m, prefix, subject, now)| == |LiveIds(m, subject, now)|
  {
    var ids := LiveIds(m, subject, now);
    var keyOf := map id | id in ids :: TokenKey(prefix, id);
    forall x, y | x in ids && y in ids && keyOf[x] == keyOf[y] ensures x == y {
      DistinctKeys(prefix, x, y, "", "");
    }
    forall k | k in LiveKeys(m, prefix, subject, now) ensures exists id :: id in ids && keyOf[id] == k {
      var id :| id in ids && TokenKey(prefix, id) == k;
      assert keyOf[id] == k;
    }
    SameCount(ids, LiveKeys(m, prefix, subject, now), keyOf);
  }

  /** `revoke_all` deletes the same tokens, but counts the index: it reports the expired tokens that are
      still in it, too. */
  lemma RevokeAllRefines(db: Keyspace, prefix: string, m: Tickets, issued: map<TokenId, Subject>, op: Op, ttl: int,
                         now: int)
    requires InStep(db, prefix, m, issued, now) && op.RevokeAll?
    ensures InStep(Impl(db, prefix, op, ttl, now).0, prefix, Spec(m, op, ttl, now).0, issued, now)
    ensures var answer, expected := Impl(db, prefix, op, ttl, now).1, Spec(m, op, ttl, now).1;
      && answer.Counted? && expected.Counted? && expected.n <= answer.n
      && (answer.n == expected.n
          <==> KeysAt(db, SubjectKey(prefix, op.subject), now) == LiveKeys(m, prefix, op.subject, now))
  {
    assert IndexClean(db, prefix, issued, op.subject);
    IndexHasLive(db, prefix, m, issued, op.subject, now);
    LiveKeyCount(m, prefix, op.subject, now);
    SubsetSize(LiveKeys(m, prefix, op.subject, now), KeysAt(db, SubjectKey(prefix, op.subject), now));
    AllGone(db, prefix, m, issued, op.subject, now);
  }

  lemma SubsetSize(live: set<string>, keys: set<string>)
    requires live <= keys
    ensures |live| <= |keys| && (|live| == |keys| <==> keys == live)
  {
    assert keys == live + (keys - live) && |keys| == |live| + |keys - live|;
  }

  lemma AllGone(db: Keyspace, prefix: string, m: Tickets, issued: map<TokenId, Subject>, subject: Subject, now: int)
    requires InStep(db, prefix, m, issued, now)
    ensures InStep(db - KeysAt(db, SubjectKey(prefix, subject), now) - {SubjectKey(prefix, subject)}, prefix,
                    m - LiveIds(m, subject, now), issued, now)
  {
    var index := SubjectKey(prefix, subject);
    var keys := KeysAt(db, index, now);
    var db', m' := db - keys - {index}, m - LiveIds(m, subject, now);
    IndexHasLive(db, prefix, m, issued, subject, now);
    forall x ensures WellNamed(x) && Live(m, x, now).Some? && m[x].subject != subject ==> TokenKey(prefix, x) !in keys {
      assert TicketOk(m, issued, x);
      if x in issued { OwnTokenKey(issued, prefix, x); }
    }
    forall x ensures TokenAgrees(db', prefix, m', x, now) {
      assert TokenAgrees(db, prefix, m, x, now);
      DistinctKeys(prefix, x, x, subject, subject);
    }
    forall s, key ensures key in keys ==> key != SubjectKey(prefix, s) {
      assert key in keys ==> OwnKey(issued, prefix, subject, key);
      if key in keys {
        var id := key[|prefix|..];
        assert key == TokenKey(prefix, id) && TicketOk(m, issued, id);
        DistinctKeys(prefix, id, id, s, s);
      }
    }
    forall x ensures TokenIndexed(db', prefix, m', x, now) {
      assert TokenIndexed(db, prefix, m, x, now);
      if x in m { DistinctKeys(prefix, x, x, m[x].subject, subject); }
    }
    forall s ensures IndexClean(db', prefix, issued, s) {
      assert IndexClean(db, prefix, issued, s);
    }
    forall x ensures TicketOk(m', issued, x) {
      assert TicketOk(m, issued, x);
    }
  }

  /** One call: same answer (for `revoke_all`, at least the same count), and still in step. */
  lemma CallRefines(db: Keyspace, prefix: string, m: Tickets, issued: map<TokenId, Subject>, op: Op, ttl: int, now: int)
    requires InStep(db, prefix, m, issued, now) && Fresh(issued, op) && Lasts(op, ttl) && Covers(m, op, ttl, now)
    ensures InStep(Impl(db, prefix, op, ttl, now).0, prefix, Spec(m, op, ttl, now).0, Issued(issued, op), now)
    ensures !op.RevokeAll? ==> Impl(db, prefix, op, ttl, now).1 == Spec(m, op, ttl, now).1
    ensures op.RevokeAll? ==>
      var answer, expected := Impl(db, prefix, op, ttl, now).1, Spec(m, op, ttl, now).1;
      && answer.Counted? && expected.Counted? && expected.n <= answer.n
      && (answer.n == expected.n
          <==> KeysAt(db, SubjectKey(prefix, op.subject), now) == LiveKeys(m, prefix, op.subject, now))
  {
    if op.Register? { RegisterRefines(db, prefix, m, issued, op, ttl, now); }
    else if op.Rotate? {
      if Holds(m, op.oldId, op.subject, now) { RotateRefines(db, prefix, m, issued, op, ttl, now); }
      else { RefusedRotation(db, prefix, m, issued, op, ttl, now); }
    }
    else if op.Revoke? { RevokeRefines(db, prefix, m, issued, op, ttl, now); }
    else { RevokeAllRefines(db, prefix, m, issued, op, ttl, now); }
  }

  // Whole runs.

  /** `ttl` is the lifetime of the token that is issued, if one is. */
  datatype Request = Request(op: Op, ttl: int, now: int)

  function SpecRun(calls: seq<Request>): Tickets {
    if calls == [] then map[] else
      var n := |calls| - 1;
      Spec(SpecRun(calls[..n]), calls[n].op, calls[n].ttl, calls[n].now).0
  }

  function ImplRun(calls: seq<Request>, prefix: string): Keyspace {
    if calls == [] then map[] else
      var n := |calls| - 1;
      Impl(ImplRun(calls[..n], prefix), prefix, calls[n].op, calls[n].ttl, calls[n].now).0
  }

  function IssuedBy(calls: seq<Request>): map<TokenId, Subject> {
    if calls == [] then map[] else
      var n := |calls| - 1;
      Issued(IssuedBy(calls[..n]), calls[n].op)
  }

  /** The clock does not run backwards, and token ids are issued once. */
  predicate Proper(calls: seq<Request>) {
    calls != [] ==>
      var n := |calls| - 1;
      && Proper(calls[..n]) && Fresh(IssuedBy(calls[..n]), calls[n].op) && Lasts(calls[n].op, calls[n].ttl)
      && (n > 0 ==> calls[n - 1].now <= calls[n].now)
  }

  /** Whatever the lifetimes are, no token is issued that another one of its subject outlives. */
  predicate Covered(calls: seq<Request>) {
    calls != [] ==>
      var n := |calls| - 1;
      Covered(calls[..n]) && Covers(SpecRun(calls[..n]), calls[n].op, calls[n].ttl, calls[n].now)
  }

  /** Over every run the Redis store stays in step with the specification. */
  lemma {:induction false} RunCoupled(calls: seq<Request>, prefix: string, now: int)
    requires Proper(calls) && Covered(calls) && (calls != [] ==> calls[|calls| - 1].now <= now)
    ensures InStep(ImplRun(calls, prefix), prefix, SpecRun(calls), IssuedBy(calls), now)
    decreases |calls|
  {
    if calls == [] {
      forall id ensures TokenAgrees(map[], prefix, map[], id, now) && TokenIndexed(map[], prefix, map[], id, now)
        && TicketOk(map[], map[], id) && IndexClean(map[], prefix, map[], id) {}
    } else {
      var n := |calls| - 1;
      var call := calls[n];
      RunCoupled(calls[..n], prefix, call.now);
      CallRefines(ImplRun(calls[..n], prefix), prefix, SpecRun(calls[..n]), IssuedBy(calls[..n]), call.op, call.ttl,
                  call.now);
      TimePasses(ImplRun(calls, prefix), prefix, SpecRun(calls), IssuedBy(calls), call.now, now);
    }
  }

  /** One lifetime for all tokens is enough. */
  lemma {:induction false} OneLifetimeCovers(calls: seq<Request>, ttl: int)
    requires Proper(calls) && forall i :: 0 <= i < |calls| ==> calls[i].ttl == ttl
    ensures Covered(calls)
    ensures forall id :: id in SpecRun(calls) ==>
      calls != [] && SpecRun(calls)[id].deadline <= calls[|calls| - 1].now + ttl
    decreases |calls|
  {
    if calls != [] {
      OneLifetimeCovers(calls[..|calls| - 1], ttl);
    }
  }
}
