/** The two refresh-token stores. */
module TokenStores {
  import opened Results
  import opened Redis

  type TokenId = string
  type Subject = string

  // The operations.

  datatype Op =
    | Register(id: TokenId, subject: Subject)
    | Rotate(oldId: TokenId, newId: TokenId, subject: Subject)
    | Revoke(id: TokenId, subject: Subject)
    | RevokeAll(subject: Subject)

  datatype Answer = Done | Said(yes: bool) | Counted(n: nat) | Failed

  // In memory.

  /** What `revoke_all` deletes. */
  function OwnedBy(active: map<TokenId, Subject>, subject: Subject): set<TokenId> {
    set id | id in active && active[id] == subject
  }

  function Memory(active: map<TokenId, Subject>, op: Op): (map<TokenId, Subject>, Answer) {
    match op
    case Register(id, subject) => (active[id := subject], Done)
    case Rotate(oldId, newId, subject) =>
      if oldId in active && active[oldId] == subject then ((active - {oldId})[newId := subject], Said(true))
      else (active, Said(false))
    case Revoke(id, subject) =>
      if id in active && active[id] == subject then (active - {id}, Said(true)) else (active, Said(false))
    case RevokeAll(subject) => (active - OwnedBy(active, subject), Counted(|OwnedBy(active, subject)|))
  }

  class InMemoryRefreshTokenStore {
    var active: map<TokenId, Subject>

    constructor ()
      ensures active == map[]
    {
      active := map[];
    }

    method Register(id: TokenId, subject: Subject, ttl: int)
      modifies this
      ensures (active, Done) == Memory(old(active), Op.Register(id, subject))
    {
      active := active[id := subject];
    }

    method Rotate(oldId: TokenId, newId: TokenId, subject: Subject, ttl: int) returns (ok: bool)
      modifies this
      ensures (active, Said(ok)) == Memory(old(active), Op.Rotate(oldId, newId, subject))
    {
      if oldId !in active || active[oldId] != subject { return false; }
      active := active - {oldId};
      active := active[newId := subject];
      ok := true;
    }

    method Revoke(id: TokenId, subject: Subject) returns (ok: bool)
      modifies this
      ensures (active, Said(ok)) == Memory(old(active), Op.Revoke(id, subject))
    {
      if id !in active || active[id] != subject { return false; }
      active := active - {id};
      ok := true;
    }

    method RevokeAll(subject: Subject) returns (count: nat)
      modifies this
      ensures (active, Counted(count)) == Memory(old(active), Op.RevokeAll(subject))
    {
      var ids := OwnedBy(active, subject);
      var left := ids;
      while left != {}
        invariant left <= ids && active == old(active) - (ids - left)
        decreases |left|
      {
        var id :| id in left;
        active := active - {id};
        left := left - {id};
      }
      assert ids - left == ids;
      count := |ids|;
    }
  }

  // In Redis.

  function TokenKey(prefix: string, id: TokenId): string { prefix + id }

  function SubjectKey(prefix: string, subject: Subject): string { prefix + "subject:" + subject }

  /** The pipeline of `register`. */
  function Registered(db: Keyspace, prefix: string, id: TokenId, subject: Subject, ttl: int, now: int)
    : (Keyspace, Result<()>)
  {
    var set_ := SetText(db, TokenKey(prefix, id), subject, ttl, now);
    var (added, ok) := AddMember(set_, SubjectKey(prefix, subject), TokenKey(prefix, id), now);
    (ExpireIn(added, SubjectKey(prefix, subject), ttl, now), if ok then Ok(()) else Err(WrongType))
  }

  /** The rotate script. */
  function Rotated(db: Keyspace, prefix: string, oldId: TokenId, newId: TokenId, subject: Subject, ttl: int, now: int)
    : (Keyspace, Result<bool>)
  {
    var oldKey, newKey, subjectKey := TokenKey(prefix, oldId), TokenKey(prefix, newId), SubjectKey(prefix, subject);
    match GetText(db, oldKey, now)
    case Err(e) => (db, Err(e))
    case Ok(owner) =>
      if owner != Some(subject) then (db, Ok(false)) else
        var renamed := SetText(Delete(db, oldKey), newKey, subject, ttl, now);
        var (removed, ok) := RemoveMember(renamed, subjectKey, oldKey, now);
        if !ok then (removed, Err(WrongType)) else
          var (added, ok') := AddMember(removed, subjectKey, newKey, now);
          if !ok' then (added, Err(WrongType)) else (ExpireIn(added, subjectKey, ttl, now), Ok(true))
  }

  /** The revoke script. */
  function Revoked(db: Keyspace, prefix: string, id: TokenId, subject: Subject, now: int): (Keyspace, Result<bool>) {
    match GetText(db, TokenKey(prefix, id), now)
    case Err(e) => (db, Err(e))
    case Ok(owner) =>
      if owner != Some(subject) then (db, Ok(false)) else
        var deleted := Delete(db, TokenKey(prefix, id));
        var (removed, ok) := RemoveMember(deleted, SubjectKey(prefix, subject), TokenKey(prefix, id), now);
        (removed, if ok then Ok(true) else Err(WrongType))
  }

  /** The revoke_all script. */
  function AllRevoked(db: Keyspace, prefix: string, subject: Subject, now: int): (Keyspace, Result<nat>) {
    match ListMembers(db, SubjectKey(prefix, subject), now)
    case Err(e) => (db, Err(e))
    case Ok(keys) => (db - keys - {SubjectKey(prefix, subject)}, Ok(|keys|))
  }

  class RedisRefreshTokenStore {
    const client: Client
    const prefix: string

    constructor (client: Client, prefix: string)
      ensures this.client == client && this.prefix == prefix
    {
      this.client, this.prefix := client, prefix;
    }

    method Register(id: TokenId, subject: Subject, ttl: int, now: int) returns (r: Result<()>)
      modifies client
      ensures (client.db, r) == Registered(old(client.db), prefix, id, subject, ttl, now)
    {
      client.Set(TokenKey(prefix, id), subject, ttl, now);
      var ok := client.SAdd(SubjectKey(prefix, subject), TokenKey(prefix, id), now);
      client.Expire(SubjectKey(prefix, subject), ttl, now);
      r := if ok then Ok(()) else Err(WrongType);
    }

    method Rotate(oldId: TokenId, newId: TokenId, subject: Subject, ttl: int, now: int) returns (r: Result<bool>)
      modifies client
      ensures (client.db, r) == Rotated(old(client.db), prefix, oldId, newId, subject, ttl, now)
    {
      var oldKey, newKey, subjectKey := TokenKey(prefix, oldId), TokenKey(prefix, newId), SubjectKey(prefix, subject);
      var owner := client.Get(oldKey, now);
      if owner.Err? { return Err(owner.error); }
      if owner.value != Some(subject) { return Ok(false); }
      client.Del(oldKey);
      client.Set(newKey, subject, ttl, now);
      var ok := client.SRem(subjectKey, oldKey, now);
      if !ok { return Err(WrongType); }
      ok := client.SAdd(subjectKey, newKey, now);
      if !ok { return Err(WrongType); }
      client.Expire(subjectKey, ttl, now);
      r := Ok(true);
    }

    method Revoke(id: TokenId, subject: Subject, now: int) returns (r: Result<bool>)
      modifies client
      ensures (client.db, r) == Revoked(old(client.db), prefix, id, subject, now)
    {
      var key, subjectKey := TokenKey(prefix, id), SubjectKey(prefix, subject);
      var owner := client.Get(key, now);
      if owner.Err? { return Err(owner.error); }
      if owner.value != Some(subject) { return Ok(false); }
      client.Del(key);
      var ok := client.SRem(subjectKey, key, now);
      r := if ok then Ok(true) else Err(WrongType);
    }

    method RevokeAll(subject: Subject, now: int) returns (r: Result<nat>)
      modifies client
      ensures (client.db, r) == AllRevoked(old(client.db), prefix, subject, now)
    {
      var subjectKey := SubjectKey(prefix, subject);
      var keys := client.SMembers(subjectKey, now);
      if keys.Err? { return Err(keys.error); }
      var left := keys.value;
      while left != {}
        invariant left <= keys.value && client.db == old(client.db) - (keys.value - left)
        decreases |left|
      {
        var key :| key in left;
        client.Del(key);
        left := left - {key};
      }
      assert keys.value - left == keys.value;
      client.Del(subjectKey);
      r := Ok(|keys.value|);
    }
  }
}
