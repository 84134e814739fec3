/** The Redis commands of the token store, on a keyspace whose keys expire. */
module Redis {
  import opened Results

  datatype Entry = Text(value: string, deadline: Option<int>) | Members(keys: set<string>, deadline: Option<int>)

  type Keyspace = map<string, Entry>

  /** A key whose time has come no longer exists, whether or not it has been collected. */
  function Lookup(db: Keyspace, key: string, now: int): Option<Entry> {
    if key in db && (db[key].deadline.None? || now < db[key].deadline.value) then Some(db[key]) else None
  }

  function GetText(db: Keyspace, key: string, now: int): Result<Option<string>> {
    match Lookup(db, key, now)
    case None => Ok(None)
    case Some(Text(value, _)) => Ok(Some(value))
    case Some(Members(_, _)) => Err(WrongType)
  }

  /** SET key value EX ttl */
  function SetText(db: Keyspace, key: string, value: string, ttl: int, now: int): Keyspace {
    db[key := Text(value, Some(now + ttl))]
  }

  function Delete(db: Keyspace, key: string): Keyspace {
    db - {key}
  }

  /** SADD; a new set has no deadline until EXPIRE gives it one. */
  function AddMember(db: Keyspace, key: string, member: string, now: int): (Keyspace, bool) {
    match Lookup(db, key, now)
    case None => (db[key := Members({member}, None)], true)
    case Some(Text(_, _)) => (db, false)
    case Some(Members(keys, deadline)) => (db[key := Members(keys + {member}, deadline)], true)
  }

  /** SREM; a set that becomes empty is removed. */
  function RemoveMember(db: Keyspace, key: string, member: string, now: int): (Keyspace, bool) {
    match Lookup(db, key, now)
    case None => (db, true)
    case Some(Text(_, _)) => (db, false)
    case Some(Members(keys, deadline)) =>
      (if keys - {member} == {} then db - {key} else db[key := Members(keys - {member}, deadline)], true)
  }

  function ListMembers(db: Keyspace, key: string, now: int): Result<set<string>> {
    match Lookup(db, key, now)
    case None => Ok({})
    case Some(Text(_, _)) => Err(WrongType)
    case Some(Members(keys, _)) => Ok(keys)
  }

  function ExpireIn(db: Keyspace, key: string, ttl: int, now: int): Keyspace {
    match Lookup(db, key, now)
    case None => db
    case Some(e) => db[key := e.(deadline := Some(now + ttl))]
  }

  /** The server. */
  class Client {
    var db: Keyspace

    constructor ()
      ensures db == map[]
    {
      db := map[];
    }

    method Get(key: string, now: int) returns (r: Result<Option<string>>)
      ensures r == GetText(db, key, now)
    {
      r := GetText(db, key, now);
    }

    method Set(key: string, value: string, ttl: int, now: int)
      modifies this
      ensures db == SetText(old(db), key, value, ttl, now)
    {
      db := db[key := Text(value, Some(now + ttl))];
    }

    method Del(key: string)
      modifies this
      ensures db == Delete(old(db), key)
    {
      db := db - {key};
    }

    method SAdd(key: string, member: string, now: int) returns (ok: bool)
      modifies this
      ensures (db, ok) == AddMember(old(db), key, member, now)
    {
      var (db', done) := AddMember(db, key, member, now);
      db, ok := db', done;
    }

    method SRem(key: string, member: string, now: int) returns (ok: bool)
      modifies this
      ensures (db, ok) == RemoveMember(old(db), key, member, now)
    {
      var (db', done) := RemoveMember(db, key, member, now);
      db, ok := db', done;
    }

    method SMembers(key: string, now: int) returns (r: Result<set<string>>)
      ensures r == ListMembers(db, key, now)
    {
      r := ListMembers(db, key, now);
    }

    method Expire(key: string, ttl: int, now: int)
      modifies this
      ensures db == ExpireIn(old(db), key, ttl, now)
    {
      db := ExpireIn(db, key, ttl, now);
    }
  }
}
