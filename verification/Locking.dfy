/** The transactions that lock photo rows, step by step: rows are locked one at a time, read, checked, and
    written at commit, while other transactions run in between. Finalisations and deletions lock in
    ascending id order, a postcard being sent in the order in which its two photos were registered. */
module Locking {
  import opened Results
  import opened Leases
  import opened Tables
  import opened Pipeline
  import opened Runs

  type TxnId = nat

  datatype Call =
    | Pairing(a: PhotoId, b: PhotoId, m: MatchId, explanation: string, now: Time, txn: Time)
    | Deletion(user: UserId, photo: PhotoId, now: Time)
    | Sending(m: MatchId, first: PhotoId, second: PhotoId)

  datatype CallAnswer = MadeMatch(match_: Result<MatchId>) | Removed(done: Result<()>) | Ended

  /** The call has taken its photos: matched or deleted them. */
  predicate Accepted(a: CallAnswer) { (a.MadeMatch? && a.match_.Ok?) || (a.Removed? && a.done.Ok?) }

  /** The call as one atomic transaction. A postcard being sent writes no photo: it holds its rows until it
      ends, and the postcard appears as a change of its own. */
  function Perform(db: Db, call: Call, blocked: bool): (Db, CallAnswer) {
    match call
    case Pairing(a, b, m, explanation, now, txn) =>
      var r := Finalize(db, a, b, m, explanation, now, txn, blocked);
      (r.db, MadeMatch(r.result))
    case Deletion(user, p, now) =>
      var r := DeletePhoto(db, user, p, now);
      (r.db, Removed(r.result))
    case Sending(_, _, _) => (db, Ended)
  }

  /** The rows a call locks, in the order of its SELECT ... FOR UPDATE. */
  function Wanted(call: Call): seq<PhotoId> {
    match call
    case Pairing(a, b, _, _, _, _) => if a < b then [a, b] else if b < a then [b, a] else [a]
    case Deletion(_, p, _) => [p]
    case Sending(_, first, second) => if first == second then [first] else [first, second]
  }

  /** The rows a send finds: those of its match, the one registered first before the other. */
  predicate SendRows(db: Db, call: Call) {
    call.Sending? ==>
      |RowKeys(db, call.m)| == 2 && call.first == FirstRow(db, call.m) && call.second == SecondRow(db, call.m)
  }

  function Refusal(call: Call, e: Error): CallAnswer {
    match call
    case Pairing(_, _, _, _, _, _) => MadeMatch(Err(e))
    case Deletion(_, _, _) => Removed(Err(e))
    case Sending(_, _, _) => Ended
  }

  /** `Acquiring(left)`: rows still to be locked. `Guarded`: the checks on the rows have passed. `Cleared`:
      so has the block check. */
  datatype Phase = Acquiring(left: seq<PhotoId>) | Guarded | Cleared | Finished(answer: CallAnswer)

  /** `copies` are the rows as the transaction read them when it locked them. */
  datatype Txn = Txn(call: Call, phase: Phase, copies: map<PhotoId, Photo>)

  datatype Fine = Fine(db: Db, txns: map<TxnId, Txn>, owner: map<PhotoId, TxnId>)

  datatype Move =
    | Start(t: TxnId, call: Call)
    | Lock(t: TxnId)
    | Guard(t: TxnId)
    | CheckBlocks(t: TxnId)
    | Commit(t: TxnId)
    | Other(db: Db)

  predicate PhotoElsewhere(db: Db, db': Db, locked: set<PhotoId>, p: PhotoId) {
    && PhotoStep(db, db', p)
    && (p in db.photos && p in db'.photos && db'.photos[p].status != db.photos[p].status ==>
          !db'.photos[p].status.Matched? && !db'.photos[p].status.Deleted?)
    && (p in db.photos && p in db'.photos && p in locked ==> db'.photos[p] == db.photos[p])
  }

  /** What the remaining transactions may do: they move photos along their status edges, but only
      finalisations and deletions match or delete one; they undo no match and make none; and they do not
      touch locked rows. */
  ghost predicate Elsewhere(db: Db, db': Db, locked: set<PhotoId>) {
    && (forall p {:trigger PhotoElsewhere(db, db', locked, p)} :: PhotoElsewhere(db, db', locked, p))
    && MatchesKept(db, db') && db'.matches == db.matches && db'.participants.Keys == db.participants.Keys
  }

  predicate HasRows(call: Call, copies: map<PhotoId, Photo>) {
    match call
    case Pairing(a, b, _, _, _, _) => a in copies && b in copies
    case Deletion(_, p, _) => p in copies
    case Sending(_, first, second) => first in copies && second in copies
  }

  ghost predicate CanMove(s: Fine, mv: Move) {
    match mv
    case Start(t, call) => t !in s.txns && SendRows(s.db, call)
    case Lock(t) =>
      t in s.txns && s.txns[t].phase.Acquiring? && s.txns[t].phase.left != [] && s.txns[t].phase.left[0] !in s.owner
    case Guard(t) => t in s.txns && s.txns[t].phase == Acquiring([])
    case CheckBlocks(t) => t in s.txns && s.txns[t].phase.Guarded? && s.txns[t].call.Pairing?
    case Commit(t) =>
      && t in s.txns && s.txns[t].phase == (if s.txns[t].call.Pairing? then Cleared else Guarded)
      && HasRows(s.txns[t].call, s.txns[t].copies)
    case Other(db') => Elsewhere(s.db, db', s.owner.Keys)
  }

  /** COMMIT or ROLLBACK: the answer is out and the locks are gone. */
  function Finish(s: Fine, t: TxnId, answer: CallAnswer, db: Db): Fine
    requires t in s.txns
  {
    Fine(db, s.txns[t := s.txns[t].(phase := Finished(answer), copies := map[])],
         map p | p in s.owner && s.owner[p] != t :: s.owner[p])
  }

  function Continue(s: Fine, t: TxnId, phase: Phase): Fine
    requires t in s.txns
  {
    s.(txns := s.txns[t := s.txns[t].(phase := phase)])
  }

  /** The checks on the rows read. */
  function RowError(call: Call, copies: map<PhotoId, Photo>): Option<Error> {
    match call
    case Pairing(a, b, _, _, now, _) => MatchError(copies, a, b, now)
    case Deletion(user, p, _) => DeleteError(copies, user, p)
    case Sending(_, _, _) => None
  }

  /** The block check reads the blocks of the moment, without a lock. */
  predicate SeesBlock(db: Db, call: Call, copies: map<PhotoId, Photo>) {
    call.Pairing? && call.a in copies && call.b in copies && Blocked(db, copies[call.a].user, copies[call.b].user)
  }

  /** What the commit writes: the rows as they were read, with their new status, and the new rows. */
  function Written(db: Db, call: Call, copies: map<PhotoId, Photo>): (Db, CallAnswer)
    requires HasRows(call, copies)
  {
    match call
    case Pairing(a, b, m, explanation, now, txn) =>
      var pa, pb := copies[a], copies[b];
      if m in db.matches || a in db.participants || b in db.participants then (db, MadeMatch(Err(IntegrityError))) else
        (db.(matches := db.matches[m := Match(explanation, txn)],
             participants := db.participants[a := Participant(m, pa.user, None)][b := Participant(m, pb.user, None)],
             photos := db.photos[a := pa.(status := Matched)][b := pb.(status := Matched)],
             inbox := db.inbox.(matched := db.inbox.matched + multiset{Note(pa.user, m), Note(pb.user, m)})),
         MadeMatch(Ok(m)))
    case Deletion(_, p, now) =>
      (db.(photos := db.photos[p := copies[p].(status := Deleted, deletedAt := Some(now))]), Removed(Ok(())))
    case Sending(_, _, _) => (db, Ended)
  }

  function NotFound(call: Call): Error { if call.Pairing? then MatchPhotoNotFound else PhotoNotFound }

  function LockRow(s: Fine, t: TxnId): Fine
    requires t in s.txns && s.txns[t].phase.Acquiring? && s.txns[t].phase.left != []
  {
    var x := s.txns[t];
    var p := x.phase.left[0];
    if p !in s.db.photos then
      Finish(s, t, Refusal(x.call, NotFound(x.call)), s.db)
    else
      s.(txns := s.txns[t := x.(phase := Acquiring(x.phase.left[1..]), copies := x.copies[p := s.db.photos[p]])],
         owner := s.owner[p := t])
  }

  function Moved(s: Fine, mv: Move): Fine
    requires CanMove(s, mv)
  {
    match mv
    case Start(t, call) => s.(txns := s.txns[t := Txn(call, Acquiring(Wanted(call)), map[])])
    case Lock(t) => LockRow(s, t)
    case Guard(t) =>
      var x := s.txns[t];
      var error := RowError(x.call, x.copies);
      if error.Some? then Finish(s, t, Refusal(x.call, error.value), s.db) else Continue(s, t, Guarded)
    case CheckBlocks(t) =>
      var x := s.txns[t];
      if SeesBlock(s.db, x.call, x.copies) then Finish(s, t, Refusal(x.call, UserBlocked), s.db)
      else Continue(s, t, Cleared)
    case Commit(t) =>
      var (db', answer) := Written(s.db, s.txns[t].call, s.txns[t].copies);
      Finish(s, t, answer, db')
    case Other(db') => s.(db := db')
  }

  // The invariant of the locks.

  function Ids(s: seq<PhotoId>): set<PhotoId> { set p | p in s }

  /** The rows held are the first ones wanted, the rows left the others. */
  ghost predicate Progressing(x: Txn) {
    match x.phase
    case Acquiring(left) => exists held :: Wanted(x.call) == held + left && x.copies.Keys == Ids(held)
    case Finished(_) => x.copies == map[]
    case _ =>
      && x.copies.Keys == Ids(Wanted(x.call)) && RowError(x.call, x.copies).None?
      && (x.phase.Cleared? ==> x.call.Pairing?)
  }

  /** A transaction owns the rows it has copies of, and the copies are up to date. */
  predicate Owns(s: Fine, t: TxnId, p: PhotoId) {
    && (t in s.txns && p in s.txns[t].copies <==> p in s.owner && s.owner[p] == t)
    && (t in s.txns && p in s.txns[t].copies ==> p in s.db.photos && s.txns[t].copies[p] == s.db.photos[p])
  }

  ghost predicate LockInv(s: Fine) {
    && (forall t :: t in s.txns ==> Progressing(s.txns[t]))
    && (forall t, p {:trigger Owns(s, t, p)} :: Owns(s, t, p))
  }

  lemma FinishKeeps(s: Fine, t: TxnId, answer: CallAnswer, db: Db)
    requires LockInv(s) && t in s.txns && db.photos.Keys >= s.db.photos.Keys
    requires forall p :: p in s.db.photos && p !in s.txns[t].copies ==> db.photos[p] == s.db.photos[p]
    ensures LockInv(Finish(s, t, answer, db))
  {
    var s' := Finish(s, t, answer, db);
    forall u, p ensures Owns(s', u, p) {
      assert Owns(s, u, p) && Owns(s, t, p);
    }
  }

  lemma ContinueKeeps(s: Fine, t: TxnId, phase: Phase)
    requires LockInv(s) && t in s.txns && Progressing(s.txns[t].(phase := phase))
    ensures LockInv(Continue(s, t, phase))
  {
    forall u, p ensures Owns(Continue(s, t, phase), u, p) {
      assert Owns(s, u, p);
    }
  }

  lemma LockedProgress(x: Txn, row: Photo)
    requires Progressing(x) && x.phase.Acquiring? && x.phase.left != []
    ensures Progressing(x.(phase := Acquiring(x.phase.left[1..]), copies := x.copies[x.phase.left[0] := row]))
  {
    var p := x.phase.left[0];
    var held :| Wanted(x.call) == held + x.phase.left && x.copies.Keys == Ids(held);
    assert Wanted(x.call) == (held + [p]) + x.phase.left[1..];
    assert Ids(held + [p]) == Ids(held) + {p};
  }

  lemma LockKeeps(s: Fine, t: TxnId)
    requires LockInv(s) && CanMove(s, Lock(t))
    ensures LockInv(LockRow(s, t))
  {
    var x, s' := s.txns[t], LockRow(s, t);
    var p := x.phase.left[0];
    if p in s.db.photos {
      LockedProgress(x, s.db.photos[p]);
      forall u, q ensures Owns(s', u, q) {
        assert Owns(s, u, q) && Owns(s, u, p);
      }
    } else {
      FinishKeeps(s, t, Refusal(x.call, NotFound(x.call)), s.db);
    }
  }

  lemma OtherKeeps(s: Fine, db: Db)
    requires LockInv(s) && Elsewhere(s.db, db, s.owner.Keys)
    ensures LockInv(s.(db := db))
  {
    forall u, p ensures Owns(s.(db := db), u, p) {
      assert Owns(s, u, p) && PhotoElsewhere(s.db, db, s.owner.Keys, p);
    }
  }

  lemma WrittenKeeps(s: Fine, t: TxnId)
    requires LockInv(s) && CanMove(s, Commit(t))
    ensures LockInv(Moved(s, Commit(t)))
  {
    var (db', answer) := Written(s.db, s.txns[t].call, s.txns[t].copies);
    FinishKeeps(s, t, answer, db');
  }

  lemma MoveKeeps(s: Fine, mv: Move)
    requires LockInv(s) && CanMove(s, mv)
    ensures LockInv(Moved(s, mv))
  {
    match mv
    case Start(t, call) =>
      assert Wanted(call) == [] + Wanted(call);
      forall u, p ensures Owns(Moved(s, mv), u, p) {
        assert Owns(s, u, p);
      }
    case Lock(t) => LockKeeps(s, t);
    case Guard(t) =>
      var x := s.txns[t];
      if RowError(x.call, x.copies).Some? {
        FinishKeeps(s, t, Refusal(x.call, RowError(x.call, x.copies).value), s.db);
      } else {
        ContinueKeeps(s, t, Guarded);
      }
    case CheckBlocks(t) =>
      var x := s.txns[t];
      if SeesBlock(s.db, x.call, x.copies) { FinishKeeps(s, t, Refusal(x.call, UserBlocked), s.db); }
      else { ContinueKeeps(s, t, Cleared); }
    case Commit(t) => WrittenKeeps(s, t);
    case Other(db') => OtherKeeps(s, db');
  }
}
