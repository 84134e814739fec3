/** Interleaved locked transactions behave like atomic ones: every run of the fine-grained model has a
    log of atomic transactions that produces the same database and the same answers. */
module Refinement {
  import opened Results
  import opened Leases
  import opened Tables
  import opened Pipeline
  import opened Runs
  import opened Locking

  /** What a run looks like from the database: a whole call, or a change by somebody else. `blocked` is
      what the call's block check has answered. */
  datatype AtomicEvent = Took(t: TxnId, call: Call, blocked: bool, answer: CallAnswer) | Changed(db: Db)

  /** The move in which a call takes effect: the one that decides its answer. */
  function Effect(s: Fine, mv: Move): Option<AtomicEvent>
    requires CanMove(s, mv)
  {
    match mv
    case Start(_, _) => None
    case Lock(t) =>
      if s.txns[t].phase.left[0] in s.db.photos then None
      else Some(Took(t, s.txns[t].call, false, Moved(s, mv).txns[t].phase.answer))
    case Guard(t) =>
      if RowError(s.txns[t].call, s.txns[t].copies).None? then None
      else Some(Took(t, s.txns[t].call, false, Moved(s, mv).txns[t].phase.answer))
    case CheckBlocks(t) =>
      if !SeesBlock(s.db, s.txns[t].call, s.txns[t].copies) then None
      else Some(Took(t, s.txns[t].call, true, Moved(s, mv).txns[t].phase.answer))
    case Commit(t) => Some(Took(t, s.txns[t].call, false, Moved(s, mv).txns[t].phase.answer))
    case Other(db') => Some(Changed(db'))
  }

  /** The database after an atomic event, if the event is possible: the call gives this answer, and it has
      only seen a block that is there. */
  ghost function Atomic(db: Db, e: AtomicEvent): Option<Db> {
    match e
    case Took(_, call, blocked, answer) =>
      if Perform(db, call, blocked).1 == answer && (blocked ==> SeesBlock(db, call, db.photos))
      then Some(Perform(db, call, blocked).0) else None
    case Changed(db') => if Elsewhere(db, db', {}) then Some(db') else None
  }

  ghost function Replay(db: Db, log: seq<AtomicEvent>): Option<Db> {
    if log == [] then Some(db) else
      match Replay(db, log[..|log| - 1])
      case None => None
      case Some(db') => Atomic(db', log[|log| - 1])
  }

  ghost function FineRun(db: Db, moves: seq<Move>): Option<Fine> {
    if moves == [] then Some(Fine(db, map[], map[])) else
      match FineRun(db, moves[..|moves| - 1])
      case None => None
      case Some(s) => if CanMove(s, moves[|moves| - 1]) then Some(Moved(s, moves[|moves| - 1])) else None
  }

  ghost function Log(db: Db, moves: seq<Move>): seq<AtomicEvent>
    requires FineRun(db, moves).Some?
  {
    if moves == [] then [] else
      var n := |moves| - 1;
      var e := Effect(FineRun(db, moves[..n]).value, moves[n]);
      Log(db, moves[..n]) + if e.Some? then [e.value] else []
  }

  /** Every beginning of a run is a run. */
  lemma {:induction false} FinePrefix(db: Db, moves: seq<Move>, n: nat)
    requires FineRun(db, moves).Some? && n <= |moves|
    ensures FineRun(db, moves[..n]).Some?
    ensures n < |moves| ==>
      CanMove(FineRun(db, moves[..n]).value, moves[n])
      && FineRun(db, moves[..n + 1]) == Some(Moved(FineRun(db, moves[..n]).value, moves[n]))
    decreases |moves|
  {
    if n == |moves| {
      assert moves[..n] == moves;
    } else if n == |moves| - 1 {
      assert moves[..n + 1] == moves;
    } else {
      var last := |moves| - 1;
      FinePrefix(db, moves[..last], n);
      assert moves[..last][..n] == moves[..n] && moves[..last][..n + 1] == moves[..n + 1];
    }
  }

  lemma OneMoreMove(db: Db, moves: seq<Move>, mv: Move)
    requires FineRun(db, moves).Some? && CanMove(FineRun(db, moves).value, mv)
    ensures FineRun(db, moves + [mv]) == Some(Moved(FineRun(db, moves).value, mv))
  {
    assert (moves + [mv])[..|moves|] == moves;
  }

  // Each move.

  /** The copies of a transaction that holds all its rows say what the database says. */
  lemma CopiesAgree(s: Fine, t: TxnId)
    requires LockInv(s) && t in s.txns && s.txns[t].copies.Keys == Ids(Wanted(s.txns[t].call))
    ensures RowError(s.txns[t].call, s.txns[t].copies) == RowError(s.txns[t].call, s.db.photos)
    ensures SeesBlock(s.db, s.txns[t].call, s.txns[t].copies) == SeesBlock(s.db, s.txns[t].call, s.db.photos)
    ensures forall p :: p in Wanted(s.txns[t].call) ==>
      p in s.db.photos && p in s.txns[t].copies && s.txns[t].copies[p] == s.db.photos[p]
  {
    var x := s.txns[t];
    forall p | p in Wanted(x.call) ensures p in s.db.photos && p in x.copies && x.copies[p] == s.db.photos[p] {
      assert Owns(s, t, p) && p in Ids(Wanted(x.call));
    }
    assert x.call.Pairing? && x.call.a < x.call.b ==> Wanted(x.call)[0] == x.call.a && Wanted(x.call)[1] == x.call.b;
    assert x.call.Pairing? && x.call.b < x.call.a ==> Wanted(x.call)[0] == x.call.b && Wanted(x.call)[1] == x.call.a;
    assert x.call.Pairing? && x.call.a == x.call.b ==> Wanted(x.call)[0] == x.call.a;
    assert x.call.Deletion? ==> Wanted(x.call)[0] == x.call.photo;
  }

  /** A refused call is the call that changes nothing. */
  lemma Refused(db: Db, call: Call)
    ensures RowError(call, db.photos).Some? ==>
      Perform(db, call, false) == (db, Refusal(call, RowError(call, db.photos).value))
    ensures call.Pairing? && RowError(call, db.photos).None? ==>
      Perform(db, call, true) == (db, Refusal(call, UserBlocked))
  {}

  lemma MissingRow(db: Db, call: Call, p: PhotoId)
    requires p in Wanted(call) && p !in db.photos
    ensures !call.Sending? ==> RowError(call, db.photos) == Some(NotFound(call))
  {}

  /** Writing up-to-date copies is writing the rows. */
  lemma WrittenIsPerformed(db: Db, call: Call, copies: map<PhotoId, Photo>)
    requires RowError(call, copies).None? && HasRows(call, copies)
    requires forall p :: p in Wanted(call) ==> p in db.photos && p in copies && copies[p] == db.photos[p]
    ensures Written(db, call, copies) == Perform(db, call, false)
  {
    assert call.Pairing? && call.a < call.b ==> Wanted(call)[0] == call.a && Wanted(call)[1] == call.b;
    assert call.Pairing? && call.b < call.a ==> Wanted(call)[0] == call.b && Wanted(call)[1] == call.a;
    assert call.Deletion? ==> Wanted(call)[0] == call.photo;
  }

  /** A move without effect leaves the database alone; a move with effect is the atomic event. */
  lemma MoveRefines(s: Fine, mv: Move)
    requires LockInv(s) && CanMove(s, mv)
    ensures match Effect(s, mv)
      case None => Moved(s, mv).db == s.db
      case Some(e) => Atomic(s.db, e) == Some(Moved(s, mv).db)
  {
    match mv
    case Start(t, call) =>
    case Lock(t) =>
      var x := s.txns[t];
      var p := x.phase.left[0];
      if p !in s.db.photos {
        var held :| Wanted(x.call) == held + x.phase.left;
        assert Wanted(x.call)[|held|] == p;
        MissingRow(s.db, x.call, p);
        Refused(s.db, x.call);
      }
    case Guard(t) =>
      AllHeld(s.txns[t]);
      CopiesAgree(s, t);
      Refused(s.db, s.txns[t].call);
    case CheckBlocks(t) =>
      CopiesAgree(s, t);
      Refused(s.db, s.txns[t].call);
    case Commit(t) =>
      CopiesAgree(s, t);
      WrittenIsPerformed(s.db, s.txns[t].call, s.txns[t].copies);
    case Other(db') =>
      forall p ensures PhotoElsewhere(s.db, db', {}, p) {
        assert PhotoElsewhere(s.db, db', s.owner.Keys, p);
      }
  }

  lemma AllHeld(x: Txn)
    requires Progressing(x) && x.phase == Acquiring([])
    ensures x.copies.Keys == Ids(Wanted(x.call))
  {
    var held :| Wanted(x.call) == held + [] && x.copies.Keys == Ids(held);
    assert held + [] == held;
  }

  // Whole runs.

  /** Every interleaving refines a sequential run of atomic transactions: replaying the log, one event
      after the other, ends in the same database. */
  lemma {:induction false} InterleavingsAreSequential(db: Db, moves: seq<Move>)
    requires FineRun(db, moves).Some?
    ensures LockInv(FineRun(db, moves).value)
    ensures Replay(db, Log(db, moves)) == Some(FineRun(db, moves).value.db)
  {
    if moves != [] {
      var n := |moves| - 1;
      var s := FineRun(db, moves[..n]).value;
      InterleavingsAreSequential(db, moves[..n]);
      MoveKeeps(s, moves[n]);
      MoveRefines(s, moves[n]);
      var log := Log(db, moves);
      if Effect(s, moves[n]).Some? {
        assert log[..|log| - 1] == Log(db, moves[..n]);
      } else {
        assert log == Log(db, moves[..n]);
      }
    } else {
      forall t, p ensures Owns(Fine(db, map[], map[]), t, p) {}
    }
  }

  /** The log has the answers the callers got: a finished call is in the log, once, with its answer,
      and an unfinished call is not in it. */
  ghost predicate Logged(s: Fine, log: seq<AtomicEvent>, t: TxnId) {
    if t in s.txns && s.txns[t].phase.Finished? then
      exists i :: Named(log, i, t) && log[i].call == s.txns[t].call && log[i].answer == s.txns[t].phase.answer
        && forall j :: Named(log, j, t) ==> j == i
    else
      forall i :: !Named(log, i, t)
  }

  predicate Named(log: seq<AtomicEvent>, i: int, t: TxnId) {
    0 <= i < |log| && log[i].Took? && log[i].t == t
  }

  lemma {:induction false} AnswersAreLogged(db: Db, moves: seq<Move>, t: TxnId)
    requires FineRun(db, moves).Some?
    ensures Logged(FineRun(db, moves).value, Log(db, moves), t)
  {
    if moves != [] {
      var n := |moves| - 1;
      AnswersAreLogged(db, moves[..n], t);
      MoveLogs(FineRun(db, moves[..n]).value, moves[n], Log(db, moves[..n]), t);
    }
  }

  lemma MoveLogs(s: Fine, mv: Move, log: seq<AtomicEvent>, t: TxnId)
    requires CanMove(s, mv) && Logged(s, log, t)
    ensures Logged(Moved(s, mv), log + (if Effect(s, mv).Some? then [Effect(s, mv).value] else []), t)
  {
    var e := Effect(s, mv);
    var log' := log + if e.Some? then [e.value] else [];
    forall i ensures Named(log, i, t) ==> Named(log', i, t) && log'[i] == log[i] {}
    forall i ensures Named(log', i, t) ==> Named(log, i, t) || (i == |log| && e.Some?) {}
    if e.Some? && e.value.Took? && e.value.t == t {
      assert Named(log', |log|, t);
    }
  }
}
