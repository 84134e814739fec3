/** The whole backend with row locks: finalisations and deletions step by step, all other transactions as in
    the pipeline, in any interleaving. */
module Composition {
  import opened Results
  import opened Leases
  import opened Tables
  import opened Pipeline
  import opened Runs
  import opened Locking
  import opened Refinement
  import opened Races

  /** One move of a transaction with row locks, or a whole transaction of the pipeline. */
  datatype Act = Locked(move: Move) | Whole(step: Step)

  /** Only photos with embeddings are offered to `finalize`. A whole transaction is none of the two that are
      modelled in steps, and writes no locked row. */
  ghost predicate Possible(c: Config, s: Sys, f: Fine, act: Act) {
    match act
    case Locked(mv) =>
      && !mv.Other? && CanMove(f, mv)
      && (mv.Start? && mv.call.Pairing? ==> mv.call.a in s.db.embeddings && mv.call.b in s.db.embeddings)
    case Whole(step) =>
      && Enabled(c, s, step) && !step.Pair? && !step.Remove?
      && forall p :: p in f.owner && p in s.db.photos && p in Next(c, s, step).db.photos ==>
           Next(c, s, step).db.photos[p] == s.db.photos[p]
  }

  /** The pipeline and the locks share one database. */
  datatype Backend = Backend(sys: Sys, fine: Fine)

  ghost function Do(c: Config, b: Backend, act: Act): Backend
    requires Possible(c, b.sys, b.fine, act)
  {
    match act
    case Locked(mv) => Backend(b.sys.(db := Moved(b.fine, mv).db), Moved(b.fine, mv))
    case Whole(step) => Backend(Next(c, b.sys, step), b.fine.(db := Next(c, b.sys, step).db))
  }

  ghost function DoAll(c: Config, acts: seq<Act>): Option<Backend> {
    if acts == [] then Some(Backend(START, Fine(EMPTY_DB, map[], map[]))) else
      match DoAll(c, acts[..|acts| - 1])
      case None => None
      case Some(b) => if Possible(c, b.sys, b.fine, acts[|acts| - 1]) then Some(Do(c, b, acts[|acts| - 1])) else None
  }

  ghost function MoveOf(c: Config, b: Backend, act: Act): Move
    requires Possible(c, b.sys, b.fine, act)
  {
    if act.Locked? then act.move else Other(Next(c, b.sys, act.step).db)
  }

  /** The same run, as a run of the fine-grained model. */
  ghost function MovesOf(c: Config, acts: seq<Act>): (moves: seq<Move>)
    requires DoAll(c, acts).Some?
    ensures |moves| == |acts|
  {
    if acts == [] then [] else
      var n := |acts| - 1;
      MovesOf(c, acts[..n]) + [MoveOf(c, DoAll(c, acts[..n]).value, acts[n])]
  }

  // The invariant.

  predicate OffersEmbedded(b: Backend, t: TxnId) {
    t in b.fine.txns && b.fine.txns[t].call.Pairing? ==>
      b.fine.txns[t].call.a in b.sys.db.embeddings && b.fine.txns[t].call.b in b.sys.db.embeddings
  }

  ghost predicate BackendInv(c: Config, b: Backend) {
    && b.fine.db == b.sys.db && Inv(c, b.sys) && LockInv(b.fine)
    && forall t {:trigger OffersEmbedded(b, t)} :: OffersEmbedded(b, t)
  }

  /** A transaction that leaves both queues alone leaves the claims in flight as they should be. */
  lemma ClaimsKept(c: Config, s: Sys, db: Db)
    requires Consistent(s.db) && ClaimsOk(c, s) && Evolves(s.db, db)
    requires db.validations == s.db.validations && db.embeddingJobs == s.db.embeddingJobs
    ensures ClaimsOk(c, s.(db := db))
  {
    var s' := s.(db := db);
    forall j ensures ValidationClaimOk(c, s', j) {
      assert ValidationClaimOk(c, s, j);
      if j in s.validationClaims { HeldValidation(c, s, s', j); }
    }
    forall j ensures EmbeddingClaimOk(c, s', j) {
      assert EmbeddingClaimOk(c, s, j);
      if j in s.embeddingClaims { HeldEmbeddingJob(c, s, s', j); }
    }
  }

  lemma PairingFrame(db: Db, a: PhotoId, b: PhotoId, m: MatchId, explanation: string, now: Time, txn: Time,
                     blocked: bool)
    ensures var db' := Finalize(db, a, b, m, explanation, now, txn, blocked).db;
      && db'.photos.Keys == db.photos.Keys
      && db'.validations == db.validations && db'.embeddingJobs == db.embeddingJobs
  {}

  lemma PairingKeepsInv(c: Config, s: Sys, a: PhotoId, b: PhotoId, m: MatchId, explanation: string, now: Time,
                        txn: Time, blocked: bool)
    requires Inv(c, s) && a in s.db.embeddings && b in s.db.embeddings
    ensures Inv(c, s.(db := Finalize(s.db, a, b, m, explanation, now, txn, blocked).db))
  {
    var db' := Finalize(s.db, a, b, m, explanation, now, txn, blocked).db;
    FinalizeConsistent(s.db, a, b, m, explanation, now, txn, blocked);
    PairEvolves(s.db, a, b, m, explanation, now, txn, blocked);
    PairingFrame(s.db, a, b, m, explanation, now, txn, blocked);
    UniqueKept(s.db, db');
    ClaimsKept(c, s, db');
    FinalizePaired(s.db, a, b, m, explanation, now, txn, blocked);
  }

  lemma DeletionKeepsInv(c: Config, s: Sys, user: UserId, p: PhotoId, now: Time)
    requires Inv(c, s)
    ensures Inv(c, s.(db := DeletePhoto(s.db, user, p, now).db))
  {
    var db' := DeletePhoto(s.db, user, p, now).db;
    DeleteConsistent(s.db, user, p, now);
    PhotosMove(s.db, db');
    UniqueKept(s.db, db');
    ClaimsKept(c, s, db');
    PairedElsewhere(s.db, db');
  }

  /** A call of the fine-grained model keeps the invariant when it takes effect. */
  lemma PerformKeepsInv(c: Config, s: Sys, call: Call, blocked: bool)
    requires Inv(c, s) && (call.Pairing? ==> call.a in s.db.embeddings && call.b in s.db.embeddings)
    ensures Inv(c, s.(db := Perform(s.db, call, blocked).0))
  {
    match call
    case Pairing(a, b, m, explanation, now, txn) => PairingKeepsInv(c, s, a, b, m, explanation, now, txn, blocked);
    case Deletion(user, p, now) => DeletionKeepsInv(c, s, user, p, now);
    case Sending(_, _, _) =>
  }

  lemma PerformKeepsEmbeddings(db: Db, call: Call, blocked: bool)
    ensures Perform(db, call, blocked).0.embeddings == db.embeddings
  {}

  lemma LockedKeepsInv(c: Config, b: Backend, mv: Move)
    requires BackendInv(c, b) && Possible(c, b.sys, b.fine, Locked(mv))
    ensures Inv(c, b.sys.(db := Moved(b.fine, mv).db))
    ensures Moved(b.fine, mv).db.embeddings == b.sys.db.embeddings
  {
    MoveRefines(b.fine, mv);
    var e := Effect(b.fine, mv);
    if e.Some? {
      assert OffersEmbedded(b, e.value.t);
      PerformKeepsInv(c, b.sys, e.value.call, e.value.blocked);
      PerformKeepsEmbeddings(b.sys.db, e.value.call, e.value.blocked);
    }
  }

  lemma DoLocked(c: Config, b: Backend, mv: Move)
    requires BackendInv(c, b) && Possible(c, b.sys, b.fine, Locked(mv))
    ensures BackendInv(c, Do(c, b, Locked(mv)))
  {
    MoveKeeps(b.fine, mv);
    LockedKeepsInv(c, b, mv);
    LockedOffers(c, b, mv);
  }

  lemma LockedOffers(c: Config, b: Backend, mv: Move)
    requires Possible(c, b.sys, b.fine, Locked(mv)) && forall t {:trigger OffersEmbedded(b, t)} :: OffersEmbedded(b, t)
    requires Moved(b.fine, mv).db.embeddings == b.sys.db.embeddings
    ensures forall t {:trigger OffersEmbedded(Do(c, b, Locked(mv)), t)} :: OffersEmbedded(Do(c, b, Locked(mv)), t)
  {
    forall t ensures OffersEmbedded(Do(c, b, Locked(mv)), t) {
      assert OffersEmbedded(b, t);
      MoveFinishes(b.fine, mv, t);
    }
  }

  lemma DoWhole(c: Config, b: Backend, step: Step)
    requires BackendInv(c, b) && Possible(c, b.sys, b.fine, Whole(step))
    ensures BackendInv(c, Do(c, b, Whole(step)))
    ensures CanMove(b.fine, Other(Next(c, b.sys, step).db))
  {
    var db' := Next(c, b.sys, step).db;
    OthersAreElsewhere(c, b.sys, step, b.fine.owner.Keys);
    StepInv(c, b.sys, step);
    MoveKeeps(b.fine, Other(db'));
    forall t ensures OffersEmbedded(Do(c, b, Whole(step)), t) {
      assert OffersEmbedded(b, t);
    }
  }

  /** One act is one move. */
  lemma DoOne(c: Config, b: Backend, act: Act)
    requires BackendInv(c, b) && Possible(c, b.sys, b.fine, act)
    ensures BackendInv(c, Do(c, b, act))
    ensures CanMove(b.fine, MoveOf(c, b, act)) && Moved(b.fine, MoveOf(c, b, act)) == Do(c, b, act).fine
  {
    if act.Locked? { DoLocked(c, b, act.move); } else { DoWhole(c, b, act.step); }
  }

  lemma StartSound(c: Config)
    ensures BackendInv(c, Backend(START, Fine(EMPTY_DB, map[], map[])))
  {
    var b := Backend(START, Fine(EMPTY_DB, map[], map[]));
    StartInv(c);
    forall t, p ensures Owns(b.fine, t, p) {}
    forall t ensures OffersEmbedded(b, t) {}
  }

  /** At every moment of every interleaving, the shared database satisfies the invariant of the pipeline, and
      the run is one of the fine-grained model: all theorems of both hold of it. */
  lemma {:induction false} EveryMomentSound(c: Config, acts: seq<Act>)
    requires DoAll(c, acts).Some?
    ensures BackendInv(c, DoAll(c, acts).value)
    ensures FineRun(EMPTY_DB, MovesOf(c, acts)) == Some(DoAll(c, acts).value.fine)
    decreases |acts|
  {
    if acts == [] {
      StartSound(c);
    } else {
      var n := |acts| - 1;
      var b := DoAll(c, acts[..n]).value;
      EveryMomentSound(c, acts[..n]);
      DoOne(c, b, acts[n]);
      OneMoreMove(EMPTY_DB, MovesOf(c, acts[..n]), MoveOf(c, b, acts[n]));
    }
  }
}
