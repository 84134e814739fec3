/** Which of the transactions that lock photo rows can wait for each other for ever. */
module Deadlocks {
  import opened Results
  import opened Leases
  import opened Tables
  import opened Pipeline
  import opened Runs
  import opened Locking
  import opened Refinement
  import opened Races

  // Waiting.

  /** The transaction waits for a row that the other one holds. */
  predicate WaitsFor(s: Fine, t: TxnId, u: TxnId) {
    && t in s.txns && s.txns[t].phase.Acquiring? && s.txns[t].phase.left != []
    && s.txns[t].phase.left[0] in s.owner && s.owner[s.txns[t].phase.left[0]] == u
  }

  /** The row it waits for. */
  function Awaited(s: Fine, t: TxnId): PhotoId {
    if t in s.txns && s.txns[t].phase.Acquiring? && s.txns[t].phase.left != [] then s.txns[t].phase.left[0] else 0
  }

  /** The rows of the call are locked in ascending id order, as finalisations and deletions lock them. */
  predicate Climbs(call: Call) {
    call.Sending? ==> call.first <= call.second
  }

  lemma WantedOrder(call: Call, held: seq<PhotoId>, left: seq<PhotoId>, p: PhotoId)
    requires Wanted(call) == held + left && p in held && left != []
    ensures p != left[0]
    ensures Climbs(call) ==> p < left[0]
  {
    var i :| 0 <= i < |held| && held[i] == p;
    assert Wanted(call)[i] == p && Wanted(call)[|held|] == left[0];
  }

  /** A transaction that somebody waits for, and that itself waits, waits for a greater row, if it locks its
      rows in ascending order. */
  lemma WaitingClimbs(s: Fine, t: TxnId, u: TxnId, v: TxnId)
    requires LockInv(s) && WaitsFor(s, t, u) && WaitsFor(s, u, v) && Climbs(s.txns[u].call)
    ensures Awaited(s, t) < Awaited(s, u)
  {
    var p := s.txns[t].phase.left[0];
    assert Owns(s, u, p);
    var x := s.txns[u];
    var held :| Wanted(x.call) == held + x.phase.left && x.copies.Keys == Ids(held);
    assert p in Ids(held);
    WantedOrder(x.call, held, x.phase.left, p);
  }

  predicate Chain(s: Fine, ts: seq<TxnId>) {
    forall i :: 0 <= i < |ts| - 1 ==> WaitsFor(s, ts[i], ts[i + 1])
  }

  predicate AllClimb(s: Fine, ts: seq<TxnId>) {
    forall t :: t in ts && t in s.txns ==> Climbs(s.txns[t].call)
  }

  lemma {:induction false} ChainClimbs(s: Fine, ts: seq<TxnId>, n: nat)
    requires LockInv(s) && Chain(s, ts) && AllClimb(s, ts) && 0 < n < |ts| - 1
    ensures Awaited(s, ts[0]) < Awaited(s, ts[n])
    decreases n
  {
    assert WaitsFor(s, ts[n - 1], ts[n - 1 + 1]) && WaitsFor(s, ts[n], ts[n + 1]);
    assert WaitsFor(s, ts[0], ts[0 + 1]);
    WaitingClimbs(s, ts[n - 1], ts[n], ts[n + 1]);
    if n > 1 { ChainClimbs(s, ts, n - 1); }
  }

  /** Finalisations, deletions, and sends that lock their rows in ascending order never wait in a cycle. */
  lemma NoDeadlock(s: Fine, ts: seq<TxnId>)
    requires LockInv(s) && Chain(s, ts) && |ts| >= 2 && AllClimb(s, ts)
    ensures ts[|ts| - 1] != ts[0]
  {
    var n := |ts| - 1;
    assert WaitsFor(s, ts[0], ts[0 + 1]) && WaitsFor(s, ts[n - 1], ts[n - 1 + 1]);
    if ts[n] == ts[0] {
      var round := ts + [ts[1]];
      forall i | 0 <= i < |round| - 1 ensures WaitsFor(s, round[i], round[i + 1]) {
        assert i < |ts| - 1 ==> WaitsFor(s, ts[i], ts[i + 1]);
      }
      ChainClimbs(s, round, n);
    }
  }

  /** So a cycle has a send whose first-registered photo has the greater id. */
  lemma CycleHasInvertedSend(s: Fine, ts: seq<TxnId>) returns (t: TxnId)
    requires LockInv(s) && Chain(s, ts) && |ts| >= 2 && ts[|ts| - 1] == ts[0]
    ensures t in ts && t in s.txns && s.txns[t].call.Sending? && s.txns[t].call.second < s.txns[t].call.first
  {
    if AllClimb(s, ts) { NoDeadlock(s, ts); }
    t :| t in ts && t in s.txns && !Climbs(s.txns[t].call);
  }

  /** Two transactions that wait for each other. */
  predicate Deadlocked(s: Fine, t: TxnId, u: TxnId) { WaitsFor(s, t, u) && WaitsFor(s, u, t) }

  /** A late finalisation of a pair that has been matched, against a send in that match: they can come to
      wait for each other if and only if the photo registered first has the greater id. */
  lemma DeadlockIff(db: Db, sending: Call, pairing: Call)
    requires sending.Sending? && SendRows(db, sending) && sending.first != sending.second
    requires sending.first in db.photos && sending.second in db.photos
    requires pairing.Pairing? && {pairing.a, pairing.b} == {sending.first, sending.second}
    ensures sending.second < sending.first
            <==> exists moves, t, u :: CanDeadlock(db, moves, t, u, sending, pairing)
  {
    if sending.second < sending.first {
      ReachDeadlock(db, sending, pairing);
    } else {
      forall moves, t, u ensures !CanDeadlock(db, moves, t, u, sending, pairing) {
        if CanDeadlock(db, moves, t, u, sending, pairing) {
          InterleavingsAreSequential(db, moves);
          var s := FineRun(db, moves).value;
          var ts := [t, u, t];
          assert Chain(s, ts) && AllClimb(s, ts);
          NoDeadlock(s, ts);
        }
      }
    }
  }

  ghost predicate CanDeadlock(db: Db, moves: seq<Move>, t: TxnId, u: TxnId, sending: Call, pairing: Call) {
    && FineRun(db, moves).Some?
    && var s := FineRun(db, moves).value;
    Deadlocked(s, t, u) && s.txns[t].call == sending && s.txns[u].call == pairing
  }

  /** The send locks the first photo, the finalisation the other one, and each wants the other's. */
  lemma ReachDeadlock(db: Db, sending: Call, pairing: Call)
    requires sending.Sending? && SendRows(db, sending) && sending.second < sending.first
    requires sending.first in db.photos && sending.second in db.photos
    requires pairing.Pairing? && {pairing.a, pairing.b} == {sending.first, sending.second}
    ensures exists moves, t, u :: CanDeadlock(db, moves, t, u, sending, pairing)
  {
    assert sending.first in {pairing.a, pairing.b} && sending.second in {pairing.a, pairing.b};
    assert pairing.a in {sending.first, sending.second} && pairing.b in {sending.first, sending.second};
    var s := BothStarted(db, sending, pairing);
    LocksCross(db, sending, pairing);
    OneMoreMove(db, [], Start(0, sending));
    OneMoreMove(db, [] + [Start(0, sending)], Start(1, pairing));
    var started := [] + [Start(0, sending)] + [Start(1, pairing)];
    assert FineRun(db, started) == Some(s);
    OneMoreMove(db, started, Lock(0));
    OneMoreMove(db, started + [Lock(0)], Lock(1));
    assert CanDeadlock(db, started + [Lock(0)] + [Lock(1)], 0, 1, sending, pairing);
  }

  function BothStarted(db: Db, sending: Call, pairing: Call): Fine {
    var t, u := Txn(sending, Acquiring(Wanted(sending)), map[]), Txn(pairing, Acquiring(Wanted(pairing)), map[]);
    Fine(db, map[0 := t, 1 := u], map[])
  }

  lemma LocksCross(db: Db, sending: Call, pairing: Call)
    requires sending.Sending? && sending.second < sending.first
    requires sending.first in db.photos && sending.second in db.photos
    requires pairing.Pairing? && pairing.a in {sending.first, sending.second}
    requires pairing.b in {sending.first, sending.second}
    requires pairing.a != pairing.b
    ensures var s := BothStarted(db, sending, pairing);
      && CanMove(s, Lock(0)) && CanMove(LockRow(s, 0), Lock(1))
      && var end := LockRow(LockRow(s, 0), 1);
      Deadlocked(end, 0, 1) && end.txns[0].call == sending && end.txns[1].call == pairing
  {}

  // Progress.

  predicate Unfinished(s: Fine, t: TxnId) { t in s.txns && !s.txns[t].phase.Finished? }

  /** A transaction's own next move. */
  function NextMove(x: Txn, t: TxnId): Move {
    match x.phase
    case Acquiring(left) => if left == [] then Guard(t) else Lock(t)
    case Guarded => if x.call.Pairing? then CheckBlocks(t) else Commit(t)
    case _ => Commit(t)
  }

  /** An unfinished transaction either can make its next move or waits for a row of another unfinished
      one. */
  lemma MovesOrWaits(s: Fine, t: TxnId)
    requires LockInv(s) && Unfinished(s, t)
    ensures CanMove(s, NextMove(s.txns[t], t))
            || exists u :: WaitsFor(s, t, u) && u != t && Unfinished(s, u)
  {
    var x := s.txns[t];
    if x.phase.Acquiring? && x.phase.left != [] && x.phase.left[0] in s.owner {
      var p := x.phase.left[0];
      var u := s.owner[p];
      assert Owns(s, u, p) && Owns(s, t, p);
      var held :| Wanted(x.call) == held + x.phase.left && x.copies.Keys == Ids(held);
      if p in held { WantedOrder(x.call, held, x.phase.left, p); }
      assert WaitsFor(s, t, u);
    } else if x.phase.Guarded? || x.phase.Cleared? {
      CopiesAgree(s, t);
      assert HasRows(x.call, x.copies) by {
        if x.call.Pairing? { WantedPhotos(x.call, x.call.a); WantedPhotos(x.call, x.call.b); }
        else if x.call.Deletion? { WantedPhotos(x.call, x.call.photo); }
        else { WantedPhotos(x.call, x.call.first); WantedPhotos(x.call, x.call.second); }
      }
    }
  }

  function Above(s: Fine, p: PhotoId): set<PhotoId> {
    set q | q in s.owner && q > p
  }

  /** As long as a transaction is unfinished, some transaction can make its next move: the one at the
      end of the waiting. Only a send that locks its rows against their order could prevent it. */
  lemma {:induction false} SomebodyMoves(s: Fine, t: TxnId) returns (u: TxnId)
    requires LockInv(s) && Unfinished(s, t) && forall v :: Unfinished(s, v) ==> Climbs(s.txns[v].call)
    ensures Unfinished(s, u) && CanMove(s, NextMove(s.txns[u], u))
    decreases |if s.txns[t].phase.Acquiring? && s.txns[t].phase.left != []
               then Above(s, s.txns[t].phase.left[0]) else {}|
  {
    MovesOrWaits(s, t);
    if CanMove(s, NextMove(s.txns[t], t)) {
      u := t;
    } else {
      var v :| WaitsFor(s, t, v) && v != t && Unfinished(s, v);
      MovesOrWaits(s, v);
      if CanMove(s, NextMove(s.txns[v], v)) {
        u := v;
      } else {
        var w :| WaitsFor(s, v, w) && w != v && Unfinished(s, w);
        WaitingClimbs(s, t, v, w);
        var p, q := s.txns[t].phase.left[0], s.txns[v].phase.left[0];
        assert q in Above(s, p) && Above(s, q) < Above(s, p);
        Smaller(Above(s, q), Above(s, p));
        u := SomebodyMoves(s, v);
      }
    }
  }

  lemma Smaller(s: set<nat>, t: set<nat>)
    requires s < t
    ensures |s| < |t|
  {
    assert t == s + (t - s);
    assert |t| == |s| + |t - s|;
    var x :| x in t - s;
  }
}
