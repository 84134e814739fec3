/** What the block check of a finalisation guarantees although it locks nothing, and what it does not. */
module BlockCheck {
  import opened Results
  import opened Leases
  import opened Tables
  import opened Pipeline
  import opened Runs
  import opened Locking
  import opened Refinement
  import opened Races
  import opened Deadlocks

  /** The state before move `i`. */
  ghost function StateAt(db: Db, moves: seq<Move>, i: nat): Fine
    requires FineRun(db, moves).Some? && i <= |moves|
  {
    FinePrefix(db, moves, i);
    FineRun(db, moves[..i]).value
  }

  /** From one moment to the next. */
  lemma AtNext(db: Db, moves: seq<Move>, i: nat)
    requires FineRun(db, moves).Some? && i < |moves|
    ensures CanMove(StateAt(db, moves, i), moves[i])
    ensures StateAt(db, moves, i + 1) == Moved(StateAt(db, moves, i), moves[i])
  {
    FinePrefix(db, moves, i);
  }

  lemma AtLocked(db: Db, moves: seq<Move>, i: nat)
    requires FineRun(db, moves).Some? && i <= |moves|
    ensures LockInv(StateAt(db, moves, i))
  {
    FinePrefix(db, moves, i);
    InterleavingsAreSequential(db, moves[..i]);
  }

  // The check was made, and found nothing.

  /** The rows have been read, and the block check finds nothing. */
  predicate FindsNoBlock(s: Fine, t: TxnId) {
    && t in s.txns && HasRows(s.txns[t].call, s.txns[t].copies) && !SeesBlock(s.db, s.txns[t].call, s.txns[t].copies)
  }

  /** The transaction is as it was when it had just passed the check. */
  predicate StillCleared(s: Fine, t: TxnId, checked: Fine) {
    t in s.txns && t in checked.txns && s.txns[t] == checked.txns[t].(phase := Cleared)
  }

  /** Move `i` was the block check of `t`; it found no block, and `t` has not moved since, up to `n`. */
  ghost predicate CheckedAt(db: Db, moves: seq<Move>, n: nat, t: TxnId, i: nat)
    requires FineRun(db, moves).Some? && i < n <= |moves|
  {
    && moves[i] == CheckBlocks(t) && FindsNoBlock(StateAt(db, moves, i), t)
    && forall k :: i < k <= n ==> StillCleared(StateAt(db, moves, k), t, StateAt(db, moves, i))
  }

  /** A move after which a transaction is cleared: its own block check, which found nothing, or another
      transaction's move. */
  lemma ClearingMove(s: Fine, mv: Move, t: TxnId)
    requires LockInv(s) && CanMove(s, mv) && t in Moved(s, mv).txns && Moved(s, mv).txns[t].phase.Cleared?
    ensures if mv == CheckBlocks(t) then FindsNoBlock(s, t) && StillCleared(Moved(s, mv), t, s)
            else t in s.txns && Moved(s, mv).txns[t] == s.txns[t]
  {
    if mv == CheckBlocks(t) {
      CopiesAgree(s, t);
      WantedPhotos(s.txns[t].call, s.txns[t].call.a);
      WantedPhotos(s.txns[t].call, s.txns[t].call.b);
    }
  }

  /** A cleared transaction has been through its block check. */
  lemma {:induction false} ClearedWasChecked(db: Db, moves: seq<Move>, n: nat, t: TxnId) returns (i: nat)
    requires FineRun(db, moves).Some? && n <= |moves|
    requires t in StateAt(db, moves, n).txns && StateAt(db, moves, n).txns[t].phase.Cleared?
    ensures i < n && CheckedAt(db, moves, n, t, i)
    decreases n
  {
    StartsEmpty(db, moves);
    AtNext(db, moves, n - 1);
    AtLocked(db, moves, n - 1);
    ClearingMove(StateAt(db, moves, n - 1), moves[n - 1], t);
    if moves[n - 1] == CheckBlocks(t) {
      i := n - 1;
    } else {
      i := ClearedWasChecked(db, moves, n - 1, t);
      CheckedOneMore(db, moves, n, t, i);
    }
  }

  lemma CheckedOneMore(db: Db, moves: seq<Move>, n: nat, t: TxnId, i: nat)
    requires FineRun(db, moves).Some? && i < n - 1 < |moves| && CheckedAt(db, moves, n - 1, t, i)
    requires t in StateAt(db, moves, n).txns && t in StateAt(db, moves, n - 1).txns
    requires StateAt(db, moves, n).txns[t] == StateAt(db, moves, n - 1).txns[t]
    ensures CheckedAt(db, moves, n, t, i)
  {
    var checked := StateAt(db, moves, i);
    assert StillCleared(StateAt(db, moves, n - 1), t, checked);
    assert StillCleared(StateAt(db, moves, n), t, checked);
  }

  lemma StartsEmpty(db: Db, moves: seq<Move>)
    requires FineRun(db, moves).Some?
    ensures StateAt(db, moves, 0).txns == map[]
  {
    assert moves[..0] == [];
  }

  // From the check to the commit.

  /** An accepted finalisation: its block check `i` and its commit `c`. */
  ghost predicate CommittedAt(db: Db, moves: seq<Move>, t: TxnId, i: nat, c: nat)
    requires FineRun(db, moves).Some? && i < c < |moves|
  {
    CheckedAt(db, moves, c, t, i) && moves[c] == Commit(t) && Won(StateAt(db, moves, c + 1), t)
  }

  /** The answer of an accepted call comes from its commit. */
  lemma WinningMove(s: Fine, mv: Move, t: TxnId)
    requires CanMove(s, mv) && Won(Moved(s, mv), t) && !Won(s, t)
    ensures mv == Commit(t) && t in s.txns && Moved(s, mv).txns[t].call == s.txns[t].call
    ensures s.txns[t].call.Pairing? ==> s.txns[t].phase.Cleared?
  {}

  lemma {:induction false} WonByCommit(db: Db, moves: seq<Move>, n: nat, t: TxnId) returns (c: nat)
    requires FineRun(db, moves).Some? && n <= |moves| && Won(StateAt(db, moves, n), t)
    ensures c < n && moves[c] == Commit(t) && Won(StateAt(db, moves, c + 1), t) && t in StateAt(db, moves, c).txns
    ensures StateAt(db, moves, c).txns[t].call == StateAt(db, moves, n).txns[t].call
    ensures StateAt(db, moves, c).txns[t].call.Pairing? ==> StateAt(db, moves, c).txns[t].phase.Cleared?
    decreases n
  {
    StartsEmpty(db, moves);
    var s := StateAt(db, moves, n - 1);
    AtNext(db, moves, n - 1);
    if Won(s, t) {
      MoveFinishes(s, moves[n - 1], t);
      c := WonByCommit(db, moves, n - 1, t);
    } else {
      WinningMove(s, moves[n - 1], t);
      c := n - 1;
    }
  }

  /** What the block check guarantees: in every interleaving, every accepted finalisation has made it, after
      its rows were locked and before its commit, and at that moment neither of the two users had blocked
      the other. */
  lemma AcceptedWasChecked(db: Db, moves: seq<Move>, t: TxnId) returns (i: nat, c: nat)
    requires FineRun(db, moves).Some? && Won(StateAt(db, moves, |moves|), t)
    requires StateAt(db, moves, |moves|).txns[t].call.Pairing?
    ensures i < c < |moves| && CommittedAt(db, moves, t, i, c)
    ensures var checked := StateAt(db, moves, i).db;
      !SeesBlock(checked, StateAt(db, moves, |moves|).txns[t].call, checked.photos)
  {
    c := WonByCommit(db, moves, |moves|, t);
    i := ClearedWasChecked(db, moves, c, t);
    assert StillCleared(StateAt(db, moves, c), t, StateAt(db, moves, i));
    AtNext(db, moves, i);
    AtLocked(db, moves, i);
    CheckOnCopies(StateAt(db, moves, i), t);
  }

  lemma CheckOnCopies(s: Fine, t: TxnId)
    requires LockInv(s) && CanMove(s, CheckBlocks(t)) && FindsNoBlock(s, t)
    ensures !SeesBlock(s.db, s.txns[t].call, s.db.photos)
  {
    CopiesAgree(s, t);
  }

  // Blocks that appear in between.

  /** Move `k` has inserted the block, and it has stayed until move `c`. */
  ghost predicate InsertedAt(db: Db, moves: seq<Move>, k: nat, c: nat, block: (UserId, UserId))
    requires FineRun(db, moves).Some? && k < c <= |moves|
  {
    && moves[k].Other? && !HasBlock(StateAt(db, moves, k), block)
    && forall l :: k < l <= c ==> HasBlock(StateAt(db, moves, l), block)
  }

  predicate HasBlock(s: Fine, block: (UserId, UserId)) { block in s.db.blocks }

  /** Only the other transactions write blocks. */
  lemma BlocksStay(s: Fine, mv: Move)
    requires CanMove(s, mv) && !mv.Other?
    ensures Moved(s, mv).db.blocks == s.db.blocks
  {}

  lemma StillInserted(db: Db, moves: seq<Move>, k: nat, c: nat, block: (UserId, UserId))
    requires FineRun(db, moves).Some? && k < c - 1 < |moves|
    requires InsertedAt(db, moves, k, c - 1, block) && HasBlock(StateAt(db, moves, c), block)
    ensures InsertedAt(db, moves, k, c, block)
  {
    forall l | k < l <= c ensures HasBlock(StateAt(db, moves, l), block) {
      assert l == c || l <= c - 1;
    }
  }

  lemma {:induction false} BlockWasInserted(db: Db, moves: seq<Move>, i: nat, c: nat,
                                            block: (UserId, UserId)) returns (k: nat)
    requires FineRun(db, moves).Some? && i <= c <= |moves|
    requires block !in StateAt(db, moves, i).db.blocks && block in StateAt(db, moves, c).db.blocks
    ensures i <= k < c && InsertedAt(db, moves, k, c, block)
    decreases c
  {
    AtNext(db, moves, c - 1);
    if block in StateAt(db, moves, c - 1).db.blocks {
      k := BlockWasInserted(db, moves, i, c - 1, block);
      StillInserted(db, moves, k, c, block);
    } else {
      k := c - 1;
      if !moves[k].Other? { BlocksStay(StateAt(db, moves, k), moves[k]); }
    }
  }

  /** Somebody inserted the block after move `i` and before move `c`, and it is still there after move `c`. */
  ghost predicate InsertedBetween(db: Db, moves: seq<Move>, i: nat, c: nat, block: (UserId, UserId))
    requires FineRun(db, moves).Some? && i < c < |moves|
  {
    var end := c + 1;
    exists k :: i < k < c && InsertedAt(db, moves, k, end, block)
  }

  /** A block that was not there at the check and is there after the commit was inserted in between. */
  lemma NewBlock(db: Db, moves: seq<Move>, i: nat, c: nat, block: (UserId, UserId))
    requires FineRun(db, moves).Some? && i < c < |moves| && !moves[i].Other? && !moves[c].Other?
    requires block !in StateAt(db, moves, i).db.blocks
    ensures block in StateAt(db, moves, c + 1).db.blocks <==> InsertedBetween(db, moves, i, c, block)
  {
    var end := c + 1;
    if block in StateAt(db, moves, end).db.blocks {
      var k := BlockWasInserted(db, moves, i, end, block);
      assert k != i && k != c && InsertedAt(db, moves, k, end, block);
    }
    if k :| i < k < c && InsertedAt(db, moves, k, end, block) { assert HasBlock(StateAt(db, moves, end), block); }
  }

  /** The users of the two photos are those of the copies, from the check to the commit. */
  lemma SameUsersAtCommit(db: Db, moves: seq<Move>, t: TxnId, i: nat, c: nat)
    requires FineRun(db, moves).Some? && i < c < |moves| && CommittedAt(db, moves, t, i, c)
    ensures t in StateAt(db, moves, i).txns
    ensures var x := StateAt(db, moves, i).txns[t];
      var after := StateAt(db, moves, c + 1).db;
      x.call.Pairing? ==>
        && x.call.a in x.copies && x.call.b in x.copies && x.call.a in after.photos && x.call.b in after.photos
        && after.photos[x.call.a].user == x.copies[x.call.a].user
        && after.photos[x.call.b].user == x.copies[x.call.b].user
        && !Blocked(StateAt(db, moves, i).db, x.copies[x.call.a].user, x.copies[x.call.b].user)
  {
    assert StillCleared(StateAt(db, moves, c), t, StateAt(db, moves, i));
    AtNext(db, moves, c);
    CommitKeepsUsers(StateAt(db, moves, c), t);
  }

  lemma CommitKeepsUsers(s: Fine, t: TxnId)
    requires CanMove(s, Commit(t)) && s.txns[t].call.Pairing? && Won(Moved(s, Commit(t)), t)
    ensures var x, after := s.txns[t], Moved(s, Commit(t)).db;
      && x.call.a in x.copies && x.call.b in x.copies && x.call.a in after.photos && x.call.b in after.photos
      && after.photos[x.call.a].user == x.copies[x.call.a].user
      && after.photos[x.call.b].user == x.copies[x.call.b].user
  {}

  /** And what it does not guarantee: right after the commit one of the two users has blocked the other if
      and only if somebody else inserted a block between them after the check and before the commit, and
      that block is still there. */
  lemma BlockedAtCommitIff(db: Db, moves: seq<Move>, t: TxnId, i: nat, c: nat, a: UserId, b: UserId)
    requires FineRun(db, moves).Some? && i < c < |moves| && CommittedAt(db, moves, t, i, c)
    requires var call := StateAt(db, moves, c + 1).txns[t].call;
      var photos := StateAt(db, moves, c + 1).db.photos;
      call.Pairing? && call.a in photos && call.b in photos && a == photos[call.a].user && b == photos[call.b].user
    ensures Blocked(StateAt(db, moves, c + 1).db, a, b)
            <==> InsertedBetween(db, moves, i, c, (a, b)) || InsertedBetween(db, moves, i, c, (b, a))
  {
    SameUsersAtCommit(db, moves, t, i, c);
    CommitKeepsCall(db, moves, t, i, c);
    NewBlock(db, moves, i, c, (a, b));
    NewBlock(db, moves, i, c, (b, a));
  }

  lemma CommitKeepsCall(db: Db, moves: seq<Move>, t: TxnId, i: nat, c: nat)
    requires FineRun(db, moves).Some? && i < c < |moves| && CommittedAt(db, moves, t, i, c)
    ensures t in StateAt(db, moves, i).txns && t in StateAt(db, moves, c + 1).txns
    ensures StateAt(db, moves, i).txns[t].call == StateAt(db, moves, c + 1).txns[t].call
  {
    assert StillCleared(StateAt(db, moves, c), t, StateAt(db, moves, i));
    AtNext(db, moves, c);
    MoveFinishes(StateAt(db, moves, c), moves[c], t);
  }

  /** Such a block does not stop the match, at any moment after the check: the commit succeeds although one of
      the two users has blocked the other by then. */
  lemma BlockAfterTheCheck(s: Fine, t: TxnId) returns (a: UserId, b: UserId)
    requires LockInv(s) && Unfinished(s, t) && s.txns[t].phase.Cleared?
    requires var call := s.txns[t].call;
      call.Pairing? && call.m !in s.db.matches && call.a !in s.db.participants && call.b !in s.db.participants
    ensures var call := s.txns[t].call;
      && call.a in s.db.photos && call.b in s.db.photos
      && a == s.db.photos[call.a].user && b == s.db.photos[call.b].user
    ensures var blocking := Other(s.db.(blocks := s.db.blocks + {(a, b)}));
      && CanMove(s, blocking)
      && CanMove(Moved(s, blocking), Commit(t))
      && var after := Moved(Moved(s, blocking), Commit(t));
      after.txns[t].phase == Finished(MadeMatch(Ok(s.txns[t].call.m))) && Blocked(after.db, a, b)
  {
    var call := s.txns[t].call;
    CopiesAgree(s, t);
    WantedPhotos(call, call.a);
    WantedPhotos(call, call.b);
    a, b := s.db.photos[call.a].user, s.db.photos[call.b].user;
    var db' := s.db.(blocks := s.db.blocks + {(a, b)});
    forall p ensures PhotoElsewhere(s.db, db', s.owner.Keys, p) {}
  }
}
