/** What the refinement gives: one winner per photo. */
module Races {
  import opened Results
  import opened Leases
  import opened Tables
  import opened Pipeline
  import opened Runs
  import opened Locking
  import opened Refinement

  // Everybody else.

  lemma VerdictTakesNothing(db: Db, policy: Policy, j: JobId, verdict: Verdict, code: Option<string>,
                            sender: Option<WorkerId>, e: JobId, now: Time, txn: Time, p: PhotoId)
    ensures var db' := ApplyValidationResult(db, policy, j, verdict, code, sender, e, now, txn).db;
      p in db.photos ==> p in db'.photos && (Settled(db', p) <==> Settled(db, p))
  {
    if ApplyValidationResult(db, policy, j, verdict, code, sender, e, now, txn).db != db {
      assert j in db.validations.rows && db.validations.rows[j].photo in Validatable(db);
      CommitTakesNothing(db, policy, j, verdict, code, e, now, txn, p);
    }
  }

  lemma CommitTakesNothing(db: Db, policy: Policy, j: JobId, verdict: Verdict, code: Option<string>,
                           e: JobId, now: Time, txn: Time, p: PhotoId)
    requires j in db.validations.rows && db.validations.rows[j].photo in Validatable(db)
    ensures var db' := CommitVerdict(db, policy, j, verdict, code, e, now, txn).db;
      p in db.photos ==> p in db'.photos && (Settled(db', p) <==> Settled(db, p))
  {}

  lemma FailureTakesNothing(db: Db, policy: Policy, j: JobId, worker: WorkerId, error: string, retryable: bool,
                            now: Time, p: PhotoId)
    ensures var db' := RecordValidationFailure(db, policy, j, worker, error, retryable, now).db;
      p in db.photos ==> p in db'.photos && (Settled(db', p) <==> Settled(db, p))
  {}

  lemma UploadTakesNothing(db: Db, u: Upload, now: Time, txn: Time, p: PhotoId)
    ensures var db' := InsertPhoto(db, u, now, txn).db;
      p in db.photos ==> p in db'.photos && (Settled(db', p) <==> Settled(db, p))
  {}

  lemma OthersTakeNothing(c: Config, s: Sys, step: Step, p: PhotoId)
    requires Enabled(c, s, step) && !step.Pair? && !step.Remove? && p in s.db.photos
    ensures p in Next(c, s, step).db.photos && (Settled(Next(c, s, step).db, p) <==> Settled(s.db, p))
  {
    if IsJobStep(step) { JobsTakeNothing(c, s, step, p); } else { RestTakesNothing(c, s, step, p); }
  }

  lemma JobsTakeNothing(c: Config, s: Sys, step: Step, p: PhotoId)
    requires Enabled(c, s, step) && IsJobStep(step) && p in s.db.photos
    ensures p in Next(c, s, step).db.photos && (Settled(Next(c, s, step).db, p) <==> Settled(s.db, p))
  {
    if step.ValidationResult? {
      VerdictTakesNothing(s.db, ValidationPolicy(c), step.job, step.verdict, step.code, step.sender, step.embeddingJob,
                          step.now, step.txn, p);
    } else if step.ValidationFailure? {
      FailureTakesNothing(s.db, ValidationPolicy(c), step.job, step.worker, step.error, step.retryable, step.now, p);
    } else if step.EmbeddingResult? {
      EmbeddingResultFrame(s.db, EmbeddingPolicy(c), step.job, step.worker, step.embedding, step.now);
    } else if step.EmbeddingFailure? {
      EmbeddingFailureFrame(s.db, EmbeddingPolicy(c), step.job, step.worker, step.error, step.retryable, step.now);
    }
  }

  lemma RestTakesNothing(c: Config, s: Sys, step: Step, p: PhotoId)
    requires Enabled(c, s, step) && !IsJobStep(step) && !step.Pair? && !step.Remove? && p in s.db.photos
    ensures p in Next(c, s, step).db.photos && (Settled(Next(c, s, step).db, p) <==> Settled(s.db, p))
  {
    match step
    case PutPhoto(u, now, txn) => UploadTakesNothing(s.db, u, now, txn, p);
    case SendCard(u, m, content, key, id, at) => SendFrame(s.db, u, m, content, key, id, at);
    case DropCard(u, card, now) => DropFrame(s.db, u, card, now);
    case _ =>
  }

  lemma OthersMatchNothing(c: Config, s: Sys, step: Step)
    requires Enabled(c, s, step) && !step.Pair?
    ensures Next(c, s, step).db.matches == s.db.matches
    ensures Next(c, s, step).db.participants.Keys == s.db.participants.Keys
  {
    if step.SendCard? { SendMatches(s.db, step.user, step.m, step.content, step.key, step.id, step.sentAt); }
    else if !step.Hide? { OtherMatches(c, s, step); }
  }

  /** Every other transaction of the backend is among those that the fine-grained model allows in
      between, as long as it writes no locked row. */
  lemma OthersAreElsewhere(c: Config, s: Sys, step: Step, locked: set<PhotoId>)
    requires Enabled(c, s, step) && !step.Pair? && !step.Remove?
    requires forall p :: p in locked && p in s.db.photos && p in Next(c, s, step).db.photos ==>
      Next(c, s, step).db.photos[p] == s.db.photos[p]
    ensures Elsewhere(s.db, Next(c, s, step).db, locked)
  {
    StepEvolves(c, s, step);
    OthersMatchNothing(c, s, step);
    forall p | p in s.db.photos
      ensures p in Next(c, s, step).db.photos && (Settled(Next(c, s, step).db, p) <==> Settled(s.db, p))
    {
      OthersTakeNothing(c, s, step, p);
    }
    StatusesElsewhere(s.db, Next(c, s, step).db, locked);
  }

  lemma StatusesElsewhere(db: Db, db': Db, locked: set<PhotoId>)
    requires PhotosStep(db, db')
    requires forall p :: p in db.photos ==> p in db'.photos && (Settled(db', p) <==> Settled(db, p))
    requires forall p :: p in locked && p in db.photos && p in db'.photos ==> db'.photos[p] == db.photos[p]
    ensures forall p {:trigger PhotoElsewhere(db, db', locked, p)} :: PhotoElsewhere(db, db', locked, p)
  {
    forall p ensures PhotoElsewhere(db, db', locked, p) {
      assert PhotoStep(db, db', p);
    }
  }

  // One winner.

  /** An accepted call that takes the photo. */
  predicate Takes(e: AtomicEvent, p: PhotoId) {
    e.Took? && Accepted(e.answer) && p in Wanted(e.call)
  }

  predicate Settled(db: Db, p: PhotoId) {
    p in db.photos && (db.photos[p].status.Matched? || db.photos[p].status.Deleted?)
  }

  lemma WantedPhotos(call: Call, p: PhotoId)
    ensures p in Wanted(call) <==>
            if call.Pairing? then p == call.a || p == call.b
            else if call.Deletion? then p == call.photo else p == call.first || p == call.second
  {
    if call.Pairing? && p == call.a && p == call.b { assert Wanted(call)[0] == p; }
    else if call.Pairing? && p == call.a { assert Wanted(call)[if call.a < call.b then 0 else 1] == p; }
    else if call.Pairing? && p == call.b { assert Wanted(call)[if call.b < call.a then 0 else 1] == p; }
    else if call.Deletion? { assert Wanted(call)[0] == call.photo; }
    else if call.Sending? && p == call.first { assert Wanted(call)[0] == p; }
    else if call.Sending? && p == call.second { assert Wanted(call)[1] == p; }
  }

  lemma TakingSettles(db: Db, e: AtomicEvent, p: PhotoId)
    requires Atomic(db, e).Some? && Takes(e, p)
    ensures !Settled(db, p) && Settled(Atomic(db, e).value, p)
  {
    WantedPhotos(e.call, p);
  }

  lemma SettledStays(db: Db, e: AtomicEvent, p: PhotoId)
    requires Atomic(db, e).Some? && Settled(db, p)
    ensures Settled(Atomic(db, e).value, p)
  {
    if e.Changed? {
      assert PhotoElsewhere(db, e.db, {}, p) && PhotoStep(db, e.db, p);
    }
  }

  lemma {:induction false} ReplayPrefix(db: Db, log: seq<AtomicEvent>, n: nat)
    requires Replay(db, log).Some? && n < |log|
    ensures Replay(db, log[..n]).Some?
    ensures Replay(db, log[..n + 1]) == Atomic(Replay(db, log[..n]).value, log[n])
    ensures Replay(db, log[..n + 1]).Some?
    decreases |log|
  {
    var last := |log| - 1;
    if n < last {
      ReplayPrefix(db, log[..last], n);
      assert log[..last][..n] == log[..n] && log[..last][..n + 1] == log[..n + 1];
    } else {
      assert log[..n + 1] == log;
    }
  }

  lemma {:induction false} StaysSettled(db: Db, log: seq<AtomicEvent>, i: nat, j: nat, p: PhotoId)
    requires Replay(db, log).Some? && i < j < |log| && Takes(log[i], p)
    ensures Replay(db, log[..j]).Some? && Settled(Replay(db, log[..j]).value, p)
    decreases j
  {
    ReplayPrefix(db, log, j - 1);
    var before := Replay(db, log[..j - 1]).value;
    if i == j - 1 {
      TakingSettles(before, log[i], p);
    } else {
      StaysSettled(db, log, i, j - 1, p);
      SettledStays(before, log[j - 1], p);
    }
  }

  lemma OneTaker(db: Db, log: seq<AtomicEvent>, i: nat, j: nat, p: PhotoId)
    requires Replay(db, log).Some? && i < |log| && j < |log| && Takes(log[i], p) && Takes(log[j], p)
    ensures i == j
  {
    if i != j {
      var first, second := if i < j then i else j, if i < j then j else i;
      StaysSettled(db, log, first, second, p);
      ReplayPrefix(db, log, second);
      TakingSettles(Replay(db, log[..second]).value, log[second], p);
    }
  }

  /** Over any run of any number of finalisations and deletions, interleaved in any way with each other
      and with everything else, at most one accepted call takes a photo: overlapping finalisations
      never both commit on a shared photo, and a photo is never both matched and deleted. */
  lemma OneWinner(db: Db, moves: seq<Move>, i: nat, j: nat, p: PhotoId)
    requires FineRun(db, moves).Some? && i < |Log(db, moves)| && j < |Log(db, moves)|
    requires Takes(Log(db, moves)[i], p) && Takes(Log(db, moves)[j], p)
    ensures i == j
  {
    InterleavingsAreSequential(db, moves);
    OneTaker(db, Log(db, moves), i, j, p);
  }

  // A finalisation and a deletion of one of its photos.

  /** Each of the two calls would succeed alone. */
  predicate CanRace(db: Db, pairing: Call, rival: Call) {
    && pairing.Pairing? && RowError(pairing, db.photos).None? && !SeesBlock(db, pairing, db.photos)
    && pairing.m !in db.matches && pairing.a !in db.participants && pairing.b !in db.participants
    && rival.Deletion? && rival.photo in {pairing.a, pairing.b} && rival.user == db.photos[rival.photo].user
  }

  /** What others do meanwhile without deciding the race: they leave the two rows alone, and block neither
      user for the other. */
  predicate Steady(db: Db, db': Db, pairing: Call)
    requires pairing.Pairing?
  {
    && (forall p :: p in {pairing.a, pairing.b} && p in db.photos ==> p in db'.photos && db'.photos[p] == db.photos[p])
    && (SeesBlock(db', pairing, db'.photos) ==> SeesBlock(db, pairing, db.photos))
  }

  /** A call on other photos, and about another match. */
  predicate Apart(call: Call, pairing: Call)
    requires pairing.Pairing?
  {
    pairing.a !in Wanted(call) && pairing.b !in Wanted(call) && (call.Pairing? ==> call.m != pairing.m)
  }

  /** Whichever of the two decides first is accepted, and the other one then gets its refusal. */
  lemma FirstWins(db: Db, pairing: Call, rival: Call)
    requires CanRace(db, pairing, rival)
    ensures var (db1, first) := Perform(db, pairing, false);
      first == MadeMatch(Ok(pairing.m)) && Perform(db1, rival, false) == (db1, Removed(Err(PhotoAlreadyMatched)))
    ensures var (db1, first) := Perform(db, rival, false);
      first == Removed(Ok(())) && Perform(db1, pairing, false) == (db1, MadeMatch(Err(MatchCandidateChanged)))
  {}

  lemma FirstAccepted(db: Db, e: AtomicEvent, pairing: Call, rival: Call)
    requires CanRace(db, pairing, rival) && Atomic(db, e).Some? && e.Took? && e.call in {pairing, rival}
    ensures Accepted(e.answer)
  {
    FirstWins(db, pairing, rival);
    assert !e.blocked;
  }

  lemma ApartKeepsRace(db: Db, e: AtomicEvent, pairing: Call, rival: Call)
    requires CanRace(db, pairing, rival) && Atomic(db, e).Some? && e.Took?
    requires Accepted(e.answer) ==> Apart(e.call, pairing)
    ensures CanRace(Atomic(db, e).value, pairing, rival)
  {
    WantedPhotos(e.call, pairing.a);
    WantedPhotos(e.call, pairing.b);
  }

  lemma SteadyKeepsRace(db: Db, db': Db, pairing: Call, rival: Call)
    requires CanRace(db, pairing, rival) && Steady(db, db', pairing) && Elsewhere(db, db', {})
    ensures CanRace(db', pairing, rival)
  {}

  predicate HasFinished(s: Fine, t: TxnId) { t in s.txns && s.txns[t].phase.Finished? }

  predicate Won(s: Fine, t: TxnId) { HasFinished(s, t) && Accepted(s.txns[t].phase.answer) }

  /** Who finishes in a move: the call of its event, and nobody if there is none. */
  lemma MoveFinishes(s: Fine, mv: Move, t: TxnId)
    requires CanMove(s, mv)
    ensures var e := Effect(s, mv);
      if e.Some? && e.value.Took? && e.value.t == t
      then t in s.txns && !HasFinished(s, t) && e.value.call == s.txns[t].call
           && Moved(s, mv).txns[t].phase == Finished(e.value.answer) && Moved(s, mv).txns[t].call == s.txns[t].call
      else HasFinished(Moved(s, mv), t) == HasFinished(s, t) && Won(Moved(s, mv), t) == Won(s, t)
           && (t in s.txns ==> t in Moved(s, mv).txns && Moved(s, mv).txns[t].call == s.txns[t].call)
  {}

  /** The race so far: undecided and still open to both, or decided for the one that finished first. */
  predicate Standing(s: Fine, t: TxnId, u: TxnId, pairing: Call, rival: Call)
    requires rival.Deletion?
  {
    if !HasFinished(s, t) && !HasFinished(s, u) then CanRace(s.db, pairing, rival)
    else Settled(s.db, rival.photo) && Won(s, t) != Won(s, u)
  }

  /** The two calls, and nobody else who has taken one of their photos or used their match id. */
  ghost predicate Racers(s: Fine, t: TxnId, u: TxnId, pairing: Call, rival: Call)
    requires pairing.Pairing?
  {
    && (t in s.txns ==> s.txns[t].call == pairing)
    && (u in s.txns ==> s.txns[u].call == rival)
    && forall v {:trigger Won(s, v)} :: v in s.txns && v != t && v != u && Won(s, v) ==> Apart(s.txns[v].call, pairing)
  }

  lemma RacersBefore(s: Fine, mv: Move, t: TxnId, u: TxnId, pairing: Call, rival: Call)
    requires pairing.Pairing? && CanMove(s, mv) && Racers(Moved(s, mv), t, u, pairing, rival)
    ensures Racers(s, t, u, pairing, rival)
  {
    MoveFinishes(s, mv, t);
    MoveFinishes(s, mv, u);
    forall v | v in s.txns && v != t && v != u && Won(s, v) ensures Apart(s.txns[v].call, pairing) {
      MoveFinishes(s, mv, v);
    }
  }

  lemma RaceMove(s: Fine, mv: Move, t: TxnId, u: TxnId, pairing: Call, rival: Call)
    requires LockInv(s) && CanMove(s, mv) && t != u && pairing.Pairing? && rival.Deletion?
    requires rival.photo in {pairing.a, pairing.b}
    requires Standing(s, t, u, pairing, rival) && Racers(Moved(s, mv), t, u, pairing, rival)
    requires mv.Other? ==> Steady(s.db, mv.db, pairing)
    ensures Standing(Moved(s, mv), t, u, pairing, rival)
  {
    MoveRefines(s, mv);
    MoveFinishes(s, mv, t);
    MoveFinishes(s, mv, u);
    var e := Effect(s, mv);
    if e.Some? { RaceEvent(s, mv, e.value, t, u, pairing, rival); }
  }

  lemma RaceEvent(s: Fine, mv: Move, e: AtomicEvent, t: TxnId, u: TxnId, pairing: Call, rival: Call)
    requires CanMove(s, mv) && Effect(s, mv) == Some(e) && Atomic(s.db, e) == Some(Moved(s, mv).db)
    requires t != u && pairing.Pairing? && rival.Deletion? && rival.photo in {pairing.a, pairing.b}
    requires Standing(s, t, u, pairing, rival) && Racers(Moved(s, mv), t, u, pairing, rival)
    requires mv.Other? ==> Steady(s.db, mv.db, pairing)
    ensures Standing(Moved(s, mv), t, u, pairing, rival)
  {
    MoveFinishes(s, mv, t);
    MoveFinishes(s, mv, u);
    WantedPhotos(pairing, rival.photo);
    WantedPhotos(rival, rival.photo);
    if Settled(s.db, rival.photo) { SettledStays(s.db, e, rival.photo); }
    if e.Changed? {
      if CanRace(s.db, pairing, rival) { SteadyKeepsRace(s.db, e.db, pairing, rival); }
    } else if e.t == t || e.t == u {
      if !HasFinished(s, t) && !HasFinished(s, u) { FirstAccepted(s.db, e, pairing, rival); }
      if Takes(e, rival.photo) { TakingSettles(s.db, e, rival.photo); }
    } else {
      MoveFinishes(s, mv, e.t);
      assert Accepted(e.answer) ==> Won(Moved(s, mv), e.t);
      if CanRace(s.db, pairing, rival) { ApartKeepsRace(s.db, e, pairing, rival); }
    }
  }

  ghost predicate SteadyAt(db: Db, moves: seq<Move>, k: nat, pairing: Call)
    requires pairing.Pairing? && k < |moves|
  {
    moves[k].Other? && FineRun(db, moves[..k]).Some? ==> Steady(FineRun(db, moves[..k]).value.db, moves[k].db, pairing)
  }

  lemma {:induction false} RaceStands(db: Db, moves: seq<Move>, t: TxnId, u: TxnId, pairing: Call, rival: Call)
    requires FineRun(db, moves).Some? && t != u && CanRace(db, pairing, rival)
    requires Racers(FineRun(db, moves).value, t, u, pairing, rival)
    requires forall k :: 0 <= k < |moves| ==> SteadyAt(db, moves, k, pairing)
    ensures Standing(FineRun(db, moves).value, t, u, pairing, rival)
    decreases |moves|
  {
    if moves != [] {
      var n := |moves| - 1;
      var s := FineRun(db, moves[..n]).value;
      forall k | 0 <= k < n ensures SteadyAt(db, moves[..n], k, pairing) {
        assert SteadyAt(db, moves, k, pairing) && moves[..n][..k] == moves[..k];
      }
      RacersBefore(s, moves[n], t, u, pairing, rival);
      RaceStands(db, moves[..n], t, u, pairing, rival);
      InterleavingsAreSequential(db, moves[..n]);
      assert SteadyAt(db, moves, n, pairing);
      RaceMove(s, moves[n], t, u, pairing, rival);
    }
  }

  /** The race: a finalisation and a deletion of one of its photos, each of which could succeed alone,
      among any number of other finalisations, deletions and sends, interleaved in any way. Once both
      have finished, exactly one of them is accepted, unless a third call has taken one of the two photos
      or the match id, or somebody else has changed one of the two rows or blocked the two users. */
  lemma RaceHasOneWinner(db: Db, moves: seq<Move>, t: TxnId, u: TxnId, pairing: Call, rival: Call)
    requires FineRun(db, moves).Some? && t != u && CanRace(db, pairing, rival)
    requires HasFinished(FineRun(db, moves).value, t) && HasFinished(FineRun(db, moves).value, u)
    requires Racers(FineRun(db, moves).value, t, u, pairing, rival)
    requires forall k :: 0 <= k < |moves| ==> SteadyAt(db, moves, k, pairing)
    ensures Won(FineRun(db, moves).value, t) != Won(FineRun(db, moves).value, u)
  {
    RaceStands(db, moves, t, u, pairing, rival);
  }
}
