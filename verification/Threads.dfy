/** The postcard protocol over whole runs: alternation, turns, idempotency and notifications. */
module Threads {
  import opened Results
  import opened Ordering
  import opened Leases
  import opened Tables
  import opened Pipeline
  import opened Runs
  import opened Postcards

  ghost predicate Threads(db: Db) {
    forall m {:trigger ThreadOk(db, m)} :: ThreadOk(db, m)
  }

  /** The timestamp condition of the alternation: an accepted postcard is the latest of its match. */
  predicate Timely(db: Db, m: MatchId, id: PostcardId, at: Time) {
    forall k :: k in Cards(db, m) ==> Less(k, Key(at, id))
  }

  predicate TimelyStep(c: Config, s: Sys, step: Step) {
    step.SendCard? && SendLocked(s.db, step.user, step.m, step.content, step.key, step.id, step.sentAt).result.Ok? ==>
      Timely(s.db, step.m, step.id, step.sentAt)
  }

  // Steps that write no postcard.

  /** The rows of a match stay the same two. */
  lemma RowsKept(db: Db, db': Db, m: MatchId)
    requires Consistent(db) && Paired(db) && Consistent(db') && Paired(db') && Evolves(db, db') && m in db.matches
    ensures m in db'.matches && MatchRows(db', m) == MatchRows(db, m)
    ensures forall p :: p in MatchRows(db, m) ==>
      p in db'.participants && db'.participants[p].user == db.participants[p].user
  {
    var rows, rows' := MatchRows(db, m), MatchRows(db', m);
    assert MatchPaired(db, m) && MatchPaired(db', m);
    assert rows <= rows';
    SameSize(rows, rows');
  }

  lemma SameSize(s: set<nat>, t: set<nat>)
    requires s <= t && |s| == |t|
    ensures s == t
  {
    assert t == s + (t - s);
    assert |t - s| == 0;
  }

  lemma RowKeysKept(db: Db, db': Db, m: MatchId)
    requires MatchRows(db', m) == MatchRows(db, m) && PhotosStep(db, db')
    requires db.participants.Keys <= db.photos.Keys
    ensures RowKeys(db', m) == RowKeys(db, m)
  {
    forall p ensures p in db.participants && db.participants[p].matchId == m
                     <==> p in db'.participants && db'.participants[p].matchId == m
    {
      assert p in MatchRows(db, m) <==> p in MatchRows(db', m);
    }
    forall p | p in MatchRows(db, m) ensures p in db'.photos && PhotoKey(db', p) == PhotoKey(db, p) {
      assert PhotoStep(db, db', p);
    }
  }

  /** What stays of a thread when no postcard of its match is added. */
  lemma ThreadKept(db: Db, db': Db, m: MatchId)
    requires Consistent(db) && Paired(db) && Consistent(db') && Paired(db') && Evolves(db, db') && ThreadOk(db, m)
    requires Cards(db', m) == Cards(db, m) && forall k :: k in Cards(db, m) ==> SenderOf(db', k) == SenderOf(db, k)
    ensures ThreadOk(db', m)
  {
    if m in db.matches {
      RowsKept(db, db', m);
      RowKeysKept(db, db', m);
      SameUsers(db, db', m);
      assert Senders(db', m) == Senders(db, m) by { SendersKept(db, db', m); }
    } else if m in db'.matches {
      var a, b := MatchPair(db', m);
    }
  }

  lemma SendersKept(db: Db, db': Db, m: MatchId)
    requires Cards(db', m) == Cards(db, m) && forall k :: k in Cards(db, m) ==> SenderOf(db', k) == SenderOf(db, k)
    ensures Senders(db', m) == Senders(db, m)
  {
    var thread := Ascending(Cards(db, m));
    forall i | 0 <= i < |thread| ensures SenderOf(db', thread[i]) == SenderOf(db, thread[i]) {
      assert thread[i] in thread;
    }
  }

  /** A mailbox deletion removes no postcard from the thread. */
  lemma DropKeepsCards(db: Db, u: UserId, card: PostcardId, now: Time, m: MatchId)
    ensures var db' := DeletePostcard(db, u, card, now).db;
      && Cards(db', m) == Cards(db, m)
      && forall k :: k in Cards(db, m) ==> SenderOf(db', k) == SenderOf(db, k)
  {
    var db' := DeletePostcard(db, u, card, now).db;
    DropKeepsPostcards(db, u, card, now);
    SamePostcards(db, db', m);
  }

  /** A postcard without its two deletion marks. */
  function Sealed(card: Postcard): Postcard {
    card.(senderDeletedAt := None, receiverDeletedAt := None)
  }

  lemma DropKeepsPostcards(db: Db, u: UserId, card: PostcardId, now: Time)
    ensures var db' := DeletePostcard(db, u, card, now).db;
      && db'.postcards.Keys == db.postcards.Keys
      && forall c :: c in db.postcards ==> Sealed(db'.postcards[c]) == Sealed(db.postcards[c])
  {}

  lemma SamePostcards(db: Db, db': Db, m: MatchId)
    requires db'.postcards.Keys == db.postcards.Keys
    requires forall c :: c in db.postcards ==> Sealed(db'.postcards[c]) == Sealed(db.postcards[c])
    ensures Cards(db', m) == Cards(db, m)
    ensures forall k :: k in Cards(db, m) ==> SenderOf(db', k) == SenderOf(db, k)
  {
    forall c | c in db.postcards
      ensures db'.postcards[c].matchId == db.postcards[c].matchId && db'.postcards[c].sentAt == db.postcards[c].sentAt
              && db'.postcards[c].sender == db.postcards[c].sender
    {
      assert Sealed(db'.postcards[c]) == Sealed(db.postcards[c]);
    }
  }

  /** Only the postcard operations write postcards. */
  lemma OthersKeepPostcards(c: Config, s: Sys, step: Step)
    requires Enabled(c, s, step) && !step.SendCard? && !step.DropCard?
    ensures Next(c, s, step).db.postcards == s.db.postcards
    ensures Next(c, s, step).db.inbox.postcardReceived == s.db.inbox.postcardReceived
  {
    if IsJobStep(step) { JobsKeepPostcards(c, s, step); }
  }

  lemma JobsKeepPostcards(c: Config, s: Sys, step: Step)
    requires Enabled(c, s, step) && IsJobStep(step)
    ensures Next(c, s, step).db.postcards == s.db.postcards
    ensures Next(c, s, step).db.inbox.postcardReceived == s.db.inbox.postcardReceived
  {
    if step.ValidationResult? {
      VerdictInbox(s.db, ValidationPolicy(c), step.job, step.verdict, step.code, step.sender, step.embeddingJob,
                   step.now, step.txn);
    } else if step.ValidationFailure? {
      FailureInbox(s.db, ValidationPolicy(c), step.job, step.worker, step.error, step.retryable, step.now);
    } else if step.EmbeddingResult? {
      EmbeddingResultFrame(s.db, EmbeddingPolicy(c), step.job, step.worker, step.embedding, step.now);
    } else if step.EmbeddingFailure? {
      EmbeddingFailureFrame(s.db, EmbeddingPolicy(c), step.job, step.worker, step.error, step.retryable, step.now);
    }
  }

  lemma VerdictInbox(db: Db, policy: Policy, j: JobId, verdict: Verdict, code: Option<string>,
                     sender: Option<WorkerId>, e: JobId, now: Time, txn: Time)
    ensures var db' := ApplyValidationResult(db, policy, j, verdict, code, sender, e, now, txn).db;
      db'.postcards == db.postcards && db'.inbox.postcardReceived == db.inbox.postcardReceived
  {}

  lemma FailureInbox(db: Db, policy: Policy, j: JobId, worker: WorkerId, error: string, retryable: bool, now: Time)
    ensures var db' := RecordValidationFailure(db, policy, j, worker, error, retryable, now).db;
      db'.postcards == db.postcards && db'.inbox.postcardReceived == db.inbox.postcardReceived
  {}

  /** The accepted sends. */
  predicate Sends(s: Sys, step: Step, m: MatchId) {
    step.SendCard? && step.m == m
    && SendLocked(s.db, step.user, m, step.content, step.key, step.id, step.sentAt).result.Ok?
  }

  /** Every other step leaves a thread's postcards as they are. */
  lemma QuietCards(c: Config, s: Sys, step: Step, m: MatchId)
    requires Enabled(c, s, step) && !Sends(s, step, m)
    ensures var db' := Next(c, s, step).db;
      && Cards(db', m) == Cards(s.db, m)
      && forall k :: k in Cards(s.db, m) ==> SenderOf(db', k) == SenderOf(s.db, k)
  {
    if step.SendCard? {
      QuietSend(s.db, step.user, step.m, step.content, step.key, step.id, step.sentAt, m);
    } else if step.DropCard? {
      DropKeepsCards(s.db, step.user, step.card, step.now, m);
    } else {
      OthersKeepPostcards(c, s, step);
    }
  }

  lemma QuietSend(db: Db, user: UserId, m: MatchId, content: string, key: Option<nat>, id: PostcardId, at: Time,
                  k: MatchId)
    requires k == m ==> SendLocked(db, user, m, content, key, id, at).result.Err?
    ensures var db' := SendLocked(db, user, m, content, key, id, at).db;
      && Cards(db', k) == Cards(db, k)
      && forall c :: c in Cards(db, k) ==> SenderOf(db', c) == SenderOf(db, c)
  {
    if SendLocked(db, user, m, content, key, id, at).result.Ok? {
      SentCards(db, user, m, content, key, id, at, k);
    }
  }

  lemma QuietThread(c: Config, s: Sys, step: Step, m: MatchId)
    requires Enabled(c, s, step) && Inv(c, s) && ThreadOk(s.db, m) && !Sends(s, step, m)
    ensures ThreadOk(Next(c, s, step).db, m)
  {
    StepInv(c, s, step);
    StepEvolves(c, s, step);
    QuietCards(c, s, step, m);
    ThreadKept(s.db, Next(c, s, step).db, m);
  }

  lemma SentToMatch(db: Db, user: UserId, m: MatchId, content: string, key: Option<nat>, id: PostcardId, at: Time)
    requires Paired(db) && SendLocked(db, user, m, content, key, id, at).result.Ok?
    ensures m in db.matches
  {
    if m !in db.matches { NoMatchNoRows(db, m); }
  }

  /** A step keeps every thread alternating exactly if it is timely. */
  lemma StepThreads(c: Config, s: Sys, step: Step)
    requires Enabled(c, s, step) && Inv(c, s) && Threads(s.db)
    ensures Threads(Next(c, s, step).db) <==> TimelyStep(c, s, step)
  {
    var db, db' := s.db, Next(c, s, step).db;
    if step.SendCard? && Sends(s, step, step.m) {
      assert ThreadOk(db, step.m);
      SentToMatch(db, step.user, step.m, step.content, step.key, step.id, step.sentAt);
      SendKeepsThreadIff(db, step.user, step.m, step.content, step.key, step.id, step.sentAt);
      assert ThreadOk(db', step.m) <==> TimelyStep(c, s, step);
    }
    forall m | !Sends(s, step, m) ensures ThreadOk(db', m) {
      assert ThreadOk(db, m);
      QuietThread(c, s, step, m);
    }
  }

  ghost predicate AlternatesAt(c: Config, steps: seq<Step>, i: nat)
    requires i <= |steps|
  {
    Run(c, steps[..i]).Some? ==> Threads(Run(c, steps[..i]).value.db)
  }

  predicate TimelyAt(c: Config, steps: seq<Step>, i: nat)
    requires i < |steps|
  {
    Run(c, steps[..i]).Some? ==> TimelyStep(c, Run(c, steps[..i]).value, steps[i])
  }

  lemma SamePrefix(c: Config, steps: seq<Step>, n: nat, i: nat)
    requires i <= n <= |steps|
    ensures AlternatesAt(c, steps[..n], i) <==> AlternatesAt(c, steps, i)
    ensures i < n ==> (TimelyAt(c, steps[..n], i) <==> TimelyAt(c, steps, i))
  {
    assert steps[..n][..i] == steps[..i];
  }

  /** Strict alternation: over any run of any steps, in every match the postcards in the order of
      (sent_at, id) alternate, starting with the first participant, at every moment of the run, if and
      only if every accepted postcard was the latest of its match when it was accepted. */
  lemma {:induction false} AlternationIff(c: Config, steps: seq<Step>)
    requires Run(c, steps).Some?
    ensures (forall i :: 0 <= i <= |steps| ==> AlternatesAt(c, steps, i))
            <==> (forall i :: 0 <= i < |steps| ==> TimelyAt(c, steps, i))
  {
    if steps == [] {
      assert steps[..0] == [];
      StartThreads();
    } else {
      AlternationIff(c, steps[..|steps| - 1]);
      SoFar(c, steps);
      LastStep(c, steps);
    }
  }

  /** Up to its last step a run is the run before it. */
  lemma SoFar(c: Config, steps: seq<Step>)
    requires steps != []
    ensures var n := |steps| - 1;
      && ((forall i :: 0 <= i <= |steps[..n]| ==> AlternatesAt(c, steps[..n], i)) <==>
          (forall i :: 0 <= i <= n ==> AlternatesAt(c, steps, i)))
      && ((forall i :: 0 <= i < |steps[..n]| ==> TimelyAt(c, steps[..n], i)) <==>
          (forall i :: 0 <= i < n ==> TimelyAt(c, steps, i)))
  {
    var n := |steps| - 1;
    forall i | 0 <= i <= n
      ensures AlternatesAt(c, steps[..n], i) <==> AlternatesAt(c, steps, i)
      ensures i < n ==> (TimelyAt(c, steps[..n], i) <==> TimelyAt(c, steps, i))
    {
      SamePrefix(c, steps, n, i);
    }
  }

  lemma LastStep(c: Config, steps: seq<Step>)
    requires Run(c, steps).Some? && steps != []
    ensures var n := |steps| - 1;
      AlternatesAt(c, steps, n) ==> (AlternatesAt(c, steps, n + 1) <==> TimelyAt(c, steps, n))
  {
    var n := |steps| - 1;
    var s := Run(c, steps[..n]).value;
    RunInv(c, steps[..n]);
    assert steps[..n + 1] == steps;
    if Threads(s.db) { StepThreads(c, s, steps[n]); }
  }

  lemma StartThreads()
    ensures Threads(START.db)
  {
    forall m ensures ThreadOk(START.db, m) {}
  }
}
