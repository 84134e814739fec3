/** Finding a partner for a photo whose embedding has just been stored, while everybody else keeps
    changing the database. */
module Orchestration {
  import opened Results
  import opened Ordering
  import opened Leases
  import opened Tables
  import opened Pipeline
  import opened Runs
  import opened Similarity
  import opened Ranking
  import opened Candidates
  import opened Guarantees

  // Interference.

  /** What other transactions do meanwhile: the steps that can happen, one after the other. */
  function Others(c: Config, s: Sys, steps: seq<Step>): Sys {
    if steps == [] then s else
      var s' := Others(c, s, steps[..|steps| - 1]);
      if Enabled(c, s', steps[|steps| - 1]) then Next(c, s', steps[|steps| - 1]) else s'
  }

  ghost predicate Later(db: Db, db': Db) {
    MatchesKept(db, db') && forall p {:trigger PhotoLater(db, db', p)} :: PhotoLater(db, db', p)
  }

  lemma StillLater(db: Db)
    ensures Later(db, db)
  {
    forall p ensures PhotoLater(db, db, p) {}
  }

  lemma LaterStep(db: Db, db': Db, db'': Db)
    requires Later(db, db') && Later(db', db'')
    ensures Later(db, db'')
  {
    forall p ensures PhotoLater(db, db'', p) {
      assert PhotoLater(db, db', p) && PhotoLater(db', db'', p);
    }
  }

  lemma EvolvesLater(db: Db, db': Db)
    requires Evolves(db, db')
    ensures Later(db, db')
  {
    forall p ensures PhotoLater(db, db', p) {
      assert PhotoStep(db, db', p);
    }
  }

  lemma {:induction false} OthersKeep(c: Config, s: Sys, steps: seq<Step>)
    requires Inv(c, s)
    ensures Inv(c, Others(c, s, steps)) && Later(s.db, Others(c, s, steps).db)
  {
    if steps == [] {
      StillLater(s.db);
    } else {
      var n := |steps| - 1;
      OthersKeep(c, s, steps[..n]);
      var s' := Others(c, s, steps[..n]);
      if Enabled(c, s', steps[n]) {
        StepInv(c, s', steps[n]);
        StepEvolves(c, s', steps[n]);
        EvolvesLater(s'.db, Next(c, s', steps[n]).db);
        LaterStep(s.db, s'.db, Next(c, s', steps[n]).db);
      }
    }
  }

  // The explanation.

  function Labelled(s: FeatureScores): seq<(string, real)> {
    [("장면", s.scene), ("대상과 행동", s.objects), ("구도", s.composition), ("색감", s.color), ("분위기", s.mood)]
  }

  /** The first entry with the greatest score, as a stable descending sort would put it first. */
  function Top(values: seq<(string, real)>): (i: nat)
    requires values != []
    ensures i < |values|
    ensures forall k :: 0 <= k < |values| ==> values[k].1 <= values[i].1 && (k < i ==> values[k].1 < values[i].1)
  {
    if |values| == 1 then 0 else
      var n := |values| - 1;
      var i := Top(values[..n]);
      if values[i].1 < values[n].1 then n else i
  }

  function Explanation(s: FeatureScores): string {
    var values := Labelled(s);
    var i := Top(values);
    var rest := values[..i] + values[i + 1..];
    values[i].0 + "과 " + rest[Top(rest)].0 + "이 닮은 순간이에요."
  }

  /** It is never blank, so the finalisation never refuses it. */
  lemma ExplanationIsKept(s: FeatureScores)
    ensures Trim(Explanation(s)) == Explanation(s) != ""
  {
    var values := Labelled(s);
    var name := values[Top(values)].0;
    assert !IsSpace(name[0]);
    assert Explanation(s)[0] == name[0];
    assert Explanation(s)[|Explanation(s)| - 1] == '.';
  }

  /** Higher, or as high and listed earlier. */
  predicate Tops(scores: seq<real>, i: nat, k: nat)
    requires i < |scores| && k < |scores|
  {
    scores[k] < scores[i] || (scores[k] == scores[i] && i <= k)
  }

  lemma TopTwo(values: seq<(string, real)>, scores: seq<real>) returns (i: nat, j: nat)
    requires |values| == |scores| >= 2 && forall k :: 0 <= k < |values| ==> values[k].1 == scores[k]
    ensures i < |values| && j < |values| && i != j && i == Top(values)
    ensures var rest := values[..i] + values[i + 1..]; rest[Top(rest)] == values[j]
    ensures forall k :: 0 <= k < |values| ==> Tops(scores, i, k) && (k != i ==> Tops(scores, j, k))
  {
    i := Top(values);
    var rest := values[..i] + values[i + 1..];
    var t := Top(rest);
    j := if t < i then t else t + 1;
    forall k | 0 <= k < |values| ensures Tops(scores, i, k) && (k != i ==> Tops(scores, j, k)) {
      if k != i { assert values[k] == rest[if k < i then k else k - 1]; }
    }
  }

  /** What is said: the label of the highest of the five scores, then that of the highest of the others; equal
      scores keep the order scene, objects, composition, color, mood. */
  lemma ExplanationNamesTheBest(s: FeatureScores) returns (i: nat, j: nat)
    ensures i < 5 && j < 5 && i != j
    ensures var names := ["장면", "대상과 행동", "구도", "색감", "분위기"];
      Explanation(s) == names[i] + "과 " + names[j] + "이 닮은 순간이에요."
    ensures var scores := [s.scene, s.objects, s.composition, s.color, s.mood];
      forall k :: 0 <= k < 5 ==> Tops(scores, i, k) && (k != i ==> Tops(scores, j, k))
  {
    var names := ["장면", "대상과 행동", "구도", "색감", "분위기"];
    var scores := [s.scene, s.objects, s.composition, s.color, s.mood];
    var values := Labelled(s);
    i, j := TopTwo(values, scores);
    assert values[i].0 == names[i] && values[j].0 == names[j];
  }

  // Trying the candidates.

  /** The refusals after which the next candidate is tried. */
  predicate Caught(e: Error) {
    e.MatchCandidateChanged? || e.UserBlocked? || e.SearchPeriodExpired?
  }

  /** What stays true of a listed candidate and its source. */
  ghost predicate WasListed(db: Db, source: PhotoId, q: PhotoId) {
    && source in db.photos && q in db.photos && source in db.embeddings && q in db.embeddings
    && source != q && db.photos[source].user != db.photos[q].user
  }

  lemma ListedStays(db: Db, db': Db, source: PhotoId, q: PhotoId)
    requires WasListed(db, source, q) && Later(db, db')
    ensures WasListed(db', source, q)
  {
    assert PhotoLater(db, db', source) && PhotoLater(db, db', q);
  }

  /** Once candidates are listed, whatever happens meanwhile, the three caught codes are all that the
      finalisation can answer besides success. */
  lemma OnlyCaughtRefusals(db: Db, source: PhotoId, q: PhotoId, m: MatchId, explanation: string, now: Time, txn: Time)
    requires Consistent(db) && WasListed(db, source, q) && m !in db.matches && Trim(explanation) != ""
    ensures var r := FinalizeMatch(db, source, q, m, explanation, now, txn).result;
      r.Ok? || Caught(r.error)
  {
    assert Agree(db, source) && Agree(db, q);
  }

  function Batch(others: seq<seq<Step>>, i: nat): seq<Step> {
    if i < |others| then others[i] else []
  }

  lemma {:induction false} UnusedMatchId(db: Db, matches: set<MatchId>)
    ensures exists m :: m !in matches && forall k :: k in matches ==> k < m
    decreases |matches|
  {
    if matches == {} {
      assert 0 !in matches;
    } else {
      var x :| x in matches;
      UnusedMatchId(db, matches - {x});
      var m :| m !in matches - {x} && forall k :: k in matches - {x} ==> k < m;
      var n := if x < m then m else x + 1;
      assert matches == matches - {x} + {x};
      assert n !in matches && forall k :: k in matches ==> k < n;
    }
  }

  /** The state before try `i`: only the others have changed anything since the try before it. */
  predicate Interleaved(c: Config, listed: Sys, tried: seq<Sys>, others: seq<seq<Step>>, i: nat)
    requires i < |tried|
  {
    tried[i] == Others(c, Last(listed, tried[..i]), Batch(others, i))
  }

  function Last(listed: Sys, tried: seq<Sys>): Sys {
    if tried == [] then listed else tried[|tried| - 1]
  }

  /** Candidate `i` could be paired when it was tried. */
  predicate Fits(source: PhotoId, ranked: seq<RankedCandidate>, tried: seq<Sys>, i: nat)
    requires i < |tried| <= |ranked|
  {
    Pairable(tried[i].db, source, ranked[i].photo, tried[i].clock)
  }

  /** One more try leaves the earlier ones as they were. */
  lemma EarlierTries(c: Config, listed: Sys, source: PhotoId, ranked: seq<RankedCandidate>, tried: seq<Sys>, s: Sys,
                     others: seq<seq<Step>>, i: nat)
    requires i < |tried| < |ranked|
    ensures Interleaved(c, listed, tried + [s], others, i) <==> Interleaved(c, listed, tried, others, i)
    ensures Fits(source, ranked, tried + [s], i) <==> Fits(source, ranked, tried, i)
  {
    assert (tried + [s])[..i] == tried[..i];
  }

  lemma NewTry(c: Config, listed: Sys, source: PhotoId, ranked: seq<RankedCandidate>, tried: seq<Sys>,
               others: seq<seq<Step>>)
    requires |tried| < |ranked|
    ensures var n := |tried|;
      var s := Others(c, Last(listed, tried), Batch(others, n));
      && Interleaved(c, listed, tried + [s], others, n)
      && (Fits(source, ranked, tried + [s], n) <==> Pairable(s.db, source, ranked[n].photo, s.clock))
  {
    var s := Others(c, Last(listed, tried), Batch(others, |tried|));
    assert (tried + [s])[..|tried|] == tried;
  }

  /** The tries so far: each after the others' work, and all but a successful last one refused. */
  ghost predicate TriedInOrder(c: Config, listed: Sys, source: PhotoId, ranked: seq<RankedCandidate>, tried: seq<Sys>,
                               others: seq<seq<Step>>, success: bool)
  {
    && |tried| <= |ranked|
    && (success ==> tried != [])
    && forall i :: 0 <= i < |tried| ==>
         && Interleaved(c, listed, tried, others, i)
         && (Fits(source, ranked, tried, i) <==> success && i == |tried| - 1)
  }

  lemma TryAdded(c: Config, listed: Sys, source: PhotoId, ranked: seq<RankedCandidate>, tried: seq<Sys>,
                 others: seq<seq<Step>>, at: Sys, success: bool)
    requires TriedInOrder(c, listed, source, ranked, tried, others, false) && |tried| < |ranked|
    requires at == Others(c, Last(listed, tried), Batch(others, |tried|))
    requires success <==> Pairable(at.db, source, ranked[|tried|].photo, at.clock)
    ensures TriedInOrder(c, listed, source, ranked, tried + [at], others, success)
    ensures Last(listed, tried + [at]) == at == (tried + [at])[|tried|]
  {
    NewTry(c, listed, source, ranked, tried, others);
    forall i: nat | i < |tried|
      ensures Interleaved(c, listed, tried + [at], others, i) && !Fits(source, ranked, tried + [at], i)
    {
      EarlierTries(c, listed, source, ranked, tried, at, others, i);
    }
  }

  /** The result of the transaction that pairs the photo with candidate `i`. */
  function PairedWith(source: PhotoId, x: RankedCandidate, s: Sys, m: MatchId): Sys {
    s.(db := FinalizeMatch(s.db, source, x.photo, m, Explanation(x.scores), s.clock, s.clock).db)
  }

  lemma PairKeeps(c: Config, a: PhotoId, b: PhotoId, s: Sys, m: MatchId, explanation: string, blocked: bool)
    requires Inv(c, s) && a in s.db.embeddings && b in s.db.embeddings
    ensures Inv(c, s.(db := Finalize(s.db, a, b, m, explanation, s.clock, s.clock, blocked).db))
  {
    StepInv(c, s, Pair(a, b, m, explanation, s.clock, s.clock, blocked));
  }

  lemma PairedKeeps(c: Config, source: PhotoId, q: PhotoId, s: Sys, m: MatchId, explanation: string)
    requires Inv(c, s) && source in s.db.embeddings && q in s.db.embeddings && Trim(explanation) == explanation
    ensures Inv(c, s.(db := FinalizeMatch(s.db, source, q, m, explanation, s.clock, s.clock).db))
  {
    PairKeeps(c, source, q, s, m, explanation, PairBlocked(s.db, source, q));
  }

  /** The source and the candidates that were listed for it, as they are now. */
  ghost predicate Ready(c: Config, s: Sys, source: PhotoId, ids: set<PhotoId>) {
    Inv(c, s) && forall q :: q in ids ==> WasListed(s.db, source, q)
  }

  lemma OthersKeepReady(c: Config, s: Sys, source: PhotoId, ids: set<PhotoId>, steps: seq<Step>)
    requires Ready(c, s, source, ids)
    ensures Ready(c, Others(c, s, steps), source, ids)
  {
    OthersKeep(c, s, steps);
    var db' := Others(c, s, steps).db;
    forall q | q in ids ensures WasListed(db', source, q) {
      ListedStays(s.db, db', source, q);
    }
  }

  /** One try: accepted exactly if the two photos can be paired, and otherwise refused with one of the
      three caught codes. */
  lemma TryMeans(c: Config, s: Sys, source: PhotoId, item: RankedCandidate, ids: set<PhotoId>, m: MatchId)
    requires Ready(c, s, source, ids) && item.photo in ids && m !in s.db.matches
    ensures var r := FinalizeMatch(s.db, source, item.photo, m, Explanation(item.scores), s.clock, s.clock);
      && (r.result.Ok? <==> Pairable(s.db, source, item.photo, s.clock))
      && (r.result.Ok? ==> r.result.value == m && m in r.db.matches)
      && (r.result.Err? ==> Caught(r.result.error) && r.db == s.db)
      && Inv(c, s.(db := r.db))
  {
    var explanation := Explanation(item.scores);
    ExplanationIsKept(item.scores);
    FinalizeIffPairable(s.db, source, item.photo, m, explanation, s.clock, s.clock);
    OnlyCaughtRefusals(s.db, source, item.photo, m, explanation, s.clock, s.clock);
    PairedKeeps(c, source, item.photo, s, m, explanation);
  }

  /** The state of the loop after some tries in vain. */
  ghost predicate InVain(c: Config, listed: Sys, source: PhotoId, ranked: seq<RankedCandidate>, tried: seq<Sys>,
                         others: seq<seq<Step>>, s: Sys, ids: set<PhotoId>)
  {
    && TriedInOrder(c, listed, source, ranked, tried, others, false)
    && s == Last(listed, tried) && Ready(c, s, source, ids)
  }

  /** The last try paired the photo. */
  ghost predicate Succeeded(c: Config, listed: Sys, source: PhotoId, ranked: seq<RankedCandidate>, tried: seq<Sys>,
                            others: seq<seq<Step>>, s: Sys, m: MatchId)
  {
    && TriedInOrder(c, listed, source, ranked, tried, others, true) && Inv(c, s)
    && m in s.db.matches && m !in tried[|tried| - 1].db.matches
    && s == PairedWith(source, ranked[|tried| - 1], tried[|tried| - 1], m)
  }

  lemma RefusedTry(c: Config, listed: Sys, source: PhotoId, ranked: seq<RankedCandidate>, tried: seq<Sys>,
                   others: seq<seq<Step>>, before: Sys, ids: set<PhotoId>)
    requires InVain(c, listed, source, ranked, tried, others, before, ids) && |tried| < |ranked|
    requires var at := Others(c, before, Batch(others, |tried|));
      Ready(c, at, source, ids) && !Pairable(at.db, source, ranked[|tried|].photo, at.clock)
    ensures var at := Others(c, before, Batch(others, |tried|));
      InVain(c, listed, source, ranked, tried + [at], others, at, ids)
  {
    TryAdded(c, listed, source, ranked, tried, others, Others(c, before, Batch(others, |tried|)), false);
  }

  lemma AcceptedTry(c: Config, listed: Sys, source: PhotoId, ranked: seq<RankedCandidate>, tried: seq<Sys>,
                    others: seq<seq<Step>>, before: Sys, ids: set<PhotoId>, m: MatchId)
    requires InVain(c, listed, source, ranked, tried, others, before, ids) && |tried| < |ranked|
    requires var at := Others(c, before, Batch(others, |tried|));
      && Pairable(at.db, source, ranked[|tried|].photo, at.clock) && m !in at.db.matches
      && var s := PairedWith(source, ranked[|tried|], at, m);
      Inv(c, s) && m in s.db.matches
    ensures var at := Others(c, before, Batch(others, |tried|));
      Succeeded(c, listed, source, ranked, tried + [at], others, PairedWith(source, ranked[|tried|], at, m), m)
  {
    TryAdded(c, listed, source, ranked, tried, others, Others(c, before, Batch(others, |tried|)), true);
  }

  /** What the others do, and then one try. */
  method TryNext(c: Config, listed: Sys, source: PhotoId, ranked: seq<RankedCandidate>, tried: seq<Sys>,
                 others: seq<seq<Step>>, before: Sys, ghost ids: set<PhotoId>)
    returns (at: Sys, s: Sys, r: Result<MatchId>)
    requires InVain(c, listed, source, ranked, tried, others, before, ids)
    requires |tried| < |ranked| && ranked[|tried|].photo in ids
    ensures r.Ok? ==> Succeeded(c, listed, source, ranked, tried + [at], others, s, r.value)
    ensures r.Err? ==> Caught(r.error) && InVain(c, listed, source, ranked, tried + [at], others, s, ids)
  {
    var batch, item := Batch(others, |tried|), ranked[|tried|];
    OthersKeepReady(c, before, source, ids, batch);
    at := Others(c, before, batch);
    UnusedMatchId(at.db, at.db.matches.Keys);
    var m :| m !in at.db.matches;
    TryMeans(c, at, source, item, ids, m);
    var outcome := FinalizeMatch(at.db, source, item.photo, m, Explanation(item.scores), at.clock, at.clock);
    s := at.(db := outcome.db);
    r := outcome.result;
    if r.Ok? {
      AcceptedTry(c, listed, source, ranked, tried, others, before, ids, m);
    } else {
      assert s == at;
      RefusedTry(c, listed, source, ranked, tried, others, before, ids);
    }
  }

  /** The loop of `orchestrate_match`: the first candidate in rank order whose guards hold when it is
      tried, or none. */
  method TryCandidates(c: Config, listed: Sys, source: PhotoId, ranked: seq<RankedCandidate>, others: seq<seq<Step>>,
                       ghost ids: set<PhotoId>)
    returns (s: Sys, r: Result<Option<MatchId>>, tried: seq<Sys>)
    requires Ready(c, listed, source, ids) && forall i :: 0 <= i < |ranked| ==> ranked[i].photo in ids
    ensures r.Ok?
    ensures r.value.Some? ==> Succeeded(c, listed, source, ranked, tried, others, s, r.value.value)
    ensures r.value.None? ==> InVain(c, listed, source, ranked, tried, others, s, ids) && |tried| == |ranked|
  {
    s, tried := listed, [];
    for i := 0 to |ranked|
      invariant |tried| == i && InVain(c, listed, source, ranked, tried, others, s, ids)
    {
      var at, after, outcome := TryNext(c, listed, source, ranked, tried, others, s, ids);
      s, tried := after, tried + [at];
      if outcome.Ok? {
        return s, Ok(Some(outcome.value)), tried;
      }
      if !Caught(outcome.error) {
        // The error would be raised to the caller.
        assert false;
      }
    }
    r := Ok(None);
  }

  // The whole call.

  lemma ScoresExist(a: Embedding, b: Embedding)
    ensures ScoreEmbeddings(a, b).Ok?
  {}

  /** The listed photos with their scores. */
  function Scored(db: Db, data: Embedding, ids: seq<PhotoId>): (cs: seq<MatchCandidate>)
    requires forall i :: 0 <= i < |ids| ==> ids[i] in db.embeddings
    ensures |cs| == |ids| && forall i :: 0 <= i < |ids| ==> cs[i].photo == ids[i]
  {
    seq(|ids|, i requires 0 <= i < |ids| =>
      ScoresExist(data, db.embeddings[ids[i]]);
      MatchCandidate(ids[i], ScoreEmbeddings(data, db.embeddings[ids[i]]).value))
  }

  /** The photos that were listed: the longest-waiting candidates of that moment. */
  ghost predicate Listed(db: Db, source: PhotoId, now: Time, ids: seq<PhotoId>) {
    && source in db.photos
    && |ids| <= 100
    && var user := db.photos[source].user;
    && (forall i :: 0 <= i < |ids| ==> IsCandidate(db, source, user, now, ids[i]))
    && (forall i, j :: 0 <= i < j < |ids| ==> Before(db, ids[i], ids[j]))
    && (forall q :: IsCandidate(db, source, user, now, q) && q !in ids ==>
          |ids| == 100 && forall i :: 0 <= i < |ids| ==> Before(db, ids[i], q))
  }

  /** What the tries are based on: the embedding read first, the listing, and its ranking. */
  datatype Plan = Plan(data: Embedding, listed: Sys, now: Time, ids: seq<PhotoId>, ranked: seq<RankedCandidate>)

  ghost predicate Sound(source: PhotoId, plan: Plan) {
    && Listed(plan.listed.db, source, plan.now, plan.ids)
    && plan.ranked == SortRanked(Passing(Scored(plan.listed.db, plan.data, plan.ids), DEFAULT_WEIGHTS, DEFAULT_FLOORS))
  }

  /** Ranked photos are listed photos. */
  lemma RankedWasListed(source: PhotoId, plan: Plan)
    requires Sound(source, plan) && source in plan.listed.db.embeddings
    ensures forall i :: 0 <= i < |plan.ranked| ==> plan.ranked[i].photo in plan.ids
    ensures forall q :: q in plan.ids ==> WasListed(plan.listed.db, source, q)
  {
    var cs := Scored(plan.listed.db, plan.data, plan.ids);
    var passing := Passing(cs, DEFAULT_WEIGHTS, DEFAULT_FLOORS);
    forall i | 0 <= i < |plan.ranked| ensures plan.ranked[i].photo in plan.ids {
      var x := plan.ranked[i];
      assert x in multiset(plan.ranked);
      assert x in passing;
      PassingExactly(cs, DEFAULT_WEIGHTS, DEFAULT_FLOORS, x);
    }
  }

  /** The listing and the ranking. */
  method Choose(listed: Sys, source: PhotoId, user: UserId, now: Time, data: Embedding) returns (plan: Plan)
    requires source in listed.db.photos && source in listed.db.embeddings && listed.db.photos[source].user == user
    ensures Sound(source, plan) && plan.listed == listed && plan.now == now && plan.data == data
    ensures forall i :: 0 <= i < |plan.ranked| ==> plan.ranked[i].photo in plan.ids
    ensures forall q :: q in plan.ids ==> WasListed(listed.db, source, q)
  {
    var ids := ListCandidates(listed.db, source, user, now, CANDIDATE_LIMIT);
    var ranked := RankCandidates(Scored(listed.db, data, ids), None, DEFAULT_FLOORS);
    plan := Plan(data, listed, now, ids, ranked.value);
    RankedWasListed(source, plan);
  }

  /** The states in which the call reads the source's embedding, the source, and the candidates. */
  function Reading(c: Config, start: Sys, others: seq<seq<Step>>): Sys { Others(c, start, Batch(others, 0)) }

  function Asking(c: Config, start: Sys, others: seq<seq<Step>>): Sys {
    Others(c, Reading(c, start, others), Batch(others, 1))
  }

  function Listing(c: Config, start: Sys, others: seq<seq<Step>>): Sys {
    Others(c, Asking(c, start, others), Batch(others, 2))
  }

  /** The plan rests on the three reads: the embedding, the clock, and the listing. */
  predicate ReadInOrder(c: Config, start: Sys, others: seq<seq<Step>>, source: PhotoId, plan: Plan) {
    && source in Reading(c, start, others).db.embeddings
    && plan.data == Reading(c, start, others).db.embeddings[source]
    && plan.now == Asking(c, start, others).clock
    && plan.listed == Listing(c, start, others)
  }

  /** The source is still the same photo of the same user when the candidates are read. */
  lemma SourceStays(c: Config, start: Sys, others: seq<seq<Step>>, source: PhotoId)
    requires Inv(c, start) && source in Reading(c, start, others).db.embeddings
    ensures var asking, listing := Asking(c, start, others).db, Listing(c, start, others).db;
      && Inv(c, Listing(c, start, others))
      && source in asking.photos && source in listing.photos && source in listing.embeddings
      && listing.photos[source].user == asking.photos[source].user
  {
    var reading, asking := Reading(c, start, others), Asking(c, start, others);
    OthersKeep(c, start, Batch(others, 0));
    OthersKeep(c, reading, Batch(others, 1));
    OthersKeep(c, asking, Batch(others, 2));
    EmbeddedStays(reading.db, asking.db, source);
    EmbeddedStays(asking.db, Listing(c, start, others).db, source);
  }

  lemma EmbeddedStays(db: Db, db': Db, p: PhotoId)
    requires Consistent(db) && Later(db, db') && p in db.embeddings
    ensures p in db.photos && p in db'.embeddings && p in db'.photos && db'.photos[p].user == db.photos[p].user
  {
    assert PhotoLater(db, db', p);
  }

  /** Everything before the first try. */
  method MakePlan(c: Config, start: Sys, source: PhotoId, others: seq<seq<Step>>)
    returns (r: Result<Option<Plan>>)
    requires Inv(c, start)
    ensures r.Err? <==> source in Reading(c, start, others).db.embeddings
                        && SourceError(Asking(c, start, others).db, source, Asking(c, start, others).clock).Some?
    ensures r.Err? ==> r.error.PhotoNotSearching?
    ensures r == Ok(None) <==> source !in Reading(c, start, others).db.embeddings
    ensures r.Ok? && r.value.Some? ==>
      Sound(source, r.value.value)
      && ReadInOrder(c, start, others, source, r.value.value)
      && Ready(c, r.value.value.listed, source, set q | q in r.value.value.ids)
      && forall i :: 0 <= i < |r.value.value.ranked| ==> r.value.value.ranked[i].photo in r.value.value.ids
  {
    var reading := Reading(c, start, others);
    if source !in reading.db.embeddings { return Ok(None); }
    SourceStays(c, start, others, source);
    var asking := Asking(c, start, others);
    var error := SourceError(asking.db, source, asking.clock);
    if error.Some? { return Err(error.value); }
    var plan := Choose(Listing(c, start, others), source, asking.db.photos[source].user, asking.clock,
                       reading.db.embeddings[source]);
    r := Ok(Some(plan));
  }

  /** `orchestrate_match`. `others[i]` are the transactions that commit before its i-th read or
      transaction. It fails only if the photo is no longer searching when candidates are listed.
      Otherwise it pairs the photo with the first candidate in rank order whose guards hold when it
      is tried, in one transaction, and does nothing else: every other change is the others'. */
  method OrchestrateMatch(c: Config, start: Sys, source: PhotoId, others: seq<seq<Step>>)
    returns (s: Sys, r: Result<Option<MatchId>>, plan: Option<Plan>, tried: seq<Sys>)
    requires Inv(c, start)
    ensures r.Err? ==> r.error.PhotoNotSearching?
    ensures r.Err? <==> source in Reading(c, start, others).db.embeddings
                        && SourceError(Asking(c, start, others).db, source, Asking(c, start, others).clock).Some?
    ensures plan.None? <==> r.Err? || source !in Reading(c, start, others).db.embeddings
    ensures plan.None? ==>
      (r.Ok? ==> r.value.None?) && s == if r.Err? then Asking(c, start, others) else Reading(c, start, others)
    ensures plan.Some? ==> r.Ok? && Sound(source, plan.value) && ReadInOrder(c, start, others, source, plan.value)
    ensures plan.Some? && r.value.Some? ==>
      Succeeded(c, plan.value.listed, source, plan.value.ranked, tried, Rest(others), s, r.value.value)
    ensures plan.Some? && r.value.None? ==>
      TriedInOrder(c, plan.value.listed, source, plan.value.ranked, tried, Rest(others), false)
      && |tried| == |plan.value.ranked| && s == Last(plan.value.listed, tried)
  {
    plan, tried := None, [];
    var planned := MakePlan(c, start, source, others);
    if planned.Err? { return Asking(c, start, others), Err(planned.error), plan, tried; }
    if planned.value.None? { return Reading(c, start, others), Ok(None), plan, tried; }
    plan := planned.value;
    s, r, tried := TryCandidates(c, plan.value.listed, source, plan.value.ranked, Rest(others),
                                 set q | q in plan.value.ids);
  }

  function Rest(others: seq<seq<Step>>): seq<seq<Step>> {
    if |others| < 3 then [] else others[3..]
  }

  /** If nobody interferes, the first try succeeds: the best-ranked of the listed candidates is taken. */
  lemma QuietTakesTheBest(c: Config, source: PhotoId, plan: Plan, tried: seq<Sys>, success: bool)
    requires Sound(source, plan) && Inv(c, plan.listed) && source in plan.listed.db.embeddings
    requires SourceError(plan.listed.db, source, plan.now).None? && plan.now == plan.listed.clock
    requires TriedInOrder(c, plan.listed, source, plan.ranked, tried, [], success) && tried != []
    ensures success && |tried| == 1
    ensures forall x :: x in plan.ranked ==> !Ahead(x, plan.ranked[0])
  {
    assert Interleaved(c, plan.listed, tried, [], 0) && tried[0] == plan.listed;
    RankedWasListed(source, plan);
    var q := plan.ranked[0].photo;
    assert q in plan.ids;
    assert IsCandidate(plan.listed.db, source, plan.listed.db.photos[source].user, plan.now, q);
    CandidatesArePairable(plan.listed.db, source, plan.now, q);
    assert Fits(source, plan.ranked, tried, 0);
  }
}
