/** Filtering and ordering of match candidates. */
module Ranking {
  import opened Results
  import opened Similarity

  datatype MatchWeights = MatchWeights(scene: real, semantic: real, objects: real,
                                       composition: real, color: real, mood: real)

  const DEFAULT_WEIGHTS := MatchWeights(0.25, 0.25, 0.15, 0.15, 0.10, 0.10)
  const SCENE_MINIMUM := 0.45
  const SEMANTIC_MINIMUM := 0.50
  const FINAL_MINIMUM := 0.65

  function Sum(w: MatchWeights): real {
    w.scene + w.semantic + w.objects + w.composition + w.color + w.mood
  }

  /** What the MatchWeights constructor accepts: the sum may miss 1 by a billionth. */
  predicate ValidWeights(w: MatchWeights) {
    && w.scene >= 0.0 && w.semantic >= 0.0 && w.objects >= 0.0
    && w.composition >= 0.0 && w.color >= 0.0 && w.mood >= 0.0
    && -0.000000001 <= Sum(w) - 1.0 <= 0.000000001
  }

  datatype MatchCandidate = MatchCandidate(photo: nat, scores: FeatureScores)

  /** `finalScore` counts millionths: the score rounded to six decimals. */
  datatype RankedCandidate = RankedCandidate(photo: nat, scores: FeatureScores, finalScore: int)

  datatype Floors = Floors(scene: real, semantic: real, final: real)

  const DEFAULT_FLOORS := Floors(SCENE_MINIMUM, SEMANTIC_MINIMUM, FINAL_MINIMUM)

  function RawScore(s: FeatureScores, w: MatchWeights): real {
    s.scene * w.scene + s.semantic * w.semantic + s.objects * w.objects
    + s.composition * w.composition + s.color * w.color + s.mood * w.mood
  }

  /** round(x, 6), in millionths: to the nearest, a tie to the even neighbour. */
  function Round6(x: real): int {
    var y := x * 1000000.0;
    var f := y.Floor;
    var d := y - f as real;
    if d < 0.5 || (d == 0.5 && f % 2 == 0) then f else f + 1
  }

  predicate Passes(c: MatchCandidate, w: MatchWeights, floors: Floors) {
    && c.scores.scene >= floors.scene
    && c.scores.semantic >= floors.semantic
    && RawScore(c.scores, w) >= floors.final
  }

  function Rank(c: MatchCandidate, w: MatchWeights): RankedCandidate {
    RankedCandidate(c.photo, c.scores, Round6(RawScore(c.scores, w)))
  }

  function Passing(cs: seq<MatchCandidate>, w: MatchWeights, floors: Floors): seq<RankedCandidate> {
    if cs == [] then [] else
      var last := cs[|cs| - 1];
      Passing(cs[..|cs| - 1], w, floors) + if Passes(last, w, floors) then [Rank(last, w)] else []
  }

  // What a candidate is worth, independently of how it is computed.

  /** The scores and the weights as vectors, feature by feature. */
  function Total(s: FeatureScores, w: MatchWeights): real {
    Dot([s.scene, s.semantic, s.objects, s.composition, s.color, s.mood],
        [w.scene, w.semantic, w.objects, w.composition, w.color, w.mood])
  }

  /** The nearest integer; of two, the even one. */
  predicate Nearest(y: real, n: int) {
    -0.5 < n as real - y < 0.5 || ((n as real - y == 0.5 || n as real - y == -0.5) && n % 2 == 0)
  }

  /** What may be published for a candidate, if anything. */
  predicate Published(c: MatchCandidate, w: MatchWeights, floors: Floors, x: RankedCandidate) {
    && c.scores.scene >= floors.scene && c.scores.semantic >= floors.semantic && Total(c.scores, w) >= floors.final
    && x.photo == c.photo && x.scores == c.scores && Nearest(Total(c.scores, w) * 1000000.0, x.finalScore)
  }

  lemma TotalIsRaw(s: FeatureScores, w: MatchWeights)
    ensures Total(s, w) == RawScore(s, w)
  {
    DotOfSix(s.scene, s.semantic, s.objects, s.composition, s.color, s.mood,
             w.scene, w.semantic, w.objects, w.composition, w.color, w.mood);
  }

  lemma DotOfSix(a: real, b: real, c: real, d: real, e: real, f: real,
                 p: real, q: real, r: real, s: real, t: real, u: real)
    ensures Dot([a, b, c, d, e, f], [p, q, r, s, t, u]) == a * p + b * q + c * r + d * s + e * t + f * u
  {
    assert [a, b, c, d, e, f][..5] == [a, b, c, d, e] && [p, q, r, s, t, u][..5] == [p, q, r, s, t];
    assert [a, b, c, d, e][..4] == [a, b, c, d] && [p, q, r, s, t][..4] == [p, q, r, s];
    assert [a, b, c, d][..3] == [a, b, c] && [p, q, r, s][..3] == [p, q, r];
    assert [a, b, c][..2] == [a, b] && [p, q, r][..2] == [p, q];
    assert [a, b][..1] == [a] && [p, q][..1] == [p] && [a][..0] == [] && [p][..0] == [];
    assert Dot([a], [p]) == a * p;
    assert Dot([a, b], [p, q]) == a * p + b * q;
    assert Dot([a, b, c], [p, q, r]) == a * p + b * q + c * r;
    assert Dot([a, b, c, d], [p, q, r, s]) == a * p + b * q + c * r + d * s;
    assert Dot([a, b, c, d, e], [p, q, r, s, t]) == a * p + b * q + c * r + d * s + e * t;
  }

  lemma NearestUnique(y: real, m: int, n: int)
    requires Nearest(y, m) && Nearest(y, n)
    ensures m == n
  {}

  lemma PublishedIs(c: MatchCandidate, w: MatchWeights, floors: Floors, x: RankedCandidate)
    ensures Published(c, w, floors, x) <==> Passes(c, w, floors) && x == Rank(c, w)
  {
    TotalIsRaw(c.scores, w);
    var y := RawScore(c.scores, w) * 1000000.0;
    assert Nearest(y, Round6(RawScore(c.scores, w)));
    if Published(c, w, floors, x) { NearestUnique(y, x.finalScore, Round6(RawScore(c.scores, w))); }
  }

  /** Each score counts with its own weight, and nothing else does. */
  lemma OwnWeights(s: FeatureScores, w: MatchWeights, d: real)
    ensures RawScore(s.(scene := s.scene + d), w) == RawScore(s, w) + d * w.scene
    ensures RawScore(s.(semantic := s.semantic + d), w) == RawScore(s, w) + d * w.semantic
    ensures RawScore(s.(objects := s.objects + d), w) == RawScore(s, w) + d * w.objects
    ensures RawScore(s.(composition := s.composition + d), w) == RawScore(s, w) + d * w.composition
    ensures RawScore(s.(color := s.color + d), w) == RawScore(s, w) + d * w.color
    ensures RawScore(s.(mood := s.mood + d), w) == RawScore(s, w) + d * w.mood
    ensures RawScore(FeatureScores(0.0, 0.0, 0.0, 0.0, 0.0, 0.0), w) == 0.0
  {
    Split(s.scene, d, w.scene);
    Split(s.semantic, d, w.semantic);
    Split(s.objects, d, w.objects);
    Split(s.composition, d, w.composition);
    Split(s.color, d, w.color);
    Split(s.mood, d, w.mood);
  }

  lemma Split(x: real, d: real, w: real)
    ensures (x + d) * w == x * w + d * w
  {}

  /** Without weights of its own a call scores a candidate by a quarter for scene and semantics, 15 percent
      for objects and composition, and a tenth for color and mood; it drops it below 0.45 for the scene,
      0.5 for semantics, or 0.65 in all. */
  lemma DefaultRanking(c: MatchCandidate, x: RankedCandidate)
    ensures var s := c.scores;
      var total := 0.25 * s.scene + 0.25 * s.semantic + 0.15 * s.objects + 0.15 * s.composition
                   + 0.1 * s.color + 0.1 * s.mood;
      Published(c, DEFAULT_WEIGHTS, DEFAULT_FLOORS, x)
      <==> s.scene >= 0.45 && s.semantic >= 0.5 && total >= 0.65
           && x.photo == c.photo && x.scores == s && Nearest(total * 1000000.0, x.finalScore)
  {
    TotalIsRaw(c.scores, DEFAULT_WEIGHTS);
  }

  /** The sort key: higher score first, then lower id. */
  predicate Ahead(a: RankedCandidate, b: RankedCandidate) {
    a.finalScore > b.finalScore || (a.finalScore == b.finalScore && a.photo < b.photo)
  }

  predicate Ordered(s: seq<RankedCandidate>) {
    forall i, j :: 0 <= i < j < |s| ==> !Ahead(s[j], s[i])
  }

  function InsertRanked(x: RankedCandidate, s: seq<RankedCandidate>): (r: seq<RankedCandidate>)
    requires Ordered(s)
    ensures Ordered(r) && multiset(r) == multiset(s) + multiset{x}
  {
    if s == [] then [x]
    else if Ahead(s[0], x) then
      var rest := InsertRanked(x, s[1..]);
      HeadStays(x, s, rest);
      [s[0]] + rest
    else
      [x] + s
  }

  lemma HeadStays(x: RankedCandidate, s: seq<RankedCandidate>, rest: seq<RankedCandidate>)
    requires s != [] && Ordered(s) && Ahead(s[0], x)
    requires Ordered(rest) && multiset(rest) == multiset(s[1..]) + multiset{x}
    ensures Ordered([s[0]] + rest) && multiset([s[0]] + rest) == multiset(s) + multiset{x}
  {
    assert s == [s[0]] + s[1..];
    forall i | 0 <= i < |rest| ensures !Ahead(rest[i], s[0]) {
      assert rest[i] in multiset(rest);
      assert rest[i] == x || rest[i] in s[1..];
    }
  }

  /** A stable sort. */
  function SortRanked(s: seq<RankedCandidate>): (r: seq<RankedCandidate>)
    ensures Ordered(r) && multiset(r) == multiset(s)
  {
    if s == [] then [] else
      assert s == [s[0]] + s[1..];
      InsertRanked(s[0], SortRanked(s[1..]))
  }

  /** The candidates that pass the three floors, best first. */
  method RankCandidates(candidates: seq<MatchCandidate>, weights: Option<MatchWeights>, floors: Floors)
    returns (r: Result<seq<RankedCandidate>>)
    requires weights.Some? ==> ValidWeights(weights.value)
    ensures r.Err? <==> !(Unit(floors.scene) && Unit(floors.semantic) && Unit(floors.final))
    ensures r.Ok? ==>
      var w := if weights.Some? then weights.value else DEFAULT_WEIGHTS;
      && Ordered(r.value)
      && multiset(r.value) == multiset(Passing(candidates, w, floors))
      && r.value == SortRanked(Passing(candidates, w, floors))
      && (forall x :: x in r.value <==> exists c :: c in candidates && Published(c, w, floors, x))
      && (forall i, j :: 0 <= i < j < |r.value| ==>
            r.value[i].finalScore > r.value[j].finalScore
            || (r.value[i].finalScore == r.value[j].finalScore && r.value[i].photo <= r.value[j].photo))
  {
    var resolved := if weights.Some? then weights.value else DEFAULT_WEIGHTS;
    if !(Unit(floors.scene) && Unit(floors.semantic) && Unit(floors.final)) {
      return Err(InvalidArgument);
    }
    var ranked: seq<RankedCandidate> := [];
    for i := 0 to |candidates|
      invariant ranked == Passing(candidates[..i], resolved, floors)
    {
      var candidate := candidates[i];
      assert candidates[..i + 1][..i] == candidates[..i];
      if candidate.scores.scene < floors.scene { continue; }
      if candidate.scores.semantic < floors.semantic { continue; }
      var finalScore := RawScore(candidate.scores, resolved);
      if finalScore >= floors.final {
        ranked := ranked + [RankedCandidate(candidate.photo, candidate.scores, Round6(finalScore))];
      }
    }
    assert candidates[..|candidates|] == candidates;
    r := Ok(SortRanked(ranked));
    RankedArePublished(candidates, resolved, floors);
  }

  lemma RankedArePublished(cs: seq<MatchCandidate>, w: MatchWeights, floors: Floors)
    ensures forall x :: x in SortRanked(Passing(cs, w, floors)) <==> exists c :: c in cs && Published(c, w, floors, x)
  {
    var passing := Passing(cs, w, floors);
    forall x ensures x in SortRanked(passing) <==> exists c :: c in cs && Published(c, w, floors, x) {
      assert x in SortRanked(passing) <==> x in multiset(SortRanked(passing));
      assert x in passing <==> x in multiset(passing);
      PassingExactly(cs, w, floors, x);
      forall c ensures Published(c, w, floors, x) <==> Passes(c, w, floors) && x == Rank(c, w) {
        PublishedIs(c, w, floors, x);
      }
    }
  }

  /** A candidate that may be published and has the highest published score, or none if none may. */
  ghost predicate IsBest(cs: seq<MatchCandidate>, w: MatchWeights, floors: Floors, best: Option<RankedCandidate>) {
    match best
    case None => forall c, x :: c in cs ==> !Published(c, w, floors, x)
    case Some(b) =>
      && (exists c :: c in cs && Published(c, w, floors, b))
      && forall c, x :: c in cs && Published(c, w, floors, x) ==> x.finalScore <= b.finalScore
  }

  lemma HeadIsBest(cs: seq<MatchCandidate>, w: MatchWeights, floors: Floors, s: seq<RankedCandidate>)
    requires Ordered(s) && forall x :: x in s <==> exists c :: c in cs && Published(c, w, floors, x)
    ensures IsBest(cs, w, floors, if s == [] then None else Some(s[0]))
  {
    if s != [] { assert s[0] in s; }
    forall c, x | c in cs && Published(c, w, floors, x) ensures s != [] && x.finalScore <= s[0].finalScore {
      assert x in s;
    }
  }

  method SelectBestCandidate(candidates: seq<MatchCandidate>, weights: Option<MatchWeights>, floors: Floors)
    returns (r: Result<Option<RankedCandidate>>)
    requires weights.Some? ==> ValidWeights(weights.value)
    ensures r.Err? <==> !(Unit(floors.scene) && Unit(floors.semantic) && Unit(floors.final))
    ensures r.Ok? ==>
      var w := if weights.Some? then weights.value else DEFAULT_WEIGHTS;
      var passing := Passing(candidates, w, floors);
      && (r.value.None? <==> passing == [])
      && (r.value.Some? ==> r.value.value in passing
                            && forall x :: x in passing ==> !Ahead(x, r.value.value))
      && IsBest(candidates, w, floors, r.value)
  {
    var ranked := RankCandidates(candidates, weights, floors);
    match ranked
    case Err(e) => r := Err(e);
    case Ok(s) =>
      ghost var w := if weights.Some? then weights.value else DEFAULT_WEIGHTS;
      ghost var passing := Passing(candidates, w, floors);
      assert |s| == |multiset(s)| == |multiset(passing)| == |passing|;
      assert forall x :: x in passing <==> x in multiset(s);
      assert forall x :: x in passing ==> x in s;
      assert s != [] ==> s[0] in multiset(s);
      HeadIsBest(candidates, w, floors, s);
      r := Ok(if s == [] then None else Some(s[0]));
  }

  // What the ranking means.

  /** Exactly the candidates passing the three floors are ranked. */
  lemma {:induction false} PassingExactly(cs: seq<MatchCandidate>, w: MatchWeights, floors: Floors, x: RankedCandidate)
    ensures x in Passing(cs, w, floors) <==> exists c :: c in cs && Passes(c, w, floors) && x == Rank(c, w)
  {
    if cs != [] {
      var last := cs[|cs| - 1];
      PassingExactly(cs[..|cs| - 1], w, floors, x);
      assert cs == cs[..|cs| - 1] + [last];
      assert forall c :: c in cs <==> c in cs[..|cs| - 1] || c == last;
    }
  }

  predicate DistinctIds(s: seq<RankedCandidate>) {
    forall i, j :: 0 <= i < j < |s| ==> s[i].photo != s[j].photo
  }

  lemma {:induction false} OrderUnique(s: seq<RankedCandidate>, t: seq<RankedCandidate>)
    requires Ordered(s) && Ordered(t) && DistinctIds(s) && DistinctIds(t)
    requires forall x :: x in s <==> x in t
    ensures s == t
    decreases |s|
  {
    assert 0 < |t| ==> t[0] in t;
    if s != [] {
      assert s[0] in s && t != [];
      SameHead(s, t);
      forall x ensures x in s[1..] <==> x in t[1..] {
        InTail(s, x);
        InTail(t, x);
      }
      OrderUnique(s[1..], t[1..]);
    }
  }

  lemma SameHead(s: seq<RankedCandidate>, t: seq<RankedCandidate>)
    requires Ordered(s) && Ordered(t) && DistinctIds(s) && s != [] && s[0] in t && t[0] in s
    ensures s[0] == t[0]
  {
    var i :| 0 <= i < |t| && t[i] == s[0];
    var j :| 0 <= j < |s| && s[j] == t[0];
  }

  lemma InTail(s: seq<RankedCandidate>, x: RankedCandidate)
    requires s != [] && DistinctIds(s)
    ensures x in s[1..] <==> x in s && x != s[0]
  {}

  lemma {:induction false} PassingDistinct(cs: seq<MatchCandidate>, w: MatchWeights, floors: Floors)
    requires forall i, j :: 0 <= i < j < |cs| ==> cs[i].photo != cs[j].photo
    ensures DistinctIds(Passing(cs, w, floors))
    ensures forall x :: x in Passing(cs, w, floors) ==> exists i :: 0 <= i < |cs| && cs[i].photo == x.photo
  {
    if cs != [] {
      var n := |cs| - 1;
      PassingDistinct(cs[..n], w, floors);
      var before := Passing(cs[..n], w, floors);
      forall x | x in before ensures exists i :: 0 <= i < n && cs[i].photo == x.photo {
        var i :| 0 <= i < n && cs[..n][i].photo == x.photo;
        assert cs[i].photo == x.photo;
      }
      assert Rank(cs[n], w).photo == cs[n].photo;
    }
  }

  /** Sorting keeps ids distinct. */
  lemma DistinctPermuted(s: seq<RankedCandidate>, r: seq<RankedCandidate>)
    requires DistinctIds(s) && multiset(r) == multiset(s)
    ensures DistinctIds(r) && forall x :: x in r <==> x in s
  {
    forall x ensures x in r <==> x in s {
      assert x in multiset(r) <==> x in multiset(s);
    }
    forall i, j | 0 <= i < j < |r| ensures r[i].photo != r[j].photo {
      if r[i].photo == r[j].photo {
        var x := r[i];
        assert r[i] in s && r[j] in s;
        assert r[j] == x;
        assert r == r[..i] + [x] + r[i + 1..j] + [x] + r[j + 1..];
        assert multiset(r)[x] >= 2;
        OnlyOnce(s, x);
      }
    }
  }

  lemma {:induction false} OnlyOnce(s: seq<RankedCandidate>, x: RankedCandidate)
    requires DistinctIds(s)
    ensures multiset(s)[x] <= 1
  {
    if s != [] {
      OnlyOnce(s[1..], x);
      assert s == [s[0]] + s[1..];
      if x == s[0] { assert x !in s[1..]; }
    }
  }

  /** For distinct ids the ranking depends on which candidates there are, not on their order. */
  lemma RankingIgnoresInputOrder(cs: seq<MatchCandidate>, ds: seq<MatchCandidate>, w: MatchWeights, floors: Floors)
    requires forall c :: c in cs <==> c in ds
    requires forall i, j :: 0 <= i < j < |cs| ==> cs[i].photo != cs[j].photo
    requires forall i, j :: 0 <= i < j < |ds| ==> ds[i].photo != ds[j].photo
    ensures SortRanked(Passing(cs, w, floors)) == SortRanked(Passing(ds, w, floors))
  {
    var p, q := Passing(cs, w, floors), Passing(ds, w, floors);
    PassingDistinct(cs, w, floors);
    PassingDistinct(ds, w, floors);
    forall x ensures x in p <==> x in q {
      PassingExactly(cs, w, floors, x);
      PassingExactly(ds, w, floors, x);
    }
    DistinctPermuted(p, SortRanked(p));
    DistinctPermuted(q, SortRanked(q));
    OrderUnique(SortRanked(p), SortRanked(q));
  }

  // Bounds and rounding.

  function Weighted(score: real, weight: real): (p: real)
    requires Unit(score) && weight >= 0.0
    ensures 0.0 <= p <= weight
  {
    score * weight
  }

  /** Raw scores lie between 0 and the sum of the weights. */
  lemma RawScoreBounds(s: FeatureScores, w: MatchWeights)
    requires InRange(s) && ValidWeights(w)
    ensures 0.0 <= RawScore(s, w) <= Sum(w)
  {
    var a, b, c := Weighted(s.scene, w.scene), Weighted(s.semantic, w.semantic), Weighted(s.objects, w.objects);
    var d, e, f := Weighted(s.composition, w.composition), Weighted(s.color, w.color), Weighted(s.mood, w.mood);
    assert RawScore(s, w) == a + b + c + d + e + f;
  }

  lemma RoundWithinHalf(x: real)
    ensures -0.5 <= Round6(x) as real - x * 1000000.0 <= 0.5
  {}

  /** The constructor lets the weights sum to a little more than 1, but rounding absorbs it: the
      published score never leaves [0, 1]. */
  lemma FinalScoreBounds(s: FeatureScores, w: MatchWeights)
    requires InRange(s) && ValidWeights(w)
    ensures 0 <= Round6(RawScore(s, w)) <= 1000000
    ensures Sum(w) <= 1.0 ==> Unit(RawScore(s, w))
  {
    RawScoreBounds(s, w);
    RoundWithinHalf(RawScore(s, w));
  }

  const PERFECT := FeatureScores(1.0, 1.0, 1.0, 1.0, 1.0, 1.0)

  /** Exactly when raw scores stay in [0, 1] as well: if and only if the weights do not sum to more than 1. */
  lemma RawScoreInRangeIff(w: MatchWeights)
    requires ValidWeights(w)
    ensures (forall s :: InRange(s) ==> Unit(RawScore(s, w))) <==> Sum(w) <= 1.0
  {
    assert InRange(PERFECT) && RawScore(PERFECT, w) == Sum(w);
    forall s | InRange(s) ensures 0.0 <= RawScore(s, w) <= Sum(w) { RawScoreBounds(s, w); }
  }

  /** Accepted weights under which a perfect raw score is more than 1. */
  lemma RawScorePassesOne() returns (w: MatchWeights)
    ensures ValidWeights(w) && InRange(PERFECT) && RawScore(PERFECT, w) > 1.0
  {
    w := DEFAULT_WEIGHTS.(scene := 0.2500000005);
  }

  /** Rounding respects the order of scores, except that it can merge scores up to a millionth
      apart: whoever is ranked ahead has a raw score at least the other's minus a millionth. */
  lemma AheadByRawScore(a: MatchCandidate, b: MatchCandidate, w: MatchWeights)
    requires !Ahead(Rank(b, w), Rank(a, w))
    ensures RawScore(a.scores, w) >= RawScore(b.scores, w) - 0.000001
  {
    RoundWithinHalf(RawScore(a.scores, w));
    RoundWithinHalf(RawScore(b.scores, w));
  }

  lemma RoundMonotone(x: real, y: real)
    requires x <= y
    ensures Round6(x) <= Round6(y)
  {
    assert x * 1000000.0 <= y * 1000000.0;
  }

  /** Exactly when rounding reorders two candidates: one with the smaller raw score is ranked ahead if and
      only if both round alike and it has the lower id. */
  lemma RankedAgainstScoreIff(a: MatchCandidate, b: MatchCandidate, w: MatchWeights)
    requires RawScore(a.scores, w) < RawScore(b.scores, w)
    ensures Ahead(Rank(a, w), Rank(b, w))
            <==> Round6(RawScore(a.scores, w)) == Round6(RawScore(b.scores, w)) && a.photo < b.photo
  {
    RoundMonotone(RawScore(a.scores, w), RawScore(b.scores, w));
  }

  /** A strictly smaller raw score can be ranked ahead, by its id, when both round alike. */
  lemma RoundingCanReorder() returns (a: MatchCandidate, b: MatchCandidate)
    ensures InRange(a.scores) && InRange(b.scores)
    ensures RawScore(a.scores, DEFAULT_WEIGHTS) < RawScore(b.scores, DEFAULT_WEIGHTS)
    ensures Ahead(Rank(a, DEFAULT_WEIGHTS), Rank(b, DEFAULT_WEIGHTS))
  {
    a := MatchCandidate(1, FeatureScores(0.8, 0.8, 0.8, 0.8, 0.8, 0.8));
    b := MatchCandidate(2, FeatureScores(0.8, 0.8, 0.8, 0.8, 0.8, 0.800001));
  }
}
