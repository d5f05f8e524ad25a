/** `/users`: every user ranked by a Bayesian-average "weighted rating" that
    pulls a user's own mean toward the mean of all scores, descending. */
module Ranking {
  import opened Basics
  import opened Models
  import opened UserStats
  import Percent

  /** The number of ratings at which a user's own mean gets half the weight. */
  const Confidence: nat := 5

  /** Every score of every user (users without ratings contribute none). */
  function AllScores(users: seq<User>): seq<int>
  {
    if |users| == 0 then [] else Scores(users[0].ratings) + AllScores(users[1..])
  }

  /** `C`: the mean of all scores of all rated users, 0 when there are none. */
  function GlobalMean(users: seq<User>): real
  {
    Mean(AllScores(users))
  }

  /** The weighted rating of a user with `v` ratings of mean `R`:
      `v/(v+m)·R + m/(v+m)·C`, and 0 for a user with no ratings. */
  function Weighted(v: nat, R: real, C: real): (w: real)
    ensures v == 0 ==> w == 0.0
    ensures v > 0 ==> w * ((v + Confidence) as real) == (v as real) * R + (Confidence as real) * C
  {
    if v == 0 then 0.0
    else
      var n := (v + Confidence) as real;
      var w := (v as real / n) * R + (Confidence as real / n) * C;
      assert (v as real / n) * n == v as real;
      assert (Confidence as real / n) * n == Confidence as real;
      w
  }

  function MinReal(a: real, b: real): real { if a <= b then a else b }
  function MaxReal(a: real, b: real): real { if a >= b then a else b }

  lemma MulMonoReal(k: real, a: real, b: real)
    requires k >= 0.0 && a <= b
    ensures k * a <= k * b
  {
  }

  /** The weighted rating is a weighted average of the user's mean and the
      global mean, so it lies between the two. */
  lemma WeightedBetween(v: nat, R: real, C: real)
    requires v > 0
    ensures MinReal(R, C) <= Weighted(v, R, C) <= MaxReal(R, C)
  {
    var w := Weighted(v, R, C);
    var n := (v + Confidence) as real;
    var lo := MinReal(R, C);
    var hi := MaxReal(R, C);
    MulMonoReal(v as real, lo, R);
    MulMonoReal(v as real, R, hi);
    assert w == ((v as real) * R + 5.0 * C) / n by {
      Percent.MulZero(w - ((v as real) * R + 5.0 * C) / n, n);
    }
    Percent.DivAtLeast((v as real) * R + 5.0 * C, n, lo);
    Percent.DivAtMostReal((v as real) * R + 5.0 * C, n, hi);
  }

  /** For a fixed number of ratings, a higher own mean never ranks lower. */
  lemma WeightedMonotoneInMean(v: nat, R1: real, R2: real, C: real)
    requires R1 <= R2
    ensures Weighted(v, R1, C) <= Weighted(v, R2, C)
  {
    if v > 0 {
      var n := (v + Confidence) as real;
      MulMonoReal(v as real, R1, R2);
      var w1 := Weighted(v, R1, C);
      var w2 := Weighted(v, R2, C);
      assert (w2 - w1) * n == (v as real) * R2 - (v as real) * R1;
      if w2 < w1 {
        Percent.MulNeg(w2 - w1, n);
      }
    }
  }

  /** For an own mean above the global mean, more ratings move the weighted
      rating up, toward (and never past) the own mean. */
  lemma WeightedApproachesOwnMean(v1: nat, v2: nat, R: real, C: real)
    requires 0 < v1 < v2 && R > C
    ensures Weighted(v1, R, C) < Weighted(v2, R, C) < R
  {
    var n1 := (v1 + Confidence) as real;
    var n2 := (v2 + Confidence) as real;
    var w1 := Weighted(v1, R, C);
    var w2 := Weighted(v2, R, C);
    var d := 5.0 * (R - C);
    // w = R - d / n: the gap to the own mean shrinks as n grows.
    assert (R - w1) * n1 == d;
    assert (R - w2) * n2 == d;
    if R - w2 <= 0.0 {
      MulMonoReal(n2, R - w2, 0.0);
    }
    GapShrinks(R - w1, R - w2, n1, n2);
  }

  lemma GapShrinks(g1: real, g2: real, n1: real, n2: real)
    requires g1 * n1 == g2 * n2 && g2 > 0.0 && 0.0 < n1 < n2
    ensures g1 > g2
  {
    if g1 <= g2 {
      MulMonoReal(n1, g1, g2);
      assert g2 * n2 - g2 * n1 == g2 * (n2 - n1);
      Percent.MulNeg(-g2, n2 - n1);
    }
  }

  /** One rating of 5 against a pool mean of 3.5 is outranked by ten ratings
      averaging 4. */
  lemma FewHighRatingsRankBelowManyGoodOnes()
    ensures Weighted(1, 5.0, 3.5) == 3.75
    ensures Weighted(10, 4.0, 3.5) > Weighted(1, 5.0, 3.5)
  {
  }

  /** A user of the response: `v`, `R` and the weighted rating added to the
      stored document. */
  datatype Ranked = Ranked(user: User, v: nat, R: real, weightedRating: real)

  function Annotate(users: seq<User>, C: real): (r: seq<Ranked>)
    ensures |r| == |users|
    ensures forall i :: 0 <= i < |r| ==> r[i] == Annotated(users[i], C)
  {
    if |users| == 0 then [] else [Annotated(users[0], C)] + Annotate(users[1..], C)
  }

  function Annotated(u: User, C: real): Ranked
  {
    var v := |u.ratings|;
    var R := AverageRating(Some(u.ratings));
    Ranked(u, v, R, Weighted(v, R, C))
  }

  predicate SortedDesc(rs: seq<Ranked>)
  {
    forall i, j :: 0 <= i < j < |rs| ==> rs[i].weightedRating >= rs[j].weightedRating
  }

  function Insert(x: Ranked, rs: seq<Ranked>): (r: seq<Ranked>)
    requires SortedDesc(rs)
    ensures SortedDesc(r)
    ensures multiset(r) == multiset(rs) + multiset{x}
    ensures |r| == |rs| + 1
    ensures r[0] == x || (|rs| > 0 && r[0] == rs[0])
  {
    if |rs| == 0 then [x]
    else if x.weightedRating >= rs[0].weightedRating then [x] + rs
    else
      var rest := Insert(x, rs[1..]);
      assert rs == [rs[0]] + rs[1..];
      assert rest[0].weightedRating <= rs[0].weightedRating;
      [rs[0]] + rest
  }

  /** `$sort: { weightedRating: -1 }`: the same users, in non-increasing
      order of weighted rating. */
  function SortDesc(rs: seq<Ranked>): (r: seq<Ranked>)
    ensures SortedDesc(r)
    ensures multiset(r) == multiset(rs)
  {
    if |rs| == 0 then []
    else
      assert rs == [rs[0]] + rs[1..];
      Insert(rs[0], SortDesc(rs[1..]))
  }

  /** The `/users` response: every user exactly once, annotated against the
      global mean, ranked best first. */
  function RankUsers(users: seq<User>): (r: seq<Ranked>)
    ensures SortedDesc(r)
    ensures multiset(r) == multiset(Annotate(users, GlobalMean(users)))
    ensures |r| == |users|
  {
    var r := SortDesc(Annotate(users, GlobalMean(users)));
    assert |r| == |multiset(r)|;
    r
  }

  lemma {:induction false} AllScoresValid(users: seq<User>)
    requires forall i, k :: 0 <= i < |users| && 0 <= k < |users[i].ratings| ==> ValidScore(users[i].ratings[k].score)
    ensures forall j :: 0 <= j < |AllScores(users)| ==> ValidScore(AllScores(users)[j])
  {
    if |users| > 0 {
      AllScoresValid(users[1..]);
      var head := Scores(users[0].ratings);
      forall j | 0 <= j < |AllScores(users)|
        ensures ValidScore(AllScores(users)[j])
      {
        if j >= |head| {
          assert AllScores(users)[j] == AllScores(users[1..])[j - |head|];
        }
      }
    }
  }

  lemma {:induction false} AllScoresContains(users: seq<User>, i: nat)
    requires i < |users| && |users[i].ratings| > 0
    ensures |AllScores(users)| > 0
  {
    if i > 0 {
      AllScoresContains(users[1..], i - 1);
    }
  }

  /** When every stored score respects the schema's `[1, 5]`, every rated
      user's weighted rating is in `[1, 5]` too. */
  lemma WeightedRatingInRange(users: seq<User>, i: nat)
    requires i < |users| && |users[i].ratings| > 0
    requires forall i, k :: 0 <= i < |users| && 0 <= k < |users[i].ratings| ==> ValidScore(users[i].ratings[k].score)
    ensures 1.0 <= Annotated(users[i], GlobalMean(users)).weightedRating <= 5.0
  {
    AllScoresValid(users);
    AllScoresContains(users, i);
    MeanBounds(AllScores(users), 1, 5);
    AverageRatingInRange(users[i].ratings);
    WeightedBetween(|users[i].ratings|, AverageRating(Some(users[i].ratings)), GlobalMean(users));
  }
}
