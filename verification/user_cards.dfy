/** The "Top Freelancers" page: one card per ranked user, with the average
    rating drawn as stars and the task completion ratio. */
module UserCards {
  import opened Basics
  import opened Seqs
  import opened Models
  import UserStats
  import Ranking
  import Percent

  /** `renderStars`: `Math.floor(rating)` full stars (`true`), then
      `5 - Math.floor(rating)` empty ones (`false`); a loop bound below zero
      draws nothing. */
  function RenderStars(rating: real): (stars: seq<bool>)
    ensures |stars| == Max(0, rating.Floor) + Max(0, 5 - rating.Floor)
    ensures forall i :: 0 <= i < |stars| ==> (stars[i] <==> i < rating.Floor)
  {
    var full := Max(0, rating.Floor);
    var empty := Max(0, 5 - rating.Floor);
    seq(full, _ => true) + seq(empty, _ => false)
  }

  function CountFull(stars: seq<bool>): nat
  {
    if |stars| == 0 then 0 else (if stars[0] then 1 else 0) + CountFull(stars[1..])
  }

  lemma {:induction false} CountFullPrefix(stars: seq<bool>, k: nat)
    requires k <= |stars|
    requires forall i :: 0 <= i < |stars| ==> (stars[i] <==> i < k)
    ensures CountFull(stars) == k
  {
    if |stars| > 0 {
      if k > 0 {
        CountFullPrefix(stars[1..], k - 1);
      } else {
        CountFullPrefix(stars[1..], 0);
      }
    }
  }

  /** A rating in `[0, 5]` is drawn as exactly five stars, of which the
      whole part of the rating are full. */
  lemma FiveStars(rating: real)
    requires 0.0 <= rating <= 5.0
    ensures |RenderStars(rating)| == 5
    ensures CountFull(RenderStars(rating)) == rating.Floor
  {
    CountFullPrefix(RenderStars(rating), rating.Floor);
  }

  /** The card's average: the mean score, or 0 with no (or no) ratings. */
  function CardAverage(ratings: Option<seq<Rating>>): (avg: real)
    ensures ratings.None? || |ratings.value| == 0 ==> avg == 0.0
    ensures ratings.Some? && |ratings.value| > 0 ==>
      avg * (|ratings.value| as real) == Sum(UserStats.Scores(ratings.value)) as real
  {
    if ratings.Some? && |ratings.value| > 0 then
      (Sum(UserStats.Scores(ratings.value)) as real) / (|ratings.value| as real)
    else 0.0
  }

  /** The card shows the same average as the server's statistics and the
      `R` the ranking sorted by. */
  lemma CardAverageAgrees(u: User, C: real)
    ensures CardAverage(Some(u.ratings)) == UserStats.AverageRating(Some(u.ratings))
    ensures CardAverage(Some(u.ratings)) == Ranking.Annotated(u, C).R
  {
    var avg := UserStats.AverageRating(Some(u.ratings));
    if |u.ratings| > 0 {
      var n := |u.ratings| as real;
      var s := Sum(UserStats.Scores(u.ratings)) as real;
      assert avg * n == s;
      assert (s / n) * n == s;
      Percent.MulZero(avg - s / n, n);
    }
  }

  /** Every card whose user's scores respect the schema shows five stars. */
  lemma CardShowsFiveStars(ratings: seq<Rating>)
    requires forall i :: 0 <= i < |ratings| ==> ValidScore(ratings[i].score)
    ensures |RenderStars(CardAverage(Some(ratings)))| == 5
  {
    var avg := CardAverage(Some(ratings));
    if |ratings| > 0 {
      UserStats.AverageRatingInRange(ratings);
      CardAverageAgrees(User("", "", "", [], ratings, 0, 0, 0, None), 0.0);
    }
    FiveStars(avg);
  }

  /** `x || 0` for a numeric field that may be missing. */
  function OrZero(x: Option<int>): (v: int)
    ensures x.Some? ==> v == x.value
    ensures x.None? ==> v == 0
  {
    if x.Some? then x.value else 0
  }

  /** `x.toFixed(0)` as a number: the nearest integer, halves away from
      zero. */
  function ToFixed0(x: real): (n: int)
    ensures x >= 0.0 ==> n == Percent.MathRound(x)
    ensures x < 0.0 ==> n == -Percent.MathRound(-x)
  {
    if x >= 0.0 then Percent.MathRound(x) else -Percent.MathRound(-x)
  }

  /** The card's completion ratio: completed over completed plus overdue, as
      a whole percentage, and 0 when there are no tasks. */
  datatype Completion = Completion(completed: int, total: int, rate: int)

  function CompletionOf(completedTasks: Option<int>, overdueTasks: Option<int>): (c: Completion)
    ensures c.completed == OrZero(completedTasks)
    ensures c.total == OrZero(completedTasks) + OrZero(overdueTasks)
    ensures c.total <= 0 ==> c.rate == 0
    ensures 0 <= c.completed <= c.total && c.total > 0 ==>
      c.rate == Percent.RoundPercent(c.completed, c.total) && 0 <= c.rate <= 100
  {
    var completed := OrZero(completedTasks);
    var total := completed + OrZero(overdueTasks);
    if total > 0 then
      var ratio := (completed as real) / (total as real) * 100.0;
      ScaledRatio(completed, total);
      Completion(completed, total, ToFixed0(ratio))
    else Completion(completed, total, 0)
  }

  /** `(a / b) * 100` and `100 * a / b` are the same number. */
  lemma ScaledRatio(a: int, b: int)
    requires b > 0
    ensures (a as real) / (b as real) * 100.0 == 100.0 * (a as real) / (b as real)
  {
  }

  /** With both counters present and non-negative, the card shows the share
      of tasks completed, between 0 and 100. */
  lemma CompletionOfStoredUser(u: User)
    requires u.completedTasks >= 0 && u.overdueTasks >= 0
    ensures var c := CompletionOf(Some(u.completedTasks), Some(u.overdueTasks));
      && c.total == u.completedTasks + u.overdueTasks
      && 0 <= c.rate <= 100
      && (u.overdueTasks == 0 && u.completedTasks > 0 ==> c.rate == 100)
      && (u.completedTasks == 0 ==> c.rate == 0)
  {
  }
}
