/** `/update-streak`: the rating clean-up pass followed by the daily-streak
    state machine. Dates are whole day numbers (local midnights). */
module Streak {
  import opened Basics
  import opened Models

  datatype StreakState = StreakState(streakDays: int, lastTaskDate: Option<Time>)

  /** One streak update on day `today`: the first update starts a streak of 1,
      an update on the same day changes nothing, one on the next day extends
      the streak, one after a longer gap restarts it at 1, and one dated before
      the last update leaves the count alone; the last date becomes `today`. */
  function NextStreak(s: StreakState, today: Time): (r: StreakState)
    ensures r.lastTaskDate == Some(today)
    ensures s.lastTaskDate.None? ==> r.streakDays == 1
    ensures s.lastTaskDate.Some? ==>
      var gap := today - s.lastTaskDate.value;
      && (gap == 1 ==> r.streakDays == s.streakDays + 1)
      && (gap > 1 ==> r.streakDays == 1)
      && (gap <= 0 ==> r.streakDays == s.streakDays)
  {
    var days :=
      match s.lastTaskDate
      case None => 1
      case Some(last) =>
        var gap := today - last;
        if gap == 0 then s.streakDays
        else if gap == 1 then s.streakDays + 1
        else if gap > 1 then 1
        else s.streakDays;
    StreakState(days, Some(today))
  }

  /** A streak is at least 1 once any update has happened. */
  predicate StreakInv(s: StreakState)
  {
    s.lastTaskDate.Some? ==> s.streakDays >= 1
  }

  lemma NextStreakKeepsInv(s: StreakState, today: Time)
    requires StreakInv(s)
    ensures StreakInv(NextStreak(s, today))
    ensures NextStreak(s, today).streakDays >= 1
  {
  }

  /** Two updates on the same day are one update. */
  lemma NextStreakSameDay(s: StreakState, today: Time)
    ensures NextStreak(NextStreak(s, today), today) == NextStreak(s, today)
  {
  }

  /** The updates of a sequence of days, in order. */
  function Replay(s: StreakState, days: seq<Time>): StreakState
    decreases |days|
  {
    if |days| == 0 then s else Replay(NextStreak(s, days[0]), days[1..])
  }

  function Consecutive(start: Time, n: nat): (days: seq<Time>)
    ensures |days| == n
    ensures forall i :: 0 <= i < n ==> days[i] == start + i
  {
    seq(n, i => start + i)
  }

  lemma {:induction false} ReplayConsecutive(s: StreakState, start: Time, n: nat)
    requires s.lastTaskDate == Some(start - 1)
    ensures Replay(s, Consecutive(start, n)) == StreakState(s.streakDays + n, Some(start + n - 1))
    decreases n
  {
    if n > 0 {
      var s' := NextStreak(s, start);
      assert Consecutive(start, n)[1..] == Consecutive(start + 1, n - 1);
      ReplayConsecutive(s', start + 1, n - 1);
    }
  }

  /** After a fresh start (no earlier update, or a gap of more than a day),
      updating on `n` consecutive days leaves a streak of exactly `n`. */
  lemma ConsecutiveDaysStreak(s: StreakState, start: Time, n: nat)
    requires n > 0
    requires s.lastTaskDate.None? || s.lastTaskDate.value < start - 1
    ensures Replay(s, Consecutive(start, n)).streakDays == n
  {
    var s' := NextStreak(s, start);
    assert s'.streakDays == 1;
    assert Consecutive(start, n)[1..] == Consecutive(start + 1, n - 1);
    ReplayConsecutive(s', start + 1, n - 1);
  }

  /** The clean-up pass: a score below 1 becomes 1. */
  function ClampScores(ratings: seq<Rating>): (r: seq<Rating>)
    ensures |r| == |ratings|
    ensures forall i :: 0 <= i < |r| ==> r[i].score == Max(1, ratings[i].score)
    ensures forall i :: 0 <= i < |r| ==> r[i] == ratings[i].(score := r[i].score)
  {
    seq(|ratings|, i requires 0 <= i < |ratings| =>
      if ratings[i].score < 1 then ratings[i].(score := 1) else ratings[i])
  }

  lemma ClampScoresIdempotent(ratings: seq<Rating>)
    ensures ClampScores(ClampScores(ratings)) == ClampScores(ratings)
  {
  }

  /** Scores already in range are untouched, and the pass brings every score
      at most 5 into the schema's range. */
  lemma ClampScoresRange(ratings: seq<Rating>)
    requires forall i :: 0 <= i < |ratings| ==> ratings[i].score <= 5
    ensures forall i :: 0 <= i < |ratings| ==> ValidScore(ClampScores(ratings)[i].score)
    ensures (forall i :: 0 <= i < |ratings| ==> ValidScore(ratings[i].score)) ==> ClampScores(ratings) == ratings
  {
  }

  datatype StreakError = UserNotFound | SaveRejected

  /** Some score is above the schema's maximum of 5. The clean-up pass only
      raises low scores, so such a score survives it and the validator of
      `save()` rejects the document. */
  predicate HasScoreAboveMax(ratings: seq<Rating>)
  {
    exists i :: 0 <= i < |ratings| && ratings[i].score > 5
  }

  /** `/update-streak` for the user found (or not) and today's day number: an
      unknown user is a 404; a cleaned document that still breaks the score
      range fails to save, which the route answers with a 500 and nothing
      stored; otherwise the cleaned ratings, the new streak and today's date
      are saved. */
  function UpdateStreak(user: Option<User>, today: Time): (r: Result<User, StreakError>)
    ensures user.None? ==> r == Err(UserNotFound)
    ensures r == Err(SaveRejected) <==> user.Some? && HasScoreAboveMax(user.value.ratings)
    ensures r.Ok? ==> forall i :: 0 <= i < |r.value.ratings| ==> ValidScore(r.value.ratings[i].score)
    ensures r.Ok? ==> var u := user.value; var s := NextStreak(StreakState(u.streakDays, u.lastTaskDate), today);
      r.value == u.(ratings := ClampScores(u.ratings), streakDays := s.streakDays, lastTaskDate := s.lastTaskDate)
  {
    match user
    case None => Err(UserNotFound)
    case Some(u) =>
      var s := NextStreak(StreakState(u.streakDays, u.lastTaskDate), today);
      var cleaned := ClampScores(u.ratings);
      if exists i :: 0 <= i < |cleaned| && !ValidScore(cleaned[i].score) then Err(SaveRejected)
      else Ok(u.(ratings := cleaned, streakDays := s.streakDays, lastTaskDate := s.lastTaskDate))
  }
}
