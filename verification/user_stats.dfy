/** The statistics a user's dashboard shows (`/user-stats`): task counters and
    on-time rate, skill distribution, average rating and recent activity; and
    the collaborator on-time rate (`/collaborator-on-time-rate`). The populated
    projects of the user are an input; the database queries are not modelled. */
module UserStats {
  import opened Basics
  import opened Seqs
  import opened Models
  import Percent

  // ---------------------------------------------------------------- ratings

  function Scores(ratings: seq<Rating>): (r: seq<int>)
    ensures |r| == |ratings|
    ensures forall i :: 0 <= i < |r| ==> r[i] == ratings[i].score
  {
    if |ratings| == 0 then [] else [ratings[0].score] + Scores(ratings[1..])
  }

  /** The arithmetic mean of a list of scores, 0 for an empty list. */
  function Mean(xs: seq<int>): (r: real)
    ensures |xs| == 0 ==> r == 0.0
    ensures |xs| > 0 ==> r * (|xs| as real) == Sum(xs) as real
  {
    if |xs| == 0 then 0.0 else Sum(xs) as real / |xs| as real
  }

  /** The mean of values in `[lo, hi]` is in `[lo, hi]`. */
  lemma MeanBounds(xs: seq<int>, lo: int, hi: int)
    requires |xs| > 0
    requires forall i :: 0 <= i < |xs| ==> lo <= xs[i] <= hi
    ensures lo as real <= Mean(xs) <= hi as real
  {
    SumBounds(xs, lo, hi);
    var n := |xs| as real;
    var total := Sum(xs) as real;
    Percent.CastMul(|xs|, lo);
    Percent.CastMul(|xs|, hi);
    assert (lo as real) * n <= total <= (hi as real) * n;
    assert Mean(xs) == total / n;
    Percent.DivAtLeast(total, n, lo as real);
    Percent.DivAtMostReal(total, n, hi as real);
  }

  /** `calculateAverageRating`: 0 for a missing or empty list, else the mean
      score. */
  function AverageRating(ratings: Option<seq<Rating>>): (r: real)
    ensures ratings.None? || |ratings.value| == 0 ==> r == 0.0
    ensures ratings.Some? && |ratings.value| > 0 ==>
      r * (|ratings.value| as real) == Sum(Scores(ratings.value)) as real
  {
    if ratings.None? || |ratings.value| == 0 then 0.0 else Mean(Scores(ratings.value))
  }

  /** With every score inside the schema's `[1, 5]`, a non-empty average is
      inside it too. */
  lemma AverageRatingInRange(ratings: seq<Rating>)
    requires |ratings| > 0
    requires forall i :: 0 <= i < |ratings| ==> ValidScore(ratings[i].score)
    ensures 1.0 <= AverageRating(Some(ratings)) <= 5.0
  {
    MeanBounds(Scores(ratings), 1, 5);
  }

  // ------------------------------------------------------------ task counts

  /** Every task of every project, in project order then task order. */
  function AllTasks(projects: seq<Project>): (r: seq<Task>)
  {
    if |projects| == 0 then [] else projects[0].tasks + AllTasks(projects[1..])
  }

  lemma {:induction false} AllTasksSnoc(projects: seq<Project>, i: nat)
    requires i < |projects|
    ensures AllTasks(projects[..i + 1]) == AllTasks(projects[..i]) + projects[i].tasks
  {
    if i == 0 {
      assert projects[..1][1..] == [];
    } else {
      assert projects[..i + 1][1..] == projects[1..][..i];
      assert projects[..i][1..] == projects[1..][..i - 1];
      AllTasksSnoc(projects[1..], i - 1);
    }
  }

  predicate IsDone(t: Task)
  {
    t.status == Completed
  }

  /** Completed, with a completion time no later than the deadline. */
  predicate IsOnTime(t: Task)
  {
    t.status == Completed && t.completedOn.Some? && t.completedOn.value <= t.deadline
  }

  /** The three counters of `/user-stats`, computed with the same nested loops
      as the route: total tasks, completed tasks, and completed tasks finished
      by their deadline. */
  method TaskCounters(projects: seq<Project>) returns (completed: nat, total: nat, onTime: nat)
    ensures total == |AllTasks(projects)|
    ensures completed == |Filter(AllTasks(projects), IsDone)|
    ensures onTime == |Filter(AllTasks(projects), IsOnTime)|
    ensures onTime <= completed <= total
  {
    completed, total, onTime := 0, 0, 0;
    var i := 0;
    while i < |projects|
      invariant 0 <= i <= |projects|
      invariant total == |AllTasks(projects[..i])|
      invariant completed == |Filter(AllTasks(projects[..i]), IsDone)|
      invariant onTime == |Filter(AllTasks(projects[..i]), IsOnTime)|
    {
      var done := AllTasks(projects[..i]);
      var tasks := projects[i].tasks;
      var j := 0;
      assert done + tasks[..0] == done;
      while j < |tasks|
        invariant 0 <= j <= |tasks|
        invariant total == |done + tasks[..j]|
        invariant completed == |Filter(done + tasks[..j], IsDone)|
        invariant onTime == |Filter(done + tasks[..j], IsOnTime)|
      {
        var t := tasks[j];
        assert done + tasks[..j + 1] == (done + tasks[..j]) + [t];
        FilterAppend(done + tasks[..j], [t], IsDone);
        FilterAppend(done + tasks[..j], [t], IsOnTime);
        total := total + 1;
        if t.status == Completed {
          completed := completed + 1;
          if t.completedOn.Some? && t.completedOn.value <= t.deadline {
            onTime := onTime + 1;
          }
        }
        j := j + 1;
      }
      assert tasks[..j] == tasks;
      AllTasksSnoc(projects, i);
      i := i + 1;
    }
    assert projects[..i] == projects;
    FilterWeaker(AllTasks(projects), IsOnTime, IsDone);
    FilterLength(AllTasks(projects), IsDone);
  }

  // ------------------------------------------------------------ skill counts

  /** Every skill entry of every task, repetitions included. */
  function AllSkills(tasks: seq<Task>): seq<string>
  {
    if |tasks| == 0 then [] else tasks[0].skills + AllSkills(tasks[1..])
  }

  /** `skillCounts[skill] = (skillCounts[skill] || 0) + 1` over the entries in
      order: each skill present maps to its number of occurrences. */
  function SkillCounts(skills: seq<string>): (r: map<string, nat>)
    ensures forall s :: s in r <==> s in skills
    ensures forall s :: s in r ==> r[s] == multiset(skills)[s]
  {
    if |skills| == 0 then map[]
    else
      var prefix := skills[..|skills| - 1];
      var s := skills[|skills| - 1];
      var m := SkillCounts(prefix);
      assert skills == prefix + [s];
      m[s := (if s in m then m[s] else 0) + 1]
  }

  /** The distinct skills in order of first occurrence: the keys of the
      distribution object, in insertion order. */
  function DistinctSkills(skills: seq<string>): (r: seq<string>)
    ensures forall s :: s in r <==> s in skills
    ensures forall i, j :: 0 <= i < j < |r| ==> r[i] != r[j]
    ensures forall i, j :: 0 <= i < j < |r| ==> FirstIndex(skills, r[i]) < FirstIndex(skills, r[j])
  {
    if |skills| == 0 then []
    else
      var prefix := skills[..|skills| - 1];
      var s := skills[|skills| - 1];
      assert skills == prefix + [s];
      var d := DistinctSkills(prefix);
      assert forall x :: x in prefix ==> FirstIndex(skills, x) == FirstIndex(prefix, x) by {
        forall x | x in prefix
          ensures FirstIndex(skills, x) == FirstIndex(prefix, x)
        {
          FirstIndexSnoc(prefix, s, x);
        }
      }
      if s in prefix then d
      else
        FirstIndexSnoc(prefix, s, s);
        d + [s]
  }

  /** The sum of the counts `m` holds for `keys`. */
  function CountTotal(keys: seq<string>, m: map<string, nat>): nat
    requires forall i :: 0 <= i < |keys| ==> keys[i] in m
  {
    if |keys| == 0 then 0 else m[keys[0]] + CountTotal(keys[1..], m)
  }

  lemma {:induction false} CountTotalSnoc(keys: seq<string>, k: string, m: map<string, nat>)
    requires forall i :: 0 <= i < |keys| ==> keys[i] in m
    requires k in m
    ensures CountTotal(keys + [k], m) == CountTotal(keys, m) + m[k]
  {
    if |keys| > 0 {
      assert (keys + [k])[1..] == keys[1..] + [k];
      CountTotalSnoc(keys[1..], k, m);
    }
  }

  /** Raising the count of one key by one raises the total by the number of
      times that key is listed. */
  lemma {:induction false} CountTotalIncrement(keys: seq<string>, m: map<string, nat>, k: string)
    requires forall i :: 0 <= i < |keys| ==> keys[i] in m
    requires k in m
    ensures CountTotal(keys, m[k := m[k] + 1]) == CountTotal(keys, m) + multiset(keys)[k]
  {
    if |keys| > 0 {
      CountTotalIncrement(keys[1..], m, k);
      assert keys == [keys[0]] + keys[1..];
    }
  }

  lemma {:induction false} CountTotalFresh(keys: seq<string>, m: map<string, nat>, k: string, v: nat)
    requires forall i :: 0 <= i < |keys| ==> keys[i] in m
    requires k !in keys
    ensures CountTotal(keys, m[k := v]) == CountTotal(keys, m)
  {
    if |keys| > 0 {
      CountTotalFresh(keys[1..], m, k, v);
    }
  }

  lemma DistinctOnce(keys: seq<string>, k: string)
    requires forall i, j :: 0 <= i < j < |keys| ==> keys[i] != keys[j]
    requires k in keys
    ensures multiset(keys)[k] == 1
  {
    var i :| 0 <= i < |keys| && keys[i] == k;
    assert keys == keys[..i] + [k] + keys[i + 1..];
    assert k !in keys[..i];
    assert k !in keys[i + 1..];
  }

  /** The skill counts add up to the number of skill entries. */
  lemma {:induction false} SkillCountsTotal(skills: seq<string>)
    ensures CountTotal(DistinctSkills(skills), SkillCounts(skills)) == |skills|
  {
    if |skills| > 0 {
      var prefix := skills[..|skills| - 1];
      var s := skills[|skills| - 1];
      assert skills == prefix + [s];
      SkillCountsTotal(prefix);
      var m := SkillCounts(prefix);
      var d := DistinctSkills(prefix);
      if s in prefix {
        DistinctOnce(d, s);
        CountTotalIncrement(d, m, s);
      } else {
        CountTotalFresh(d, m, s, 1);
        CountTotalSnoc(d, s, m[s := 1]);
      }
    }
  }

  // --------------------------------------------------------- recent activity

  /** One task of one project, in the order `flatMap` visits them. */
  datatype Entry = Entry(projectTitle: string, task: Task)

  function Entries(projects: seq<Project>): (r: seq<Entry>)
    ensures |r| == |AllTasks(projects)|
    ensures forall i :: 0 <= i < |r| ==> r[i].task == AllTasks(projects)[i]
  {
    if |projects| == 0 then []
    else
      var p := projects[0];
      seq(|p.tasks|, i requires 0 <= i < |p.tasks| => Entry(p.title, p.tasks[i])) + Entries(projects[1..])
  }

  datatype Activity = Activity(date: Time, description: string)

  function Describe(e: Entry): string
  {
    "Updated task \"" + e.task.title + "\" in " + e.projectTitle
  }

  datatype StatsError = UserNotFound | ServerError

  /** `getRecentActivity`: the last five tasks, newest first. Every task is
      mapped before the slice, so one task without `updatedAt` makes the call
      throw, which the route turns into a server error. */
  function RecentActivity(projects: seq<Project>): (r: Result<seq<Activity>, StatsError>)
    ensures r.Ok? <==> forall t :: t in AllTasks(projects) ==> t.updatedAt.Some?
    ensures r.Err? ==> r.error == ServerError
    ensures r.Ok? ==> var es := Entries(projects);
      && |r.value| == Min(5, |es|)
      && forall i :: 0 <= i < |r.value| ==>
           r.value[i] == Activity(es[|es| - 1 - i].task.updatedAt.value, Describe(es[|es| - 1 - i]))
  {
    var es := Entries(projects);
    if exists i :: 0 <= i < |es| && es[i].task.updatedAt.None? then Err(ServerError)
    else
      assert forall t :: t in AllTasks(projects) ==> t.updatedAt.Some?;
      Ok(NewestFirst(seq(|es|, i requires 0 <= i < |es| => Activity(es[i].task.updatedAt.value, Describe(es[i]))), 5))
  }

  // ------------------------------------------------------------ the response

  datatype Stats = Stats(
    completedTasks: nat,
    totalTasks: nat,
    onTimeRate: int,
    skillDistribution: map<string, nat>,
    averageRating: real,
    recentActivity: seq<Activity>,
    streakDays: int)

  /** `/user-stats` for the user found (or not) by id and their populated
      projects. */
  method UserStatsResponse(user: Option<User>, projects: seq<Project>) returns (r: Result<Stats, StatsError>)
    ensures user.None? ==> r == Err(UserNotFound)
    ensures user.Some? ==> (r.Ok? <==> forall t :: t in AllTasks(projects) ==> t.updatedAt.Some?)
    ensures r.Ok? ==> var s := r.value;
      && s.onTimeRate == Percent.Rate(|Filter(AllTasks(projects), IsOnTime)|, s.completedTasks)
      && 0 <= s.onTimeRate <= 100
      && s.totalTasks == |AllTasks(projects)|
      && s.completedTasks == |Filter(AllTasks(projects), IsDone)|
      && s.completedTasks <= s.totalTasks
      && s.skillDistribution == SkillCounts(AllSkills(AllTasks(projects)))
      && s.averageRating == AverageRating(Some(user.value.ratings))
      && s.recentActivity == RecentActivity(projects).value
      && s.streakDays == user.value.streakDays
  {
    if user.None? {
      return Err(UserNotFound);
    }
    var completed, total, onTime := TaskCounters(projects);
    var rate := Percent.Rate(onTime, completed);
    var skills := SkillCounts(AllSkills(AllTasks(projects)));
    var recent := RecentActivity(projects);
    if recent.Err? {
      return Err(recent.error);
    }
    r := Ok(Stats(completed, total, rate, skills, AverageRating(Some(user.value.ratings)), recent.value, user.value.streakDays));
  }

  // --------------------------------------------------- collaborator on time

  /** The test `task.collaborators.map(String).includes(userId)`. */
  function InvolvesUser(userId: UserId): Task -> bool
  {
    (t: Task) => userId in t.collaborators
  }

  /** `/collaborator-task-count`: the aggregation unwinds every task of every
      project, keeps those listing the user among their collaborators and
      counts them; an empty aggregation result reads as 0. */
  function CollaboratorTaskCount(projects: seq<Project>, userId: UserId): (n: nat)
    ensures n == |Filter(AllTasks(projects), InvolvesUser(userId))|
    ensures n <= |AllTasks(projects)|
    ensures n == 0 <==> forall t :: t in AllTasks(projects) ==> userId !in t.collaborators
  {
    var matched := Filter(AllTasks(projects), InvolvesUser(userId));
    var result := if |matched| > 0 then [|matched|] else [];
    FilterLength(AllTasks(projects), InvolvesUser(userId));
    if |matched| > 0 then
      FilterMembership(AllTasks(projects), InvolvesUser(userId), matched[0]);
      result[0]
    else
      assert forall t :: t in AllTasks(projects) ==> userId !in t.collaborators by {
        forall t | t in AllTasks(projects)
          ensures userId !in t.collaborators
        {
          FilterMembership(AllTasks(projects), InvolvesUser(userId), t);
        }
      }
      0
  }

  /** `/collaborator-on-time-rate`: among the tasks the user collaborates on,
      completed or not, the share finished on time, as a whole percentage. */
  function CollaboratorOnTimeRate(projects: seq<Project>, userId: UserId): (r: int)
    ensures var mine := Filter(AllTasks(projects), InvolvesUser(userId));
      && 0 <= r <= 100
      && (|mine| == 0 ==> r == 0)
      && (|mine| > 0 ==> r == Percent.MathRound(100.0 * (|Filter(mine, IsOnTime)| as real) / (|mine| as real)))
  {
    var mine := Filter(AllTasks(projects), InvolvesUser(userId));
    FilterLength(mine, IsOnTime);
    Percent.Rate(|Filter(mine, IsOnTime)|, |mine|)
  }

  /** The project has a task the user collaborates on. */
  predicate HasTaskOf(userId: UserId, p: Project)
  {
    exists i :: 0 <= i < |p.tasks| && userId in p.tasks[i].collaborators
  }

  lemma {:induction false} PrefilterKeepsTasks(projects: seq<Project>, userId: UserId, kept: Project -> bool)
    requires forall p :: HasTaskOf(userId, p) ==> kept(p)
    ensures Filter(AllTasks(Filter(projects, kept)), InvolvesUser(userId))
         == Filter(AllTasks(projects), InvolvesUser(userId))
  {
    if |projects| > 0 {
      var p := projects[0];
      PrefilterKeepsTasks(projects[1..], userId, kept);
      FilterAppend(p.tasks, AllTasks(projects[1..]), InvolvesUser(userId));
      if kept(p) {
        assert Filter(projects, kept) == [p] + Filter(projects[1..], kept);
        FilterAppend(p.tasks, AllTasks(Filter(projects[1..], kept)), InvolvesUser(userId));
      } else {
        var none := Filter(p.tasks, InvolvesUser(userId));
        if |none| > 0 {
          FilterMembership(p.tasks, InvolvesUser(userId), none[0]);
        }
      }
    }
  }

  /** The rate depends only on the projects holding a task the user
      collaborates on: the database query that preselects projects (or any
      coarser preselection) does not change it. */
  lemma CollaboratorRateIgnoresPrefilter(projects: seq<Project>, userId: UserId, kept: Project -> bool)
    requires forall p :: HasTaskOf(userId, p) ==> kept(p)
    ensures CollaboratorOnTimeRate(Filter(projects, kept), userId) == CollaboratorOnTimeRate(projects, userId)
  {
    PrefilterKeepsTasks(projects, userId, kept);
  }

  /** The dashboard shows the task count next to the on-time rate: the count
      is the rate's denominator, and a user without collaborator tasks has
      rate 0. */
  lemma TaskCountIsRateDenominator(projects: seq<Project>, userId: UserId)
    ensures var mine := Filter(AllTasks(projects), InvolvesUser(userId));
      CollaboratorOnTimeRate(projects, userId)
        == Percent.Rate(|Filter(mine, IsOnTime)|, CollaboratorTaskCount(projects, userId))
    ensures CollaboratorTaskCount(projects, userId) == 0 ==> CollaboratorOnTimeRate(projects, userId) == 0
  {
  }
}
