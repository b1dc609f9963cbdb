/**
 * How a task is turned into scheduler registrations: `Schedule::to_asyncjob`,
 * `EnabledTask::to_schedule2` and `RssTask::to_schedule2` in src/model.rs.
 *
 * The job scheduler is a builder: `every` opens a new job, the other calls
 * refine the last one. `AsyncScheduler` records what the builder was told,
 * job by job; when and how often the library fires a job is not modelled.
 */
module Triggers {
  import opened Wrappers
  import opened Model
  import opened TimeFormat

  datatype Interval =
    | Sunday | Monday | Tuesday | Wednesday | Thursday | Friday | Saturday
    | Days(days: nat)
    | Hours(hours: nat)

  /** One `every(..)`/`and_every(..)` with the time `at(..)` gave it. */
  datatype Registration = Registration(every: Interval, at: Option<string>)

  /** What a job runs when it fires. */
  datatype JobAction = PostFixed(task: EnabledTask) | PostRss(rss: RssTask)

  /**
   * A clokwerk job: its registrations, the one run count that `count(..)`
   * sets for the whole job (each call replacing the previous one), and its
   * action.
   */
  datatype Job = Job(registrations: seq<Registration>, count: Option<nat>, action: Option<JobAction>)

  /** The i-th weekday, Sunday first. */
  function Weekday(i: nat): Interval
    requires i < 7
  {
    [Sunday, Monday, Tuesday, Wednesday, Thursday, Friday, Saturday][i]
  }

  /** The i-th weekday flag of a schedule, Sunday first. */
  function DayFlag(s: Schedule, i: nat): bool
    requires i < 7
  {
    [s.sun, s.mon, s.tue, s.wed, s.thu, s.fri, s.sat][i]
  }

  /** `bool as usize`. */
  function BoolAsUsize(b: bool): (n: nat)
    ensures n <= 1 && (n == 1 <==> b)
  {
    if b then 1 else 0
  }

  /** The registrations of `to_asyncjob`: one per weekday, Sunday to Saturday, each at the schedule's time. */
  function WeeklyRegistrations(s: Schedule): (r: seq<Registration>)
    ensures |r| == 7
    ensures forall i :: 0 <= i < 7 ==> r[i] == Registration(Weekday(i), Some(FormatTweetAt(s.tweet_at)))
  {
    var at := Some(FormatTweetAt(s.tweet_at));
    [ Registration(Sunday, at), Registration(Monday, at), Registration(Tuesday, at),
      Registration(Wednesday, at), Registration(Thursday, at), Registration(Friday, at),
      Registration(Saturday, at) ]
  }

  /** The arguments of the seven `count(..)` calls of `to_asyncjob`, in call order. */
  function WeeklyCounts(s: Schedule): (c: seq<nat>)
    ensures |c| == 7
  {
    [ BoolAsUsize(s.sun), BoolAsUsize(s.mon), BoolAsUsize(s.tue), BoolAsUsize(s.wed),
      BoolAsUsize(s.thu), BoolAsUsize(s.fri), BoolAsUsize(s.sat) ]
  }

  /**
   * The job `to_asyncjob` leaves: every `count(..)` call replaces the job's
   * run count, so the last call, Saturday's, is the one that stays.
   */
  function WeeklyJob(s: Schedule): Job
  {
    Job(WeeklyRegistrations(s), Some(WeeklyCounts(s)[6]), None)
  }

  /** The registrations of `RssTask::to_schedule2`. */
  function RssRegistrations(t: RssTask): (r: seq<Registration>)
    ensures t.random ==> r == WeeklyRegistrations(t.schedule)
  {
    if t.random then WeeklyRegistrations(t.schedule)
    else [Registration(Days(1), Some(FormatTweetAt(t.schedule.tweet_at))), Registration(Hours(4), None)]
  }

  /** The run count of a feed job: the weekly job's for a random task, none for a polled one. */
  function RssRunCount(t: RssTask): Option<nat>
  {
    if t.random then WeeklyJob(t.schedule).count else None
  }

  /** The count call for weekday i receives 1 exactly when its flag is set, and 0 otherwise. */
  lemma WeeklyCountsFollowFlags(s: Schedule, i: nat)
    requires i < 7
    ensures WeeklyCounts(s)[i] == 1 <==> DayFlag(s, i)
    ensures WeeklyCounts(s)[i] == 0 <==> !DayFlag(s, i)
  {
  }

  /** The job's run count is 1 exactly when Saturday is enabled, and 0 otherwise. */
  lemma WeeklyRunCountIsSaturdays(s: Schedule)
    ensures WeeklyJob(s).count == Some(1) <==> s.sat
    ensures WeeklyJob(s).count == Some(0) <==> !s.sat
  {
  }

  /**
   * The flags of Sunday to Friday do not reach the job: two schedules with
   * the same time and the same Saturday flag give the same job.
   */
  lemma WeekdayFlagsIgnored(s1: Schedule, s2: Schedule)
    requires s1.tweet_at == s2.tweet_at && s1.sat == s2.sat
    ensures WeeklyJob(s1) == WeeklyJob(s2)
  {
  }

  /** For example, a schedule enabled Monday to Friday only gets the run count 0. */
  lemma WorkdaysOnlyGetsCountZero(s: Schedule)
    requires !s.sun && s.mon && s.tue && s.wed && s.thu && s.fri && !s.sat
    ensures WeeklyJob(s).count == Some(0)
    ensures forall i :: 1 <= i <= 5 ==> WeeklyCounts(s)[i] == 1
  {
  }

  /** The weekdays appear in order, Sunday first, each exactly once. */
  lemma WeeklyDaysDistinct(s: Schedule, i: nat, j: nat)
    requires i < 7 && j < 7 && i != j
    ensures WeeklyRegistrations(s)[i].every != WeeklyRegistrations(s)[j].every
  {
  }

  /**
   * A non-random feed task is polled once a day at its time and every four
   * hours, whatever its weekday flags say, and without a run count.
   */
  lemma PolledFeedIgnoresFlags(t1: RssTask, t2: RssTask)
    requires !t1.random && !t2.random && t1.schedule.tweet_at == t2.schedule.tweet_at
    ensures RssRegistrations(t1) == RssRegistrations(t2)
    ensures |RssRegistrations(t1)| == 2
    ensures RssRegistrations(t1)[0].every == Days(1) && RssRegistrations(t1)[0].at == Some(FormatTweetAt(t1.schedule.tweet_at))
    ensures RssRegistrations(t1)[1].every == Hours(4) && RssRegistrations(t1)[1].at == None
    ensures RssRunCount(t1) == None
  {
  }

  /** The last job with one more registration. */
  function AddRegistration(jobs: seq<Job>, r: Registration): (r': seq<Job>)
    requires |jobs| > 0
    ensures |r'| == |jobs| && r'[..|jobs| - 1] == jobs[..|jobs| - 1]
    ensures r'[|jobs| - 1].registrations == jobs[|jobs| - 1].registrations + [r]
    ensures r'[|jobs| - 1].action == jobs[|jobs| - 1].action
  {
    var last := jobs[|jobs| - 1];
    jobs[..|jobs| - 1] + [last.(registrations := last.registrations + [r])]
  }

  predicate HasOpenJob(jobs: seq<Job>)
  {
    |jobs| > 0 && |jobs[|jobs| - 1].registrations| > 0
  }

  /** The registration that `at` and `count` refine. */
  function OpenRegistration(jobs: seq<Job>): Registration
    requires HasOpenJob(jobs)
  {
    var regs := jobs[|jobs| - 1].registrations;
    regs[|regs| - 1]
  }

  /** The last job with its last registration replaced by `r`. */
  function SetOpenRegistration(jobs: seq<Job>, r: Registration): (r': seq<Job>)
    requires HasOpenJob(jobs)
    ensures |r'| == |jobs| && r'[..|jobs| - 1] == jobs[..|jobs| - 1]
    ensures r'[|jobs| - 1].action == jobs[|jobs| - 1].action
    ensures r'[|jobs| - 1].registrations
      == jobs[|jobs| - 1].registrations[..|jobs[|jobs| - 1].registrations| - 1] + [r]
  {
    var last := jobs[|jobs| - 1];
    var regs := last.registrations;
    jobs[..|jobs| - 1] + [last.(registrations := regs[..|regs| - 1] + [r])]
  }

  /** The last job with its run count replaced by `n`. */
  function SetCount(jobs: seq<Job>, n: nat): (r': seq<Job>)
    requires |jobs| > 0
    ensures |r'| == |jobs| && r'[..|jobs| - 1] == jobs[..|jobs| - 1]
    ensures r'[|jobs| - 1] == jobs[|jobs| - 1].(count := Some(n))
  {
    jobs[..|jobs| - 1] + [jobs[|jobs| - 1].(count := Some(n))]
  }

  /** `every`, `at`, `count` on a fresh job leave one registration with its time, and the count. */
  lemma OpenedThenRefined(jobs: seq<Job>, day: Interval, at: string, count: nat)
    ensures var j1 := jobs + [Job([Registration(day, None)], None, None)];
      var j2 := SetOpenRegistration(j1, OpenRegistration(j1).(at := Some(at)));
      var j3 := SetCount(j2, count);
      HasOpenJob(j3) && j3 == jobs + [Job([Registration(day, Some(at))], Some(count), None)]
  {
    var r0, r1 := Registration(day, None), Registration(day, Some(at));
    var j1 := jobs + [Job([r0], None, None)];
    assert j1[..|j1| - 1] == jobs;
    assert OpenRegistration(j1) == r0;
    assert [r0][..0] + [r1] == [r1];
    var j2 := SetOpenRegistration(j1, r1);
    assert j2 == jobs + [Job([r1], None, None)];
    assert j2[..|j2| - 1] == jobs;
  }

  /** `and_every`, `at`, `count` on the open job add one registration and replace the count. */
  lemma AddedThenRefined(jobs: seq<Job>, day: Interval, at: string, count: nat)
    requires |jobs| > 0
    ensures var j1 := AddRegistration(jobs, Registration(day, None));
      var j2 := SetOpenRegistration(j1, OpenRegistration(j1).(at := Some(at)));
      var j3 := SetCount(j2, count);
      HasOpenJob(j3) && j3 == SetCount(AddRegistration(jobs, Registration(day, Some(at))), count)
  {
    var n := |jobs|;
    var init, last := jobs[..n - 1], jobs[n - 1];
    var j1 := AddRegistration(jobs, Registration(day, None));
    assert j1 == init + [last.(registrations := last.registrations + [Registration(day, None)])];
    var j2 := SetOpenRegistration(j1, OpenRegistration(j1).(at := Some(at)));
    assert j1[..n - 1] == init;
    assert (last.registrations + [Registration(day, None)])[..|last.registrations|] == last.registrations;
    assert j2 == init + [last.(registrations := last.registrations + [Registration(day, Some(at))])];
    assert j2 == AddRegistration(jobs, Registration(day, Some(at)));
  }

  class AsyncScheduler {
    var jobs: seq<Job>

    constructor ()
      ensures jobs == []
    {
      jobs := [];
    }

    /** `scheduler.every(interval)`: opens a new job. */
    method Every(interval: Interval)
      modifies this
      ensures jobs == old(jobs) + [Job([Registration(interval, None)], None, None)]
    {
      jobs := jobs + [Job([Registration(interval, None)], None, None)];
    }

    /** `job.and_every(interval)`: one more registration on the open job. */
    method AndEvery(interval: Interval)
      requires HasOpenJob(jobs)
      modifies this
      ensures jobs == AddRegistration(old(jobs), Registration(interval, None))
    {
      jobs := AddRegistration(jobs, Registration(interval, None));
    }

    /** `job.at(time)`: the time of the open registration. */
    method At(time: string)
      requires HasOpenJob(jobs)
      modifies this
      ensures jobs == SetOpenRegistration(old(jobs), OpenRegistration(old(jobs)).(at := Some(time)))
    {
      jobs := SetOpenRegistration(jobs, OpenRegistration(jobs).(at := Some(time)));
    }

    /** `Job::count(n)`: the run count of the open job, replacing any earlier one. */
    method Count(n: nat)
      requires HasOpenJob(jobs)
      modifies this
      ensures jobs == SetCount(old(jobs), n)
    {
      jobs := SetCount(jobs, n);
    }

    /** `job.run(action)`. */
    method Run(action: JobAction)
      requires |jobs| > 0
      modifies this
      ensures |jobs| == |old(jobs)| && jobs[..|jobs| - 1] == old(jobs)[..|jobs| - 1]
      ensures jobs[|jobs| - 1] == old(jobs)[|jobs| - 1].(action := Some(action))
    {
      jobs := jobs[..|jobs| - 1] + [jobs[|jobs| - 1].(action := Some(action))];
    }

    /** One weekday of `to_asyncjob`: `every`/`and_every`, then `at`, then `count`. */
    method AddWeekday(first: bool, day: Interval, at: string, count: nat)
      requires !first ==> HasOpenJob(jobs)
      modifies this
      ensures HasOpenJob(jobs)
      ensures first ==> jobs == old(jobs) + [Job([Registration(day, Some(at))], Some(count), None)]
      ensures !first ==> jobs == SetCount(AddRegistration(old(jobs), Registration(day, Some(at))), count)
    {
      ghost var j0 := jobs;
      if first {
        Every(day);
        At(at);
        Count(count);
        OpenedThenRefined(j0, day, at, count);
      } else {
        AndEvery(day);
        At(at);
        Count(count);
        AddedThenRefined(j0, day, at, count);
      }
    }

    /**
     * `Schedule::to_asyncjob`: a new job with the seven weekday
     * registrations and, as its run count, the argument of the last `count`.
     */
    method ToAsyncJob(s: Schedule)
      modifies this
      ensures jobs == old(jobs) + [WeeklyJob(s)]
    {
      var at := FormatTweetAt(s.tweet_at);
      var days := [s.sun, s.mon, s.tue, s.wed, s.thu, s.fri, s.sat];
      AddWeekday(true, Sunday, at, BoolAsUsize(days[0]));
      AddWeekday(false, Monday, at, BoolAsUsize(days[1]));
      AddWeekday(false, Tuesday, at, BoolAsUsize(days[2]));
      AddWeekday(false, Wednesday, at, BoolAsUsize(days[3]));
      AddWeekday(false, Thursday, at, BoolAsUsize(days[4]));
      AddWeekday(false, Friday, at, BoolAsUsize(days[5]));
      AddWeekday(false, Saturday, at, BoolAsUsize(days[6]));
      assert jobs[..|jobs| - 1] == old(jobs);
      assert jobs[|jobs| - 1].registrations == WeeklyRegistrations(s);
      assert jobs[|jobs| - 1] == WeeklyJob(s);
    }

    /** `EnabledTask::to_schedule2`: the weekly job, running the fixed task. */
    method ScheduleFixed(task: EnabledTask)
      modifies this
      ensures jobs == old(jobs) + [WeeklyJob(task.schedule).(action := Some(PostFixed(task)))]
    {
      ToAsyncJob(task.schedule);
      Run(PostFixed(task));
    }

    /**
     * `RssTask::to_schedule2`: a random feed task gets the weekly job; any
     * other is registered daily at its time and every four hours.
     */
    method ScheduleRss(task: RssTask)
      modifies this
      ensures jobs == old(jobs) + [Job(RssRegistrations(task), RssRunCount(task), Some(PostRss(task)))]
    {
      if task.random {
        ToAsyncJob(task.schedule);
      } else {
        var at := FormatTweetAt(task.schedule.tweet_at);
        Every(Days(1));
        At(at);
        AndEvery(Hours(4));
        assert jobs[..|jobs| - 1] == old(jobs);
        assert jobs[|jobs| - 1].registrations == RssRegistrations(task);
      }
      Run(PostRss(task));
    }
  }
}
