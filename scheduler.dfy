/**
 * Scheduler assembly (api/src/scheduler.rs): each active user's tasks are
 * registered on one job scheduler, which is then run by a spawned task.
 *
 * `Runtime` stands for the async runtime: spawning records the job list of
 * the new scheduler and yields a fresh handle; aborting marks a handle.
 * What the spawned loop does with its jobs over time is not modelled.
 */
module Scheduler {
  import opened Wrappers
  import opened Model
  import opened GqError
  import opened Triggers

  type Handle = nat

  datatype SchedulerError = GraphqlError(source: HasuraError) | FailedToStartTasks

  class Runtime {
    /** The job list of each spawned scheduler, by handle. */
    var hosts: seq<seq<Job>>
    var aborted: set<Handle>

    constructor ()
      ensures hosts == [] && aborted == {}
    {
      hosts := [];
      aborted := {};
    }

    /** `tokio::spawn(..)` of a scheduler loop over `jobs`. */
    method Spawn(jobs: seq<Job>) returns (h: Handle)
      modifies this
      ensures h == |old(hosts)| && hosts == old(hosts) + [jobs] && aborted == old(aborted)
    {
      h := |hosts|;
      hosts := hosts + [jobs];
    }

    /** `JoinHandle::abort`. */
    method Abort(h: Handle)
      modifies this
      ensures aborted == old(aborted) + {h} && hosts == old(hosts)
    {
      aborted := aborted + {h};
    }
  }

  function FixedJob(t: EnabledTask): Job
  {
    Job(WeeklyRegistrations(t.schedule), WeeklyJob(t.schedule).count, Some(PostFixed(t)))
  }

  function RssJob(t: RssTask): Job
  {
    Job(RssRegistrations(t), RssRunCount(t), Some(PostRss(t)))
  }

  /** The jobs of the fixed tasks that have at least one message, in list order. */
  function FixedJobs(ts: seq<EnabledTask>): seq<Job>
  {
    if |ts| == 0 then []
    else
      var last := ts[|ts| - 1];
      FixedJobs(ts[..|ts| - 1]) + (if |last.messages| > 0 then [FixedJob(last)] else [])
  }

  /** The jobs of all feed tasks: none is filtered out, and job i runs feed task i. */
  function RssJobs(rs: seq<RssTask>): (r: seq<Job>)
    ensures |r| == |rs|
    ensures forall i :: 0 <= i < |rs| ==> r[i] == RssJob(rs[i])
  {
    seq(|rs|, i requires 0 <= i < |rs| => RssJob(rs[i]))
  }

  /** The job list of the scheduler `start_tasks` spawns. */
  function HostJobs(ts: seq<EnabledTask>, rs: seq<RssTask>): seq<Job>
  {
    FixedJobs(ts) + RssJobs(rs)
  }

  /** A fixed task gets a job exactly when it has messages. */
  lemma {:induction false} FixedJobsFilter(ts: seq<EnabledTask>, t: EnabledTask)
    ensures FixedJob(t) in FixedJobs(ts) <==> t in ts && |t.messages| > 0
  {
    if |ts| > 0 {
      var init, last := ts[..|ts| - 1], ts[|ts| - 1];
      FixedJobsFilter(init, t);
      assert ts == init + [last];
    }
  }

  /** Every job of `FixedJobs` runs one of the fixed tasks. */
  lemma {:induction false} FixedJobsAreFixed(ts: seq<EnabledTask>, k: nat)
    requires k < |FixedJobs(ts)|
    ensures FixedJobs(ts)[k].action.Some? && FixedJobs(ts)[k].action.value.PostFixed?
    ensures FixedJobs(ts)[k] == FixedJob(FixedJobs(ts)[k].action.value.task)
  {
    var init := ts[..|ts| - 1];
    if k < |FixedJobs(init)| {
      FixedJobsAreFixed(init, k);
    }
  }

  /** The filter keeps list order: it distributes over concatenation. */
  lemma {:induction false} FixedJobsAppend(a: seq<EnabledTask>, b: seq<EnabledTask>)
    ensures FixedJobs(a + b) == FixedJobs(a) + FixedJobs(b)
  {
    if |b| > 0 {
      var init := b[..|b| - 1];
      assert (a + b)[..|a + b| - 1] == a + init;
      FixedJobsAppend(a, init);
    } else {
      assert a + b == a;
    }
  }

  /** Fixed-task jobs come first: the first |FixedJobs(ts)| jobs all post fixed tasks. */
  lemma FixedBeforeRss(ts: seq<EnabledTask>, rs: seq<RssTask>, k: nat)
    requires k < |FixedJobs(ts)|
    ensures k < |HostJobs(ts, rs)|
    ensures HostJobs(ts, rs)[k].action.Some? && HostJobs(ts, rs)[k].action.value.PostFixed?
  {
    JoinedAt(FixedJobs(ts), RssJobs(rs), k);
    FixedJobsAreFixed(ts, k);
  }

  /** Then come the feed jobs, one per feed task in order. */
  lemma RssAfterFixed(ts: seq<EnabledTask>, rs: seq<RssTask>, k: nat)
    requires |FixedJobs(ts)| <= k < |HostJobs(ts, rs)|
    ensures k - |FixedJobs(ts)| < |rs|
    ensures HostJobs(ts, rs)[k] == RssJobs(rs)[k - |FixedJobs(ts)|] == RssJob(rs[k - |FixedJobs(ts)|])
  {
    var f, r := FixedJobs(ts), RssJobs(rs);
    JoinedAt(f, r, k);
  }

  /** Position k of a joined job list, from the part it falls in. */
  lemma JoinedAt(f: seq<Job>, r: seq<Job>, k: nat)
    requires k < |f| + |r|
    ensures k < |f| ==> (f + r)[k] == f[k]
    ensures k >= |f| ==> (f + r)[k] == r[k - |f|]
  {
  }

  /** The `for_each(to_schedule2)` over the fixed tasks that have messages. */
  method RegisterFixedTasks(scheduler: AsyncScheduler, tasks: seq<EnabledTask>)
    modifies scheduler
    ensures scheduler.jobs == old(scheduler.jobs) + FixedJobs(tasks)
  {
    var i := 0;
    while i < |tasks|
      invariant 0 <= i <= |tasks|
      invariant scheduler.jobs == old(scheduler.jobs) + FixedJobs(tasks[..i])
    {
      ghost var before := scheduler.jobs;
      assert tasks[..i + 1][..i] == tasks[..i];
      if |tasks[i].messages| > 0 {
        scheduler.ScheduleFixed(tasks[i]);
        assert scheduler.jobs == before + [FixedJob(tasks[i])];
      }
      i := i + 1;
    }
    assert tasks[..|tasks|] == tasks;
  }

  /** The `for_each(to_schedule2)` over the feed tasks. */
  method RegisterRssTasks(scheduler: AsyncScheduler, rss_tasks: seq<RssTask>)
    modifies scheduler
    ensures scheduler.jobs == old(scheduler.jobs) + RssJobs(rss_tasks)
  {
    var i := 0;
    while i < |rss_tasks|
      invariant 0 <= i <= |rss_tasks|
      invariant scheduler.jobs == old(scheduler.jobs) + RssJobs(rss_tasks[..i])
    {
      ghost var before := scheduler.jobs;
      scheduler.ScheduleRss(rss_tasks[i]);
      assert scheduler.jobs == before + [RssJob(rss_tasks[i])];
      assert RssJobs(rss_tasks[..i + 1]) == RssJobs(rss_tasks[..i]) + [RssJob(rss_tasks[i])];
      i := i + 1;
    }
    assert rss_tasks[..|rss_tasks|] == rss_tasks;
  }

  /**
   * `start_tasks`: a new scheduler gets the jobs of the fixed tasks with
   * messages, then of every feed task, and is spawned. The handle is always
   * returned, even for a scheduler without jobs.
   */
  method StartTasks(tasks: seq<EnabledTask>, rss_tasks: seq<RssTask>, rt: Runtime) returns (handle: Option<Handle>)
    modifies rt
    ensures handle == Some(|old(rt.hosts)|)
    ensures rt.hosts == old(rt.hosts) + [HostJobs(tasks, rss_tasks)]
    ensures rt.aborted == old(rt.aborted)
  {
    var scheduler := new AsyncScheduler();
    if |tasks| > 0 {
      RegisterFixedTasks(scheduler, tasks);
    }
    if |rss_tasks| > 0 {
      RegisterRssTasks(scheduler, rss_tasks);
    }
    assert |tasks| == 0 ==> FixedJobs(tasks) == [];
    assert |rss_tasks| == 0 ==> RssJobs(rss_tasks) == [];
    assert scheduler.jobs == HostJobs(tasks, rss_tasks);
    var h := rt.Spawn(scheduler.jobs);
    handle := Some(h);
  }

  /**
   * `start_task_for_user`: `users` is the answer of the per-user task query.
   * A failed query is a `GraphqlError`, an empty answer `FailedToStartTasks`;
   * otherwise only the first user's tasks are started.
   */
  method StartTaskForUser(user_id: string, users: Result<seq<ActiveUser>, HasuraError>, rt: Runtime)
    returns (r: Result<Option<Handle>, SchedulerError>)
    modifies rt
    ensures users.Failure? ==> r == Failure(SchedulerError.GraphqlError(users.error)) && rt.hosts == old(rt.hosts)
    ensures users.Success? && |users.value| == 0 ==> r == Failure(FailedToStartTasks) && rt.hosts == old(rt.hosts)
    ensures users.Success? && |users.value| > 0 ==>
      r == Success(Some(|old(rt.hosts)|))
      && rt.hosts == old(rt.hosts) + [HostJobs(users.value[0].tasks, users.value[0].rss_tasks)]
    ensures rt.aborted == old(rt.aborted)
  {
    if users.Failure? {
      return Failure(SchedulerError.GraphqlError(users.error));
    }
    if |users.value| == 0 {
      return Failure(FailedToStartTasks);
    }
    var user := users.value[0];
    var handle := StartTasks(user.tasks, user.rss_tasks, rt);
    return Success(handle);
  }

  /** The job lists `start_scheduler` spawns, one per user, in order. */
  function UsersJobs(users: seq<ActiveUser>): (r: seq<seq<Job>>)
    ensures |r| == |users|
    ensures forall i :: 0 <= i < |users| ==> r[i] == HostJobs(users[i].tasks, users[i].rss_tasks)
  {
    seq(|users|, i requires 0 <= i < |users| => HostJobs(users[i].tasks, users[i].rss_tasks))
  }

  /** `HashMap::from_iter`: pairs inserted in order, a later key replacing an earlier one. */
  function FromIter(pairs: seq<(string, Option<Handle>)>): map<string, Option<Handle>>
  {
    if |pairs| == 0 then map[]
    else FromIter(pairs[..|pairs| - 1])[pairs[|pairs| - 1].0 := pairs[|pairs| - 1].1]
  }

  /** The pairs `(user_id, handle)` of `start_task`, for handles from `base` on. */
  function HandlePairs(users: seq<ActiveUser>, base: nat): (ps: seq<(string, Option<Handle>)>)
    ensures |ps| == |users|
    ensures forall i :: 0 <= i < |users| ==> ps[i] == (users[i].user_id, Some(base + i))
  {
    seq(|users|, i requires 0 <= i < |users| => (users[i].user_id, Some(base + i)))
  }

  /** The keys of `FromIter` are exactly the keys of the pairs; each maps to its last pair's value. */
  lemma {:induction false} FromIterLast(pairs: seq<(string, Option<Handle>)>, key: string)
    ensures key in FromIter(pairs) <==> exists i :: 0 <= i < |pairs| && pairs[i].0 == key
    ensures key in FromIter(pairs) ==>
      exists i :: 0 <= i < |pairs| && pairs[i].0 == key && FromIter(pairs)[key] == pairs[i].1
        && forall j :: i < j < |pairs| ==> pairs[j].0 != key
  {
    if |pairs| > 0 {
      var init := pairs[..|pairs| - 1];
      FromIterLast(init, key);
      if pairs[|pairs| - 1].0 != key && key in FromIter(pairs) {
        var i :| 0 <= i < |init| && init[i].0 == key && FromIter(init)[key] == init[i].1
          && forall j :: i < j < |init| ==> init[j].0 != key;
        assert pairs[i] == init[i];
      }
      if exists i :: 0 <= i < |pairs| && pairs[i].0 == key {
        var i :| 0 <= i < |pairs| && pairs[i].0 == key;
        if i < |init| {
          assert init[i].0 == key;
        }
      }
    }
  }

  /**
   * The registry `start_scheduler` builds: keyed by exactly the users'
   * ids, every value `Some` handle of a scheduler spawned for that id.
   */
  lemma HandleMapShape(users: seq<ActiveUser>, base: nat, id: string)
    ensures id in FromIter(HandlePairs(users, base)) <==> exists i :: 0 <= i < |users| && users[i].user_id == id
    ensures id in FromIter(HandlePairs(users, base)) ==>
      exists i :: 0 <= i < |users| && users[i].user_id == id && FromIter(HandlePairs(users, base))[id] == Some(base + i)
  {
    var ps := HandlePairs(users, base);
    FromIterLast(ps, id);
    if exists i :: 0 <= i < |users| && users[i].user_id == id {
      var i :| 0 <= i < |users| && users[i].user_id == id;
      assert ps[i].0 == id;
    }
  }

  /** `join_all(users.iter().map(start_task))`: one scheduler per user, in list order. */
  method StartEach(us: seq<ActiveUser>, rt: Runtime) returns (pairs: seq<(string, Option<Handle>)>)
    modifies rt
    ensures rt.hosts == old(rt.hosts) + UsersJobs(us)
    ensures pairs == HandlePairs(us, |old(rt.hosts)|)
    ensures rt.aborted == old(rt.aborted)
  {
    ghost var base := |rt.hosts|;
    pairs := [];
    var i := 0;
    while i < |us|
      invariant 0 <= i <= |us|
      invariant rt.hosts == old(rt.hosts) + UsersJobs(us[..i])
      invariant |rt.hosts| == base + i
      invariant pairs == HandlePairs(us[..i], base)
      invariant rt.aborted == old(rt.aborted)
    {
      ghost var before := rt.hosts;
      var handle := StartTasks(us[i].tasks, us[i].rss_tasks, rt);
      pairs := pairs + [(us[i].user_id, handle)];
      assert UsersJobs(us[..i + 1]) == UsersJobs(us[..i]) + [HostJobs(us[i].tasks, us[i].rss_tasks)];
      assert HandlePairs(us[..i + 1], base) == HandlePairs(us[..i], base) + [(us[i].user_id, Some(base + i))];
      i := i + 1;
    }
    assert us[..|us|] == us;
  }

  /**
   * `start_scheduler`: `users` is the answer of `list_active_tasks`. A failed
   * query is a `GraphqlError` and nothing is spawned; otherwise one scheduler
   * per user is spawned, in list order, and the registry maps each user id to
   * its handle.
   */
  method StartScheduler(users: Result<seq<ActiveUser>, HasuraError>, rt: Runtime)
    returns (r: Result<map<string, Option<Handle>>, SchedulerError>)
    modifies rt
    ensures users.Failure? ==> r == Failure(SchedulerError.GraphqlError(users.error)) && rt.hosts == old(rt.hosts)
    ensures users.Success? ==>
      rt.hosts == old(rt.hosts) + UsersJobs(users.value)
      && r == Success(FromIter(HandlePairs(users.value, |old(rt.hosts)|)))
    ensures rt.aborted == old(rt.aborted)
  {
    if users.Failure? {
      return Failure(SchedulerError.GraphqlError(users.error));
    }
    var pairs := StartEach(users.value, rt);
    return Success(FromIter(pairs));
  }
}
