/**
 * The supervisor of src/mpsc.rs: an actor that owns the registry of
 * running schedulers, one entry per user, and changes it one message at a
 * time.
 *
 * `SupervisorState` and `HandleSpec` say what each message does to the
 * registry, the runtime and the mailbox; the `Actor` class does it and is
 * proved to follow them. The answers of the task queries are parameters.
 * `insert(user_id, handle).unwrap()` panics when the user had no entry; the
 * panic ends the actor's task, which drops the receiving end of the
 * mailbox, so every later send fails.
 */
module Supervisor {
  import opened Wrappers
  import opened Model
  import opened GqError
  import opened Triggers
  import opened Scheduler

  datatype ActorMessage = StartSchedulerMsg | RestartUserSchedule(user_id: string)

  /** What the task queries answer: the active users with their tasks. */
  type UsersAnswer = Result<seq<ActiveUser>, HasuraError>

  datatype SupervisorState = SupervisorState(
    workers: map<string, Option<Handle>>,
    hosts: seq<seq<Job>>,
    aborted: set<Handle>,
    alive: bool)

  /** `Actor::start_scheduler`: the registry is replaced; nothing is aborted. */
  function StartSpec(st: SupervisorState, users: UsersAnswer): (st': SupervisorState)
    ensures st'.aborted == st.aborted && st'.alive == st.alive
  {
    match users
    case Failure(_) => st.(workers := map[])
    case Success(us) =>
      st.(workers := FromIter(HandlePairs(us, |st.hosts|)), hosts := st.hosts + UsersJobs(us))
  }

  /** The handle a restart aborts: the user's current one, if the entry holds one. */
  function ToAbort(workers: map<string, Option<Handle>>, u: string): set<Handle>
  {
    if u in workers && workers[u].Some? then {workers[u].value} else {}
  }

  /** The `RestartUserSchedule` arm of `handle_message`. */
  function RestartSpec(st: SupervisorState, u: string, users: UsersAnswer): SupervisorState
  {
    var aborted := st.aborted + ToAbort(st.workers, u);
    if users.Failure? || |users.value| == 0 then st.(aborted := aborted)
    else
      var user := users.value[0];
      var h := |st.hosts|;
      SupervisorState(
        st.workers[u := Some(h)],
        st.hosts + [HostJobs(user.tasks, user.rss_tasks)],
        aborted,
        st.alive && u in st.workers)
  }

  /** `handle_message`; a dead actor handles nothing. */
  function HandleSpec(st: SupervisorState, msg: ActorMessage, users: UsersAnswer): SupervisorState
  {
    if !st.alive then st
    else
      match msg
      case StartSchedulerMsg => StartSpec(st, users)
      case RestartUserSchedule(u) => RestartSpec(st, u, users)
  }

  /**
   * The receive loop: messages are handled one at a time, in order, while
   * the actor is alive; the second result is how many were taken.
   */
  function Drain(st: SupervisorState, msgs: seq<ActorMessage>, answers: seq<UsersAnswer>): (r: (SupervisorState, nat))
    requires |answers| >= |msgs|
    ensures r.1 <= |msgs|
    ensures !st.alive ==> r == (st, 0)
    decreases |msgs|
  {
    if |msgs| == 0 || !st.alive then (st, 0)
    else
      var rest := Drain(HandleSpec(st, msgs[0], answers[0]), msgs[1..], answers[1..]);
      (rest.0, rest.1 + 1)
  }

  /** `start_scheduler` aborts nothing, and on failure leaves an empty registry. */
  lemma StartKeepsOldHandlesRunning(st: SupervisorState, users: UsersAnswer)
    ensures StartSpec(st, users).aborted == st.aborted
    ensures users.Failure? ==> StartSpec(st, users).workers == map[]
    ensures users.Success? ==> forall u :: u in StartSpec(st, users).workers <==>
      exists i :: 0 <= i < |users.value| && users.value[i].user_id == u
  {
    if users.Success? {
      forall u ensures u in StartSpec(st, users).workers <==>
        exists i :: 0 <= i < |users.value| && users.value[i].user_id == u
      {
        HandleMapShape(users.value, |st.hosts|, u);
      }
    }
  }

  /** A restart aborts exactly the user's current handle, and only when there is one. */
  lemma RestartAborts(st: SupervisorState, u: string, users: UsersAnswer)
    ensures RestartSpec(st, u, users).aborted - st.aborted ==
      (if u in st.workers && st.workers[u].Some? && st.workers[u].value !in st.aborted
       then {st.workers[u].value} else {})
  {
  }

  /** A restart panics exactly when it succeeds for a user without an entry. */
  lemma RestartPanicIff(st: SupervisorState, u: string, users: UsersAnswer)
    requires st.alive
    ensures !RestartSpec(st, u, users).alive <==>
      users.Success? && |users.value| > 0 && u !in st.workers
  {
  }

  /**
   * A failed restart leaves the registry as it was: the entry still names
   * the handle that was just aborted.
   */
  lemma FailedRestartKeepsAbortedHandle(st: SupervisorState, u: string, users: UsersAnswer)
    requires users.Failure? || |users.value| == 0
    requires u in st.workers && st.workers[u].Some?
    ensures RestartSpec(st, u, users).workers == st.workers
    ensures RestartSpec(st, u, users).workers[u].value in RestartSpec(st, u, users).aborted
  {
  }

  /** A successful restart points the user's entry at the new scheduler. */
  lemma RestartInstallsNewHandle(st: SupervisorState, u: string, users: UsersAnswer)
    requires users.Success? && |users.value| > 0
    ensures RestartSpec(st, u, users).workers[u] == Some(|st.hosts|)
    ensures RestartSpec(st, u, users).hosts == st.hosts + [HostJobs(users.value[0].tasks, users.value[0].rss_tasks)]
  {
  }

  /** A restart leaves every other user's entry as it was. */
  lemma RestartLeavesOthers(st: SupervisorState, u: string, users: UsersAnswer, v: string)
    requires v != u
    ensures v in RestartSpec(st, u, users).workers <==> v in st.workers
    ensures v in st.workers ==> RestartSpec(st, u, users).workers[v] == st.workers[v]
  {
  }

  /** Once the actor has died, no message changes anything. */
  lemma {:induction false} DeadActorIgnoresMessages(st: SupervisorState, msgs: seq<ActorMessage>, answers: seq<UsersAnswer>)
    requires !st.alive && |answers| >= |msgs|
    ensures Drain(st, msgs, answers) == (st, 0)
  {
  }

  /** The loop leaves messages in the queue only when the actor has died. */
  lemma {:induction false} DrainStopsOnlyWhenDead(st: SupervisorState, msgs: seq<ActorMessage>, answers: seq<UsersAnswer>)
    requires |answers| >= |msgs|
    ensures Drain(st, msgs, answers).1 < |msgs| ==> !Drain(st, msgs, answers).0.alive
    decreases |msgs|
  {
    if |msgs| > 0 && st.alive {
      DrainStopsOnlyWhenDead(HandleSpec(st, msgs[0], answers[0]), msgs[1..], answers[1..]);
    }
  }

  /** The mailbox: a FIFO queue whose receiving end is open while the actor lives. */
  class Channel {
    var queue: seq<ActorMessage>
    var receiverAlive: bool

    constructor ()
      ensures queue == [] && receiverAlive
    {
      queue := [];
      receiverAlive := true;
    }

    /** `sender.send(msg)`: fails exactly when the receiver is gone. */
    method Send(msg: ActorMessage) returns (ok: bool)
      modifies this
      ensures ok == old(receiverAlive) && receiverAlive == old(receiverAlive)
      ensures queue == if ok then old(queue) + [msg] else old(queue)
    {
      ok := receiverAlive;
      if ok {
        queue := queue + [msg];
      }
    }
  }

  class Actor {
    var workers: map<string, Option<Handle>>
    const rt: Runtime
    const inbox: Channel

    /** `Actor::new`: an empty registry. */
    constructor (rt: Runtime, inbox: Channel)
      ensures this.rt == rt && this.inbox == inbox && workers == map[]
    {
      this.rt := rt;
      this.inbox := inbox;
      workers := map[];
    }

    function State(): SupervisorState
      reads this, rt, inbox
    {
      SupervisorState(workers, rt.hosts, rt.aborted, inbox.receiverAlive)
    }

    /** `Actor::start_scheduler`. */
    method StartScheduler(users: UsersAnswer)
      modifies this, rt
      ensures State() == StartSpec(old(State()), users)
      ensures inbox.queue == old(inbox.queue)
    {
      var r := Scheduler.StartScheduler(users, rt);
      match r {
        case Success(ws) => workers := ws;
        case Failure(_) => workers := map[];
      }
    }

    /** `Actor::handle_message`, on a live actor. */
    method HandleMessage(msg: ActorMessage, users: UsersAnswer)
      requires inbox.receiverAlive
      modifies this, rt, inbox
      ensures State() == HandleSpec(old(State()), msg, users)
      ensures inbox.queue == old(inbox.queue)
    {
      match msg {
        case StartSchedulerMsg =>
          StartScheduler(users);
        case RestartUserSchedule(u) =>
          if u in workers && workers[u].Some? {
            rt.Abort(workers[u].value);
          }
          var r := StartTaskForUser(u, users, rt);
          if r.Success? {
            var had := u in workers;
            workers := workers[u := r.value];
            if !had {
              // `unwrap` on the `None` that `insert` returned: the actor's task panics.
              inbox.receiverAlive := false;
            }
          }
      }
    }

    /**
     * `Actor::run`: one `start_scheduler`, then the queued messages in order
     * until the queue is empty or the actor has died. `answers[k]` is what
     * the task query answers while the k-th message is handled.
     */
    method Run(initial: UsersAnswer, answers: seq<UsersAnswer>)
      requires inbox.receiverAlive && |answers| >= |inbox.queue|
      modifies this, rt, inbox
      ensures var d := Drain(StartSpec(old(State()), initial), old(inbox.queue), answers);
        State() == d.0 && inbox.queue == old(inbox.queue)[d.1..]
    {
      ghost var msgs := inbox.queue;
      StartScheduler(initial);
      ghost var d := Drain(State(), msgs, answers);
      var k := 0;
      while |inbox.queue| > 0 && inbox.receiverAlive
        invariant 0 <= k <= |msgs| && inbox.queue == msgs[k..]
        invariant Drain(State(), msgs[k..], answers[k..]) == (d.0, d.1 - k)
        decreases |inbox.queue|
      {
        var msg := inbox.queue[0];
        inbox.queue := inbox.queue[1..];
        assert msgs[k..][1..] == msgs[k + 1..] && answers[k..][1..] == answers[k + 1..];
        HandleMessage(msg, answers[k]);
        k := k + 1;
      }
    }
  }

  /** The sending side kept by the web handlers. */
  class ActorHandle {
    const sender: Channel

    constructor (sender: Channel)
      ensures this.sender == sender
    {
      this.sender := sender;
    }

    /** `ActorHandle::start_scheduler`: a failed send is only logged. */
    method StartScheduler()
      modifies sender
      ensures sender.receiverAlive == old(sender.receiverAlive)
      ensures sender.queue == if old(sender.receiverAlive) then old(sender.queue) + [StartSchedulerMsg] else old(sender.queue)
    {
      var ok := sender.Send(StartSchedulerMsg);
    }

    /** `ActorHandle::restart_task_for_user`: `true` exactly when the message was queued. */
    method RestartTaskForUser(user_id: string) returns (ok: bool)
      modifies sender
      ensures ok == old(sender.receiverAlive) && sender.receiverAlive == old(sender.receiverAlive)
      ensures sender.queue == if ok then old(sender.queue) + [RestartUserSchedule(user_id)] else old(sender.queue)
    {
      ok := sender.Send(RestartUserSchedule(user_id));
    }
  }
}
