/**
 * `list_active_tasks` of api/src/gq/list_active_tasks.rs: the rows of the
 * active users with their enabled fixed-time and feed tasks, turned into
 * `ActiveUser` values. The query itself selects active users and enabled
 * tasks; the conversion keeps every row it is given, in order.
 */
module ListActiveTasks {
  import opened Wrappers
  import opened Ints
  import opened Model
  import opened GqError
  import opened GqCommon
  import opened TimeFormat

  datatype MessageRow = MessageRow(
    priority: I32,
    media_id: Option<Uuid>,
    text: string,
    id: Uuid,
    created_at: Timestamptz,
    updated_at: Timestamptz)

  datatype TagRow = TagRow(messages: seq<MessageRow>)

  datatype FixedTaskRow = FixedTaskRow(
    id: Uuid, random: bool, tweet_at: string,
    sun: bool, mon: bool, tue: bool, wed: bool, thu: bool, fri: bool, sat: bool,
    tag: Option<TagRow>)

  datatype RssTaskRow = RssTaskRow(
    id: Uuid, random: bool, tweet_at: string,
    sun: bool, mon: bool, tue: bool, wed: bool, thu: bool, fri: bool, sat: bool,
    template: Option<string>, url: string, last_pub_date: Option<Timestamptz>)

  datatype UserRow = UserRow(id: string, tasks_fixed_time: seq<FixedTaskRow>, tasks_rss: seq<RssTaskRow>)

  datatype ListActiveTasksData = ListActiveTasksData(user: seq<UserRow>)

  predicate WellFormedMessage(m: MessageRow)
  {
    m.created_at.Rfc3339? && m.updated_at.Rfc3339?
  }

  /** The `unwrap`s of the conversion succeed on this fixed task. */
  predicate WellFormedFixed(t: FixedTaskRow)
  {
    && ParseTime(t.tweet_at).Some?
    && (t.tag.Some? ==> forall i :: 0 <= i < |t.tag.value.messages| ==> WellFormedMessage(t.tag.value.messages[i]))
  }

  predicate WellFormedRss(t: RssTaskRow)
  {
    ParseTime(t.tweet_at).Some? && WellFormedOpt(t.last_pub_date)
  }

  predicate WellFormedUser(u: UserRow)
  {
    && (forall i :: 0 <= i < |u.tasks_fixed_time| ==> WellFormedFixed(u.tasks_fixed_time[i]))
    && (forall i :: 0 <= i < |u.tasks_rss| ==> WellFormedRss(u.tasks_rss[i]))
  }

  predicate WellFormedListAnswer(t: Transport<ListActiveTasksData>)
  {
    t.Delivered? && t.response.data.Some? ==>
      forall i :: 0 <= i < |t.response.data.value.user| ==> WellFormedUser(t.response.data.value.user[i])
  }

  /** `Message::new(..)` for a message row of the given user. */
  function MessageOf(user_id: string, m: MessageRow): (r: Message)
    requires WellFormedMessage(m)
    ensures r.user_id == user_id && r.id == m.id && r.text == m.text
    ensures r.media_id == m.media_id && r.priority == m.priority
    ensures r.created_at == m.created_at.instant && r.updated_at == m.updated_at.instant
  {
    Message(m.id, user_id, m.text, m.media_id, m.priority, ToInstant(m.created_at), ToInstant(m.updated_at))
  }

  /** The messages of a fixed task: its tag's messages, or none without a tag. */
  function MessagesOf(user_id: string, t: FixedTaskRow): (r: seq<Message>)
    requires WellFormedFixed(t)
    ensures t.tag.None? ==> r == []
    ensures t.tag.Some? ==> |r| == |t.tag.value.messages|
    ensures t.tag.Some? ==> forall i :: 0 <= i < |r| ==> r[i] == MessageOf(user_id, t.tag.value.messages[i])
  {
    match t.tag
    case None => []
    case Some(tag) =>
      seq(|tag.messages|, i requires 0 <= i < |tag.messages| && WellFormedMessage(tag.messages[i]) =>
        MessageOf(user_id, tag.messages[i]))
  }

  /** `Schedule::new(parse(tweet_at).unwrap(), sun, ..., sat)`. */
  function ScheduleOf(tweet_at: string, sun: bool, mon: bool, tue: bool, wed: bool, thu: bool, fri: bool, sat: bool): (s: Schedule)
    requires ParseTime(tweet_at).Some?
    ensures s.tweet_at == ParseTime(tweet_at).value
    ensures s.sun == sun && s.mon == mon && s.tue == tue && s.wed == wed
    ensures s.thu == thu && s.fri == fri && s.sat == sat
  {
    Schedule(ParseTime(tweet_at).value, sun, mon, tue, wed, thu, fri, sat)
  }

  /** The time a job is registered at is the stored `tweet_at` text itself. */
  lemma RegisteredTimeIsStoredText(tweet_at: string, sun: bool, mon: bool, tue: bool, wed: bool, thu: bool, fri: bool, sat: bool)
    requires ParseTime(tweet_at).Some?
    ensures FormatTweetAt(ScheduleOf(tweet_at, sun, mon, tue, wed, thu, fri, sat).tweet_at) == tweet_at
  {
    FormatParsed(tweet_at);
  }

  function FixedTaskOf(user_id: string, t: FixedTaskRow): (r: EnabledTask)
    requires WellFormedFixed(t)
    ensures r.user_id == user_id && r.random == t.random
    ensures r.schedule == ScheduleOf(t.tweet_at, t.sun, t.mon, t.tue, t.wed, t.thu, t.fri, t.sat)
    ensures r.messages == MessagesOf(user_id, t)
  {
    EnabledTask(ScheduleOf(t.tweet_at, t.sun, t.mon, t.tue, t.wed, t.thu, t.fri, t.sat),
      user_id, MessagesOf(user_id, t), t.random)
  }

  function RssTaskOf(user_id: string, t: RssTaskRow): (r: RssTask)
    requires WellFormedRss(t)
    ensures r.id == t.id && r.user_id == user_id && r.url == t.url && r.random == t.random
    ensures r.template == t.template && r.last_pub_date == ToInstantOpt(t.last_pub_date)
    ensures r.schedule == ScheduleOf(t.tweet_at, t.sun, t.mon, t.tue, t.wed, t.thu, t.fri, t.sat)
  {
    RssTask(t.id, ScheduleOf(t.tweet_at, t.sun, t.mon, t.tue, t.wed, t.thu, t.fri, t.sat),
      user_id, t.url, t.random, ToInstantOpt(t.last_pub_date), t.template)
  }

  /** One user row: every fixed task and every feed task, in row order. */
  function ActiveUserOf(u: UserRow): (r: ActiveUser)
    requires WellFormedUser(u)
    ensures r.user_id == u.id
    ensures |r.tasks| == |u.tasks_fixed_time| && |r.rss_tasks| == |u.tasks_rss|
    ensures forall i :: 0 <= i < |r.tasks| ==> r.tasks[i] == FixedTaskOf(u.id, u.tasks_fixed_time[i])
    ensures forall i :: 0 <= i < |r.rss_tasks| ==> r.rss_tasks[i] == RssTaskOf(u.id, u.tasks_rss[i])
  {
    var tasks := seq(|u.tasks_fixed_time|, i requires 0 <= i < |u.tasks_fixed_time| && WellFormedFixed(u.tasks_fixed_time[i]) =>
      FixedTaskOf(u.id, u.tasks_fixed_time[i]));
    var rss := seq(|u.tasks_rss|, i requires 0 <= i < |u.tasks_rss| && WellFormedRss(u.tasks_rss[i]) =>
      RssTaskOf(u.id, u.tasks_rss[i]));
    ActiveUser(u.id, tasks, rss)
  }

  /**
   * `list_active_tasks`: a transport failure is `Network`, a response without
   * `data` what `build_errors` makes of its errors, and otherwise one
   * `ActiveUser` per user row, in order.
   */
  function ListActiveTasks(t: Transport<ListActiveTasksData>): (r: Result<seq<ActiveUser>, HasuraError>)
    requires WellFormedListAnswer(t)
    ensures t.NetworkFailure? ==> r == Failure(Network)
    ensures t.Delivered? && t.response.data.None? ==> r == Failure(BuildErrors(t.response.errors))
    ensures r.Success? <==> t.Delivered? && t.response.data.Some?
    ensures r.Success? ==> |r.value| == |t.response.data.value.user|
    ensures r.Success? ==> forall i :: 0 <= i < |r.value| ==> r.value[i] == ActiveUserOf(t.response.data.value.user[i])
  {
    match DataOf(t)
    case Failure(e) => Failure(e)
    case Success(data) =>
      Success(seq(|data.user|, i requires 0 <= i < |data.user| && WellFormedUser(data.user[i]) =>
        ActiveUserOf(data.user[i])))
  }

  /** Every message of every converted task carries the id of the user it was listed under. */
  lemma MessagesCarryOwner(t: Transport<ListActiveTasksData>, i: nat, j: nat, k: nat)
    requires WellFormedListAnswer(t) && ListActiveTasks(t).Success?
    requires i < |ListActiveTasks(t).value| && j < |ListActiveTasks(t).value[i].tasks|
    requires k < |ListActiveTasks(t).value[i].tasks[j].messages|
    ensures ListActiveTasks(t).value[i].tasks[j].messages[k].user_id == ListActiveTasks(t).value[i].user_id
    ensures ListActiveTasks(t).value[i].user_id == t.response.data.value.user[i].id
  {
    var u := t.response.data.value.user[i];
    var task := u.tasks_fixed_time[j];
    assert ListActiveTasks(t).value[i].tasks[j] == FixedTaskOf(u.id, task);
    assert task.tag.Some?;
  }
}
