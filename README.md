# still-bott scheduling and posting core, in Dafny

still-bott posts to a social network on a user's behalf. Each user owns
*fixed-time tasks* and *RSS tasks*:

- A fixed-time task posts one of the messages of its tag at its time of day.
  It carries seven weekday flags, but the job it gets is registered on all
  seven weekdays, and the flags reach the job only as its run count (see
  below).
- An RSS task posts an item of a feed. If it is random, it posts any item, on
  the same weekly registrations as a fixed-time task. Otherwise it posts the newest item not yet posted, polling daily at
  its time and then every four hours.

This project models that core and proves properties of it:

- **Posting.** Message choice by a stable newest-first sort, the feed watermark,
  template rendering, and the payload with or without media.
- **Triggers.** The trigger registrations and the run count each task produces.
- **Scheduler assembly.** One scheduler per user, with its handle map.
- **Supervisor actor.** It keeps the registry of running schedulers and restarts
  them on request.
- **Session gate.** Token expiry, refresh, and the stored round trip.
- **GraphQL row-to-model conversions.**
- **Frontend gates.** The email-confirmation code, the shared-secret middleware,
  and the roles carried by the JWT.

Modelling conventions:

- **Time.** A time is an `int` count of unix seconds, and a duration is a whole
  number of seconds.
- **Integer casts.** The Rust casts the code relies on (`i32 as u64`,
  `u64 as i64`, `u64 as i32`, `i64 as usize`) are written out in module `Ints`.
- **Collaborators.** The GraphQL server, object store, social-network API,
  feed fetch, mail server and session store are not modelled. Each operation
  takes their answers as parameters. Operations with effects return the
  sequence of calls they made, so that "not called" and "only after" can be
  stated.
- **Randomness.** `random!(1, len)` and `random_ranged` become a
  nondeterministic choice.
- **Unwrap panics.** An `unwrap` that panics on malformed server data (a
  timestamp or a `tweet_at` text) becomes a well-formedness precondition on
  the answer.
- **Mutable state.**
  - The clokwerk scheduler is class `Triggers.AsyncScheduler`, holding the
    list of jobs being built.
  - The tokio runtime is class `Scheduler.Runtime`, holding the spawned
    schedulers by handle and the set of aborted handles.
  - The supervisor is class `Supervisor.Actor`, and its mailbox is class
    `Supervisor.Channel`.
  - Each method of these classes is proved against a pure function of the old
    state: `StartSpec`, `HandleSpec` and `Drain` for the actor.
- **Sorting.** The in-place `sort_by` is an insertion sort on an array. It is
  proved to compute `StableSort.SortDesc`, which is in turn proved sorted, a
  permutation, and headed by the first newest element.

Four behaviours of the code that are easy to misread:

- The weekday flags do not select weekdays. clokwerk keeps one run count per
  job, and each `count(..)` call of the weekly chain replaces the previous
  one. So the job is registered on every weekday, and its run count is
  Saturday's flag as 0 or 1. `Triggers.WeeklyRunCountIsSaturdays` and
  `Triggers.WeekdayFlagsIgnored` state this.

- A running feed job never sees the watermark it writes. Each job holds the
  task as it was when the job was registered, and every firing works on a
  clone of that copy. A successful post writes the watermark to the store
  only. So on an unchanged feed, a non-random task selects the same newest
  item at every poll until a scheduler start or restart reloads the task.
  `Posting.FireRssJob` states this.
- The watermark written is the feed's channel `pub_date`, not the date of the
  item that was posted. `Posting.ChannelWatermarkRepost` states when this
  makes the same item post again at the first poll after a reload.
- The confirmation code check compares UTF-8 byte length with 6, and accepts
  any numeric character.

## Model

| member | source | states |
|---|---|---|
| Ints.I32AsU64 | src/model.rs:31 | `i32 as u64` keeps the low 32 bits, and the result is below 2^31 exactly when the input is not negative |
| Ints.U64AsI64 | src/gq/load_session.rs:116 | `u64 as i64` keeps the value modulo 2^64, and leaves values below 2^63 unchanged |
| Ints.U64AsI32 | src/gq/store_session.rs:61 | `u64 as i32` keeps the low 32 bits, and leaves values below 2^31 unchanged |
| Ints.I64AsU64 | src/routes/auth.rs:469 | `i64 as usize` keeps the value modulo 2^64, and leaves non-negative values unchanged |
| Ints.I32ThroughU64ToI64 | src/model.rs:31 | an `i32` widened to `u64` and read back as `i64` is the original number, negative ones included |
| Ints.I32ThroughU64ToI32 | src/gq/store_session.rs:61 | an `i32` widened to `u64` and cut back to `i32` is the original number |
| Ints.SmallU64ThroughI32 | src/gq/store_session.rs:61 | a `u64` below 2^31 survives the trip through `i32` and back |
| GqError.BuildErrors | api/src/gq/error.rs:25-35 | `Hasura` with the first error exactly when the list is present and non-empty, `DataNotFound` otherwise; never `Network`, `SessionNotFound` or `Whatever` |
| GqError.DataOf | src/gq/get_self.rs:77-82 | a network failure gives `Network`, a response with data gives that data, and a response without data gives `build_errors` of its errors |
| GqCommon.RoleToEnum | api/src/gq/common.rs:49-60 | each `Role` maps to the `RoleEnum` case of the same name, in both directions |
| GqCommon.RoleToEnumInjective | api/src/gq/common.rs:54-58 | distinct roles map to distinct enum cases |
| GqCommon.RoleToEnumOnto | api/src/gq/common.rs:54-58 | every enum case is the image of some role |
| GqCommon.FromInstant | api/src/gq/common.rs:17-21 | formatting an instant gives RFC 3339 text, represented by the instant it denotes |
| GqCommon.ToInstant | api/src/gq/common.rs:12-16 | parsing well-formed RFC 3339 text gives the instant it denotes; malformed text is excluded, as the `unwrap` panics on it |
| GqCommon.InstantRoundTrip | api/src/gq/common.rs:12-21 | parsing the RFC 3339 text of an instant gives the instant back; this follows from representing the text by its instant |
| GqCommon.ToInstantOpt | api/src/gq/list_active_tasks.rs:215 | an optional timestamp converts to an optional instant that is present exactly when the timestamp is |
| Model.FromSession | src/model.rs:20-34 | id, tokens and issue time are copied; the expiry is present exactly when stored; a non-negative stored expiry is kept; a negative one becomes a huge duration of at least 2^63 seconds |
| GetSelf.RoleFromEnum | src/gq/get_self.rs:85-89 | each enum case maps to the role of the same name, in both directions |
| GetSelf.RoleRoundTrip | src/gq/get_self.rs:85-89 | the two role conversions are inverse to each other, both ways round |
| GetSelf.UserOf | src/gq/get_self.rs:97-111 | id, email, active, email_confirmed and the code are copied; the role is converted; each optional timestamp is absent exactly when it was absent, and otherwise holds the parsed instant |
| GetSelf.GetSelf | src/gq/get_self.rs:68-113 | network failure gives `Network`; missing data gives `build_errors`; no row gives `Ok(None)`; a row gives `Ok(Some(UserOf(row)))` |
| StoreSession.TokenOfRow | src/gq/store_session.rs:77-83 | the token is built from the response row: id, tokens and issue time come from the row |
| StoreSession.Variables | src/gq/store_session.rs:57-63 | id and tokens are copied verbatim; the issue time is sent as RFC 3339; the expiry is sent as `i32` seconds, present exactly when it is set and equal to it below 2^31 |
| StoreSession.StoreSessionResult | src/gq/store_session.rs:67-83 | network failure gives `Network`; missing data gives `build_errors`; a missing row gives `SessionNotFound`; otherwise the token of the returned row |
| StoreSession.StoreRoundTrip | src/gq/store_session.rs:55-84 | a token whose expiry is below 2^31 seconds and that the server echoes back comes back unchanged |
| StoreSession.LongExpiryChanges | src/gq/store_session.rs:61 | an expiry of 2^31 seconds does not survive the store: it comes back changed |
| LoadSession.TokenExpired | src/gq/load_session.rs:111-128 | expired once `now` is strictly past the issue time plus the lifetime (7200 s by default, cast `u64 as i64`) less 300 s; its cases are stated by `TokenExpiredCases` |
| LoadSession.TokenExpiredCases | src/gq/load_session.rs:111-128 | expired exactly when issue time + (expiry, or 7200) − 300 < now, strictly; a missing expiry gives 6900 valid seconds; an expiry of at least 2^63 wraps negative |
| LoadSession.ExpiredMonotone | src/gq/load_session.rs:127 | once expired, a token stays expired at every later time |
| LoadSession.ExpiryBoundary | src/gq/load_session.rs:127 | at the boundary the token is still valid; one second later it is expired |
| LoadSession.NegativeStoredExpiry | src/gq/load_session.rs:86-94 | a negative expiry stored in the row counts as that negative number of seconds after the casts |
| LoadSession.LoadSession | src/gq/load_session.rs:77-106 | the load error, or `SessionNotFound`, with nothing else called; a fresh token returned unchanged; an expired one without a refresh token fails; with one, a refresh, then a store of the new token and the stored result; a failed refresh stores nothing |
| TimeFormat.FormatTweetAt | src/model.rs:258-266 | `HH:MM:SS`: eight characters with colons at positions 2 and 5 |
| TimeFormat.ParseTime | api/src/gq/list_active_tasks.rs:174-178 | only eight-character text parses as a time |
| TimeFormat.ParseFormatted | src/model.rs:258-266 | parsing a formatted time gives the time back |
| TimeFormat.FormatParsed | api/src/gq/list_active_tasks.rs:174-178 | formatting a parsed time gives the original text back |
| StableSort.FirstNewestIndex | src/model.rs:340-348 | the index of an element with the largest key such that every earlier element has a smaller key |
| StableSort.FirstNewestUnique | src/model.rs:340-348 | only one index has that property |
| StableSort.SortDesc | src/model.rs:340-341 | the stable newest-first order, as insertion sort: each element goes after every earlier one whose key is at least its own; properties in the `Sort*` lemmas |
| StableSort.InsertPermutes | src/model.rs:340-341 | one insertion step adds exactly the inserted element |
| StableSort.InsertKeepsSorted | src/model.rs:340-341 | an insertion step keeps a newest-first sequence newest-first |
| StableSort.InsertHead | src/model.rs:340-341 | the inserted element becomes the head exactly when its key beats the old head's |
| StableSort.SortPermutes | src/model.rs:340-341 | the sort is a permutation of its input |
| StableSort.SortIsSorted | src/model.rs:340-341 | the sort output is newest first |
| StableSort.SortHead | src/model.rs:340-348 | the head of the sorted sequence is the first newest element of the input: among equal dates, the earliest in input order |
| StableSort.SortedMember | src/model.rs:343-346 | every position of the sorted sequence holds an element of the input |
| StableSort.InsertAt | src/model.rs:340-341 | one pass of the in-place insertion sort: the array up to `i` becomes `Insert` of the old prefix and the old `a[i]`, and the rest is unchanged |
| StableSort.InsertAtPosition | src/model.rs:340-341 | `Insert` places the element right after the last element whose key is at least its own, when every later key is smaller |
| StableSort.SortInPlace | src/model.rs:340-341 | the in-place sort leaves exactly the stable newest-first order in the array |
| Render.Replace | src/model.rs:413-417 | `str::replace` for a non-empty pattern: occurrences found left to right, never overlapping; `ReplaceIsSplitJoin` ties it to split-then-join |
| Render.ReplaceIsSplitJoin | src/model.rs:413-417 | `replace` equals splitting at the pattern and joining with the replacement |
| Render.ReplaceSelf | src/model.rs:413-417 | replacing a pattern by itself changes nothing |
| Render.SplitJoinRoundTrip | src/model.rs:413-417 | splitting at a pattern and joining with it gives the text back |
| Render.ReplaceAbsent | src/model.rs:413-417 | a text that does not contain the pattern is left as it is |
| Render.SplitPiecesAvoid | src/model.rs:413-417 | no piece of a split contains the pattern |
| Render.ToMessage | src/model.rs:411-421 | with a template, `{title}`, `{pub_date}`, `{url}` and the escape `\n` substituted in that order, each over the previous output; without one, the title, a blank line and the link |
| Render.LiteralTemplateVerbatim | src/model.rs:411-421 | a template containing none of `{title}`, `{pub_date}`, `{url}` and the escape `\n` is posted verbatim |
| Render.TitleTemplate | src/model.rs:413-414 | the template `{title}` posts a title without placeholders as it is |
| Render.ChainedSubstitution | src/model.rs:413-417 | substitutions are chained: for every item whose title has no `{title}`, the template `{title}` renders like the title used as the template, so placeholders inside the title are substituted too |
| Render.UrlTitleBecomesLink | src/model.rs:413-417 | a title reading `{url}` is posted as the link |
| Triggers.BoolAsUsize | src/model.rs:302 | `bool as usize` is 1 for true and 0 for false |
| Triggers.WeeklyRegistrations | src/model.rs:287-320 | seven registrations, Sunday to Saturday in order, each at the formatted time |
| Triggers.WeeklyCounts | src/model.rs:302-320 | the arguments of the seven `count` calls, one per weekday in call order |
| Triggers.RssRegistrations | src/model.rs:240-252 | a random feed task gets the weekly registrations of its schedule |
| Triggers.SetCount | src/model.rs:302 | replaces the run count of the last job, and changes nothing else |
| Triggers.WeeklyCountsFollowFlags | src/model.rs:299-320 | the `count` call for a day receives 1 exactly when that day's flag is set, and 0 exactly when it is not |
| Triggers.WeeklyRunCountIsSaturdays | src/model.rs:281-321 | the weekly job's run count is 1 exactly when Saturday is enabled, and 0 exactly when it is not |
| Triggers.WeekdayFlagsIgnored | src/model.rs:281-321 | two schedules with the same time and Saturday flag give the same job, whatever their Sunday-to-Friday flags |
| Triggers.WorkdaysOnlyGetsCountZero | src/model.rs:299-320 | a schedule enabled Monday to Friday only passes 1 to five `count` calls but leaves the run count 0 |
| Triggers.WeeklyDaysDistinct | src/model.rs:299-320 | the seven registrations are on seven different days |
| Triggers.PolledFeedIgnoresFlags | src/model.rs:246-251 | a non-random feed task gets "every day at its time" plus "every 4 hours" and no run count, whatever its weekday flags |
| Triggers.AsyncScheduler.constructor | api/src/scheduler.rs:57 | a new scheduler has no jobs |
| Triggers.AsyncScheduler.Every | src/model.rs:249 | `every` opens a new job with one registration |
| Triggers.AsyncScheduler.AndEvery | src/model.rs:251 | `and_every` adds a registration to the open job, and nothing else changes |
| Triggers.AsyncScheduler.At | src/model.rs:250 | `at` sets the time of the open registration, and nothing else changes |
| Triggers.AsyncScheduler.Count | src/model.rs:302 | `Job::count` replaces the run count of the open job, and nothing else changes |
| Triggers.AsyncScheduler.Run | src/model.rs:254 | `run` attaches the action to the last job, and nothing else changes |
| Triggers.AsyncScheduler.AddWeekday | src/model.rs:299-302 | one `every`/`and_every`, `at`, `count` step of the weekly chain |
| Triggers.AsyncScheduler.ToAsyncJob | src/model.rs:281-321 | appends exactly one job, with the weekly registrations of the schedule and with the last `count` argument, Saturday's flag, as its run count |
| Triggers.AsyncScheduler.ScheduleFixed | src/model.rs:378-383 | appends one job, with the weekly registrations and run count, that posts the fixed task |
| Triggers.AsyncScheduler.ScheduleRss | src/model.rs:237-255 | appends one job, with the task's feed registrations and run count (the weekly one when random, none otherwise), that runs the feed task |
| Posting.Payload | src/model.rs:116-140 | the same text; a plain post exactly when there is no uploaded media; otherwise exactly the one uploaded media id |
| Posting.TweetMessage | src/model.rs:109-145 | without media, one post call; with media, the bucket first, then the upload, then the post with the uploaded id; a bucket or upload failure ends the call with that error before anything is posted |
| Posting.SendResult | src/model.rs:142-144 | the post succeeds exactly when the endpoint does, with its answer |
| Posting.RunFixedTask | src/model.rs:335-376 | no messages: nothing selected, nothing called; otherwise a message of the task; non-random: the first newest by `created_at`; then the session load, and the post only if that worked |
| Posting.NewestUnseen | src/model.rs:190-202 | a chosen item is an item of the feed with the largest date, and newer than the watermark when there is one |
| Posting.NewestUnseenIff | src/model.rs:190-207 | a non-random feed task finds an item exactly when the feed has one strictly newer than the watermark, or there is no watermark |
| Posting.SelectRssItem | src/model.rs:182-203 | random: some item of the feed; otherwise the first newest item, gated by the watermark |
| Posting.ExecTweet | src/model.rs:175-235 | fetch first; a fetch failure or no item ends with an error and nothing else called; then session load, rendered post and result of the post; the watermark update only after a successful post, with the channel date, leaving the result unchanged |
| Posting.FireRssJob | src/model.rs:253-254 | each firing of a feed job runs `exec_tweet` on the task registered with the job: a non-random task selects against the registration-time watermark at every firing, whatever watermarks earlier firings wrote; on an unchanged feed every firing selects the same item; each successful post is followed by a watermark write |
| Posting.ChannelWatermarkRepost | src/model.rs:227-232 | at the first poll after a start or restart reloads the task with the channel date as its watermark, the same newest item is chosen again exactly when the channel date is older than that item |
| Posting.StaleChannelDatePostsTwice | src/model.rs:227 | a feed whose channel date is older than its only item posts that item again at the first poll after a reload |
| ListActiveTasks.MessageOf | api/src/gq/list_active_tasks.rs:159-168 | the message carries the enclosing user's id; id, text, media id, priority and timestamps are copied |
| ListActiveTasks.MessagesOf | api/src/gq/list_active_tasks.rs:155-172 | no tag gives no messages; a tag gives one message per message row, in order |
| ListActiveTasks.ScheduleOf | api/src/gq/list_active_tasks.rs:174-186 | the parsed time, and the flags in the order sun, mon, tue, wed, thu, fri, sat |
| ListActiveTasks.RegisteredTimeIsStoredText | api/src/gq/list_active_tasks.rs:174-186 | the trigger time later built from a parsed `tweet_at` is the stored text itself |
| ListActiveTasks.FixedTaskOf | api/src/gq/list_active_tasks.rs:150-189 | the user id, the random flag, the schedule and the messages of one fixed-task row |
| ListActiveTasks.RssTaskOf | api/src/gq/list_active_tasks.rs:194-217 | id, url, random flag, template and watermark copied unchanged, with the user id and the schedule |
| ListActiveTasks.ActiveUserOf | api/src/gq/list_active_tasks.rs:149-222 | the user id, and one task per row, in order, for both kinds; fixed tasks are not filtered |
| ListActiveTasks.ListActiveTasks | api/src/gq/list_active_tasks.rs:135-224 | network failure gives `Network`, missing data gives `build_errors`, and otherwise one active user per returned user, in order |
| ListActiveTasks.MessagesCarryOwner | api/src/gq/list_active_tasks.rs:159-168 | every message of every task of a user carries that user's id, which is the row's id |
| Scheduler.Runtime.Spawn | api/src/scheduler.rs:74-79 | a spawn adds one new scheduler under a fresh handle; all others remain |
| Scheduler.Runtime.Abort | src/mpsc.rs:107 | an abort marks the handle aborted; nothing else changes |
| Scheduler.FixedJobs | api/src/scheduler.rs:59-65 | the jobs of the fixed tasks that have at least one message, in list order; its properties are the `FixedJobs*` lemmas |
| Scheduler.HostJobs | api/src/scheduler.rs:53-82 | the job list of a spawned scheduler: the fixed jobs, then the feed jobs |
| Scheduler.RssJobs | api/src/scheduler.rs:67-72 | one job per feed task, in order |
| Scheduler.FixedJobsFilter | api/src/scheduler.rs:59-65 | a fixed task gets a job exactly when it is listed and has at least one message |
| Scheduler.FixedJobsAreFixed | api/src/scheduler.rs:59-65 | every job of the fixed group posts a fixed task and carries its weekly registrations |
| Scheduler.FixedJobsAppend | api/src/scheduler.rs:59-65 | the filter keeps list order: the jobs of a concatenation are the concatenated jobs |
| Scheduler.FixedBeforeRss | api/src/scheduler.rs:59-72 | in a scheduler, the jobs before the feed jobs all post fixed tasks |
| Scheduler.RssAfterFixed | api/src/scheduler.rs:59-72 | after the fixed-task jobs come the feed jobs, job i of them running feed task i |
| Scheduler.RegisterFixedTasks | api/src/scheduler.rs:59-65 | appends the jobs of the fixed tasks that have messages, in order |
| Scheduler.RegisterRssTasks | api/src/scheduler.rs:67-72 | appends one job per feed task, in order |
| Scheduler.StartTasks | api/src/scheduler.rs:53-82 | always `Some` of a fresh handle, even with nothing registered; the spawned scheduler holds the fixed jobs, then the feed jobs |
| Scheduler.StartTaskForUser | api/src/scheduler.rs:37-51 | a query failure gives `GraphqlError`, an empty list gives `FailedToStartTasks`, with nothing spawned; otherwise only the first user's tasks are started |
| Scheduler.UsersJobs | api/src/scheduler.rs:23 | one scheduler per user, in order |
| Scheduler.HandlePairs | api/src/scheduler.rs:28-35 | each user's id paired with `Some` of the handle of its scheduler |
| Scheduler.FromIter | api/src/scheduler.rs:25 | `HashMap::from_iter`: the pairs inserted in order, a later key replacing an earlier one; `FromIterLast` states the result |
| Scheduler.FromIterLast | api/src/scheduler.rs:25 | `HashMap::from_iter` has exactly the listed keys, and a repeated key keeps its last value |
| Scheduler.HandleMapShape | api/src/scheduler.rs:17-26 | the map's keys are exactly the returned user ids, each mapped to `Some` of a started handle |
| Scheduler.StartEach | api/src/scheduler.rs:23 | starts one scheduler per user, in order, and returns the pairs |
| Scheduler.StartScheduler | api/src/scheduler.rs:17-26 | a query failure gives `GraphqlError` with nothing spawned; otherwise one scheduler per user and the map of their handles; nothing is aborted |
| Supervisor.StartSpec | src/mpsc.rs:122-129 | the registry is replaced, by the new map or by an empty map; nothing is aborted, and the actor stays as alive as it was |
| Supervisor.RestartSpec | src/mpsc.rs:102-119 | the restart arm: abort the user's handle, reload the user's tasks, and on success spawn one scheduler for the first user returned; its properties are the `Restart*` lemmas |
| Supervisor.HandleSpec | src/mpsc.rs:96-121 | `handle_message` dispatches on the message; a dead actor handles nothing |
| Supervisor.Drain | src/mpsc.rs:131-138 | messages are taken in order, never more than there are, and none once the actor has died |
| Supervisor.StartKeepsOldHandlesRunning | src/mpsc.rs:122-129 | a start aborts no old handle; on failure the registry is empty; on success its keys are exactly the returned users |
| Supervisor.RestartAborts | src/mpsc.rs:104-108 | a restart aborts exactly the user's current handle, and only when the entry holds one |
| Supervisor.RestartPanicIff | src/mpsc.rs:110-114 | the actor dies exactly when the restart succeeds for a user with no entry |
| Supervisor.FailedRestartKeepsAbortedHandle | src/mpsc.rs:115-117 | a failed restart leaves the registry unchanged, still naming the handle just aborted |
| Supervisor.RestartInstallsNewHandle | src/mpsc.rs:110-114 | a successful restart points the entry at the newly spawned scheduler of the first user returned |
| Supervisor.RestartLeavesOthers | src/mpsc.rs:102-119 | every other user's entry is untouched |
| Supervisor.DeadActorIgnoresMessages | src/mpsc.rs:131-138 | once the actor has died, no message changes anything |
| Supervisor.DrainStopsOnlyWhenDead | src/mpsc.rs:131-138 | messages stay unhandled only when the actor has died |
| Supervisor.Channel.Send | src/mpsc.rs:156 | a send succeeds exactly when the receiver is alive, and only then queues the message |
| Supervisor.Actor.constructor | src/mpsc.rs:39-44 | a new actor has an empty registry |
| Supervisor.Actor.StartScheduler | src/mpsc.rs:122-129 | the new state is `StartSpec` of the old one |
| Supervisor.Actor.HandleMessage | src/mpsc.rs:96-121 | the new state is `HandleSpec` of the old one, with the panic closing the mailbox |
| Supervisor.Actor.Run | src/mpsc.rs:131-138 | one start, then the queued messages in order while the actor lives: the state is `Drain` of the started state, and the queue holds what was not taken |
| Supervisor.ActorHandle.StartScheduler | src/mpsc.rs:147-153 | queues a start message when the receiver is alive; otherwise nothing changes |
| Supervisor.ActorHandle.RestartTaskForUser | src/mpsc.rs:154-163 | `true` exactly when the restart message was queued |
| ApiRoutes.PassedSpecifiedMinutes | src/routes/api.rs:253-255 | strictly more than the given number of minutes lie between the issue time and now |
| ApiRoutes.CanUpsertEmail | src/routes/api.rs:240-251 | a code may be issued with no user, with no earlier code, or once five minutes have passed; cases in `CanUpsertEmailCases` |
| ApiRoutes.CanConfirmEmail | src/routes/api.rs:350-352 | a code confirms while at most ten minutes old, ten minutes included |
| ApiRoutes.CanUpsertEmailCases | src/routes/api.rs:240-255 | a code may be issued with no user or no earlier code, and otherwise exactly when more than 300 seconds have passed |
| ApiRoutes.CanUpsertEmailMonotone | src/routes/api.rs:240-255 | once issuing is allowed, it stays allowed |
| ApiRoutes.ConfirmWindow | src/routes/api.rs:350-352 | confirmation is allowed at exactly 600 seconds, refused at 601, and refused at every later time once it has been refused |
| ApiRoutes.ReissueWhileConfirmable | src/routes/api.rs:240-255 | between 300 and 600 seconds both a new code and a confirmation of the old one are allowed |
| ApiRoutes.Utf8Len | src/routes/api.rs:298 | `str::len`: the UTF-8 byte count, one to four bytes per character by code point |
| ApiRoutes.IsNumeric | src/routes/api.rs:299 | `char::is_numeric` on the decimal digits of ASCII, Arabic-Indic and full width |
| ApiRoutes.CodeFormatOk | src/routes/api.rs:297-301 | the `confirm_email` gate: six UTF-8 bytes, every character numeric |
| ApiRoutes.Utf8LenBounds | src/routes/api.rs:298-302 | the byte length is at least the character count, and equal to it exactly for ASCII text |
| ApiRoutes.AsciiCodeFormat | src/routes/api.rs:298-302 | on ASCII text the code check accepts exactly six decimal digits |
| ApiRoutes.ThreeArabicIndicDigitsPass | src/routes/api.rs:298-302 | three Arabic-Indic digits are six bytes, and pass the check |
| ApiRoutes.Decimal | src/routes/api.rs:218 | the decimal text of a number is non-empty and made of digits |
| ApiRoutes.DecimalRoundTrip | src/routes/api.rs:218 | reading the decimal text back gives the number |
| ApiRoutes.DecimalLength | src/routes/api.rs:218 | a k-digit number is written with k characters |
| ApiRoutes.IssuedCodePasses | src/routes/api.rs:218 | every code drawn from 100000..=999999 is six digits and passes the check of `confirm_email` |
| ApiRoutes.RegisterEmail | src/routes/api.rs:205-238 | an empty address is refused before any lookup; a lookup error, or a code issued too recently, ends it; otherwise a six-digit code is stored with role `Anonymous` and then mailed, and the result is the address or the mail error |
| ApiRoutes.ConfirmCheck | src/routes/api.rs:304-347 | in order: `UserNotFound`, `PermissionDenied`, `CodeNotRegistered`, `CodeExpired`, `CodeNotMatch`; it succeeds exactly when an unconfirmed user's stored code and address match and the code is at most 600 seconds old |
| ApiRoutes.ConfirmEmail | src/routes/api.rs:290-348 | a malformed code is refused before any lookup; a check failure stores nothing; success stores confirmed, no code, role `Basic`, and answers `true` |
| ApiRoutes.ConfirmNeedsIssuedCode | src/routes/api.rs:313-324 | the issued code confirms exactly within 600 seconds, and no other six-digit code ever does |
| ApiRoutes.VariantName | src/routes/api.rs:158-201 | the `Display` text of each error: its variant name as written, `InavlidCode` included, and the message of `Generic` |
| ApiRoutes.IntoResponse | src/routes/api.rs:108-156 | every error is a 400; the code names the error, except that `SendEmail` carries its cause and `Generic` its message and detail; `SMTPServerUnrechable` falls to the default arm and gets its name |
| ApiRoutes.ResponseCodesDistinct | src/routes/api.rs:110-144 | distinct fixed errors give distinct codes |
| ApiRoutes.ActionAuthMiddleware | src/routes/api.rs:659-680 | the request goes on exactly when the `ACTION_SECRET` header is present and equal to the secret; otherwise 401 |
| ApiRoutes.RestartScheduler | src/routes/api.rs:649-657 | answers whether the restart message reached the supervisor |
| AuthRoutes.TokenExpired | src/routes/auth.rs:317-334 | the handler's copy of `token_expired`, written out on its own; nothing in the handlers calls it |
| AuthRoutes.TokenExpiredTwinsAgree | src/routes/auth.rs:317-334 | the handler's `token_expired`, which is never called, decides exactly like the session gate's |
| AuthRoutes.HasuraClaimsFor | src/routes/auth.rs:446-462 | the default role is the role, the user id is the user's, and the allowed roles are the prefix of Anonymous, Basic, Premium ending at the role |
| AuthRoutes.IssueJwtClaims | src/routes/auth.rs:443-479 | `sub` and `x-hasura-user-id` are both the user's id; role and email are as given; `iat` is the current time cast to `usize` |
| AuthRoutes.DefaultRoleAllowed | src/routes/auth.rs:446-462 | the default role is among the allowed roles, and is the last of them |
| AuthRoutes.AllowedRolesNest | src/routes/auth.rs:446-462 | a more privileged role's allowed list extends a less privileged one's, and holds no role above itself |
| AuthRoutes.GetJwt | src/routes/auth.rs:381-441 | no record: `Anonymous` and unregistered; a record: its role and address, confirmed exactly when the record says so; a lookup or signing failure gives 500 |
| AuthRoutes.Logout | src/routes/auth.rs:241-269 | whenever the handler runs, redirects to `/login`; the session is destroyed only when the cookie names a stored one |

## Left out

- **Feeds.** `RssFeed::new` (HTTP fetch, XML parsing, RFC 2822 dates) is left out. A feed is a snapshot of its channel date and items, and each item carries the text its date displays as.
- **Social-network client.** src/twitter.rs (posting, media upload, token refresh) is represented by its answers. Its error texts are not modelled, so a failed refresh carries a fixed message.
- **Object storage, email and GraphQL transport.** The object store, SMTP delivery and `run_graphql` are represented by their answers.
- **Login.** Login mechanics (OAuth2, cookies, session-store extraction) are left out. A logout request without a `Cookie` header is rejected by the `TypedHeader<headers::Cookie>` extractor before `AuthRoutes.Logout` runs. JWT signing is a given answer; only the claims are modelled.
- **Thin mutation wrappers.** `upsert_email`, `update_last_pub_date_task_rss`, `upload_media` and `delete_media` are fallible store calls represented by their answers.
- **Per-user task query.** `list_active_tasks_by_user.rs` is not part of this model. Its answer is a parameter of `Scheduler.StartTaskForUser`, of the same shape as `list_active_tasks`.
- **Trigger firing.** How clokwerk fires registrations (`run_pending`, and how a run count of 0 or 1 limits the runs of a job) is foreign code. The model records the registrations and the one run count each job gets.
- **Concurrency.** tokio concurrency is left out: `spawn`, the one-second polling loop, `join_all`, `JoinHandle::abort` as a cancellation, and the channel capacity of 8. Handles are ids, and an abort only marks its id.
- Supervisor.Actor.Run: ends when the queue is empty, where the source would wait for further messages. The waiting itself is concurrency.
- **Time precision.** Subsecond parts of times and durations are dropped.
- LoadSession.TokenExpired: uses unbounded integers for `issued_at + valid_time`, so an `i64` overflow in the sum is not modelled.
- **Timestamp text.** Timestamps carry an instant or malformed text. `last_seen` is parsed as an ISO-8601 primitive date-time, so its offset is not interpreted.
- Posting.SelectRssItem: requires a non-empty feed in random mode. What `random!(1, 0)` returns is left to the library, and on an empty list `get(index - 1)` can only give `None` or panic.
- Posting.FireRssJob: requires a non-empty feed at every firing of a random task, for the same reason.
- GqCommon.FromInstant: is total, while `format(&Rfc3339).unwrap()` panics for instants whose year lies outside 0000–9999. Those instants (before -62167219200 or after 253402300799 unix seconds) are not excluded.
- ApiRoutes.IsNumeric: covers only the ASCII, Arabic-Indic and full-width decimal digits, a subset of Unicode's numeric characters. The lemmas about codes outside ASCII are stated only for characters inside that subset.
- Logging (`tracing`) is left out.
- **Dead code.** Commented-out code and the unused `_list_*` query files are left out.
