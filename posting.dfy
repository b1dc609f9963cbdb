/**
 * What a task does when its job fires (src/model.rs): `Message::tweet`,
 * `EnabledTask::run_task` and `RssTask::exec_tweet`.
 *
 * The collaborators (object store, media upload, the posting endpoint, the
 * feed fetch, the session loader and the watermark mutation) are given as
 * their answers. Each operation returns the trace of the calls it made, in
 * order, so that "not called" and "called only after" can be stated.
 */
module Posting {
  import opened Wrappers
  import opened Model
  import opened GqError
  import opened StableSort
  import opened Render
  import Triggers

  datatype Call =
    | LoadSession(user_id: string)
    | GetOrCreateBucket(bucket: string)
    | MediaUpload(owner: string, media: Uuid)
    | SendTweet(token: Token, payload: TweetJson)
    | FetchFeed(url: string)
    | UpdateLastPubDate(task_id: Uuid, date: Instant)

  /** A result together with the calls made to reach it. */
  datatype Outcome<T> = Outcome(result: Result<T, Error>, calls: seq<Call>)

  /** The payload for a message, given the id of its uploaded media if it has one. */
  function Payload(m: Message, uploaded: Option<string>): (j: TweetJson)
    ensures j.text == m.text
    ensures uploaded.None? <==> j.Tweet?
    ensures uploaded.Some? ==> j.media_ids == [uploaded.value]
  {
    match uploaded
    case None => Tweet(m.text)
    case Some(id) => TweetWithMedia(m.text, [id])
  }

  /**
   * `Message::tweet`. A message with media first gets its owner's bucket,
   * then uploads the media, and only then posts with the one media id it got
   * back; a failure of either step ends the call with that error.
   */
  function TweetMessage(
    m: Message, token: Token,
    bucket: Result<string, MinioError>,
    upload: Result<string, TwitterError>,
    send: Result<string, TwitterError>): (o: Outcome<string>)
    ensures m.media_id.None? ==>
      o.calls == [SendTweet(token, Tweet(m.text))]
    ensures m.media_id.Some? ==> |o.calls| >= 1 && o.calls[0] == GetOrCreateBucket(m.user_id)
    ensures m.media_id.Some? && bucket.Failure? ==>
      o.result == Failure(MinioFailure(bucket.error)) && |o.calls| == 1
    ensures m.media_id.Some? && bucket.Success? && upload.Failure? ==>
      o.result == Failure(TwitterFailure(upload.error))
      && o.calls == [GetOrCreateBucket(m.user_id), MediaUpload(m.user_id, m.media_id.value)]
    ensures m.media_id.Some? && bucket.Success? && upload.Success? ==>
      o.calls == [GetOrCreateBucket(m.user_id), MediaUpload(m.user_id, m.media_id.value),
                  SendTweet(token, TweetWithMedia(m.text, [upload.value]))]
    ensures (exists k :: 0 <= k < |o.calls| && o.calls[k].SendTweet?) ==>
      o.calls[|o.calls| - 1].SendTweet? && o.result == SendResult(send)
  {
    match m.media_id
    case None =>
      Outcome(SendResult(send), [SendTweet(token, Payload(m, None))])
    case Some(media) =>
      var c1 := [GetOrCreateBucket(m.user_id)];
      if bucket.Failure? then Outcome(Failure(MinioFailure(bucket.error)), c1)
      else
        var c2 := c1 + [MediaUpload(m.user_id, media)];
        if upload.Failure? then Outcome(Failure(TwitterFailure(upload.error)), c2)
        else Outcome(SendResult(send), c2 + [SendTweet(token, Payload(m, Some(upload.value)))])
  }

  /** The posting endpoint's answer, with its error wrapped. */
  function SendResult(send: Result<string, TwitterError>): (r: Result<string, Error>)
    ensures r.Success? <==> send.Success?
    ensures send.Success? ==> r.value == send.value
  {
    match send
    case Success(v) => Success(v)
    case Failure(e) => Failure(TwitterFailure(e))
  }

  /** A fresh array holding `s`. */
  method ArrayOf<T>(s: seq<T>) returns (a: array<T>)
    ensures fresh(a) && a[..] == s
  {
    a := new T[|s|](i requires 0 <= i < |s| => s[i]);
  }

  /**
   * `EnabledTask::run_task`. No messages: nothing is posted and nothing is
   * called. Otherwise the messages are sorted newest first; a random task
   * takes any of them, any other task the first. The user's session is then
   * loaded and, if that worked, the message is posted. Every failure is only
   * logged.
   */
  method RunFixedTask(
    task: EnabledTask,
    session: Result<Token, HasuraError>,
    bucket: Result<string, MinioError>,
    upload: Result<string, TwitterError>,
    send: Result<string, TwitterError>)
    returns (selected: Option<Message>, calls: seq<Call>)
    ensures |task.messages| == 0 <==> selected.None?
    ensures |task.messages| == 0 ==> calls == []
    ensures selected.Some? ==> selected.value in task.messages
    ensures selected.Some? && !task.random ==>
      selected.value == task.messages[FirstNewestIndex(task.messages, CreatedAt)]
    ensures selected.Some? ==>
      calls == [LoadSession(task.user_id)] +
        (if session.Failure? then []
         else TweetMessage(selected.value, session.value, bucket, upload, send).calls)
  {
    var len := |task.messages|;
    if len == 0 {
      return None, [];
    }
    var a := ArrayOf(task.messages);
    SortInPlace(a, CreatedAt);
    SortPermutes(task.messages, CreatedAt);
    var message;
    if task.random {
      var index :| 1 <= index <= len;
      message := a[index - 1];
      SortedMember(task.messages, CreatedAt, index - 1);
    } else {
      message := a[0];
      SortHead(task.messages, CreatedAt);
    }
    selected := Some(message);
    calls := [LoadSession(task.user_id)];
    if session.Success? {
      var o := TweetMessage(message, session.value, bucket, upload, send);
      calls := calls + o.calls;
    }
  }

  /**
   * The newest item of a feed, if it is newer than the watermark; items of
   * equal date count in feed order.
   */
  function NewestUnseen(items: seq<RssItem>, watermark: Option<Instant>): (r: Option<RssItem>)
    ensures r.Some? ==> r.value in items
    ensures r.Some? ==> forall j :: 0 <= j < |items| ==> items[j].pub_date <= r.value.pub_date
    ensures r.Some? && watermark.Some? ==> r.value.pub_date > watermark.value
  {
    if |items| == 0 then None
    else
      var newest := items[FirstNewestIndex(items, PubDate)];
      match watermark
      case None => Some(newest)
      case Some(w) => if newest.pub_date > w then Some(newest) else None
  }

  /** The feed has an item strictly newer than the watermark. */
  ghost predicate HasNewer(items: seq<RssItem>, watermark: Option<Instant>)
  {
    exists j :: 0 <= j < |items| && (watermark.None? || items[j].pub_date > watermark.value)
  }

  /** A non-random feed task finds something to post exactly when the feed has a newer item. */
  lemma NewestUnseenIff(items: seq<RssItem>, watermark: Option<Instant>)
    ensures NewestUnseen(items, watermark).Some? <==> HasNewer(items, watermark)
  {
    if HasNewer(items, watermark) {
      var j :| 0 <= j < |items| && (watermark.None? || items[j].pub_date > watermark.value);
      var k := FirstNewestIndex(items, PubDate);
      assert PubDate(items[j]) <= PubDate(items[k]);
    }
  }

  /**
   * The item choice of `RssTask::exec_tweet`: the items are sorted newest
   * first; a random task takes any of them, any other the first one, and
   * only if it is newer than the task's `last_pub_date`.
   */
  method SelectRssItem(task: RssTask, items: seq<RssItem>) returns (selected: Option<RssItem>)
    requires task.random ==> |items| > 0
    ensures task.random ==> selected.Some? && selected.value in items
    ensures !task.random ==> selected == NewestUnseen(items, task.last_pub_date)
  {
    var len := |items|;
    var a := ArrayOf(items);
    SortInPlace(a, PubDate);
    SortPermutes(items, PubDate);
    if task.random {
      var index :| 1 <= index <= len;
      selected := Some(a[index - 1]);
      SortedMember(items, PubDate, index - 1);
    } else if a.Length == 0 {
      selected := None;
    } else {
      SortHead(items, PubDate);
      var post := a[0];
      match task.last_pub_date {
        case Some(last) =>
          selected := if post.pub_date > last then Some(post) else None;
        case None =>
          selected := Some(post);
      }
    }
  }

  /**
   * `RssTask::exec_tweet`. The feed is fetched and an item chosen. The text
   * is rendered from the task's template, the session loaded, and the post
   * sent; after a successful post the task's watermark is set to the feed's
   * channel date, and a failure of that update does not change the result.
   */
  method ExecTweet(
    task: RssTask,
    feed: Result<RssFeed, Error>,
    session: Result<Token, HasuraError>,
    send: Result<string, TwitterError>,
    update: Result<Uuid, HasuraError>)
    returns (selected: Option<RssItem>, result: Result<string, Error>, calls: seq<Call>)
    requires task.random && feed.Success? ==> |feed.value.items| > 0
    ensures |calls| >= 1 && calls[0] == FetchFeed(task.url)
    ensures feed.Failure? ==> selected.None? && result == Failure(feed.error) && |calls| == 1
    ensures feed.Success? && task.random ==> selected.Some? && selected.value in feed.value.items
    ensures feed.Success? && !task.random ==>
      selected == NewestUnseen(feed.value.items, task.last_pub_date)
    ensures feed.Success? && selected.None? ==> result.Failure? && result.error.Whatever? && |calls| == 1
    ensures selected.Some? ==> |calls| >= 2 && calls[1] == LoadSession(task.user_id)
    ensures selected.Some? && session.Failure? ==>
      result == Failure(GraphqlError(session.error)) && |calls| == 2
    ensures selected.Some? && session.Success? ==>
      |calls| >= 3 && calls[2] == SendTweet(session.value, Tweet(ToMessage(selected.value, task.template)))
      && result == SendResult(send)
    ensures selected.Some? && session.Success? && send.Failure? ==> |calls| == 3
    ensures selected.Some? && session.Success? && send.Success? ==>
      |calls| == 4 && calls[3] == UpdateLastPubDate(task.id, feed.value.pub_date)
  {
    calls := [FetchFeed(task.url)];
    if feed.Failure? {
      return None, Failure(feed.error), calls;
    }
    var f := feed.value;
    selected := SelectRssItem(task, f.items);
    if selected.None? {
      return None, Failure(Error.Whatever("スケージュールされていますが、ツイート対象のメッセージがありません")), calls;
    }
    var message := ToMessage(selected.value, task.template);
    calls := calls + [LoadSession(task.user_id)];
    if session.Failure? {
      return selected, Failure(GraphqlError(session.error)), calls;
    }
    calls := calls + [SendTweet(session.value, Tweet(message))];
    result := SendResult(send);
    if send.Failure? {
      return;
    }
    calls := calls + [UpdateLastPubDate(task.id, f.pub_date)];
    // The outcome of `update` is logged and otherwise ignored.
  }

  /**
   * The firings of one feed job (src/model.rs:253-254 and 162-173). The job
   * holds the task as it was when the job was registered, and every firing
   * runs `exec_tweet` on a clone of that copy. The channel date that a
   * successful post writes goes to the store only, so no firing sees what an
   * earlier one wrote: a non-random task selects against the registration-time
   * `last_pub_date` every time, and on an unchanged feed it selects the same
   * item at every poll until a start or restart reloads the task.
   */
  method FireRssJob(
    job: Triggers.Job,
    feeds: seq<RssFeed>,
    sessions: seq<Result<Token, HasuraError>>,
    sends: seq<Result<string, TwitterError>>,
    update: Result<Uuid, HasuraError>)
    returns (selections: seq<Option<RssItem>>, calls: seq<Call>)
    requires job.action.Some? && job.action.value.PostRss?
    requires |sessions| == |feeds| && |sends| == |feeds|
    requires job.action.value.rss.random ==> forall k :: 0 <= k < |feeds| ==> |feeds[k].items| > 0
    ensures |selections| == |feeds|
    ensures forall k :: 0 <= k < |feeds| && job.action.value.rss.random ==>
      selections[k].Some? && selections[k].value in feeds[k].items
    ensures forall k :: 0 <= k < |feeds| && !job.action.value.rss.random ==>
      selections[k] == NewestUnseen(feeds[k].items, job.action.value.rss.last_pub_date)
    ensures forall k :: 0 <= k < |feeds| && selections[k].Some? && sessions[k].Success? && sends[k].Success? ==>
      UpdateLastPubDate(job.action.value.rss.id, feeds[k].pub_date) in calls
    ensures !job.action.value.rss.random && (forall k :: 0 <= k < |feeds| ==> feeds[k] == feeds[0]) ==>
      forall k :: 0 <= k < |feeds| ==> selections[k] == selections[0]
  {
    var task := job.action.value.rss;
    selections, calls := [], [];
    var k := 0;
    while k < |feeds|
      invariant 0 <= k <= |feeds| && |selections| == k
      invariant forall j :: 0 <= j < k && task.random ==>
        selections[j].Some? && selections[j].value in feeds[j].items
      invariant forall j :: 0 <= j < k && !task.random ==>
        selections[j] == NewestUnseen(feeds[j].items, task.last_pub_date)
      invariant forall j :: 0 <= j < k && selections[j].Some? && sessions[j].Success? && sends[j].Success? ==>
        UpdateLastPubDate(task.id, feeds[j].pub_date) in calls
    {
      var selected, _, c := ExecTweet(task, Success(feeds[k]), sessions[k], sends[k], update);
      if selected.Some? && sessions[k].Success? && sends[k].Success? {
        assert c[3] in c;
      }
      selections := selections + [selected];
      calls := calls + c;
      k := k + 1;
    }
  }

  /**
   * When a start or restart reloads the task, its watermark is the channel
   * date written by the last successful post. The first poll after that
   * reload selects the same newest item again exactly when the channel date
   * is older than that item.
   */
  lemma ChannelWatermarkRepost(f: RssFeed, watermark: Option<Instant>)
    requires NewestUnseen(f.items, watermark).Some?
    ensures NewestUnseen(f.items, Some(f.pub_date)) == NewestUnseen(f.items, watermark)
        <==> f.pub_date < NewestUnseen(f.items, watermark).value.pub_date
  {
  }

  /**
   * A feed whose channel date is older than its only item: the item is
   * posted, and posted again after a reload that takes the channel date as
   * the watermark.
   */
  lemma StaleChannelDatePostsTwice()
    ensures
      var item := RssItem("news", "https://example.org/1", 200, "200");
      var f := RssFeed("feed", "https://example.org", 100, [item]);
      NewestUnseen(f.items, None) == Some(item)
      && NewestUnseen(f.items, Some(f.pub_date)) == Some(item)
  {
  }
}
