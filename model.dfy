/**
 * The entities of src/model.rs.
 *
 * An `OffsetDateTime` is an `Instant`, whole unix seconds; a `Duration` is a
 * whole number of seconds held in a `U64` (what `Duration::as_secs` returns).
 * A uuid is an opaque number.
 */
module Model {
  import opened Wrappers
  import opened Ints
  import opened GqError

  type Instant = int
  type Uuid = nat

  datatype Role = Anonymous | Basic | Premium

  /** The OAuth credential of one user, as stored in the `session` table. */
  datatype Token = Token(
    id: string,
    access_token: string,
    refresh_token: Option<string>,
    issued_at: Instant,
    expires_in: Option<U64>)

  /**
   * `Token::from_session`: the row's `expires_in` is an `i32` of seconds and
   * becomes `Duration::from_secs(v as u64)`.
   */
  function FromSession(
    id: string, access_token: string, refresh_token: Option<string>,
    expires_in: Option<I32>, issued_at: Instant): (t: Token)
    ensures t.id == id && t.access_token == access_token
    ensures t.refresh_token == refresh_token && t.issued_at == issued_at
    ensures t.expires_in.Some? <==> expires_in.Some?
    ensures expires_in.Some? && expires_in.value >= 0 ==> t.expires_in == Some(expires_in.value)
    ensures expires_in.Some? && expires_in.value < 0 ==> t.expires_in.value >= TWO_63
  {
    var secs := match expires_in
      case Some(v) => Some(I32AsU64(v))
      case None => None;
    Token(id, access_token, refresh_token, issued_at, secs)
  }

  /** A row of the `user` table as the server sees it. */
  datatype HasuraUser = HasuraUser(
    id: string,
    email: string,
    role: Role,
    active: bool,
    last_seen: Instant,
    email_confirmed: bool,
    email_confirmed_at: Option<Instant>,
    email_confirm_code: Option<string>,
    email_confirm_code_issued_at: Option<Instant>)

  datatype Message = Message(
    id: Uuid,
    user_id: string,
    text: string,
    media_id: Option<Uuid>,
    priority: I32,
    created_at: Instant,
    updated_at: Instant)

  /** The sort key of a fixed task's messages. */
  function CreatedAt(m: Message): int { m.created_at }

  /** A `time::Time`, to the second. */
  datatype TimeOfDay = TimeOfDay(hour: nat, minute: nat, second: nat)
  type Time = t: TimeOfDay | t.hour < 24 && t.minute < 60 && t.second < 60
    witness TimeOfDay(0, 0, 0)

  datatype Schedule = Schedule(
    tweet_at: Time,
    sun: bool, mon: bool, tue: bool, wed: bool, thu: bool, fri: bool, sat: bool)

  /** A fixed-time task: a weekly schedule over a bag of messages. */
  datatype EnabledTask = EnabledTask(
    schedule: Schedule,
    user_id: string,
    messages: seq<Message>,
    random: bool)

  /** A feed task: a schedule over an RSS feed, with the feed's watermark. */
  datatype RssTask = RssTask(
    id: Uuid,
    schedule: Schedule,
    user_id: string,
    url: string,
    random: bool,
    last_pub_date: Option<Instant>,
    template: Option<string>)

  datatype ActiveUser = ActiveUser(
    user_id: string,
    tasks: seq<EnabledTask>,
    rss_tasks: seq<RssTask>)

  /**
   * One feed item. `pub_date_text` is how the `time` crate displays
   * `pub_date` (`pub_date.to_string()`); the feed snapshot supplies it.
   */
  datatype RssItem = RssItem(title: string, link: string, pub_date: Instant, pub_date_text: string)

  /** The sort key of a feed's items. */
  function PubDate(item: RssItem): int { item.pub_date }

  /** A fetched feed: channel-level data plus its items. */
  datatype RssFeed = RssFeed(title: string, link: string, pub_date: Instant, items: seq<RssItem>)

  /** The JSON body of a post: plain, or with the ids of uploaded media. */
  datatype TweetJson =
    | Tweet(text: string)
    | TweetWithMedia(text: string, media_ids: seq<string>)

  /** Failures of the social-network client (src/twitter.rs, not part of this model). */
  datatype TwitterError =
    | FailedRefreshToken
    | DecodeTwitterResponse
    | TwitterNetworkError
    | TwitterApiError(status: nat)
    | UserNotFound
    | UploadMedia

  /** Failures of the object store client. */
  datatype MinioError = MinioError

  /** `crate::error::Error`. */
  datatype Error =
    | GraphqlError(hasura: HasuraError)
    | MinioFailure(minio: MinioError)
    | TwitterFailure(twitter: TwitterError)
    | Whatever(message: string)
}
