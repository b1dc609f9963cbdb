/**
 * The `session` table as the GraphQL layer sees it, and `store_session` of
 * src/gq/store_session.rs: a token is written as mutation variables and the
 * token returned is read from the row the server answers with.
 */
module StoreSession {
  import opened Wrappers
  import opened Ints
  import opened Model
  import opened GqError
  import opened GqCommon

  /** A row of the `session` table; `expires_in` is an `i32` of seconds. */
  datatype SessionRow = SessionRow(
    id: string,
    expires_in: Option<I32>,
    access_token: string,
    refresh_token: Option<string>,
    issued_at: Timestamptz)

  /** The token a row denotes (`Token::from_session`). */
  function TokenOfRow(row: SessionRow): (t: Token)
    requires row.issued_at.Rfc3339?
    ensures t.id == row.id && t.access_token == row.access_token
    ensures t.refresh_token == row.refresh_token && t.issued_at == row.issued_at.instant
  {
    FromSession(row.id, row.access_token, row.refresh_token, row.expires_in, ToInstant(row.issued_at))
  }

  datatype StoreSessionVariables = StoreSessionVariables(
    id: string,
    access_token: string,
    refresh_token: Option<string>,
    expires_in: Option<I32>,
    issued_at: Timestamptz)

  /** The mutation variables: strings copied, the expiry's whole seconds cast `as i32`. */
  function Variables(token: Token): (v: StoreSessionVariables)
    ensures v.id == token.id && v.access_token == token.access_token
    ensures v.refresh_token == token.refresh_token
    ensures v.issued_at == FromInstant(token.issued_at)
    ensures v.expires_in.Some? <==> token.expires_in.Some?
    ensures v.expires_in.Some? ==> v.expires_in.value % TWO_32 == token.expires_in.value % TWO_32
    ensures v.expires_in.Some? && token.expires_in.value < TWO_31 ==> v.expires_in.value == token.expires_in.value
  {
    StoreSessionVariables(
      token.id, token.access_token, token.refresh_token,
      match token.expires_in
        case Some(d) => Some(U64AsI32(d))
        case None => None,
      FromInstant(token.issued_at))
  }

  datatype StoreSessionData = StoreSessionData(insert_session_one: Option<SessionRow>)

  predicate WellFormedStoreAnswer(t: Transport<StoreSessionData>)
  {
    t.Delivered? && t.response.data.Some? && t.response.data.value.insert_session_one.Some? ==>
      t.response.data.value.insert_session_one.value.issued_at.Rfc3339?
  }

  /**
   * What `store_session` returns for the server's answer: transport and
   * GraphQL errors as usual, `SessionNotFound` when no row comes back, and
   * otherwise the token of the returned row.
   */
  function StoreSessionResult(t: Transport<StoreSessionData>): (r: Result<Token, HasuraError>)
    requires WellFormedStoreAnswer(t)
    ensures t.NetworkFailure? ==> r == Failure(Network)
    ensures t.Delivered? && t.response.data.None? ==> r == Failure(BuildErrors(t.response.errors))
    ensures t.Delivered? && t.response.data.Some? && t.response.data.value.insert_session_one.None? ==>
      r == Failure(SessionNotFound)
    ensures r.Success? <==>
      t.Delivered? && t.response.data.Some? && t.response.data.value.insert_session_one.Some?
    ensures r.Success? ==> r.value == TokenOfRow(t.response.data.value.insert_session_one.value)
  {
    match DataOf(t)
    case Failure(e) => Failure(e)
    case Success(data) =>
      match data.insert_session_one
      case None => Failure(SessionNotFound)
      case Some(row) => Success(TokenOfRow(row))
  }

  /** The row a server that stores the variables as given answers with. */
  function EchoRow(v: StoreSessionVariables): SessionRow
  {
    SessionRow(v.id, v.expires_in, v.access_token, v.refresh_token, v.issued_at)
  }

  /**
   * Storing a token whose expiry is at most `i32::MAX` seconds and reading
   * the stored row back gives the same token.
   */
  lemma StoreRoundTrip(token: Token)
    requires token.expires_in.Some? ==> token.expires_in.value < TWO_31
    ensures StoreSessionResult(Delivered(GraphQlResponse(
      Some(StoreSessionData(Some(EchoRow(Variables(token))))), None))) == Success(token)
  {
    if token.expires_in.Some? {
      SmallU64ThroughI32(token.expires_in.value);
    }
  }

  /** A longer expiry does not survive: it comes back changed. */
  lemma LongExpiryChanges()
    ensures
      var token := Token("u", "a", None, 0, Some(TWO_31));
      var r := StoreSessionResult(Delivered(GraphQlResponse(
        Some(StoreSessionData(Some(EchoRow(Variables(token))))), None)));
      r.Success? && r.value != token
  {
  }
}
