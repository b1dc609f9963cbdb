/**
 * The session gate of src/gq/load_session.rs: a stored token is used while
 * it is fresh, and refreshed and stored again once it has expired.
 */
module LoadSession {
  import opened Wrappers
  import opened Ints
  import opened Model
  import opened GqError
  import opened GqCommon
  import opened StoreSession

  /** Seconds of safety margin before the nominal expiry. */
  const MARGIN: int := 5 * 60
  /** The lifetime assumed when the token does not say. */
  const DEFAULT_EXPIRES_IN: U64 := 7200

  /** The lifetime `token_expired` works with: the expiry as `i64` minus the margin. */
  function ValidSeconds(expires_in: Option<U64>): int
  {
    U64AsI64(expires_in.GetOr(DEFAULT_EXPIRES_IN)) - MARGIN
  }

  /**
   * `token_expired`: the token is expired once `now` is strictly past its
   * issue time plus its lifetime less five minutes.
   */
  predicate TokenExpired(issued_at: Instant, expires_in: Option<U64>, now: Instant)
  {
    issued_at + ValidSeconds(expires_in) < now
  }

  /** The formula, case by case: a missing expiry counts as 7200 seconds. */
  lemma TokenExpiredCases(issued_at: Instant, expires_in: Option<U64>, now: Instant)
    ensures expires_in.None? ==> (TokenExpired(issued_at, expires_in, now) <==> now > issued_at + 6900)
    ensures expires_in.Some? && expires_in.value < TWO_63 ==>
      (TokenExpired(issued_at, expires_in, now) <==> issued_at + expires_in.value - 300 < now)
    ensures expires_in.Some? && expires_in.value >= TWO_63 ==>
      (TokenExpired(issued_at, expires_in, now) <==> issued_at + expires_in.value - TWO_64 - 300 < now)
  {
  }

  /** Once expired, a token stays expired. */
  lemma ExpiredMonotone(issued_at: Instant, expires_in: Option<U64>, now: Instant, later: Instant)
    requires now <= later && TokenExpired(issued_at, expires_in, now)
    ensures TokenExpired(issued_at, expires_in, later)
  {
  }

  /** The boundary itself is still valid; one second later is not. */
  lemma ExpiryBoundary(issued_at: Instant, expires_in: Option<U64>)
    ensures !TokenExpired(issued_at, expires_in, issued_at + ValidSeconds(expires_in))
    ensures TokenExpired(issued_at, expires_in, issued_at + ValidSeconds(expires_in) + 1)
  {
  }

  /**
   * A negative `expires_in` stored in the session row reads back as a huge
   * `u64`, which `as i64` turns back into the negative number: such a token
   * counts as expired as soon as its issue time plus that number less the
   * margin has passed.
   */
  lemma NegativeStoredExpiry(row: SessionRow, now: Instant)
    requires row.issued_at.Rfc3339? && row.expires_in.Some? && row.expires_in.value < 0
    ensures TokenExpired(TokenOfRow(row).issued_at, TokenOfRow(row).expires_in, now)
        <==> row.issued_at.instant + row.expires_in.value - 300 < now
  {
    I32ThroughU64ToI64(row.expires_in.value);
  }

  datatype LoadSessionData = LoadSessionData(session_by_pk: Option<SessionRow>)

  predicate WellFormedLoadAnswer(t: Transport<LoadSessionData>)
  {
    t.Delivered? && t.response.data.Some? && t.response.data.value.session_by_pk.Some? ==>
      t.response.data.value.session_by_pk.value.issued_at.Rfc3339?
  }

  /** The external calls of `load_session`, in the order they are made. */
  datatype SessionCall =
    | QuerySession(user_id: string)
    | RefreshToken(user: string, refresh_token: string)
    | StoreSession(variables: StoreSessionVariables)

  /**
   * `load_session`. The stored row is read; a fresh token is returned as it
   * is. An expired one needs a refresh token; with one, the token is
   * refreshed at the social network and the new token stored, and the result
   * is what the store returns. `refresh` is the refresh endpoint's answer
   * (a token issued at the time of the call), `store` the server's answer to
   * the store mutation.
   */
  method LoadSession(
    user_id: string,
    now: Instant,
    load: Transport<LoadSessionData>,
    refresh: Result<Token, TwitterError>,
    store: Transport<StoreSessionData>)
    returns (r: Result<Token, HasuraError>, calls: seq<SessionCall>)
    requires WellFormedLoadAnswer(load) && WellFormedStoreAnswer(store)
    ensures |calls| >= 1 && calls[0] == QuerySession(user_id)
    ensures DataOf(load).Failure? ==> r == Failure(DataOf(load).error) && |calls| == 1
    ensures DataOf(load).Success? && DataOf(load).value.session_by_pk.None? ==>
      r == Failure(SessionNotFound) && |calls| == 1
    ensures DataOf(load).Success? && DataOf(load).value.session_by_pk.Some? ==>
      var token := TokenOfRow(DataOf(load).value.session_by_pk.value);
      && (!TokenExpired(token.issued_at, token.expires_in, now) ==> r == Success(token) && |calls| == 1)
      && (TokenExpired(token.issued_at, token.expires_in, now) && token.refresh_token.None? ==>
            r.Failure? && r.error.Whatever? && |calls| == 1)
      && (TokenExpired(token.issued_at, token.expires_in, now) && token.refresh_token.Some? ==>
            |calls| >= 2 && calls[1] == RefreshToken(user_id, token.refresh_token.value)
            && (refresh.Failure? ==> r.Failure? && r.error.Whatever? && |calls| == 2)
            && (refresh.Success? ==>
                  calls == [QuerySession(user_id), RefreshToken(user_id, token.refresh_token.value),
                            StoreSession(Variables(refresh.value))]
                  && r == StoreSessionResult(store)))
    ensures forall k :: 0 <= k < |calls| && calls[k].StoreSession? ==> k == 2 && refresh.Success?
  {
    calls := [QuerySession(user_id)];
    var data := DataOf(load);
    if data.Failure? {
      return Failure(data.error), calls;
    }
    if data.value.session_by_pk.None? {
      return Failure(SessionNotFound), calls;
    }
    var token := TokenOfRow(data.value.session_by_pk.value);
    if !TokenExpired(token.issued_at, token.expires_in, now) {
      return Success(token), calls;
    }
    if token.refresh_token.None? {
      return Failure(HasuraError.Whatever("RefreshToken not found")), calls;
    }
    calls := calls + [RefreshToken(user_id, token.refresh_token.value)];
    if refresh.Failure? {
      return Failure(HasuraError.Whatever("refreshing the token failed")), calls;
    }
    calls := calls + [StoreSession(Variables(refresh.value))];
    r := StoreSessionResult(store);
  }
}
