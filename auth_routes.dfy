/**
 * The decisions of src/routes/auth.rs: the handler-side `token_expired`,
 * the claims of the JWT the frontend gets (`issue_jwt_token`, `get_jwt`),
 * and `logout`. Cookie and session-store mechanics and the signing itself
 * are answers given as parameters.
 */
module AuthRoutes {
  import opened Wrappers
  import opened Ints
  import opened Model
  import GqError
  import LoadSession

  /** The handler's copy of `token_expired`, written out on its own; no handler calls it. */
  predicate TokenExpired(issued_at: Instant, expires_in: Option<U64>, now: Instant)
  {
    var lifetime: U64 := if expires_in.Some? then expires_in.value else 7200;
    issued_at + (U64AsI64(lifetime) - 5 * 60) < now
  }

  /** Both copies of `token_expired` decide alike. */
  lemma TokenExpiredTwinsAgree(issued_at: Instant, expires_in: Option<U64>, now: Instant)
    ensures TokenExpired(issued_at, expires_in, now) <==> LoadSession.TokenExpired(issued_at, expires_in, now)
  {
  }

  /** The user of the login session. */
  datatype TwitterUser = TwitterUser(id: string, name: string, username: string, profile_image_url: Option<string>)

  datatype Email = Unregistered | Unconfirmed(address: string) | Confirmed(address: string)

  datatype HasuraJwtClaims = HasuraJwtClaims(
    x_hasura_default_role: Role,
    x_hasura_allowed_roles: seq<Role>,
    x_hasura_user_id: string)

  datatype Claims = Claims(
    sub: string,
    name: string,
    username: string,
    profile_image_url: Option<string>,
    iat: U64,
    role: Role,
    email: Email,
    hasura_jwt_claims: HasuraJwtClaims)

  /** The roles from least to most privileged. */
  const ROLES: seq<Role> := [Anonymous, Basic, Premium]

  function Rank(r: Role): (k: nat)
    ensures k < |ROLES| && ROLES[k] == r
  {
    match r
    case Anonymous => 0
    case Basic => 1
    case Premium => 2
  }

  /** The role table of `issue_jwt_token`. */
  function HasuraClaimsFor(user_id: string, role: Role): (c: HasuraJwtClaims)
    ensures c.x_hasura_default_role == role && c.x_hasura_user_id == user_id
    ensures c.x_hasura_allowed_roles == ROLES[..Rank(role) + 1]
  {
    match role
    case Anonymous => HasuraJwtClaims(Anonymous, [Anonymous], user_id)
    case Basic => HasuraJwtClaims(Basic, [Anonymous, Basic], user_id)
    case Premium => HasuraJwtClaims(Premium, [Anonymous, Basic, Premium], user_id)
  }

  /**
   * The claims `issue_jwt_token` signs: the subject and the Hasura user id
   * are both the user's id, and `iat` is the current time cast to `usize`.
   */
  function IssueJwtClaims(user: TwitterUser, role: Role, email: Email, now: Instant): (c: Claims)
    requires -TWO_63 <= now < TWO_63
    ensures c.sub == user.id && c.hasura_jwt_claims.x_hasura_user_id == user.id
    ensures c.role == role && c.email == email
    ensures c.hasura_jwt_claims.x_hasura_default_role == role
    ensures c.hasura_jwt_claims.x_hasura_allowed_roles == ROLES[..Rank(role) + 1]
    ensures now >= 0 ==> c.iat == now
    ensures now < 0 ==> c.iat == now + TWO_64
  {
    Claims(user.id, user.name, user.username, user.profile_image_url, I64AsU64(now), role, email,
           HasuraClaimsFor(user.id, role))
  }

  /** The default role is always among the allowed ones, and it is the last of them. */
  lemma DefaultRoleAllowed(user_id: string, role: Role)
    ensures var c := HasuraClaimsFor(user_id, role);
      c.x_hasura_default_role in c.x_hasura_allowed_roles
      && c.x_hasura_allowed_roles[|c.x_hasura_allowed_roles| - 1] == role
  {
  }

  /** A more privileged role is allowed everything a less privileged one is. */
  lemma AllowedRolesNest(user_id: string, r1: Role, r2: Role)
    requires Rank(r1) <= Rank(r2)
    ensures HasuraClaimsFor(user_id, r1).x_hasura_allowed_roles
         <= HasuraClaimsFor(user_id, r2).x_hasura_allowed_roles
    ensures forall r :: r in HasuraClaimsFor(user_id, r1).x_hasura_allowed_roles ==> Rank(r) <= Rank(r1)
  {
  }

  datatype JwtOutcome = Signed(claims: Claims, token: string) | ServerError(status: nat)

  /**
   * `get_jwt`. Without a user record the token is `Anonymous` and
   * unregistered; with one, it carries the record's role and its address,
   * confirmed exactly when the record says so. A failed lookup, or a failed
   * signing, answers 500.
   */
  function GetJwt(
    user: TwitterUser, now: Instant,
    lookup: Result<Option<HasuraUser>, GqError.HasuraError>,
    signing: Result<string, string>): (r: JwtOutcome)
    requires -TWO_63 <= now < TWO_63
    ensures lookup.Failure? ==> r == ServerError(500)
    ensures lookup.Success? && signing.Failure? ==> r == ServerError(500)
    ensures lookup.Success? && signing.Success? ==> r.Signed? && r.token == signing.value
    ensures r.Signed? ==> r.claims.sub == user.id && r.claims.hasura_jwt_claims.x_hasura_user_id == user.id
    ensures r.Signed? && lookup.value.None? ==> r.claims.role == Anonymous && r.claims.email == Unregistered
    ensures r.Signed? && lookup.value.Some? ==> r.claims.role == lookup.value.value.role
    ensures r.Signed? && lookup.value.Some? ==>
      (r.claims.email.Confirmed? <==> lookup.value.value.email_confirmed)
      && r.claims.email != Unregistered && r.claims.email.address == lookup.value.value.email
  {
    match lookup
    case Failure(_) => ServerError(500)
    case Success(found) =>
      var (role, email) := match found
        case None => (Anonymous, Unregistered)
        case Some(u) => (u.role, if u.email_confirmed then Confirmed(u.email) else Unconfirmed(u.email));
      match signing
      case Success(token) => Signed(IssueJwtClaims(user, role, email, now), token)
      case Failure(_) => ServerError(500)
  }

  datatype SessionStoreCall = LoadStoredSession(cookie: string) | DestroySession(session: string)

  /**
   * `logout`: the stored session behind the cookie, if there is one, is
   * destroyed, and whatever happens the browser is sent to `/login`.
   */
  method Logout(
    cookie: Option<string>,
    load: Result<Option<string>, string>,
    destroy: Result<(), string>)
    returns (redirect: string, calls: seq<SessionStoreCall>)
    ensures redirect == "/login"
    ensures cookie.None? ==> calls == []
    ensures cookie.Some? && !(load.Success? && load.value.Some?) ==> calls == [LoadStoredSession(cookie.value)]
    ensures cookie.Some? && load.Success? && load.value.Some? ==>
      calls == [LoadStoredSession(cookie.value), DestroySession(load.value.value)]
  {
    calls := [];
    if cookie.Some? {
      calls := [LoadStoredSession(cookie.value)];
      if load.Success? && load.value.Some? {
        calls := calls + [DestroySession(load.value.value)];
        // Either outcome of `destroy` redirects alike.
        if destroy.Success? {
          return "/login", calls;
        }
        return "/login", calls;
      }
    }
    return "/login", calls;
  }
}
