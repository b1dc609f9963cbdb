/**
 * `get_self` of src/gq/get_self.rs: the signed-in user's row, read into a
 * `HasuraUser`.
 */
module GetSelf {
  import opened Wrappers
  import opened Model
  import opened GqError
  import opened GqCommon

  datatype UserRow = UserRow(
    email: string,
    id: string,
    role: RoleEnum,
    active: bool,
    last_seen: Timestamptz,
    email_confirmed: bool,
    email_confirmed_at: Option<Timestamptz>,
    email_confirm_code: Option<string>,
    email_confirm_code_issued_at: Option<Timestamptz>)

  datatype GetSelfData = GetSelfData(user_by_pk: Option<UserRow>)

  /** The timestamps of a row can be read back without a panic. */
  predicate WellFormedRow(u: UserRow)
  {
    u.last_seen.Rfc3339? && WellFormedOpt(u.email_confirmed_at) && WellFormedOpt(u.email_confirm_code_issued_at)
  }

  predicate WellFormedAnswer(t: Transport<GetSelfData>)
  {
    t.Delivered? && t.response.data.Some? && t.response.data.value.user_by_pk.Some? ==>
      WellFormedRow(t.response.data.value.user_by_pk.value)
  }

  /** The `role` match of `get_self`. */
  function RoleFromEnum(e: RoleEnum): (r: Role)
    ensures e == AnonymousEnum <==> r == Anonymous
    ensures e == BasicEnum <==> r == Basic
    ensures e == PremiumEnum <==> r == Premium
  {
    match e
    case AnonymousEnum => Anonymous
    case BasicEnum => Basic
    case PremiumEnum => Premium
  }

  /** Writing a role and reading it back is the identity, and so is the converse. */
  lemma RoleRoundTrip(r: Role, e: RoleEnum)
    ensures RoleFromEnum(RoleToEnum(r)) == r
    ensures RoleToEnum(RoleFromEnum(e)) == e
  {
  }

  function UserOf(u: UserRow): (h: HasuraUser)
    requires WellFormedRow(u)
    ensures h.id == u.id && h.email == u.email && h.active == u.active
    ensures h.role == RoleFromEnum(u.role) && h.last_seen == u.last_seen.instant
    ensures h.email_confirmed == u.email_confirmed && h.email_confirm_code == u.email_confirm_code
    ensures h.email_confirmed_at.None? <==> u.email_confirmed_at.None?
    ensures h.email_confirm_code_issued_at.None? <==> u.email_confirm_code_issued_at.None?
    ensures h.email_confirmed_at.Some? ==> h.email_confirmed_at.value == u.email_confirmed_at.value.instant
    ensures h.email_confirm_code_issued_at.Some? ==>
      h.email_confirm_code_issued_at.value == u.email_confirm_code_issued_at.value.instant
  {
    HasuraUser(
      u.id, u.email, RoleFromEnum(u.role), u.active, ToInstant(u.last_seen),
      u.email_confirmed, ToInstantOpt(u.email_confirmed_at), u.email_confirm_code,
      ToInstantOpt(u.email_confirm_code_issued_at))
  }

  /**
   * `get_self`: a transport failure is `Network`, a response without `data`
   * is what `build_errors` makes of its errors, no row is `Ok(None)`.
   */
  function GetSelf(t: Transport<GetSelfData>): (r: Result<Option<HasuraUser>, HasuraError>)
    requires WellFormedAnswer(t)
    ensures t.NetworkFailure? ==> r == Failure(Network)
    ensures t.Delivered? && t.response.data.None? ==> r == Failure(BuildErrors(t.response.errors))
    ensures t.Delivered? && t.response.data.Some? ==>
      r.Success? && (r.value.None? <==> t.response.data.value.user_by_pk.None?)
    ensures r.Success? && r.value.Some? ==> r.value.value == UserOf(t.response.data.value.user_by_pk.value)
  {
    match DataOf(t)
    case Failure(e) => Failure(e)
    case Success(data) =>
      match data.user_by_pk
      case None => Success(None)
      case Some(u) => Success(Some(UserOf(u)))
  }
}
