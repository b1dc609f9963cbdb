/**
 * The scalars and enums shared by the GraphQL queries (api/src/gq/common.rs).
 *
 * A `timestamptz` travels as text in the date-time format of RFC 3339
 * (section 5.6). Here the text is represented by what parsing it yields:
 * either the instant it denotes or, for text that is not such a date-time,
 * the text itself. Reading a malformed one back is an `unwrap` that panics,
 * so the readers require well-formed values.
 */
module GqCommon {
  import opened Wrappers
  import opened Model

  datatype RoleEnum = AnonymousEnum | BasicEnum | PremiumEnum

  /** `From<Role> for RoleEnum`: each role to the case of the same name. */
  function RoleToEnum(role: Role): (e: RoleEnum)
    ensures role == Anonymous <==> e == AnonymousEnum
    ensures role == Basic <==> e == BasicEnum
    ensures role == Premium <==> e == PremiumEnum
  {
    match role
    case Anonymous => AnonymousEnum
    case Basic => BasicEnum
    case Premium => PremiumEnum
  }

  /** No two roles share an enum value. */
  lemma RoleToEnumInjective(r1: Role, r2: Role)
    requires RoleToEnum(r1) == RoleToEnum(r2)
    ensures r1 == r2
  {
  }

  /** Every enum value is the image of some role. */
  lemma RoleToEnumOnto(e: RoleEnum)
    ensures exists r :: RoleToEnum(r) == e
  {
    match e
    case AnonymousEnum => assert RoleToEnum(Anonymous) == e;
    case BasicEnum => assert RoleToEnum(Basic) == e;
    case PremiumEnum => assert RoleToEnum(Premium) == e;
  }

  datatype Timestamptz = Rfc3339(instant: Instant) | Malformed(text: string)

  /**
   * `From<OffsetDateTime> for Timestamptz`: the RFC 3339 text of the instant,
   * represented by the instant it denotes.
   */
  function FromInstant(t: Instant): (s: Timestamptz)
    ensures s.Rfc3339?
  {
    Rfc3339(t)
  }

  /** `From<Timestamptz> for OffsetDateTime`, defined on well-formed text only. */
  function ToInstant(s: Timestamptz): Instant
    requires s.Rfc3339?
  {
    s.instant
  }

  /** Formatting then parsing gives the instant back. */
  lemma InstantRoundTrip(t: Instant)
    ensures ToInstant(FromInstant(t)) == t
  {
  }

  predicate WellFormedOpt(s: Option<Timestamptz>)
  {
    s.Some? ==> s.value.Rfc3339?
  }

  /** `Option::map(into)` over an optional timestamp. */
  function ToInstantOpt(s: Option<Timestamptz>): (r: Option<Instant>)
    requires WellFormedOpt(s)
    ensures r.Some? <==> s.Some?
    ensures r.Some? ==> r.value == s.value.instant
  {
    match s
    case None => None
    case Some(v) => Some(ToInstant(v))
  }
}
