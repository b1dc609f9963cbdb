/**
 * Errors of the GraphQL layer (api/src/gq/error.rs) and the shape of a GraphQL
 * exchange: the transport either fails, or delivers a response carrying an
 * optional `data` object and an optional list of errors.
 */
module GqError {
  import opened Wrappers

  /** One entry of a GraphQL response's `errors` list; only its text is kept. */
  datatype GraphQlError = GraphQlError(message: string)

  datatype HasuraError =
    | Network
    | Hasura(source: GraphQlError)
    | DataNotFound
    | SessionNotFound
    | Whatever(message: string)

  datatype GraphQlResponse<T> = GraphQlResponse(data: Option<T>, errors: Option<seq<GraphQlError>>)

  /** What `run_graphql` yields: a transport failure or a decoded response. */
  datatype Transport<T> = Delivered(response: GraphQlResponse<T>) | NetworkFailure

  /** `build_errors`: the error reported when a response has no `data`. */
  function BuildErrors(errors: Option<seq<GraphQlError>>): (r: HasuraError)
    ensures r.Hasura? <==> errors.Some? && |errors.value| > 0
    ensures r.Hasura? ==> r.source == errors.value[0]
    ensures !r.Hasura? ==> r == DataNotFound
    ensures !r.Network? && !r.SessionNotFound? && !r.Whatever?
  {
    match errors
    case Some(es) => if |es| > 0 then Hasura(es[0]) else DataNotFound
    case None => DataNotFound
  }

  /**
   * The common prefix of every query wrapper: `.context(NetworkSnafu)?`
   * followed by `resp.data.ok_or_else(|| build_errors(resp.errors))`.
   */
  function DataOf<T>(t: Transport<T>): (r: Result<T, HasuraError>)
    ensures t.NetworkFailure? ==> r == Failure(Network)
    ensures t.Delivered? && t.response.data.Some? ==> r == Success(t.response.data.value)
    ensures t.Delivered? && t.response.data.None? ==> r == Failure(BuildErrors(t.response.errors))
  {
    match t
    case NetworkFailure => Failure(Network)
    case Delivered(resp) =>
      match resp.data
      case Some(d) => Success(d)
      case None => Failure(BuildErrors(resp.errors))
  }
}
