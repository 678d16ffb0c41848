/** The client's API layer: the request interceptor that adds the bearer
    header, and the wrappers that return a call's data or rethrow its error.
    The HTTP call itself is a given outcome. */
module ApiClient {
  import opened Wrappers

  /** The `User` returned by the backend. */
  datatype User = User(
    id: string,
    username: string,
    email: string,
    firstName: string,
    lastName: string,
    hasFaceRecognition: bool)

  datatype AuthResponse = AuthResponse(message: string, token: string, user: User)

  /** A rejected call; `serverMessage` is `error.response?.data?.message`. */
  datatype ApiError = ApiError(serverMessage: Option<string>)

  /** What the HTTP client gives: a response with its data, or a thrown error. */
  datatype HttpOutcome<T> = Responded(data: T) | Threw(error: ApiError)

  /** What a wrapper gives its caller: the data, or the same error rethrown. */
  datatype Outcome<T> = Ok(data: T) | Rethrown(error: ApiError)

  /** `checkHealth`, `login`, `faceLogin`, `register`, `checkDuplicate`:
      `return response.data`, or log and `throw error`. */
  function CallApi<T>(call: HttpOutcome<T>): (r: Outcome<T>)
    ensures r.Ok? <==> call.Responded?
    ensures call.Responded? ==> r.data == call.data
    ensures call.Threw? ==> r.error == call.error
  {
    match call
    case Responded(d) => Ok(d)
    case Threw(e) => Rethrown(e)
  }

  /** The request interceptor: a stored token that is non-empty becomes the
      header `Authorization: Bearer <token>`; otherwise no header is set. */
  function AuthorizationHeader(stored: Option<string>): (h: Option<string>)
    ensures h.Some? <==> stored.Some? && stored.value != ""
    ensures h.Some? ==> h.value == "Bearer " + stored.value
  {
    if stored.Some? && stored.value != "" then Some("Bearer " + stored.value) else None
  }
}
