/** The client-side session store: user, token, the authenticated flag, the
    loading flag and the last error. Each asynchronous action first marks the
    store as loading, then settles it with the call's outcome. The API's copy
    of this store has the same transitions and is modelled by the same class. */
module AuthStore {
  import opened Wrappers
  import opened ApiClient

  const LoginFallback := "เกิดข้อผิดพลาดในการเข้าสู่ระบบ"
  const FaceLoginFallback := "เกิดข้อผิดพลาดในการเข้าสู่ระบบด้วยใบหน้า"
  const RegisterFallback := "เกิดข้อผิดพลาดในการลงทะเบียน"

  /** `error.response?.data?.message || fallback`: an empty or missing server
      message falls back to the action's own text. */
  function ErrorText(e: ApiError, fallback: string): (t: string)
    ensures e.serverMessage.Some? && e.serverMessage.value != "" ==> t == e.serverMessage.value
    ensures !(e.serverMessage.Some? && e.serverMessage.value != "") ==> t == fallback
    ensures fallback != "" ==> t != ""
  {
    if e.serverMessage.Some? && e.serverMessage.value != "" then e.serverMessage.value else fallback
  }

  /** What `partialize` keeps: user, token and the authenticated flag. */
  datatype PersistedAuth = PersistedAuth(user: Option<User>, token: Option<string>, isAuthenticated: bool)

  class AuthStore {
    var user: Option<User>
    var token: Option<string>
    var isAuthenticated: bool
    var isLoading: bool
    var error: Option<string>

    /** `partialize`. */
    function Persist(): (p: PersistedAuth)
      reads this
      ensures p.user == user && p.token == token && p.isAuthenticated == isAuthenticated
    {
      PersistedAuth(user, token, isAuthenticated)
    }

    /** Logged out, not loading, no error. */
    constructor ()
      ensures user == None && token == None && !isAuthenticated && !isLoading && error == None
    {
      user, token, isAuthenticated := None, None, false;
      isLoading, error := false, None;
    }

    /** The first `set({ isLoading: true, error: null })` of every action. */
    method Begin()
      modifies this
      ensures isLoading && error == None
      ensures Persist() == old(Persist())
    {
      isLoading, error := true, None;
    }

    /** The second `set` of an action: on success the session comes from the
        response, on failure the error text is recorded and the error is
        rethrown (returned in `thrown`) with the session untouched. */
    method Settle(result: Outcome<AuthResponse>, fallback: string) returns (thrown: Option<ApiError>)
      modifies this
      ensures !isLoading
      ensures result.Ok? ==>
        user == Some(result.data.user) && token == Some(result.data.token) && isAuthenticated &&
        error == old(error) && thrown == None
      ensures result.Rethrown? ==>
        error == Some(ErrorText(result.error, fallback)) && thrown == Some(result.error) &&
        Persist() == old(Persist())
    {
      match result
      case Ok(response) =>
        user, token, isAuthenticated, isLoading := Some(response.user), Some(response.token), true, false;
        thrown := None;
      case Rethrown(e) =>
        error, isLoading := Some(ErrorText(e, fallback)), false;
        thrown := Some(e);
    }

    method Login(result: Outcome<AuthResponse>) returns (thrown: Option<ApiError>)
      modifies this
      ensures !isLoading
      ensures result.Ok? ==>
        user == Some(result.data.user) && token == Some(result.data.token) && isAuthenticated &&
        error == None && thrown == None
      ensures result.Rethrown? ==>
        error == Some(ErrorText(result.error, LoginFallback)) && thrown == Some(result.error) &&
        Persist() == old(Persist())
    {
      Begin();
      thrown := Settle(result, LoginFallback);
    }

    method FaceLogin(result: Outcome<AuthResponse>) returns (thrown: Option<ApiError>)
      modifies this
      ensures !isLoading
      ensures result.Ok? ==>
        user == Some(result.data.user) && token == Some(result.data.token) && isAuthenticated &&
        error == None && thrown == None
      ensures result.Rethrown? ==>
        error == Some(ErrorText(result.error, FaceLoginFallback)) && thrown == Some(result.error) &&
        Persist() == old(Persist())
    {
      Begin();
      thrown := Settle(result, FaceLoginFallback);
    }

    method Register(result: Outcome<AuthResponse>) returns (thrown: Option<ApiError>)
      modifies this
      ensures !isLoading
      ensures result.Ok? ==>
        user == Some(result.data.user) && token == Some(result.data.token) && isAuthenticated &&
        error == None && thrown == None
      ensures result.Rethrown? ==>
        error == Some(ErrorText(result.error, RegisterFallback)) && thrown == Some(result.error) &&
        Persist() == old(Persist())
    {
      Begin();
      thrown := Settle(result, RegisterFallback);
    }

    /** `logout`: the session and the error are cleared; `isLoading` stays. */
    method Logout()
      modifies this
      ensures user == None && token == None && !isAuthenticated && error == None
      ensures isLoading == old(isLoading)
    {
      user, token, isAuthenticated, error := None, None, false, None;
    }
  }

  /** A failed action always leaves a non-empty error message. */
  lemma FailureMessageNonEmpty(e: ApiError)
    ensures ErrorText(e, LoginFallback) != ""
    ensures ErrorText(e, FaceLoginFallback) != ""
    ensures ErrorText(e, RegisterFallback) != ""
  {
  }
}
