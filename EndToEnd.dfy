/** Properties that connect the client and the server: the header the client's
    interceptor builds is the one the middleware accepts, a token issued at
    registration authenticates later requests, and the client's first-step
    validity compared with the server's registration schema. */
module EndToEnd {
  import opened Wrappers
  import ApiClient
  import AuthMiddleware
  import AuthController
  import RegisterStore
  import RegisterStepOne

  /** The interceptor's header for a stored token without spaces reaches the
      middleware's verification with exactly that token; no stored token
      (or an empty one) means no header, which the middleware rejects. */
  lemma InterceptorHeaderRoundTrip<P>(stored: Option<string>, verify: string -> Option<P>)
    requires stored.Some? ==> ' ' !in stored.value
    ensures var d := AuthMiddleware.Decide(ApiClient.AuthorizationHeader(stored), verify);
      if stored.Some? && stored.value != "" then
        (verify(stored.value).None? ==> d == AuthMiddleware.Reject(401, "Invalid or expired token")) &&
        (verify(stored.value).Some? ==> d == AuthMiddleware.Proceed(verify(stored.value).value))
      else d == AuthMiddleware.Reject(401, "Authentication required")
  {
    if stored.Some? && stored.value != "" {
      AuthMiddleware.BearerTokenOf(stored.value);
    }
  }

  /** The token returned by a successful registration authenticates a request
      carrying it, with the new user's id and username as payload, when the
      token library verifies what it signs and writes tokens without spaces. */
  lemma RegisteredTokenAuthenticates(
    b: AuthController.RegisterBody, users: seq<AuthController.UserRecord>, isEmail: string -> bool,
    hash: string -> string, embed: string -> AuthController.EmbedOutcome,
    newId: string, sign: AuthController.TokenPayload -> string,
    verify: string -> Option<AuthController.TokenPayload>)
    requires forall p :: verify(sign(p)) == Some(p)
    requires forall p :: sign(p) != "" && ' ' !in sign(p)
    requires AuthController.Register(b, users, isEmail, hash, embed, newId, sign).response.status == 201
    ensures var token := AuthController.Register(b, users, isEmail, hash, embed, newId, sign).response.body.token;
      AuthMiddleware.Decide(ApiClient.AuthorizationHeader(Some(token)), verify) ==
        AuthMiddleware.Proceed(AuthController.TokenPayload(newId, b.username))
  {
    var token := AuthController.Register(b, users, isEmail, hash, embed, newId, sign).response.body.token;
    assert token == sign(AuthController.TokenPayload(newId, b.username));
    InterceptorHeaderRoundTrip(Some(token), verify);
  }

  /** An assumed registration body for a wizard form: the code that submits
      the form is not part of this model, so the mapping is a choice, with no
      images sent as no `faceImages` field. The choice does not matter to the
      server, which treats an absent list and an empty one alike. */
  function BodyOf(f: RegisterStore.FormData): (b: AuthController.RegisterBody)
    ensures b.username == f.username && b.email == f.email && b.password == f.password
    ensures b.firstName == f.firstName && b.lastName == f.lastName
    ensures forall embed :: (AuthController.CollectEmbeddings(b.faceImages, embed) ==
      AuthController.CollectEmbeddings(Some(f.faceImages), embed))
  {
    AuthController.RegisterBody(f.username, f.email, f.password, f.firstName, f.lastName,
      if f.faceImages == [] then None else Some(f.faceImages))
  }

  /** A first step the client accepts passes the server's schema exactly when
      the username has at most 30 characters (the only bound the client does
      not check), given that the server's e-mail rule accepts the address. */
  lemma ClientValidityAgainstSchema(f: RegisterStore.FormData, confirm: string, u: Option<bool>, e: Option<bool>, isEmail: string -> bool)
    requires RegisterStepOne.FormIsValid(f, confirm, u, e)
    requires isEmail(f.email)
    ensures AuthController.SchemaAccepts(BodyOf(f), isEmail) <==> |f.username| <= 30
  {
  }

  /** A form with a 31-character username that the client accepts. */
  function LongNameForm(): RegisterStore.FormData
  {
    RegisterStore.InitialFormData.(
      firstName := "A", lastName := "B", email := "a@b.co",
      username := "abcdefghijklmnopqrstuvwxyz01234", password := "Passw0rd!")
  }

  /** Its address matches the client's e-mail pattern. */
  lemma LongNameFormEmail()
    ensures RegisterStepOne.EmailMatches(LongNameForm().email)
  {
    var s := LongNameForm().email;
    assert s[1] == '@' && s[3] == '.';
    assert s[..1] == "a" && s[2..] == "b.co";
    assert RegisterStepOne.Plain("a");
    assert RegisterStepOne.Plain("b.co");
  }

  /** The client accepts that form while the server rejects it as invalid input. */
  lemma LongUsernamePassesClientOnly(users: seq<AuthController.UserRecord>, isEmail: string -> bool,
    hash: string -> string, embed: string -> AuthController.EmbedOutcome,
    newId: string, sign: AuthController.TokenPayload -> string)
    ensures RegisterStepOne.FormIsValid(LongNameForm(), "Passw0rd!", Some(true), Some(true))
    ensures AuthController.Register(BodyOf(LongNameForm()), users, isEmail, hash, embed, newId, sign) ==
      AuthController.RegisterResult(AuthController.InvalidInput, users)
  {
    LongNameFormEmail();
    assert |LongNameForm().username| == 31;
  }
}
