/** The backend's authentication controller: the duplicate check, registration,
    password login and face login. The user table is a sequence of records in
    the order the database returns them. Every outside call is a parameter:
    the remote embedding and comparison answers, password hashing and its
    check, token signing and the schema library's e-mail rule. */
module AuthController {
  import opened Wrappers

  type Embedding = seq<real>

  datatype UserRecord = UserRecord(
    id: string,
    username: string,
    email: string,
    password: string,            // the stored hash
    firstName: string,
    lastName: string,
    faceEmbeddings: Option<seq<Embedding>>)

  /** The `user` object of a successful response. */
  datatype UserView = UserView(
    id: string,
    username: string,
    email: string,
    firstName: string,
    lastName: string,
    hasFaceRecognition: bool)

  /** What is signed into a session token. */
  datatype TokenPayload = TokenPayload(id: string, username: string)

  datatype Body =
    | Message(message: string)
    | DuplicateResult(isDuplicate: bool, field: string)
    | Authenticated(message: string, token: string, user: UserView)

  datatype Response = Response(status: int, body: Body)

  /** What a call to the embedding endpoint gives: it throws (network error or
      an HTTP error status), or it answers with a status and a vector. */
  datatype EmbedOutcome = EmbedThrew | EmbedReply(status: string, embedding: Embedding)

  /** What a call to the compare endpoint gives. */
  datatype CompareOutcome =
    | CompareThrew
    | CompareReply(status: string, isSamePerson: bool, confidence: real)

  const InvalidInput := Response(400, Message("Invalid input data"))

  function View(u: UserRecord, hasFace: bool): UserView
  {
    UserView(u.id, u.username, u.email, u.firstName, u.lastName, hasFace)
  }

  function Payload(u: UserRecord): TokenPayload
  {
    TokenPayload(u.id, u.username)
  }

  // ---------------------------------------------------------------------------
  // Looking users up

  /** The value of the column `field` ("username" or anything else: "email"). */
  function Column(u: UserRecord, field: string): string
  {
    if field == "username" then u.username else u.email
  }

  /** The "username" column is the username. */
  lemma UsernameColumn()
    ensures forall u :: Column(u, "username") == u.username
  {
  }

  /** The first user whose `field` column equals `value`. */
  function FindBy(users: seq<UserRecord>, field: string, value: string): (r: Option<nat>)
    ensures r.Some? ==> r.value < |users| && Column(users[r.value], field) == value
    ensures r.Some? ==> forall j :: 0 <= j < r.value ==> Column(users[j], field) != value
    ensures r.None? <==> forall j :: 0 <= j < |users| ==> Column(users[j], field) != value
    decreases |users|
  {
    if |users| == 0 then None
    else if Column(users[0], field) == value then Some(0)
    else match FindBy(users[1..], field, value)
      case None => None
      case Some(i) => Some(i + 1)
  }

  /** Whether some user already holds the username or the e-mail address. */
  predicate Clashes(users: seq<UserRecord>, username: string, email: string)
    ensures Clashes(users, username, email) <==>
      FindBy(users, "username", username).Some? || FindBy(users, "email", email).Some?
  {
    exists j :: 0 <= j < |users| && (users[j].username == username || users[j].email == email)
  }

  /** No two users share a username or an e-mail address, and ids are distinct:
      the database's unique constraints. */
  ghost predicate UniqueUsers(users: seq<UserRecord>)
  {
    forall i, j :: 0 <= i < j < |users| ==>
      users[i].username != users[j].username &&
      users[i].email != users[j].email &&
      users[i].id != users[j].id
  }

  // ---------------------------------------------------------------------------
  // checkDuplicate

  /** `GET /auth/check-duplicate?field=..&value=..`; an absent parameter is "". */
  function CheckDuplicate(field: string, value: string, users: seq<UserRecord>): (r: Response)
    ensures r.status == 400 <==> !((field == "username" || field == "email") && value != "")
    ensures r.status == 400 ==> r.body == Message("Invalid parameters")
    ensures r.status != 400 ==>
      r.status == 200 && r.body.DuplicateResult? && r.body.field == field &&
      (r.body.isDuplicate <==> exists j :: 0 <= j < |users| && Column(users[j], field) == value)
  {
    if field == "" || value == "" || !(field in ["username", "email"]) then
      Response(400, Message("Invalid parameters"))
    else
      Response(200, DuplicateResult(FindBy(users, field, value).Some?, field))
  }

  // ---------------------------------------------------------------------------
  // register

  datatype RegisterBody = RegisterBody(
    username: string,
    email: string,
    password: string,
    firstName: string,
    lastName: string,
    faceImages: Option<seq<string>>)

  /** `registerSchema`: the length bounds, with the library's e-mail rule given. */
  predicate SchemaAccepts(b: RegisterBody, isEmail: string -> bool)
  {
    3 <= |b.username| <= 30 && isEmail(b.email) && |b.password| >= 8 &&
    |b.firstName| >= 1 && |b.lastName| >= 1
  }

  /** The schema does not look at the optional face images. */
  lemma SchemaIgnoresImages(b: RegisterBody, isEmail: string -> bool)
    ensures SchemaAccepts(b, isEmail) <==> SchemaAccepts(b.(faceImages := None), isEmail)
  {
  }

  predicate Succeeded(o: EmbedOutcome)
  {
    o.EmbedReply? && o.status == "success"
  }

  /** Whether any of the concurrent embedding calls throws (and so rejects `Promise.all`). */
  predicate AnyThrew(images: seq<string>, embed: string -> EmbedOutcome)
    ensures |images| == 0 ==> !AnyThrew(images, embed)
    ensures |images| > 0 ==>
      (AnyThrew(images, embed) <==> embed(images[0]).EmbedThrew? || AnyThrew(images[1..], embed))
    decreases |images|
  {
    exists i :: 0 <= i < |images| && embed(images[i]).EmbedThrew?
  }

  /** The calls mapped to their embedding or `null`, with the `null`s filtered out. */
  function Successful(images: seq<string>, embed: string -> EmbedOutcome): (r: seq<Embedding>)
    ensures |r| <= |images|
    decreases |images|
  {
    if |images| == 0 then []
    else
      (if Succeeded(embed(images[0])) then [embed(images[0]).embedding] else []) +
      Successful(images[1..], embed)
  }

  /** The number of calls that answered "success". */
  function SuccessCount(images: seq<string>, embed: string -> EmbedOutcome): (n: nat)
    ensures n <= |images|
    ensures n == 0 <==> forall i :: 0 <= i < |images| ==> !Succeeded(embed(images[i]))
    decreases |images|
  {
    if |images| == 0 then 0
    else (if Succeeded(embed(images[0])) then 1 else 0) + SuccessCount(images[1..], embed)
  }

  /** `faceEmbeddingsData`: set only when images were sent, no call threw and at
      least one call answered "success". */
  function CollectEmbeddings(images: Option<seq<string>>, embed: string -> EmbedOutcome): (r: Option<seq<Embedding>>)
    ensures r.Some? <==>
      images.Some? && !AnyThrew(images.value, embed) && SuccessCount(images.value, embed) > 0
    ensures r.Some? ==> r.value == Successful(images.value, embed) && |r.value| > 0
  {
    if images.None? || |images.value| == 0 then None
    else if AnyThrew(images.value, embed) then None
    else
      var valid := Successful(images.value, embed);
      SuccessfulLength(images.value, embed);
      if |valid| > 0 then Some(valid) else None
  }

  lemma {:induction false} SuccessfulLength(images: seq<string>, embed: string -> EmbedOutcome)
    ensures |Successful(images, embed)| == SuccessCount(images, embed)
    decreases |images|
  {
    if |images| > 0 { SuccessfulLength(images[1..], embed); }
  }

  /** Collecting over two batches is collecting over each in turn: the kept
      embeddings are the successful answers in the order of the images. */
  lemma {:induction false} SuccessfulAppend(a: seq<string>, b: seq<string>, embed: string -> EmbedOutcome)
    ensures Successful(a + b, embed) == Successful(a, embed) + Successful(b, embed)
    decreases |a|
  {
    if |a| == 0 {
      assert a + b == b;
    } else {
      var head := if Succeeded(embed(a[0])) then [embed(a[0]).embedding] else [];
      assert (a + b)[0] == a[0];
      assert (a + b)[1..] == a[1..] + b;
      SuccessfulAppend(a[1..], b, embed);
      assert Successful(a + b, embed) == head + Successful(a[1..] + b, embed);
      assert Successful(a, embed) == head + Successful(a[1..], embed);
    }
  }

  /** One image: its embedding is kept iff its call answered "success". */
  lemma SuccessfulSingle(img: string, embed: string -> EmbedOutcome)
    ensures Successful([img], embed) ==
      if Succeeded(embed(img)) then [embed(img).embedding] else []
  {
    assert [img][1..] == [];
  }

  /** What `register` gives back: the response and the user table afterwards. */
  datatype RegisterResult = RegisterResult(response: Response, users: seq<UserRecord>)

  /** `POST /auth/register`. `newId` is the id the database assigns. */
  function Register(
    b: RegisterBody, users: seq<UserRecord>, isEmail: string -> bool,
    hash: string -> string, embed: string -> EmbedOutcome,
    newId: string, sign: TokenPayload -> string): (r: RegisterResult)
    ensures !SchemaAccepts(b, isEmail) ==> r == RegisterResult(InvalidInput, users)
    ensures SchemaAccepts(b, isEmail) && Clashes(users, b.username, b.email) ==>
      r == RegisterResult(Response(400, Message("Username or email already exists")), users)
    ensures SchemaAccepts(b, isEmail) && !Clashes(users, b.username, b.email) ==>
      var stored := CollectEmbeddings(b.faceImages, embed);
      var created := UserRecord(newId, b.username, b.email, hash(b.password), b.firstName, b.lastName, stored);
      r.users == users + [created] &&
      r.response == Response(201, Authenticated("User registered successfully",
        sign(TokenPayload(newId, b.username)), View(created, stored.Some?)))
    ensures r.response.status == 201 || r.users == users
  {
    if !SchemaAccepts(b, isEmail) then RegisterResult(InvalidInput, users)
    else if FirstClash(users, b.username, b.email).Some? then
      RegisterResult(Response(400, Message("Username or email already exists")), users)
    else
      var stored := CollectEmbeddings(b.faceImages, embed);
      var created := UserRecord(newId, b.username, b.email, hash(b.password), b.firstName, b.lastName, stored);
      RegisterResult(
        Response(201, Authenticated("User registered successfully",
          sign(Payload(created)), View(created, stored.Some?))),
        users + [created])
  }

  /** `findFirst` with `OR: [{username}, {email}]`. */
  function FirstClash(users: seq<UserRecord>, username: string, email: string): (r: Option<nat>)
    ensures r.Some? <==> Clashes(users, username, email)
    ensures r.Some? ==> r.value < |users|
    decreases |users|
  {
    if |users| == 0 then None
    else if users[0].username == username || users[0].email == email then Some(0)
    else match FirstClash(users[1..], username, email)
      case None => None
      case Some(i) =>
        assert users[i + 1] == users[1..][i];
        Some(i + 1)
  }

  /** Registration keeps the table free of duplicate usernames, e-mails and ids. */
  lemma RegisterKeepsUsersUnique(
    b: RegisterBody, users: seq<UserRecord>, isEmail: string -> bool,
    hash: string -> string, embed: string -> EmbedOutcome,
    newId: string, sign: TokenPayload -> string)
    requires UniqueUsers(users)
    requires forall j :: 0 <= j < |users| ==> users[j].id != newId
    ensures UniqueUsers(Register(b, users, isEmail, hash, embed, newId, sign).users)
  {
    var r := Register(b, users, isEmail, hash, embed, newId, sign);
    if r.users != users {
      var n := r.users;
      assert |n| == |users| + 1;
      forall i, j | 0 <= i < j < |n|
        ensures n[i].username != n[j].username && n[i].email != n[j].email && n[i].id != n[j].id
      {
        if j < |users| {
          assert n[i] == users[i] && n[j] == users[j];
        } else {
          assert n[i] == users[i];
          assert !(users[i].username == b.username || users[i].email == b.email);
        }
      }
    }
  }

  // ---------------------------------------------------------------------------
  // login

  datatype LoginBody = LoginBody(username: string, password: string)

  /** User `i` is the first one with this username. */
  predicate FirstWithUsername(users: seq<UserRecord>, username: string, i: int)
  {
    0 <= i < |users| && users[i].username == username &&
    forall j :: 0 <= j < i ==> users[j].username != username
  }

  /** `POST /auth/login`; `matches(plain, hash)` is the hashing library's check. */
  function Login(
    b: LoginBody, users: seq<UserRecord>, matches: (string, string) -> bool,
    sign: TokenPayload -> string): (r: Response)
    ensures r.status != 200 ==> r == Response(401, Message("Invalid credentials"))
    ensures r.status == 200 <==>
      exists i :: FirstWithUsername(users, b.username, i) && matches(b.password, users[i].password)
    ensures r.status == 200 ==>
      FindBy(users, "username", b.username).Some? &&
      var i := FindBy(users, "username", b.username).value;
      r == Response(200, Authenticated("Login successful", sign(Payload(users[i])),
        View(users[i], users[i].faceEmbeddings.Some?)))
  {
    UsernameColumn();
    match FindBy(users, "username", b.username)
    case None => Response(401, Message("Invalid credentials"))
    case Some(i) =>
      assert FirstWithUsername(users, b.username, i);
      if !matches(b.password, users[i].password) then Response(401, Message("Invalid credentials"))
      else Response(200, Authenticated("Login successful", sign(Payload(users[i])),
        View(users[i], users[i].faceEmbeddings.Some?)))
  }

  /** A user who has just registered can log in with the same password. */
  lemma RegisterThenLogin(
    b: RegisterBody, users: seq<UserRecord>, isEmail: string -> bool,
    hash: string -> string, matches: (string, string) -> bool, embed: string -> EmbedOutcome,
    newId: string, sign: TokenPayload -> string)
    requires matches(b.password, hash(b.password))
    requires Register(b, users, isEmail, hash, embed, newId, sign).response.status == 201
    ensures
      var r := Register(b, users, isEmail, hash, embed, newId, sign);
      Login(LoginBody(b.username, b.password), r.users, matches, sign) ==
        Response(200, Authenticated("Login successful", sign(TokenPayload(newId, b.username)),
          r.response.body.user))
  {
    var r := Register(b, users, isEmail, hash, embed, newId, sign);
    var n := r.users;
    assert n[|users|].username == b.username;
    forall j | 0 <= j < |users| ensures Column(n[j], "username") != b.username {
      assert n[j] == users[j];
      assert !(users[j].username == b.username || users[j].email == b.email);
    }
    assert FindBy(n, "username", b.username) == Some(|users|);
  }

  // ---------------------------------------------------------------------------
  // faceLogin: the scan over users and their stored embeddings

  /** The comparison of the login embedding with stored embedding `k` of user `u` exists. */
  predicate IsCandidate(users: seq<UserRecord>, u: nat, k: nat)
  {
    u < |users| && users[u].faceEmbeddings.Some? && k < |users[u].faceEmbeddings.value|
  }

  predicate Positive(o: CompareOutcome)
  {
    o.CompareReply? && o.status == "success" && o.isSamePerson
  }

  /** Comparison (u, k) was made and answered "success" and "same person". */
  predicate PositiveAt(users: seq<UserRecord>, respond: (nat, nat) -> CompareOutcome, u: nat, k: nat)
  {
    IsCandidate(users, u, k) && Positive(respond(u, k))
  }

  function ConfidenceAt(respond: (nat, nat) -> CompareOutcome, u: nat, k: nat): real
  {
    match respond(u, k)
    case CompareReply(_, _, c) => c
    case CompareThrew => 0.0
  }

  /** Comparison (u1, k1) is made before comparison (u2, k2). */
  predicate Before(u1: nat, k1: nat, u2: nat, k2: nat)
  {
    u1 < u2 || (u1 == u2 && k1 < k2)
  }

  /** `matched` and `highest` are what a scan of every comparison must end
      with: `highest` bounds every positive confidence; no match means nothing
      positive rose above 0; a match is the owner of a positive comparison
      with confidence `highest` > 0 that no earlier positive comparison reached. */
  ghost predicate IsFirstBest(
    users: seq<UserRecord>, respond: (nat, nat) -> CompareOutcome, matched: Option<nat>, highest: real)
    ensures IsFirstBest(users, respond, matched, highest) ==> (matched.Some? <==> highest > 0.0)
  {
    0.0 <= highest &&
    (forall u: nat, k: nat :: PositiveAt(users, respond, u, k) ==> ConfidenceAt(respond, u, k) <= highest) &&
    (matched.None? ==> highest == 0.0) &&
    (matched.Some? ==>
      highest > 0.0 &&
      exists k: nat :: PositiveAt(users, respond, matched.value, k) &&
        ConfidenceAt(respond, matched.value, k) == highest &&
        forall u': nat, k': nat :: PositiveAt(users, respond, u', k') && Before(u', k', matched.value, k) ==>
          ConfidenceAt(respond, u', k') < highest)
  }

  /** The scan's state after every comparison before (u, k), with `bestK` the
      stored embedding that produced the current match. */
  ghost predicate ScannedBefore(
    users: seq<UserRecord>, respond: (nat, nat) -> CompareOutcome, u: nat, k: nat,
    matched: Option<nat>, highest: real, bestK: nat)
  {
    0.0 <= highest &&
    (forall u': nat, k': nat :: PositiveAt(users, respond, u', k') && Before(u', k', u, k) ==>
      ConfidenceAt(respond, u', k') <= highest) &&
    (matched.None? ==> highest == 0.0) &&
    (matched.Some? ==>
      highest > 0.0 &&
      PositiveAt(users, respond, matched.value, bestK) && Before(matched.value, bestK, u, k) &&
      ConfidenceAt(respond, matched.value, bestK) == highest &&
      forall u': nat, k': nat :: PositiveAt(users, respond, u', k') && Before(u', k', matched.value, bestK) ==>
        ConfidenceAt(respond, u', k') < highest)
  }

  /** The nested loops of `faceLogin`: `respond(u, k)` is the answer of the
      compare endpoint for stored embedding `k` of user `u`. */
  method ScanForMatch(users: seq<UserRecord>, respond: (nat, nat) -> CompareOutcome)
    returns (matched: Option<nat>, highest: real)
    ensures IsFirstBest(users, respond, matched, highest)
    ensures matched.Some? ==> matched.value < |users| && users[matched.value].faceEmbeddings.Some?
  {
    matched := None;
    highest := 0.0;
    ghost var bestK: nat := 0;
    var u: nat := 0;
    while u < |users|
      invariant u <= |users|
      invariant ScannedBefore(users, respond, u, 0, matched, highest, bestK)
    {
      if users[u].faceEmbeddings.Some? {
        var stored := users[u].faceEmbeddings.value;
        var k: nat := 0;
        while k < |stored|
          invariant k <= |stored|
          invariant ScannedBefore(users, respond, u, k, matched, highest, bestK)
        {
          var reply := respond(u, k);
          if reply.CompareReply? && reply.status == "success" && reply.isSamePerson {
            if reply.confidence > highest {
              highest := reply.confidence;
              matched := Some(u);
              bestK := k;
            }
          }
          k := k + 1;
        }
        NextUser(users, respond, u, k, matched, highest, bestK);
      } else {
        NextUser(users, respond, u, 0, matched, highest, bestK);
      }
      u := u + 1;
    }
    if matched.Some? {
      assert PositiveAt(users, respond, matched.value, bestK);
    }
  }

  /** Having compared every stored embedding of user `u`, the scan has compared
      everything before user `u + 1`. */
  lemma NextUser(
    users: seq<UserRecord>, respond: (nat, nat) -> CompareOutcome, u: nat, k: nat,
    matched: Option<nat>, highest: real, bestK: nat)
    requires u < |users|
    requires users[u].faceEmbeddings.Some? ==> k == |users[u].faceEmbeddings.value|
    requires ScannedBefore(users, respond, u, k, matched, highest, bestK)
    ensures ScannedBefore(users, respond, u + 1, 0, matched, highest, bestK)
  {
    forall u': nat, k': nat | PositiveAt(users, respond, u', k') && Before(u', k', u + 1, 0)
      ensures ConfidenceAt(respond, u', k') <= highest
    {
      assert Before(u', k', u, k);
    }
  }

  /** Two outcomes that both satisfy the scan's contract agree: the contract
      determines the matched user and the confidence. */
  lemma FirstBestUnique(
    users: seq<UserRecord>, respond: (nat, nat) -> CompareOutcome,
    m1: Option<nat>, h1: real, m2: Option<nat>, h2: real)
    requires IsFirstBest(users, respond, m1, h1)
    requires IsFirstBest(users, respond, m2, h2)
    ensures m1 == m2 && h1 == h2
  {
    if m1.Some? {
      var k1: nat :| PositiveAt(users, respond, m1.value, k1) && ConfidenceAt(respond, m1.value, k1) == h1 &&
        forall u': nat, k': nat :: PositiveAt(users, respond, u', k') && Before(u', k', m1.value, k1) ==>
          ConfidenceAt(respond, u', k') < h1;
      assert h1 <= h2;
      if m2.Some? {
        var k2: nat :| PositiveAt(users, respond, m2.value, k2) && ConfidenceAt(respond, m2.value, k2) == h2 &&
          forall u': nat, k': nat :: PositiveAt(users, respond, u', k') && Before(u', k', m2.value, k2) ==>
            ConfidenceAt(respond, u', k') < h2;
        assert h2 <= h1;
        if m1.value < m2.value {
          assert Before(m1.value, k1, m2.value, k2);
        } else if m2.value < m1.value {
          assert Before(m2.value, k2, m1.value, k1);
        }
      }
    }
  }

  /** `POST /auth/face-login`: `embedReply` is the embedding endpoint's answer
      for the submitted image and `respond` the compare endpoint's answers for
      the users the database returns. */
  method FaceLogin(
    embedReply: EmbedOutcome, users: seq<UserRecord>,
    respond: (nat, nat) -> CompareOutcome, sign: TokenPayload -> string)
    returns (r: Response)
    ensures embedReply.EmbedThrew? ==> r == Response(500, Message("Error processing face image"))
    ensures embedReply.EmbedReply? && embedReply.status != "success" ==>
      r == Response(400, Message("Failed to process face image"))
    ensures Succeeded(embedReply) ==>
      (r.status == 401 <==> IsFirstBest(users, respond, None, 0.0)) &&
      (r.status == 401 ==> r.body == Message("Face not recognized")) &&
      (r.status != 401 ==>
        exists m: nat, h: real ::
          m < |users| && IsFirstBest(users, respond, Some(m), h) &&
          r == Response(200, Authenticated("Face login successful", sign(Payload(users[m])),
            View(users[m], true))))
  {
    if embedReply.EmbedThrew? {
      return Response(500, Message("Error processing face image"));
    }
    if embedReply.status != "success" {
      return Response(400, Message("Failed to process face image"));
    }
    var matched, highest := ScanForMatch(users, respond);
    if matched.None? {
      r := Response(401, Message("Face not recognized"));
    } else {
      var m := matched.value;
      r := Response(200, Authenticated("Face login successful", sign(Payload(users[m])),
        View(users[m], true)));
      if IsFirstBest(users, respond, None, 0.0) {
        FirstBestUnique(users, respond, matched, highest, None, 0.0);
      }
    }
  }

  // ---------------------------------------------------------------------------
  // Worked cases of the matching rule

  function OneEmbeddingUser(name: string): UserRecord
  {
    UserRecord(name, name, name + "@example.com", "hash", name, name, Some([[0.0]]))
  }

  function ThreeUsers(): seq<UserRecord>
  {
    [OneEmbeddingUser("a"), OneEmbeddingUser("b"), OneEmbeddingUser("c")]
  }

  /** Positive answers with the given confidence for the first stored embedding of each user. */
  function AnswersWith(confidences: seq<real>): (nat, nat) -> CompareOutcome
  {
    (u: nat, k: nat) =>
      if u < |confidences| && k == 0 then CompareReply("success", true, confidences[u]) else CompareThrew
  }

  /** Confidences 0.72, 0.91, 0.80: the user with 0.91 is matched. */
  lemma HighestOfThreeWins()
    ensures IsFirstBest(ThreeUsers(), AnswersWith([0.72, 0.91, 0.80]), Some(1), 0.91)
  {
    var users, respond := ThreeUsers(), AnswersWith([0.72, 0.91, 0.80]);
    forall u: nat, k: nat | PositiveAt(users, respond, u, k) ensures ConfidenceAt(respond, u, k) <= 0.91 {
      assert u < 3 && k == 0;
    }
    forall u': nat, k': nat | PositiveAt(users, respond, u', k') && Before(u', k', 1, 0)
      ensures ConfidenceAt(respond, u', k') < 0.91
    {
      assert u' == 0 && k' == 0;
    }
    assert PositiveAt(users, respond, 1, 0);
  }

  /** Two equal confidences: the earlier comparison keeps the match. */
  lemma EarlierTieWins()
    ensures IsFirstBest(ThreeUsers(), AnswersWith([0.9, 0.9]), Some(0), 0.9)
  {
    var users, respond := ThreeUsers(), AnswersWith([0.9, 0.9]);
    forall u: nat, k: nat | PositiveAt(users, respond, u, k) ensures ConfidenceAt(respond, u, k) <= 0.9 {
      assert u < 2 && k == 0;
    }
    assert PositiveAt(users, respond, 0, 0);
  }

  /** A user registered with an image whose embedding call fails is stored
      without embeddings and reported without face recognition. */
  lemma FailedImageMeansNoFaceRecognition(
    b: RegisterBody, users: seq<UserRecord>, isEmail: string -> bool,
    hash: string -> string, embed: string -> EmbedOutcome,
    newId: string, sign: TokenPayload -> string, img: string)
    requires b.faceImages == Some([img]) && !Succeeded(embed(img))
    requires Register(b, users, isEmail, hash, embed, newId, sign).response.status == 201
    ensures var r := Register(b, users, isEmail, hash, embed, newId, sign);
      r.users[|users|].faceEmbeddings.None? && !r.response.body.user.hasFaceRecognition
  {
    SuccessfulSingle(img, embed);
    SuccessfulLength([img], embed);
  }

  /** A user with two stored embeddings and a user without any: a positive
      answer at 0.95 for the first user's second embedding only selects the
      first user. */
  lemma MatchOnSecondEmbedding()
    ensures var users := [UserRecord("a", "a", "a@example.com", "hash", "a", "a", Some([[0.0], [1.0]])),
                          UserRecord("b", "b", "b@example.com", "hash", "b", "b", None)];
      var respond := (u: nat, k: nat) =>
        if u == 0 && k == 1 then CompareReply("success", true, 0.95) else CompareReply("success", false, 0.0);
      IsFirstBest(users, respond, Some(0), 0.95)
  {
    var users := [UserRecord("a", "a", "a@example.com", "hash", "a", "a", Some([[0.0], [1.0]])),
                  UserRecord("b", "b", "b@example.com", "hash", "b", "b", None)];
    var respond := (u: nat, k: nat) =>
      if u == 0 && k == 1 then CompareReply("success", true, 0.95) else CompareReply("success", false, 0.0);
    forall u: nat, k: nat | PositiveAt(users, respond, u, k) ensures ConfidenceAt(respond, u, k) <= 0.95 {
      assert u == 0 && k == 1;
    }
    assert PositiveAt(users, respond, 0, 1);
  }

  /** When every comparison throws, there is no match. */
  lemma AllComparisonsFailMeansNoMatch(users: seq<UserRecord>, respond: (nat, nat) -> CompareOutcome)
    requires forall u: nat, k: nat :: respond(u, k) == CompareThrew
    ensures IsFirstBest(users, respond, None, 0.0)
    ensures forall m: Option<nat>, h: real :: m.Some? ==> !IsFirstBest(users, respond, m, h)
  {
    forall m: Option<nat>, h: real | m.Some? ensures !IsFirstBest(users, respond, m, h) {
      if IsFirstBest(users, respond, m, h) {
        FirstBestUnique(users, respond, m, h, None, 0.0);
      }
    }
  }
}
