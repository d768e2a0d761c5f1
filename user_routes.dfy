/**
 * routes/userRoutes.js: `POST /register` and `POST /login` with local credentials.
 */
module UserRoutes {
  import opened Wrappers
  import opened JsText
  import opened Faults
  import opened UserModel
  import opened Auth

  datatype RegisterBody = RegisterBody(username: Option<string>, email: Option<string>, password: Option<string>)

  datatype LoginBody = LoginBody(email: Option<string>, password: Option<string>)

  /** The `user` object of a response: `{ id, username, email }`, which has no password. */
  datatype UserSummary = UserSummary(id: UserId, username: string, email: Option<string>)

  datatype Reply =
    | Failed(error: string)                          // { error }
    | ServerError(details: Fault)                    // { error: "Server error", details: err.message }
    | Registered(token: string, user: UserSummary)   // { message: "User registered successfully", token, user }
    | LoggedIn(token: string, user: UserSummary)     // { token, user }

  datatype Response = Response(status: int, body: Reply)

  const MissingRegisterFields := "username, email, password required"
  const UserExists := "User already exists"
  const MissingLoginFields := "email and password required"
  const InvalidCredentials := "Invalid credentials"

  predicate HasRegisterFields(b: RegisterBody) {
    Truthy(b.username) && Truthy(b.email) && Truthy(b.password)
  }

  /** The document `User.create({ username, email: email.toLowerCase(), password })` builds. */
  function RegisterDraft(b: RegisterBody): Draft
    requires HasRegisterFields(b)
  {
    NewDraft(b.username.value, Some(ToLowerCase(b.email.value)), b.password, None)
  }

  /** The user a successful registration stores: the draft with the password hashed. */
  function RegisteredUser(b: RegisterBody, h: Hasher, salt: nat, now: int): (u: User)
    requires HasRegisterFields(b)
    ensures u.username == CastUsername(b.username.value)
    ensures u.email == Some(CastEmail(ToLowerCase(b.email.value)))
    ensures u.password == Some(h.hash(b.password.value, salt)) && u.githubId.None?
  {
    var d := RegisterDraft(b);
    User(d.username, d.email, Some(h.hash(b.password.value, salt)), None, now, now)
  }

  function Summary(id: UserId, u: User): UserSummary {
    UserSummary(id, u.username, u.email)
  }

  function ClaimsOf(id: UserId, u: User): Claims {
    Claims(id, u.email, u.username)
  }

  /** `POST /register`. */
  method Register(users: Users, body: RegisterBody, h: Hasher, salt: nat, c: JwtCodec, secret: string, now: int)
      returns (response: Response, users': Users)
    requires UsersValid(users)
    ensures UsersValid(users')
    ensures !HasRegisterFields(body) ==>
      response == Response(400, Failed(MissingRegisterFields)) && users' == users
    ensures HasRegisterFields(body) && FindByEmail(users, ToLowerCase(body.email.value)).Some? ==>
      response == Response(400, Failed(UserExists)) && users' == users
    // the create: inserted exactly when the validators and the unique indexes accept it
    ensures HasRegisterFields(body) && FindByEmail(users, ToLowerCase(body.email.value)).None? ==>
      var u := RegisteredUser(body, h, salt, now);
      if Validates(RegisterDraft(body), true) && !Collides(users, u, None) then
        && users' == Users(users.records[users.next := u], users.next + 1)
        && response == (match SignToken(c, secret, now, ClaimsOf(users.next, u))
                        case Ok(token) => Response(201, Registered(token, Summary(users.next, u)))
                        case Err(e) => Response(500, ServerError(e)))
      else
        users' == users && response.status == 500
    ensures response.status == 201 ==> secret != [] && users'.records.Keys == users.records.Keys + {users.next}
  {
    if !HasRegisterFields(body) {
      return Response(400, Failed(MissingRegisterFields)), users;
    }
    var existing := FindByEmail(users, ToLowerCase(body.email.value));
    if existing.Some? {
      return Response(400, Failed(UserExists)), users;
    }
    var user := new UserDocument.Create(users.next, RegisterDraft(body));
    SaveKeepsUsersValid(users, users.next, true, RegisterDraft(body), h, salt, now);
    var created := Save(user, users, h, salt, now);
    if created.Err? {
      return Response(500, ServerError(created.error)), users;
    }
    users' := created.value;
    var token := SignToken(c, secret, now, Claims(user.id, user.email, user.username));
    if token.Err? {
      return Response(500, ServerError(token.error)), users';
    }
    response := Response(201, Registered(token.value, UserSummary(user.id, user.username, user.email)));
  }

  /** `POST /login`: read-only; the password is selected for this one lookup. */
  function Login(users: Users, body: LoginBody, h: Hasher, c: JwtCodec, secret: string, now: int): (r: Response)
    requires UsersValid(users)
    ensures !(Truthy(body.email) && Truthy(body.password)) ==> r == Response(400, Failed(MissingLoginFields))
    ensures Truthy(body.email) && Truthy(body.password) ==>
      match FindByEmail(users, ToLowerCase(body.email.value))
      case None => r == Response(400, Failed(InvalidCredentials))
      case Some(k) =>
        var u := users.records[k];
        if u.password.None? then r == Response(500, ServerError(HashArgumentsRequired))
        else if !h.compare(body.password.value, u.password.value) then r == Response(400, Failed(InvalidCredentials))
        else if secret == [] then r == Response(500, ServerError(SecretMissing))
        else r == Response(200, LoggedIn(SignToken(c, secret, now, ClaimsOf(k, u)).value, Summary(k, u)))
  {
    if !(Truthy(body.email) && Truthy(body.password)) then Response(400, Failed(MissingLoginFields))
    else match FindByEmail(users, ToLowerCase(body.email.value))
      case None => Response(400, Failed(InvalidCredentials))
      case Some(k) =>
        var u := users.records[k];
        match IsCorrectPassword(h, u.password, body.password.value)
        case Err(e) => Response(500, ServerError(e))
        case Ok(isMatch) =>
          if !isMatch then Response(400, Failed(InvalidCredentials))
          else match SignToken(c, secret, now, ClaimsOf(k, u))
            case Err(e) => Response(500, ServerError(e))
            case Ok(token) => Response(200, LoggedIn(token, Summary(k, u)))
  }

  /** An unknown email and a wrong password get the same answer. */
  lemma UnknownEmailLooksLikeWrongPassword(users: Users, unknown: LoginBody, wrong: LoginBody, h: Hasher, c: JwtCodec, secret: string, now: int)
    requires UsersValid(users)
    requires Truthy(unknown.email) && Truthy(unknown.password) && Truthy(wrong.email) && Truthy(wrong.password)
    requires FindByEmail(users, ToLowerCase(unknown.email.value)).None?
    requires var k := FindByEmail(users, ToLowerCase(wrong.email.value));
      k.Some? && users.records[k.value].password.Some?
      && !h.compare(wrong.password.value, users.records[k.value].password.value)
    ensures Login(users, unknown, h, c, secret, now) == Login(users, wrong, h, c, secret, now)
      == Response(400, Failed(InvalidCredentials))
  {
  }

  /** Registering and then logging in with the same email (in any letter case) and password
      succeeds, as the registered user, and the token it returns authenticates that user
      until it expires. */
  method RegisterThenLogin(users: Users, body: RegisterBody, loginEmail: string, h: Hasher, salt: nat,
                           c: JwtCodec, secret: string, now: int, later: int, request: int)
      returns (registered: Response, loggedIn: Response, users': Users)
    requires UsersValid(users) && HasherSound(h) && CodecSound(c)
    requires HasRegisterFields(body) && loginEmail != [] && ToLowerCase(loginEmail) == ToLowerCase(body.email.value)
    requires later <= request < later + TokenLifetime
    ensures registered.status == 201 ==>
      && registered.body.Registered? && loggedIn == Response(200, loggedIn.body) && loggedIn.body.LoggedIn?
      && loggedIn.body.user == registered.body.user
      && Authenticate(Some(BearerPrefix + loggedIn.body.token), c, secret, request)
         == Authenticated(Identity(registered.body.user.id, registered.body.user.email, registered.body.user.username))
  {
    registered, users' := Register(users, body, h, salt, c, secret, now);
    loggedIn := Login(users', LoginBody(Some(loginEmail), body.password), h, c, secret, later);
    if registered.status == 201 {
      var u := RegisteredUser(body, h, salt, now);
      var k := FindByEmail(users', ToLowerCase(loginEmail)).value;
      assert users'.records[users.next] == u;
      assert k == users.next;
      SignedTokenAuthenticates(c, secret, later, request, ClaimsOf(k, u));
    }
  }
}
