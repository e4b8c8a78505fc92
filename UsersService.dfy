/**
 * `UserService`: registration, login, token refresh and logout. Each returns
 * the HTTP response it builds, or the HTTP error it raises. The password hasher
 * is passed in as the pair of functions `hash` and `verify`. Being functions
 * they are deterministic, so they stand for an unsalted hasher; nothing else
 * is assumed about them.
 */
module UsersService {
  import opened Wrappers
  import opened BaseExceptions
  import opened UsersAuth

  /** A row of the users table (timestamps left out); `password` holds the hash. */
  datatype User = User(id: int, firstName: string, lastName: string, username: string, password: string)

  datatype RegisterSchema = RegisterSchema(firstName: string, lastName: string, username: string, password: string)

  datatype LoginSchema = LoginSchema(username: string, password: string)

  /** The JSON body of a response. */
  datatype Body = AccessTokenBody(accessToken: Token) | MessageBody(message: string)

  /** The cookie header of a response. */
  datatype CookieAction =
    | SetCookie(key: string, value: Token, httpOnly: bool, sameSite: string, secure: bool)
    | DeleteCookie(key: string)

  datatype Response = Response(statusCode: int, body: Body, cookie: CookieAction)

  /** The response shared by register, login and refresh: the access token in the body, the refresh token in a cookie. */
  function AuthResponse(statusCode: int, tokens: (Token, Token)): Response
  {
    Response(statusCode, AccessTokenBody(tokens.0), SetCookie("refresh_token", tokens.1, true, "None", true))
  }

  /** The client's cookies after it receives `r`. */
  function ApplyCookie(jar: map<string, Token>, r: Response): (after: map<string, Token>)
    ensures forall k :: k != r.cookie.key ==> (k in after <==> k in jar) && (k in jar ==> after[k] == jar[k])
    ensures r.cookie.SetCookie? ==> r.cookie.key in after && after[r.cookie.key] == r.cookie.value
    ensures r.cookie.DeleteCookie? ==> r.cookie.key !in after
  {
    match r.cookie
    case SetCookie(key, value, _, _, _) => jar[key := value]
    case DeleteCookie(key) => jar - {key}
  }

  /** Python truthiness of a cookie value: only the empty string is false. */
  predicate Present(t: Token)
  {
    t != Other("")
  }

  class UserService {
    /** The users table, by username (usernames are unique). */
    var users: map<string, User>
    /** The id the database assigns to the next user. */
    var nextId: int

    ghost predicate Valid()
      reads this
    {
      && (forall name :: name in users ==> users[name].username == name && users[name].id < nextId)
      && (forall a, b :: a in users && b in users && a != b ==> users[a].id != users[b].id)
    }

    constructor ()
      ensures Valid() && users == map[] && nextId == 1
    {
      users, nextId := map[], 1;
    }

    /**
     * `register`: BadRequest if the username is taken; otherwise one new user
     * with the hashed password, then 201 with a token pair for the new id.
     */
    method Register(schema: RegisterSchema, hash: string -> string, settings: Settings, now: int)
      returns (r: Result<Response, HttpError>)
      requires Valid()
      modifies this
      ensures Valid()
      ensures old(schema.username in users) ==>
                r == Failure(BadRequestException("User already exists"))
                && users == old(users) && nextId == old(nextId)
      ensures old(schema.username !in users) ==>
                var user := User(old(nextId), schema.firstName, schema.lastName, schema.username, hash(schema.password));
                && users == old(users)[schema.username := user]
                && nextId == old(nextId) + 1
                && r == Success(AuthResponse(201, GenerateAuthTokens(Some(user.id), settings, now)))
    {
      if schema.username in users {
        return Failure(BadRequestException("User already exists"));
      }
      var user := User(nextId, schema.firstName, schema.lastName, schema.username, hash(schema.password));
      users := users[schema.username := user];
      nextId := nextId + 1;
      r := Success(AuthResponse(201, GenerateAuthTokens(Some(user.id), settings, now)));
    }

    /**
     * `login`: NotFound for an unknown username, Unauthorized when the password
     * does not verify against the stored hash, otherwise 200 with a token pair
     * for the user's id. It reads the table and changes nothing.
     */
    function Login(schema: LoginSchema, verify: (string, string) -> bool, settings: Settings, now: int)
      : (r: Result<Response, HttpError>)
      reads this
      ensures schema.username !in users ==> r == Failure(NotFoundException("User not found"))
      ensures schema.username in users && !verify(schema.password, users[schema.username].password) ==>
                r == Failure(UnauthorizedException("Incorrect username or password"))
      ensures r.Success? <==> schema.username in users && verify(schema.password, users[schema.username].password)
      ensures r.Success? ==> r.value == AuthResponse(200, GenerateAuthTokens(Some(users[schema.username].id), settings, now))
      ensures r.Success? ==> r.value.statusCode == 200
                             && r.value.body.AccessTokenBody? && r.value.cookie.SetCookie?
                             && r.value.cookie.key == "refresh_token"
                             && r.value.body.accessToken.Signed? && r.value.cookie.value.Signed?
                             && r.value.body.accessToken.payload.action == Some("access_token")
                             && r.value.cookie.value.payload.action == Some("refresh_token")
                             && r.value.body.accessToken.payload.userId == Some(users[schema.username].id)
                             && r.value.cookie.value.payload.userId == Some(users[schema.username].id)
    {
      if schema.username !in users then Failure(NotFoundException("User not found"))
      else
        var user := users[schema.username];
        if !verify(schema.password, user.password) then Failure(UnauthorizedException("Incorrect username or password"))
        else Success(AuthResponse(200, GenerateAuthTokens(Some(user.id), settings, now)))
    }

    /**
     * `refresh`, as written: Unauthorized when the cookie is missing or empty,
     * when the token does not decode, or when its action is not "auth";
     * otherwise 200 with a new token pair for the token's user id.
     */
    static function Refresh(cookies: map<string, Token>, settings: Settings, now: int): (r: Result<Response, HttpError>)
      ensures ("refresh_token" !in cookies || !Present(cookies["refresh_token"])) ==>
                r == Failure(UnauthorizedException("Refresh token not found"))
      ensures "refresh_token" in cookies && Present(cookies["refresh_token"])
              && GetPayloadFromToken(cookies["refresh_token"], settings, now).Failure? ==>
                r == Failure(UnauthorizedException("Invalid refresh token"))
      ensures "refresh_token" in cookies && Present(cookies["refresh_token"])
              && GetPayloadFromToken(cookies["refresh_token"], settings, now).Success?
              && GetPayloadFromToken(cookies["refresh_token"], settings, now).value.action != Some("auth") ==>
                r == Failure(UnauthorizedException("Invalid token action"))
      ensures r.Success? <==> "refresh_token" in cookies && Present(cookies["refresh_token"])
                              && GetPayloadFromToken(cookies["refresh_token"], settings, now).Success?
                              && GetPayloadFromToken(cookies["refresh_token"], settings, now).value.action == Some("auth")
      ensures r.Success? ==> var p := GetPayloadFromToken(cookies["refresh_token"], settings, now).value;
                             p.action == Some("auth")
                             && r.value == AuthResponse(200, GenerateAuthTokens(p.userId, settings, now))
    {
      if "refresh_token" !in cookies || !Present(cookies["refresh_token"]) then
        Failure(UnauthorizedException("Refresh token not found"))
      else
        match DecodeToken(cookies["refresh_token"], UnauthorizedException("Invalid refresh token"), settings, now)
        case Failure(e) => Failure(e)
        case Success(data) =>
          if data.action != Some("auth") then Failure(UnauthorizedException("Invalid token action"))
          else Success(AuthResponse(200, GenerateAuthTokens(data.userId, settings, now)))
    }

    /** `refresh` accepting the action that refresh tokens are minted with, "refresh_token". */
    static function RefreshWithRefreshAction(cookies: map<string, Token>, settings: Settings, now: int): (r: Result<Response, HttpError>)
      ensures ("refresh_token" !in cookies || !Present(cookies["refresh_token"])) ==>
                r == Failure(UnauthorizedException("Refresh token not found"))
      ensures "refresh_token" in cookies && Present(cookies["refresh_token"])
              && GetPayloadFromToken(cookies["refresh_token"], settings, now).Failure? ==>
                r == Failure(UnauthorizedException("Invalid refresh token"))
      ensures "refresh_token" in cookies && Present(cookies["refresh_token"])
              && GetPayloadFromToken(cookies["refresh_token"], settings, now).Success?
              && GetPayloadFromToken(cookies["refresh_token"], settings, now).value.action != Some(AuthTokenType.Refresh.Value()) ==>
                r == Failure(UnauthorizedException("Invalid token action"))
      ensures r.Success? <==> "refresh_token" in cookies && Present(cookies["refresh_token"])
                              && GetPayloadFromToken(cookies["refresh_token"], settings, now).Success?
                              && GetPayloadFromToken(cookies["refresh_token"], settings, now).value.action == Some(AuthTokenType.Refresh.Value())
      ensures r.Success? ==> var p := GetPayloadFromToken(cookies["refresh_token"], settings, now).value;
                             p.action == Some(AuthTokenType.Refresh.Value())
                             && r.value == AuthResponse(200, GenerateAuthTokens(p.userId, settings, now))
    {
      if "refresh_token" !in cookies || !Present(cookies["refresh_token"]) then
        Failure(UnauthorizedException("Refresh token not found"))
      else
        match DecodeToken(cookies["refresh_token"], UnauthorizedException("Invalid refresh token"), settings, now)
        case Failure(e) => Failure(e)
        case Success(data) =>
          if data.action != Some(AuthTokenType.Refresh.Value()) then Failure(UnauthorizedException("Invalid token action"))
          else Success(AuthResponse(200, GenerateAuthTokens(data.userId, settings, now)))
    }

    /** `logout`: 200 "Logged out", and the client's refresh token cookie is deleted; nothing is stored. */
    static function Logout(): (r: Response)
      ensures r.statusCode == 200 && r.body == MessageBody("Logged out")
      ensures forall jar: map<string, Token> :: "refresh_token" !in ApplyCookie(jar, r)
    {
      Response(200, MessageBody("Logged out"), DeleteCookie("refresh_token"))
    }
  }

  /** Once registered, a user whose hasher verifies its own hashes can log in, and gets tokens for the new id. */
  lemma RegisteredUserCanLogIn(service: UserService, schema: RegisterSchema, hash: string -> string,
                               verify: (string, string) -> bool, settings: Settings, now: int, id: int)
    requires schema.username in service.users
    requires service.users[schema.username] == User(id, schema.firstName, schema.lastName, schema.username, hash(schema.password))
    requires verify(schema.password, hash(schema.password))
    ensures service.Login(LoginSchema(schema.username, schema.password), verify, settings, now)
         == Success(AuthResponse(200, GenerateAuthTokens(Some(id), settings, now)))
  {
  }

  /** The tokens a successful login hands out decode, while alive, to the user's id with their own actions. */
  lemma LoginTokensIdentifyUser(service: UserService, schema: LoginSchema, verify: (string, string) -> bool,
                                settings: Settings, now: int, later: int)
    requires service.Login(schema, verify, settings, now).Success?
    requires later < now + 60 * settings.accessTokenExpireMinutes
    requires later < now + 60 * settings.refreshTokenExpireMinutes
    ensures var r := service.Login(schema, verify, settings, now).value;
            var id := service.users[schema.username].id;
            && DecodeToken(r.body.accessToken, (), settings, later) == Success(TokenData(Some(id), Some("access_token")))
            && DecodeToken(r.cookie.value, (), settings, later) == Success(TokenData(Some(id), Some("refresh_token")))
  {
    var id := service.users[schema.username].id;
    DecodeCreatedToken(Some(id), Access, settings.accessTokenExpireMinutes, settings, now, later, ());
    DecodeCreatedToken(Some(id), Refresh, settings.refreshTokenExpireMinutes, settings, now, later, ());
  }

  /** In a valid table, the user id in the tokens of a successful login names the user who logged in and no other. */
  lemma LoginIdentifiesOneUser(service: UserService, schema: LoginSchema, verify: (string, string) -> bool,
                               settings: Settings, now: int, name: string)
    requires service.Valid() && name in service.users
    requires service.Login(schema, verify, settings, now).Success?
    requires Some(service.users[name].id) == service.Login(schema, verify, settings, now).value.body.accessToken.payload.userId
    ensures name == schema.username
  {
  }

  /** As written, `refresh` rejects every token the service issues: both carry an action other than "auth". */
  lemma {:induction false} RefreshRejectsIssuedTokens(userId: Option<int>, settings: Settings, now: int, later: int, which: bool)
    ensures var tokens := GenerateAuthTokens(userId, settings, now);
            UserService.Refresh(map["refresh_token" := if which then tokens.0 else tokens.1], settings, later).Failure?
  {
    var tokens := GenerateAuthTokens(userId, settings, now);
    var t := if which then tokens.0 else tokens.1;
    var cookies := map["refresh_token" := t];
    assert Present(t);
    var p := GetPayloadFromToken(t, settings, later);
    if p.Success? {
      assert p.value == t.payload;
      assert p.value.action != Some("auth");
    }
  }

  /**
   * With the refresh action, a live refresh token issued for a user is rotated
   * into a new pair for the same user, and an access token is refused.
   */
  lemma {:induction false} RefreshRotatesIssuedRefreshToken(userId: Option<int>, settings: Settings, now: int, later: int)
    requires later < now + 60 * settings.refreshTokenExpireMinutes
    ensures var tokens := GenerateAuthTokens(userId, settings, now);
            (UserService.RefreshWithRefreshAction(map["refresh_token" := tokens.1], settings, later)
             == Success(AuthResponse(200, GenerateAuthTokens(userId, settings, later))))
    ensures var tokens := GenerateAuthTokens(userId, settings, now);
            UserService.RefreshWithRefreshAction(map["refresh_token" := tokens.0], settings, later).Failure?
  {
    var tokens := GenerateAuthTokens(userId, settings, now);
    DecodeCreatedToken(userId, Refresh, settings.refreshTokenExpireMinutes, settings, now, later,
                       UnauthorizedException("Invalid refresh token"));
    assert Present(tokens.0) && Present(tokens.1);
    var p := GetPayloadFromToken(tokens.0, settings, later);
    if p.Success? {
      assert p.value.action == Some("access_token");
    }
  }

  /** After logging out, a refresh from the client's cookies fails with "Refresh token not found". */
  lemma LogoutEndsSession(jar: map<string, Token>, settings: Settings, now: int)
    ensures UserService.Refresh(ApplyCookie(jar, UserService.Logout()), settings, now)
         == Failure(UnauthorizedException("Refresh token not found"))
    ensures UserService.RefreshWithRefreshAction(ApplyCookie(jar, UserService.Logout()), settings, now)
         == Failure(UnauthorizedException("Refresh token not found"))
  {
  }
}
