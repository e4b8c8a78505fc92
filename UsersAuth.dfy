/**
 * Creation and verification of the signed, expiring action tokens.
 *
 * Tokens are symbolic: a token produced by the JWT encoder is the payload it
 * carries together with the key and algorithm it was signed with; any other
 * string is `Other`. Signing is not modelled, only which key signed. The clock
 * is the parameter `now`, in whole seconds since the epoch, and the settings
 * (secret, algorithm, lifetimes in minutes) are passed in as a value.
 */
module UsersAuth {
  import opened Wrappers

  /** `AuthTokenTypes`: the action tag of the two kinds of token. */
  datatype AuthTokenType = Access | Refresh {
    function Value(): string
    {
      match this
      case Access => "access_token"
      case Refresh => "refresh_token"
    }
  }

  datatype Settings = Settings(
    secretKey: string,
    algorithm: string,
    accessTokenExpireMinutes: int,
    refreshTokenExpireMinutes: int)

  /** The claims of a token; an absent or null claim is None. `exp` is in seconds. */
  datatype Payload = Payload(userId: Option<int>, action: Option<string>, exp: Option<int>)

  datatype Token = Signed(payload: Payload, key: string, algorithm: string) | Other(text: string)

  /** The subclasses of `PyJWTError` that decoding raises. */
  datatype JwtError = DecodeError | InvalidAlgorithmError | InvalidSignatureError | ExpiredSignatureError

  /** `TokenData`: what `decode_token` extracts from a payload. */
  datatype TokenData = TokenData(userId: Option<int>, action: Option<string>)

  /** `jwt.encode(payload, key, algorithm)`. */
  function JwtEncode(payload: Payload, key: string, algorithm: string): Token
  {
    Signed(payload, key, algorithm)
  }

  /**
   * `jwt.decode(token, key, algorithms)`: the header's algorithm must be allowed,
   * the signature must be by `key`, and a token with `exp` is expired once
   * `exp <= now`.
   */
  function JwtDecode(token: Token, key: string, algorithms: seq<string>, now: int): (r: Result<Payload, JwtError>)
    ensures r.Success? <==> token.Signed? && token.algorithm in algorithms && token.key == key
                            && (token.payload.exp.Some? ==> now < token.payload.exp.value)
    ensures r.Success? ==> r.value == token.payload
  {
    match token
    case Other(_) => Failure(DecodeError)
    case Signed(payload, signer, alg) =>
      if alg !in algorithms then Failure(InvalidAlgorithmError)
      else if signer != key then Failure(InvalidSignatureError)
      else if payload.exp.Some? && payload.exp.value <= now then Failure(ExpiredSignatureError)
      else Success(payload)
  }

  /** Decoding undoes encoding while the token has not expired. */
  lemma JwtRoundTrip(payload: Payload, key: string, algorithm: string, now: int)
    requires payload.exp.Some? ==> now < payload.exp.value
    ensures JwtDecode(JwtEncode(payload, key, algorithm), key, [algorithm], now) == Success(payload)
  {
  }

  /** `get_payload_from_token`: the decoded claims; decode errors propagate. */
  function GetPayloadFromToken(accessToken: Token, settings: Settings, now: int): (r: Result<Payload, JwtError>)
    ensures r.Success? <==> accessToken.Signed? && accessToken.key == settings.secretKey
                            && accessToken.algorithm == settings.algorithm
                            && (accessToken.payload.exp.Some? ==> now < accessToken.payload.exp.value)
    ensures r.Success? ==> r.value == accessToken.payload
  {
    JwtDecode(accessToken, settings.secretKey, [settings.algorithm], now)
  }

  /**
   * `_create_auth_token`: the data with `exp` set to `expire_minutes` from now,
   * signed with the settings; it decodes exactly until that moment.
   */
  function CreateAuthToken(data: Payload, expireMinutes: int, settings: Settings, now: int): (t: Token)
    ensures t.Signed? && t.key == settings.secretKey && t.algorithm == settings.algorithm
    ensures t.payload.userId == data.userId && t.payload.action == data.action
    ensures t.payload.exp == Some(now + 60 * expireMinutes)
    ensures forall later :: GetPayloadFromToken(t, settings, later).Success? <==> later < now + 60 * expireMinutes
  {
    JwtEncode(data.(exp := Some(now + 60 * expireMinutes)), settings.secretKey, settings.algorithm)
  }

  /**
   * `create_token`: a token signed with the secret that carries exactly
   * `user_id`, the token type's action and `exp = now + expire_minutes`.
   */
  function CreateToken(userId: Option<int>, tokenType: AuthTokenType, expireMinutes: int, settings: Settings, now: int): (t: Token)
    ensures t == Signed(Payload(userId, Some(tokenType.Value()), Some(now + 60 * expireMinutes)), settings.secretKey, settings.algorithm)
  {
    CreateAuthToken(Payload(userId, Some(tokenType.Value()), None), expireMinutes, settings, now)
  }

  /** `create_access_token`: tagged "access_token", alive for the access lifetime. */
  function CreateAccessToken(userId: Option<int>, settings: Settings, now: int): (t: Token)
    ensures t == Signed(Payload(userId, Some("access_token"), Some(now + 60 * settings.accessTokenExpireMinutes)),
                        settings.secretKey, settings.algorithm)
  {
    CreateToken(userId, Access, settings.accessTokenExpireMinutes, settings, now)
  }

  /** `create_refresh_token`: tagged "refresh_token", alive for the refresh lifetime. */
  function CreateRefreshToken(userId: Option<int>, settings: Settings, now: int): (t: Token)
    ensures t == Signed(Payload(userId, Some("refresh_token"), Some(now + 60 * settings.refreshTokenExpireMinutes)),
                        settings.secretKey, settings.algorithm)
  {
    CreateToken(userId, Refresh, settings.refreshTokenExpireMinutes, settings, now)
  }

  /** `generate_auth_tokens`: the access token first, then the refresh token, for the same user. */
  function GenerateAuthTokens(userId: Option<int>, settings: Settings, now: int): (pair: (Token, Token))
    ensures pair.0.Signed? && pair.1.Signed?
    ensures pair.0.payload.userId == userId && pair.1.payload.userId == userId
    ensures pair.0.payload.action == Some(Access.Value()) && pair.1.payload.action == Some(Refresh.Value())
    ensures pair.0.key == settings.secretKey && pair.0.algorithm == settings.algorithm
    ensures pair.1.key == settings.secretKey && pair.1.algorithm == settings.algorithm
    ensures pair.0.payload.exp == Some(now + 60 * settings.accessTokenExpireMinutes)
    ensures pair.1.payload.exp == Some(now + 60 * settings.refreshTokenExpireMinutes)
    ensures pair.0 != pair.1
  {
    (CreateAccessToken(userId, settings, now), CreateRefreshToken(userId, settings, now))
  }

  /** `decode_token`: the user id and action of a valid token; every decode error becomes the supplied exception. */
  function DecodeToken<E>(token: Token, credentialsException: E, settings: Settings, now: int): (r: Result<TokenData, E>)
    ensures r.Failure? <==> GetPayloadFromToken(token, settings, now).Failure?
    ensures r.Failure? ==> r.error == credentialsException
    ensures r.Success? ==> var p := GetPayloadFromToken(token, settings, now).value;
                           r.value == TokenData(p.userId, p.action)
  {
    match GetPayloadFromToken(token, settings, now)
    case Failure(_) => Failure(credentialsException)
    case Success(payload) => Success(TokenData(payload.userId, payload.action))
  }

  /**
   * Decoding a created token gives back its user id and action exactly while it
   * has not expired; afterwards it fails with the supplied exception.
   */
  lemma DecodeCreatedToken<E>(userId: Option<int>, tokenType: AuthTokenType, expireMinutes: int,
                              settings: Settings, now: int, later: int, credentialsException: E)
    ensures DecodeToken(CreateToken(userId, tokenType, expireMinutes, settings, now), credentialsException, settings, later)
         == if later < now + 60 * expireMinutes then Success(TokenData(userId, Some(tokenType.Value())))
            else Failure(credentialsException)
  {
  }

  /** A token signed with another key, or not a token at all, fails with the supplied exception. */
  lemma ForgedTokenFails<E>(token: Token, credentialsException: E, settings: Settings, now: int)
    requires token.Other? || token.key != settings.secretKey
    ensures DecodeToken(token, credentialsException, settings, now) == Failure(credentialsException)
  {
  }

  /** Python truthiness of the user id claim: None and 0 are false. */
  predicate Truthy(userId: Option<int>)
  {
    userId.Some? && userId.value != 0
  }

  /**
   * `verify_action_token`: the user id when the token's action is `action` and
   * its user id is truthy, else None; an undecodable token raises the supplied
   * exception.
   */
  function VerifyActionToken<E>(token: Token, action: string, credentialsException: E, settings: Settings, now: int): (r: Result<Option<int>, E>)
    ensures r.Failure? <==> DecodeToken(token, credentialsException, settings, now).Failure?
    ensures r.Failure? ==> r.error == credentialsException
    ensures r.Success? ==> var data := DecodeToken(token, credentialsException, settings, now).value;
                           && (r.value.Some? <==> Truthy(data.userId) && data.action == Some(action))
                           && (r.value.Some? ==> r.value == data.userId)
  {
    match DecodeToken(token, credentialsException, settings, now)
    case Failure(e) => Failure(e)
    case Success(data) =>
      if Truthy(data.userId) && data.action == Some(action) then Success(data.userId) else Success(None)
  }

  /**
   * On a live created token, verification returns the user id exactly when the
   * expected action is the token's and the id is not 0, and None otherwise.
   */
  lemma {:induction false} VerifyCreatedToken<E>(userId: int, tokenType: AuthTokenType, expireMinutes: int,
                                                 settings: Settings, now: int, later: int, action: string, credentialsException: E)
    requires later < now + 60 * expireMinutes
    ensures VerifyActionToken(CreateToken(Some(userId), tokenType, expireMinutes, settings, now), action, credentialsException, settings, later)
         == Success(if action == tokenType.Value() && userId != 0 then Some(userId) else None)
  {
    DecodeCreatedToken(Some(userId), tokenType, expireMinutes, settings, now, later, credentialsException);
  }

  /** `get_payload_from_token` of a live created token holds the user id, the action and the expiry. */
  lemma PayloadOfCreatedToken(userId: int, settings: Settings, now: int, later: int)
    requires later < now + 60 * settings.accessTokenExpireMinutes
    ensures var p := GetPayloadFromToken(CreateAccessToken(Some(userId), settings, now), settings, later);
            p.Success? && p.value.userId == Some(userId) && p.value.action == Some("access_token") && p.value.exp.Some?
  {
  }
}
