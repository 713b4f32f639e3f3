/**
 * Login: validate the submitted account id, look it up, and issue a session
 * token for one day whose subject is the account id. The reply reports an
 * expiry five minutes before the token's own.
 */
module Sessions {
  import opened Wrappers
  import opened Platform
  import opened Provisioning

  /** ClaimTypes.NameIdentifier, the claim that carries the account id. */
  const NameIdentifierClaim: string := "http://schemas.xmlsoap.org/ws/2005/05/identity/claims/nameidentifier"
  /** SecurityAlgorithms.HmacSha256Signature. */
  const HmacSha256Signature: string := "http://www.w3.org/2001/04/xmldsig-more#hmac-sha256"
  /** How much earlier than the token's expiry the reply says it expires. */
  const ExpiryMargin: int := 5 * TicksPerMinute

  datatype LoginError = Unknown | InvalidAccountId

  /** The configured issuer, audience and signing key. */
  datatype TokenConfig = TokenConfig(issuer: string, audience: string, signingKey: seq<byte>)

  datatype Claim = Claim(claimType: string, value: string)

  /** A session token as described before signing: its claims and signing credentials. */
  datatype Jwt = Jwt(claims: seq<Claim>, expires: int, issuer: string, audience: string,
                     signingKey: seq<byte>, algorithm: string)

  datatype LoginReply = LoginReply(success: bool, authToken: Option<Jwt>, expiresAt: Option<int>, error: Option<LoginError>)

  /** The account id the token asserts: its first name-identifier claim. */
  function SubjectOf(claims: seq<Claim>): Option<string> {
    if claims == [] then None
    else if claims[0].claimType == NameIdentifierClaim then Some(claims[0].value)
    else SubjectOf(claims[1..])
  }

  /**
   * Login. `now` is the clock at the call, `lookupFails` says whether the
   * table lookup throws.
   */
  function Login(lib: Library, config: TokenConfig, accounts: AccountTable, lookupFails: bool,
                 accountId: string, now: int): (r: LoginReply)
    ensures r.success <==> lib.parseGuid(accountId).Some? && !lookupFails && lib.parseGuid(accountId).value in accounts
    ensures r.success <==> r.authToken.Some? && r.expiresAt.Some?
    ensures !r.success ==> r.error.Some? && r.authToken == None && r.expiresAt == None
    ensures r.error == Some(InvalidAccountId) <==>
      lib.parseGuid(accountId).Some? && !lookupFails && lib.parseGuid(accountId).value !in accounts
  {
    match lib.parseGuid(accountId)
    case None => LoginReply(false, None, None, Some(Unknown))
    case Some(id) =>
      if lookupFails then LoginReply(false, None, None, Some(Unknown))
      else if id !in accounts then LoginReply(false, None, None, Some(InvalidAccountId))
      else
        var token := Jwt([Claim(NameIdentifierClaim, lib.formatGuid(id))], now + TicksPerDay,
                         config.issuer, config.audience, config.signingKey, HmacSha256Signature);
        LoginReply(true, Some(token), Some(token.expires - ExpiryMargin), None)
  }

  /** An id that does not parse is answered Unknown whatever the table holds and whether or not it can be read. */
  lemma UnparseableIdIsUnknown(lib: Library, config: TokenConfig, accounts1: AccountTable, accounts2: AccountTable,
                               lookupFails1: bool, lookupFails2: bool, accountId: string, now: int)
    requires lib.parseGuid(accountId) == None
    ensures Login(lib, config, accounts1, lookupFails1, accountId, now) == LoginReply(false, None, None, Some(Unknown))
    ensures Login(lib, config, accounts1, lookupFails1, accountId, now) == Login(lib, config, accounts2, lookupFails2, accountId, now)
  {
  }

  /**
   * A successful login carries a token for the canonical text of the parsed
   * id, from the configured issuer to the configured audience, HMAC-SHA256
   * signed with the configured key, expiring one day from now; the reply
   * reports an expiry exactly five minutes earlier.
   */
  lemma {:induction false} LoginTokenBoundToAccount(lib: Library, config: TokenConfig, accounts: AccountTable, accountId: string, now: int)
    requires lib.parseGuid(accountId).Some? && lib.parseGuid(accountId).value in accounts
    ensures var r := Login(lib, config, accounts, false, accountId, now);
      && r.success
      && SubjectOf(r.authToken.value.claims) == Some(lib.formatGuid(lib.parseGuid(accountId).value))
      && r.authToken.value.issuer == config.issuer && r.authToken.value.audience == config.audience
      && r.authToken.value.signingKey == config.signingKey && r.authToken.value.algorithm == HmacSha256Signature
      && r.authToken.value.expires == now + TicksPerDay
      && r.expiresAt == Some(r.authToken.value.expires - 5 * TicksPerMinute)
  {
    var r := Login(lib, config, accounts, false, accountId, now);
    assert SubjectOf(r.authToken.value.claims) == Some(r.authToken.value.claims[0].value);
  }

  /**
   * The id CreateAccount answers can be used to log in, and the session token
   * names exactly that id, given that Guid.TryParse reads back what
   * Guid.ToString writes.
   */
  lemma CreatedAccountCanLogIn(lib: Library, config: TokenConfig, st: State, observed: Option<IpAddress>, headers: seq<Header>,
                               created: int, newId: Guid, saveFails: bool, now: int)
    requires forall g :: lib.parseGuid(lib.formatGuid(g)) == Some(g)
    requires ReplyFor(lib, CreateAccountStep(lib, st, observed, headers, created, newId, saveFails).outcome).success
    ensures var s := CreateAccountStep(lib, st, observed, headers, created, newId, saveFails);
      var id := ReplyFor(lib, s.outcome).accountId.value;
      var r := Login(lib, config, s.state.accounts, false, id, now);
      r.success && SubjectOf(r.authToken.value.claims) == Some(id)
  {
    var s := CreateAccountStep(lib, st, observed, headers, created, newId, saveFails);
    AnswerUsesCachedSalt(lib, st, observed, headers, created, newId, saveFails);
    var id := ReplyFor(lib, s.outcome).accountId.value;
    assert lib.parseGuid(id) == Some(s.outcome.id);
    LoginTokenBoundToAccount(lib, config, s.state.accounts, id, now);
  }
}
