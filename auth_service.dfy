/**
 * AuthService: signup, login and refresh over the users store, with bcrypt
 * and the JWT service as the abstract `Primitives`. Signup and login write to
 * the store and are methods; refreshAccessToken only reads, so it is a function
 * of the table it reads.
 */
module Auth {
  import opened Wrappers
  import opened Exceptions
  import opened Entity
  import opened Users
  import opened AuthDto
  import opened Primitives

  const EmailRegistered := "Email is already registered"
  const InvalidCredentials := "Invalid credentials"
  const TokenExpiredOrInvalid := "Token expired or invalid"

  /** What login returns. */
  datatype Tokens = Tokens(accessToken: string, refreshToken: string)

  /** What refreshAccessToken returns. */
  datatype AccessToken = AccessToken(accessToken: string)

  /** The claims login and refresh put in a token for a record. */
  function ClaimsOf(id: string, email: string): Payload {
    Payload(id, email)
  }

  /** login's two checks together: some record has the email and bcrypt accepts the password against its digest. */
  predicate CredentialsAccepted(c: Primitives, t: Table, dto: LoginDto)
    requires UniqueEmails(t)
  {
    match FindByEmailWithPassword(t, dto.email)
    case None => false
    case Some(cred) => c.compare(dto.password, cred.password)
  }

  /** The record holds a refresh-token digest (JavaScript-truthy, so not "") that bcrypt accepts for token. */
  predicate StoredTokenMatches(c: Primitives, u: User, token: string) {
    u.refreshToken.Some? && u.refreshToken.value != "" && c.compare(token, u.refreshToken.value)
  }

  // ---------------------------------------------------------------- refreshAccessToken

  /** Why the try block of refreshAccessToken gave up. The catch discards this cause. */
  datatype RefreshFailure =
    | Unverifiable   // jwtService.verify threw
    | UnknownUser    // no record has the token's email
    | NoStoredToken  // the record's refreshToken is null or empty
    | TokenMismatch  // bcrypt.compare rejected the token

  /** The try block of refreshAccessToken, each way out tagged with its cause. */
  function RefreshAttempt(c: Primitives, env: JwtEnv, t: Table, token: string, now: nat): Result<AccessToken, RefreshFailure>
    requires UniqueEmails(t)
  {
    match c.verify(token)
    case None => Err(Unverifiable)
    case Some(claims) =>
      match FindByEmailWithRefreshToken(t, claims.email)
      case None => Err(UnknownUser)
      case Some(rec) =>
        if rec.refreshToken.None? || rec.refreshToken.value == "" then Err(NoStoredToken)
        else if !c.compare(token, rec.refreshToken.value) then Err(TokenMismatch)
        else Ok(AccessToken(c.sign(ClaimsOf(rec.id, rec.email), AccessExpiry(env), now)))
  }

  /**
   * refreshAccessToken: the catch replaces every failure by the same Unauthorized, so
   * the caller learns only whether the token was redeemable. It reads the table and
   * writes nothing.
   */
  function RefreshAccessToken(c: Primitives, env: JwtEnv, t: Table, token: string, now: nat): (r: Result<AccessToken, Exception>)
    requires UniqueEmails(t)
    ensures r.Err? ==> r.error == Unauthorized(TokenExpiredOrInvalid)
    ensures r.Ok? <==>
      && c.verify(token).Some?
      && exists id :: id in t && t[id].email == c.verify(token).value.email && StoredTokenMatches(c, t[id], token)
    ensures r.Ok? ==> forall id :: id in t && t[id].email == c.verify(token).value.email ==>
      r.value == AccessToken(c.sign(ClaimsOf(t[id].id, t[id].email), AccessExpiry(env), now))
  {
    match RefreshAttempt(c, env, t, token, now)
    case Ok(issued) => Ok(issued)
    case Err(_) => Err(Unauthorized(TokenExpiredOrInvalid))
  }

  /** A refresh token login issued, stored as its digest, redeems for a fresh access token of the same user. */
  lemma RefreshAfterLogin(c: Primitives, env: JwtEnv, t: Table, clock: nat, id: string, salt: nat, iat: nat, now: nat)
    requires Sound(c) && Wellformed(t) && id in t
    ensures
      var token := c.sign(ClaimsOf(id, t[id].email), RefreshExpiry(env), iat);
      RefreshAccessToken(c, env, WithRefreshToken(t, id, c.hash(token, salt), clock), token, now)
        == Ok(AccessToken(c.sign(ClaimsOf(id, t[id].email), AccessExpiry(env), now)))
  {
  }

  /**
   * Login overwrites the stored digest, so once it has stored the digest of `issued`,
   * any other token naming the same user is refused. This holds for a hasher that reads
   * its whole input (HashBinding); bcrypt does not, see TruncatedCompareAcceptsOtherToken.
   */
  lemma StaleTokenRejected(c: Primitives, env: JwtEnv, t: Table, clock: nat, id: string,
                           issued: string, salt: nat, stale: string, now: nat)
    requires HashBinding(c) && Wellformed(t) && id in t
    requires stale != issued
    requires c.verify(stale).Some? && c.verify(stale).value.email == t[id].email
    ensures RefreshAccessToken(c, env, WithRefreshToken(t, id, c.hash(issued, salt), clock), stale, now)
      == Err(Unauthorized(TokenExpiredOrInvalid))
  {
  }

  /**
   * The refresh check as written, with bcrypt's truncation: once the digest of `issued`
   * is stored, any other token that agrees with it on the first 72 characters and names
   * the same user redeems as well. Every token the service signs for one user starts with
   * the same header and the same encoded `{"sub":"`, so this takes in the access token of
   * the same login and every earlier refresh token that has not expired.
   */
  lemma TruncatedCompareAcceptsOtherToken(c: Primitives, env: JwtEnv, t: Table, clock: nat, id: string,
                                          issued: string, salt: nat, other: string, now: nat)
    requires HashSound(c) && Truncates(c) && Wellformed(t) && id in t
    requires BcryptPrefix(other) == BcryptPrefix(issued)
    requires c.verify(other).Some? && c.verify(other).value.email == t[id].email
    ensures RefreshAccessToken(c, env, WithRefreshToken(t, id, c.hash(issued, salt), clock), other, now).Ok?
  {
  }

  /** A hasher with bcrypt's 72-character limit, and a verifier that accepts every token for one user. */
  function TruncatingBcrypt(): Primitives {
    Primitives(
      (data: string, salt: nat) => "$2b$10$" + BcryptPrefix(data),
      (data: string, digest: string) => digest == "$2b$10$" + BcryptPrefix(data),
      (p: Payload, expiresIn: string, iat: nat) => "",
      (token: string) => Some(Payload("u1", "a@x.com")))
  }

  /** A concrete case: the stored digest is that of one token, and a different token redeems. */
  lemma TruncationCounterexample(env: JwtEnv, salt: nat, now: nat)
    ensures
      var c := TruncatingBcrypt();
      var t := map["u1" := User("u1", "a@x.com", "digest", "A", "B", None, 0, 0)];
      var issued := seq(72, _ => 'h') + "R";
      var other := seq(72, _ => 'h') + "A";
      && HashSound(c) && Truncates(c) && !HashBinding(c)
      && other != issued
      && RefreshAccessToken(c, env, WithRefreshToken(t, "u1", c.hash(issued, salt), 1), other, now).Ok?
  {
    var c := TruncatingBcrypt();
    var t := map["u1" := User("u1", "a@x.com", "digest", "A", "B", None, 0, 0)];
    var issued := seq(72, _ => 'h') + "R";
    var other := seq(72, _ => 'h') + "A";
    assert issued[72] != other[72];
    assert BcryptPrefix(other) == BcryptPrefix(issued) by {
      assert issued[..72] == other[..72];
    }
    assert !HashBinding(c) by {
      assert c.compare(other, c.hash(issued, salt));
    }
    TruncatedCompareAcceptsOtherToken(c, env, t, 1, "u1", issued, salt, other, now);
  }

  /** Signing up and then logging in with the same email and password passes login's checks. */
  lemma LoginAfterSignup(c: Primitives, t: Table, clock: nat, id: string, dto: SignupDto, salt: nat)
    requires Sound(c) && Wellformed(t) && id !in t && !EmailTaken(t, dto.email)
    ensures
      var t' := t[id := NewRecord(NewUser(dto.email, c.hash(dto.password, salt), dto.firstName, dto.lastName), id, clock)];
      && UniqueEmails(t')
      && CredentialsAccepted(c, t', LoginDto(dto.email, dto.password))
      && FindByEmailWithPassword(t', dto.email).value.id == id
  {
    var t' := t[id := NewRecord(NewUser(dto.email, c.hash(dto.password, salt), dto.firstName, dto.lastName), id, clock)];
    assert UniqueEmails(t');
    assert t'[id].email == dto.email;
    assert c.compare(dto.password, c.hash(dto.password, salt));
  }

  /** A second signup with a registered email finds it taken, whatever its password and names. */
  lemma SecondSignupFindsEmail(t: Table, id: string, data: NewUser, clock: nat)
    ensures EmailTaken(t[id := NewRecord(data, id, clock)], data.email)
  {
    assert t[id := NewRecord(data, id, clock)][id].email == data.email;
  }

  // ---------------------------------------------------------------- the JWT guard

  /** What the JWT strategy's validate attaches to the request as `req.user`. */
  datatype RequestUser = RequestUser(userId: string, email: string)

  /** The guard in front of the protected routes: verify the bearer token, then map its claims. */
  function AuthenticatedUser(c: Primitives, token: string): Option<RequestUser> {
    match c.verify(token)
    case None => None
    case Some(claims) => Some(RequestUser(claims.sub, claims.email))
  }

  /** A token issued for a record resolves, at the profile route, to that record's id and email. */
  lemma IssuedTokenAuthenticates(c: Primitives, id: string, email: string, expiresIn: string, iat: nat)
    requires Sound(c)
    ensures AuthenticatedUser(c, c.sign(ClaimsOf(id, email), expiresIn, iat)) == Some(RequestUser(id, email))
  {
  }

  // ---------------------------------------------------------------- the service object

  class AuthService {
    const users: UsersService
    const crypto: Primitives
    const env: JwtEnv

    ghost predicate Valid()
      reads this, users
    {
      users.Valid()
    }

    constructor (users: UsersService, crypto: Primitives, env: JwtEnv)
      requires users.Valid()
      ensures Valid()
      ensures this.users == users && this.crypto == crypto && this.env == env
    {
      this.users := users;
      this.crypto := crypto;
      this.env := env;
    }

    /**
     * signup: refuses a registered email before doing anything else; otherwise stores a
     * record with the bcrypt digest of the password (drawn with `salt`), never the
     * password itself, and returns it without the password.
     */
    method Signup(dto: SignupDto, salt: nat) returns (r: Result<PublicUser, Exception>)
      requires Valid()
      modifies users
      ensures Valid()
      ensures r.Err? <==> EmailTaken(old(users.table), dto.email)
      ensures r.Err? ==>
        r.error == BadRequest(EmailRegistered) && users.table == old(users.table) && users.clock == old(users.clock)
      ensures r.Ok? ==>
        && r.value.id !in old(users.table)
        && users.table == old(users.table)[r.value.id :=
             NewRecord(NewUser(dto.email, crypto.hash(dto.password, salt), dto.firstName, dto.lastName),
                       r.value.id, old(users.clock))]
        && users.clock == old(users.clock) + 1
        && r.value == Public(users.table[r.value.id])
    {
      var existing := FindByEmail(users.table, dto.email);
      if existing.Some? {
        return Err(BadRequest(EmailRegistered));
      }
      var hashed := crypto.hash(dto.password, salt);
      var created := users.Create(NewUser(dto.email, hashed, dto.firstName, dto.lastName));
      match created {
        case Ok(user) => r := Ok(Public(user));
        case Err(e) => r := Err(e);
      }
    }

    /**
     * login: an unknown email and a wrong password fail with one and the same
     * exception and write nothing. On success both tokens carry `{ sub: id, email }`,
     * and the record's refreshToken becomes the digest of the new refresh token,
     * whatever it held before.
     */
    method Login(dto: LoginDto, salt: nat, now: nat) returns (r: Result<Tokens, Exception>)
      requires Valid()
      modifies users
      ensures Valid()
      ensures r.Err? <==> !CredentialsAccepted(crypto, old(users.table), dto)
      ensures r.Err? ==>
        r.error == BadRequest(InvalidCredentials) && users.table == old(users.table) && users.clock == old(users.clock)
      ensures r.Ok? ==>
        && EmailTaken(old(users.table), dto.email)
        && var id := KeyOfEmail(old(users.table), dto.email);
           && r.value.accessToken == crypto.sign(ClaimsOf(id, dto.email), AccessExpiry(env), now)
           && r.value.refreshToken == crypto.sign(ClaimsOf(id, dto.email), RefreshExpiry(env), now)
           && users.table == WithRefreshToken(old(users.table), id, crypto.hash(r.value.refreshToken, salt), old(users.clock))
           && users.clock == old(users.clock) + 1
           && (Sound(crypto) ==> StoredTokenMatches(crypto, users.table[id], r.value.refreshToken))
    {
      var user := FindByEmailWithPassword(users.table, dto.email);
      if user.None? {
        return Err(BadRequest(InvalidCredentials));
      }
      var isMatch := crypto.compare(dto.password, user.value.password);
      if !isMatch {
        return Err(BadRequest(InvalidCredentials));
      }
      var payload := ClaimsOf(user.value.id, user.value.email);
      var accessToken := crypto.sign(payload, AccessExpiry(env), now);
      var refreshToken := crypto.sign(payload, RefreshExpiry(env), now);
      var hashedRefreshToken := crypto.hash(refreshToken, salt);
      users.UpdateRefreshToken(user.value.id, hashedRefreshToken);
      r := Ok(Tokens(accessToken, refreshToken));
    }
  }
}
