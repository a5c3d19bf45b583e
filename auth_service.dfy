/** AuthService. The SHA-256/Base64 password digest is the parameter `digest`,
    the JWT signer `sign` (user, key, expiry to token text), the token
    validator `check` (token, key to whether JwtSecurityTokenHandler accepts
    it; its exceptions are a `false`), the configured "Jwt:Key" the optional
    `jwtKey`, and the clock `now`. */
module AuthService {
  import opened Wrappers
  import opened Text
  import opened Domain
  import opened Errors
  import opened Dtos
  import opened Persistence
  import UserService

  /** Tokens expire eight hours after they are issued. */
  const TokenLifetime: int := 8 * TicksPerHour

  /** VerifyPassword: the digest of the attempt equals the stored one. */
  predicate VerifyPassword(digest: string -> string, password: string, hash: string) {
    digest(password) == hash
  }

  /** GenerateJwtToken: refused when no key is configured. */
  function GenerateToken(jwtKey: Option<string>, user: User, sign: (User, string, Instant) -> string, now: Instant): (r: Result<string, Error>)
    ensures r.Failure? <==> IsNullOrWhiteSpace(jwtKey)
    ensures r.Failure? ==> r.error == MissingJwtKey && r.error.Kind() == InvalidOperationException
    ensures r.Success? ==> r.value == sign(user, jwtKey.value, now + TokenLifetime)
  {
    if IsNullOrWhiteSpace(jwtKey) then Failure(MissingJwtKey)
    else Success(sign(user, jwtKey.value, now + TokenLifetime))
  }

  /** ValidateTokenAsync: never an error, only a verdict; false without a key. */
  function ValidateToken(jwtKey: Option<string>, token: string, check: (string, string) -> bool): (r: bool)
    ensures IsNullOrWhiteSpace(jwtKey) ==> !r
    ensures r <==> !IsNullOrWhiteSpace(jwtKey) && check(token, jwtKey.value)
  {
    if IsNullOrWhiteSpace(jwtKey) then false else check(token, jwtKey.value)
  }

  /** The account a login may use: it exists under that exact username, is
      active, and the password's digest matches. */
  predicate Admits(db: Db, dto: LoginDto, digest: string -> string) {
    && FindUserByUsername(db.users, dto.username).Some?
    && FindUserByUsername(db.users, dto.username).value.isActive
    && VerifyPassword(digest, dto.password, FindUserByUsername(db.users, dto.username).value.passwordHash)
  }

  /** LoginAsync: an unknown user, an inactive user and a wrong password are
      one and the same error; on success LastLoginDate is saved before the
      token is made, so a missing key fails the login after that write. */
  function Login(db: Db, dto: LoginDto, jwtKey: Option<string>, digest: string -> string,
                 sign: (User, string, Instant) -> string, now: Instant): (out: (Result<AuthResponseDto, Error>, Db))
    ensures DbValid(db) ==> DbValid(out.1)
    ensures !Admits(db, dto, digest) <==> out.0 == Failure(InvalidCredentials)
    ensures !Admits(db, dto, digest) ==> out.1 == db
    ensures out.0.Success? ==> Admits(db, dto, digest) && !IsNullOrWhiteSpace(jwtKey)
    ensures out.0.Success? ==>
      var u := FindUserByUsername(db.users, dto.username).value;
      out.0.value == AuthResponseDto(u.id, u.username, u.email, u.role,
                                     sign(u.(lastLoginDate := Some(now)), jwtKey.value, now + TokenLifetime))
  {
    match FindUserByUsername(db.users, dto.username)
    case None => (Failure(InvalidCredentials), db)
    case Some(u) =>
      if !u.isActive then (Failure(InvalidCredentials), db)
      else if !VerifyPassword(digest, dto.password, u.passwordHash) then (Failure(InvalidCredentials), db)
      else
        var u' := u.(lastLoginDate := Some(now));
        var (saved, db') := UpdateUserRow(db, u');
        if saved.Failure? then (Failure(saved.error), db')
        else match GenerateToken(jwtKey, u', sign, now)
          case Failure(e) => (Failure(e), db')
          case Success(token) => (Success(AuthResponseDto(u'.id, u'.username, u'.email, u'.role, token)), db')
  }

  /** On a valid store an admitted login always records the login time, and
      it stores nothing else; without a key the login still fails afterwards. */
  lemma AdmittedLoginRecordsTime(db: Db, dto: LoginDto, jwtKey: Option<string>, digest: string -> string,
                                 sign: (User, string, Instant) -> string, now: Instant)
    requires DbValid(db) && Admits(db, dto, digest)
    ensures var u := FindUserByUsername(db.users, dto.username).value;
      Login(db, dto, jwtKey, digest, sign, now).1 == db.(users := ReplaceUserRow(db.users, u.(lastLoginDate := Some(now))))
    ensures IsNullOrWhiteSpace(jwtKey) <==> Login(db, dto, jwtKey, digest, sign, now).0 == Failure(MissingJwtKey)
    ensures !IsNullOrWhiteSpace(jwtKey) ==> Login(db, dto, jwtKey, digest, sign, now).0.Success?
  {
    var u := FindUserByUsername(db.users, dto.username).value;
    StoredRowFits(db, u, u.(lastLoginDate := Some(now)));
  }

  /** A stored user's row, changed in fields other than its keys, still fits
      the unique indexes. */
  lemma StoredRowFits(db: Db, u: User, u': User)
    requires DbValid(db) && u in db.users
    requires u'.id == u.id && u'.username == u.username && u'.email == u.email
    ensures FindUser(db.users, u'.id).Some? && UserFits(db.users, u')
  {
    var k :| 0 <= k < |db.users| && db.users[k] == u;
    forall i | 0 <= i < |db.users| && db.users[i].id != u.id
      ensures db.users[i].username != u.username && db.users[i].email != u.email
    {
      if i < k {
        assert UserPair(db.users[i], db.users[k]);
      } else {
        assert UserPair(db.users[k], db.users[i]);
      }
    }
  }

  /** A user created through UserService, active, can then log in with the
      password given at creation. */
  lemma CreatedUserCanLogIn(db: Db, dto: CreateUserDto, digest: string -> string, now: Instant,
                            jwtKey: Option<string>, sign: (User, string, Instant) -> string, later: Instant)
    requires DbValid(db) && dto.isActive && !IsNullOrWhiteSpace(jwtKey)
    requires UserService.Create(db, dto, digest, now).0.Success?
    ensures var db' := UserService.Create(db, dto, digest, now).1;
      Login(db', LoginDto(dto.username, dto.password), jwtKey, digest, sign, later).0.Success?
  {
    var db' := UserService.Create(db, dto, digest, now).1;
    var n := |db.users|;
    assert db'.users[n] == UserService.NewRow(dto, digest, now).(id := db.nextUserId);
    UserService.FindByUsernameUnique(db'.users, n);
    AdmittedLoginRecordsTime(db', LoginDto(dto.username, dto.password), jwtKey, digest, sign, later);
  }

  /** An update without a new password keeps the old one working. */
  lemma UpdateWithoutPasswordKeepsLogin(db: Db, dto: UpdateUserDto, digest: string -> string, now: Instant, password: string)
    requires DbValid(db) && IsNullOrWhiteSpace(dto.password) && dto.isActive
    requires UserService.Update(db, dto, digest, now).0.Success?
    requires VerifyPassword(digest, password, FindUser(db.users, dto.id).value.passwordHash)
    ensures Admits(UserService.Update(db, dto, digest, now).1, LoginDto(dto.username, password), digest)
  {
    var u := FindUser(db.users, dto.id).value;
    var db' := UserService.Update(db, dto, digest, now).1;
    var k :| 0 <= k < |db.users| && db.users[k] == u;
    assert db'.users[k] == UserService.Updated(u, dto, digest, now);
    UserService.FindByUsernameUnique(db'.users, k);
  }

  /** Login as a store operation. */
  method LogIn(store: Store, dto: LoginDto, jwtKey: Option<string>, digest: string -> string,
               sign: (User, string, Instant) -> string, now: Instant) returns (r: Result<AuthResponseDto, Error>)
    requires store.Valid()
    modifies store
    ensures store.Valid()
    ensures (r, store.State()) == Login(old(store.State()), dto, jwtKey, digest, sign, now)
  {
    var found := FindUserByUsername(store.users, dto.username);
    if found.None? || !found.value.isActive {
      return Failure(InvalidCredentials);
    }
    var user := found.value;
    if !VerifyPassword(digest, dto.password, user.passwordHash) {
      return Failure(InvalidCredentials);
    }
    user := user.(lastLoginDate := Some(now));
    var saved := store.UpdateUser(user);
    if saved.Failure? {
      return Failure(saved.error);
    }
    var token := GenerateToken(jwtKey, user, sign, now);
    if token.Failure? {
      return Failure(token.error);
    }
    r := Success(AuthResponseDto(user.id, user.username, user.email, user.role, token.value));
  }
}
