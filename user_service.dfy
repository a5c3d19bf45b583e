/** UserService: create, update and delete users. Both writes check username
    and email uniqueness first; a password is stored only as its digest
    (AuthService.HashPassword, the parameter `digest`), and an update replaces
    the digest only when a non-blank password is supplied. */
module UserService {
  import opened Wrappers
  import opened Text
  import opened Domain
  import opened Errors
  import opened Dtos
  import opened Persistence

  /** MapToDto: every field but the password digest. */
  function MapToDto(u: User): (r: UserDto)
    ensures r.id == u.id && r.username == u.username && r.email == u.email
    ensures r.role == u.role && r.isActive == u.isActive && r.lastLoginDate == u.lastLoginDate
  {
    UserDto(u.id, u.username, u.email, u.role, u.isActive, u.lastLoginDate, u.createdAt, u.updatedAt)
  }

  /** The row CreateAsync builds. */
  function NewRow(dto: CreateUserDto, digest: string -> string, now: Instant): (u: User)
    ensures u.passwordHash == digest(dto.password) && u.lastLoginDate.None?
    ensures u.username == dto.username && u.email == dto.email && u.isActive == dto.isActive
    ensures u.role == dto.role && u.createdAt == now && u.updatedAt == now
  {
    User(0, dto.username, dto.email, digest(dto.password), dto.role, dto.isActive, None, now, now)
  }

  /** CreateAsync: the username check, then the email check, then the insert. */
  function Create(db: Db, dto: CreateUserDto, digest: string -> string, now: Instant): (out: (Result<UserDto, Error>, Db))
    ensures DbValid(db) ==> DbValid(out.1)
    ensures out.0.Failure? ==> out.1 == db
    ensures FindUserByUsername(db.users, dto.username).Some? ==> out.0 == Failure(DuplicateUsername(dto.username))
    ensures FindUserByUsername(db.users, dto.username).None? && FindUserByEmail(db.users, dto.email).Some? ==>
      out.0 == Failure(DuplicateEmail(dto.email))
    ensures DbValid(db) ==> (out.0.Success? <==>
      FindUserByUsername(db.users, dto.username).None? && FindUserByEmail(db.users, dto.email).None?)
    ensures out.0.Success? ==> out.1.users == db.users + [NewRow(dto, digest, now).(id := db.nextUserId)]
    ensures out.0.Success? ==>
      && out.1 == db.(users := db.users + [NewRow(dto, digest, now).(id := db.nextUserId)], nextUserId := db.nextUserId + 1)
      && out.0.value == MapToDto(NewRow(dto, digest, now).(id := db.nextUserId))
  {
    if FindUserByUsername(db.users, dto.username).Some? then (Failure(DuplicateUsername(dto.username)), db)
    else if FindUserByEmail(db.users, dto.email).Some? then (Failure(DuplicateEmail(dto.email)), db)
    else
      var (r, db') := InsertUser(db, NewRow(dto, digest, now));
      match r
      case Success(u) => (Success(MapToDto(u)), db')
      case Failure(e) => (Failure(e), db')
  }

  /** The row after UpdateAsync's assignments: username, email, role and
      active flag from the request, UpdatedAt `now`, the digest replaced only
      by a non-blank password, the rest kept. */
  function Updated(u: User, dto: UpdateUserDto, digest: string -> string, now: Instant): (r: User)
    ensures r.id == u.id && r.createdAt == u.createdAt && r.lastLoginDate == u.lastLoginDate
    ensures r.username == dto.username && r.email == dto.email && r.role == dto.role
    ensures r.isActive == dto.isActive && r.updatedAt == now
    ensures r.passwordHash == if IsNullOrWhiteSpace(dto.password) then u.passwordHash else digest(dto.password.value)
  {
    u.(username := dto.username, email := dto.email, role := dto.role, isActive := dto.isActive,
       updatedAt := now,
       passwordHash := if IsNullOrWhiteSpace(dto.password) then u.passwordHash else digest(dto.password.value))
  }

  /** Some other user already holds this username. */
  predicate UsernameTaken(db: Db, username: string, id: int) {
    FindUserByUsername(db.users, username).Some? && FindUserByUsername(db.users, username).value.id != id
  }

  predicate EmailTaken(db: Db, email: string, id: int) {
    FindUserByEmail(db.users, email).Some? && FindUserByEmail(db.users, email).value.id != id
  }

  /** UpdateAsync: NotFound for an unknown id; a changed username or email
      already held by another user is refused; otherwise the row is updated. */
  function Update(db: Db, dto: UpdateUserDto, digest: string -> string, now: Instant): (out: (Result<UserDto, Error>, Db))
    ensures DbValid(db) ==> DbValid(out.1)
    ensures out.0.Failure? ==> out.1 == db
    ensures FindUser(db.users, dto.id).None? ==> out.0 == Failure(NotFound("User", dto.id))
    ensures out.0.Success? ==> (FindUser(db.users, dto.id).Some?
      && out.1 == db.(users := ReplaceUserRow(db.users, Updated(FindUser(db.users, dto.id).value, dto, digest, now)))
      && out.0.value == MapToDto(Updated(FindUser(db.users, dto.id).value, dto, digest, now)))
  {
    match FindUser(db.users, dto.id)
    case None => (Failure(NotFound("User", dto.id)), db)
    case Some(u) =>
      if u.username != dto.username && UsernameTaken(db, dto.username, dto.id) then
        (Failure(DuplicateUsername(dto.username)), db)
      else if u.email != dto.email && EmailTaken(db, dto.email, dto.id) then
        (Failure(DuplicateEmail(dto.email)), db)
      else
        var (r, db') := UpdateUserRow(db, Updated(u, dto, digest, now));
        if r.Failure? then (Failure(r.error), db') else (Success(MapToDto(r.value)), db')
  }

  /** A changed username that another user holds is refused, and so is a
      changed email, the username being checked first; the user's own
      record never counts as a clash. */
  lemma ChangedKeyClashes(db: Db, dto: UpdateUserDto, digest: string -> string, now: Instant)
    requires DbValid(db) && FindUser(db.users, dto.id).Some?
    ensures var u := FindUser(db.users, dto.id).value;
      && (u.username != dto.username && UsernameTaken(db, dto.username, dto.id)
          ==> Update(db, dto, digest, now).0 == Failure(DuplicateUsername(dto.username)))
      && (!(u.username != dto.username && UsernameTaken(db, dto.username, dto.id))
          && u.email != dto.email && EmailTaken(db, dto.email, dto.id)
          ==> Update(db, dto, digest, now).0 == Failure(DuplicateEmail(dto.email)))
      && !UsernameTaken(db, u.username, dto.id)
  {
    var u := FindUser(db.users, dto.id).value;
    var k :| 0 <= k < |db.users| && db.users[k] == u;
    FindByUsernameUnique(db.users, k);
  }

  /** DeleteAsync. */
  function Delete(db: Db, id: int): (out: (Result<(), Error>, Db))
    ensures DbValid(db) ==> DbValid(out.1)
    ensures out.0.Failure? <==> FindUser(db.users, id).None?
    ensures out.0.Failure? ==> out == (Failure(NotFound("User", id)), db)
    ensures out.0.Success? ==> forall i :: 0 <= i < |out.1.users| ==> out.1.users[i].id != id
    ensures out.0.Success? ==> out.1 == db.(users := WithoutUser(db.users, id))
    ensures out.0.Success? ==> forall u :: u in db.users && u.id != id ==> u in out.1.users
    ensures DbValid(db) && out.0.Success? ==> |out.1.users| == |db.users| - 1
  {
    if FindUser(db.users, id).None? then (Failure(NotFound("User", id)), db)
    else
      var db' := DeleteUserRow(db, id);
      assert forall i :: 0 <= i < |db'.users| ==> db'.users[i] in db.users && db'.users[i].id != id;
      assert DbValid(db) ==> |db'.users| == |db.users| - 1 by {
        if DbValid(db) {
          var k :| 0 <= k < |db.users| && db.users[k] == FindUser(db.users, id).value;
          WithoutOneUser(db.users, k);
        }
      }
      (Success(()), db')
  }

  /** With unique ids, removing the rows with one user's id removes that
      row alone. */
  lemma {:induction false} WithoutOneUser(us: seq<User>, k: int)
    requires Pairwise(us, UserPair) && 0 <= k < |us|
    ensures |WithoutUser(us, us[k].id)| == |us| - 1
    decreases |us|
  {
    var id := us[k].id;
    if k == 0 {
      forall i | 0 <= i < |us[1..]| ensures us[1..][i].id != id {
        assert UserPair(us[0], us[i + 1]);
      }
      WithoutAbsentUser(us[1..], id);
    } else {
      assert UserPair(us[0], us[k]);
      PairwiseTail(us, UserPair);
      assert us[1..][k - 1] == us[k];
      WithoutOneUser(us[1..], k - 1);
    }
  }

  /** Removing an id no row has removes nothing. */
  lemma {:induction false} WithoutAbsentUser(us: seq<User>, id: int)
    requires forall i :: 0 <= i < |us| ==> us[i].id != id
    ensures WithoutUser(us, id) == us
    decreases |us|
  {
    if us != [] {
      WithoutAbsentUser(us[1..], id);
      assert us == [us[0]] + us[1..];
    }
  }

  // ---------------------------------------------------------------------------
  // Lookups under the unique indexes

  /** With unique usernames, a lookup by username finds the one row holding it. */
  lemma {:induction false} FindByUsernameUnique(us: seq<User>, i: int)
    requires Pairwise(us, UserPair) && 0 <= i < |us|
    ensures FindUserByUsername(us, us[i].username) == Some(us[i])
    decreases |us|
  {
    if i > 0 {
      assert UserPair(us[0], us[i]);
      assert us[1..][i - 1] == us[i];
      assert Pairwise(us[1..], UserPair) by {
        forall a, b | 0 <= a < b < |us[1..]|
          ensures UserPair(us[1..][a], us[1..][b])
        {
          assert UserPair(us[a + 1], us[b + 1]);
        }
      }
      FindByUsernameUnique(us[1..], i - 1);
    }
  }

  /** An update that passes its checks on a valid store is always saved:
      the service's checks cover both unique indexes. */
  lemma UpdateChecksCoverIndexes(db: Db, dto: UpdateUserDto, digest: string -> string, now: Instant)
    requires DbValid(db) && FindUser(db.users, dto.id).Some?
    requires var u := FindUser(db.users, dto.id).value;
      !(u.username != dto.username && UsernameTaken(db, dto.username, dto.id))
      && !(u.email != dto.email && EmailTaken(db, dto.email, dto.id))
    ensures Update(db, dto, digest, now).0.Success?
  {
    var u := FindUser(db.users, dto.id).value;
    var row := Updated(u, dto, digest, now);
    var k :| 0 <= k < |db.users| && db.users[k] == u;
    forall i | 0 <= i < |db.users| && db.users[i].id != row.id
      ensures db.users[i].username != row.username && db.users[i].email != row.email
    {
      if i < k {
        assert UserPair(db.users[i], db.users[k]);
      } else {
        assert UserPair(db.users[k], db.users[i]);
      }
      if db.users[i].username == row.username {
        FindByUsernameUnique(db.users, i);
      }
      if db.users[i].email == row.email {
        FindByEmailUnique(db.users, i);
      }
    }
  }

  lemma {:induction false} FindByEmailUnique(us: seq<User>, i: int)
    requires Pairwise(us, UserPair) && 0 <= i < |us|
    ensures FindUserByEmail(us, us[i].email) == Some(us[i])
    decreases |us|
  {
    if i > 0 {
      assert UserPair(us[0], us[i]);
      assert us[1..][i - 1] == us[i];
      assert Pairwise(us[1..], UserPair) by {
        forall a, b | 0 <= a < b < |us[1..]|
          ensures UserPair(us[1..][a], us[1..][b])
        {
          assert UserPair(us[a + 1], us[b + 1]);
        }
      }
      FindByEmailUnique(us[1..], i - 1);
    }
  }

  // ---------------------------------------------------------------------------
  // The service methods

  method CreateUser(store: Store, dto: CreateUserDto, digest: string -> string, now: Instant) returns (r: Result<UserDto, Error>)
    requires store.Valid()
    modifies store
    ensures store.Valid()
    ensures (r, store.State()) == Create(old(store.State()), dto, digest, now)
  {
    if FindUserByUsername(store.users, dto.username).Some? {
      return Failure(DuplicateUsername(dto.username));
    }
    if FindUserByEmail(store.users, dto.email).Some? {
      return Failure(DuplicateEmail(dto.email));
    }
    var created := store.AddUser(NewRow(dto, digest, now));
    if created.Failure? {
      return Failure(created.error);
    }
    r := Success(MapToDto(created.value));
  }

  method UpdateUser(store: Store, dto: UpdateUserDto, digest: string -> string, now: Instant) returns (r: Result<UserDto, Error>)
    requires store.Valid()
    modifies store
    ensures store.Valid()
    ensures (r, store.State()) == Update(old(store.State()), dto, digest, now)
  {
    var found := FindUser(store.users, dto.id);
    if found.None? {
      return Failure(NotFound("User", dto.id));
    }
    var user := found.value;
    if user.username != dto.username {
      var existing := FindUserByUsername(store.users, dto.username);
      if existing.Some? && existing.value.id != dto.id {
        return Failure(DuplicateUsername(dto.username));
      }
    }
    if user.email != dto.email {
      var existing := FindUserByEmail(store.users, dto.email);
      if existing.Some? && existing.value.id != dto.id {
        return Failure(DuplicateEmail(dto.email));
      }
    }
    user := user.(username := dto.username, email := dto.email, role := dto.role, isActive := dto.isActive, updatedAt := now);
    if !IsNullOrWhiteSpace(dto.password) {
      user := user.(passwordHash := digest(dto.password.value));
    }
    assert user == Updated(found.value, dto, digest, now);
    assert !(found.value.username != dto.username && UsernameTaken(store.State(), dto.username, dto.id));
    assert !(found.value.email != dto.email && EmailTaken(store.State(), dto.email, dto.id));
    var saved := store.UpdateUser(user);
    if saved.Failure? {
      return Failure(saved.error);
    }
    r := Success(MapToDto(saved.value));
  }

  method DeleteUser(store: Store, id: int) returns (r: Result<(), Error>)
    requires store.Valid()
    modifies store
    ensures store.Valid()
    ensures (r, store.State()) == Delete(old(store.State()), id)
  {
    if FindUser(store.users, id).None? {
      return Failure(NotFound("User", id));
    }
    store.DeleteUser(id);
    r := Success(());
  }
}
