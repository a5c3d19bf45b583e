/** The web client's AuthService: the signed-in user held in memory and its
    copy in the browser's local storage (entries 'currentUser' and 'token').
    The HTTP call of login is left to the caller: `Login` is what happens to
    the state when the response arrives. */
module WebAuth {
  import opened Wrappers
  import opened Domain
  import opened RoleCodecs

  /** The login response as the server sends it, or as JSON.parse reads the
      stored copy back: the role may be a number or a string. */
  datatype RawUser = RawUser(userId: int, username: string, email: string, role: RoleValue, token: string)

  /** The AuthResponseDto the client keeps: the role is always a string. */
  datatype AuthUser = AuthUser(userId: int, username: string, email: string, role: string, token: string)

  /** A response with its role converted to a name. */
  function ToAuthUser(raw: RawUser): (u: AuthUser)
    ensures u.role == ConvertRoleToString(raw.role)
    ensures u.userId == raw.userId && u.username == raw.username && u.email == raw.email && u.token == raw.token
  {
    AuthUser(raw.userId, raw.username, raw.email, ConvertRoleToString(raw.role), raw.token)
  }

  /** What JSON.stringify of a kept user reads back as: its role is a string. */
  function Stored(u: AuthUser): (raw: RawUser)
    ensures raw.role == RoleText(u.role)
  {
    RawUser(u.userId, u.username, u.email, RoleText(u.role), u.token)
  }

  /** getStoredUser: nothing stored gives null; otherwise the parsed user,
      with a numeric role converted. */
  function StoredUser(stored: Option<RawUser>): (r: Option<AuthUser>)
    ensures r.Some? <==> stored.Some?
    ensures r.Some? ==> r.value == ToAuthUser(stored.value)
  {
    match stored
    case None => None
    case Some(raw) => Some(ToAuthUser(raw))
  }

  /** Storing a kept user and reading it back gives the same user: a role
      converted once is not converted again. */
  lemma StoredUserRoundTrip(u: AuthUser)
    ensures StoredUser(Some(Stored(u))) == Some(u)
  {
  }

  /** Converting a role twice is converting it once. */
  lemma RoleConversionIdempotent(raw: RawUser)
    ensures ToAuthUser(Stored(ToAuthUser(raw))) == ToAuthUser(raw)
  {
  }

  class AuthService {
    /** currentUserSubject's value. */
    var currentUser: Option<AuthUser>
    /** localStorage 'currentUser' (already parsed). */
    var storedUser: Option<RawUser>
    /** localStorage 'token'. */
    var storedToken: Option<string>

    /** The user in memory is the stored one read back, and the token entry
        is its token. */
    ghost predicate Valid()
      reads this
    {
      && currentUser == StoredUser(storedUser)
      && (storedUser.Some? ==> storedToken == Some(storedUser.value.token))
    }

    /** The service starts from whatever local storage holds. */
    constructor(stored: Option<RawUser>, token: Option<string>)
      requires stored.Some? ==> token == Some(stored.value.token)
      ensures Valid()
      ensures currentUser == StoredUser(stored) && storedUser == stored && storedToken == token
    {
      currentUser := StoredUser(stored);
      storedUser := stored;
      storedToken := token;
    }

    /** The login response's tap: the role converted, the user stored and
        published. */
    method Login(response: RawUser)
      requires Valid()
      modifies this
      ensures Valid()
      ensures currentUser == Some(ToAuthUser(response))
      ensures storedUser == Some(Stored(ToAuthUser(response)))
      ensures storedToken == Some(response.token)
    {
      var user := ToAuthUser(response);
      storedUser := Some(Stored(user));
      storedToken := Some(user.token);
      currentUser := Some(user);
    }

    /** Both storage entries removed and the user cleared. */
    method Logout()
      requires Valid()
      modifies this
      ensures Valid()
      ensures currentUser == None && storedUser == None && storedToken == None
    {
      storedUser := None;
      storedToken := None;
      currentUser := None;
    }

    /** getToken: the stored user's token, or null when there is no stored
        user or its token is empty. */
    function GetToken(): (r: Option<string>)
      reads this
      ensures r.Some? <==> storedUser.Some? && storedUser.value.token != ""
      ensures r.Some? ==> r.value == storedUser.value.token
    {
      match StoredUser(storedUser)
      case None => None
      case Some(u) => if u.token == "" then None else Some(u.token)
    }

    predicate IsAuthenticated()
      reads this
    {
      currentUser.Some?
    }

    /** hasRole: the current user's role is exactly `role`. */
    predicate HasRole(role: string)
      reads this
    {
      currentUser.Some? && currentUser.value.role == role
    }

    predicate IsSuperAdmin()
      reads this
    {
      HasRole("SuperAdmin")
    }

    predicate IsModerator()
      reads this
    {
      HasRole("Moderator") || IsSuperAdmin()
    }

    /** Every role check implies being signed in; a super administrator is
        also a moderator; isModerator holds exactly for the two higher
        roles. */
    lemma RoleChecks()
      ensures forall role :: HasRole(role) ==> IsAuthenticated()
      ensures IsSuperAdmin() ==> IsModerator()
      ensures IsModerator() <==>
        IsAuthenticated() && currentUser.value.role in {Moderator.Name(), SuperAdmin.Name()}
      ensures IsSuperAdmin() <==> IsAuthenticated() && currentUser.value.role == SuperAdmin.Name()
    {
    }

    /** After a login whose response carries role number n, the role checks
        answer by the UserRole n names (any other number is a cashier). */
    lemma RoleChecksAfterNumericLogin(n: int)
      requires currentUser.Some? && currentUser.value.role == ConvertRoleToString(RoleNumber(n as real))
      ensures IsSuperAdmin() <==> n == SuperAdmin.Value()
      ensures IsModerator() <==> n == Moderator.Value() || n == SuperAdmin.Value()
    {
    }
  }

  /** After logout nobody is signed in and every role check fails. */
  lemma SignedOutHasNoRole(auth: AuthService)
    requires auth.currentUser.None?
    ensures !auth.IsAuthenticated() && !auth.IsModerator() && !auth.IsSuperAdmin()
    ensures forall role :: !auth.HasRole(role)
  {
  }
}
