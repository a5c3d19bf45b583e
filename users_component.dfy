/** The web users page: page navigation, the checks saveUser makes before
    sending anything, the bodies it sends, and the form reset. The requests
    sent to the API are recorded in `requests`. */
module UsersComponent {
  import opened Wrappers
  import opened Domain
  import opened Dtos
  import opened PageWindow
  import UserService

  /** The user form; the role is the select's string. */
  datatype UserForm = UserForm(username: string, email: string, password: string, role: string, isActive: bool)

  /** The form a new user starts from, and the one cancelForm restores. */
  const EmptyForm: UserForm := UserForm("", "", "", "Cashier", true)

  /** The bodies sent: an update never carries a password. */
  datatype CreateBody = CreateBody(username: string, email: string, password: string, role: string, isActive: bool)
  datatype UpdateBody = UpdateBody(id: int, username: string, email: string, password: Option<string>,
                                   role: string, isActive: bool)

  datatype Request =
    | LoadUsers(pageNumber: int, pageSize: int)
    | CreateUser(create: CreateBody)
    | UpdateUser(update: UpdateBody)

  const UsernameEmailRequired: string := "error.usernameEmailRequired"
  const PasswordRequired: string := "error.passwordRequired"

  /** saveUser's decision: the translation key of the alert it shows, or the
      request it sends. Username and email are checked first, then the
      password of a new user; an edit of a selected user is an update that
      leaves the password out, anything else a creation. */
  function SaveDecision(form: UserForm, isEditing: bool, selected: Option<UserDto>): (r: Result<Request, string>)
    ensures r == Failure(UsernameEmailRequired) <==> form.username == "" || form.email == ""
    ensures r == Failure(PasswordRequired) <==> form.username != "" && form.email != "" && !isEditing && form.password == ""
    ensures r.Success? && r.value.UpdateUser? <==> r.Success? && isEditing && selected.Some?
    ensures r.Success? && r.value.UpdateUser? ==>
      r.value.update == UpdateBody(selected.value.id, form.username, form.email, None, form.role, form.isActive)
    ensures r.Success? && !r.value.UpdateUser? ==>
      r.value == CreateUser(CreateBody(form.username, form.email, form.password, form.role, form.isActive))
    ensures r.Success? ==> !r.value.LoadUsers?
  {
    if form.username == "" || form.email == "" then Failure(UsernameEmailRequired)
    else if !isEditing && form.password == "" then Failure(PasswordRequired)
    else if isEditing && selected.Some? then
      Success(UpdateUser(UpdateBody(selected.value.id, form.username, form.email, None, form.role, form.isActive)))
    else
      Success(CreateUser(CreateBody(form.username, form.email, form.password, form.role, form.isActive)))
  }

  /** An edit sent by this page leaves the stored password hash as it was,
      whatever role the server reads from the body. */
  lemma EditKeepsPasswordHash(form: UserForm, selected: UserDto, u: Domain.User, role: UserRole,
                              digest: string -> string, now: Instant)
    requires SaveDecision(form, true, Some(selected)).Success?
    ensures var b := SaveDecision(form, true, Some(selected)).value.update;
      UserService.Updated(u, UpdateUserDto(b.id, b.username, b.email, b.password, role, b.isActive), digest, now).passwordHash
        == u.passwordHash
  {
  }

  class UsersComponent {
    const pager: Pager
    var showUserForm: bool
    var isEditing: bool
    var selectedUser: Option<UserDto>
    var userForm: UserForm
    var requests: seq<Request>

    /** The page edits only a selected user: isEditing is set together with
        selectedUser. */
    ghost predicate Valid()
      reads this, pager
    {
      pager.Valid() && (isEditing ==> selectedUser.Some?)
    }

    constructor()
      ensures Valid() && fresh(pager)
      ensures !showUserForm && !isEditing && selectedUser == None && userForm == EmptyForm && requests == []
      ensures pager.currentPage == 1 && pager.pageSize == 10
    {
      pager := new Pager();
      showUserForm := false;
      isEditing := false;
      selectedUser := None;
      userForm := EmptyForm;
      requests := [];
    }

    method GoToPage(page: int)
      requires Valid()
      modifies this, pager
      ensures Valid()
      ensures pager.currentPage == (if 1 <= page <= old(pager.totalPages) then page else old(pager.currentPage))
      ensures requests == old(requests)
        + (if 1 <= page <= old(pager.totalPages) then [LoadUsers(page, pager.pageSize)] else [])
      ensures pager.pageSize == old(pager.pageSize) && userForm == old(userForm)
      ensures showUserForm == old(showUserForm) && isEditing == old(isEditing) && selectedUser == old(selectedUser)
      ensures pager.totalPages == old(pager.totalPages) && pager.totalCount == old(pager.totalCount)
    {
      var moved := pager.GoToPage(page);
      if moved {
        requests := requests + [LoadUsers(pager.currentPage, pager.pageSize)];
      }
    }

    method ChangePageSize(size: int)
      requires Valid()
      modifies this, pager
      ensures Valid()
      ensures pager.pageSize == size && pager.currentPage == 1
      ensures requests == old(requests) + [LoadUsers(1, size)]
      ensures userForm == old(userForm)
      ensures showUserForm == old(showUserForm) && isEditing == old(isEditing) && selectedUser == old(selectedUser)
      ensures pager.totalPages == old(pager.totalPages) && pager.totalCount == old(pager.totalCount)
    {
      pager.ChangePageSize(size);
      requests := requests + [LoadUsers(pager.currentPage, pager.pageSize)];
    }

    /** addUser: an empty creation form. */
    method AddUser()
      requires Valid()
      modifies this
      ensures Valid()
      ensures !isEditing && selectedUser == None && userForm == EmptyForm && showUserForm
      ensures requests == old(requests)
    {
      isEditing := false;
      userForm := EmptyForm;
      selectedUser := None;
      showUserForm := true;
    }

    /** editUser: the user's fields with an empty password. */
    method EditUser(user: UserDto)
      requires Valid()
      modifies this
      ensures Valid()
      ensures isEditing && selectedUser == Some(user) && showUserForm
      ensures userForm == UserForm(user.username, user.email, "", user.role.Name(), user.isActive)
      ensures requests == old(requests)
    {
      isEditing := true;
      selectedUser := Some(user);
      userForm := UserForm(user.username, user.email, "", user.role.Name(), user.isActive);
      showUserForm := true;
    }

    /** saveUser: the alert's translation key, or nothing when a request was
        sent. */
    method SaveUser() returns (alert: Option<string>)
      requires Valid()
      modifies this
      ensures Valid()
      ensures var d := SaveDecision(old(userForm), old(isEditing), old(selectedUser));
        && (d.Failure? ==> alert == Some(d.error) && requests == old(requests))
        && (d.Success? ==> alert == None && requests == old(requests) + [d.value])
      ensures userForm == old(userForm) && isEditing == old(isEditing) && selectedUser == old(selectedUser)
    {
      if userForm.username == "" || userForm.email == "" {
        return Some(UsernameEmailRequired);
      }
      if !isEditing && userForm.password == "" {
        return Some(PasswordRequired);
      }
      if isEditing && selectedUser.Some? {
        var body := UpdateBody(selectedUser.value.id, userForm.username, userForm.email, None,
                               userForm.role, userForm.isActive);
        requests := requests + [UpdateUser(body)];
      } else {
        var body := CreateBody(userForm.username, userForm.email, userForm.password,
                               userForm.role, userForm.isActive);
        requests := requests + [CreateUser(body)];
      }
      alert := None;
    }

    /** On a valid page every creation the page sends carries a password. */
    lemma CreationCarriesPassword()
      requires Valid()
      ensures var d := SaveDecision(userForm, isEditing, selectedUser);
        d.Success? && d.value.CreateUser? ==> d.value.create.password != ""
    {
    }

    /** A save succeeded: back to the first page and an empty form. */
    method Saved()
      requires Valid()
      modifies this, pager
      ensures Valid()
      ensures pager.currentPage == 1 && pager.pageSize == old(pager.pageSize)
      ensures requests == old(requests) + [LoadUsers(1, pager.pageSize)]
      ensures !showUserForm && !isEditing && selectedUser == None && userForm == EmptyForm
    {
      pager.currentPage := 1;
      requests := requests + [LoadUsers(pager.currentPage, pager.pageSize)];
      CancelForm();
    }

    /** cancelForm: the form closed and back to its defaults. */
    method CancelForm()
      modifies this
      ensures Valid() == old(pager.Valid())
      ensures !showUserForm && !isEditing && selectedUser == None && userForm == EmptyForm
      ensures requests == old(requests)
    {
      showUserForm := false;
      isEditing := false;
      selectedUser := None;
      userForm := EmptyForm;
    }
  }
}
