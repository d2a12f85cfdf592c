/** The account handlers: the login classification, registration (which also
    puts the new user in the client group, id 3), group and employee
    creation, group membership changes, and the employee list, delete and
    activation toggle. Authentication itself is external: whether the
    password check succeeded is an input. */
module UserApi {
  import opened Common
  import opened Text
  import opened UserSerializers
  import Ordering

  /** The client group, referred to by id. */
  const ClientGroup: GroupId := 3
  const ClientGroupName: string := "cliente"

  /** `login_view`'s user type and redirect: superuser before staff, then the
      email suffix, which is compared case-sensitively. */
  function Classify(superuser: bool, staff: bool, email: string): (string, string) {
    if superuser then ("superuser", "/admin/dashboard")
    else if staff then ("staff", "/seller/dashboard")
    else if EndsWith(email, ".cli") then ("client_cli", "/client/dashboard")
    else if EndsWith(email, ".com") then ("client_com", "/client/dashboard")
    else ("client", "/client/dashboard")
  }

  /** Precedence of the chain: the superuser flag wins over everything, the
      staff flag over the email, and every other account goes to the client
      dashboard with one of three client types. */
  lemma ClassifyPrecedence(superuser: bool, staff: bool, email: string)
    ensures superuser ==> Classify(superuser, staff, email) == ("superuser", "/admin/dashboard")
    ensures !superuser && staff ==> Classify(superuser, staff, email) == ("staff", "/seller/dashboard")
    ensures Classify(superuser, staff, email).1 == "/client/dashboard" <==> !superuser && !staff
    ensures !superuser && !staff ==> Classify(superuser, staff, email).0 in {"client_cli", "client_com", "client"}
    ensures !superuser && !staff ==> (Classify(superuser, staff, email).0 == "client_cli" <==> EndsWith(email, ".cli"))
    ensures !superuser && !staff && !EndsWith(email, ".cli") ==>
      (Classify(superuser, staff, email).0 == "client_com" <==> EndsWith(email, ".com"))
  {
  }

  /** The suffix test does not ignore case: `.COM` is a plain client. */
  lemma ClassifyCaseSensitive()
    ensures Classify(false, false, "ana@tienda.com") == ("client_com", "/client/dashboard")
    ensures Classify(false, false, "ana@tienda.COM") == ("client", "/client/dashboard")
  {
    assert EndsWith("ana@tienda.com", ".com");
  }

  /** What a successful login reports. */
  datatype LoginInfo = LoginInfo(user: UserId, kind: string, redirect: string, groups: set<string>)

  /** The users registered under an email. */
  function UsersWithEmail(d: Directory, email: string): (r: set<UserId>)
    ensures forall u :: u in r <==> u in d.users && d.users[u].email == email
  {
    set u | u in d.users && d.users[u].email == email
  }

  /** `login_view` after the body is valid: the account is looked up by email
      (`get`, so two accounts with one email fail), then authenticated. */
  ghost function LoginSpec(d: Directory, email: string, authenticated: bool): (r: Result<LoginInfo>)
    ensures UsersWithEmail(d, email) == {} ==> r == Err(NotFound)
    ensures r.Ok? ==> UsersWithEmail(d, email) == {r.value.user} && authenticated
    ensures r.Ok? ==> var user := d.users[r.value.user];
      (r.value.kind, r.value.redirect) == Classify(user.superuser, user.staff, user.email)
  {
    var found := UsersWithEmail(d, email);
    if found == {} then Err(NotFound)
    else if |found| > 1 then Err(ServerError)
    else
      var u :| u in found;
      assert found == {u} by {
        forall v | v in found ensures v == u {
          if v != u {
            assert {u, v} <= found;
            Ordering.SubsetCardinality({u, v}, found);
          }
        }
      }
      if !authenticated then Err(Unauthorized)
      else
        var user := d.users[u];
        var (kind, redirect) := Classify(user.superuser, user.staff, user.email);
        Ok(LoginInfo(u, kind, redirect, GroupNames(d, user)))
  }

  /** With unique emails the only failures are an unknown email and a failed
      password check; a superuser always lands on the admin dashboard. */
  lemma LoginOutcomes(d: Directory, u: UserId, authenticated: bool)
    requires UniqueEmails(d) && u in d.users
    ensures var r := LoginSpec(d, d.users[u].email, authenticated);
      (authenticated <==> r.Ok?) && (!authenticated ==> r == Err(Unauthorized))
      && (r.Ok? ==> r.value.user == u && (d.users[u].superuser ==> r.value.redirect == "/admin/dashboard"))
  {
    var found := UsersWithEmail(d, d.users[u].email);
    assert found == {u};
  }

  /** Adds a group to a user's memberships. */
  function AddMembership(d: Directory, u: UserId, g: GroupId): (r: Directory)
    requires u in d.users
    ensures r.users == d.users[u := d.users[u].(groups := d.users[u].groups + {g})]
    ensures r.groups == d.groups && r.nextUser == d.nextUser && r.nextGroup == d.nextGroup
  {
    d.(users := d.users[u := d.users[u].(groups := d.users[u].groups + {g})])
  }

  function Max(a: nat, b: nat): nat {
    if a < b then b else a
  }

  /** `register_view`: validate, create the client account, then put it in
      group 3. When group 3 is missing it is created as `cliente`. If that
      name is already used by another group, the creation fails inside the
      `Group.DoesNotExist` handler, where the sibling handler cannot catch
      it; the outer handler answers 500, and the account, already created,
      stays without a group. */
  function RegisterSpec(d: Directory, input: RegisterInput): (Result<UserId>, Directory) {
    var errors := RegisterErrors(d, input);
    if errors != {} then (Err(Invalid(errors)), d)
    else
      var u := d.nextUser;
      var created := d.(users := d.users[u := NewClient(input)], nextUser := u + 1);
      if ClientGroup in created.groups then (Ok(u), AddMembership(created, u, ClientGroup))
      else if GroupNameTaken(created, ClientGroupName) then (Err(ServerError), created)
      else
        var withGroup := created.(groups := created.groups[ClientGroup := ClientGroupName],
                                  nextGroup := Max(created.nextGroup, ClientGroup + 1));
        (Ok(u), AddMembership(withGroup, u, ClientGroup))
  }

  /** `GroupViewSet.create`. */
  function CreateGroupSpec(d: Directory, name: string): (Result<GroupId>, Directory) {
    var errors := CreateGroupErrors(d, name);
    if errors != {} then (Err(Invalid(errors)), d)
    else (Ok(d.nextGroup), d.(groups := d.groups[d.nextGroup := name], nextGroup := d.nextGroup + 1))
  }

  /** `create_employee`. */
  function CreateEmployeeSpec(d: Directory, input: EmployeeInput): (Result<UserId>, Directory) {
    var errors := EmployeeErrors(d, input);
    if errors != {} then (Err(Invalid(errors)), d)
    else (Ok(d.nextUser), d.(users := d.users[d.nextUser := NewEmployee(input)], nextUser := d.nextUser + 1))
  }

  /** `UserGroupSerializer`: both ids are required and must exist. */
  function MembershipErrors(d: Directory, user: Option<int>, group: Option<int>): (r: set<Field>)
    ensures UserRef in r <==> user.None? || user.value < 0 || user.value !in d.users
    ensures GroupId in r <==> group.None? || group.value < 0 || group.value !in d.groups
    ensures r <= {UserRef, GroupId}
  {
    (if user.None? || user.value < 0 || user.value !in d.users then {UserRef} else {})
    + (if group.None? || group.value < 0 || group.value !in d.groups then {GroupId} else {})
  }

  /** `add_user_to_group`. */
  function AddToGroupSpec(d: Directory, user: Option<int>, group: Option<int>): (Result<()>, Directory) {
    var errors := MembershipErrors(d, user, group);
    if errors != {} then (Err(Invalid(errors)), d)
    else if group.value as GroupId in d.users[user.value as UserId].groups then (Err(AlreadyMember), d)
    else (Ok(()), AddMembership(d, user.value as UserId, group.value as GroupId))
  }

  /** `remove_user_from_group`. */
  function RemoveFromGroupSpec(d: Directory, user: Option<int>, group: Option<int>): (Result<()>, Directory) {
    var errors := MembershipErrors(d, user, group);
    if errors != {} then (Err(Invalid(errors)), d)
    else
      var u := user.value as UserId;
      var g := group.value as GroupId;
      if g !in d.users[u].groups then (Err(NotMember), d)
      else (Ok(()), d.(users := d.users[u := d.users[u].(groups := d.users[u].groups - {g})]))
  }

  /** `delete_employee`: a superuser may not be deleted. */
  function DeleteEmployeeSpec(d: Directory, u: UserId): (Result<()>, Directory) {
    if u !in d.users then (Err(NotFound), d)
    else if d.users[u].superuser then (Err(Forbidden), d)
    else (Ok(()), d.(users := d.users - {u}))
  }

  /** `toggle_employee_active`: a superuser may not be changed. */
  function ToggleActiveSpec(d: Directory, u: UserId): (Result<User>, Directory) {
    if u !in d.users then (Err(NotFound), d)
    else if d.users[u].superuser then (Err(Forbidden), d)
    else
      var user := d.users[u].(active := !d.users[u].active);
      (Ok(user), d.(users := d.users[u := user]))
  }

  /** `list_employees`: non-superusers outside group 3, or all non-superusers
      when group 3 does not exist. */
  function ListEmployees(d: Directory): (r: set<UserId>)
    ensures forall u :: u in r <==>
      (u in d.users && !d.users[u].superuser && (ClientGroup in d.groups ==> ClientGroup !in d.users[u].groups))
  {
    if ClientGroup in d.groups then set u | u in d.users && !d.users[u].superuser && ClientGroup !in d.users[u].groups
    else set u | u in d.users && !d.users[u].superuser
  }

  /** The account tables, changed by the handlers above. Every handler but
      `register` requires a signed-in caller (`IsAuthenticated`); an anonymous
      call is answered 401 before the handler body runs and changes nothing. */
  class Accounts {
    var dir: Directory

    constructor(d: Directory)
      ensures dir == d
    {
      dir := d;
    }

    method Register(input: RegisterInput) returns (r: Result<UserId>)
      modifies this
      ensures (r, dir) == RegisterSpec(old(dir), input)
    {
      var errors := RegisterErrors(dir, input);
      if errors != {} {
        return Err(Invalid(errors));
      }
      var u := dir.nextUser;
      dir := dir.(users := dir.users[u := NewClient(input)], nextUser := u + 1);
      if ClientGroup !in dir.groups {
        if GroupNameTaken(dir, ClientGroupName) {
          return Err(ServerError);
        }
        dir := dir.(groups := dir.groups[ClientGroup := ClientGroupName], nextGroup := Max(dir.nextGroup, ClientGroup + 1));
      }
      dir := AddMembership(dir, u, ClientGroup);
      return Ok(u);
    }

    method CreateGroup(signedIn: bool, name: string) returns (r: Result<GroupId>)
      modifies this
      ensures (r, dir) == if signedIn then CreateGroupSpec(old(dir), name) else (Err(Unauthorized), old(dir))
    {
      if !signedIn {
        return Err(Unauthorized);
      }
      var errors := CreateGroupErrors(dir, name);
      if errors != {} {
        return Err(Invalid(errors));
      }
      var g := dir.nextGroup;
      dir := dir.(groups := dir.groups[g := name], nextGroup := g + 1);
      return Ok(g);
    }

    method CreateEmployee(signedIn: bool, input: EmployeeInput) returns (r: Result<UserId>)
      modifies this
      ensures (r, dir) == if signedIn then CreateEmployeeSpec(old(dir), input) else (Err(Unauthorized), old(dir))
    {
      if !signedIn {
        return Err(Unauthorized);
      }
      var errors := EmployeeErrors(dir, input);
      if errors != {} {
        return Err(Invalid(errors));
      }
      var u := dir.nextUser;
      dir := dir.(users := dir.users[u := NewEmployee(input)], nextUser := u + 1);
      return Ok(u);
    }

    method AddToGroup(signedIn: bool, user: Option<int>, group: Option<int>) returns (r: Result<()>)
      modifies this
      ensures (r, dir) == if signedIn then AddToGroupSpec(old(dir), user, group) else (Err(Unauthorized), old(dir))
    {
      if !signedIn {
        return Err(Unauthorized);
      }
      var errors := MembershipErrors(dir, user, group);
      if errors != {} {
        return Err(Invalid(errors));
      }
      var u := user.value as UserId;
      var g := group.value as GroupId;
      if g in dir.users[u].groups {
        return Err(AlreadyMember);
      }
      dir := AddMembership(dir, u, g);
      return Ok(());
    }

    method RemoveFromGroup(signedIn: bool, user: Option<int>, group: Option<int>) returns (r: Result<()>)
      modifies this
      ensures (r, dir) == if signedIn then RemoveFromGroupSpec(old(dir), user, group) else (Err(Unauthorized), old(dir))
    {
      if !signedIn {
        return Err(Unauthorized);
      }
      var errors := MembershipErrors(dir, user, group);
      if errors != {} {
        return Err(Invalid(errors));
      }
      var u := user.value as UserId;
      var g := group.value as GroupId;
      if g !in dir.users[u].groups {
        return Err(NotMember);
      }
      dir := dir.(users := dir.users[u := dir.users[u].(groups := dir.users[u].groups - {g})]);
      return Ok(());
    }

    method DeleteEmployee(signedIn: bool, u: UserId) returns (r: Result<()>)
      modifies this
      ensures (r, dir) == if signedIn then DeleteEmployeeSpec(old(dir), u) else (Err(Unauthorized), old(dir))
    {
      if !signedIn {
        return Err(Unauthorized);
      }
      if u !in dir.users {
        return Err(NotFound);
      }
      if dir.users[u].superuser {
        return Err(Forbidden);
      }
      dir := dir.(users := dir.users - {u});
      return Ok(());
    }

    method ToggleActive(signedIn: bool, u: UserId) returns (r: Result<User>)
      modifies this
      ensures (r, dir) == if signedIn then ToggleActiveSpec(old(dir), u) else (Err(Unauthorized), old(dir))
    {
      if !signedIn {
        return Err(Unauthorized);
      }
      if u !in dir.users {
        return Err(NotFound);
      }
      if dir.users[u].superuser {
        return Err(Forbidden);
      }
      var user := dir.users[u].(active := !dir.users[u].active);
      dir := dir.(users := dir.users[u := user]);
      return Ok(user);
    }
  }

  /** No two groups share a name (the unique `auth_group.name`). */
  ghost predicate UniqueGroupNames(d: Directory) {
    forall g, h :: g in d.groups && h in d.groups && g != h ==> d.groups[g] != d.groups[h]
  }

  /** The invariant every handler keeps. Unique emails are not part of it:
      see `DuplicateEmailAccepted`. */
  ghost predicate Inv(d: Directory) {
    DirectoryValid(d) && UniqueUsernames(d) && UniqueGroupNames(d)
  }

  /** A taken username or email is refused and nothing is created. */
  lemma RegisterRefused(d: Directory, input: RegisterInput)
    requires UsernameTaken(d, input.username) || EmailTaken(d, input.email)
    ensures var (r, after) := RegisterSpec(d, input);
      after == d && r.Err? && r.error.Invalid?
      && (UsernameTaken(d, input.username) ==> Username in r.error.fields)
      && (EmailTaken(d, input.email) ==> Email in r.error.fields)
  {
  }

  /** A registration that passes validation creates one plain, active client
      account under the normalized address and leaves every other account as
      it was. It succeeds, with the account in group 3, exactly when group 3
      exists or its name is free; otherwise it answers 500 and the account
      stays without a group. */
  lemma RegisterCreatesClient(d: Directory, input: RegisterInput)
    requires DirectoryValid(d) && RegisterErrors(d, input) == {}
    ensures var (r, after) := RegisterSpec(d, input);
      var u := d.nextUser;
      var user := after.users[u];
      u !in d.users && after.users.Keys == d.users.Keys + {u}
      && (forall v :: v in d.users ==> after.users[v] == d.users[v])
      && user.username == input.username && user.email == NormalizeEmail(input.email)
      && !user.staff && !user.superuser && user.active
      && (input.firstName.None? ==> user.firstName == "")
      && (r.Ok? <==> ClientGroup in d.groups || !GroupNameTaken(d, ClientGroupName))
      && (r.Ok? ==> r.value == u && user.groups == {ClientGroup} && ClientGroup in after.groups)
      && (r.Err? ==> r.error == ServerError && user.groups == {} && after.groups == d.groups)
  {
    var u := d.nextUser;
    var created := d.(users := d.users[u := NewClient(input)], nextUser := u + 1);
    assert GroupNameTaken(created, ClientGroupName) <==> GroupNameTaken(d, ClientGroupName);
  }

  /** Registration keeps the invariant. */
  lemma RegisterKeepsInv(d: Directory, input: RegisterInput)
    requires Inv(d)
    ensures Inv(RegisterSpec(d, input).1)
  {
    var (r, after) := RegisterSpec(d, input);
    if RegisterErrors(d, input) == {} {
      var u := d.nextUser;
      var created := d.(users := d.users[u := NewClient(input)], nextUser := u + 1);
      assert GroupNameTaken(created, ClientGroupName) <==> GroupNameTaken(d, ClientGroupName);
      forall v, w | v in after.users && w in after.users && v != w
        ensures after.users[v].username != after.users[w].username
      {
        if v == u {
          assert w in d.users;
        } else if w == u {
          assert v in d.users;
        }
      }
    }
  }

  /** Registration stores the address normalized, so stored addresses stay normalized. */
  lemma RegisterKeepsEmailsNormalized(d: Directory, input: RegisterInput)
    requires DirectoryValid(d) && NormalizedEmails(d)
    ensures NormalizedEmails(RegisterSpec(d, input).1)
  {
    if RegisterErrors(d, input) == {} {
      NormalizeEmailIdempotent(input.email);
      RegisterCreatesClient(d, input);
      var after := RegisterSpec(d, input).1;
      forall v | v in after.users ensures NormalizeEmail(after.users[v].email) == after.users[v].email {
        if v != d.nextUser {
          assert after.users[v] == d.users[v];
        }
      }
    }
  }

  /** Employee creation stores the address normalized, so stored addresses stay normalized. */
  lemma CreateEmployeeKeepsEmailsNormalized(d: Directory, input: EmployeeInput)
    requires NormalizedEmails(d)
    ensures NormalizedEmails(CreateEmployeeSpec(d, input).1)
  {
    NormalizeEmailIdempotent(input.email);
  }

  /** Registration checks the address as typed against the stored ones but
      stores it normalized. With `ana@tienda.com` registered, `ana@TIENDA.com`
      passes the check and is stored as a second `ana@tienda.com`; logging in
      with that address then fails, because `get` finds two accounts. */
  lemma DuplicateEmailAccepted(d: Directory, u: UserId, input: RegisterInput, local: string, domain: string)
    requires Inv(d) && NormalizedEmails(d) && u in d.users && ClientGroup in d.groups
    requires '@' !in domain && Lower(domain) != domain
    requires d.users[u].email == local + "@" + Lower(domain) && input.email == local + "@" + domain
    requires !UsernameTaken(d, input.username)
    ensures var (r, after) := RegisterSpec(d, input);
      r == Ok(d.nextUser) && after.users[d.nextUser].email == d.users[u].email
      && LoginSpec(after, d.users[u].email, true) == Err(ServerError)
  {
    var typed, stored := input.email, local + "@" + Lower(domain);
    NormalizeEmailSplit(local, domain);
    assert NormalizeEmail(typed) != typed by {
      assert stored[|local| + 1..] == Lower(domain);
      assert typed[|local| + 1..] == domain;
    }
    assert !EmailTaken(d, typed);
    var errors := RegisterErrors(d, input);
    assert Username !in errors && Email !in errors;
    assert errors == {};
    var n := d.nextUser;
    RegisterCreatesClient(d, input);
    var after := RegisterSpec(d, input).1;
    assert after.users[n].email == stored;
    assert u < n && after.users[u] == d.users[u];
    LoginAmbiguous(after, stored, u, n, true);
  }

  /** Two accounts under one address make every login with it fail. */
  lemma LoginAmbiguous(d: Directory, email: string, u: UserId, v: UserId, authenticated: bool)
    requires u in d.users && v in d.users && u != v
    requires d.users[u].email == email && d.users[v].email == email
    ensures LoginSpec(d, email, authenticated) == Err(ServerError)
  {
    var found := UsersWithEmail(d, email);
    assert {u, v} <= found;
    Ordering.SubsetCardinality({u, v}, found);
  }

  /** A group name already in use is refused; creation keeps the invariant. */
  lemma CreateGroupKeepsInv(d: Directory, name: string)
    requires Inv(d)
    ensures var (r, after) := CreateGroupSpec(d, name);
      Inv(after) && (r.Err? <==> GroupNameTaken(d, name)) && (r.Err? ==> after == d)
      && (r.Ok? ==> r.value !in d.groups && after.groups == d.groups[r.value := name])
  {
  }

  /** An employee is created only for an existing group and unused username
      and email; the account is active, never a superuser, staff only when
      asked, and in exactly the requested group. */
  lemma CreateEmployeeResult(d: Directory, input: EmployeeInput)
    requires DirectoryValid(d)
    ensures var (r, after) := CreateEmployeeSpec(d, input);
      (r.Ok? <==> !UsernameTaken(d, input.username) && !EmailTaken(d, input.email)
                  && input.group >= 0 && input.group in d.groups)
      && (r.Err? ==> after == d)
      && (r.Ok? ==> r.value !in d.users && after.users == d.users[r.value := after.users[r.value]]
                    && after.users[r.value].username == input.username
                    && after.users[r.value].email == NormalizeEmail(input.email)
                    && !after.users[r.value].superuser && after.users[r.value].active
                    && (after.users[r.value].staff <==> input.staff == Some(true))
                    && after.users[r.value].groups == {input.group as GroupId})
  {
  }

  lemma CreateEmployeeKeepsInv(d: Directory, input: EmployeeInput)
    requires Inv(d)
    ensures Inv(CreateEmployeeSpec(d, input).1)
  {
    var (r, after) := CreateEmployeeSpec(d, input);
    if r.Ok? {
      var u := d.nextUser;
      forall v, w | v in after.users && w in after.users && v != w
        ensures after.users[v].username != after.users[w].username
      {
        if v == u {
          assert w in d.users;
        } else if w == u {
          assert v in d.users;
        }
      }
    }
  }

  /** Adding a member twice is refused; otherwise only that user's groups grow by that group. */
  lemma AddToGroupResult(d: Directory, u: UserId, g: GroupId)
    requires u in d.users && g in d.groups
    ensures var (r, after) := AddToGroupSpec(d, Some(u), Some(g));
      (g in d.users[u].groups ==> r == Err(AlreadyMember) && after == d)
      && (g !in d.users[u].groups ==> r.Ok? && after.users == d.users[u := d.users[u].(groups := d.users[u].groups + {g})])
  {
  }

  /** Removing a non-member is refused; otherwise only that user's groups lose that group. */
  lemma RemoveFromGroupResult(d: Directory, u: UserId, g: GroupId)
    requires u in d.users && g in d.groups
    ensures var (r, after) := RemoveFromGroupSpec(d, Some(u), Some(g));
      (g !in d.users[u].groups ==> r == Err(NotMember) && after == d)
      && (g in d.users[u].groups ==> r.Ok? && after.users == d.users[u := d.users[u].(groups := d.users[u].groups - {g})])
  {
  }

  /** Removing a membership that was just added restores the tables. */
  lemma AddThenRemove(d: Directory, u: UserId, g: GroupId)
    requires u in d.users && g in d.groups && g !in d.users[u].groups
    ensures RemoveFromGroupSpec(AddToGroupSpec(d, Some(u), Some(g)).1, Some(u), Some(g)) == (Ok(()), d)
  {
    var added := AddToGroupSpec(d, Some(u), Some(g)).1;
    assert added.users[u].groups - {g} == d.users[u].groups;
    assert added.users[u := added.users[u].(groups := added.users[u].groups - {g})] == d.users;
  }

  /** Membership changes keep the invariant. */
  lemma MembershipKeepsInv(d: Directory, user: Option<int>, group: Option<int>)
    requires Inv(d)
    ensures Inv(AddToGroupSpec(d, user, group).1) && Inv(RemoveFromGroupSpec(d, user, group).1)
  {
  }

  /** A superuser can be neither deleted nor toggled. */
  lemma SuperuserProtected(d: Directory, u: UserId)
    requires u in d.users && d.users[u].superuser
    ensures DeleteEmployeeSpec(d, u) == (Err(Forbidden), d)
    ensures ToggleActiveSpec(d, u) == (Err(Forbidden), d)
  {
  }

  /** Deleting removes exactly that account. */
  lemma DeleteOnlyTarget(d: Directory, u: UserId)
    requires u in d.users && !d.users[u].superuser
    ensures var (r, after) := DeleteEmployeeSpec(d, u);
      r.Ok? && after.users.Keys == d.users.Keys - {u}
      && forall v :: v in after.users ==> after.users[v] == d.users[v]
  {
  }

  /** Toggling flips only the active flag, and toggling twice restores the tables. */
  lemma ToggleTwice(d: Directory, u: UserId)
    requires u in d.users && !d.users[u].superuser
    ensures var (r, once) := ToggleActiveSpec(d, u);
      r.Ok? && once.users[u] == d.users[u].(active := !d.users[u].active)
      && ToggleActiveSpec(once, u).1 == d
  {
    var once := ToggleActiveSpec(d, u).1;
    assert once.users[u := once.users[u].(active := !once.users[u].active)] == d.users;
  }

  lemma DeleteAndToggleKeepInv(d: Directory, u: UserId)
    requires Inv(d)
    ensures Inv(DeleteEmployeeSpec(d, u).1) && Inv(ToggleActiveSpec(d, u).1)
  {
  }

  /** On valid tables no account is in a group that does not exist, so the
      employee list is always the non-superusers outside group 3. */
  lemma EmployeesAreNonClients(d: Directory)
    requires DirectoryValid(d)
    ensures forall u :: u in ListEmployees(d) <==>
      u in d.users && !d.users[u].superuser && ClientGroup !in d.users[u].groups
  {
  }
}
