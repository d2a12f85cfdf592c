/** The account serializers: registration, group creation and employee
    creation, each with its uniqueness validators and the flags its `create`
    sets, and the group names shown for a user. The user and group tables
    are a value; the handlers that change them are in `UserApi`. Password
    hashing is external and the password is not represented. */
module UserSerializers {
  import opened Common
  import opened Text

  type UserId = nat
  type GroupId = nat

  /** A `User` row with its group memberships. */
  datatype User = User(username: string, email: string, firstName: string, lastName: string,
                       staff: bool, superuser: bool, active: bool, groups: set<GroupId>)

  /** The user and group tables; new rows take the next free id. */
  datatype Directory = Directory(users: map<UserId, User>, groups: map<GroupId, string>, nextUser: nat, nextGroup: nat)

  /** Ids stay below the next id to hand out and memberships name existing groups. */
  ghost predicate DirectoryValid(d: Directory) {
    (forall u :: u in d.users ==> u < d.nextUser && d.users[u].groups <= d.groups.Keys)
    && (forall g :: g in d.groups ==> g < d.nextGroup)
  }

  /** No two users share a username (the unique `auth_user.username`). */
  ghost predicate UniqueUsernames(d: Directory) {
    forall u, v :: u in d.users && v in d.users && u != v ==> d.users[u].username != d.users[v].username
  }

  /** No two users share an email. The database does not enforce this, and
      the handlers do not keep it (see `UserApi.DuplicateEmailAccepted`). */
  ghost predicate UniqueEmails(d: Directory) {
    forall u, v :: u in d.users && v in d.users && u != v ==> d.users[u].email != d.users[v].email
  }

  /** Every stored email is in the form `create_user` stores. */
  ghost predicate NormalizedEmails(d: Directory) {
    forall u :: u in d.users ==> NormalizeEmail(d.users[u].email) == d.users[u].email
  }

  /** `BaseUserManager.normalize_email` on an address the serializer's
      `EmailField` has already trimmed: when it holds an `@`, it is rebuilt
      from the part before the last `@` and the lower-cased part after it
      (the domain); otherwise it is kept as given. */
  function NormalizeEmail(email: string): string {
    var domain := AfterLast(email, '@');
    if |domain| == |email| then email
    else email[..|email| - |domain| - 1] + "@" + Lower(domain)
  }

  /** An address split at its last `@`: the local part is kept as typed and
      the domain is lower-cased. */
  lemma NormalizeEmailSplit(local: string, domain: string)
    requires '@' !in domain
    ensures NormalizeEmail(local + "@" + domain) == local + "@" + Lower(domain)
  {
    var s := local + "@" + domain;
    AfterLastSplit(local, '@', domain);
    assert s[..|s| - |domain| - 1] == local;
  }

  /** An address without `@` is kept as given. */
  lemma NormalizeEmailWithoutAt(email: string)
    requires '@' !in email
    ensures NormalizeEmail(email) == email
  {
    AfterLastShorter(email, '@');
  }

  /** Normalizing a normalized address changes nothing. */
  lemma NormalizeEmailIdempotent(email: string)
    ensures NormalizeEmail(NormalizeEmail(email)) == NormalizeEmail(email)
  {
    AfterLastShorter(email, '@');
    if '@' in email {
      var domain := AfterLast(email, '@');
      var local := email[..|email| - |domain| - 1];
      var lowered := Lower(domain);
      assert NormalizeEmail(email) == local + "@" + lowered;
      LowerKeepsOthers(domain, '@');
      NormalizeEmailSplit(local, lowered);
      LowerIdempotent(domain);
    }
  }

  /** Two addresses that differ only in the case of their domain are stored
      alike: `ana@TIENDA.com` and `ana@tienda.com` both become `ana@tienda.com`. */
  lemma NormalizeEmailIgnoresDomainCase(local: string, domain: string, other: string)
    requires '@' !in domain && '@' !in other && Lower(domain) == Lower(other)
    ensures NormalizeEmail(local + "@" + domain) == NormalizeEmail(local + "@" + other)
  {
    NormalizeEmailSplit(local, domain);
    NormalizeEmailSplit(local, other);
  }

  predicate UsernameTaken(d: Directory, username: string) {
    exists u :: u in d.users && d.users[u].username == username
  }

  predicate EmailTaken(d: Directory, email: string) {
    exists u :: u in d.users && d.users[u].email == email
  }

  predicate GroupNameTaken(d: Directory, name: string) {
    exists g :: g in d.groups && d.groups[g] == name
  }

  /** The request body of a registration; the names are optional. */
  datatype RegisterInput = RegisterInput(username: string, email: string, firstName: Option<string>, lastName: Option<string>)

  /** `RegisterSerializer`'s `validate_username` and `validate_email`. */
  function RegisterErrors(d: Directory, input: RegisterInput): (r: set<Field>)
    ensures Username in r <==> UsernameTaken(d, input.username)
    ensures Email in r <==> EmailTaken(d, input.email)
    ensures r <= {Username, Email}
  {
    (if UsernameTaken(d, input.username) then {Username} else {})
    + (if EmailTaken(d, input.email) then {Email} else {})
  }

  function OrEmpty(s: Option<string>): string {
    if s.None? then "" else s.value
  }

  /** `RegisterSerializer.create`: a plain, active client account with no
      groups, under the address `create_user` normalizes. */
  function NewClient(input: RegisterInput): (r: User)
    ensures !r.staff && !r.superuser && r.active && r.groups == {}
    ensures r.username == input.username && r.email == NormalizeEmail(input.email)
    ensures input.firstName.None? ==> r.firstName == ""
    ensures input.lastName.None? ==> r.lastName == ""
  {
    User(input.username, NormalizeEmail(input.email), OrEmpty(input.firstName), OrEmpty(input.lastName), false, false, true, {})
  }

  /** `CreateGroupSerializer.validate_name`. */
  function CreateGroupErrors(d: Directory, name: string): (r: set<Field>)
    ensures r == {} <==> !GroupNameTaken(d, name)
    ensures r <= {GroupName}
  {
    if GroupNameTaken(d, name) then {GroupName} else {}
  }

  /** The request body of an employee creation; `is_staff` defaults to false. */
  datatype EmployeeInput = EmployeeInput(username: string, email: string, firstName: Option<string>,
                                         lastName: Option<string>, group: int, staff: Option<bool>)

  /** `CreateEmployeeSerializer`'s three field validators. */
  function EmployeeErrors(d: Directory, input: EmployeeInput): (r: set<Field>)
    ensures Username in r <==> UsernameTaken(d, input.username)
    ensures Email in r <==> EmailTaken(d, input.email)
    ensures GroupId in r <==> input.group < 0 || input.group !in d.groups
    ensures r <= {Username, Email, GroupId}
  {
    (if UsernameTaken(d, input.username) then {Username} else {})
    + (if EmailTaken(d, input.email) then {Email} else {})
    + (if input.group < 0 || input.group !in d.groups then {GroupId} else {})
  }

  /** `CreateEmployeeSerializer.create`: never a superuser, active, staff only
      when asked, a member of exactly the requested group, and under the
      address `create_user` normalizes. */
  function NewEmployee(input: EmployeeInput): (r: User)
    requires input.group >= 0
    ensures !r.superuser && r.active
    ensures r.staff <==> input.staff == Some(true)
    ensures r.groups == {input.group as GroupId}
    ensures r.username == input.username && r.email == NormalizeEmail(input.email)
  {
    User(input.username, NormalizeEmail(input.email), OrEmpty(input.firstName), OrEmpty(input.lastName),
         if input.staff.None? then false else input.staff.value, false, true, {input.group as GroupId})
  }

  /** `get_group_names`: the names of exactly the user's groups. */
  function GroupNames(d: Directory, user: User): (r: set<string>)
    ensures forall n :: n in r <==> exists g :: g in user.groups && g in d.groups && d.groups[g] == n
  {
    set g | g in user.groups && g in d.groups :: d.groups[g]
  }
}
