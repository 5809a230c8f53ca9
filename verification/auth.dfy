/**
 * The auth controller's decisions: registration checks the e-mail, then the
 * username, then the role; login answers the same way whether the e-mail is
 * unknown or the password wrong. Password hashing and checking are the
 * parameters `hash` and `verify`; token issuance is not modelled.
 */
module Auth {
  import opened Results
  import opened Store

  datatype RegisterDto = RegisterDto(username: string, email: string, password: string, role: string)

  datatype LoginDto = LoginDto(email: string, password: string)

  /** The profile part of `AuthResponseDto` (its token is not modelled). */
  datatype Profile = Profile(id: int, username: string, email: string, role: string)

  const UserRole: string := "User"
  const ManagerRole: string := "Manager"

  predicate EmailTakenIn(users: map<int, User>, email: string) {
    exists id :: id in users && users[id].email == email
  }

  predicate UsernameTakenIn(users: map<int, User>, username: string) {
    exists id :: id in users && users[id].username == username
  }

  function ProfileOf(id: int, u: User): Profile {
    Profile(id, u.username, u.email, u.role)
  }

  /**
   * POST /auth/register. A used e-mail is refused first, then a used username,
   * then a role other than "User" or "Manager", all as bad requests; otherwise one
   * user is added with the password's hash.
   */
  function Register(s: Store, dto: RegisterDto, hash: string -> string): (r: Result<Reply<Profile>>)
    ensures EmailTakenIn(s.users, dto.email) ==> r == Err(BadRequest(EmailTaken))
    ensures !EmailTakenIn(s.users, dto.email) && UsernameTakenIn(s.users, dto.username) ==> r == Err(BadRequest(UsernameTaken))
    ensures !EmailTakenIn(s.users, dto.email) && !UsernameTakenIn(s.users, dto.username) && dto.role != UserRole && dto.role != ManagerRole ==>
      r == Err(BadRequest(InvalidRole))
    ensures r.Ok? <==>
      !EmailTakenIn(s.users, dto.email) && !UsernameTakenIn(s.users, dto.username) && (dto.role == UserRole || dto.role == ManagerRole)
    ensures r.Ok? ==>
      && r.value.next == s.(users := r.value.next.users, nextId := s.nextId + 1)
      && r.value.next.users == s.users[s.nextId := User(dto.username, dto.email, hash(dto.password), dto.role)]
      && r.value.body == Profile(s.nextId, dto.username, dto.email, dto.role)
  {
    if EmailTakenIn(s.users, dto.email) then Err(BadRequest(EmailTaken))
    else if UsernameTakenIn(s.users, dto.username) then Err(BadRequest(UsernameTaken))
    else if dto.role != UserRole && dto.role != ManagerRole then Err(BadRequest(InvalidRole))
    else
      var u := User(dto.username, dto.email, hash(dto.password), dto.role);
      Ok(Reply(s.(users := s.users[s.nextId := u], nextId := s.nextId + 1), ProfileOf(s.nextId, u)))
  }

  /** A registration adds exactly one user, under an id no user had, and keeps e-mails and usernames unique. */
  lemma RegisterKeepsUnique(s: Store, dto: RegisterDto, hash: string -> string)
    requires UniqueEmails(s.users) && UniqueUsernames(s.users) && IdsIssued(s)
    requires Register(s, dto, hash).Ok?
    ensures var users' := Register(s, dto, hash).value.next.users;
      && s.nextId !in s.users
      && users'.Keys == s.users.Keys + {s.nextId}
      && |users'| == |s.users| + 1
      && UniqueEmails(users') && UniqueUsernames(users')
  {
  }

  lemma RegisterPreservesValid(s: Store, dto: RegisterDto, hash: string -> string)
    requires Valid(s)
    ensures Register(s, dto, hash).Ok? ==> Valid(Register(s, dto, hash).value.next)
  {
    if Register(s, dto, hash).Ok? {
      RegisterKeepsUnique(s, dto, hash);
    }
  }

  /** The user holding `email`; the unique index on e-mails makes it the only one. */
  function UserByEmail(users: map<int, User>, email: string): (r: Option<int>)
    requires UniqueEmails(users)
    ensures r.Some? <==> EmailTakenIn(users, email)
    ensures r.Some? ==> r.value in users && users[r.value].email == email
  {
    if EmailTakenIn(users, email) then
      var id :| id in users && users[id].email == email; Some(id)
    else None
  }

  /**
   * POST /auth/login. An unknown e-mail and a wrong password give the same
   * Unauthorized answer; otherwise the matched user's profile.
   */
  function Login(s: Store, dto: LoginDto, verify: (string, string) -> bool): (r: Result<Profile>)
    requires UniqueEmails(s.users)
    ensures r.Ok? <==> exists id :: id in s.users && s.users[id].email == dto.email && verify(dto.password, s.users[id].passwordHash)
    ensures r.Ok? ==> r.value.id in s.users && r.value == ProfileOf(r.value.id, s.users[r.value.id]) && r.value.email == dto.email
    ensures r.Err? ==> r.error == Unauthorized(BadCredentials)
  {
    match UserByEmail(s.users, dto.email)
    case None => Err(Unauthorized(BadCredentials))
    case Some(id) =>
      if !verify(dto.password, s.users[id].passwordHash) then Err(Unauthorized(BadCredentials))
      else Ok(ProfileOf(id, s.users[id]))
  }

  /**
   * Registering and then logging in with the same e-mail and password yields the
   * profile registration answered with, whenever the verifier accepts a password
   * against its own hash.
   */
  lemma RegisterThenLogin(s: Store, dto: RegisterDto, hash: string -> string, verify: (string, string) -> bool)
    requires UniqueEmails(s.users) && UniqueUsernames(s.users) && IdsIssued(s)
    requires Register(s, dto, hash).Ok?
    requires verify(dto.password, hash(dto.password))
    ensures var reply := Register(s, dto, hash).value;
      UniqueEmails(reply.next.users) && Login(reply.next, LoginDto(dto.email, dto.password), verify) == Ok(reply.body)
  {
    RegisterKeepsUnique(s, dto, hash);
    var users' := Register(s, dto, hash).value.next.users;
    assert users'[s.nextId].email == dto.email;
  }

  /** A second registration with the same e-mail is refused, whatever else it says. */
  lemma RegisterTwiceFails(s: Store, dto: RegisterDto, other: RegisterDto, hash: string -> string)
    requires Register(s, dto, hash).Ok? && other.email == dto.email
    ensures Register(Register(s, dto, hash).value.next, other, hash) == Err(BadRequest(EmailTaken))
  {
    var users' := Register(s, dto, hash).value.next.users;
    assert users'[s.nextId].email == other.email;
  }
}
