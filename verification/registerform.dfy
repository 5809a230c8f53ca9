/**
 * The registration page's form: the rules on each field, the e-mail pattern
 * `^[A-Z0-9._%+-]+@[A-Z0-9.-]+\.[A-Z]{2,}$` (case-insensitive), the default
 * role, and the request sent, which leaves the confirmation out.
 */
module RegisterForm {
  import opened Results
  import opened Forms
  import Store
  import Auth

  /** The role select offers exactly these two. */
  datatype Role = User | Manager

  function RoleName(r: Role): (name: string)
    ensures name == Auth.UserRole || name == Auth.ManagerRole
  {
    match r
    case User => Auth.UserRole
    case Manager => Auth.ManagerRole
  }

  datatype Form = Form(username: string, email: string, password: string, confirmPassword: string, role: Role)

  /** The form as the page opens it: empty fields and the role "User". */
  const Initial: Form := Form("", "", "", "", User)

  // ---------------------------------------------------------------------
  // The e-mail pattern. The `i` flag makes `[A-Z]` match ASCII letters of
  // either case and nothing else.

  predicate Letter(c: char) { ('A' <= c <= 'Z') || ('a' <= c <= 'z') }

  predicate Digit(c: char) { '0' <= c <= '9' }

  /** `[A-Z0-9._%+-]` */
  predicate LocalChar(c: char) { Letter(c) || Digit(c) || c in "._%+-" }

  /** `[A-Z0-9.-]` */
  predicate DomainChar(c: char) { Letter(c) || Digit(c) || c == '.' || c == '-' }

  predicate LocalPart(s: string) { forall j :: 0 <= j < |s| ==> LocalChar(s[j]) }

  predicate DomainPart(s: string) { forall j :: 0 <= j < |s| ==> DomainChar(s[j]) }

  predicate Letters(s: string) { forall j :: 0 <= j < |s| ==> Letter(s[j]) }

  /**
   * The pattern read as the regular expression states it: the address splits
   * as local part, '@', domain, '.', top-level part, with a non-empty local part
   * and domain and a top-level part of at least two letters.
   */
  ghost predicate EmailPattern(e: string) {
    exists at, dot :: 1 <= at && at + 2 <= dot && dot + 3 <= |e| && e[at] == '@' && e[dot] == '.' &&
      LocalPart(e[..at]) && DomainPart(e[at + 1..dot]) && Letters(e[dot + 1..])
  }

  /** The position of the first `c` in `s`. */
  function IndexOf(s: string, c: char): (r: Option<nat>)
    ensures r.Some? ==> r.value < |s| && s[r.value] == c
    ensures r.Some? ==> forall j :: 0 <= j < r.value ==> s[j] != c
    ensures r.None? ==> forall j :: 0 <= j < |s| ==> s[j] != c
  {
    if |s| == 0 then None
    else if s[0] == c then Some(0)
    else match IndexOf(s[1..], c)
      case None => None
      case Some(k) => Some(k + 1)
  }

  /** The position of the last `c` in `s`. */
  function LastIndexOf(s: string, c: char): (r: Option<nat>)
    ensures r.Some? ==> r.value < |s| && s[r.value] == c
    ensures r.Some? ==> forall j :: r.value < j < |s| ==> s[j] != c
    ensures r.None? ==> forall j :: 0 <= j < |s| ==> s[j] != c
  {
    if |s| == 0 then None
    else if s[|s| - 1] == c then Some(|s| - 1)
    else LastIndexOf(s[..|s| - 1], c)
  }

  /**
   * A direct check of the pattern: the local part runs up to the first '@' (it
   * cannot hold one), and the top-level part starts after the last '.' (it
   * cannot hold one either).
   */
  function IsEmail(e: string): (r: bool)
  {
    match IndexOf(e, '@')
    case None => false
    case Some(at) =>
      var rest := e[at + 1..];
      match LastIndexOf(rest, '.')
      case None => false
      case Some(dot) =>
        && 1 <= at && LocalPart(e[..at])
        && 1 <= dot && DomainPart(rest[..dot])
        && |rest| - dot - 1 >= 2 && Letters(rest[dot + 1..])
  }

  /** The direct check accepts exactly the addresses the pattern matches. */
  lemma IsEmailMatchesPattern(e: string)
    ensures IsEmail(e) <==> EmailPattern(e)
  {
    if IsEmail(e) {
      IsEmailSound(e);
    }
    if EmailPattern(e) {
      var at, dot :| 1 <= at && at + 2 <= dot && dot + 3 <= |e| && e[at] == '@' && e[dot] == '.' &&
        LocalPart(e[..at]) && DomainPart(e[at + 1..dot]) && Letters(e[dot + 1..]);
      IsEmailComplete(e, at, dot);
    }
  }

  /** What the direct check accepts splits as the pattern says, at the first '@' and the last '.'. */
  lemma IsEmailSound(e: string)
    requires IsEmail(e)
    ensures EmailPattern(e)
  {
    var at := IndexOf(e, '@').value;
    var rest := e[at + 1..];
    var dot := LastIndexOf(rest, '.').value;
    var k := at + 1 + dot;
    assert e[at + 1..k] == rest[..dot];
    assert e[k + 1..] == rest[dot + 1..];
    assert e[k] == rest[dot];
  }

  /** Any split the pattern allows is the one the direct check finds. */
  lemma IsEmailComplete(e: string, at: int, dot: int)
    requires 1 <= at && at + 2 <= dot && dot + 3 <= |e| && e[at] == '@' && e[dot] == '.'
    requires LocalPart(e[..at]) && DomainPart(e[at + 1..dot]) && Letters(e[dot + 1..])
    ensures IsEmail(e)
  {
    FirstAt(e, at);
    var rest := e[at + 1..];
    assert rest[dot - at - 1] == '.';
    assert rest[dot - at..] == e[dot + 1..];
    LastDot(rest, dot - at - 1);
    assert rest[..dot - at - 1] == e[at + 1..dot];
  }

  /** An '@' with only local-part characters before it is the first '@'. */
  lemma FirstAt(e: string, at: int)
    requires 0 <= at < |e| && e[at] == '@' && LocalPart(e[..at])
    ensures IndexOf(e, '@') == Some(at)
  {
    assert forall j :: 0 <= j < at ==> e[j] == e[..at][j];
  }

  /** A '.' with only letters after it is the last '.'. */
  lemma LastDot(s: string, dot: int)
    requires 0 <= dot < |s| && s[dot] == '.' && Letters(s[dot + 1..])
    ensures LastIndexOf(s, '.') == Some(dot)
  {
    assert forall j :: dot < j < |s| ==> s[j] == s[dot + 1..][j - dot - 1];
  }

  // ---------------------------------------------------------------------
  // Field rules and the request.

  predicate UsernameOk(f: Form) { Text(f.username, true, 3, 50) }

  predicate EmailOk(f: Form) { f.email != "" && IsEmail(f.email) }

  predicate PasswordOk(f: Form) { Text(f.password, true, 6, 100) }

  /** `required` and the `validate` rule comparing with the password. */
  predicate ConfirmOk(f: Form) { f.confirmPassword != "" && f.confirmPassword == f.password }

  predicate Valid(f: Form) {
    UsernameOk(f) && EmailOk(f) && PasswordOk(f) && ConfirmOk(f)
  }

  /** A submitted form has a 3 to 50 long username, a matching e-mail, a 6 to 100 long password, and a confirmation equal to it. */
  lemma ValidMeans(f: Form)
    ensures Valid(f) <==>
      && 3 <= |f.username| <= 50
      && EmailPattern(f.email)
      && 6 <= |f.password| <= 100
      && f.confirmPassword == f.password
  {
    IsEmailMatchesPattern(f.email);
    RequiredText(f.username, 3, 50);
    RequiredText(f.password, 6, 100);
  }

  /** The page opens with role "User" and with nothing the user could submit yet. */
  lemma InitialForm()
    ensures RoleName(Initial.role) == "User"
    ensures !Valid(Initial)
  {
  }

  /** The register request: the form without its confirmation. */
  function Payload(f: Form): (r: Auth.RegisterDto)
    ensures r.username == f.username && r.email == f.email && r.password == f.password
    ensures r.role == RoleName(f.role)
  {
    Auth.RegisterDto(f.username, f.email, f.password, RoleName(f.role))
  }

  /** The confirmation field never reaches the request. */
  lemma PayloadDropsConfirmation(f: Form, confirm: string)
    ensures Payload(f.(confirmPassword := confirm)) == Payload(f)
  {
  }

  /**
   * The server never refuses a submitted form for its role: registration of a
   * form's request fails only for a used e-mail or username.
   */
  lemma FormRoleAccepted(s: Store.Store, f: Form, hash: string -> string)
    ensures Auth.Register(s, Payload(f), hash).Ok? <==>
      !Auth.EmailTakenIn(s.users, f.email) && !Auth.UsernameTakenIn(s.users, f.username)
  {
  }
}
