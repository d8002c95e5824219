/** The account routes: `/register`, `/login` and the `/forgot-password`
    stub. Password hashing, hash comparison and token signing are unseen
    library code and are parameters. */
module AuthRoutes {

  import opened Wrappers
  import opened Text
  import opened Collections
  import opened Store

  /** The user object both routes answer with and sign into the token. */
  datatype UserPayload = UserPayload(id: UserId, name: string, email: string, role: string)

  datatype AuthReply = Signed(code: nat, token: string, user: UserPayload) | Rejected(code: nat, message: string)

  /** A request body; `None` is an absent key. */
  datatype RegisterBody = RegisterBody(name: Option<string>, email: Option<string>, password: Option<string>, role: Option<string>)
  datatype LoginBody = LoginBody(email: Option<string>, password: Option<string>)

  const DefaultRole := "VISITOR"
  const AdminRole := "ADMIN"
  const RegisterMissingMessage := "name, email, and password are required"
  const AdminRegisterMessage := "Admin account registration is not allowed for this email"
  const EmailTakenMessage := "Email already exists"
  const InvalidRoleMessage := "Invalid role value"
  const LoginMissingMessage := "email and password are required"
  const InvalidCredentialsMessage := "Invalid credentials"
  const AdminLoginMessage := "Admin account not permitted for this email"
  const ForgotMissingMessage := "email is required"
  const ForgotStubMessage := "Password reset link processed (stub)"

  /** The e-mail form both routes look users up by. */
  function NormalEmail(email: string): (r: string)
    ensures IsLowerCase(r)
    ensures |r| == |Trim(email)| <= |email|
    ensures forall i :: 0 <= i < |r| ==> r[i] == LowerChar(Trim(email)[i])
    ensures |r| > 0 ==> !IsSpace(r[0]) && !IsSpace(r[|r| - 1])
  {
    var t := Trim(email);
    LowerIsLowerCase(t);
    CaseKeepsSpace(t);
    Lower(t)
  }

  /** Normalising a normalised e-mail changes nothing, so a stored e-mail is
      found by its own spelling. */
  lemma NormalEmailIdempotent(email: string)
    ensures NormalEmail(NormalEmail(email)) == NormalEmail(email)
  {
    var n := NormalEmail(email);
    TrimOfTrimmed(n);
    LowerCaseFixed(n);
  }

  /** The role form `/register` stores and checks. */
  function NormalRole(role: string): (r: string)
    ensures |r| == |Trim(role)| <= |role|
    ensures forall i :: 0 <= i < |r| ==> r[i] == UpperChar(Trim(role)[i])
    ensures forall i :: 0 <= i < |r| ==> !IsLowerChar(r[i])
    ensures |r| > 0 ==> !IsSpace(r[0]) && !IsSpace(r[|r| - 1])
  {
    var t := Trim(role);
    CaseKeepsSpace(t);
    Upper(t)
  }

  /** Normalising a normalised role changes nothing. */
  lemma NormalRoleIdempotent(role: string)
    ensures NormalRole(NormalRole(role)) == NormalRole(role)
  {
    var n := NormalRole(role);
    TrimOfTrimmed(n);
    UpperCaseFixed(n);
  }

  /** Every stored e-mail is in normal form; `/register` is the only writer. */
  ghost predicate EmailsNormal(s: Store) {
    forall u :: u in s.users ==> IsLowerCase(s.users[u].email)
  }

  predicate EmailTaken(s: Store, email: string) {
    exists u :: u in s.users && s.users[u].email == email
  }

  /** The admin condition of `/register`: it refuses ADMIN unless an admin
      e-mail is configured and equals the normalised e-mail. */
  predicate AdminRegistrationRefused(role: string, email: string, adminEmail: Option<string>) {
    role == AdminRole && (!Truthy(adminEmail) || email != adminEmail.value)
  }

  /** `POST /register`. The checks run in order and the first failure
      answers; only a success writes, inserting one active user with the
      next id and the hashed password. */
  function Register(s: Store, body: RegisterBody, adminEmail: Option<string>,
                    hash: string -> string, sign: UserPayload -> string): (r: (Store, AuthReply))
    ensures r.1.Rejected? ==> r.0 == s
    ensures !Truthy(body.name) || !Truthy(body.email) || !Truthy(body.password)
      ==> r.1 == Rejected(400, RegisterMissingMessage)
    ensures Truthy(body.name) && Truthy(body.email) && Truthy(body.password) ==>
      var email := NormalEmail(body.email.value);
      var role := NormalRole(body.role.GetOr(DefaultRole));
      && (AdminRegistrationRefused(role, email, adminEmail) ==> r.1 == Rejected(403, AdminRegisterMessage))
      && (!AdminRegistrationRefused(role, email, adminEmail) && EmailTaken(s, email) ==> r.1 == Rejected(409, EmailTakenMessage))
      && ((!AdminRegistrationRefused(role, email, adminEmail) && !EmailTaken(s, email) && role !in s.roles)
            ==> r.1 == Rejected(400, InvalidRoleMessage))
      && (r.1.Signed? <==> !AdminRegistrationRefused(role, email, adminEmail) && !EmailTaken(s, email) && role in s.roles)
      && (r.1.Signed? ==>
            && r.1 == Signed(201, sign(UserPayload(s.nextUserId, body.name.value, email, role)),
                                  UserPayload(s.nextUserId, body.name.value, email, role))
            && r.0 == s.(users := s.users[s.nextUserId := User(body.name.value, email, hash(body.password.value), role, true)],
                         nextUserId := s.nextUserId + 1))
  {
    if !Truthy(body.name) || !Truthy(body.email) || !Truthy(body.password) then (s, Rejected(400, RegisterMissingMessage))
    else
      var email := NormalEmail(body.email.value);
      var role := NormalRole(body.role.GetOr(DefaultRole));
      if AdminRegistrationRefused(role, email, adminEmail) then (s, Rejected(403, AdminRegisterMessage))
      else if EmailTaken(s, email) then (s, Rejected(409, EmailTakenMessage))
      else if role !in s.roles then (s, Rejected(400, InvalidRoleMessage))
      else
        var id := s.nextUserId;
        var payload := UserPayload(id, body.name.value, email, role);
        var s' := s.(users := s.users[id := User(body.name.value, email, hash(body.password.value), role, true)],
                     nextUserId := id + 1);
        (s', Signed(201, sign(payload), payload))
  }

  /** With the server's configuration (no admin e-mail) nobody can register as ADMIN. */
  lemma NoAdminRegistrationAtRuntime(s: Store, body: RegisterBody, hash: string -> string, sign: UserPayload -> string)
    requires Truthy(body.name) && Truthy(body.email) && Truthy(body.password)
    requires NormalRole(body.role.GetOr(DefaultRole)) == AdminRole
    ensures Register(s, body, None, hash, sign).1 == Rejected(403, AdminRegisterMessage)
  {
  }

  /** Registration keeps the store invariant and keeps every stored e-mail normal. */
  lemma RegisterPreservesValid(s: Store, body: RegisterBody, adminEmail: Option<string>,
                               hash: string -> string, sign: UserPayload -> string)
    requires Valid(s) && EmailsNormal(s)
    ensures Valid(Register(s, body, adminEmail, hash, sign).0)
    ensures EmailsNormal(Register(s, body, adminEmail, hash, sign).0)
  {
    var (s', reply) := Register(s, body, adminEmail, hash, sign);
    if reply.Signed? {
      var email := NormalEmail(body.email.value);
      var role := NormalRole(body.role.GetOr(DefaultRole));
      AddUserKeepsValid(s, User(body.name.value, email, hash(body.password.value), role, true));
    }
  }

  /** The ids of the active users whose lower-cased e-mail is `email`
      (`WHERE LOWER(u.email) = ? AND u.is_active = TRUE`). */
  function LoginMatches(s: Store, email: string): (r: set<UserId>)
    ensures forall u :: u in r <==> u in s.users && s.users[u].active && Lower(s.users[u].email) == email
  {
    set u | u in s.users && s.users[u].active && Lower(s.users[u].email) == email
  }

  /** The admin condition of `/login`: an ADMIN is refused only when an admin
      e-mail is configured and the account's lower-cased e-mail differs. */
  predicate AdminLoginRefused(payload: UserPayload, adminEmail: Option<string>) {
    payload.role == AdminRole && Truthy(adminEmail) && Lower(payload.email) != adminEmail.value
  }

  /** `POST /login`. The query has no ORDER BY; the model takes the match
      with the lowest id as "the first row". An unknown e-mail and a wrong
      password get the same answer. */
  function Login(s: Store, body: LoginBody, adminEmail: Option<string>,
                 compare: (string, string) -> bool, sign: UserPayload -> string): (r: AuthReply)
    ensures !Truthy(body.email) || !Truthy(body.password) ==> r == Rejected(400, LoginMissingMessage)
    ensures Truthy(body.email) && Truthy(body.password) && LoginMatches(s, NormalEmail(body.email.value)) == {}
      ==> r == Rejected(401, InvalidCredentialsMessage)
    ensures Truthy(body.email) && Truthy(body.password) && LoginMatches(s, NormalEmail(body.email.value)) != {} ==>
      var id := MinOf(LoginMatches(s, NormalEmail(body.email.value)));
      var p := UserPayload(id, s.users[id].name, s.users[id].email, s.users[id].role);
      && (!compare(body.password.value, s.users[id].passwordHash) ==> r == Rejected(401, InvalidCredentialsMessage))
      && ((compare(body.password.value, s.users[id].passwordHash) && AdminLoginRefused(p, adminEmail))
            ==> r == Rejected(403, AdminLoginMessage))
      && (r.Signed? <==> compare(body.password.value, s.users[id].passwordHash) && !AdminLoginRefused(p, adminEmail))
    ensures r.Signed? ==>
      && Truthy(body.email) && Truthy(body.password)
      && r.user.id in LoginMatches(s, NormalEmail(body.email.value))
      && (forall u :: u in LoginMatches(s, NormalEmail(body.email.value)) ==> r.user.id <= u)
      && compare(body.password.value, s.users[r.user.id].passwordHash)
      && r.user == UserPayload(r.user.id, s.users[r.user.id].name, s.users[r.user.id].email, s.users[r.user.id].role)
      && !AdminLoginRefused(r.user, adminEmail)
      && r.code == 200 && r.token == sign(r.user)
    ensures r.Rejected? ==> r.code in {400, 401, 403}
  {
    if !Truthy(body.email) || !Truthy(body.password) then Rejected(400, LoginMissingMessage)
    else
      var matches := LoginMatches(s, NormalEmail(body.email.value));
      if matches == {} then Rejected(401, InvalidCredentialsMessage)
      else
        var id := MinOf(matches);
        var u := s.users[id];
        if !compare(body.password.value, u.passwordHash) then Rejected(401, InvalidCredentialsMessage)
        else
          var payload := UserPayload(id, u.name, u.email, u.role);
          if AdminLoginRefused(payload, adminEmail) then Rejected(403, AdminLoginMessage)
          else Signed(200, sign(payload), payload)
  }

  /** A caller cannot tell an unknown (or inactive) account from a wrong
      password: both are answered with the same 401. */
  lemma UnknownEmailLooksLikeWrongPassword(s: Store, body: LoginBody, adminEmail: Option<string>,
                                           compare: (string, string) -> bool, sign: UserPayload -> string)
    requires Truthy(body.email) && Truthy(body.password)
    requires var m := LoginMatches(s, NormalEmail(body.email.value));
      m == {} || !compare(body.password.value, s.users[MinOf(m)].passwordHash)
    ensures Login(s, body, adminEmail, compare, sign) == Rejected(401, InvalidCredentialsMessage)
  {
  }

  /** The admin e-mail setting only matters for ADMIN accounts: when the
      account the e-mail finds first is not an ADMIN, every configuration
      gives the same answer; when it is, a configured e-mail other than its
      own turns a correct password into 403. */
  lemma AdminEmailOnlyGatesAdmins(s: Store, body: LoginBody, a1: Option<string>, a2: Option<string>,
                                  compare: (string, string) -> bool, sign: UserPayload -> string)
    requires Truthy(body.email) && Truthy(body.password)
    requires LoginMatches(s, NormalEmail(body.email.value)) != {}
    ensures var id := MinOf(LoginMatches(s, NormalEmail(body.email.value)));
      s.users[id].role != AdminRole ==> Login(s, body, a1, compare, sign) == Login(s, body, a2, compare, sign)
    ensures var id := MinOf(LoginMatches(s, NormalEmail(body.email.value)));
      && s.users[id].role == AdminRole && compare(body.password.value, s.users[id].passwordHash)
      && Truthy(a1) && Lower(s.users[id].email) != a1.value
      ==> Login(s, body, a1, compare, sign) == Rejected(403, AdminLoginMessage)
  {
  }

  /** After a successful registration the new account is the only active
      account the normalised e-mail finds. */
  lemma RegisteredIsOnlyMatch(s: Store, body: RegisterBody, hash: string -> string, sign: UserPayload -> string)
    requires EmailsNormal(s)
    requires Register(s, body, None, hash, sign).1.Signed?
    ensures LoginMatches(Register(s, body, None, hash, sign).0, NormalEmail(body.email.value)) == {s.nextUserId}
  {
    var s' := Register(s, body, None, hash, sign).0;
    var email := NormalEmail(body.email.value);
    assert !EmailTaken(s, email);
    forall u | u in s.users
      ensures Lower(s.users[u].email) != email
    {
      LowerCaseFixed(s.users[u].email);
    }
    LowerCaseFixed(email);
  }

  /** A login whose e-mail finds exactly one account, with a password the
      comparison accepts and no admin e-mail configured, signs in as it. */
  lemma LoginSingleMatch(s: Store, login: LoginBody, compare: (string, string) -> bool,
                         sign: UserPayload -> string, id: UserId)
    requires Truthy(login.email) && Truthy(login.password)
    requires LoginMatches(s, NormalEmail(login.email.value)) == {id}
    requires compare(login.password.value, s.users[id].passwordHash)
    ensures var p := UserPayload(id, s.users[id].name, s.users[id].email, s.users[id].role);
      Login(s, login, None, compare, sign) == Signed(200, sign(p), p)
  {
    var m := MinOf(LoginMatches(s, NormalEmail(login.email.value)));
    assert m in {id};
    var p := UserPayload(id, s.users[id].name, s.users[id].email, s.users[id].role);
    assert !AdminLoginRefused(p, None);
  }

  /** Whatever spelling the e-mail was registered with, logging in with the
      same password and any spelling that normalises to the same e-mail
      signs in as the new account, given a hash the comparison accepts. */
  lemma RegisterThenLogin(s: Store, body: RegisterBody, login: LoginBody,
                          hash: string -> string, compare: (string, string) -> bool,
                          sign: UserPayload -> string)
    requires EmailsNormal(s)
    requires forall p :: compare(p, hash(p))
    requires Register(s, body, None, hash, sign).1.Signed?
    requires Truthy(login.email) && login.password == body.password
    requires NormalEmail(login.email.value) == NormalEmail(body.email.value)
    ensures var r := Register(s, body, None, hash, sign);
      Login(r.0, login, None, compare, sign) == Signed(200, r.1.token, r.1.user)
  {
    var s' := Register(s, body, None, hash, sign).0;
    RegisteredIsOnlyMatch(s, body, hash, sign);
    assert compare(body.password.value, hash(body.password.value));
    LoginSingleMatch(s', login, compare, sign, s.nextUserId);
  }

  /** `POST /forgot-password`: a stub that never touches the store. */
  function ForgotPassword(email: Option<string>): (r: (nat, string))
    ensures Truthy(email) ==> r == (200, ForgotStubMessage)
    ensures !Truthy(email) ==> r == (400, ForgotMissingMessage)
  {
    if !Truthy(email) then (400, ForgotMissingMessage) else (200, ForgotStubMessage)
  }
}
