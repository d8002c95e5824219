/** The server's request gates: `authenticate` turns an `Authorization`
    header into the caller's claims, and `requireRoles` decides whether those
    claims may reach a route. The token verifier is unseen code and is a
    parameter: it answers `None` where the real one throws. */
module Access {

  import opened Wrappers
  import opened Text

  /** The payload a verified token carries. */
  datatype Claims = Claims(id: nat, role: string, email: Option<string>)

  /** A gate either lets the request through with the caller's claims or
      answers it with a status code and message. */
  datatype Gate = Pass(user: Claims) | Deny(code: nat, message: string)

  const BearerPrefix := "Bearer "
  const MissingTokenMessage := "Missing or invalid authorization token"
  const BadTokenMessage := "Invalid or expired token"
  const UnauthorizedMessage := "Unauthorized"
  const RoleMessage := "Insufficient role permissions"
  const AdminAccountMessage := "Admin access denied for this account"
  const Admin := "ADMIN"

  /** The server configuration defines no admin email, so at run time the
      admin-email gate is never armed. */
  const ConfiguredAdminEmail: Option<string> := None

  /** A header the gate hands to the verifier: present, non-empty and
      starting with the bearer prefix. */
  predicate HasBearer(header: Option<string>) {
    Truthy(header) && StartsWith(header.value, BearerPrefix)
  }

  /** The token part of a bearer header: everything after the seven-character prefix. */
  function TokenOf(header: Option<string>): (t: string)
    requires HasBearer(header)
    ensures header.value == BearerPrefix + t
  {
    header.value[|BearerPrefix|..]
  }

  /** `authenticate`. */
  function Authenticate(header: Option<string>, verify: string -> Option<Claims>): (r: Gate)
    ensures !HasBearer(header) ==> r == Deny(401, MissingTokenMessage)
    ensures HasBearer(header) && verify(TokenOf(header)).None? ==> r == Deny(401, BadTokenMessage)
    ensures r.Pass? <==> HasBearer(header) && verify(TokenOf(header)).Some?
    ensures r.Pass? ==> r.user == verify(TokenOf(header)).value
    ensures r.Deny? ==> r.code == 401
  {
    if !HasBearer(header) then Deny(401, MissingTokenMessage)
    else match verify(TokenOf(header))
      case None => Deny(401, BadTokenMessage)
      case Some(claims) => Pass(claims)
  }

  /** A header without the bearer prefix is answered without consulting the
      verifier: every verifier gives the same answer. */
  lemma BadHeaderSkipsVerifier(header: Option<string>, verify: string -> Option<Claims>, other: string -> Option<Claims>)
    requires !HasBearer(header)
    ensures Authenticate(header, verify) == Authenticate(header, other)
  {
  }

  /** The answer depends on the verifier only through what it says about
      the token after the prefix. */
  lemma VerifierSeesOnlyToken(header: Option<string>, verify: string -> Option<Claims>, other: string -> Option<Claims>)
    requires HasBearer(header) && verify(TokenOf(header)) == other(TokenOf(header))
    ensures Authenticate(header, verify) == Authenticate(header, other)
  {
  }

  /** The extra check for admin routes: it fires only when the route admits
      ADMIN, the caller is ADMIN, an admin email is configured, and the
      caller's lower-cased email (absent counts as different) is not it. */
  predicate AdminEmailMismatch(roles: seq<string>, user: Claims, adminEmail: Option<string>) {
    && Admin in roles
    && user.role == Admin
    && Truthy(adminEmail)
    && (user.email.None? || Lower(user.email.value) != adminEmail.value)
  }

  /** `requireRoles(...roles)`, applied to the claims `authenticate` left
      on the request (`None` when there are none). */
  function RequireRoles(roles: seq<string>, user: Option<Claims>, adminEmail: Option<string>): (r: Gate)
    ensures user.None? ==> r == Deny(401, UnauthorizedMessage)
    ensures user.Some? && user.value.role !in roles ==> r == Deny(403, RoleMessage)
    ensures user.Some? && user.value.role in roles && AdminEmailMismatch(roles, user.value, adminEmail)
      ==> r == Deny(403, AdminAccountMessage)
    ensures r.Pass? <==> user.Some? && user.value.role in roles && !AdminEmailMismatch(roles, user.value, adminEmail)
    ensures r.Pass? ==> r.user == user.value
  {
    if user.None? then Deny(401, UnauthorizedMessage)
    else if user.value.role !in roles then Deny(403, RoleMessage)
    else if AdminEmailMismatch(roles, user.value, adminEmail) then Deny(403, AdminAccountMessage)
    else Pass(user.value)
  }

  /** `authenticate` followed by `requireRoles(...roles)`, as a router mounts them. */
  function Guard(header: Option<string>, verify: string -> Option<Claims>, roles: seq<string>, adminEmail: Option<string>): (r: Gate)
    ensures r.Pass? <==>
      && Authenticate(header, verify).Pass?
      && Authenticate(header, verify).user.role in roles
      && !AdminEmailMismatch(roles, Authenticate(header, verify).user, adminEmail)
    ensures Authenticate(header, verify).Deny? ==> r == Authenticate(header, verify)
  {
    match Authenticate(header, verify)
      case Deny(code, message) => Deny(code, message)
      case Pass(claims) => RequireRoles(roles, Some(claims), adminEmail)
  }

  /** With the configuration the server actually has, the admin-email check
      never denies: a role gate passes exactly the callers whose role is listed. */
  lemma RuntimeAdminGateOpen(roles: seq<string>, user: Claims)
    ensures RequireRoles(roles, Some(user), ConfiguredAdminEmail).Pass? <==> user.role in roles
  {
  }

  /** Role comparison is exact: a lower-case spelling of a listed role is refused. */
  lemma RoleMatchIsCaseSensitive(user: Claims)
    requires user.role == "admin"
    ensures RequireRoles([Admin], Some(user), ConfiguredAdminEmail) == Deny(403, RoleMessage)
  {
  }

  /** When an admin email is configured, an ADMIN passes an ADMIN-only gate
      exactly when their email, lower-cased, is the configured one. */
  lemma AdminGateMatchesEmail(user: Claims, adminEmail: string)
    requires user.role == Admin && adminEmail != ""
    ensures RequireRoles([Admin], Some(user), Some(adminEmail)).Pass? <==>
      user.email.Some? && Lower(user.email.value) == adminEmail
  {
  }
}
