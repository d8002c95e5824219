/** The landing page: the three-exhibition spotlight, the role-to-page map
    used after signing in or registering, and the registration form's
    checks. The account calls themselves are parameters: their outcome is
    what the authentication context answers. */
module Home {

  import opened Wrappers
  import opened Text
  import opened Collections
  import ClientApp

  // -------------------------------------------------------------- spotlight

  /** An exhibition; `createdAt` is its timestamp, `None` when missing or empty. */
  datatype Exhibition = Exhibition(id: int, title: string, createdAt: Option<int>)

  const SpotlightSize := 3

  /** `new Date(e.createdAt || 0)`: a missing timestamp counts as time 0. */
  function CreatedKey(e: Exhibition): Key {
    Key(e.createdAt.GetOr(0), 0)
  }

  /** `spotlightExhibitions`: a sorted copy, newest first, cut to three. */
  function Spotlight(exhibitions: seq<Exhibition>): (r: seq<Exhibition>)
    ensures |r| == if |exhibitions| < SpotlightSize then |exhibitions| else SpotlightSize
    ensures SortedDesc(r, CreatedKey)
    ensures multiset(r) <= multiset(exhibitions)
    ensures forall y, i :: y in multiset(exhibitions) - multiset(r) && 0 <= i < |r| ==> KeyGe(CreatedKey(r[i]), CreatedKey(y))
  {
    var sorted := SortDesc(exhibitions, CreatedKey);
    var n := if |sorted| < SpotlightSize then |sorted| else SpotlightSize;
    PrefixIsTop(sorted, n, CreatedKey);
    sorted[..n]
  }

  /** The newest exhibition, when it is strictly newer than all others, is
      in the spotlight. */
  lemma SpotlightHoldsNewest(exhibitions: seq<Exhibition>, k: nat)
    requires k < |exhibitions|
    requires forall j :: 0 <= j < |exhibitions| ==> CreatedKey(exhibitions[j]).major < CreatedKey(exhibitions[k]).major || j == k
    ensures exhibitions[k] in Spotlight(exhibitions)
  {
    var r := Spotlight(exhibitions);
    var y := exhibitions[k];
    assert |r| > 0;
    var z := r[0];
    assert z in multiset(r);
    assert z in multiset(exhibitions);
    var j :| 0 <= j < |exhibitions| && exhibitions[j] == z;
    if j != k {
      assert !KeyGe(CreatedKey(z), CreatedKey(y));
      assert y in multiset(exhibitions);
      assert y !in multiset(exhibitions) - multiset(r);
    }
  }

  // ------------------------------------------------------------- role paths

  const DefaultPath := "/gallery"

  const RolePaths: map<string, string> := map[
    "Admin" := "/admin",
    "Artist" := "/artist",
    "Visitor" := "/visitor",
    "Curator" := "/curator"
  ]

  /** `{ Admin: '/admin', ... }[role] || '/gallery'`. */
  function RolePath(role: string): (r: string)
    ensures role in RolePaths <==> r != DefaultPath
    ensures role in RolePaths ==> r == "/" + Lower(role)
  {
    if role in RolePaths then
      assert Lower("Admin") == "admin";
      assert Lower("Artist") == "artist";
      assert Lower("Visitor") == "visitor";
      assert Lower("Curator") == "curator";
      RolePaths[role]
    else DefaultPath
  }

  /** A server role, once displayed in normalised form, leads to the page
      named after it whenever the map knows the displayed form. */
  lemma RolePathOfServerRole(role: string)
    requires ClientApp.NormalizeRole(Some(role)) in RolePaths
    ensures RolePath(ClientApp.NormalizeRole(Some(role))) == "/" + Lower(role)
  {
    var d := ClientApp.NormalizeRole(Some(role));
    assert Lower(d) == Lower(role) by {
      LowerIsLowerCase(role[1..]);
      forall i | 0 <= i < |d| ensures Lower(d)[i] == Lower(role)[i] {
        if i > 0 {
          assert d[i] == Lower(role[1..])[i - 1];
        }
      }
    }
  }

  /** The server's own spelling of a role is not a key of the map. */
  lemma RawServerRoleFallsBack()
    ensures RolePath("ADMIN") == DefaultPath
  {
  }

  // ------------------------------------------------------------ registering

  datatype RegisterForm = RegisterForm(name: string, email: string, password: string, confirmPassword: string, mobile: string)

  /** The arguments `register` is called with. */
  datatype RegisterCall = RegisterCall(name: string, email: string, password: string, role: string, mobile: string)

  /** What the account call answers: the signed-in user's role, or a thrown
      error with its message (`None` when it has none). */
  datatype AccountOutcome = SignedIn(role: string) | Failed(message: Option<string>)

  /** The page state after a handler has finished. */
  datatype PageState = PageState(error: string, loading: bool, navigate: Option<string>)

  const MissingFieldsMessage := "Please fill in all required fields"
  const PasswordMismatchMessage := "Passwords do not match"
  const ShortPasswordMessage := "Password must be at least 6 characters"
  const RegisterFailedMessage := "Registration failed. Please try again."
  const LoginFailedMessage := "Login failed. Please try again."
  const MinPasswordLength := 6

  /** The outcome of an awaited account call, as both handlers handle it. */
  function Settle(outcome: AccountOutcome, fallback: string): (r: PageState)
    ensures !r.loading
    ensures outcome.SignedIn? ==> r.navigate == Some(RolePath(outcome.role)) && r.error == ""
    ensures outcome.Failed? ==> r.navigate.None? && r.error == OrElse(outcome.message, fallback)
  {
    match outcome
      case SignedIn(role) => PageState("", false, Some(RolePath(role)))
      case Failed(message) => PageState(OrElse(message, fallback), false, None)
  }

  /** `handleRegister`: three checks in order, the first failure answering;
      only when all pass is `register` called. */
  function HandleRegister(form: RegisterForm, selectedRole: string, outcome: AccountOutcome): (r: (PageState, Option<RegisterCall>))
    ensures !r.0.loading
    ensures r.1.Some? <==> form.name != "" && form.email != "" && form.password != ""
                           && form.password == form.confirmPassword && |form.password| >= MinPasswordLength
    ensures form.name == "" || form.email == "" || form.password == "" ==> r.0.error == MissingFieldsMessage
    ensures form.name != "" && form.email != "" && form.password != "" && form.password != form.confirmPassword
      ==> r.0.error == PasswordMismatchMessage
    ensures form.name != "" && form.email != "" && form.password != "" && form.password == form.confirmPassword
            && |form.password| < MinPasswordLength
      ==> r.0.error == ShortPasswordMessage
    ensures r.1.None? ==> r.0.navigate.None?
    ensures r.1.Some? ==>
      && r.1.value == RegisterCall(form.name, form.email, form.password, selectedRole, form.mobile)
      && r.0 == Settle(outcome, RegisterFailedMessage)
  {
    if form.name == "" || form.email == "" || form.password == "" then (PageState(MissingFieldsMessage, false, None), None)
    else if form.password != form.confirmPassword then (PageState(PasswordMismatchMessage, false, None), None)
    else if |form.password| < MinPasswordLength then (PageState(ShortPasswordMessage, false, None), None)
    else
      (Settle(outcome, RegisterFailedMessage),
       Some(RegisterCall(form.name, form.email, form.password, selectedRole, form.mobile)))
  }

  /** The length bound is inclusive: a six-character password that is
      confirmed gets through, a five-character one does not. */
  lemma SixCharactersSuffice(name: string, email: string, mobile: string, role: string, outcome: AccountOutcome)
    requires name != "" && email != ""
    ensures HandleRegister(RegisterForm(name, email, "abcdef", "abcdef", mobile), role, outcome).1.Some?
    ensures HandleRegister(RegisterForm(name, email, "abcde", "abcde", mobile), role, outcome).0.error == ShortPasswordMessage
  {
  }

  /** `handleLogin`, called by the sign-in form with the checked credentials. */
  function HandleLogin(outcome: AccountOutcome): (r: PageState)
    ensures !r.loading
    ensures r.navigate.Some? <==> outcome.SignedIn?
    ensures outcome.SignedIn? ==> r.navigate == Some(RolePath(outcome.role)) && r.error == ""
    ensures outcome.Failed? ==> r.error == OrElse(outcome.message, LoginFailedMessage)
  {
    Settle(outcome, LoginFailedMessage)
  }
}
