/** The client-side route gate. It decides between the loading view, a
    redirect to the landing page, and the protected page itself, from the
    session the authentication context holds. */
module ProtectedRoute {

  import opened Wrappers
  import opened Text

  /** The signed-in user as the gate sees them: only the role matters. */
  datatype SessionUser = SessionUser(role: string)

  datatype View = LoadingView | Redirect(to: string) | Render

  const Landing := "/"

  /** `ProtectedRoute({ children, requiredRole = null })`. An empty required
      role is falsy and so imposes nothing; the role comparison is exact. */
  function Gate(loading: bool, user: Option<SessionUser>, requiredRole: Option<string>): (r: View)
    ensures loading ==> r == LoadingView
    ensures !loading && user.None? ==> r == Redirect(Landing)
    ensures !loading && user.Some? && Truthy(requiredRole) && user.value.role != requiredRole.value ==> r == Redirect(Landing)
    ensures r == Render <==> !loading && user.Some? && (!Truthy(requiredRole) || user.value.role == requiredRole.value)
    ensures r.Redirect? ==> r.to == Landing
  {
    if loading then LoadingView
    else if user.None? then Redirect(Landing)
    else if Truthy(requiredRole) && user.value.role != requiredRole.value then Redirect(Landing)
    else Render
  }

  /** A page that asks for a role is never shown to someone a page without
      the requirement would turn away. */
  lemma RequirementOnlyNarrows(loading: bool, user: Option<SessionUser>, role: string)
    ensures Gate(loading, user, Some(role)) == Render ==> Gate(loading, user, None) == Render
  {
  }

  /** The display role is what the gate compares: a user whose role was
      normalised from the server's upper-case form does not pass a gate
      that names that upper-case form. */
  lemma UpperCaseRequirementRefusesDisplayRole(user: SessionUser)
    requires user.role == "Admin"
    ensures Gate(false, Some(user), Some("ADMIN")) == Redirect(Landing)
  {
  }
}
