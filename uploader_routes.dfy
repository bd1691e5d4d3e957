/** The `/uploader` namespace (routes/uploader.js). */
module UploaderRoutes {
  import opened Values
  import opened Http
  import opened Sessions
  import opened Accounts
  import opened Auth

  datatype Route = LoginGet | LoginPost | Logout | Dashboard | UploadGet | UploadPost
    | VideoEditGet | VideoEditPost | VideoDelete

  function GuardOf(r: Route): Guard {
    match r
    case LoginGet | LoginPost | Logout => Open
    case _ => AdminRole(UploaderRole)
  }

  function Admit(r: Route, s: SessionView): GateResult {
    Apply(GuardOf(r), s)
  }

  predicate Gated(r: Route) {
    r !in {LoginGet, LoginPost, Logout}
  }

  /** Login and logout are open. */
  lemma LoginLogoutOpen(r: Route, s: SessionView)
    requires !Gated(r)
    ensures Admit(r, s).decision == Next
  {
  }

  /** Every other route admits exactly uploader and developer sessions (a
      missing role counts as developer); no admin session is sent to the
      admin login, and any other role is forbidden. */
  lemma GatedRoutesAdmitUploaderOrDeveloper(r: Route, s: SessionView)
    requires Gated(r)
    ensures Admit(r, s).decision == Next <==> s.admin && EffectiveRole(s) in {UploaderRole, DeveloperRole}
    ensures !s.admin ==> Admit(r, s).decision == Halt(Redirect("/admin/login"))
  {
  }

  /** An admin session carrying the role `user` is forbidden on every gated
      route. */
  lemma UserRoleForbidden(r: Route, s: SessionView)
    requires Gated(r) && s.admin && s.adminRole == Some(UserRole)
    ensures Admit(r, s).decision == Halt(Status(403))
  {
  }
}
