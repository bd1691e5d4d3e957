/** The `/admin` namespace (routes/admin.js), including the first-admin
    bootstrap of `/register`. */
module AdminRoutes {
  import opened Values
  import opened Http
  import opened Sessions
  import opened Accounts
  import opened Auth
  import opened Store
  import AdminController

  datatype Route = LoginGet | LoginPost | RegisterGet | RegisterPost | Dashboard | Developer
    | UserEditGet | UserEditPost | UserDelete | VideoEditGet | VideoEditPost | VideoDelete
    | UploadGet | UploadPost | TestModels | Logout

  /** `/register` is open while the admin collection is empty and needs a
      developer otherwise. */
  function RegisterGuard(adminCount: nat): Guard {
    if adminCount == 0 then Open else AdminRole(DeveloperRole)
  }

  function GuardOf(r: Route, adminCount: nat): Guard {
    match r
    case LoginGet | LoginPost => Open
    case RegisterGet | RegisterPost => RegisterGuard(adminCount)
    case Dashboard | UserEditGet | UserEditPost | UserDelete | TestModels | Logout => AdminSession
    case Developer | VideoEditGet | VideoEditPost | VideoDelete | UploadGet | UploadPost => AdminRole(DeveloperRole)
  }

  function Admit(r: Route, adminCount: nat, s: SessionView): GateResult {
    Apply(GuardOf(r, adminCount), s)
  }

  predicate DeveloperOnly(r: Route) {
    r in {Developer, VideoEditGet, VideoEditPost, VideoDelete, UploadGet, UploadPost}
  }

  predicate AnyAdmin(r: Route) {
    r in {Dashboard, UserEditGet, UserEditPost, UserDelete, TestModels, Logout}
  }

  /** With no admin stored, anyone may register one, logged in or not. */
  lemma BootstrapOpen(r: Route, s: SessionView)
    requires r == RegisterGet || r == RegisterPost
    ensures Admit(r, 0, s).decision == Next
  {
  }

  /** Once an admin exists, registering needs a developer session (or one
      without a role); an uploader is forbidden and a visitor is sent to the
      admin login. */
  lemma BootstrapClosed(r: Route, adminCount: nat, s: SessionView)
    requires r == RegisterGet || r == RegisterPost
    requires adminCount > 0
    ensures Admit(r, adminCount, s).decision == Next <==> s.admin && EffectiveRole(s) == DeveloperRole
    ensures !s.admin ==> Admit(r, adminCount, s).decision == Halt(Redirect("/admin/login"))
    ensures s.admin && s.adminRole == Some(UploaderRole) ==> Admit(r, adminCount, s).decision == Halt(Status(403))
  {
  }

  /** Developer-only routes forbid an uploader session outright (403, not a
      redirect) and admit a developer. */
  lemma DeveloperRoutesForbidUploader(r: Route, adminCount: nat, s: SessionView)
    requires DeveloperOnly(r) && s.admin
    ensures s.adminRole == Some(UploaderRole) ==> Admit(r, adminCount, s).decision == Halt(Status(403))
    ensures Admit(r, adminCount, s).decision == Next <==> EffectiveRole(s) == DeveloperRole
  {
  }

  /** Dashboard, user management, the model check and logout admit any admin
      session, whatever its role. */
  lemma AnyAdminRoutes(r: Route, adminCount: nat, s: SessionView)
    requires AnyAdmin(r)
    ensures Admit(r, adminCount, s).decision == Next <==> s.admin
  {
  }

  /** `POST /register`: `countDocuments()` on the admins decides whether the
      controller runs directly or behind `checkAdminRole('developer')`. A
      refused request stores nothing. */
  method PostRegister(db: Db, s: SessionView, email: string, password: string, role: Option<string>)
    returns (reply: Reply)
    requires db.Valid()
    modifies db
    ensures db.Valid()
    ensures var gate := Admit(RegisterPost, |old(db.admins)|, s).decision;
            && (gate.Halt? ==> reply == gate.reply && db.admins == old(db.admins))
            && (gate == Next && FindByEmail(old(db.admins), email).Some? ==>
                  reply == Render("admin/register", Some("Admin already exists")) && db.admins == old(db.admins))
            && (gate == Next && FindByEmail(old(db.admins), email).None? ==>
                  reply == AdminController.RegisteredRedirect(role)
                  && db.admins == old(db.admins) + [Account(old(db.nextId), email, Hash(password), Some(Or(role, DeveloperRole)))])
    ensures db.users == old(db.users) && db.videos == old(db.videos) && db.questions == old(db.questions)
    ensures db.responses == old(db.responses)
  {
    var gate := Admit(RegisterPost, |db.admins|, s).decision;
    if gate.Halt? {
      reply := gate.reply;
    } else {
      reply := AdminController.RegisterAdmin(db, email, password, role);
    }
  }

  /** Login is open. */
  lemma LoginOpen(r: Route, adminCount: nat, s: SessionView)
    requires r == LoginGet || r == LoginPost
    ensures Admit(r, adminCount, s).decision == Next
  {
  }
}
