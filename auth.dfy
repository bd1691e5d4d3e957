/** The session gates of middleware/auth.js. Each gate either hands the
    request on (`next()`) or answers it; the first three also mark the answer
    as not cacheable. */
module Auth {
  import opened Values
  import opened Http
  import opened Sessions
  import opened Accounts

  datatype Decision = Next | Halt(reply: Reply)

  /** A gate's decision, and whether it set the no-cache headers */
  datatype GateResult = GateResult(decision: Decision, noCache: bool)

  /** `checkSession`: only a logged-in end user passes. */
  function CheckSession(s: SessionView): (g: GateResult)
    ensures g.noCache
    ensures g.decision == Next <==> s.user
    ensures !s.user ==> g.decision == Halt(Redirect("/user/login"))
  {
    if s.user then GateResult(Next, true) else GateResult(Halt(Redirect("/user/login")), true)
  }

  /** `isLogin`: a logged-in end user is sent home, anyone else passes. */
  function IsLogin(s: SessionView): (g: GateResult)
    ensures g.noCache
    ensures g.decision == Next <==> !s.user
    ensures s.user ==> g.decision == Halt(Redirect("/user/home"))
  {
    if s.user then GateResult(Halt(Redirect("/user/home")), true) else GateResult(Next, true)
  }

  /** `checkAdminSession`: any admin session passes, whatever its role. */
  function CheckAdminSession(s: SessionView): (g: GateResult)
    ensures g.noCache
    ensures g.decision == Next <==> s.admin
    ensures !s.admin ==> g.decision == Halt(Redirect("/admin/login"))
  {
    if s.admin then GateResult(Next, true) else GateResult(Halt(Redirect("/admin/login")), true)
  }

  /** `req.session.adminRole || 'developer'`: a missing role counts as developer. */
  function EffectiveRole(s: SessionView): string {
    Or(s.adminRole, DeveloperRole)
  }

  /** `checkAdminRole(required)`: no admin session is redirected to the admin
      login; an admin session passes when its role is the required one or
      developer, and is otherwise forbidden (403, not a redirect). No
      cache headers are set. */
  function CheckAdminRole(required: string, s: SessionView): (g: GateResult)
    ensures !g.noCache
    ensures !s.admin ==> g.decision == Halt(Redirect("/admin/login"))
    ensures s.admin ==> (g.decision == Next <==> EffectiveRole(s) == required || EffectiveRole(s) == DeveloperRole)
    ensures s.admin && g.decision != Next ==> g.decision == Halt(Status(403))
  {
    if !s.admin then GateResult(Halt(Redirect("/admin/login")), false)
    else
      var role := EffectiveRole(s);
      if role == required || role == DeveloperRole then GateResult(Next, false)
      else GateResult(Halt(Status(403)), false)
  }

  /** The gates a route can be put behind */
  datatype Guard = Open | UserSession | GuestOnly | AdminSession | AdminRole(required: string)

  function Apply(guard: Guard, s: SessionView): GateResult {
    match guard
    case Open => GateResult(Next, false)
    case UserSession => CheckSession(s)
    case GuestOnly => IsLogin(s)
    case AdminSession => CheckAdminSession(s)
    case AdminRole(required) => CheckAdminRole(required, s)
  }

  /** `isLogin` is the exact inverse of `checkSession`: whoever one lets
      through, the other turns away. */
  lemma IsLoginInvertsCheckSession(s: SessionView)
    ensures (CheckSession(s).decision == Next) <==> (IsLogin(s).decision != Next)
  {
  }

  /** Developer outranks every role: a developer session, and an admin session
      with no role, passes every role check. */
  lemma DeveloperPassesEveryRole(required: string, s: SessionView)
    requires s.admin && (s.adminRole == Some(DeveloperRole) || s.adminRole == None || s.adminRole == Some(""))
    ensures CheckAdminRole(required, s).decision == Next
  {
  }

  /** An uploader session passes a role check exactly when the required role
      is uploader, and is forbidden (not redirected) everywhere else. */
  lemma UploaderPassesOnlyUploader(required: string, s: SessionView)
    requires s.admin && s.adminRole == Some(UploaderRole)
    ensures CheckAdminRole(required, s).decision == Next <==> required == UploaderRole
    ensures CheckAdminRole(required, s).decision != Next ==> CheckAdminRole(required, s).decision == Halt(Status(403))
  {
  }

  /** A session that passes two different role checks is a developer session:
      developer is the only role above another. */
  lemma TwoRolesMeanDeveloper(r1: string, r2: string, s: SessionView)
    requires r1 != r2
    requires CheckAdminRole(r1, s).decision == Next && CheckAdminRole(r2, s).decision == Next
    ensures EffectiveRole(s) == DeveloperRole
  {
  }

  /** Every role check is at least as strict as the plain admin-session check. */
  lemma RoleCheckImpliesAdminSession(required: string, s: SessionView)
    requires CheckAdminRole(required, s).decision == Next
    ensures CheckAdminSession(s).decision == Next
  {
  }

  /** `checkAdminRole` is the only gate that sets no no-cache headers of its
      own (the application-wide `nocache()` still covers its responses). */
  lemma OnlyRoleCheckIsCacheable(g: Guard, s: SessionView)
    requires g != Open
    ensures !Apply(g, s).noCache <==> g.AdminRole?
  {
  }
}
