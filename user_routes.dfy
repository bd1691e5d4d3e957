/** The `/user` namespace (routes/user.js): which gate stands before each
    handler. */
module UserRoutes {
  import opened Values
  import opened Http
  import opened Sessions
  import opened Auth

  datatype Route = LoginGet | LoginPost | RegisterGet | RegisterPost | Home | Logout | Videos | SubmitAnswer

  function GuardOf(r: Route): Guard {
    match r
    case LoginGet | LoginPost | RegisterGet | RegisterPost => Open
    case Home | Logout | Videos | SubmitAnswer => UserSession
  }

  function Admit(r: Route, s: SessionView): GateResult {
    Apply(GuardOf(r), s)
  }

  /** Login and registration are open to everyone, a logged-in user included:
      `isLogin` is not mounted on them. */
  lemma LoginAndRegisterOpen(r: Route, s: SessionView)
    requires r in {LoginGet, LoginPost, RegisterGet, RegisterPost}
    ensures Admit(r, s).decision == Next
  {
  }

  /** Home, logout, the feed and answer submission need a logged-in user;
      anyone else is sent to the login page. */
  lemma FeedRoutesNeedUser(r: Route, s: SessionView)
    requires r in {Home, Logout, Videos, SubmitAnswer}
    ensures Admit(r, s).decision == Next <==> s.user
    ensures !s.user ==> Admit(r, s).decision == Halt(Redirect("/user/login"))
  {
  }

  /** So when `submitAnswer` runs through this router, its own
      `req.session.user` check always holds. */
  lemma SubmitAnswerSeesUser(s: SessionView)
    requires Admit(SubmitAnswer, s).decision == Next
    ensures s.user
  {
  }
}
