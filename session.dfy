/** The per-request session (`req.session`): what the login handlers write
    and the gates read. */
module Sessions {
  import opened Values

  /** A snapshot of the session fields. `user` and `admin` hold the truthiness
      of `session.user` and `session.admin`; `adminRole` is None when unset. */
  datatype SessionView = SessionView(
    user: bool,
    userId: Option<Id>,
    admin: bool,
    adminRole: Option<string>,
    adminId: Option<Id>)

  const Anonymous := SessionView(false, None, false, None, None)

  class Session {
    var user: bool
    var userId: Option<Id>
    var admin: bool
    var adminRole: Option<string>
    var adminId: Option<Id>

    function View(): SessionView
      reads this
    {
      SessionView(user, userId, admin, adminRole, adminId)
    }

    constructor ()
      ensures View() == Anonymous
    {
      user, userId, admin, adminRole, adminId := false, None, false, None, None;
    }

    /** `req.session.destroy(...)`: the next request starts from an empty
        session. */
    method Destroy()
      modifies this
      ensures View() == Anonymous
    {
      user, userId, admin, adminRole, adminId := false, None, false, None, None;
    }
  }
}
