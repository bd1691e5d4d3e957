/** The admin handlers (controller/adminController.js): login with its
    role-based redirect, admin registration, the dashboards, user management,
    and the developer's video edit, delete and upload. */
module AdminController {
  import opened Values
  import opened Http
  import opened Accounts
  import opened VideoModel
  import opened QuestionModel
  import opened Store
  import opened Sessions
  import opened Auth
  import opened Uploads
  import opened OptionFields
  import UploaderRoutes

  // ------------------------------------------------------------- login

  /** Where a logged-in admin is sent: the uploader dashboard when the role,
      lower-cased, is `uploader`; the admin dashboard otherwise. */
  function AdminHome(role: string): (r: Reply)
    ensures r == Redirect("/uploader/dashboard") <==> ToLower(role) == UploaderRole
    ensures r != Redirect("/uploader/dashboard") ==> r == Redirect("/admin/dashboard")
  {
    if ToLower(role) == UploaderRole then Redirect("/uploader/dashboard") else Redirect("/admin/dashboard")
  }

  /** `login`: on success the session becomes an admin session whose role is
      the stored one, `developer` when it has none. */
  method AdminLogin(db: Db, session: Session, email: string, password: string) returns (reply: Reply)
    modifies session
    ensures match CheckCredentials(db.admins, email, password)
            case UnknownEmail =>
              reply == Render("admin/login", Some("Admin does not exist")) && session.View() == old(session.View())
            case WrongPassword =>
              reply == Render("admin/login", Some("Invalid password")) && session.View() == old(session.View())
            case LoggedIn(a) =>
              reply == AdminHome(Or(a.role, DeveloperRole))
              && session.View() == old(session.View()).(admin := true, adminRole := Some(Or(a.role, DeveloperRole)))
  {
    match CheckCredentials(db.admins, email, password) {
      case UnknownEmail =>
        reply := Render("admin/login", Some("Admin does not exist"));
      case WrongPassword =>
        reply := Render("admin/login", Some("Invalid password"));
      case LoggedIn(a) =>
        session.admin := true;
        session.adminRole := Some(Or(a.role, DeveloperRole));
        reply := AdminHome(Or(a.role, DeveloperRole));
    }
  }

  /** The session an admin login leaves always passes the admin-session gate
      and never carries an empty role. */
  lemma AdminLoginSessionIsAdmin(before: SessionView, a: Account)
    ensures var after := before.(admin := true, adminRole := Some(Or(a.role, DeveloperRole)));
            && CheckAdminSession(after).decision == Next
            && EffectiveRole(after) == Or(a.role, DeveloperRole)
            && (a.role.None? ==> CheckAdminRole(DeveloperRole, after).decision == Next)
  {
  }

  /** An admin stored with the role `Uploader` is sent to the uploader
      dashboard, whose gate compares roles exactly and so forbids them. */
  lemma CapitalisedUploaderIsBounced(before: SessionView)
    ensures AdminHome("Uploader") == Redirect("/uploader/dashboard")
    ensures var after := before.(admin := true, adminRole := Some("Uploader"));
            UploaderRoutes.Admit(UploaderRoutes.Dashboard, after).decision == Halt(Status(403))
  {
    assert ToLower("Uploader") == UploaderRole by {
      assert |ToLower("Uploader")| == 8;
      assert ToLower("Uploader")[0] == 'u';
    }
  }

  /** `logout`: the session is destroyed. */
  method AdminLogout(session: Session) returns (reply: Reply)
    modifies session
    ensures session.View() == Anonymous
    ensures reply == Redirect("/admin/login")
  {
    session.Destroy();
    reply := Redirect("/admin/login");
  }

  // ------------------------------------------------------------ register

  /** Where registration sends the browser: the uploader login when the
      submitted role, lower-cased, is `uploader`. */
  function RegisteredRedirect(role: Option<string>): (r: Reply)
    ensures r == Redirect("/uploader/login?success=registered") <==> ToLower(Or(role, "")) == UploaderRole
    ensures r != Redirect("/uploader/login?success=registered") ==> r == Redirect("/admin/login?success=registered")
  {
    if ToLower(Or(role, "")) == UploaderRole then Redirect("/uploader/login?success=registered")
    else Redirect("/admin/login?success=registered")
  }

  /** `registerAdmin`: check-then-insert on the email; the role defaults to
      `developer`. */
  method RegisterAdmin(db: Db, email: string, password: string, role: Option<string>) returns (reply: Reply)
    requires db.Valid()
    modifies db
    ensures db.Valid()
    ensures FindByEmail(old(db.admins), email).Some? ==>
              reply == Render("admin/register", Some("Admin already exists")) && db.admins == old(db.admins)
    ensures FindByEmail(old(db.admins), email).None? ==>
              reply == RegisteredRedirect(role)
              && db.admins == old(db.admins) + [Account(old(db.nextId), email, Hash(password), Some(Or(role, DeveloperRole)))]
    ensures db.users == old(db.users) && db.videos == old(db.videos) && db.questions == old(db.questions)
    ensures db.responses == old(db.responses)
  {
    if FindByEmail(db.admins, email).Some? {
      reply := Render("admin/register", Some("Admin already exists"));
    } else {
      var account := db.InsertAccount(Admins, email, Hash(password), Some(Or(role, DeveloperRole)));
      reply := RegisteredRedirect(role);
    }
  }

  // ---------------------------------------------------------- dashboards

  /** One row of the dashboard's account list (the formatted creation date
      is not modelled) */
  datatype AccountRow = AccountRow(id: Id, email: string, role: string, isUser: bool)

  /** `role: u.role || 'user'`, `isUser: (u.role || 'user') === 'user'` */
  function AccountRowOf(a: Account): (row: AccountRow)
    ensures row.id == a.id && row.email == a.email && row.role != ""
    ensures a.role.Some? && a.role.value != "" ==> row.role == a.role.value
    ensures !(a.role.Some? && a.role.value != "") ==> row.role == UserRole
    ensures row.isUser <==> a.role.None? || a.role == Some("") || a.role == Some(UserRole)
  {
    var role := Or(a.role, UserRole);
    AccountRow(a.id, a.email, role, role == UserRole)
  }

  function AccountRows(users: seq<Account>): (rows: seq<AccountRow>)
    ensures |rows| == |users| && forall i :: 0 <= i < |rows| ==> rows[i] == AccountRowOf(users[i])
  {
    seq(|users|, i requires 0 <= i < |users| => AccountRowOf(users[i]))
  }

  /** What the developer dashboard template receives */
  datatype DashboardPage = DashboardPage(accounts: seq<AccountRow>, videos: seq<Video>)

  /** The flash message chosen by `?success=` */
  function DashboardMessage(success: Option<string>): (m: Option<string>)
    ensures m.Some? <==> success == Some("deleted") || success == Some("updated")
  {
    if success == Some("deleted") then Some("User deleted successfully")
    else if success == Some("updated") then Some("User updated successfully")
    else None
  }

  /** `loadDashboard`: every user as a row and every video ascending by
      `order`. */
  method LoadDashboard(db: Db, s: SessionView, success: Option<string>) returns (reply: Reply, page: Option<DashboardPage>)
    ensures !s.admin ==> reply == Redirect("/admin/login") && page.None?
    ensures s.admin ==> reply == Render("admin/developerDashboard", DashboardMessage(success)) && page.Some?
                        && page.value.accounts == AccountRows(db.users)
                        && SortedByOrder(page.value.videos) && multiset(page.value.videos) == multiset(db.videos)
  {
    if !s.admin {
      reply, page := Redirect("/admin/login"), None;
    } else {
      var videos := SortByOrder(db.videos);
      reply := Render("admin/developerDashboard", DashboardMessage(success));
      page := Some(DashboardPage(AccountRows(db.users), videos));
    }
  }

  /** `loadDeveloperDashboard`: the same page, for developers only. */
  method LoadDeveloperDashboard(db: Db, s: SessionView) returns (reply: Reply, page: Option<DashboardPage>)
    ensures !s.admin ==> reply == Redirect("/admin/login") && page.None?
    ensures s.admin && EffectiveRole(s) != DeveloperRole ==> reply == Status(403) && page.None?
    ensures s.admin && EffectiveRole(s) == DeveloperRole ==>
              reply == Render("admin/developerDashboard", None) && page.Some?
              && page.value.accounts == AccountRows(db.users)
              && SortedByOrder(page.value.videos) && multiset(page.value.videos) == multiset(db.videos)
  {
    if !s.admin {
      reply, page := Redirect("/admin/login"), None;
    } else if EffectiveRole(s) != DeveloperRole {
      reply, page := Status(403), None;
    } else {
      var videos := SortByOrder(db.videos);
      reply := Render("admin/developerDashboard", None);
      page := Some(DashboardPage(AccountRows(db.users), videos));
    }
  }

  /** Behind `checkAdminRole('developer')` the handler's own checks never
      fire: whoever the gate lets through is a developer admin. */
  lemma DeveloperDashboardChecksRedundant(s: SessionView)
    requires CheckAdminRole(DeveloperRole, s).decision == Next
    ensures s.admin && EffectiveRole(s) == DeveloperRole
  {
  }

  // ----------------------------------------------------- user management

  /** `deleteUser` */
  method DeleteUser(db: Db, id: Id) returns (reply: Reply)
    requires db.Valid()
    modifies db
    ensures db.Valid()
    ensures reply == Redirect("/admin/dashboard?success=deleted")
    ensures db.users == match FindAccount(old(db.users), id)
                        case None => old(db.users)
                        case Some(i) => RemoveAt(old(db.users), i)
    ensures db.admins == old(db.admins) && db.videos == old(db.videos) && db.questions == old(db.questions)
    ensures db.responses == old(db.responses)
  {
    db.DeleteUser(id);
    reply := Redirect("/admin/dashboard?success=deleted");
  }

  /** `password && password.trim() !== ''` */
  predicate PasswordGiven(password: Option<string>) {
    password.Some? && Trim(password.value) != ""
  }

  /** A password counts as given exactly when it has a character that is not
      white space. */
  lemma PasswordGivenMeansNonBlank(password: Option<string>)
    ensures PasswordGiven(password) <==>
              password.Some? && exists k :: 0 <= k < |password.value| && !IsSpace(password.value[k])
  {
    if password.Some? {
      TrimBlank(password.value);
    }
  }

  /** `updateUser`: the email is always written, the password only when a
      non-blank one is given. */
  method UpdateUser(db: Db, id: Id, email: string, password: Option<string>) returns (reply: Reply)
    requires db.Valid()
    modifies db
    ensures db.Valid()
    ensures reply == Redirect("/admin/dashboard?success=updated")
    ensures db.users == match FindAccount(old(db.users), id)
                        case None => old(db.users)
                        case Some(i) =>
                          old(db.users)[i := old(db.users)[i].(email := email,
                            password := if PasswordGiven(password) then Hash(password.value) else old(db.users)[i].password)]
    ensures db.admins == old(db.admins) && db.videos == old(db.videos) && db.questions == old(db.questions)
    ensures db.responses == old(db.responses)
  {
    var digest := if PasswordGiven(password) then Some(Hash(password.value)) else None;
    db.UpdateUser(id, email, digest);
    reply := Redirect("/admin/dashboard?success=updated");
  }

  // ---------------------------------------------------------- video edit

  /** `Number(correctAnswer) || -1`: 0, like NaN, is falsy and becomes -1. */
  function AdminCorrectIndex(correctAnswer: Option<string>): (c: int)
    ensures c != 0
    ensures ToNumber(AsValue(correctAnswer)).Some? && ToNumber(AsValue(correctAnswer)).value != 0 ==>
              c == ToNumber(AsValue(correctAnswer)).value
    ensures ToNumber(AsValue(correctAnswer)).None? || ToNumber(AsValue(correctAnswer)) == Some(0) ==> c == -1
  {
    NumberOr(AsValue(correctAnswer), -1)
  }

  /** The slot texts of an admin edit: field `option{i}` for slot `i` */
  function AdminTexts(form: Form, existing: seq<string>): seq<string> {
    seq(Slots, i requires 0 <= i < Slots => Slot(Field(form, OptionName(i)), existing, i))
  }

  /** The `for` loop that fills `opts` */
  method AdminMergeOptions(form: Form, existing: seq<string>) returns (opts: seq<string>)
    ensures opts == AdminTexts(form, existing)
  {
    opts := [];
    for i := 0 to Slots
      invariant opts == AdminTexts(form, existing)[..i]
    {
      var val := Slot(Field(form, OptionName(i)), existing, i);
      assert AdminTexts(form, existing)[..i + 1] == AdminTexts(form, existing)[..i] + [val];
      opts := opts + [val];
    }
    assert AdminTexts(form, existing)[..Slots] == AdminTexts(form, existing);
  }

  /** The question as `updateVideo` rewrites it */
  function AdminEdited(q: Question, form: Form): Question {
    Revised(q,
            Or(Field(form, "questionText"), q.questionText),
            Mark(AdminTexts(form, StoredTexts(q)), Some(AdminCorrectIndex(Field(form, "correctAnswer")))),
            ShowAtOf(Field(form, "showAt")))
  }

  /** What an admin edit guarantees: four non-empty options, at most one of
      them correct and never the first, the old text kept when none is
      submitted, and a question that still validates. */
  lemma AdminEditedShape(q: Question, form: Form)
    requires ValidQuestion(q)
    ensures var e := AdminEdited(q, form);
            && ValidQuestion(e) && |e.options| == Slots
            && !e.options[0].isCorrect
            && (forall i, j :: 0 <= i < j < Slots ==> !(e.options[i].isCorrect && e.options[j].isCorrect))
            && (Field(form, "questionText").None? ==> e.questionText == q.questionText)
            && (e.showAt == During <==> Field(form, "showAt") == Some("during"))
            && e.id == q.id && e.videoId == q.videoId
  {
    var e := AdminEdited(q, form);
    var texts := AdminTexts(form, StoredTexts(q));
    forall i, j | 0 <= i < j < Slots ensures !(e.options[i].isCorrect && e.options[j].isCorrect) {
      MarkAtMostOne(texts, Some(AdminCorrectIndex(Field(form, "correctAnswer"))), i, j);
    }
  }

  /** Submitting `0` as the correct answer marks no option at all. */
  lemma AdminZeroMarksNone(q: Question, form: Form)
    requires Field(form, "correctAnswer") == Some("0")
    ensures forall i :: 0 <= i < |AdminEdited(q, form).options| ==> !AdminEdited(q, form).options[i].isCorrect
  {
    assert StringToNumber("0") == Some(0) by {
      assert NatToString(0) == "0";
      NumberOfNatString(0);
    }
    var c := AdminCorrectIndex(Field(form, "correctAnswer"));
    assert c == -1;
    var texts := AdminTexts(form, StoredTexts(q));
    forall i | 0 <= i < |AdminEdited(q, form).options| ensures !AdminEdited(q, form).options[i].isCorrect {
      MarkAtMostOne(texts, Some(c), i, i);
    }
  }

  /** `updateVideo`: title and order are written, then the video's question,
      if there is one, is rewritten and saved. */
  method AdminUpdateVideo(db: Db, id: Id, form: Form) returns (reply: Reply)
    requires db.Valid()
    modifies db
    ensures db.Valid()
    ensures reply == Redirect("/admin/developer")
    ensures db.videos == match FindVideo(old(db.videos), id)
                         case None => old(db.videos)
                         case Some(i) => old(db.videos)[i := WithMeta(old(db.videos)[i], Field(form, "title"),
                                                                      NumberOr(AsValue(Field(form, "order")), 0))]
    ensures db.questions == match FindQuestionOf(old(db.questions), id)
                            case None => old(db.questions)
                            case Some(i) => old(db.questions)[i := AdminEdited(old(db.questions)[i], form)]
    ensures db.users == old(db.users) && db.admins == old(db.admins) && db.responses == old(db.responses)
  {
    db.UpdateVideoMeta(id, Field(form, "title"), NumberOr(AsValue(Field(form, "order")), 0));
    match FindQuestionOf(db.questions, id) {
      case None =>
        reply := Redirect("/admin/developer");
      case Some(i) =>
        var q := db.questions[i];
        var texts := AdminMergeOptions(form, StoredTexts(q));
        AdminEditedShape(q, form);
        var ok := db.SaveQuestion(i, Or(Field(form, "questionText"), q.questionText),
                                  Mark(texts, Some(AdminCorrectIndex(Field(form, "correctAnswer")))),
                                  ShowAtOf(Field(form, "showAt")));
        reply := if ok then Redirect("/admin/developer") else Status(500);
    }
  }

  /** `deleteVideo`: the cascade; the reply is the same whether or not the
      video existed. */
  method AdminDeleteVideo(db: Db, id: Id) returns (reply: Reply)
    requires db.Valid()
    modifies db
    ensures db.Valid()
    ensures reply == Redirect("/admin/developer")
    ensures id !in KeySet(old(db.videos), VideoKey) ==> db.videos == old(db.videos) && db.questions == old(db.questions)
    ensures id in KeySet(old(db.videos), VideoKey) ==>
              db.videos == RemoveAt(old(db.videos), FindVideo(old(db.videos), id).value)
              && db.questions == WithoutQuestionOf(old(db.questions), id)
    ensures FindVideo(db.videos, id).None? && FindQuestionOf(db.questions, id).None?
    ensures db.users == old(db.users) && db.admins == old(db.admins) && db.responses == old(db.responses)
  {
    var found := db.DeleteVideoCascade(id);
    reply := Redirect("/admin/developer");
  }

  // -------------------------------------------------------------- upload

  /** `handleUpload` behind `multer({ dest })`: any file is taken under
      multer's random name; the video is saved with the form's metadata. */
  method AdminHandleUpload(db: Db, part: Option<UploadedFile>, randomName: string, form: Form, now: int)
    returns (reply: Reply)
    requires db.Valid()
    modifies db
    ensures db.Valid()
    ensures part.None? ==> reply == Status(400) && db.videos == old(db.videos)
    ensures part.Some? ==>
              var m := MetadataOf(form, part.value.originalname);
              && (m.title != "" ==>
                    reply == Redirect("/admin/developer")
                    && db.videos == old(db.videos) + [NewVideo(old(db.nextId), m.title, VideoPath(randomName), m.duration, m.order, now)])
              && (m.title == "" ==> reply == Status(500) && db.videos == old(db.videos))
    ensures db.users == old(db.users) && db.admins == old(db.admins) && db.questions == old(db.questions)
    ensures db.responses == old(db.responses)
  {
    match ReceiveAny(part, randomName) {
      case Stored(f, filename) =>
        var m := MetadataOf(form, f.originalname);
        var saved := db.InsertVideo(m.title, VideoPath(filename), m.duration, m.order, now);
        reply := if saved.Some? then Redirect("/admin/developer") else Status(500);
      case _ =>
        reply := Status(400);
    }
  }
}
