/** The uploader handlers (controller/uploaderController.js): upload of a
    video together with its question, login restricted to uploaders and
    developers, the uploader dashboard, and video edit and delete. */
module UploaderController {
  import opened Values
  import opened Http
  import opened Accounts
  import opened VideoModel
  import opened QuestionModel
  import opened Store
  import opened Sessions
  import opened Auth
  import opened Uploads
  import opened OptionFields
  import UploaderRoutes
  import AdminController

  // -------------------------------------------------------------- upload

  /** `typeof correctAnswer !== 'undefined' ? Number(correctAnswer) : -1`
      (a form field is never null); None is NaN. */
  function UploaderCorrectIndex(correctAnswer: Option<string>): (c: Option<int>)
    ensures correctAnswer.None? ==> c == Some(-1)
    ensures correctAnswer.Some? ==> c == ToNumber(AsValue(correctAnswer))
  {
    if correctAnswer.None? then Some(-1) else StringToNumber(correctAnswer.value)
  }

  /** `[option1 || '', option2 || '', option3 || '', option4 || '']` */
  function UploadTexts(form: Form): (texts: seq<string>)
    ensures |texts| == Slots
    ensures forall i :: 0 <= i < Slots ==>
              (texts[i] == "" <==> Field(form, OptionName(i + 1)).None? || Field(form, OptionName(i + 1)) == Some(""))
    ensures forall i :: 0 <= i < Slots && Field(form, OptionName(i + 1)).Some? && Field(form, OptionName(i + 1)).value != "" ==>
              texts[i] == Field(form, OptionName(i + 1)).value
  {
    seq(Slots, i requires 0 <= i < Slots => Or(Field(form, OptionName(i + 1)), ""))
  }

  /** The question `handleUpload` builds for the new video */
  function UploadedQuestion(id: Id, videoId: Id, form: Form): Question {
    Question(id, videoId, Or(Field(form, "question"), ""),
             Mark(UploadTexts(form), UploaderCorrectIndex(Field(form, "correctAnswer"))),
             ShowAtOf(Field(form, "showAt")))
  }

  /** The marks of an uploaded question: at most one correct option, and
      option `i` is correct exactly when the submitted index is `i`. */
  lemma UploadedQuestionMarks(id: Id, videoId: Id, form: Form)
    ensures var q := UploadedQuestion(id, videoId, form);
            && |q.options| == Slots
            && (forall i, j :: 0 <= i < j < Slots ==> !(q.options[i].isCorrect && q.options[j].isCorrect))
            && (forall i :: 0 <= i < Slots ==> (q.options[i].isCorrect <==> UploaderCorrectIndex(Field(form, "correctAnswer")) == Some(i)))
  {
    var q := UploadedQuestion(id, videoId, form);
    var c := UploaderCorrectIndex(Field(form, "correctAnswer"));
    forall i, j | 0 <= i < Slots && 0 <= j < Slots
      ensures q.options[i].isCorrect && q.options[j].isCorrect ==> i == j
      ensures q.options[i].isCorrect <==> c == Some(i)
    {
      MarkAtMostOne(UploadTexts(form), c, i, j);
    }
  }

  /** An uploaded question validates exactly when its text and every
      option text are non-empty. */
  lemma UploadedQuestionValid(id: Id, videoId: Id, form: Form)
    ensures ValidQuestion(UploadedQuestion(id, videoId, form)) <==>
              Field(form, "question").Some? && Field(form, "question").value != ""
              && forall i :: 0 <= i < Slots ==> UploadTexts(form)[i] != ""
  {
    var q := UploadedQuestion(id, videoId, form);
    assert q.questionText != "" <==> Field(form, "question").Some? && Field(form, "question").value != "";
    assert forall i :: 0 <= i < |q.options| ==> q.options[i].text == UploadTexts(form)[i];
  }

  /** An uploaded question has four options, at most one of them correct and
      exactly one when the submitted index is in 0..3; it validates exactly
      when its text and every option text are non-empty. */
  lemma UploadedQuestionShape(id: Id, videoId: Id, form: Form)
    ensures var q := UploadedQuestion(id, videoId, form);
            && |q.options| == Slots
            && (forall i, j :: 0 <= i < j < Slots ==> !(q.options[i].isCorrect && q.options[j].isCorrect))
            && (forall i :: 0 <= i < Slots ==> (q.options[i].isCorrect <==> UploaderCorrectIndex(Field(form, "correctAnswer")) == Some(i)))
            && ((exists i :: 0 <= i < Slots && q.options[i].isCorrect) <==>
                  exists i :: 0 <= i < Slots && UploaderCorrectIndex(Field(form, "correctAnswer")) == Some(i))
            && (ValidQuestion(q) <==> Field(form, "question").Some? && Field(form, "question").value != ""
                                      && forall i :: 0 <= i < Slots ==> UploadTexts(form)[i] != "")
  {
    UploadedQuestionMarks(id, videoId, form);
    UploadedQuestionValid(id, videoId, form);
  }

  /** `handleUpload`: no file is 400; a refused file ends in Express's error
      handler (500); otherwise the video is saved first and its question
      second, so a question that fails validation leaves the video stored
      and answers 500. */
  method UploaderHandleUpload(db: Db, part: Option<UploadedFile>, form: Form, now: nat) returns (reply: Reply)
    requires db.Valid()
    modifies db
    ensures db.Valid()
    ensures ReceiveChecked(part, now) == NoFile ==> reply == Status(400) && db.videos == old(db.videos) && db.questions == old(db.questions)
    ensures ReceiveChecked(part, now) == Refused ==> reply == Status(500) && db.videos == old(db.videos) && db.questions == old(db.questions)
    ensures ReceiveChecked(part, now).Stored? ==>
              var m := MetadataOf(form, part.value.originalname);
              var video := NewVideo(old(db.nextId), m.title, VideoPath(StoredFileName(now, part.value.originalname)), m.duration, m.order, now);
              var q := UploadedQuestion(old(db.nextId) + 1, old(db.nextId), form);
              && (m.title == "" ==> reply == Status(500) && db.videos == old(db.videos) && db.questions == old(db.questions))
              && (m.title != "" ==> db.videos == old(db.videos) + [video])
              && (m.title != "" && ValidQuestion(q) ==> reply == Redirect("/uploader/dashboard") && db.questions == old(db.questions) + [q])
              && (m.title != "" && !ValidQuestion(q) ==> reply == Status(500) && db.questions == old(db.questions))
    ensures db.users == old(db.users) && db.admins == old(db.admins) && db.responses == old(db.responses)
  {
    match ReceiveChecked(part, now) {
      case NoFile =>
        reply := Status(400);
      case Refused =>
        reply := Status(500);
      case Stored(f, filename) =>
        var m := MetadataOf(form, f.originalname);
        var video := db.InsertVideo(m.title, VideoPath(filename), m.duration, m.order, now);
        if video.None? {
          reply := Status(500);
        } else {
          var q := db.InsertQuestion(video.value.id, Or(Field(form, "question"), ""),
                                     Mark(UploadTexts(form), UploaderCorrectIndex(Field(form, "correctAnswer"))),
                                     ShowAtOf(Field(form, "showAt")));
          reply := if q.Some? then Redirect("/uploader/dashboard") else Status(500);
        }
    }
  }

  // ------------------------------------------------------------- login

  /** `login`: only an account whose stored role is exactly `uploader` or
      `developer` (no default) gets a session, which records the role as
      stored and the account id. */
  method UploaderLogin(db: Db, session: Session, email: string, password: string) returns (reply: Reply)
    modifies session
    ensures match CheckCredentials(db.admins, email, password)
            case UnknownEmail =>
              reply == Render("admin/login", Some("Account does not exist")) && session.View() == old(session.View())
            case WrongPassword =>
              reply == Render("admin/login", Some("Invalid password")) && session.View() == old(session.View())
            case LoggedIn(a) =>
              if a.role == Some(UploaderRole) || a.role == Some(DeveloperRole) then
                reply == Redirect("/uploader/dashboard")
                && session.View() == old(session.View()).(admin := true, adminRole := a.role, adminId := Some(a.id))
              else
                reply == Render("admin/login", Some("Not authorized as uploader")) && session.View() == old(session.View())
  {
    match CheckCredentials(db.admins, email, password) {
      case UnknownEmail =>
        reply := Render("admin/login", Some("Account does not exist"));
      case WrongPassword =>
        reply := Render("admin/login", Some("Invalid password"));
      case LoggedIn(a) =>
        if a.role != Some(UploaderRole) && a.role != Some(DeveloperRole) {
          reply := Render("admin/login", Some("Not authorized as uploader"));
        } else {
          session.admin := true;
          session.adminRole := a.role;
          session.adminId := Some(a.id);
          reply := Redirect("/uploader/dashboard");
        }
    }
  }

  /** The session an uploader login leaves passes every gated uploader
      route, the dashboard it is sent to included. */
  lemma UploaderLoginSessionPassesGates(before: SessionView, a: Account, r: UploaderRoutes.Route)
    requires a.role == Some(UploaderRole) || a.role == Some(DeveloperRole)
    ensures UploaderRoutes.Admit(r, before.(admin := true, adminRole := a.role, adminId := Some(a.id))).decision == Next
  {
  }

  /** `logout`: the session is destroyed. */
  method UploaderLogout(session: Session) returns (reply: Reply)
    modifies session
    ensures session.View() == Anonymous
    ensures reply == Redirect("/uploader/login")
  {
    session.Destroy();
    reply := Redirect("/uploader/login");
  }

  // --------------------------------------------------------- dashboard

  /** The handler's own role: `adminRole || 'uploader'` */
  function DashboardRole(s: SessionView): string {
    Or(s.adminRole, UploaderRole)
  }

  /** `loadDashboard`: every video ascending by `order`. */
  method UploaderLoadDashboard(db: Db, s: SessionView) returns (reply: Reply, videos: Option<seq<Video>>)
    ensures !s.admin ==> reply == Redirect("/uploader/login") && videos.None?
    ensures s.admin && DashboardRole(s) != UploaderRole && DashboardRole(s) != DeveloperRole ==>
              reply == Status(403) && videos.None?
    ensures s.admin && (DashboardRole(s) == UploaderRole || DashboardRole(s) == DeveloperRole) ==>
              reply == Render("admin/uploaderDashboard", None) && videos.Some?
              && SortedByOrder(videos.value) && multiset(videos.value) == multiset(db.videos)
  {
    if !s.admin {
      reply, videos := Redirect("/uploader/login"), None;
    } else if DashboardRole(s) != UploaderRole && DashboardRole(s) != DeveloperRole {
      reply, videos := Status(403), None;
    } else {
      var sorted := SortByOrder(db.videos);
      reply, videos := Render("admin/uploaderDashboard", None), Some(sorted);
    }
  }

  /** The gate and the handler default a missing role differently
      (developer and uploader), but admit the same sessions; and a session
      the gate lets through never meets the handler's redirect. */
  lemma DashboardGateAgreesWithHandler(s: SessionView)
    ensures UploaderRoutes.Admit(UploaderRoutes.Dashboard, s).decision == Next <==>
              s.admin && (DashboardRole(s) == UploaderRole || DashboardRole(s) == DeveloperRole)
  {
  }

  // -------------------------------------------------------- video edit

  /** The submitted text of slot `i`: field `option{i}` when present, else
      `option{i+1}` when present, else none. */
  function DualField(form: Form, i: nat): (raw: Option<string>)
    ensures OptionName(i) in form ==> raw == Some(form[OptionName(i)])
    ensures OptionName(i) !in form ==> raw == Field(form, OptionName(i + 1))
  {
    if OptionName(i) in form then Some(form[OptionName(i)]) else Field(form, OptionName(i + 1))
  }

  /** The slot texts of an uploader edit */
  function UploaderTexts(form: Form, existing: seq<string>): seq<string> {
    seq(Slots, i requires 0 <= i < Slots => Slot(DualField(form, i), existing, i))
  }

  /** One pass of the `for` loop: `val` read from `option{i}` or
      `option{i+1}`, trimmed, then the stored text or the placeholder when
      it is empty. */
  method UploaderSlotText(form: Form, existing: seq<string>, i: nat) returns (text: string)
    ensures text == Slot(DualField(form, i), existing, i)
  {
    var val: Option<string> := None;
    if OptionName(i) in form {
      val := Some(form[OptionName(i)]);
    } else if OptionName(i + 1) in form {
      val := Some(form[OptionName(i + 1)]);
    }
    if val.Some? {
      val := Some(Trim(val.value));
    }
    text := if val.Some? && val.value != "" then val.value else Fallback(existing, i);
  }

  /** The `for` loop that fills `opts` */
  method UploaderMergeOptions(form: Form, existing: seq<string>) returns (opts: seq<string>)
    ensures opts == UploaderTexts(form, existing)
  {
    opts := [];
    for i := 0 to Slots
      invariant opts == UploaderTexts(form, existing)[..i]
    {
      var text := UploaderSlotText(form, existing, i);
      opts := opts + [text];
    }
  }

  /** The question as `updateVideo` rewrites it */
  function UploaderEdited(q: Question, form: Form): Question {
    Revised(q,
            Or(Field(form, "questionText"), q.questionText),
            Mark(UploaderTexts(form, StoredTexts(q)), UploaderCorrectIndex(Field(form, "correctAnswer"))),
            ShowAtOf(Field(form, "showAt")))
  }

  /** What an uploader edit guarantees: four non-empty options, at most one
      correct, exactly the submitted index when it is in 0..3, and a question
      that still validates. */
  lemma UploaderEditedShape(q: Question, form: Form)
    requires ValidQuestion(q)
    ensures var e := UploaderEdited(q, form);
            && ValidQuestion(e) && |e.options| == Slots
            && (forall i, j :: 0 <= i < j < Slots ==> !(e.options[i].isCorrect && e.options[j].isCorrect))
            && (forall i :: 0 <= i < Slots ==> (e.options[i].isCorrect <==> UploaderCorrectIndex(Field(form, "correctAnswer")) == Some(i)))
            && (Field(form, "questionText").None? ==> e.questionText == q.questionText)
            && (e.showAt == During <==> Field(form, "showAt") == Some("during"))
            && e.id == q.id && e.videoId == q.videoId
  {
    var e := UploaderEdited(q, form);
    var c := UploaderCorrectIndex(Field(form, "correctAnswer"));
    forall i, j | 0 <= i < Slots && 0 <= j < Slots
      ensures e.options[i].isCorrect && e.options[j].isCorrect ==> i == j
      ensures e.options[i].isCorrect <==> c == Some(i)
    {
      MarkAtMostOne(UploaderTexts(form, StoredTexts(q)), c, i, j);
    }
  }

  /** Submitting `0` marks the first option correct here, where the admin
      edit marks none. */
  lemma ZeroMarksFirstOnlyHere(q: Question, form: Form)
    requires Field(form, "correctAnswer") == Some("0")
    ensures UploaderEdited(q, form).options[0].isCorrect
    ensures !AdminController.AdminEdited(q, form).options[0].isCorrect
  {
    assert StringToNumber("0") == Some(0) by {
      assert NatToString(0) == "0";
      NumberOfNatString(0);
    }
  }

  /** Where the edit form's own `option{i}` field is sent, both edit paths
      give slot `i` the same text. */
  lemma EditPathsAgree(form: Form, existing: seq<string>, i: nat)
    requires i < Slots && OptionName(i) in form
    ensures UploaderTexts(form, existing)[i] == AdminController.AdminTexts(form, existing)[i]
  {
  }

  /** A form that uses the upload form's names `option1`..`option4` shifts
      the uploader edit: slots 0 and 1 both read `option1`, slot `i` reads
      `option{i}` after that, and `option4` is never read. */
  lemma UploadStyleNamesShift(form: Form, existing: seq<string>)
    requires OptionName(0) !in form
    requires forall i :: 1 <= i < Slots ==> OptionName(i) in form
    ensures var u := UploaderTexts(form, existing);
            && u[0] == Slot(Field(form, OptionName(1)), existing, 0)
            && forall i :: 1 <= i < Slots ==> u[i] == Slot(Field(form, OptionName(i)), existing, i)
  {
  }

  /** So a visible `option1` text fills both of the first two slots. */
  lemma UploadStyleFirstTextTwice(form: Form, existing: seq<string>)
    requires OptionName(0) !in form && OptionName(1) in form
    requires Trim(form[OptionName(1)]) != ""
    ensures UploaderTexts(form, existing)[0] == UploaderTexts(form, existing)[1] == Trim(form[OptionName(1)])
  {
  }

  /** The admin edit reads `option{i}` for every slot, so with the same form
      it keeps the stored first text and also never reads `option4`. */
  lemma UploadStyleNamesInAdminEdit(form: Form, existing: seq<string>)
    requires OptionName(0) !in form
    ensures var a := AdminController.AdminTexts(form, existing);
            && a[0] == Fallback(existing, 0)
            && forall i :: 1 <= i < Slots ==> a[i] == Slot(Field(form, OptionName(i)), existing, i)
  {
  }

  /** `updateVideo`: title and order are written, then the video's question,
      if there is one, is rewritten and saved. */
  method UploaderUpdateVideo(db: Db, id: Id, form: Form) returns (reply: Reply)
    requires db.Valid()
    modifies db
    ensures db.Valid()
    ensures reply == Redirect("/uploader/dashboard")
    ensures db.videos == match FindVideo(old(db.videos), id)
                         case None => old(db.videos)
                         case Some(i) => old(db.videos)[i := WithMeta(old(db.videos)[i], Field(form, "title"),
                                                                      NumberOr(AsValue(Field(form, "order")), 0))]
    ensures db.questions == match FindQuestionOf(old(db.questions), id)
                            case None => old(db.questions)
                            case Some(i) => old(db.questions)[i := UploaderEdited(old(db.questions)[i], form)]
    ensures db.users == old(db.users) && db.admins == old(db.admins) && db.responses == old(db.responses)
  {
    db.UpdateVideoMeta(id, Field(form, "title"), NumberOr(AsValue(Field(form, "order")), 0));
    match FindQuestionOf(db.questions, id) {
      case None =>
        reply := Redirect("/uploader/dashboard");
      case Some(i) =>
        var q := db.questions[i];
        var texts := UploaderMergeOptions(form, StoredTexts(q));
        UploaderEditedShape(q, form);
        var ok := db.SaveQuestion(i, Or(Field(form, "questionText"), q.questionText),
                                  Mark(texts, UploaderCorrectIndex(Field(form, "correctAnswer"))),
                                  ShowAtOf(Field(form, "showAt")));
        reply := if ok then Redirect("/uploader/dashboard") else Status(500);
    }
  }

  /** `deleteVideo`: the cascade; the reply is the same whether or not the
      video existed. */
  method UploaderDeleteVideo(db: Db, id: Id) returns (reply: Reply)
    requires db.Valid()
    modifies db
    ensures db.Valid()
    ensures reply == Redirect("/uploader/dashboard")
    ensures id !in KeySet(old(db.videos), VideoKey) ==> db.videos == old(db.videos) && db.questions == old(db.questions)
    ensures id in KeySet(old(db.videos), VideoKey) ==>
              db.videos == RemoveAt(old(db.videos), FindVideo(old(db.videos), id).value)
              && db.questions == WithoutQuestionOf(old(db.questions), id)
    ensures FindVideo(db.videos, id).None? && FindQuestionOf(db.questions, id).None?
    ensures db.users == old(db.users) && db.admins == old(db.admins) && db.responses == old(db.responses)
  {
    var found := db.DeleteVideoCascade(id);
    reply := Redirect("/uploader/dashboard");
  }
}
