/** The end-user handlers (controller/userController.js): registration,
    login and logout, the video feed, and answer grading with the response
    log. */
module UserController {
  import opened Values
  import opened Http
  import opened Accounts
  import opened VideoModel
  import opened QuestionModel
  import opened ResponseModel
  import opened Store
  import opened Sessions
  import opened Auth

  // ---------------------------------------------------------------- accounts

  /** `registerUser`: check-then-insert on the email. A new user always gets
      the role `user`. */
  method RegisterUser(db: Db, email: string, password: string) returns (reply: Reply)
    requires db.Valid()
    modifies db
    ensures db.Valid()
    ensures FindByEmail(old(db.users), email).Some? ==>
              reply == Render("user/register", Some("User already exist")) && db.users == old(db.users)
    ensures FindByEmail(old(db.users), email).None? ==>
              reply == Redirect("/user/login?success=registered")
              && db.users == old(db.users) + [Account(old(db.nextId), email, Hash(password), Some(UserRole))]
    ensures db.admins == old(db.admins) && db.videos == old(db.videos) && db.questions == old(db.questions)
    ensures db.responses == old(db.responses)
  {
    if FindByEmail(db.users, email).Some? {
      reply := Render("user/register", Some("User already exist"));
    } else {
      var account := db.InsertAccount(Users, email, Hash(password), Some(UserRole));
      reply := Redirect("/user/login?success=registered");
    }
  }

  /** `login`: an unknown email and a wrong password are told apart; success
      marks the session as a user session and records the user's id. */
  method Login(db: Db, session: Session, email: string, password: string) returns (reply: Reply)
    modifies session
    ensures match CheckCredentials(db.users, email, password)
            case UnknownEmail =>
              reply == Render("user/login", Some("User does not exist")) && session.View() == old(session.View())
            case WrongPassword =>
              reply == Render("user/login", Some("Incorrect credentials")) && session.View() == old(session.View())
            case LoggedIn(a) =>
              reply == Redirect("/user/home") && session.View() == old(session.View()).(user := true, userId := Some(a.id))
    ensures CheckCredentials(db.users, email, password).LoggedIn? ==> CheckSession(session.View()).decision == Next
    ensures !CheckCredentials(db.users, email, password).LoggedIn? ==>
              CheckSession(session.View()).decision == CheckSession(old(session.View())).decision
  {
    match CheckCredentials(db.users, email, password) {
      case UnknownEmail =>
        reply := Render("user/login", Some("User does not exist"));
      case WrongPassword =>
        reply := Render("user/login", Some("Incorrect credentials"));
      case LoggedIn(a) =>
        session.user := true;
        session.userId := Some(a.id);
        reply := Redirect("/user/home");
    }
  }

  /** A user who has just registered can log in with the same password (and
      so, by `Login`, gets a session the user gate admits). */
  lemma RegisteredUserCanLogIn(users: seq<Account>, id: Id, email: string, password: string)
    requires FindByEmail(users, email).None?
    ensures CheckCredentials(users + [Account(id, email, Hash(password), Some(UserRole))], email, password)
            == LoggedIn(Account(id, email, Hash(password), Some(UserRole)))
  {
    AppendedAccountLogsIn(users, Account(id, email, Hash(password), Some(UserRole)), password);
  }

  /** `logout`: `session.user = null`; the user id stays behind. */
  method Logout(session: Session) returns (reply: Reply)
    modifies session
    ensures session.View() == old(session.View()).(user := false)
    ensures reply == Redirect("/user/login")
  {
    session.user := false;
    reply := Redirect("/user/login");
  }

  // -------------------------------------------------------------------- feed

  /** The `question` of a feed entry */
  datatype QuestionView = QuestionView(id: Id, questionText: string, options: seq<Choice>)

  /** One element of the `videos` array `getVideos` answers with */
  datatype FeedEntry = FeedEntry(
    id: Id,
    title: string,
    videoUrl: string,
    order: int,
    isActive: bool,
    question: Option<QuestionView>)

  /** `v.videoFilePath || v.videoUrl || ''` */
  function VideoUrl(v: Video): (url: string)
    ensures v.videoFilePath != "" ==> url == v.videoFilePath
    ensures v.videoFilePath == "" && v.videoUrl.Some? ==> url == v.videoUrl.value
    ensures v.videoFilePath == "" && v.videoUrl.None? ==> url == ""
  {
    if v.videoFilePath != "" then v.videoFilePath else Or(v.videoUrl, "")
  }

  function ViewOf(q: Question): QuestionView {
    QuestionView(q.id, q.questionText, q.options)
  }

  function EntryOf(v: Video, q: Option<Question>): FeedEntry {
    FeedEntry(v.id, v.title, VideoUrl(v), v.order, v.isActive, if q.Some? then Some(ViewOf(q.value)) else None)
  }

  /** The question `qByVideo` ends up holding for a video: the forEach writes
      every question into its video's slot, so the last one wins. */
  function LastQuestionFor(qs: seq<Question>, videoId: Id): (r: Option<Question>)
    ensures r.None? <==> forall j :: 0 <= j < |qs| ==> qs[j].videoId != videoId
    ensures r.Some? ==> exists i :: 0 <= i < |qs| && qs[i] == r.value && r.value.videoId == videoId
                                    && forall j :: i < j < |qs| ==> qs[j].videoId != videoId
  {
    match LastIndex(qs, (q: Question) => q.videoId == videoId)
    case None => None
    case Some(i) => Some(qs[i])
  }

  /** One more question: it takes its video's slot and leaves the others. */
  lemma LastQuestionStep(qs: seq<Question>, i: nat)
    requires i < |qs|
    ensures forall videoId :: LastQuestionFor(qs[..i + 1], videoId)
                              == if qs[i].videoId == videoId then Some(qs[i]) else LastQuestionFor(qs[..i], videoId)
  {
    forall videoId
      ensures LastQuestionFor(qs[..i + 1], videoId)
              == if qs[i].videoId == videoId then Some(qs[i]) else LastQuestionFor(qs[..i], videoId)
    {
      var s := qs[..i + 1];
      assert s[..i] == qs[..i] && s[i] == qs[i];
      assert LastIndex(s, (q: Question) => q.videoId == videoId)
             == if qs[i].videoId == videoId then Some(i) else LastIndex(qs[..i], (q: Question) => q.videoId == videoId);
    }
  }

  /** `find({ videoId: { $in: ids } })` in natural order */
  function QuestionsOf(qs: seq<Question>, ids: set<Id>): (r: seq<Question>)
    ensures forall q :: q in r <==> q in qs && q.videoId in ids
  {
    if qs == [] then []
    else
      var last := qs[|qs| - 1];
      assert qs == qs[..|qs| - 1] + [last];
      QuestionsOf(qs[..|qs| - 1], ids) + if last.videoId in ids then [last] else []
  }

  /** Narrowing the questions to the listed videos does not change which
      question a listed video is joined to. */
  lemma {:induction false} QuestionsOfKeepsLast(qs: seq<Question>, ids: set<Id>, videoId: Id)
    requires videoId in ids
    ensures LastQuestionFor(QuestionsOf(qs, ids), videoId) == LastQuestionFor(qs, videoId)
  {
    if qs != [] {
      var init := qs[..|qs| - 1];
      var last := qs[|qs| - 1];
      QuestionsOfKeepsLast(init, ids, videoId);
      LastQuestionStep(qs, |qs| - 1);
      assert qs[..|qs|] == qs;
      if last.videoId in ids {
        var r := QuestionsOf(init, ids) + [last];
        LastQuestionStep(r, |r| - 1);
        assert r[..|r|] == r;
        assert r[..|r| - 1] == QuestionsOf(init, ids);
      } else {
        assert QuestionsOf(qs, ids) == QuestionsOf(init, ids);
      }
    }
  }

  /** A dictionary read: `qByVideo[id] || null` */
  function Lookup(index: map<Id, Question>, videoId: Id): Option<Question> {
    if videoId in index then Some(index[videoId]) else None
  }

  /** The `questions.forEach` that fills `qByVideo` */
  method IndexByVideo(qs: seq<Question>) returns (index: map<Id, Question>)
    ensures forall videoId :: Lookup(index, videoId) == LastQuestionFor(qs, videoId)
  {
    index := map[];
    for i := 0 to |qs|
      invariant forall videoId :: Lookup(index, videoId) == LastQuestionFor(qs[..i], videoId)
    {
      LastQuestionStep(qs, i);
      var next := index[qs[i].videoId := qs[i]];
      forall videoId ensures Lookup(next, videoId) == LastQuestionFor(qs[..i + 1], videoId) {
        assert Lookup(index, videoId) == LastQuestionFor(qs[..i], videoId);
      }
      index := next;
    }
    assert qs[..|qs|] == qs;
  }

  /** The feed for videos already filtered and sorted */
  function EntriesOf(vs: seq<Video>, qs: seq<Question>): seq<FeedEntry> {
    seq(|vs|, i requires 0 <= i < |vs| => EntryOf(vs[i], LastQuestionFor(qs, vs[i].id)))
  }

  /** `feed` is what `getVideos` may answer: the active videos in some order
      ascending by `order` (ties are the database's choice), each joined to
      its question. */
  ghost predicate IsFeedOf(videos: seq<Video>, qs: seq<Question>, feed: seq<FeedEntry>) {
    exists vs :: SortedByOrder(vs) && multiset(vs) == multiset(ActiveOf(videos)) && feed == EntriesOf(vs, qs)
  }

  /** `getVideos` */
  method GetVideos(db: Db) returns (feed: seq<FeedEntry>)
    ensures IsFeedOf(db.videos, db.questions, feed)
  {
    var active := ActiveOf(db.videos);
    var sorted := SortByOrder(active);
    var ids := set i | 0 <= i < |sorted| :: sorted[i].id;
    var qs := QuestionsOf(db.questions, ids);
    var index := IndexByVideo(qs);
    feed := seq(|sorted|, i requires 0 <= i < |sorted| => EntryOf(sorted[i], Lookup(index, sorted[i].id)));
    forall i | 0 <= i < |sorted| ensures feed[i] == EntriesOf(sorted, db.questions)[i] {
      QuestionsOfKeepsLast(db.questions, ids, sorted[i].id);
    }
    assert feed == EntriesOf(sorted, db.questions);
  }

  /** Entries built from videos ascending by `order` are ascending by `order`. */
  lemma EntriesKeepOrder(vs: seq<Video>, qs: seq<Question>, feed: seq<FeedEntry>)
    requires SortedByOrder(vs) && feed == EntriesOf(vs, qs)
    ensures forall i, j :: 0 <= i < j < |feed| ==> feed[i].order <= feed[j].order
  {
  }

  /** Each entry built from a permutation of the active videos comes from a
      stored, active video. */
  lemma EntriesFromActive(videos: seq<Video>, qs: seq<Question>, vs: seq<Video>, feed: seq<FeedEntry>)
    requires multiset(vs) == multiset(ActiveOf(videos)) && feed == EntriesOf(vs, qs)
    ensures forall i :: 0 <= i < |feed| ==> feed[i].isActive
    ensures forall i :: 0 <= i < |feed| ==>
              exists v :: v in videos && v.isActive && feed[i] == EntryOf(v, LastQuestionFor(qs, v.id))
  {
    forall i | 0 <= i < |feed|
      ensures feed[i].isActive
      ensures exists v :: v in videos && v.isActive && feed[i] == EntryOf(v, LastQuestionFor(qs, v.id))
    {
      assert vs[i] in multiset(vs);
      assert vs[i] in ActiveOf(videos);
      assert feed[i] == EntryOf(vs[i], LastQuestionFor(qs, vs[i].id));
    }
  }

  /** Every stored, active video has its entry among those built from a
      permutation of the active videos. */
  lemma EntriesCoverActive(videos: seq<Video>, qs: seq<Question>, vs: seq<Video>, feed: seq<FeedEntry>)
    requires multiset(vs) == multiset(ActiveOf(videos)) && feed == EntriesOf(vs, qs)
    ensures forall v :: v in videos && v.isActive ==> EntryOf(v, LastQuestionFor(qs, v.id)) in feed
  {
    forall v | v in videos && v.isActive ensures EntryOf(v, LastQuestionFor(qs, v.id)) in feed {
      assert v in ActiveOf(videos);
      assert v in multiset(vs);
      var k :| 0 <= k < |vs| && vs[k] == v;
      assert feed[k] == EntryOf(v, LastQuestionFor(qs, v.id));
    }
  }

  /** What the feed promises: one entry per active video and nothing else,
      ascending by `order`, each entry joined to the question its video
      owns, if any. */
  lemma FeedIsActiveSortedComplete(videos: seq<Video>, qs: seq<Question>, feed: seq<FeedEntry>)
    requires IsFeedOf(videos, qs, feed)
    ensures |feed| == |ActiveOf(videos)|
    ensures forall i, j :: 0 <= i < j < |feed| ==> feed[i].order <= feed[j].order
    ensures forall i :: 0 <= i < |feed| ==> feed[i].isActive
    ensures forall i :: 0 <= i < |feed| ==>
              exists v :: v in videos && v.isActive && feed[i] == EntryOf(v, LastQuestionFor(qs, v.id))
    ensures forall v :: v in videos && v.isActive ==> EntryOf(v, LastQuestionFor(qs, v.id)) in feed
  {
    var vs: seq<Video> :| SortedByOrder(vs) && multiset(vs) == multiset(ActiveOf(videos)) && feed == EntriesOf(vs, qs);
    assert |vs| == |multiset(vs)| == |multiset(ActiveOf(videos))| == |ActiveOf(videos)|;
    EntriesKeepOrder(vs, qs, feed);
    EntriesFromActive(videos, qs, vs, feed);
    EntriesCoverActive(videos, qs, vs, feed);
  }

  // ----------------------------------------------------------------- answers

  /** `options.findIndex(o => o.isCorrect)`: the first option marked correct,
      or -1 when none is. */
  function CorrectAnswer(options: seq<Choice>): (c: int)
    ensures -1 <= c < |options|
    ensures c == -1 <==> forall j :: 0 <= j < |options| ==> !options[j].isCorrect
    ensures c >= 0 ==> options[c].isCorrect && forall j :: 0 <= j < c ==> !options[j].isCorrect
  {
    match FirstIndex(options, (o: Choice) => o.isCorrect)
    case None => -1
    case Some(i) => i
  }

  /** `Number(selectedOption) === correctIndex`; NaN equals nothing. */
  function Grade(options: seq<Choice>, selected: Option<int>): bool {
    selected == Some(CorrectAnswer(options))
  }

  /** A non-negative answer is right exactly when it names the first option
      marked correct. When no option is marked correct, every such answer is
      wrong, and -1 is graded right. */
  lemma GradeMeaning(options: seq<Choice>, n: int)
    ensures n >= 0 ==> (Grade(options, Some(n)) <==>
              n < |options| && options[n].isCorrect && forall j :: 0 <= j < n ==> !options[j].isCorrect)
    ensures Grade(options, Some(-1)) <==> forall j :: 0 <= j < |options| ==> !options[j].isCorrect
  {
    var c := CorrectAnswer(options);
    if n >= 0 && n < |options| && options[n].isCorrect && forall j :: 0 <= j < n ==> !options[j].isCorrect {
      assert c != -1;
      assert !(c < n);
      assert !(n < c);
    }
  }

  /** A question built with `Mark` and an index in range is graded against
      that index; with an index out of range or NaN it has no right answer. */
  lemma MarkThenGrade(texts: seq<string>, correctIndex: Option<int>)
    ensures correctIndex.Some? && 0 <= correctIndex.value < |texts| ==>
              CorrectAnswer(Mark(texts, correctIndex)) == correctIndex.value
    ensures !(correctIndex.Some? && 0 <= correctIndex.value < |texts|) ==>
              CorrectAnswer(Mark(texts, correctIndex)) == -1
  {
    var opts := Mark(texts, correctIndex);
    forall j | 0 <= j < |opts| ensures opts[j].isCorrect <==> correctIndex == Some(j) {
      MarkAtMostOne(texts, correctIndex, j, j);
    }
  }

  /** The JSON body of `submit-answer` */
  datatype AnswerBody = AnswerBody(questionId: Value, selectedOption: Value, videoId: Value)

  /** `{ isCorrect, correctAnswer }`, or an error status */
  datatype AnswerReply = Answer(isCorrect: bool, correctAnswer: int) | Failed(status: int)

  /** The answer `submitAnswer` sends. A question id that does not cast to an
      ObjectId makes `findById` throw, which ends in 500. */
  function AnswerFor(qs: seq<Question>, body: AnswerBody): (r: AnswerReply)
    ensures r == Failed(400) <==> !Truthy(body.questionId) || body.selectedOption.Undefined?
    ensures r == Failed(404) <==> Truthy(body.questionId) && !body.selectedOption.Undefined?
                                  && AsId(body.questionId).Some? && AsId(body.questionId).value !in KeySet(qs, QuestionKey)
    ensures r.Answer? ==> exists q :: q in qs && Some(q.id) == AsId(body.questionId)
                                      && r.correctAnswer == CorrectAnswer(q.options)
                                      && r.isCorrect == Grade(q.options, ToNumber(body.selectedOption))
    ensures r == Failed(500) <==> Truthy(body.questionId) && !body.selectedOption.Undefined? && AsId(body.questionId).None?
    ensures (Truthy(body.questionId) && !body.selectedOption.Undefined? && AsId(body.questionId).Some?
             && AsId(body.questionId).value in KeySet(qs, QuestionKey)) ==> r.Answer?
    ensures r.Failed? ==> r.status in {400, 404, 500}
  {
    if !Truthy(body.questionId) || body.selectedOption.Undefined? then Failed(400)
    else match AsId(body.questionId)
      case None => Failed(500)
      case Some(id) =>
        match FindQuestion(qs, id)
        case None => Failed(404)
        case Some(i) => Answer(Grade(qs[i].options, ToNumber(body.selectedOption)), CorrectAnswer(qs[i].options))
  }

  /** The response the handler tries to save: `userId || null`,
      `videoId || null`, the question id, `Number(selectedOption)`. */
  function DraftOf(s: SessionView, body: AnswerBody, isCorrect: bool): Draft {
    Draft(s.userId,
          if Truthy(body.videoId) then AsId(body.videoId) else None,
          AsId(body.questionId),
          ToNumber(body.selectedOption),
          isCorrect)
  }

  /** `submitAnswer`. The reply depends only on the question; a logged-in
      user's answer is then offered to the response log, whose failures
      (duplicate or invalid) are swallowed. */
  method SubmitAnswer(db: Db, s: SessionView, body: AnswerBody, now: int) returns (r: AnswerReply)
    requires db.Valid()
    modifies db
    ensures db.Valid()
    ensures r == AnswerFor(old(db.questions), body)
    ensures r.Answer? && s.user ==> db.responses == Recorded(old(db.responses), DraftOf(s, body, r.isCorrect), now)
    ensures !(r.Answer? && s.user) ==> db.responses == old(db.responses)
    ensures db.users == old(db.users) && db.admins == old(db.admins) && db.videos == old(db.videos)
    ensures db.questions == old(db.questions)
  {
    r := AnswerFor(db.questions, body);
    if r.Answer? && s.user {
      var outcome := db.InsertResponse(DraftOf(s, body, r.isCorrect), now);
    }
  }

  /** A row stored by `submitAnswer` records exactly what was answered: the
      session's user, the option as a number in 0..3, and the verdict the
      user was sent. */
  lemma StoredRowMatchesReply(rows: map<Key, Response>, qs: seq<Question>, s: SessionView, body: AnswerBody, now: int)
    requires AnswerFor(qs, body).Answer?
    requires OutcomeOf(rows, DraftOf(s, body, AnswerFor(qs, body).isCorrect), now) == Inserted
    ensures var row := Validate(DraftOf(s, body, AnswerFor(qs, body).isCorrect), now).value;
            && Recorded(rows, DraftOf(s, body, AnswerFor(qs, body).isCorrect), now)[KeyOf(row)] == row
            && Some(row.userId) == s.userId && Some(row.questionId) == AsId(body.questionId)
            && Some(row.selectedOption) == ToNumber(body.selectedOption) && 0 <= row.selectedOption <= 3
            && row.isCorrect == AnswerFor(qs, body).isCorrect
  {
  }

  /** Without a truthy `videoId` the row is refused by validation, so nothing
      is stored even for a logged-in user. */
  lemma MissingVideoIdStoresNothing(rows: map<Key, Response>, s: SessionView, body: AnswerBody, isCorrect: bool, now: int)
    requires !Truthy(body.videoId)
    ensures Recorded(rows, DraftOf(s, body, isCorrect), now) == rows
  {
    RejectedDraftsStoreNothing(rows, DraftOf(s, body, isCorrect), now);
  }

  /** A question whose second and third options are both marked correct:
      the first of them is the answer. */
  function SampleQuestion(): Question {
    Question(7, 3, "Which?", [Choice("a", false), Choice("b", true), Choice("c", true), Choice("d", false)], End)
  }

  lemma SampleCorrectAnswer()
    ensures CorrectAnswer(SampleQuestion().options) == 1
  {
    assert !SampleQuestion().options[0].isCorrect && SampleQuestion().options[1].isCorrect;
  }

  /** Grading the sample: the first correct option wins, the second correct
      one is graded wrong, and the option may be sent as a numeral. */
  lemma GradingExample()
    ensures AnswerFor([SampleQuestion()], AnswerBody(Num(7), Num(1), Num(3))) == Answer(true, 1)
    ensures AnswerFor([SampleQuestion()], AnswerBody(Num(7), Num(2), Num(3))) == Answer(false, 1)
    ensures AnswerFor([SampleQuestion()], AnswerBody(Str("7"), Str("1"), Num(3))) == Answer(true, 1)
  {
    SampleCorrectAnswer();
    assert FindQuestion([SampleQuestion()], 7) == Some(0);
    assert StringToNumber("1") == Some(1) by {
      assert NatToString(1) == "1";
      NumberOfNatString(1);
    }
    assert AsId(Str("7")) == Some(7) by {
      assert NatToString(7) == "7";
      DigitsOfNatString(7);
    }
  }

  /** The error paths on the sample: an unknown question is 404, a missing
      option is 400. */
  lemma GradingErrorsExample()
    ensures AnswerFor([SampleQuestion()], AnswerBody(Num(8), Num(1), Num(3))) == Failed(404)
    ensures AnswerFor([SampleQuestion()], AnswerBody(Num(7), Undefined, Num(3))) == Failed(400)
    ensures AnswerFor([SampleQuestion()], AnswerBody(Str(""), Num(1), Num(3))) == Failed(400)
  {
    assert [SampleQuestion()][0].id == 7;
    assert 8 !in KeySet([SampleQuestion()], QuestionKey);
  }
}
