# Reel: a Dafny model of the learning-portal core

Reel is an Express and MongoDB video-learning portal. End users watch short
videos and answer a multiple-choice question attached to each one. Uploaders
and developers (the two admin roles) manage the videos and their questions.

This project models the portal's request-handling core in Dafny:

- the session gates of `middleware/auth.js` and the route tables that mount
  them (`/user`, `/uploader`, `/admin`, including the first-admin bootstrap of
  `/admin/register`);
- the three controllers: registration and login for each kind of account,
  the video feed, answer grading with its response log, the dashboards, user
  management, video upload, edit and cascading delete;
- the video, question and user-response documents, with the validation their
  schemas apply on `save()` and the unique index on responses.

How the model is laid out:

- The database is the class `Store.Db`, whose collections are fields the
  handlers reassign. Its invariant `Valid()` says:
  - ids are unique;
  - every question belongs to a stored video, and no video has two;
  - every stored question and response passed validation.
- The session is the class `Sessions.Session`.
- A handler is a method that takes the parsed request (a form, a JSON body,
  a route id, a session) and returns a `Reply` in place of the Express
  response.
- The loops in the source are methods with loop invariants, each proved
  against a pure function. These are the option-merging loops of both
  `updateVideo` handlers and the `forEach` that indexes questions by video in
  `getVideos`.
- Pure computations are functions and lemmas.

JavaScript semantics are written out where the handlers depend on them:

- truthiness and `a || b` defaults;
- `Number(...)`, with `0` and NaN both falsy;
- `String.prototype.trim` with the ECMAScript white-space set;
- `toLowerCase` on ASCII letters;
- `findIndex`;
- `/\s+/g` replacement.

The properties proved include:

- **Gates.** `checkSession` and `isLogin` are exact inverses. Developer
  outranks every role, and two roles passing means developer. Every route
  admits exactly the sessions its gate names.
- **Feed.** It holds every active video and nothing else, ascending by
  `order`, each joined to the question its video owns (the last one written,
  as the `forEach` leaves it).
- **Grading.** An answer is right exactly when it names the first option
  marked correct. A stored response row records what was answered. The
  response log is append-only, idempotent and has one row per
  (user, video, question).
- **Uploads.** A stored file name has no white space, and its timestamp reads
  back.
- **Edits.** Both edit paths produce four non-empty options, at most one of
  them correct, and a question that still validates.
- **Deletes.** A cascading delete leaves neither the video nor its question
  findable and keeps ownership one-to-one.
- **Where the two edit handlers differ.** The uploader's edit and the admin's
  edit read different option field names and treat `correctAnswer = 0`
  differently. The model states both behaviours side by side.

## Model

| member | source | states |
|---|---|---|
| Auth.CheckSession | middleware/auth.js:1-10 | sets no-cache; passes exactly when the session has a user, otherwise redirects to /user/login |
| Auth.IsLogin | middleware/auth.js:12-21 | sets no-cache; passes exactly when the session has no user, otherwise redirects to /user/home |
| Auth.CheckAdminSession | middleware/auth.js:23-32 | sets no-cache; passes exactly when the session is an admin session, otherwise redirects to /admin/login |
| Auth.CheckAdminRole | middleware/auth.js:34-39 | no cache headers; a non-admin is redirected to /admin/login; an admin passes exactly when its role (missing role = developer) is the required one or developer, and is otherwise answered 403 |
| Auth.IsLoginInvertsCheckSession | middleware/auth.js:1-21 | whatever session one of checkSession and isLogin admits, the other refuses |
| Auth.DeveloperPassesEveryRole | middleware/auth.js:36-37 | a developer session, or an admin session with no or an empty role, passes every role check |
| Auth.UploaderPassesOnlyUploader | middleware/auth.js:36-38 | an uploader session passes a role check exactly when uploader is required, and is answered 403 otherwise |
| Auth.TwoRolesMeanDeveloper | middleware/auth.js:36-37 | a session that passes two different role checks has the effective role developer |
| Auth.RoleCheckImpliesAdminSession | middleware/auth.js:23-39 | every session a role check admits is admitted by checkAdminSession |
| Auth.OnlyRoleCheckIsCacheable | middleware/auth.js:1-39 | of the four gates, checkAdminRole is the only one that sets no no-cache headers of its own |
| UserRoutes.LoginAndRegisterOpen | routes/user.js:8-11 | login and register pages and posts admit every session, a logged-in user included |
| UserRoutes.FeedRoutesNeedUser | routes/user.js:12-15 | home, logout, videos and submit-answer admit exactly user sessions and send anyone else to /user/login |
| UserRoutes.SubmitAnswerSeesUser | routes/user.js:15 | a request that reaches submitAnswer through the router always carries a user session |
| UploaderRoutes.LoginLogoutOpen | routes/uploader.js:7-9 | uploader login and logout are ungated |
| UploaderRoutes.GatedRoutesAdmitUploaderOrDeveloper | routes/uploader.js:12-21 | every other uploader route admits exactly admin sessions whose effective role is uploader or developer; a non-admin goes to /admin/login |
| UploaderRoutes.UserRoleForbidden | routes/uploader.js:12-21 | an admin session with role user gets 403 on every gated uploader route |
| AdminRoutes.LoginOpen | routes/admin.js:10-11 | admin login is ungated |
| AdminRoutes.BootstrapOpen | routes/admin.js:15-50 | while no admin is stored, GET and POST /register admit every session |
| AdminRoutes.BootstrapClosed | routes/admin.js:15-50 | once an admin exists, /register admits exactly developer admin sessions, redirects non-admins and answers an uploader 403 |
| AdminRoutes.PostRegister | routes/admin.js:34-50 | POST /register: the gate chosen by the admin count either answers alone with the admin collection untouched, or registerAdmin runs with its outcomes |
| AdminRoutes.DeveloperRoutesForbidUploader | routes/admin.js:55-71 | developer-only routes admit an admin exactly when its effective role is developer; an uploader gets 403, not a redirect |
| AdminRoutes.AnyAdminRoutes | routes/admin.js:52-86 | dashboard, user management, test-models and logout admit exactly admin sessions, whatever the role |
| VideoModel.NewVideo | model/videoModel.js:3-29 | a new video carries the given fields, is active, and is stamped with the creation time |
| QuestionModel.ShowAtOf | controller/adminController.js:268 | the stored showAt is during exactly when the form says "during", end otherwise |
| QuestionModel.Mark | controller/adminController.js:267 | marking keeps the texts, one option per text, in order |
| QuestionModel.MarkAtMostOne | controller/uploaderController.js:61 | at most one option is marked correct, and option i exactly when the index equals i |
| ResponseModel.Validate | model/userResponseModel.js:3-33 | a draft is accepted exactly when all three ids and the option are present and the option is in 0..3; the row keeps every field |
| ResponseModel.Recorded | model/userResponseModel.js:36 | save under the unique index: an accepted draft with a new key is added, anything else leaves the collection; the keyed invariant is kept |
| ResponseModel.RecordedAppendOnly | model/userResponseModel.js:36 | saving never changes or removes a stored row and adds at most one |
| ResponseModel.RecordedIdempotent | model/userResponseModel.js:36 | saving the same answer again, at any later time, changes nothing |
| ResponseModel.OneRowPerKey | model/userResponseModel.js:36 | a second draft with the same (user, video, question) key never replaces the first row |
| ResponseModel.RejectedDraftsStoreNothing | model/userResponseModel.js:4-24 | a draft missing the user, the video or the option, or with an option outside 0..3, is a validation error and stores nothing |
| Store.FindByEmail | controller/userController.js:53 | findOne({ email }) finds the first account with that email, or none exactly when no account has it |
| Store.CheckCredentials | controller/userController.js:53-61 | login outcome: unknown email exactly when no account has it; wrong password exactly when the first match's hash does not match; a login is always the first account with that email |
| Store.AppendedAccountLogsIn | controller/userController.js:32-61 | an account appended under an unused email logs in with its own password |
| Store.FindAccount | controller/adminController.js:140 | findById on accounts finds an account with that id, or none exactly when the id is absent |
| Store.FindVideo | controller/adminController.js:283 | findById on videos finds a video with that id, or none exactly when the id is absent |
| Store.FindQuestion | controller/userController.js:128 | findById on questions finds a question with that id, or none exactly when the id is absent |
| Store.FindQuestionOf | controller/adminController.js:255 | findOne({ videoId }) finds a question of that video, or none exactly when the video has none |
| Store.ActiveOf | controller/userController.js:82 | find({ isActive: true }) holds exactly the active videos, each as many times as it is stored, and no inactive one |
| Store.SortByOrder | controller/userController.js:82 | sort({ order: 1 }) returns a permutation of its input ascending by order |
| Store.WithoutQuestionOf | controller/adminController.js:291 | deleteOne({ videoId }) removes exactly the first question of that video (the RemoveAt of the first match) and keeps every other question; the count drops by one exactly when the video had a question |
| Store.NoVideoNoQuestion | controller/adminController.js:283-284 | under the ownership invariant, a video that is not stored owns no question |
| Store.CascadeKeepsOwnership | controller/adminController.js:291-292 | deleting a video and its question keeps ids unique, every remaining question owned by a remaining video, and removes exactly the video's id |
| Store.Db.InsertAccount | controller/userController.js:38-39 | the account gets the next id and is appended to users or admins; nothing else changes; the invariant holds |
| Store.Db.UpdateUser | controller/adminController.js:180 | findByIdAndUpdate overwrites the email and, when given, the password of the user with that id; a missing id changes nothing |
| Store.Db.DeleteUser | controller/adminController.js:140 | findByIdAndDelete removes the user with that id, after which no user has it |
| Store.Db.InsertVideo | model/videoModel.js:3-29 | the video is stored exactly when its title and file path are non-empty, with the next id and no question yet |
| Store.Db.InsertQuestion | controller/uploaderController.js:63-69 | the question is stored exactly when it validates, appended with the next id; ownership stays one-to-one |
| Store.Db.SaveQuestion | controller/adminController.js:266-269 | the revised question is written exactly when it validates |
| Store.Db.UpdateVideoMeta | controller/adminController.js:253 | findByIdAndUpdate writes the order and a given title of the video with that id; a missing id changes nothing |
| Store.Db.DeleteVideoCascade | controller/adminController.js:283-292 | reports whether the video existed; removes it and its question; afterwards neither can be found |
| Store.Db.InsertResponse | controller/userController.js:139-146 | the response collection becomes Recorded of the old one, and the outcome is validation error, duplicate key or inserted accordingly |
| Sessions.Session.Destroy | controller/adminController.js:192 | after destroy the session is anonymous |
| UserController.RegisterUser | controller/userController.js:28-47 | an existing email re-renders with "User already exist" and stores nothing; otherwise a user with role user and the hashed password is appended and the browser is redirected to login |
| UserController.Login | controller/userController.js:49-72 | unknown email and wrong password re-render with their messages and leave the session (so checkSession decides as before); success marks the session as user with the account id, redirects home, and the session then passes checkSession |
| UserController.RegisteredUserCanLogIn | controller/userController.js:32-61 | a freshly registered user logs in with the same password |
| UserController.Logout | controller/userController.js:74-77 | clears the user flag only and redirects to login |
| UserController.VideoUrl | controller/userController.js:100 | the file path when non-empty, else a stored legacy URL, else the empty string |
| UserController.LastQuestionFor | controller/userController.js:89-92 | the question a video is joined to is the last one of that video, none exactly when the video has none |
| UserController.LastQuestionStep | controller/userController.js:90-92 | one more question overwrites its own video's slot and no other |
| UserController.QuestionsOf | controller/userController.js:86 | the $in query holds exactly the questions of the listed videos |
| UserController.QuestionsOfKeepsLast | controller/userController.js:85-96 | narrowing to the listed videos does not change which question a listed video is joined to |
| UserController.IndexByVideo | controller/userController.js:89-92 | the forEach index answers, for every video, the last question of that video |
| UserController.GetVideos | controller/userController.js:79-118 | the feed is the active videos in an order ascending by order, each joined to its question |
| UserController.FeedIsActiveSortedComplete | controller/userController.js:82-111 | the feed has one entry per active video, is ascending by order, holds only active videos, and holds every active video joined to its question |
| UserController.CorrectAnswer | controller/userController.js:131 | findIndex: the first option marked correct, -1 exactly when none is |
| UserController.GradeMeaning | controller/userController.js:131-132 | an answer n >= 0 is right exactly when option n is the first one marked correct; -1 is right exactly when no option is marked |
| UserController.MarkThenGrade | controller/userController.js:131 | a question marked with an in-range index is graded against that index, and with any other index has no right answer |
| UserController.AnswerFor | controller/userController.js:121-158 | 400 exactly when questionId is falsy or selectedOption is absent; 404 exactly when the id names no question; 500 exactly when a present questionId does not cast to an ObjectId; an answer whenever it casts to a stored question, with that question's first correct index and whether Number(selectedOption) equals it |
| UserController.SubmitAnswer | controller/userController.js:121-158 | replies as AnswerFor; offers a row to the response log only for a user session that got an answer; nothing else in the database changes |
| UserController.StoredRowMatchesReply | controller/userController.js:135-153 | a stored row holds the session's user, the question, the option as a number in 0..3 and the verdict sent back |
| UserController.MissingVideoIdStoresNothing | controller/userController.js:141 | without a truthy videoId nothing is stored |
| UserController.SampleCorrectAnswer | controller/userController.js:131 | a question with options 1 and 2 both marked correct has correct answer 1 |
| UserController.GradingExample | controller/userController.js:131-153 | on that question, option 1 is right, option 2 is wrong, and a numeral string is graded like the number |
| UserController.GradingErrorsExample | controller/userController.js:124-129 | an unknown question id gives 404; a missing option or an empty question id gives 400 |
| Uploads.CollapseSpaces | controller/uploaderController.js:18 | the result is no longer than the name and is empty exactly when the name is; with CollapseSpacesRun and CollapseSpacesKeepsPlainNames, each maximal run of white space becomes exactly one underscore |
| Uploads.CollapseSpacesHasNoSpace | controller/uploaderController.js:18 | the replaced name holds no white space |
| Uploads.CollapseSpacesKeepsPlainNames | controller/uploaderController.js:18 | a name without white space is kept as it is |
| Uploads.CollapseAppend | controller/uploaderController.js:18 | the global replace over a concatenation is the replace over each part, the second started in the state the first leaves |
| Uploads.CollapseRun | controller/uploaderController.js:18 | a non-empty run of white space yields one underscore, or nothing inside a run already open |
| Uploads.CollapseSpacesRun | controller/uploaderController.js:18 | for all names, a maximal run of white space between two parts becomes exactly one underscore and each part is replaced on its own |
| Uploads.CollapseSpacesExample | controller/uploaderController.js:18 | a run of a space and a tab becomes one underscore |
| Uploads.CollapseSpacesIdempotent | controller/uploaderController.js:18 | replacing twice is replacing once |
| Uploads.StoredFileName | controller/uploaderController.js:17-20 | the stored file name holds no white space |
| Uploads.StoredFileNameTimestamp | controller/uploaderController.js:18 | the text before the first dash of a stored name reads back as the upload time |
| Uploads.VideoPath | controller/uploaderController.js:50 | the public path is /uploads/videos/ followed by exactly the stored file name |
| Uploads.ReceiveChecked | controller/uploaderController.js:23-28 | no part means no file; a part is stored exactly when its mimetype starts with video/ and it is at most 100 MiB, under the timestamped name |
| Uploads.ReceiveAny | controller/adminController.js:10 | the admin's multer stores any part under the random name |
| Uploads.MetadataOf | controller/uploaderController.js:48-56 | the title is the non-empty form title or else the original name; duration and order are the numbers given, 0 for NaN |
| OptionFields.Label | controller/adminController.js:261 | the placeholder "Option n" is never empty |
| OptionFields.OptionNamesDistinct | controller/adminController.js:260 | option0 to option9 are distinct field names, each ending in its digit |
| OptionFields.StoredTexts | controller/adminController.js:257 | one stored text per option, in order |
| OptionFields.Fallback | controller/adminController.js:261 | the stored text of the slot when non-empty, else its placeholder; never empty |
| OptionFields.Slot | controller/adminController.js:261 | the trimmed submitted text when it is non-empty, else the fallback; never empty |
| OptionFields.SlotKeepsStoredOnBlank | controller/adminController.js:261 | the slot falls back exactly when nothing was submitted, the submission is all white space, or its trim equals the fallback |
| AdminController.AdminHome | controller/adminController.js:48-51 | the uploader dashboard exactly when the lower-cased role is uploader, the admin dashboard otherwise |
| AdminController.AdminLogin | controller/adminController.js:29-57 | unknown email and wrong password re-render with their messages; success stores admin and the role (developer when missing) and redirects by role |
| AdminController.AdminLoginSessionIsAdmin | controller/adminController.js:45-46 | the session left by an admin login passes checkAdminSession, and an account without a role passes the developer check |
| AdminController.CapitalisedUploaderIsBounced | controller/adminController.js:48-49 | an admin stored with role "Uploader" is sent to /uploader/dashboard, whose gate answers it 403 |
| AdminController.AdminLogout | controller/adminController.js:190-205 | the session is destroyed and the browser sent to /admin/login |
| AdminController.RegisteredRedirect | controller/adminController.js:89-93 | the uploader login exactly when the submitted role, lower-cased, is uploader, the admin login otherwise |
| AdminController.RegisterAdmin | controller/adminController.js:70-99 | an existing email re-renders with "Admin already exists" and stores nothing; otherwise the admin is appended with the hashed password and the role (developer by default) |
| AdminController.AccountRowOf | controller/adminController.js:111-117 | a dashboard row keeps id and email; its role is the stored one when non-empty and otherwise defaults to user; isUser exactly when that role is user |
| AdminController.AccountRows | controller/adminController.js:111-117 | one row per user, in order |
| AdminController.DashboardMessage | controller/adminController.js:119-124 | a flash message exactly for success=deleted or success=updated |
| AdminController.LoadDashboard | controller/adminController.js:102-133 | a non-admin is redirected; an admin gets every user row and every video ascending by order |
| AdminController.LoadDeveloperDashboard | controller/adminController.js:208-232 | a non-admin is redirected, a non-developer gets 403, a developer gets every user row and every video ascending by order |
| AdminController.DeveloperDashboardChecksRedundant | controller/adminController.js:210-214 | every session the developer gate admits passes the handler's own checks |
| AdminController.DeleteUser | controller/adminController.js:136-147 | removes the user with that id, if any, and redirects with success=deleted |
| AdminController.PasswordGivenMeansNonBlank | controller/adminController.js:175 | a password counts as given exactly when it has a character that is not white space |
| AdminController.UpdateUser | controller/adminController.js:167-187 | the user with that id gets the new email, and the hashed new password only when one is given; redirects with success=updated |
| AdminController.AdminCorrectIndex | controller/adminController.js:265 | Number(correctAnswer) when non-zero, else -1; never 0 |
| AdminController.AdminMergeOptions | controller/adminController.js:257-263 | the loop yields, for each of the four slots, the trimmed option{i} field or its fallback |
| AdminController.AdminEditedShape | controller/adminController.js:257-268 | an admin edit leaves four non-empty options, at most one correct and never the first, the old text when none is sent, and a valid question |
| AdminController.AdminZeroMarksNone | controller/adminController.js:265-267 | correctAnswer "0" marks no option correct |
| AdminController.AdminUpdateVideo | controller/adminController.js:249-277 | writes title and order of the video; rewrites its question, if any, with the merged options; redirects to /admin/developer |
| AdminController.AdminDeleteVideo | controller/adminController.js:280-299 | deletes the video and its question when it exists; afterwards neither can be found; same redirect either way |
| AdminController.AdminHandleUpload | controller/adminController.js:313-335 | no file is 400; otherwise the video is stored with the form's metadata under the random name, or 500 when it does not validate |
| UploaderController.UploaderCorrectIndex | controller/uploaderController.js:60 | -1 when correctAnswer is absent, otherwise Number(correctAnswer), NaN included |
| UploaderController.UploadTexts | controller/uploaderController.js:59 | four texts; slot i is option{i+1} when that field is non-empty, and empty exactly when the field is absent or empty |
| UploaderController.UploadedQuestionMarks | controller/uploaderController.js:59-69 | an uploaded question has four options, at most one correct, and option i is correct exactly when the submitted index is i |
| UploaderController.UploadedQuestionValid | controller/uploaderController.js:59-69 | an uploaded question validates exactly when the question field is non-empty and every option text is non-empty |
| UploaderController.UploadedQuestionShape | controller/uploaderController.js:59-69 | an uploaded question has four options, at most one correct and exactly the submitted index when it is in 0..3; it validates exactly when its text and option texts are non-empty |
| UploaderController.UploaderHandleUpload | controller/uploaderController.js:42-78 | no file is 400, a refused file 500; otherwise the video is saved first and its question second, so an invalid question leaves the video stored and answers 500 |
| UploaderController.UploaderLogin | controller/uploaderController.js:93-115 | unknown email and wrong password re-render; an account whose role is neither uploader nor developer is refused; otherwise the session records admin, role and id |
| UploaderController.UploaderLoginSessionPassesGates | controller/uploaderController.js:106-110 | the session an uploader login leaves passes every uploader route |
| UploaderController.UploaderLogout | controller/uploaderController.js:117-128 | the session is destroyed and the browser sent to /uploader/login |
| UploaderController.UploaderLoadDashboard | controller/uploaderController.js:131-144 | a non-admin is redirected, another role gets 403, uploader or developer gets every video ascending by order |
| UploaderController.DashboardGateAgreesWithHandler | controller/uploaderController.js:133-136 | the route gate and the handler admit the same sessions, though they default a missing role differently |
| UploaderController.DualField | controller/uploaderController.js:174-176 | slot i reads option{i} when present, else option{i+1} |
| UploaderController.UploaderSlotText | controller/uploaderController.js:174-179 | one pass of the loop yields the trimmed option{i} (else option{i+1}) when non-empty, else the stored text or the placeholder |
| UploaderController.UploaderMergeOptions | controller/uploaderController.js:171-181 | the loop yields, for each of the four slots, the trimmed dual field or its fallback |
| UploaderController.UploaderEditedShape | controller/uploaderController.js:183-186 | an uploader edit leaves four non-empty options, at most one correct and exactly the submitted index, the old text when none is sent, and a valid question |
| UploaderController.ZeroMarksFirstOnlyHere | controller/uploaderController.js:183-185 | correctAnswer "0" marks the first option here but none in the admin edit |
| UploaderController.EditPathsAgree | controller/uploaderController.js:173-180 | where option{i} is sent, both edit paths give slot i the same text |
| UploaderController.UploadStyleNamesShift | controller/uploaderController.js:173-176 | with the upload form's names, slots 0 and 1 both read option1 and slot i reads option{i} after that |
| UploaderController.UploadStyleFirstTextTwice | controller/uploaderController.js:176-180 | a visible option1 text fills the first two slots |
| UploaderController.UploadStyleNamesInAdminEdit | controller/adminController.js:259-261 | the admin edit keeps the stored first text for such a form and reads option{i} for the rest |
| UploaderController.UploaderUpdateVideo | controller/uploaderController.js:161-195 | writes title and order of the video; rewrites its question, if any, with the merged options; redirects to the uploader dashboard |
| UploaderController.UploaderDeleteVideo | controller/uploaderController.js:198-218 | deletes the video and its question when it exists; afterwards neither can be found; same redirect either way |
| Values.NumberOr | controller/adminController.js:253 | Number(v) when it is a non-zero number; the fallback exactly when Number(v) is NaN or 0 |
| Values.TrimBlank | controller/adminController.js:175 | a string trims to empty exactly when all of it is white space |

## Left out

- The render-only handlers are not modelled: the two `loadLogin`, `loadRegister`, `loadHome`, `loadEditUser`, both `loadEditVideo` and both `loadUploadForm`. They only render a view or redirect.
- `server.js` and `createFirstAdmin.js` (application wiring and a one-off script) are not part of this model.
- `model/userModel.js` and `model/adminModel.js` are not part of this model. Accounts have the shape the controllers read and write. Email uniqueness is only what registration checks, and `updateUser` can write a duplicate email.
- bcrypt salts, cost and timing are left out. A hash is an injective function of the password, and compare is equality.
- File-system effects are left out, because they are I/O: multer's disk writes, `mkdirSync`, and the `unlinkSync` of a deleted video's file (whose failure the handlers ignore). The admin's multer writes into `uploads/` (controller/adminController.js:10) while the stored path says `/uploads/videos/<name>` (controller/adminController.js:320), so an admin-uploaded video points at a file that is not there; the model keeps the path string as written.
- The application-wide `nocache()` (server.js:21) makes every response uncacheable, whatever gate it passed. The model records only the headers each gate sets itself (Auth.GateResult.noCache).
- `Date.now` and `toLocaleString` are left out. The clock is a `now` parameter, and the formatted `createdAt` column of the dashboard rows is not kept.
- The admin's multer names files at random. The name is a parameter.
- Database and network failures that end in the handlers' 500 branches are left out, as is concurrency between requests. The check-then-insert of both registrations and the unique response index are single steps here.
- A route id that is not a valid ObjectId makes Mongoose throw a CastError (500). Ids here are naturals.
- Request bodies missing `email` or `password` are not modelled. Those fields are plain strings here, so bcrypt's error on an undefined password is not modelled.
- Every form field is a single string here (`Form` maps a name to one string). A field sent twice arrives as an array: in the admin edit `.trim()` then throws and the reply is 500 (controller/adminController.js:261), and in the uploader edit the `typeof` guard skips the trim and the array reaches Mongoose's string cast. Neither path is modelled.
- Store.Db.UpdateVideoMeta: an absent `title` in an edit leaves the title unchanged (Store.WithMeta). This assumes Mongoose drops undefined keys from an update, as Mongoose 7 and later do; with an older Mongoose and no `omitUndefined`, the title would be set to null. No dependency manifest fixes the version.
- `Number(...)` reads integer literals only (no decimals, exponents, hex or Infinity), and `toLowerCase` changes ASCII letters only.
- The error callback of `req.session.destroy` is left out. Destroying always succeeds.
- The counts of `/admin/test-models` are not modelled; only its gate is.
- The `MulterError` branch of the uploader's `handleUpload` is left out. A multer error never reaches the handler; it goes to Express's default error handler (a 500), which is what the model answers for a refused file.
- Store.SortByOrder: the order among videos with equal `order` is left unspecified. The database does not fix it either.
- UserController.GetVideos: the feed is stated up to that tie order, as the existence of a sorted permutation.
- Http.Reply: the bodies of status replies (`'Forbidden'`, error JSON) are not kept. Only the status code is.
