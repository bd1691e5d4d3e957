/** The database the handlers talk to, in memory: the users and admins
    collections, videos, questions and user responses. Collections are read in
    natural (insertion) order, which is what `findOne` and an unsorted `find`
    see. */
module Store {
  import opened Values
  import opened Accounts
  import opened VideoModel
  import opened QuestionModel
  import opened ResponseModel

  function AccountKey(a: Account): Id { a.id }
  function VideoKey(v: Video): Id { v.id }
  function QuestionKey(q: Question): Id { q.id }
  function OwnerKey(q: Question): Id { q.videoId }

  predicate UniqueBy<T>(s: seq<T>, key: T -> Id) {
    forall i, j :: 0 <= i < j < |s| ==> key(s[i]) != key(s[j])
  }

  predicate KeysBelow<T>(s: seq<T>, key: T -> Id, bound: nat) {
    forall i :: 0 <= i < |s| ==> key(s[i]) < bound
  }

  function KeySet<T>(s: seq<T>, key: T -> Id): set<Id> {
    set i | 0 <= i < |s| :: key(s[i])
  }

  function RemoveAt<T>(s: seq<T>, i: nat): (r: seq<T>)
    requires i < |s|
    ensures |r| == |s| - 1
    ensures forall j :: 0 <= j < i ==> r[j] == s[j]
    ensures forall j :: i <= j < |r| ==> r[j] == s[j + 1]
  {
    s[..i] + s[i + 1..]
  }

  /** Removing one document keeps the ids unique and removes exactly its id. */
  lemma RemoveAtKeys<T>(s: seq<T>, key: T -> Id, i: nat)
    requires i < |s| && UniqueBy(s, key)
    ensures UniqueBy(RemoveAt(s, i), key)
    ensures KeySet(RemoveAt(s, i), key) == KeySet(s, key) - {key(s[i])}
  {
    var r := RemoveAt(s, i);
    forall a, b | 0 <= a < b < |r| ensures key(r[a]) != key(r[b]) {
      var fa := if a < i then a else a + 1;
      var fb := if b < i then b else b + 1;
      assert r[a] == s[fa] && r[b] == s[fb];
    }
    forall x | x in KeySet(r, key) ensures x in KeySet(s, key) - {key(s[i])} {
      var a :| 0 <= a < |r| && key(r[a]) == x;
      var fa := if a < i then a else a + 1;
      assert r[a] == s[fa];
    }
    forall x | x in KeySet(s, key) - {key(s[i])} ensures x in KeySet(r, key) {
      var b :| 0 <= b < |s| && key(s[b]) == x;
      var a := if b < i then b else b - 1;
      assert r[a] == s[b];
    }
  }

  /** Appending a document with a fresh id keeps the ids unique and adds its id. */
  lemma AppendKeys<T>(s: seq<T>, key: T -> Id, x: T, bound: nat)
    requires UniqueBy(s, key) && KeysBelow(s, key, bound) && key(x) == bound
    ensures UniqueBy(s + [x], key) && KeysBelow(s + [x], key, bound + 1)
    ensures KeySet(s + [x], key) == KeySet(s, key) + {key(x)}
  {
    var r := s + [x];
    forall y | y in KeySet(s, key) ensures y in KeySet(r, key) {
      var a :| 0 <= a < |s| && key(s[a]) == y;
      assert r[a] == s[a];
    }
    assert r[|s|] == x;
  }

  /** Overwriting a document with one of the same id changes no id. */
  lemma ReplaceKeys<T>(s: seq<T>, key: T -> Id, i: nat, y: T)
    requires i < |s| && key(y) == key(s[i])
    ensures UniqueBy(s, key) ==> UniqueBy(s[i := y], key)
    ensures KeySet(s[i := y], key) == KeySet(s, key)
  {
    var r := s[i := y];
    assert forall a :: 0 <= a < |s| ==> key(r[a]) == key(s[a]);
    forall x | x in KeySet(s, key) ensures x in KeySet(r, key) {
      var a :| 0 <= a < |s| && key(s[a]) == x;
      assert key(r[a]) == x;
    }
  }

  /** Every question belongs to a stored video, and no video has two: the
      one-to-one ownership that upload and cascading delete maintain. */
  predicate Owned(questions: seq<Question>, videos: seq<Video>) {
    && UniqueBy(questions, OwnerKey)
    && forall i :: 0 <= i < |questions| ==> questions[i].videoId in KeySet(videos, VideoKey)
  }

  /** `findOne({ email })` */
  function FindByEmail(accounts: seq<Account>, email: string): (r: Option<nat>)
    ensures r.Some? ==> r.value < |accounts| && accounts[r.value].email == email
                        && forall j :: 0 <= j < r.value ==> accounts[j].email != email
    ensures r.None? <==> forall j :: 0 <= j < |accounts| ==> accounts[j].email != email
  {
    FirstIndex(accounts, (a: Account) => a.email == email)
  }

  /** How the three login handlers end: `findOne({ email })` finds no
      account, `bcrypt.compare` fails, or the account is logged in. */
  datatype LoginResult = UnknownEmail | WrongPassword | LoggedIn(account: Account)

  function CheckCredentials(accounts: seq<Account>, email: string, password: string): (r: LoginResult)
    ensures r == UnknownEmail <==> forall j :: 0 <= j < |accounts| ==> accounts[j].email != email
    ensures r == WrongPassword <==> FindByEmail(accounts, email).Some?
                                    && !Matches(password, accounts[FindByEmail(accounts, email).value].password)
    ensures r.LoggedIn? ==> r.account in accounts && r.account.email == email && Matches(password, r.account.password)
    ensures r.LoggedIn? ==> FindByEmail(accounts, email).Some? && r.account == accounts[FindByEmail(accounts, email).value]
  {
    match FindByEmail(accounts, email)
    case None => UnknownEmail
    case Some(i) => if Matches(password, accounts[i].password) then LoggedIn(accounts[i]) else WrongPassword
  }

  /** An account appended under an email no other account has can log in with
      its password: registration and login agree. */
  lemma AppendedAccountLogsIn(accounts: seq<Account>, a: Account, password: string)
    requires FindByEmail(accounts, a.email).None? && a.password == Hash(password)
    ensures CheckCredentials(accounts + [a], a.email, password) == LoggedIn(a)
  {
    var r := accounts + [a];
    assert r[|accounts|] == a;
    assert forall j :: 0 <= j < |accounts| ==> r[j].email != a.email;
  }

  /** `findById(id)` on an accounts collection */
  function FindAccount(accounts: seq<Account>, id: Id): (r: Option<nat>)
    ensures r.Some? ==> r.value < |accounts| && accounts[r.value].id == id
    ensures r.None? <==> id !in KeySet(accounts, AccountKey)
  {
    FirstIndex(accounts, (a: Account) => a.id == id)
  }

  /** `findById(id)` on the videos */
  function FindVideo(videos: seq<Video>, id: Id): (r: Option<nat>)
    ensures r.Some? ==> r.value < |videos| && videos[r.value].id == id
    ensures r.None? <==> id !in KeySet(videos, VideoKey)
  {
    FirstIndex(videos, (v: Video) => v.id == id)
  }

  /** `findById(id)` on the questions */
  function FindQuestion(questions: seq<Question>, id: Id): (r: Option<nat>)
    ensures r.Some? ==> r.value < |questions| && questions[r.value].id == id
    ensures r.None? <==> id !in KeySet(questions, QuestionKey)
  {
    FirstIndex(questions, (q: Question) => q.id == id)
  }

  /** `findOne({ videoId })` and `deleteOne({ videoId })` on the questions */
  function FindQuestionOf(questions: seq<Question>, videoId: Id): (r: Option<nat>)
    ensures r.Some? ==> r.value < |questions| && questions[r.value].videoId == videoId
    ensures r.None? <==> videoId !in KeySet(questions, OwnerKey)
  {
    FirstIndex(questions, (q: Question) => q.videoId == videoId)
  }

  /** `find({ isActive: true })` */
  function ActiveOf(videos: seq<Video>): (r: seq<Video>)
    ensures forall v :: v in r <==> v in videos && v.isActive
    ensures forall v {:trigger multiset(r)[v]} :: multiset(r)[v] == if v.isActive then multiset(videos)[v] else 0
  {
    if videos == [] then []
    else
      var last := videos[|videos| - 1];
      assert videos == videos[..|videos| - 1] + [last];
      ActiveOf(videos[..|videos| - 1]) + (if last.isActive then [last] else [])
  }

  function Min(a: int, b: int): int {
    if a <= b then a else b
  }

  predicate SortedByOrder(videos: seq<Video>) {
    forall i, j :: 0 <= i < j < |videos| ==> videos[i].order <= videos[j].order
  }

  /** One step of an insertion sort on `order` */
  function InsertByOrder(sorted: seq<Video>, v: Video): seq<Video> {
    if sorted == [] then [v]
    else if v.order < sorted[0].order then [v] + sorted
    else [sorted[0]] + InsertByOrder(sorted[1..], v)
  }

  /** Inserting adds exactly `v`. */
  lemma {:induction false} InsertByOrderAdds(sorted: seq<Video>, v: Video)
    ensures multiset(InsertByOrder(sorted, v)) == multiset(sorted) + multiset{v}
  {
    if sorted != [] && v.order >= sorted[0].order {
      assert sorted == [sorted[0]] + sorted[1..];
      InsertByOrderAdds(sorted[1..], v);
    }
  }

  /** The first element of a sorted sequence is at or below every other. */
  lemma SortedTail(sorted: seq<Video>)
    requires SortedByOrder(sorted) && sorted != []
    ensures SortedByOrder(sorted[1..])
    ensures forall k :: 0 <= k < |sorted[1..]| ==> sorted[0].order <= sorted[1..][k].order
  {
    var tail := sorted[1..];
    forall i, j | 0 <= i < j < |tail| ensures tail[i].order <= tail[j].order {
      assert tail[i] == sorted[i + 1] && tail[j] == sorted[j + 1];
    }
    forall k | 0 <= k < |tail| ensures sorted[0].order <= tail[k].order {
      assert tail[k] == sorted[k + 1];
    }
  }

  /** Prefixing an element at or below a sorted sequence keeps it sorted. */
  lemma ConsSorted(x: Video, s: seq<Video>)
    requires SortedByOrder(s) && forall k :: 0 <= k < |s| ==> x.order <= s[k].order
    ensures SortedByOrder([x] + s)
  {
    var r := [x] + s;
    forall i, j | 0 <= i < j < |r| ensures r[i].order <= r[j].order {
      assert r[j] == s[j - 1];
      if i > 0 {
        assert r[i] == s[i - 1];
      }
    }
  }

  /** Inserting keeps the sequence sorted, and keeps every order at or above
      any bound that `v` and the sequence respect. */
  lemma {:induction false} InsertByOrderSorted(sorted: seq<Video>, v: Video, lo: int)
    requires SortedByOrder(sorted)
    requires lo <= v.order && forall k :: 0 <= k < |sorted| ==> lo <= sorted[k].order
    ensures SortedByOrder(InsertByOrder(sorted, v))
    ensures forall k :: 0 <= k < |InsertByOrder(sorted, v)| ==> lo <= InsertByOrder(sorted, v)[k].order
  {
    var r := InsertByOrder(sorted, v);
    if sorted == [] {
    } else if v.order < sorted[0].order {
      assert forall k :: 0 <= k < |sorted| ==> v.order <= sorted[k].order by {
        forall k | 0 <= k < |sorted| ensures v.order <= sorted[k].order {
          if k > 0 {
            assert sorted[0].order <= sorted[k].order;
          }
        }
      }
      ConsSorted(v, sorted);
      forall k | 0 <= k < |r| ensures lo <= r[k].order {
        if k > 0 {
          assert r[k] == sorted[k - 1];
        }
      }
    } else {
      SortedTail(sorted);
      InsertByOrderSorted(sorted[1..], v, sorted[0].order);
      var rest := InsertByOrder(sorted[1..], v);
      ConsSorted(sorted[0], rest);
      forall k | 0 <= k < |r| ensures lo <= r[k].order {
        if k > 0 {
          assert r[k] == rest[k - 1];
        }
      }
    }
  }

  /** `.sort({ order: 1 })`: the database returns the documents ascending by
      `order`. Only this contract is relied on, so the order among videos of
      equal `order` stays unspecified. */
  method SortByOrder(videos: seq<Video>) returns (sorted: seq<Video>)
    ensures SortedByOrder(sorted)
    ensures multiset(sorted) == multiset(videos)
  {
    sorted := [];
    for i := 0 to |videos|
      invariant SortedByOrder(sorted)
      invariant multiset(sorted) == multiset(videos[..i])
    {
      assert videos[..i + 1] == videos[..i] + [videos[i]];
      InsertByOrderSorted(sorted, videos[i], if sorted == [] then videos[i].order else Min(sorted[0].order, videos[i].order));
      InsertByOrderAdds(sorted, videos[i]);
      sorted := InsertByOrder(sorted, videos[i]);
    }
    assert videos[..|videos|] == videos;
  }

  /** `{ email, password }` written over a user; the password only when a new
      hash is given */
  function Edited(a: Account, email: string, password: Option<Digest>): Account {
    a.(email := email, password := if password.Some? then password.value else a.password)
  }

  /** `{ title, order }` written over a video; an absent title is dropped from
      the update */
  function WithMeta(v: Video, title: Option<string>, order: int): Video {
    v.(title := if title.Some? then title.value else v.title, order := order)
  }

  function Revised(q: Question, questionText: string, options: seq<Choice>, showAt: ShowAt): Question {
    q.(questionText := questionText, options := options, showAt := showAt)
  }

  /** The questions after `deleteOne({ videoId })`: the first question of the
      video, if any, is gone. */
  function WithoutQuestionOf(questions: seq<Question>, videoId: Id): (r: seq<Question>)
    ensures forall k :: 0 <= k < |r| ==> r[k] in questions
    ensures forall q :: q in questions && q.videoId != videoId ==> q in r
    ensures |r| == if videoId in KeySet(questions, OwnerKey) then |questions| - 1 else |questions|
    ensures FindQuestionOf(questions, videoId).Some? ==> r == RemoveAt(questions, FindQuestionOf(questions, videoId).value)
  {
    match FindQuestionOf(questions, videoId)
    case None => questions
    case Some(j) => RemoveAt(questions, j)
  }

  /** A video that is not stored owns no question. */
  lemma NoVideoNoQuestion(questions: seq<Question>, videos: seq<Video>, id: Id)
    requires Owned(questions, videos) && id !in KeySet(videos, VideoKey)
    ensures id !in KeySet(questions, OwnerKey)
  {
    assert forall j :: 0 <= j < |questions| ==> OwnerKey(questions[j]) != id;
  }

  /** Deleting the video at `i` together with its question keeps every id
      unique and every remaining question owned by a remaining video. */
  lemma CascadeKeepsOwnership(questions: seq<Question>, videos: seq<Video>, i: nat)
    requires i < |videos| && UniqueBy(videos, VideoKey) && UniqueBy(questions, QuestionKey)
    requires Owned(questions, videos)
    ensures var r := WithoutQuestionOf(questions, videos[i].id);
            && UniqueBy(r, QuestionKey) && Owned(r, RemoveAt(videos, i))
            && videos[i].id !in KeySet(r, OwnerKey)
            && UniqueBy(RemoveAt(videos, i), VideoKey)
            && KeySet(RemoveAt(videos, i), VideoKey) == KeySet(videos, VideoKey) - {videos[i].id}
  {
    var id := videos[i].id;
    var r := WithoutQuestionOf(questions, id);
    match FindQuestionOf(questions, id) {
      case None =>
      case Some(j) =>
        RemoveAtKeys(questions, QuestionKey, j);
        RemoveAtKeys(questions, OwnerKey, j);
    }
    assert KeySet(r, OwnerKey) == KeySet(questions, OwnerKey) - {id};
    RemoveAtKeys(videos, VideoKey, i);
    forall k | 0 <= k < |r| ensures r[k].videoId in KeySet(RemoveAt(videos, i), VideoKey) {
      assert OwnerKey(r[k]) in KeySet(r, OwnerKey);
      var m :| 0 <= m < |questions| && questions[m] == r[k];
      assert questions[m].videoId in KeySet(videos, VideoKey);
    }
  }

  datatype AccountKind = Users | Admins

  class Db {
    var users: seq<Account>
    var admins: seq<Account>
    var videos: seq<Video>
    var questions: seq<Question>
    var responses: map<Key, Response>
    /** The next ObjectId to hand out */
    var nextId: nat

    ghost predicate Valid()
      reads this
    {
      && UniqueBy(users, AccountKey) && KeysBelow(users, AccountKey, nextId)
      && UniqueBy(admins, AccountKey) && KeysBelow(admins, AccountKey, nextId)
      && UniqueBy(videos, VideoKey) && KeysBelow(videos, VideoKey, nextId)
      && UniqueBy(questions, QuestionKey) && KeysBelow(questions, QuestionKey, nextId)
      && (forall i :: 0 <= i < |questions| ==> ValidQuestion(questions[i]))
      && Owned(questions, videos)
      && Keyed(responses)
    }

    function AccountsOf(kind: AccountKind): seq<Account>
      reads this
    {
      if kind == Users then users else admins
    }

    constructor ()
      ensures Valid()
      ensures users == [] && admins == [] && videos == [] && questions == [] && responses == map[]
    {
      users, admins, videos, questions, responses, nextId := [], [], [], [], map[], 0;
    }

    /** `new model({ ... }).save()` on users or admins: the account gets a
        fresh id and is appended. */
    method InsertAccount(kind: AccountKind, email: string, password: Digest, role: Option<string>)
      returns (account: Account)
      requires Valid()
      modifies this
      ensures Valid()
      ensures account == Account(old(nextId), email, password, role)
      ensures kind == Users ==> users == old(users) + [account] && admins == old(admins)
      ensures kind == Admins ==> admins == old(admins) + [account] && users == old(users)
      ensures videos == old(videos) && questions == old(questions) && responses == old(responses)
    {
      account := Account(nextId, email, password, role);
      if kind == Users {
        AppendKeys(users, AccountKey, account, nextId);
        users := users + [account];
      } else {
        AppendKeys(admins, AccountKey, account, nextId);
        admins := admins + [account];
      }
      nextId := nextId + 1;
    }

    /** `usermodal.findByIdAndUpdate(id, update)`: a missing id changes nothing. */
    method UpdateUser(id: Id, email: string, password: Option<Digest>)
      requires Valid()
      modifies this
      ensures Valid()
      ensures users == match FindAccount(old(users), id)
                       case None => old(users)
                       case Some(i) => old(users)[i := Edited(old(users)[i], email, password)]
      ensures admins == old(admins) && videos == old(videos) && questions == old(questions)
      ensures responses == old(responses)
    {
      match FindAccount(users, id) {
        case None =>
        case Some(i) =>
          ReplaceKeys(users, AccountKey, i, Edited(users[i], email, password));
          users := users[i := Edited(users[i], email, password)];
      }
    }

    /** `usermodal.findByIdAndDelete(id)`: a missing id changes nothing. */
    method DeleteUser(id: Id)
      requires Valid()
      modifies this
      ensures Valid()
      ensures users == match FindAccount(old(users), id)
                       case None => old(users)
                       case Some(i) => RemoveAt(old(users), i)
      ensures FindAccount(users, id).None?
      ensures admins == old(admins) && videos == old(videos) && questions == old(questions)
      ensures responses == old(responses)
    {
      match FindAccount(users, id) {
        case None =>
        case Some(i) =>
          RemoveAtKeys(users, AccountKey, i);
          users := RemoveAt(users, i);
      }
    }

    /** `new videoModel({ ... }).save()`: the video is stored only when it
        passes validation. */
    method InsertVideo(title: string, videoFilePath: string, duration: int, order: int, now: int)
      returns (saved: Option<Video>)
      requires Valid()
      modifies this
      ensures Valid()
      ensures saved.Some? <==> title != "" && videoFilePath != ""
      ensures saved.Some? ==> saved.value == NewVideo(old(nextId), title, videoFilePath, duration, order, now)
                              && videos == old(videos) + [saved.value]
      ensures saved.None? ==> videos == old(videos)
      ensures saved.Some? ==> saved.value.id in KeySet(videos, VideoKey) && saved.value.id !in KeySet(questions, OwnerKey)
      ensures nextId == if saved.Some? then old(nextId) + 1 else old(nextId)
      ensures users == old(users) && admins == old(admins) && questions == old(questions)
      ensures responses == old(responses)
    {
      var v := NewVideo(nextId, title, videoFilePath, duration, order, now);
      if ValidVideo(v) {
        AppendKeys(videos, VideoKey, v, nextId);
        assert forall j :: 0 <= j < |questions| ==> questions[j].videoId != nextId by {
          forall j | 0 <= j < |questions| ensures questions[j].videoId != nextId {
            assert questions[j].videoId in KeySet(videos, VideoKey);
            var k :| 0 <= k < |videos| && VideoKey(videos[k]) == questions[j].videoId;
          }
        }
        videos := videos + [v];
        nextId := nextId + 1;
        saved := Some(v);
      } else {
        saved := None;
      }
    }

    /** `new questionModel({ ... }).save()` for a video that has no question
        yet: stored only when it passes validation. */
    method InsertQuestion(videoId: Id, questionText: string, options: seq<Choice>, showAt: ShowAt)
      returns (saved: Option<Question>)
      requires Valid()
      requires videoId in KeySet(videos, VideoKey) && videoId !in KeySet(questions, OwnerKey)
      modifies this
      ensures Valid()
      ensures saved.Some? <==> ValidQuestion(Question(old(nextId), videoId, questionText, options, showAt))
      ensures saved.Some? ==> saved.value == Question(old(nextId), videoId, questionText, options, showAt)
                              && questions == old(questions) + [saved.value]
      ensures saved.None? ==> questions == old(questions)
      ensures users == old(users) && admins == old(admins) && videos == old(videos)
      ensures responses == old(responses)
    {
      var q := Question(nextId, videoId, questionText, options, showAt);
      if ValidQuestion(q) {
        AppendKeys(questions, QuestionKey, q, nextId);
        assert forall i :: 0 <= i < |questions| ==> questions[i].videoId != videoId by {
          forall i | 0 <= i < |questions| ensures questions[i].videoId != videoId {
            assert OwnerKey(questions[i]) in KeySet(questions, OwnerKey);
          }
        }
        questions := questions + [q];
        nextId := nextId + 1;
        saved := Some(q);
      } else {
        saved := None;
      }
    }

    /** `q.save()` after changing the text, options and timing of the question
        at position `i`: validation decides whether it is written. */
    method SaveQuestion(i: nat, questionText: string, options: seq<Choice>, showAt: ShowAt)
      returns (ok: bool)
      requires Valid() && i < |questions|
      modifies this
      ensures Valid()
      ensures ok == ValidQuestion(Revised(old(questions)[i], questionText, options, showAt))
      ensures questions == if ok then old(questions)[i := Revised(old(questions)[i], questionText, options, showAt)]
                           else old(questions)
      ensures users == old(users) && admins == old(admins) && videos == old(videos)
      ensures responses == old(responses)
    {
      var q := Revised(questions[i], questionText, options, showAt);
      ok := ValidQuestion(q);
      if ok {
        ReplaceKeys(questions, QuestionKey, i, q);
        ReplaceKeys(questions, OwnerKey, i, q);
        questions := questions[i := q];
      }
    }

    /** `videoModel.findByIdAndUpdate(id, { title, order })`. Update queries
        run no validators, so an empty title is written as given. */
    method UpdateVideoMeta(id: Id, title: Option<string>, order: int)
      requires Valid()
      modifies this
      ensures Valid()
      ensures videos == match FindVideo(old(videos), id)
                        case None => old(videos)
                        case Some(i) => old(videos)[i := WithMeta(old(videos)[i], title, order)]
      ensures users == old(users) && admins == old(admins) && questions == old(questions)
      ensures responses == old(responses)
    {
      match FindVideo(videos, id) {
        case None =>
        case Some(i) =>
          ReplaceKeys(videos, VideoKey, i, WithMeta(videos[i], title, order));
          videos := videos[i := WithMeta(videos[i], title, order)];
      }
    }

    /** The cascade of both delete handlers: `findById(id)`, then
        `questionModel.deleteOne({ videoId })`, then `findByIdAndDelete(id)`.
        Afterwards neither the video nor a question of it can be found. */
    method DeleteVideoCascade(id: Id) returns (found: bool)
      requires Valid()
      modifies this
      ensures Valid()
      ensures found <==> id in KeySet(old(videos), VideoKey)
      ensures !found ==> videos == old(videos) && questions == old(questions)
      ensures found ==> videos == RemoveAt(old(videos), FindVideo(old(videos), id).value)
      ensures found ==> questions == WithoutQuestionOf(old(questions), id)
      ensures FindVideo(videos, id).None? && FindQuestionOf(questions, id).None?
      ensures users == old(users) && admins == old(admins) && responses == old(responses)
    {
      match FindVideo(videos, id) {
        case None =>
          found := false;
          NoVideoNoQuestion(questions, videos, id);
        case Some(i) =>
          found := true;
          CascadeKeepsOwnership(questions, videos, i);
          questions := WithoutQuestionOf(questions, id);
          videos := RemoveAt(videos, i);
      }
    }

    /** `new userResponseModel({ ... }).save()` under the unique index:
        validation first, then the duplicate-key check. */
    method InsertResponse(d: Draft, now: int) returns (outcome: InsertOutcome)
      requires Valid()
      modifies this
      ensures Valid()
      ensures outcome == OutcomeOf(old(responses), d, now)
      ensures responses == Recorded(old(responses), d, now)
      ensures users == old(users) && admins == old(admins) && videos == old(videos)
      ensures questions == old(questions)
    {
      outcome := OutcomeOf(responses, d, now);
      responses := Recorded(responses, d, now);
    }
  }
}
