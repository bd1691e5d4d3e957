/** The user-response document (model/userResponseModel.js) and its unique
    index on (userId, videoId, questionId). */
module ResponseModel {
  import opened Values

  datatype Key = Key(userId: Id, videoId: Id, questionId: Id)

  datatype Response = Response(
    userId: Id,
    videoId: Id,
    questionId: Id,
    selectedOption: int,
    isCorrect: bool,
    answeredAt: int)

  function KeyOf(r: Response): Key {
    Key(r.userId, r.videoId, r.questionId)
  }

  /** `selectedOption` lies in 0..3 (the schema's min and max). */
  predicate ValidResponse(r: Response) {
    0 <= r.selectedOption <= 3
  }

  /** The fields a handler hands to `new userResponseModel(...)`, before
      validation: None is a null, a missing value or one that does not cast
      (an id that is not an ObjectId, a NaN option). */
  datatype Draft = Draft(
    userId: Option<Id>,
    videoId: Option<Id>,
    questionId: Option<Id>,
    selectedOption: Option<int>,
    isCorrect: bool)

  /** Schema validation on `save()`: the three ids and `selectedOption` are
      required, `selectedOption` must lie in 0..3, and `answeredAt` defaults
      to the time of the save. */
  function Validate(d: Draft, now: int): (r: Option<Response>)
    ensures r.Some? <==> d.userId.Some? && d.videoId.Some? && d.questionId.Some?
                         && d.selectedOption.Some? && 0 <= d.selectedOption.value <= 3
    ensures r.Some? ==> ValidResponse(r.value) && r.value.isCorrect == d.isCorrect
                        && Some(r.value.userId) == d.userId && Some(r.value.videoId) == d.videoId
                        && Some(r.value.questionId) == d.questionId
                        && Some(r.value.selectedOption) == d.selectedOption
  {
    if d.userId.Some? && d.videoId.Some? && d.questionId.Some? && d.selectedOption.Some?
       && 0 <= d.selectedOption.value <= 3
    then Some(Response(d.userId.value, d.videoId.value, d.questionId.value, d.selectedOption.value, d.isCorrect, now))
    else None
  }

  /** The collection invariant: every stored row passed validation and sits
      under its own key, so the unique index holds by construction. */
  predicate Keyed(rows: map<Key, Response>) {
    forall k :: k in rows ==> ValidResponse(rows[k]) && KeyOf(rows[k]) == k
  }

  /** How `save()` ends: a validation error, a duplicate key (error code
      11000), or a new row. */
  datatype InsertOutcome = ValidationError | DuplicateKey | Inserted

  function OutcomeOf(rows: map<Key, Response>, d: Draft, now: int): InsertOutcome {
    match Validate(d, now)
    case None => ValidationError
    case Some(r) => if KeyOf(r) in rows then DuplicateKey else Inserted
  }

  /** The collection after `save()`: the row is added only when it validates
      and its key is new; a rejected row leaves the collection as it was. */
  function Recorded(rows: map<Key, Response>, d: Draft, now: int): (after: map<Key, Response>)
    ensures Keyed(rows) ==> Keyed(after)
    ensures OutcomeOf(rows, d, now) == Inserted ==> after == rows[KeyOf(Validate(d, now).value) := Validate(d, now).value]
    ensures OutcomeOf(rows, d, now) != Inserted ==> after == rows
  {
    match Validate(d, now)
    case None => rows
    case Some(r) => if KeyOf(r) in rows then rows else rows[KeyOf(r) := r]
  }

  /** The log is append-only: rows already stored keep their values, and at
      most one row is added. */
  lemma RecordedAppendOnly(rows: map<Key, Response>, d: Draft, now: int)
    ensures forall k :: k in rows ==> k in Recorded(rows, d, now) && Recorded(rows, d, now)[k] == rows[k]
    ensures |Recorded(rows, d, now)| <= |rows| + 1
  {
    var after := Recorded(rows, d, now);
    if OutcomeOf(rows, d, now) == Inserted {
      var k := KeyOf(Validate(d, now).value);
      assert after.Keys == rows.Keys + {k};
    }
  }

  /** Submitting the same answer again, at any later time, stores nothing new. */
  lemma RecordedIdempotent(rows: map<Key, Response>, d: Draft, now: int, later: int)
    ensures Recorded(Recorded(rows, d, now), d, later) == Recorded(rows, d, now)
  {
  }

  /** At most one row per (user, video, question): a second draft with the same
      key never replaces or duplicates the first. */
  lemma OneRowPerKey(rows: map<Key, Response>, d1: Draft, d2: Draft, now1: int, now2: int)
    requires Keyed(rows)
    requires Validate(d1, now1).Some? && Validate(d2, now2).Some?
    requires KeyOf(Validate(d1, now1).value) == KeyOf(Validate(d2, now2).value)
    ensures var k := KeyOf(Validate(d1, now1).value);
            Recorded(Recorded(rows, d1, now1), d2, now2)[k] == Recorded(rows, d1, now1)[k]
  {
  }

  /** A draft with no video id (the handler's `videoId || null`) or an option
      outside 0..3 is never stored. */
  lemma RejectedDraftsStoreNothing(rows: map<Key, Response>, d: Draft, now: int)
    requires d.videoId.None? || d.userId.None? || d.selectedOption.None?
             || (d.selectedOption.Some? && !(0 <= d.selectedOption.value <= 3))
    ensures OutcomeOf(rows, d, now) == ValidationError && Recorded(rows, d, now) == rows
  {
  }
}
