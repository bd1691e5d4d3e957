/** The question document (model/questionModel.js). */
module QuestionModel {
  import opened Values

  /** The `showAt` enum: reveal the question at the end of playback or during it */
  datatype ShowAt = End | During

  /** One entry of `options` */
  datatype Choice = Choice(text: string, isCorrect: bool)

  datatype Question = Question(id: Id, videoId: Id, questionText: string, options: seq<Choice>, showAt: ShowAt)

  /** What `save()` checks: `videoId` is required (the type guarantees it),
      `questionText` and every option's `text` are required strings and so
      non-empty. Neither the number of options nor the number marked correct
      is constrained. */
  predicate ValidQuestion(q: Question) {
    q.questionText != "" && forall i :: 0 <= i < |q.options| ==> q.options[i].text != ""
  }

  /** `showAt === 'during' ? 'during' : 'end'` */
  function ShowAtOf(field: Option<string>): (s: ShowAt)
    ensures s == During <==> field == Some("during")
  {
    if field == Some("during") then During else End
  }

  /** `texts.map((txt, idx) => ({ text: txt, isCorrect: idx === correctIndex }))`;
      None is a NaN index, which no position equals. */
  function Mark(texts: seq<string>, correctIndex: Option<int>): (opts: seq<Choice>)
    ensures |opts| == |texts|
    ensures forall i :: 0 <= i < |opts| ==> opts[i].text == texts[i]
  {
    seq(|texts|, i requires 0 <= i < |texts| => Choice(texts[i], Some(i) == correctIndex))
  }

  /** However the index is chosen, at most one option comes out correct, and
      exactly the one at the index when it is in range. */
  lemma MarkAtMostOne(texts: seq<string>, correctIndex: Option<int>, i: int, j: int)
    requires 0 <= i < |texts| && 0 <= j < |texts|
    ensures Mark(texts, correctIndex)[i].isCorrect && Mark(texts, correctIndex)[j].isCorrect ==> i == j
    ensures Mark(texts, correctIndex)[i].isCorrect <==> correctIndex == Some(i)
  {
  }
}
