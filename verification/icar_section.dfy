/** The ICAR cognitive-reasoning section: ten placeholder questions with list-shaped answers. */
module ICARSection {
  import opened Seqs
  import opened ResponseList

  /** Question ids of the catalog, in display order. */
  const QuestionIds: seq<string> :=
    ["icar1", "icar2", "icar3", "icar4", "icar5", "icar6", "icar7", "icar8", "icar9", "icar10"]

  /** The answer token of each radio button. */
  const AnswerOptions: seq<string> := ["A", "B", "C", "D"]

  /** What the section's radio buttons can produce: one record per catalog question, option answers. */
  predicate WellFormed(responses: seq<Response>) {
    UniqueIds(responses) && IdsWithin(responses, QuestionIds) && AnswersWithin(responses, AnswerOptions)
  }

  /** The displayed "n of 10 questions completed" never exceeds ten. */
  lemma AnsweredAtMostTen(responses: seq<Response>)
    requires UniqueIds(responses) && IdsWithin(responses, QuestionIds)
    ensures |responses| <= |QuestionIds| == 10
  {
    AnsweredWithinCatalog(responses, QuestionIds);
  }

  /** Clicking an option of a catalog question keeps the store well formed and within ten records. */
  lemma HandleResponseKeepsWellFormed(responses: seq<Response>, questionId: string, answer: string)
    requires WellFormed(responses)
    requires questionId in QuestionIds && answer in AnswerOptions
    ensures WellFormed(Upsert(responses, questionId, answer))
    ensures |Upsert(responses, questionId, answer)| <= 10
  {
    UpsertKeepsUnique(responses, questionId, answer);
    UpsertStaysWithin(responses, questionId, answer, QuestionIds, AnswerOptions);
    AnsweredAtMostTen(Upsert(responses, questionId, answer));
  }

  /**
   * For a store the radio buttons can produce, the section counts as complete (ten
   * records) exactly when every catalog question has been answered.
   */
  lemma {:induction false} CompleteIffEveryQuestionAnswered(responses: seq<Response>)
    requires UniqueIds(responses) && IdsWithin(responses, QuestionIds)
    ensures |responses| >= 10 <==> forall id :: id in QuestionIds ==> id in Ids(responses)
  {
    CatalogDistinct();
    AnsweredAllIff(responses, QuestionIds);
  }

  /** No question id appears twice in the catalog. */
  lemma CatalogDistinct()
    ensures Distinct(QuestionIds)
  {
    assert forall i, j :: 0 <= i < j < |QuestionIds| ==> QuestionIds[i] != QuestionIds[j];
  }
}
