/** The AQ-10 autism-spectrum screener: ten statements with list-shaped answers. */
module AQ10Section {
  import opened Seqs
  import opened ResponseList

  /** Question ids of the catalog, in display order. */
  const QuestionIds: seq<string> :=
    ["aq1", "aq2", "aq3", "aq4", "aq5", "aq6", "aq7", "aq8", "aq9", "aq10"]

  /** The value token of each of the four agreement options. */
  const AnswerOptions: seq<string> := ["definitely_agree", "slightly_agree", "slightly_disagree", "definitely_disagree"]

  /** What the section's radio buttons can produce: one record per catalog question, option answers. */
  predicate WellFormed(responses: seq<Response>) {
    UniqueIds(responses) && IdsWithin(responses, QuestionIds) && AnswersWithin(responses, AnswerOptions)
  }

  /** The displayed "n of 10 questions completed" never exceeds ten. */
  lemma AnsweredAtMostTen(responses: seq<Response>)
    requires UniqueIds(responses) && IdsWithin(responses, QuestionIds)
    ensures |responses| <= |QuestionIds| == 10
  {
    AnsweredWithinCatalog(responses, QuestionIds);
  }

  /** Clicking an option of a catalog question keeps the store well formed and within ten records. */
  lemma HandleResponseKeepsWellFormed(responses: seq<Response>, questionId: string, answer: string)
    requires WellFormed(responses)
    requires questionId in QuestionIds && answer in AnswerOptions
    ensures WellFormed(Upsert(responses, questionId, answer))
    ensures |Upsert(responses, questionId, answer)| <= 10
  {
    UpsertKeepsUnique(responses, questionId, answer);
    UpsertStaysWithin(responses, questionId, answer, QuestionIds, AnswerOptions);
    AnsweredAtMostTen(Upsert(responses, questionId, answer));
  }

  /**
   * For a store the radio buttons can produce, the section counts as complete (ten
   * records) exactly when every catalog question has been answered.
   */
  lemma {:induction false} CompleteIffEveryQuestionAnswered(responses: seq<Response>)
    requires UniqueIds(responses) && IdsWithin(responses, QuestionIds)
    ensures |responses| >= 10 <==> forall id :: id in QuestionIds ==> id in Ids(responses)
  {
    CatalogDistinct();
    AnsweredAllIff(responses, QuestionIds);
  }

  /** No question id appears twice in the catalog. */
  lemma CatalogDistinct()
    ensures Distinct(QuestionIds)
  {
    assert forall i, j :: 0 <= i < j < |QuestionIds| ==> QuestionIds[i] != QuestionIds[j];
  }
}
