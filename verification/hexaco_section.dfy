/** The HEXACO personality section: twenty-four statements answered on a five-point scale. */
module HEXACOSection {
  import opened Seqs
  import opened ScaleResponses

  /** Question ids of the catalog, in display order. */
  const QuestionIds: seq<string> :=
    ["q1", "q2", "q3", "q4", "q5", "q6", "q7", "q8", "q9", "q10", "q11", "q12",
     "q13", "q14", "q15", "q16", "q17", "q18", "q19", "q20", "q21", "q22", "q23", "q24"]

  /** What the section's scale buttons can produce: catalog keys, scale values. */
  predicate WellFormed(responses: Responses) {
    OnScale(responses) && KeysWithin(responses, QuestionIds)
  }

  /** No question id appears twice in the catalog. */
  lemma CatalogDistinct()
    ensures Distinct(QuestionIds)
  {
    assert forall i, j :: 0 <= i < j < |QuestionIds| ==> QuestionIds[i] != QuestionIds[j];
  }

  /**
   * The displayed "n of 24" key count never exceeds twenty-four, and reaches it exactly
   * when every statement has been answered.
   */
  lemma {:induction false} ProgressWithinCatalog(responses: Responses)
    requires KeysWithin(responses, QuestionIds)
    ensures |responses| <= 24
    ensures |responses| >= 24 <==> forall id :: id in QuestionIds ==> id in responses
  {
    CatalogDistinct();
    KeyCountWithinCatalog(responses, QuestionIds);
  }

  /** Clicking a scale button of a catalog statement keeps the store well formed. */
  lemma HandleResponseKeepsWellFormed(responses: Responses, questionId: string, value: int)
    requires WellFormed(responses)
    requires questionId in QuestionIds && value in ScaleValues
    ensures WellFormed(SetAnswer(responses, questionId, value))
    ensures |SetAnswer(responses, questionId, value)| <= 24
  {
    SetAnswerKeepsWellFormed(responses, questionId, value, QuestionIds);
    ProgressWithinCatalog(SetAnswer(responses, questionId, value));
  }
}
