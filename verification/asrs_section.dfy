/**
 * The ASRS-v1.1 attention screener: eighteen questions in two categories, list-shaped
 * answers, and a per-category answered count under the progress bar.
 */
module ASRSSection {
  import opened Seqs
  import opened ResponseList

  /** A catalog entry; the question text is left out. */
  datatype Question = Question(id: string, category: string)

  const Inattention: string := "Inattention"
  const Hyperactivity: string := "Hyperactivity"

  /** Questions 1-4, of the Inattention category. */
  const FirstInattention: seq<Question> := [
    Question("asrs1", Inattention), Question("asrs2", Inattention),
    Question("asrs3", Inattention), Question("asrs4", Inattention)]

  /** Questions 5-6, of the Hyperactivity category. */
  const FirstHyperactivity: seq<Question> := [
    Question("asrs5", Hyperactivity), Question("asrs6", Hyperactivity)]

  /** Questions 7-11, of the Inattention category. */
  const SecondInattention: seq<Question> := [
    Question("asrs7", Inattention), Question("asrs8", Inattention),
    Question("asrs9", Inattention), Question("asrs10", Inattention),
    Question("asrs11", Inattention)]

  /** Questions 12-18, of the Hyperactivity category. */
  const SecondHyperactivity: seq<Question> := [
    Question("asrs12", Hyperactivity), Question("asrs13", Hyperactivity),
    Question("asrs14", Hyperactivity), Question("asrs15", Hyperactivity),
    Question("asrs16", Hyperactivity), Question("asrs17", Hyperactivity),
    Question("asrs18", Hyperactivity)]

  /** The catalog, in display order: its eighteen questions written as the four runs of one category. */
  const Questions: seq<Question> := FirstInattention + FirstHyperactivity + SecondInattention + SecondHyperactivity

  /** The value token of each of the five frequency options. */
  const AnswerOptions: seq<string> := ["never", "rarely", "sometimes", "often", "very_often"]

  /** The ids of a list of questions, position by position. */
  function QuestionIds(qs: seq<Question>): (ids: seq<string>)
    ensures |ids| == |qs|
    ensures forall i :: 0 <= i < |qs| ==> ids[i] == qs[i].id
  {
    if qs == [] then [] else [qs[0].id] + QuestionIds(qs[1..])
  }

  /** The test `q => q.category === category`. */
  function InCategory(category: string): Question -> bool {
    (q: Question) => q.category == category
  }

  /** `questions.filter(q => q.category === category)`. */
  function OfCategory(qs: seq<Question>, category: string): seq<Question> {
    Filter(qs, InCategory(category))
  }

  /** The test `r => categoryQuestions.find(q => q.id === r.questionId)`: some question has the record's id. */
  function AnswersOneOf(categoryQuestions: seq<Question>): Response -> bool {
    (r: Response) => r.questionId in QuestionIds(categoryQuestions)
  }

  /** The records that answer a question of the given list. */
  function AnsweredIn(responses: seq<Response>, categoryQuestions: seq<Question>): seq<Response> {
    Filter(responses, AnswersOneOf(categoryQuestions))
  }

  /** The "answered / size" figure shown for one category. */
  function CategoryProgress(responses: seq<Response>, categoryQuestions: seq<Question>): (n: nat)
    ensures n <= |responses|
  {
    FilterMembers(responses, AnswersOneOf(categoryQuestions));
    |AnsweredIn(responses, categoryQuestions)|
  }

  /** What the section's radio buttons can produce. */
  predicate WellFormed(responses: seq<Response>) {
    UniqueIds(responses) && IdsWithin(responses, QuestionIds(Questions)) && AnswersWithin(responses, AnswerOptions)
  }

  /** Every question of the run has the category. */
  predicate AllOf(run: seq<Question>, category: string) {
    forall i :: 0 <= i < |run| ==> run[i].category == category
  }

  /** Each of the four runs is of one category. */
  lemma RunsUniform()
    ensures AllOf(FirstInattention, Inattention) && AllOf(SecondInattention, Inattention)
    ensures AllOf(FirstHyperactivity, Hyperactivity) && AllOf(SecondHyperactivity, Hyperactivity)
  {
  }

  /** A run of one category passes that category's filter whole. */
  lemma RunKept(run: seq<Question>, category: string)
    requires AllOf(run, category)
    ensures OfCategory(run, category) == run
  {
    FilterUniform(run, InCategory(category));
  }

  /** A run of one category passes no other category's filter. */
  lemma RunDropped(run: seq<Question>, category: string, other: string)
    requires AllOf(run, category) && other != category
    ensures OfCategory(run, other) == []
  {
    FilterUniform(run, InCategory(other));
  }

  /** Filtering four runs filters each run. */
  lemma FourRunsFilter(a: seq<Question>, b: seq<Question>, c: seq<Question>, d: seq<Question>, category: string)
    ensures OfCategory(a + b + c + d, category)
         == OfCategory(a, category) + OfCategory(b, category) + OfCategory(c, category) + OfCategory(d, category)
  {
    FilterAppend(a + b + c, d, InCategory(category));
    FilterAppend(a + b, c, InCategory(category));
    FilterAppend(a, b, InCategory(category));
  }

  /** Of four runs alternating between two categories, the first category's filter keeps its two runs. */
  lemma AlternatingRuns(a: seq<Question>, b: seq<Question>, c: seq<Question>, d: seq<Question>, x: string, y: string)
    requires AllOf(a, x) && AllOf(b, y) && AllOf(c, x) && AllOf(d, y) && x != y
    ensures OfCategory(a + b + c + d, x) == a + c
  {
    FourRunsFilter(a, b, c, d, x);
    RunKept(a, x);
    RunDropped(b, y, x);
    RunKept(c, x);
    RunDropped(d, y, x);
    assert a + [] + c + [] == a + c;
  }

  /** The two category filters keep the catalog's two runs of each category, in catalog order. */
  lemma CategoryRuns()
    ensures OfCategory(Questions, Inattention) == FirstInattention + SecondInattention
    ensures OfCategory(Questions, Hyperactivity) == FirstHyperactivity + SecondHyperactivity
  {
    RunsUniform();
    AlternatingRuns(FirstInattention, FirstHyperactivity, SecondInattention, SecondHyperactivity,
                    Inattention, Hyperactivity);
    FourRunsFilter(FirstInattention, FirstHyperactivity, SecondInattention, SecondHyperactivity, Hyperactivity);
    RunDropped(FirstInattention, Inattention, Hyperactivity);
    RunKept(FirstHyperactivity, Hyperactivity);
    RunDropped(SecondInattention, Inattention, Hyperactivity);
    RunKept(SecondHyperactivity, Hyperactivity);
    assert [] + FirstHyperactivity + [] + SecondHyperactivity == FirstHyperactivity + SecondHyperactivity;
  }

  /** The Inattention and Hyperactivity filters partition the eighteen questions, nine each. */
  lemma CategoriesPartitionCatalog()
    ensures |OfCategory(Questions, Inattention)| == 9 && |OfCategory(Questions, Hyperactivity)| == 9
    ensures forall q :: q in Questions <==>
      (q in OfCategory(Questions, Inattention) || q in OfCategory(Questions, Hyperactivity))
    ensures forall q :: !(q in OfCategory(Questions, Inattention) && q in OfCategory(Questions, Hyperactivity))
  {
    CategoryRuns();
    FilterMembers(Questions, InCategory(Inattention));
    FilterMembers(Questions, InCategory(Hyperactivity));
  }

  /** With unique ids, a category's answered count is at most the category's size. */
  lemma CategoryProgressAtMostSize(responses: seq<Response>, categoryQuestions: seq<Question>)
    requires UniqueIds(responses)
    ensures CategoryProgress(responses, categoryQuestions) <= |categoryQuestions|
  {
    var p := AnswersOneOf(categoryQuestions);
    FilterKeepsUnique(responses, p);
    FilterMembers(responses, p);
    var answered := AnsweredIn(responses, categoryQuestions);
    assert IdsWithin(answered, QuestionIds(categoryQuestions)) by {
      forall i | 0 <= i < |answered| ensures answered[i].questionId in QuestionIds(categoryQuestions) {
        assert answered[i] in answered;
      }
    }
    AnsweredWithinCatalog(answered, QuestionIds(categoryQuestions));
  }

  lemma QuestionIdsAppend(a: seq<Question>, b: seq<Question>)
    ensures QuestionIds(a + b) == QuestionIds(a) + QuestionIds(b)
  {
    assert forall i :: 0 <= i < |a + b| ==> QuestionIds(a + b)[i] == (QuestionIds(a) + QuestionIds(b))[i];
  }

  /** The ids of four runs, run by run. */
  lemma FourRunsIds(a: seq<Question>, b: seq<Question>, c: seq<Question>, d: seq<Question>)
    ensures QuestionIds(a + b + c + d) == QuestionIds(a) + QuestionIds(b) + QuestionIds(c) + QuestionIds(d)
  {
    QuestionIdsAppend(a + b + c, d);
    QuestionIdsAppend(a + b, c);
    QuestionIdsAppend(a, b);
  }

  /** No two questions of the catalog share an id. */
  lemma CatalogIdsPairwise()
    ensures forall i, j :: 0 <= i < j < |Questions| ==> Questions[i].id != Questions[j].id
  {
  }

  /** The catalog's eighteen ids are pairwise different. */
  lemma CatalogIdsDistinct()
    ensures Distinct(QuestionIds(Questions))
  {
    CatalogIdsPairwise();
    IdsOfDistinct(Questions);
  }

  /** A list of questions with pairwise different ids has a duplicate-free id column. */
  lemma IdsOfDistinct(qs: seq<Question>)
    requires forall i, j :: 0 <= i < j < |qs| ==> qs[i].id != qs[j].id
    ensures Distinct(QuestionIds(qs))
  {
  }

  /** Every catalog id belongs to exactly one of the two category id lists. */
  lemma CategoryIdsSplitCatalog(id: string)
    requires id in QuestionIds(Questions)
    ensures (id in QuestionIds(OfCategory(Questions, Inattention)))
         != (id in QuestionIds(OfCategory(Questions, Hyperactivity)))
  {
    var a, b := QuestionIds(FirstInattention), QuestionIds(FirstHyperactivity);
    var c, d := QuestionIds(SecondInattention), QuestionIds(SecondHyperactivity);
    CategoryRuns();
    QuestionIdsAppend(FirstInattention, SecondInattention);
    QuestionIdsAppend(FirstHyperactivity, SecondHyperactivity);
    FourRunsIds(FirstInattention, FirstHyperactivity, SecondInattention, SecondHyperactivity);
    CatalogIdsDistinct();
    DistinctAlternateParts(a, b, c, d);
  }

  /**
   * When every record answers a catalog question, the two category counts add up to
   * the section's answered count.
   */
  lemma CategoryProgressSums(responses: seq<Response>)
    requires IdsWithin(responses, QuestionIds(Questions))
    ensures CategoryProgress(responses, OfCategory(Questions, Inattention))
          + CategoryProgress(responses, OfCategory(Questions, Hyperactivity)) == |responses|
  {
    var p := AnswersOneOf(OfCategory(Questions, Inattention));
    var q := AnswersOneOf(OfCategory(Questions, Hyperactivity));
    forall i | 0 <= i < |responses| ensures p(responses[i]) != q(responses[i]) {
      CategoryIdsSplitCatalog(responses[i].questionId);
    }
    FilterSplit(responses, p, q);
  }

  /** The displayed "n of 18 questions completed" never exceeds eighteen. */
  lemma AnsweredAtMostEighteen(responses: seq<Response>)
    requires UniqueIds(responses) && IdsWithin(responses, QuestionIds(Questions))
    ensures |responses| <= 18
  {
    AnsweredWithinCatalog(responses, QuestionIds(Questions));
  }

  /** Clicking an option of a catalog question keeps the store well formed. */
  lemma HandleResponseKeepsWellFormed(responses: seq<Response>, questionId: string, answer: string)
    requires WellFormed(responses)
    requires questionId in QuestionIds(Questions) && answer in AnswerOptions
    ensures WellFormed(Upsert(responses, questionId, answer))
  {
    UpsertKeepsUnique(responses, questionId, answer);
    UpsertStaysWithin(responses, questionId, answer, QuestionIds(Questions), AnswerOptions);
  }

  /** The section counts as complete (eighteen records) exactly when every catalog question is answered. */
  lemma {:induction false} CompleteIffEveryQuestionAnswered(responses: seq<Response>)
    requires UniqueIds(responses) && IdsWithin(responses, QuestionIds(Questions))
    ensures |responses| >= 18 <==> forall id :: id in QuestionIds(Questions) ==> id in Ids(responses)
  {
    CatalogIdsDistinct();
    AnsweredAllIff(responses, QuestionIds(Questions));
  }
}
