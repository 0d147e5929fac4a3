/**
 * The summary page: the selected goals by title, the per-section answered counts
 * against their fixed totals, and the overall answered count out of 78.
 */
module OnboardingComplete {
  import opened Wrappers
  import opened Seqs
  import opened BBIAssessment
  import OnboardingFlow
  import DevelopmentalGoals

  /** A goal of the summary page's catalog; the icon is left out. */
  datatype Goal = Goal(id: string, title: string)

  /** The nine goals with their titles. */
  const Goals: seq<Goal> := [
    Goal("communication", "Communication Skills"),
    Goal("time-management", "Time Management and Organization"),
    Goal("leadership", "Leadership and Management"),
    Goal("collaboration", "Collaboration and Teamwork"),
    Goal("problem-solving", "Problem-Solving and Critical Thinking"),
    Goal("adaptability", "Adaptability and Flexibility"),
    Goal("emotional-intelligence", "Emotional Intelligence"),
    Goal("conflict-resolution", "Conflict Resolution"),
    Goal("technical-proficiency", "Technical Proficiency")]

  /** `goals.find(g => g.id === goalId)`: the first goal with the id, if any. */
  function Find(goals: seq<Goal>, goalId: string): (r: Option<Goal>)
    ensures r.Some? ==> r.value in goals && r.value.id == goalId
    ensures r.None? <==> forall k :: 0 <= k < |goals| ==> goals[k].id != goalId
    ensures forall k :: 0 <= k < |goals| && goals[k].id == goalId && (forall j :: 0 <= j < k ==> goals[j].id != goalId)
              ==> r == Some(goals[k])
  {
    if goals == [] then None
    else if goals[0].id == goalId then Some(goals[0])
    else
      assert forall k :: 1 <= k < |goals| ==> goals[k] == goals[1..][k - 1];
      Find(goals[1..], goalId)
  }

  /** `goal ? goal.title : goalId`. */
  function TitleOf(goalId: string): string {
    match Find(Goals, goalId)
    case Some(g) => g.title
    case None => goalId
  }

  /** `getSelectedGoalTitles`: one title per selected id, in selection order. */
  function SelectedGoalTitles(goalIds: seq<string>): (titles: seq<string>)
    ensures |titles| == |goalIds|
    ensures forall i :: 0 <= i < |goalIds| ==> titles[i] == TitleOf(goalIds[i])
  {
    if goalIds == [] then [] else [TitleOf(goalIds[0])] + SelectedGoalTitles(goalIds[1..])
  }

  /** Every catalog id maps to its own title, and an id outside the catalog to itself. */
  lemma TitlesOfCatalog()
    ensures forall k :: 0 <= k < |Goals| ==> TitleOf(Goals[k].id) == Goals[k].title
    ensures forall goalId :: (forall k :: 0 <= k < |Goals| ==> Goals[k].id != goalId) ==> TitleOf(goalId) == goalId
  {
    GoalIdsPairwise();
    FindEachOfDistinct(Goals);
  }

  /** No two goals of the summary catalog share an id. */
  lemma GoalIdsPairwise()
    ensures forall i, j :: 0 <= i < j < |Goals| ==> Goals[i].id != Goals[j].id
  {
  }

  /** In a list without repeated ids, looking up an entry's id finds that entry. */
  lemma FindEachOfDistinct(goals: seq<Goal>)
    requires forall i, j :: 0 <= i < j < |goals| ==> goals[i].id != goals[j].id
    ensures forall k :: 0 <= k < |goals| ==> Find(goals, goals[k].id) == Some(goals[k])
  {
  }

  /** The summary page knows a title for every goal the picker offers, in the same order. */
  lemma CatalogsAgree()
    ensures |Goals| == |DevelopmentalGoals.GoalIds|
    ensures forall k :: 0 <= k < |Goals| ==> Goals[k].id == DevelopmentalGoals.GoalIds[k]
  {
  }

  /** One summary entry. */
  datatype Count = Count(completed: nat, total: nat)

  /** `getAssessmentSummary`'s five entries. */
  datatype Summary = Summary(hexaco: Count, csi: Count, icar: Count, aq10: Count, asrs: Count)

  /** `getAssessmentSummary`: key counts of the map sections, lengths of the list sections, fixed totals. */
  function AssessmentSummary(results: AssessmentResults): Summary {
    Summary(Count(|results.hexaco|, 24), Count(|results.csi|, 16), Count(|results.icar|, 10),
            Count(|results.aq10|, 10), Count(|results.asrs|, 18))
  }

  /** The entry of one section. */
  function Entry(summary: Summary, id: SectionId): Count {
    match id
    case Hexaco => summary.hexaco
    case Csi => summary.csi
    case Icar => summary.icar
    case Aq10 => summary.aq10
    case Asrs => summary.asrs
  }

  /**
   * Each entry shows the section's progress as the assessment stage counts it, out of
   * that section's total in the assessment's table, whatever the data.
   */
  lemma SummaryAgreesWithAssessment(results: AssessmentResults)
    ensures forall id :: Entry(AssessmentSummary(results), id).completed == Progress(results, id)
    ensures forall id :: Entry(AssessmentSummary(results), id).total == Sections[SectionIndex(id)].totalQuestions
  {
  }

  /** `totalQuestions`. */
  const TotalQuestions: nat := 24 + 16 + 10 + 10 + 18

  /** The fixed total is the sum of the table's totals, 78. */
  lemma TotalQuestionsIsTableSum()
    ensures TotalQuestions == TotalOfTable(Sections) == 78
  {
    SectionTotalsSum();
  }

  /** `totalCompleted`. */
  function TotalCompleted(summary: Summary): nat {
    summary.hexaco.completed + summary.csi.completed + summary.icar.completed
    + summary.aq10.completed + summary.asrs.completed
  }

  /**
   * For data the sections can produce, the overall count never exceeds 78, and reaches
   * it exactly when every question of every section has been answered.
   */
  lemma {:induction false} TotalCompletedWithinTotal(results: AssessmentResults)
    requires WellFormed(results)
    ensures TotalCompleted(AssessmentSummary(results)) <= TotalQuestions
    ensures TotalCompleted(AssessmentSummary(results)) == TotalQuestions
        <==> forall id :: AllAnswered(results, id)
  {
    var summary := AssessmentSummary(results);
    EntryWithinTotal(results, Hexaco);
    EntryWithinTotal(results, Csi);
    EntryWithinTotal(results, Icar);
    EntryWithinTotal(results, Aq10);
    EntryWithinTotal(results, Asrs);
    forall id | AllAnswered(results, Hexaco) && AllAnswered(results, Csi) && AllAnswered(results, Icar)
             && AllAnswered(results, Aq10) && AllAnswered(results, Asrs)
      ensures AllAnswered(results, id)
    {
      match id
      case Hexaco =>
      case Csi =>
      case Icar =>
      case Aq10 =>
      case Asrs =>
    }
  }

  /** For data the sections can produce, an entry reaches its total exactly when the section is fully answered. */
  lemma EntryWithinTotal(results: AssessmentResults, id: SectionId)
    requires WellFormed(results)
    ensures Entry(AssessmentSummary(results), id).completed <= Entry(AssessmentSummary(results), id).total
    ensures Entry(AssessmentSummary(results), id).completed == Entry(AssessmentSummary(results), id).total
        <==> AllAnswered(results, id)
  {
    CompleteIffAllAnswered(results, SectionIndex(id));
  }

  /** What the goals panel renders. */
  datatype GoalsPanel = Hidden | Shown(titles: seq<string>, noGoalsMessage: bool)

  /** The goals panel as written: shown only for a non-empty list, its empty-list message guarded inside. */
  function GoalsPanelAsWritten(goalIds: seq<string>): GoalsPanel {
    if |goalIds| > 0 then Shown(SelectedGoalTitles(goalIds), |goalIds| == 0) else Hidden
  }

  /** The "No specific development goals selected" message can never appear. */
  lemma NoGoalsMessageUnreachable(goalIds: seq<string>)
    ensures GoalsPanelAsWritten(goalIds).Shown? ==> !GoalsPanelAsWritten(goalIds).noGoalsMessage
    ensures GoalsPanelAsWritten(goalIds).Hidden? <==> goalIds == []
  {
  }

  /** The goals panel as evidently intended: always shown, with the message exactly for an empty list. */
  function GoalsPanelIntended(goalIds: seq<string>): GoalsPanel {
    Shown(SelectedGoalTitles(goalIds), |goalIds| == 0)
  }

  /** The intended panel shows the message exactly when no goal is selected, and otherwise the titles. */
  lemma IntendedPanelShowsMessageIffNoGoals(goalIds: seq<string>)
    ensures GoalsPanelIntended(goalIds).Shown?
    ensures GoalsPanelIntended(goalIds).noGoalsMessage <==> goalIds == []
    ensures |GoalsPanelIntended(goalIds).titles| == |goalIds|
  {
  }

  /** The panel the page renders for the wizard's aggregate, as written. */
  function GoalsPanelOf(data: OnboardingFlow.OnboardingData): (panel: GoalsPanel)
    ensures data.developmentalGoals == [] ==> panel == Hidden
    ensures data.developmentalGoals != [] ==> panel == Shown(SelectedGoalTitles(data.developmentalGoals), false)
  {
    GoalsPanelAsWritten(data.developmentalGoals)
  }
}
