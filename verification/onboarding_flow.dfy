/**
 * The wizard's top level: the aggregate of everything entered, the three partial-merge
 * updaters the stages report to, the step number shown for a path, and the four
 * stages wired together by their Next and Back callbacks.
 */
module OnboardingFlow {
  import opened Wrappers
  import PersonalInfo
  import opened BBIAssessment

  /** Everything the wizard collects. */
  datatype OnboardingData = OnboardingData(
    personalInfo: PersonalInfo.Info, assessmentResults: AssessmentResults, developmentalGoals: seq<string>)

  /** The aggregate before anything is entered. */
  const InitialData: OnboardingData := OnboardingData(PersonalInfo.EmptyInfo, EmptyResults, [])

  /** Initially every personal field is empty, no section has an answer and no goal is selected. */
  lemma InitialDataIsEmpty()
    ensures forall f :: PersonalInfo.Get(InitialData.personalInfo, f) == ""
    ensures forall id :: Progress(InitialData.assessmentResults, id) == 0
    ensures InitialData.developmentalGoals == []
  {
  }

  /** `{ ...prev.personalInfo, ...data }`: supplied fields take the new value, the rest keep theirs. */
  function MergeInfo(info: PersonalInfo.Info, patch: map<PersonalInfo.Field, string>): (r: PersonalInfo.Info)
    ensures forall f :: PersonalInfo.Get(r, f) == if f in patch then patch[f] else PersonalInfo.Get(info, f)
  {
    PersonalInfo.Info(
      if PersonalInfo.FirstName in patch then patch[PersonalInfo.FirstName] else info.firstName,
      if PersonalInfo.LastName in patch then patch[PersonalInfo.LastName] else info.lastName,
      if PersonalInfo.Role in patch then patch[PersonalInfo.Role] else info.role,
      if PersonalInfo.Password in patch then patch[PersonalInfo.Password] else info.password,
      if PersonalInfo.Email in patch then patch[PersonalInfo.Email] else info.email,
      if PersonalInfo.Organization in patch then patch[PersonalInfo.Organization] else info.organization)
  }

  /** Merging nothing changes nothing. */
  lemma MergeInfoEmpty(info: PersonalInfo.Info)
    ensures MergeInfo(info, map[]) == info
  {
    PersonalInfo.FieldsDetermineInfo(MergeInfo(info, map[]), info);
  }

  /**
   * The one-field partial that the form forwards on each edit, merged into the parent's
   * copy, is the form's own edit: a parent that agreed with the form keeps agreeing.
   */
  lemma MergeInfoSingleField(info: PersonalInfo.Info, field: PersonalInfo.Field, value: string)
    ensures MergeInfo(info, map[field := value]) == PersonalInfo.Set(info, field, value)
  {
    PersonalInfo.FieldsDetermineInfo(MergeInfo(info, map[field := value]), PersonalInfo.Set(info, field, value));
  }

  /** Two merges in a row are one merge of the combined partial, the later values winning. */
  lemma MergeInfoComposes(info: PersonalInfo.Info, first: map<PersonalInfo.Field, string>, second: map<PersonalInfo.Field, string>)
    ensures MergeInfo(MergeInfo(info, first), second) == MergeInfo(info, first + second)
  {
    PersonalInfo.FieldsDetermineInfo(MergeInfo(MergeInfo(info, first), second), MergeInfo(info, first + second));
  }

  /** A partial results record: each present key carries the store of that section. */
  predicate WellTyped(patch: map<SectionId, SectionData>) {
    forall id :: id in patch ==> SectionOf(patch[id]) == id
  }

  /** `{ ...prev.assessmentResults, ...data }`: supplied sections take the new store, the rest keep theirs. */
  function MergeResults(results: AssessmentResults, patch: map<SectionId, SectionData>): (r: AssessmentResults)
    requires WellTyped(patch)
    ensures forall id :: Slot(r, id) == if id in patch then patch[id] else Slot(results, id)
  {
    AssessmentResults(
      if Icar in patch then patch[Icar].list else results.icar,
      if Hexaco in patch then patch[Hexaco].scale else results.hexaco,
      if Csi in patch then patch[Csi].scale else results.csi,
      if Aq10 in patch then patch[Aq10].list else results.aq10,
      if Asrs in patch then patch[Asrs].list else results.asrs)
  }

  /** The whole record as a partial with all five keys, as the assessment stage forwards it. */
  function FullPatch(results: AssessmentResults): (patch: map<SectionId, SectionData>)
    ensures WellTyped(patch)
    ensures patch.Keys == {Hexaco, Csi, Icar, Aq10, Asrs}
  {
    map[Hexaco := Slot(results, Hexaco), Csi := Slot(results, Csi), Icar := Slot(results, Icar),
        Aq10 := Slot(results, Aq10), Asrs := Slot(results, Asrs)]
  }

  /** Merging the forwarded full record makes the parent's copy equal to the stage's copy. */
  lemma MergeFullPatch(parent: AssessmentResults, results: AssessmentResults)
    ensures MergeResults(parent, FullPatch(results)) == results
  {
    forall id ensures id in FullPatch(results) && FullPatch(results)[id] == Slot(results, id) {
      match id
      case Hexaco =>
      case Csi =>
      case Icar =>
      case Aq10 =>
      case Asrs =>
    }
    SlotsDetermineResults(MergeResults(parent, FullPatch(results)), results);
  }

  /** Merging a one-section partial is the stage's own slot update. */
  lemma MergeSingleSection(results: AssessmentResults, data: SectionData)
    ensures WellTyped(map[SectionOf(data) := data])
    ensures MergeResults(results, map[SectionOf(data) := data]) == WithSection(results, data)
  {
    WithSectionReplacesOnlyThatSlot(results, data);
    SlotsDetermineResults(MergeResults(results, map[SectionOf(data) := data]), WithSection(results, data));
  }

  /** The wizard's held aggregate. */
  class Flow {
    var data: OnboardingData

    /** The aggregate starts empty. */
    constructor ()
      ensures data == InitialData
    {
      data := InitialData;
    }

    /** `updatePersonalInfo`: merge into the personal slice only. */
    method UpdatePersonalInfo(patch: map<PersonalInfo.Field, string>)
      modifies this
      ensures data.personalInfo == MergeInfo(old(data).personalInfo, patch)
      ensures data.assessmentResults == old(data).assessmentResults
      ensures data.developmentalGoals == old(data).developmentalGoals
    {
      data := data.(personalInfo := MergeInfo(data.personalInfo, patch));
    }

    /** `updateAssessmentResults`: merge into the results slice only. */
    method UpdateAssessmentResults(patch: map<SectionId, SectionData>)
      requires WellTyped(patch)
      modifies this
      ensures data.assessmentResults == MergeResults(old(data).assessmentResults, patch)
      ensures data.personalInfo == old(data).personalInfo
      ensures data.developmentalGoals == old(data).developmentalGoals
    {
      data := data.(assessmentResults := MergeResults(data.assessmentResults, patch));
    }

    /** `updateDevelopmentalGoals`: replace the goal list wholesale. */
    method UpdateDevelopmentalGoals(goals: seq<string>)
      modifies this
      ensures data.developmentalGoals == goals
      ensures data.personalInfo == old(data).personalInfo
      ensures data.assessmentResults == old(data).assessmentResults
    {
      data := data.(developmentalGoals := goals);
    }
  }

  /** The `n`-character window of `s` starting at `i`. */
  function Window(s: string, i: nat, n: nat): string
    requires i + n <= |s|
  {
    s[i..i + n]
  }

  /** `s.includes(sub)`: `sub` occurs somewhere in `s`. */
  predicate Includes(s: string, sub: string) {
    exists i: nat :: i + |sub| <= |s| && Window(s, i, |sub|) == sub
  }

  /** A string lacking one of the characters of `sub` does not include it. */
  lemma MissingCharacter(s: string, sub: string, c: char)
    requires c in sub && c !in s
    ensures !Includes(s, sub)
  {
    var j :| 0 <= j < |sub| && sub[j] == c;
    forall i: nat | i + |sub| <= |s| ensures Window(s, i, |sub|) != sub {
      assert Window(s, i, |sub|)[j] == s[i + j];
    }
  }

  /** A string that has `sub` at some position includes it. */
  lemma IncludedAt(s: string, sub: string, i: nat)
    requires i + |sub| <= |s| && s[i..i + |sub|] == sub
    ensures Includes(s, sub)
  {
    assert Window(s, i, |sub|) == sub;
  }

  /** `getCurrentStep`: the first route fragment the path includes decides; anything else is step 1. */
  function GetCurrentStep(path: string): (step: nat)
    ensures 1 <= step <= 4
    ensures step == 1 <==> (Includes(path, "/personal-info") ||
      (!Includes(path, "/assessment") && !Includes(path, "/goals") && !Includes(path, "/complete")))
    ensures step == 2 <==> !Includes(path, "/personal-info") && Includes(path, "/assessment")
    ensures step == 3 <==> !Includes(path, "/personal-info") && !Includes(path, "/assessment") && Includes(path, "/goals")
    ensures step == 4 <==> (!Includes(path, "/personal-info") && !Includes(path, "/assessment") &&
      !Includes(path, "/goals") && Includes(path, "/complete"))
  {
    if Includes(path, "/personal-info") then 1
    else if Includes(path, "/assessment") then 2
    else if Includes(path, "/goals") then 3
    else if Includes(path, "/complete") then 4
    else 1
  }

  /** The four stages of the wizard. */
  datatype Stage = PersonalInfoStage | AssessmentStage | GoalsStage | CompleteStage

  /** The path the wizard is mounted under. */
  const Prefix: string := "/onboarding"

  /** The route of each stage below the prefix. */
  function Fragment(stage: Stage): string {
    match stage
    case PersonalInfoStage => "/personal-info"
    case AssessmentStage => "/assessment"
    case GoalsStage => "/goals"
    case CompleteStage => "/complete"
  }

  /** The path each stage is shown at. */
  function Route(stage: Stage): string {
    Prefix + Fragment(stage)
  }

  /** The step the progress bar shows for each stage. */
  function StepNumber(stage: Stage): nat {
    match stage
    case PersonalInfoStage => 1
    case AssessmentStage => 2
    case GoalsStage => 3
    case CompleteStage => 4
  }

  /** Every route includes its own fragment. */
  lemma RouteIncludesFragment(stage: Stage)
    ensures Includes(Route(stage), Fragment(stage))
  {
    IncludedAt(Route(stage), Fragment(stage), |Prefix|);
  }

  /** The form's route shows step 1. */
  lemma PersonalInfoRouteStep()
    ensures GetCurrentStep(Route(PersonalInfoStage)) == 1
  {
    RouteIncludesFragment(PersonalInfoStage);
  }

  /** The assessment's route shows step 2. */
  lemma AssessmentRouteStep()
    ensures GetCurrentStep(Route(AssessmentStage)) == 2
  {
    MissingCharacter(Route(AssessmentStage), "/personal-info", '-');
    RouteIncludesFragment(AssessmentStage);
  }

  /** The goal picker's route shows step 3. */
  lemma GoalsRouteStep()
    ensures GetCurrentStep(Route(GoalsStage)) == 3
  {
    MissingCharacter(Route(GoalsStage), "/personal-info", '-');
    MissingCharacter(Route(GoalsStage), "/assessment", 'e');
    RouteIncludesFragment(GoalsStage);
  }

  /** The summary's route shows step 4. */
  lemma CompleteRouteStep()
    ensures GetCurrentStep(Route(CompleteStage)) == 4
  {
    MissingCharacter(Route(CompleteStage), "/personal-info", '-');
    MissingCharacter(Route(CompleteStage), "/assessment", 's');
    MissingCharacter(Route(CompleteStage), "/goals", 's');
    RouteIncludesFragment(CompleteStage);
  }

  /** The bare prefix, which redirects to the form, falls through to step 1. */
  lemma PrefixStep()
    ensures GetCurrentStep(Prefix) == 1
  {
    MissingCharacter(Prefix, "/personal-info", '-');
    MissingCharacter(Prefix, "/assessment", 's');
    MissingCharacter(Prefix, "/goals", 's');
    MissingCharacter(Prefix, "/complete", 'c');
  }

  /** Every stage's route shows that stage's step. */
  lemma StepsFollowRoutes()
    ensures forall stage :: GetCurrentStep(Route(stage)) == StepNumber(stage)
  {
    PersonalInfoRouteStep();
    AssessmentRouteStep();
    GoalsRouteStep();
    CompleteRouteStep();
  }

  /** The stage each stage's `onNext` navigates to; the summary page has none. */
  function NextStage(stage: Stage): Option<Stage> {
    match stage
    case PersonalInfoStage => Some(AssessmentStage)
    case AssessmentStage => Some(GoalsStage)
    case GoalsStage => Some(CompleteStage)
    case CompleteStage => None
  }

  /** The stage each stage's `onBack` navigates to; the form and the summary page have none. */
  function BackStage(stage: Stage): Option<Stage> {
    match stage
    case PersonalInfoStage => None
    case AssessmentStage => Some(PersonalInfoStage)
    case GoalsStage => Some(AssessmentStage)
    case CompleteStage => None
  }

  /** Some callback of `from` navigates to `to`. */
  predicate Edge(from: Stage, to: Stage) {
    NextStage(from) == Some(to) || BackStage(from) == Some(to)
  }

  /**
   * The wiring links exactly the stages one step apart, except that nothing leaves the
   * summary page; Next always moves one step on, Back one step back.
   */
  lemma StageEdges()
    ensures forall a, b :: Edge(a, b) <==> a != CompleteStage && (StepNumber(b) == StepNumber(a) + 1 || StepNumber(b) + 1 == StepNumber(a))
    ensures forall a :: NextStage(a).Some? ==> StepNumber(NextStage(a).value) == StepNumber(a) + 1
    ensures forall a :: BackStage(a).Some? ==> StepNumber(BackStage(a).value) + 1 == StepNumber(a)
    ensures forall b :: !Edge(CompleteStage, b)
  {
  }

  /** What is on screen: a stage, and for the assessment the section index. */
  datatype Screen = OnPersonalInfo | OnAssessment(section: nat) | OnGoals | OnComplete

  /** Navigating to a stage mounts its component afresh; the assessment starts at section 0. */
  function Mount(stage: Stage): Screen {
    match stage
    case PersonalInfoStage => OnPersonalInfo
    case AssessmentStage => OnAssessment(0)
    case GoalsStage => OnGoals
    case CompleteStage => OnComplete
  }

  /**
   * Navigating to the assessment route mounts a new `BBIAssessment.Navigator`; its
   * constructor's `currentSection == 0` is the section `Mount` records.
   */
  method MountAssessment(data: OnboardingData) returns (nav: Navigator)
    ensures fresh(nav) && nav.Valid()
    ensures OnAssessment(nav.currentSection) == Mount(AssessmentStage)
    ensures nav.sectionData == data.assessmentResults
  {
    nav := new Navigator(data.assessmentResults);
  }

  /**
   * Back from the goal picker lands on the first assessment section, not the last one the
   * user left from: the route remounts the stage, as `MountAssessment` shows; the answers
   * themselves live in the aggregate and are kept.
   */
  lemma BackFromGoalsRestartsAssessment()
    ensures BackStage(GoalsStage) == Some(AssessmentStage)
    ensures Mount(BackStage(GoalsStage).value) == OnAssessment(0)
    ensures Mount(BackStage(GoalsStage).value) != OnAssessment(|Sections| - 1)
  {
  }
}
