/**
 * The assessment stage: five questionnaire sections shown one at a time, the section
 * data held for all five, per-section progress, and the Next/Previous buttons.
 */
module BBIAssessment {
  import opened ResponseList
  import opened ScaleResponses
  import ICARSection
  import AQ10Section
  import ASRSSection
  import HEXACOSection
  import CSISection

  /** The `id` of each entry of the section table. */
  datatype SectionId = Hexaco | Csi | Icar | Aq10 | Asrs

  /** The five section stores: lists for icar, aq10 and asrs, maps for hexaco and csi. */
  datatype AssessmentResults = AssessmentResults(
    icar: seq<Response>, hexaco: Responses, csi: Responses, aq10: seq<Response>, asrs: seq<Response>)

  /** One section's store, tagged with the section it belongs to. */
  datatype SectionData =
    | HexacoData(scale: Responses)
    | CsiData(scale: Responses)
    | IcarData(list: seq<Response>)
    | Aq10Data(list: seq<Response>)
    | AsrsData(list: seq<Response>)

  /** All section stores empty. */
  const EmptyResults: AssessmentResults := AssessmentResults([], map[], map[], [], [])

  /** The section a tagged store belongs to. */
  function SectionOf(data: SectionData): SectionId {
    match data
    case HexacoData(_) => Hexaco
    case CsiData(_) => Csi
    case IcarData(_) => Icar
    case Aq10Data(_) => Aq10
    case AsrsData(_) => Asrs
  }

  /** The store handed to the current section component. */
  function Slot(results: AssessmentResults, id: SectionId): (data: SectionData)
    ensures SectionOf(data) == id
  {
    match id
    case Hexaco => HexacoData(results.hexaco)
    case Csi => CsiData(results.csi)
    case Icar => IcarData(results.icar)
    case Aq10 => Aq10Data(results.aq10)
    case Asrs => AsrsData(results.asrs)
  }

  /** `{ ...sectionData, [sectionId]: newData }`. */
  function WithSection(results: AssessmentResults, data: SectionData): AssessmentResults {
    match data
    case HexacoData(m) => results.(hexaco := m)
    case CsiData(m) => results.(csi := m)
    case IcarData(l) => results.(icar := l)
    case Aq10Data(l) => results.(aq10 := l)
    case AsrsData(l) => results.(asrs := l)
  }

  /** Updating a section stores the new data in that slot and leaves the other four as they were. */
  lemma WithSectionReplacesOnlyThatSlot(results: AssessmentResults, data: SectionData)
    ensures Slot(WithSection(results, data), SectionOf(data)) == data
    ensures forall id :: id != SectionOf(data) ==> Slot(WithSection(results, data), id) == Slot(results, id)
  {
  }

  /** A results record is determined by its five slots. */
  lemma SlotsDetermineResults(a: AssessmentResults, b: AssessmentResults)
    requires forall id :: Slot(a, id) == Slot(b, id)
    ensures a == b
  {
    assert Slot(a, Hexaco) == Slot(b, Hexaco) && Slot(a, Csi) == Slot(b, Csi);
    assert Slot(a, Icar) == Slot(b, Icar) && Slot(a, Aq10) == Slot(b, Aq10) && Slot(a, Asrs) == Slot(b, Asrs);
  }

  /** Storing a section's own current data back changes nothing. */
  lemma WithSectionOwnSlot(results: AssessmentResults, id: SectionId)
    ensures WithSection(results, Slot(results, id)) == results
  {
  }

  /** One row of the section table. */
  datatype Section = Section(id: SectionId, totalQuestions: nat)

  /** The section table, in the order the sections are shown. */
  const Sections: seq<Section> :=
    [Section(Hexaco, 24), Section(Csi, 16), Section(Icar, 10), Section(Aq10, 10), Section(Asrs, 18)]

  /** The row of the table that holds a section. */
  function SectionIndex(id: SectionId): (k: nat)
    ensures k < |Sections| && Sections[k].id == id
    ensures forall j :: 0 <= j < |Sections| && Sections[j].id == id ==> j == k
  {
    match id
    case Hexaco => 0
    case Csi => 1
    case Icar => 2
    case Aq10 => 3
    case Asrs => 4
  }

  /** The sum of the table's totals. */
  function TotalOfTable(table: seq<Section>): nat {
    if table == [] then 0 else table[0].totalQuestions + TotalOfTable(table[1..])
  }

  /** The five sections hold 78 questions between them. */
  lemma SectionTotalsSum()
    ensures TotalOfTable(Sections) == 78
  {
    assert Sections[1..][1..][1..][1..][1..] == [];
  }

  /** `getCurrentSectionProgress`: the key count of a map section, the length of a list section. */
  function Progress(results: AssessmentResults, id: SectionId): nat {
    match id
    case Hexaco => |results.hexaco|
    case Csi => |results.csi|
    case Icar => |results.icar|
    case Aq10 => |results.aq10|
    case Asrs => |results.asrs|
  }

  /** `isCurrentSectionComplete`: the answered count has reached the section's total. */
  predicate IsComplete(results: AssessmentResults, k: nat)
    requires k < |Sections|
  {
    Progress(results, Sections[k].id) >= Sections[k].totalQuestions
  }

  /** The stores the five section components can produce. */
  predicate WellFormed(results: AssessmentResults) {
    && HEXACOSection.WellFormed(results.hexaco)
    && CSISection.WellFormed(results.csi)
    && ICARSection.WellFormed(results.icar)
    && AQ10Section.WellFormed(results.aq10)
    && ASRSSection.WellFormed(results.asrs)
  }

  /** Every question of the section's catalog has been answered. */
  predicate AllAnswered(results: AssessmentResults, id: SectionId) {
    match id
    case Hexaco => forall q :: q in HEXACOSection.QuestionIds ==> q in results.hexaco
    case Csi => forall q :: q in CSISection.QuestionIds(CSISection.Questions) ==> q in results.csi
    case Icar => forall q :: q in ICARSection.QuestionIds ==> q in Ids(results.icar)
    case Aq10 => forall q :: q in AQ10Section.QuestionIds ==> q in Ids(results.aq10)
    case Asrs => forall q :: q in ASRSSection.QuestionIds(ASRSSection.Questions) ==> q in Ids(results.asrs)
  }

  /**
   * For data the section components can produce, the progress never exceeds the
   * section's total, and a section is complete exactly when every one of its questions
   * has been answered: the table's totals are the catalog sizes.
   */
  lemma {:induction false} CompleteIffAllAnswered(results: AssessmentResults, k: nat)
    requires WellFormed(results) && k < |Sections|
    ensures Progress(results, Sections[k].id) <= Sections[k].totalQuestions
    ensures IsComplete(results, k) <==> AllAnswered(results, Sections[k].id)
  {
    match Sections[k].id
    case Hexaco => HEXACOSection.ProgressWithinCatalog(results.hexaco);
    case Csi => CSISection.ProgressWithinCatalog(results.csi);
    case Icar =>
      ICARSection.AnsweredAtMostTen(results.icar);
      ICARSection.CompleteIffEveryQuestionAnswered(results.icar);
    case Aq10 =>
      AQ10Section.AnsweredAtMostTen(results.aq10);
      AQ10Section.CompleteIffEveryQuestionAnswered(results.aq10);
    case Asrs =>
      ASRSSection.AnsweredAtMostEighteen(results.asrs);
      ASRSSection.CompleteIffEveryQuestionAnswered(results.asrs);
  }

  /** With all stores empty, no section is complete. */
  lemma NothingCompleteInitially()
    ensures forall k :: 0 <= k < |Sections| ==> !IsComplete(EmptyResults, k)
  {
  }

  /** What a button press asks of the enclosing flow. */
  datatype Exit = Stay | CallOnNext | CallOnBack

  /** The assessment stage's held state: the section shown and its copy of the section data. */
  class Navigator {
    var currentSection: nat
    var sectionData: AssessmentResults

    /** The section index addresses a row of the table. */
    predicate Valid()
      reads this
    {
      currentSection < |Sections|
    }

    /** Mounting the stage: the first section is shown, and the data is copied from the props. */
    constructor (data: AssessmentResults)
      ensures Valid() && currentSection == 0 && sectionData == data
    {
      currentSection := 0;
      sectionData := data;
    }

    /** `updateSectionData`: replace one slot, and forward the whole record to the parent. */
    method UpdateSectionData(data: SectionData) returns (forwarded: AssessmentResults)
      modifies this
      ensures sectionData == WithSection(old(sectionData), data)
      ensures currentSection == old(currentSection)
      ensures forwarded == sectionData
    {
      sectionData := WithSection(sectionData, data);
      forwarded := sectionData;
    }

    /** `handleNextSection`: step forward, or leave the stage through `onNext` from the last section. */
    method HandleNextSection() returns (exit: Exit)
      requires Valid()
      modifies this
      ensures Valid() && sectionData == old(sectionData)
      ensures old(currentSection) < |Sections| - 1 ==> currentSection == old(currentSection) + 1 && exit == Stay
      ensures old(currentSection) == |Sections| - 1 ==> currentSection == old(currentSection) && exit == CallOnNext
    {
      if currentSection < |Sections| - 1 {
        currentSection := currentSection + 1;
        exit := Stay;
      } else {
        exit := CallOnNext;
      }
    }

    /** `handlePrevSection`: step back, or leave the stage through `onBack` from the first section. */
    method HandlePrevSection() returns (exit: Exit)
      requires Valid()
      modifies this
      ensures Valid() && sectionData == old(sectionData)
      ensures old(currentSection) > 0 ==> currentSection == old(currentSection) - 1 && exit == Stay
      ensures old(currentSection) == 0 ==> currentSection == 0 && exit == CallOnBack
    {
      if currentSection > 0 {
        currentSection := currentSection - 1;
        exit := Stay;
      } else {
        exit := CallOnBack;
      }
    }

    /** `getCurrentSectionProgress`. */
    function CurrentSectionProgress(): nat
      requires Valid()
      reads this
    {
      Progress(sectionData, Sections[currentSection].id)
    }

    /** `isCurrentSectionComplete`. */
    predicate IsCurrentSectionComplete()
      requires Valid()
      reads this
    {
      IsComplete(sectionData, currentSection)
    }

    /**
     * A click on the Next button: the button is disabled until the current section is
     * complete, so an incomplete section ignores the click.
     */
    method ClickNext() returns (exit: Exit)
      requires Valid()
      modifies this
      ensures Valid() && sectionData == old(sectionData)
      ensures !old(IsComplete(sectionData, currentSection)) ==> currentSection == old(currentSection) && exit == Stay
      ensures old(IsComplete(sectionData, currentSection)) && old(currentSection) < |Sections| - 1 ==>
                currentSection == old(currentSection) + 1 && exit == Stay
      ensures old(IsComplete(sectionData, currentSection)) && old(currentSection) == |Sections| - 1 ==>
                currentSection == old(currentSection) && exit == CallOnNext
      ensures exit == CallOnNext ==> old(IsComplete(sectionData, currentSection))
    {
      if !IsCurrentSectionComplete() {
        exit := Stay;
      } else {
        exit := HandleNextSection();
      }
    }
  }
}
