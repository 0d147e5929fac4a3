/**
 * The Communication Styles Inventory section: sixteen statements in four dimensions,
 * answered on a five-point scale, shown grouped by dimension with a completed count
 * per dimension.
 */
module CSISection {
  import opened Seqs
  import opened ScaleResponses

  /** A catalog entry; the statement text and the reverse flag are left out. */
  datatype Question = Question(id: string, dimension: string)

  const Structuredness: string := "structuredness"
  const Thoughtfulness: string := "thoughtfulness"
  const Substantiveness: string := "substantiveness"
  const Conciseness: string := "conciseness"

  /** The four dimensions, in catalog order. */
  const Dimensions: seq<string> := [Structuredness, Thoughtfulness, Substantiveness, Conciseness]

  /** The four structuredness statements. */
  const StructurednessBlock: seq<Question> := [
    Question("struct1", Structuredness), Question("struct2", Structuredness),
    Question("struct3", Structuredness), Question("struct4", Structuredness)]

  /** The four thoughtfulness statements. */
  const ThoughtfulnessBlock: seq<Question> := [
    Question("thought1", Thoughtfulness), Question("thought2", Thoughtfulness),
    Question("thought3", Thoughtfulness), Question("thought4", Thoughtfulness)]

  /** The four substantiveness statements. */
  const SubstantivenessBlock: seq<Question> := [
    Question("subst1", Substantiveness), Question("subst2", Substantiveness),
    Question("subst3", Substantiveness), Question("subst4", Substantiveness)]

  /** The four conciseness statements. */
  const ConcisenessBlock: seq<Question> := [
    Question("concise1", Conciseness), Question("concise2", Conciseness),
    Question("concise3", Conciseness), Question("concise4", Conciseness)]

  /** The catalog, in display order: its sixteen statements written as four blocks of one dimension. */
  const Questions: seq<Question> := StructurednessBlock + ThoughtfulnessBlock + SubstantivenessBlock + ConcisenessBlock

  /** The ids of a list of questions, position by position. */
  function QuestionIds(qs: seq<Question>): (ids: seq<string>)
    ensures |ids| == |qs|
    ensures forall i :: 0 <= i < |qs| ==> ids[i] == qs[i].id
  {
    if qs == [] then [] else QuestionIds(qs[..|qs| - 1]) + [qs[|qs| - 1].id]
  }

  /** One more question at the end adds its id at the end. */
  lemma QuestionIdsSnoc(qs: seq<Question>, q: Question)
    ensures QuestionIds(qs + [q]) == QuestionIds(qs) + [q.id]
  {
    assert (qs + [q])[..|qs + [q]| - 1] == qs;
  }

  /** The test "the question belongs to the dimension". */
  function InDimension(dimension: string): Question -> bool {
    (q: Question) => q.dimension == dimension
  }

  /** The questions of one dimension, in catalog order. */
  function OfDimension(qs: seq<Question>, dimension: string): seq<Question> {
    Filter(qs, InDimension(dimension))
  }

  /** One more question at the end joins its own dimension's list only. */
  lemma OfDimensionSnoc(qs: seq<Question>, q: Question, dimension: string)
    ensures OfDimension(qs + [q], dimension)
         == OfDimension(qs, dimension) + (if q.dimension == dimension then [q] else [])
  {
    FilterSnoc(qs, q, InDimension(dimension));
  }

  /** The dimensions of a question list in order of first occurrence. */
  function DimensionsInOrder(qs: seq<Question>): seq<string> {
    if qs == [] then []
    else
      var earlier := DimensionsInOrder(qs[..|qs| - 1]);
      var d := qs[|qs| - 1].dimension;
      if d in earlier then earlier else earlier + [d]
  }

  /**
   * The first-occurrence list has no repeats, and lists a dimension exactly when some
   * question has that dimension.
   */
  lemma {:induction false} DimensionsInOrderFacts(qs: seq<Question>)
    ensures Distinct(DimensionsInOrder(qs))
    ensures forall d :: d in DimensionsInOrder(qs) <==> OfDimension(qs, d) != []
  {
    if qs != [] {
      var qs', q := qs[..|qs| - 1], qs[|qs| - 1];
      assert qs == qs' + [q];
      DimensionsInOrderFacts(qs');
      forall d ensures OfDimension(qs, d) == OfDimension(qs', d) + (if q.dimension == d then [q] else []) {
        OfDimensionSnoc(qs', q, d);
      }
      if q.dimension !in DimensionsInOrder(qs') {
        DistinctAppend(DimensionsInOrder(qs'), q.dimension);
      }
    }
  }

  /**
   * The accumulator of the grouping reduce after a prefix of the catalog: one bucket per
   * dimension met so far, in first-occurrence order, holding that dimension's questions.
   */
  ghost predicate GroupsOf(groups: map<string, seq<Question>>, order: seq<string>, prefix: seq<Question>) {
    && order == DimensionsInOrder(prefix)
    && (forall d :: d in groups <==> d in order)
    && (forall d :: d in groups ==> groups[d] == OfDimension(prefix, d))
  }

  /** One step of the reduce: create the bucket if it is missing, then push the question. */
  lemma GroupStep(groups: map<string, seq<Question>>, order: seq<string>, prefix: seq<Question>, q: Question)
    requires GroupsOf(groups, order, prefix)
    ensures GroupsOf(groups[q.dimension := (if q.dimension in groups then groups[q.dimension] else []) + [q]],
                     if q.dimension in groups then order else order + [q.dimension],
                     prefix + [q])
  {
    assert (prefix + [q])[..|prefix + [q]| - 1] == prefix;
    forall d ensures OfDimension(prefix + [q], d) == OfDimension(prefix, d) + (if q.dimension == d then [q] else []) {
      OfDimensionSnoc(prefix, q, d);
    }
    if q.dimension !in groups {
      FilterMembers(prefix, InDimension(q.dimension));
      assert OfDimension(prefix, q.dimension) == [] by {
        if OfDimension(prefix, q.dimension) != [] {
          var x := OfDimension(prefix, q.dimension)[0];
          DimensionsInOrderFacts(prefix);
        }
      }
    }
  }

  /**
   * `groupedQuestions`: the reduce over the catalog that creates a dimension's bucket on
   * its first question and pushes every question onto its bucket. `order` is the
   * insertion order of the object's keys, which `Object.entries` follows.
   */
  method GroupedQuestions(qs: seq<Question>) returns (groups: map<string, seq<Question>>, order: seq<string>)
    ensures order == DimensionsInOrder(qs) && Distinct(order)
    ensures forall d :: d in groups <==> d in order
    ensures forall d :: d in groups <==> OfDimension(qs, d) != []
    ensures forall d :: d in groups ==> groups[d] == OfDimension(qs, d)
  {
    groups, order := map[], [];
    var i := 0;
    while i < |qs|
      invariant 0 <= i <= |qs|
      invariant GroupsOf(groups, order, qs[..i])
    {
      var question := qs[i];
      GroupStep(groups, order, qs[..i], question);
      assert qs[..i + 1] == qs[..i] + [question];
      var bucket := if question.dimension in groups then groups[question.dimension] else [];
      if question.dimension !in groups {
        order := order + [question.dimension];
      }
      groups := groups[question.dimension := bucket + [question]];
      i := i + 1;
    }
    assert qs[..|qs|] == qs;
    DimensionsInOrderFacts(qs);
  }

  /** Every question lands in the group of its own dimension and in no other. */
  lemma EachQuestionInOneGroup(qs: seq<Question>)
    ensures forall q, d :: q in qs ==> (q in OfDimension(qs, d) <==> d == q.dimension)
  {
    forall q, d | q in qs ensures q in OfDimension(qs, d) <==> d == q.dimension {
      FilterMembers(qs, InDimension(d));
    }
  }

  /** Every question of the run has the dimension. */
  predicate AllOf(run: seq<Question>, dimension: string) {
    forall i :: 0 <= i < |run| ==> run[i].dimension == dimension
  }

  /** Appending a non-empty run of one dimension adds that dimension if it is new. */
  lemma {:induction false} DimensionsOfRun(prefix: seq<Question>, run: seq<Question>, d: string)
    requires run != [] && AllOf(run, d)
    ensures DimensionsInOrder(prefix + run)
         == DimensionsInOrder(prefix) + (if d in DimensionsInOrder(prefix) then [] else [d])
    decreases |run|
  {
    var run' := run[..|run| - 1];
    assert (prefix + run)[..|prefix + run| - 1] == prefix + run';
    if run' != [] {
      DimensionsOfRun(prefix, run', d);
    } else {
      assert prefix + run' == prefix;
    }
  }

  /** Appending a non-empty run of a dimension not yet met adds it at the end. */
  lemma NewRun(prefix: seq<Question>, run: seq<Question>, d: string, before: seq<string>)
    requires run != [] && AllOf(run, d)
    requires DimensionsInOrder(prefix) == before && d !in before
    ensures DimensionsInOrder(prefix + run) == before + [d]
  {
    DimensionsOfRun(prefix, run, d);
  }

  /** A run of one dimension passes that dimension's filter whole. */
  lemma RunKept(run: seq<Question>, d: string)
    requires AllOf(run, d)
    ensures OfDimension(run, d) == run
  {
    FilterUniform(run, InDimension(d));
  }

  /** A run of one dimension passes no other dimension's filter. */
  lemma RunDropped(run: seq<Question>, d: string, other: string)
    requires AllOf(run, d) && other != d
    ensures OfDimension(run, other) == []
  {
    FilterUniform(run, InDimension(other));
  }

  /** The catalog's blocks, by position. */
  const Blocks: seq<seq<Question>> := [StructurednessBlock, ThoughtfulnessBlock, SubstantivenessBlock, ConcisenessBlock]

  /** The catalog is its four blocks; each holds four questions of its dimension. */
  lemma BlocksUniform()
    ensures |Blocks| == 4 && Questions == Blocks[0] + Blocks[1] + Blocks[2] + Blocks[3]
    ensures forall k :: 0 <= k < 4 ==> |Blocks[k]| == 4 && AllOf(Blocks[k], Dimensions[k])
  {
  }

  /** The four dimensions are different. */
  lemma DimensionsDistinct()
    ensures |Dimensions| == 4 && Distinct(Dimensions)
  {
  }

  /** A non-empty run of one dimension lists just that dimension. */
  lemma FirstRun(run: seq<Question>, d: string)
    requires run != [] && AllOf(run, d)
    ensures DimensionsInOrder(run) == [d]
  {
    assert [] + run == run;
    DimensionsOfRun([], run, d);
  }

  /** Four non-empty uniform runs of four different dimensions list those dimensions in order. */
  lemma FourRunsOrder(bs: seq<seq<Question>>, ds: seq<string>)
    requires |bs| == 4 && |ds| == 4 && Distinct(ds)
    requires forall k :: 0 <= k < 4 ==> bs[k] != [] && AllOf(bs[k], ds[k])
    ensures DimensionsInOrder(bs[0] + bs[1] + bs[2] + bs[3]) == ds
  {
    var b0, b1, b2, b3 := bs[0], bs[1], bs[2], bs[3];
    var d0, d1, d2, d3 := ds[0], ds[1], ds[2], ds[3];
    assert b0 != [] && AllOf(b0, d0);
    assert b1 != [] && AllOf(b1, d1);
    assert b2 != [] && AllOf(b2, d2);
    assert b3 != [] && AllOf(b3, d3);
    assert d1 != d0 && d2 != d0 && d2 != d1 && d3 != d0 && d3 != d1 && d3 != d2;
    var l1, l2, l3 := [d0], [d0, d1], [d0, d1, d2];
    FirstRun(b0, d0);
    assert d1 !in l1;
    NewRun(b0, b1, d1, l1);
    assert l1 + [d1] == l2;
    assert d2 !in l2;
    NewRun(b0 + b1, b2, d2, l2);
    assert l2 + [d2] == l3;
    assert d3 !in l3;
    NewRun(b0 + b1 + b2, b3, d3, l3);
    assert l3 + [d3] == ds;
  }

  /** Filtering four runs filters each run. */
  lemma FourRunsFilter(b0: seq<Question>, b1: seq<Question>, b2: seq<Question>, b3: seq<Question>, d: string)
    ensures OfDimension(b0 + b1 + b2 + b3, d)
         == OfDimension(b0, d) + OfDimension(b1, d) + OfDimension(b2, d) + OfDimension(b3, d)
  {
    FilterAppend(b0 + b1 + b2, b3, InDimension(d));
    FilterAppend(b0 + b1, b2, InDimension(d));
    FilterAppend(b0, b1, InDimension(d));
  }

  /** Of four uniform runs of four different dimensions, a dimension's filter keeps its run. */
  lemma {:induction false} FourRunsGroup(bs: seq<seq<Question>>, ds: seq<string>, k: nat)
    requires |bs| == 4 && |ds| == 4 && Distinct(ds) && k < 4
    requires forall j :: 0 <= j < 4 ==> AllOf(bs[j], ds[j])
    ensures OfDimension(bs[0] + bs[1] + bs[2] + bs[3], ds[k]) == bs[k]
  {
    var d := ds[k];
    FourRunsFilter(bs[0], bs[1], bs[2], bs[3], d);
    if k == 0 {
      RunKept(bs[0], d);
      RunDropped(bs[1], ds[1], d);
      RunDropped(bs[2], ds[2], d);
      RunDropped(bs[3], ds[3], d);
      assert bs[0] + [] + [] + [] == bs[0];
    } else if k == 1 {
      RunDropped(bs[0], ds[0], d);
      RunKept(bs[1], d);
      RunDropped(bs[2], ds[2], d);
      RunDropped(bs[3], ds[3], d);
      assert [] + bs[1] + [] + [] == bs[1];
    } else if k == 2 {
      RunDropped(bs[0], ds[0], d);
      RunDropped(bs[1], ds[1], d);
      RunKept(bs[2], d);
      RunDropped(bs[3], ds[3], d);
      assert [] + [] + bs[2] + [] == bs[2];
    } else {
      RunDropped(bs[0], ds[0], d);
      RunDropped(bs[1], ds[1], d);
      RunDropped(bs[2], ds[2], d);
      RunKept(bs[3], d);
      assert [] + [] + [] + bs[3] == bs[3];
    }
  }

  /**
   * Grouping the catalog yields the four dimensions in catalog order, each with exactly
   * its block of four questions in catalog order.
   */
  lemma CatalogGrouping()
    ensures DimensionsInOrder(Questions) == Dimensions
    ensures forall k :: 0 <= k < 4 ==> OfDimension(Questions, Dimensions[k]) == Blocks[k]
    ensures forall k :: 0 <= k < 4 ==> |OfDimension(Questions, Dimensions[k])| == 4
  {
    BlocksUniform();
    DimensionsDistinct();
    FourRunsOrder(Blocks, Dimensions);
    forall k | 0 <= k < 4 ensures OfDimension(Questions, Dimensions[k]) == Blocks[k] {
      FourRunsGroup(Blocks, Dimensions, k);
    }
  }

  /** `responses[q.id]` used as a condition: present and not zero. */
  predicate Truthy(responses: Responses, id: string) {
    id in responses && responses[id] != 0
  }

  /** The test `q => responses[q.id]`. */
  function Completed(responses: Responses): Question -> bool {
    (q: Question) => Truthy(responses, q.id)
  }

  /** The test "the question has an entry". */
  function Entered(responses: Responses): Question -> bool {
    (q: Question) => q.id in responses
  }

  /** `dimensionQuestions.filter(q => responses[q.id]).length`. */
  function DimensionCompleted(responses: Responses, dimensionQuestions: seq<Question>): (n: nat)
    ensures n <= |dimensionQuestions|
  {
    FilterMembers(dimensionQuestions, Completed(responses));
    |Filter(dimensionQuestions, Completed(responses))|
  }

  /** The questions of a list that have an entry in the store. */
  function WithEntry(responses: Responses, qs: seq<Question>): seq<Question> {
    Filter(qs, Entered(responses))
  }

  /**
   * Because every scale value is non-zero, a dimension's completed count is the number
   * of its questions that have an entry.
   */
  lemma CompletedCountsEntries(responses: Responses, dimensionQuestions: seq<Question>)
    requires OnScale(responses)
    ensures DimensionCompleted(responses, dimensionQuestions) == |WithEntry(responses, dimensionQuestions)|
  {
    FilterAgreeing(dimensionQuestions, Completed(responses), Entered(responses));
  }

  /** A zero entry is stored and counted in the key count but not in the dimension count. */
  lemma ZeroIsNotCompleted()
    ensures DimensionCompleted(map["struct1" := 0], StructurednessBlock) == 0
    ensures |map["struct1" := 0]| == 1
  {
    FilterUniform(StructurednessBlock, Completed(map["struct1" := 0]));
  }

  /** The test `id => responses[id]` on ids. */
  function TruthyId(responses: Responses): string -> bool {
    id => Truthy(responses, id)
  }

  /** The ids of the completed questions are the truthy ones among the ids. */
  lemma {:induction false} CompletedIds(responses: Responses, qs: seq<Question>)
    ensures QuestionIds(Filter(qs, Completed(responses))) == Filter(QuestionIds(qs), TruthyId(responses))
  {
    if qs != [] {
      var qs', x := qs[..|qs| - 1], qs[|qs| - 1];
      assert qs == qs' + [x];
      CompletedIds(responses, qs');
      QuestionIdsSnoc(qs', x);
      FilterSnoc(qs', x, Completed(responses));
      FilterSnoc(QuestionIds(qs'), x.id, TruthyId(responses));
      if Truthy(responses, x.id) {
        QuestionIdsSnoc(Filter(qs', Completed(responses)), x);
      }
    }
  }

  /** No two questions of the catalog share an id. */
  lemma CatalogIdsPairwise()
    ensures forall i, j :: 0 <= i < j < |Questions| ==> Questions[i].id != Questions[j].id
  {
  }

  /** A list of questions with pairwise different ids has a duplicate-free id column. */
  lemma IdsOfDistinct(qs: seq<Question>)
    requires forall i, j :: 0 <= i < j < |qs| ==> qs[i].id != qs[j].id
    ensures Distinct(QuestionIds(qs))
  {
  }

  /** The catalog's sixteen ids are pairwise different. */
  lemma CatalogIdsDistinct()
    ensures Distinct(QuestionIds(Questions))
  {
    CatalogIdsPairwise();
    IdsOfDistinct(Questions);
  }

  /** The completed counts of the four blocks add up to the completed count of the catalog. */
  lemma BlockCountsSum(responses: Responses)
    ensures |Filter(Blocks[0], Completed(responses))| + |Filter(Blocks[1], Completed(responses))|
          + |Filter(Blocks[2], Completed(responses))| + |Filter(Blocks[3], Completed(responses))|
         == |Filter(Questions, Completed(responses))|
  {
    var p := Completed(responses);
    BlocksUniform();
    FilterAppend(Blocks[0] + Blocks[1] + Blocks[2], Blocks[3], p);
    FilterAppend(Blocks[0] + Blocks[1], Blocks[2], p);
    FilterAppend(Blocks[0], Blocks[1], p);
  }

  /** The catalog's completed count never exceeds the key count. */
  lemma CatalogCompletedWithinKeys(responses: Responses)
    ensures |Filter(Questions, Completed(responses))| <= |responses|
  {
    CatalogIdsDistinct();
    CompletedIds(responses, Questions);
    var ids := QuestionIds(Filter(Questions, Completed(responses)));
    FilterKeepsDistinct(QuestionIds(Questions), TruthyId(responses));
    FilterMembers(QuestionIds(Questions), TruthyId(responses));
    DistinctElements(ids);
    assert Elements(ids) <= responses.Keys;
    SubsetCard(Elements(ids), responses.Keys);
  }

  /** In any store, the four dimension counts together never exceed the key count. */
  lemma DimensionCountsWithinKeyCount(responses: Responses)
    ensures DimensionCompleted(responses, OfDimension(Questions, Structuredness))
          + DimensionCompleted(responses, OfDimension(Questions, Thoughtfulness))
          + DimensionCompleted(responses, OfDimension(Questions, Substantiveness))
          + DimensionCompleted(responses, OfDimension(Questions, Conciseness)) <= |responses|
  {
    CatalogGrouping();
    BlockCountsSum(responses);
    CatalogCompletedWithinKeys(responses);
  }

  /** What the section's scale buttons can produce: catalog keys, scale values. */
  predicate WellFormed(responses: Responses) {
    OnScale(responses) && KeysWithin(responses, QuestionIds(Questions))
  }

  /**
   * The "n of 16" key count never exceeds sixteen, and reaches it exactly when every
   * statement has been answered.
   */
  lemma {:induction false} ProgressWithinCatalog(responses: Responses)
    requires KeysWithin(responses, QuestionIds(Questions))
    ensures |responses| <= 16
    ensures |responses| >= 16 <==> forall id :: id in QuestionIds(Questions) ==> id in responses
  {
    CatalogIdsDistinct();
    KeyCountWithinCatalog(responses, QuestionIds(Questions));
  }

  /** Clicking a scale button of a catalog statement keeps the store well formed. */
  lemma HandleResponseKeepsWellFormed(responses: Responses, questionId: string, value: int)
    requires WellFormed(responses)
    requires questionId in QuestionIds(Questions) && value in ScaleValues
    ensures WellFormed(SetAnswer(responses, questionId, value))
    ensures |SetAnswer(responses, questionId, value)| <= 16
  {
    SetAnswerKeepsWellFormed(responses, questionId, value, QuestionIds(Questions));
    ProgressWithinCatalog(SetAnswer(responses, questionId, value));
  }
}
