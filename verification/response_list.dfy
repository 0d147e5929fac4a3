/**
 * The list-shaped response store that the ICAR, AQ-10 and ASRS sections share: an
 * ordered sequence of `{ questionId, answer }` records in which `handleResponse`
 * replaces the record of an already answered question in place and appends the
 * record of a first answer at the end.
 */
module ResponseList {
  import opened Seqs

  /** One answered question. */
  datatype Response = Response(questionId: string, answer: string)

  /** The question ids of a response list, position by position. */
  function Ids(s: seq<Response>): (ids: seq<string>)
    ensures |ids| == |s|
    ensures forall i :: 0 <= i < |s| ==> ids[i] == s[i].questionId
  {
    if s == [] then [] else [s[0].questionId] + Ids(s[1..])
  }

  /** No question id occurs in two records. */
  predicate UniqueIds(s: seq<Response>) {
    Distinct(Ids(s))
  }

  /** Every record answers a question of the given catalog. */
  predicate IdsWithin(s: seq<Response>, catalog: seq<string>) {
    forall i :: 0 <= i < |s| ==> s[i].questionId in catalog
  }

  /**
   * Reference definition of the upsert, record by record: the first record for
   * `questionId` is replaced, and when there is none the new record goes last.
   */
  function Upsert(s: seq<Response>, questionId: string, answer: string): seq<Response> {
    if s == [] then [Response(questionId, answer)]
    else if s[0].questionId == questionId then [Response(questionId, answer)] + s[1..]
    else [s[0]] + Upsert(s[1..], questionId, answer)
  }

  /** `findIndex` over the copied list: the first record for `questionId`, or -1. */
  method FindIndex(s: seq<Response>, questionId: string) returns (k: int)
    ensures -1 <= k < |s|
    ensures 0 <= k ==> s[k].questionId == questionId
    ensures forall j :: 0 <= j < (if k < 0 then |s| else k) ==> s[j].questionId != questionId
  {
    k := 0;
    while k < |s|
      invariant 0 <= k <= |s|
      invariant forall j :: 0 <= j < k ==> s[j].questionId != questionId
    {
      if s[k].questionId == questionId {
        return;
      }
      k := k + 1;
    }
    k := -1;
  }

  /** Re-answering: the first record for the id is replaced at the same index. */
  lemma {:induction false} UpsertReplaces(s: seq<Response>, questionId: string, answer: string, k: nat)
    requires k < |s| && s[k].questionId == questionId
    requires forall j :: 0 <= j < k ==> s[j].questionId != questionId
    ensures Upsert(s, questionId, answer) == s[k := Response(questionId, answer)]
  {
    if k > 0 {
      UpsertReplaces(s[1..], questionId, answer, k - 1);
      assert [s[0]] + s[1..][k - 1 := Response(questionId, answer)] == s[k := Response(questionId, answer)];
    }
  }

  /** First answer: the new record is appended and nothing else moves. */
  lemma {:induction false} UpsertAppends(s: seq<Response>, questionId: string, answer: string)
    requires forall j :: 0 <= j < |s| ==> s[j].questionId != questionId
    ensures Upsert(s, questionId, answer) == s + [Response(questionId, answer)]
  {
    if s != [] {
      UpsertAppends(s[1..], questionId, answer);
      assert [s[0]] + (s[1..] + [Response(questionId, answer)]) == s + [Response(questionId, answer)];
    }
  }

  /** The upsert leaves the id column as it was, or appends `questionId` to it. */
  lemma UpsertIds(s: seq<Response>, questionId: string, answer: string)
    ensures questionId in Ids(s) ==> Ids(Upsert(s, questionId, answer)) == Ids(s)
    ensures questionId !in Ids(s) ==> Ids(Upsert(s, questionId, answer)) == Ids(s) + [questionId]
  {
    var r := Upsert(s, questionId, answer);
    if k :| 0 <= k < |s| && s[k].questionId == questionId {
      var first := FirstIndex(s, questionId, k);
      UpsertReplaces(s, questionId, answer, first);
      assert Ids(r) == Ids(s);
    } else {
      UpsertAppends(s, questionId, answer);
      assert Ids(r) == Ids(s) + [questionId];
    }
  }

  /** The upsert keeps question ids unique. */
  lemma UpsertKeepsUnique(s: seq<Response>, questionId: string, answer: string)
    requires UniqueIds(s)
    ensures UniqueIds(Upsert(s, questionId, answer))
  {
    UpsertIds(s, questionId, answer);
  }

  /** Afterwards exactly one record carries `questionId`, and it holds the new answer. */
  lemma UpsertExactlyOne(s: seq<Response>, questionId: string, answer: string)
    requires UniqueIds(s)
    ensures var r := Upsert(s, questionId, answer);
      exists k :: 0 <= k < |r| && r[k] == Response(questionId, answer)
        && forall j :: 0 <= j < |r| && j != k ==> r[j].questionId != questionId
  {
    var r := Upsert(s, questionId, answer);
    if k :| 0 <= k < |s| && s[k].questionId == questionId {
      var first := FirstIndex(s, questionId, k);
      UpsertReplaces(s, questionId, answer, first);
      assert Ids(s)[first] == questionId;
      assert r[first] == Response(questionId, answer);
      forall j | 0 <= j < |r| && j != first ensures r[j].questionId != questionId {
        assert Ids(s)[j] != Ids(s)[first];
      }
    } else {
      UpsertAppends(s, questionId, answer);
      assert r[|s|] == Response(questionId, answer);
    }
  }

  /** A record's length and the other records' values and positions, in one statement. */
  lemma UpsertShape(s: seq<Response>, questionId: string, answer: string)
    ensures var r := Upsert(s, questionId, answer);
      && (questionId in Ids(s) ==> |r| == |s|)
      && (questionId !in Ids(s) ==> |r| == |s| + 1 && r[|s|] == Response(questionId, answer))
      && forall j :: 0 <= j < |s| && s[j].questionId != questionId ==> r[j] == s[j]
  {
    if k :| 0 <= k < |s| && s[k].questionId == questionId {
      var first := FirstIndex(s, questionId, k);
      UpsertReplaces(s, questionId, answer, first);
    } else {
      UpsertAppends(s, questionId, answer);
    }
  }

  /** The first record for an id that some record carries. */
  lemma {:induction false} FirstIndex(s: seq<Response>, questionId: string, k: nat) returns (first: nat)
    requires k < |s| && s[k].questionId == questionId
    ensures first <= k && s[first].questionId == questionId
    ensures forall j :: 0 <= j < first ==> s[j].questionId != questionId
    decreases k
  {
    if j :| 0 <= j < k && s[j].questionId == questionId {
      first := FirstIndex(s, questionId, j);
    } else {
      first := k;
    }
  }

  /** Answering a sequence of (question, answer) events in order. */
  function Replay(s: seq<Response>, events: seq<Response>): seq<Response>
    decreases |events|
  {
    if events == [] then s
    else Replay(Upsert(s, events[0].questionId, events[0].answer), events[1..])
  }

  /** Replaying answers keeps ids unique and answers exactly the ids ever mentioned. */
  lemma {:induction false} ReplayIds(s: seq<Response>, events: seq<Response>)
    requires UniqueIds(s)
    ensures UniqueIds(Replay(s, events))
    ensures Elements(Ids(Replay(s, events))) == Elements(Ids(s)) + Elements(Ids(events))
    decreases |events|
  {
    if events != [] {
      var e := events[0];
      var s' := Upsert(s, e.questionId, e.answer);
      var rest := Ids(events[1..]);
      UpsertElements(s, e.questionId, e.answer);
      UpsertKeepsUnique(s, e.questionId, e.answer);
      ReplayIds(s', events[1..]);
      assert Ids(events) == [e.questionId] + rest;
      ElementsPrepend(e.questionId, rest);
    }
  }

  /** After the upsert, the answered ids are the old ones plus `questionId`. */
  lemma UpsertElements(s: seq<Response>, questionId: string, answer: string)
    ensures Elements(Ids(Upsert(s, questionId, answer))) == Elements(Ids(s)) + {questionId}
  {
    UpsertIds(s, questionId, answer);
    if questionId !in Ids(s) {
      ElementsAppend(Ids(s), questionId);
    }
  }

  /**
   * However often each question is re-answered, a list that starts empty ends up
   * with one record per distinct question id ever answered.
   */
  lemma ReplayCountsDistinctIds(events: seq<Response>)
    ensures |Replay([], events)| == |Elements(Ids(events))|
  {
    ReplayIds([], events);
    assert Elements(Ids([])) == {};
    DistinctElements(Ids(Replay([], events)));
  }

  /** Every record's answer is one of the offered option values. */
  predicate AnswersWithin(s: seq<Response>, options: seq<string>) {
    forall i :: 0 <= i < |s| ==> s[i].answer in options
  }

  /**
   * Answers given through the section's radio buttons keep every record inside the
   * question catalog and the option list.
   */
  lemma {:induction false} UpsertStaysWithin(s: seq<Response>, questionId: string, answer: string,
                                             catalog: seq<string>, options: seq<string>)
    requires IdsWithin(s, catalog) && questionId in catalog
    requires AnswersWithin(s, options) && answer in options
    ensures IdsWithin(Upsert(s, questionId, answer), catalog)
    ensures AnswersWithin(Upsert(s, questionId, answer), options)
  {
    if s != [] && s[0].questionId != questionId {
      UpsertStaysWithin(s[1..], questionId, answer, catalog, options);
    }
  }

  /** With unique ids drawn from a catalog, the answered count is at most the catalog size. */
  lemma AnsweredWithinCatalog(s: seq<Response>, catalog: seq<string>)
    requires UniqueIds(s) && IdsWithin(s, catalog)
    ensures |s| <= |catalog|
  {
    DistinctWithin(Ids(s), catalog);
  }

  /**
   * With unique ids drawn from a duplicate-free catalog, the answered count reaches the
   * catalog size exactly when every catalog question has a record.
   */
  lemma {:induction false} AnsweredAllIff(s: seq<Response>, catalog: seq<string>)
    requires UniqueIds(s) && IdsWithin(s, catalog) && Distinct(catalog)
    ensures |s| >= |catalog| <==> forall id :: id in catalog ==> id in Ids(s)
  {
    var ids := Ids(s);
    forall x | x in ids ensures x in catalog {
      var i :| 0 <= i < |ids| && ids[i] == x;
      assert s[i].questionId == x;
    }
    FillsCatalog(ids, catalog);
  }

  lemma IdsAppend(a: seq<Response>, b: seq<Response>)
    ensures Ids(a + b) == Ids(a) + Ids(b)
  {
    assert forall i :: 0 <= i < |a + b| ==> Ids(a + b)[i] == (Ids(a) + Ids(b))[i];
  }

  /** A filtered list answers no question the full list does not. */
  lemma FilterIdsWithin(s: seq<Response>, p: Response -> bool)
    ensures forall id :: id in Ids(Filter(s, p)) ==> id in Ids(s)
  {
    FilterMembers(s, p);
    forall id | id in Ids(Filter(s, p)) ensures id in Ids(s) {
      var k :| 0 <= k < |Filter(s, p)| && Ids(Filter(s, p))[k] == id;
      assert Filter(s, p)[k] in Filter(s, p);
      var m :| 0 <= m < |s| && s[m] == Filter(s, p)[k];
      assert Ids(s)[m] == id;
    }
  }

  /** Keeping only some records keeps their ids unique. */
  lemma {:induction false} FilterKeepsUnique(s: seq<Response>, p: Response -> bool)
    requires UniqueIds(s)
    ensures UniqueIds(Filter(s, p))
  {
    if s != [] {
      var s', x := s[..|s| - 1], s[|s| - 1];
      assert s == s' + [x];
      UniqueIdsSnoc(s', x);
      FilterKeepsUnique(s', p);
      FilterSnoc(s', x, p);
      if p(x) {
        FilterIdsWithin(s', p);
        UniqueIdsSnoc(Filter(s', p), x);
      }
    }
  }

  /** A list with one more record at the end has unique ids iff the rest does and the new id is fresh. */
  lemma UniqueIdsSnoc(s: seq<Response>, x: Response)
    ensures UniqueIds(s + [x]) <==> UniqueIds(s) && x.questionId !in Ids(s)
  {
    IdsAppend(s, [x]);
    var ids := Ids(s);
    assert Ids([x]) == [x.questionId];
    if UniqueIds(s + [x]) {
      var all := ids + [x.questionId];
      assert forall i :: 0 <= i < |ids| ==> ids[i] == all[i];
      assert forall i :: 0 <= i < |ids| ==> all[i] != all[|ids|];
    } else if UniqueIds(s) && x.questionId !in ids {
      DistinctAppend(ids, x.questionId);
    }
  }

  /** The answer store of one list-shaped section component. */
  class ListSection {
    var responses: seq<Response>

    constructor (data: seq<Response>)
      ensures responses == data
    {
      responses := data;
    }

    /**
     * `handleResponse`: copy the list, look the question up, overwrite or push, then
     * store the new list and forward it to the parent.
     */
    method HandleResponse(questionId: string, answer: string) returns (forwarded: seq<Response>)
      modifies this
      ensures responses == Upsert(old(responses), questionId, answer)
      ensures forwarded == responses
    {
      var newResponses := responses;
      var existingIndex := FindIndex(newResponses, questionId);
      if existingIndex >= 0 {
        UpsertReplaces(newResponses, questionId, answer, existingIndex);
        newResponses := newResponses[existingIndex := Response(questionId, answer)];
      } else {
        UpsertAppends(newResponses, questionId, answer);
        newResponses := newResponses + [Response(questionId, answer)];
      }
      responses := newResponses;
      forwarded := newResponses;
    }
  }
}
