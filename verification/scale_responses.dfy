/**
 * The map-shaped response store that the HEXACO and CSI sections share: an object from
 * question id to the chosen value of a five-point scale, updated by spreading the old
 * object and overriding one key.
 */
module ScaleResponses {
  import opened Seqs

  /** Question id to chosen scale value. */
  type Responses = map<string, int>

  /** The values of the five scale buttons. */
  const ScaleValues: seq<int> := [1, 2, 3, 4, 5]

  /**
   * `handleResponse`: the new object maps `questionId` to `value` and agrees with the
   * old one everywhere else; its key count grows by one exactly for a first answer.
   */
  function SetAnswer(responses: Responses, questionId: string, value: int): (r: Responses)
    ensures questionId in r && r[questionId] == value
    ensures forall id :: id != questionId ==> (id in r <==> id in responses)
    ensures forall id :: id in r && id != questionId ==> r[id] == responses[id]
    ensures |r| == |responses| + (if questionId in responses then 0 else 1)
    ensures r.Keys == responses.Keys + {questionId}
  {
    responses[questionId := value]
  }

  /** Answering the same question twice with the same value changes nothing the second time. */
  lemma SetAnswerIdempotent(responses: Responses, questionId: string, value: int)
    ensures SetAnswer(SetAnswer(responses, questionId, value), questionId, value)
         == SetAnswer(responses, questionId, value)
  {
  }

  /** Of two answers to one question, only the later one is kept. */
  lemma SetAnswerLastWins(responses: Responses, questionId: string, first: int, second: int)
    ensures SetAnswer(SetAnswer(responses, questionId, first), questionId, second)
         == SetAnswer(responses, questionId, second)
  {
  }

  /** Every stored value is one of the scale buttons' values. */
  predicate OnScale(responses: Responses) {
    forall id :: id in responses ==> responses[id] in ScaleValues
  }

  /** Every key is a question of the catalog. */
  predicate KeysWithin(responses: Responses, catalog: seq<string>) {
    forall id :: id in responses ==> id in catalog
  }

  /** Answers given through the scale buttons keep the store on the scale and inside the catalog. */
  lemma SetAnswerKeepsWellFormed(responses: Responses, questionId: string, value: int, catalog: seq<string>)
    requires OnScale(responses) && KeysWithin(responses, catalog)
    requires value in ScaleValues && questionId in catalog
    ensures OnScale(SetAnswer(responses, questionId, value))
    ensures KeysWithin(SetAnswer(responses, questionId, value), catalog)
  {
  }

  /**
   * With keys drawn from a duplicate-free catalog, the key count is at most the catalog
   * size, and reaches it exactly when every catalog question has an entry.
   */
  lemma {:induction false} KeyCountWithinCatalog(responses: Responses, catalog: seq<string>)
    requires Distinct(catalog) && KeysWithin(responses, catalog)
    ensures |responses| <= |catalog|
    ensures |responses| >= |catalog| <==> forall id :: id in catalog ==> id in responses
  {
    assert responses.Keys <= Elements(catalog);
    KeysFillCatalog(responses.Keys, catalog);
    if forall id :: id in catalog ==> id in responses {
      assert Elements(catalog) <= responses.Keys;
    }
  }

  /** One scale answer: a question id and the chosen value. */
  datatype Answer = Answer(questionId: string, value: int)

  /** The question ids of a sequence of answers, in order. */
  function AnswerIds(events: seq<Answer>): (ids: seq<string>)
    ensures |ids| == |events|
    ensures forall i :: 0 <= i < |events| ==> ids[i] == events[i].questionId
  {
    if events == [] then [] else [events[0].questionId] + AnswerIds(events[1..])
  }

  /** The store after a sequence of clicks, in order. */
  function Replay(responses: Responses, events: seq<Answer>): Responses
    decreases |events|
  {
    if events == [] then responses
    else Replay(SetAnswer(responses, events[0].questionId, events[0].value), events[1..])
  }

  /** After any sequence of clicks, the keys are the old keys plus the clicked ids. */
  lemma {:induction false} ReplayKeys(responses: Responses, events: seq<Answer>)
    ensures Replay(responses, events).Keys == responses.Keys + Elements(AnswerIds(events))
    decreases |events|
  {
    if events != [] {
      var e := events[0];
      var next := SetAnswer(responses, e.questionId, e.value);
      var ids := AnswerIds(events[1..]);
      ReplayKeys(next, events[1..]);
      assert AnswerIds(events) == [e.questionId] + ids;
      ElementsPrepend(e.questionId, ids);
    }
  }

  /** The entry of a clicked question holds the value of its last click. */
  lemma {:induction false} ReplayLastClickWins(responses: Responses, events: seq<Answer>, i: nat)
    requires i < |events|
    requires forall j :: i < j < |events| ==> events[j].questionId != events[i].questionId
    ensures events[i].questionId in Replay(responses, events)
    ensures Replay(responses, events)[events[i].questionId] == events[i].value
    decreases |events|
  {
    var e := events[0];
    var next := SetAnswer(responses, e.questionId, e.value);
    var rest := events[1..];
    assert forall j :: 0 <= j < |rest| ==> rest[j] == events[j + 1];
    if i == 0 {
      ReplayKeepsUntouched(next, rest, e.questionId);
    } else {
      ReplayLastClickWins(next, rest, i - 1);
    }
  }

  /** Clicks on other questions leave a question's entry as it was. */
  lemma {:induction false} ReplayKeepsUntouched(responses: Responses, events: seq<Answer>, questionId: string)
    requires questionId in responses
    requires forall j :: 0 <= j < |events| ==> events[j].questionId != questionId
    ensures questionId in Replay(responses, events)
    ensures Replay(responses, events)[questionId] == responses[questionId]
    decreases |events|
  {
    if events != [] {
      var next := SetAnswer(responses, events[0].questionId, events[0].value);
      assert forall j :: 0 <= j < |events[1..]| ==> events[1..][j] == events[j + 1];
      ReplayKeepsUntouched(next, events[1..], questionId);
    }
  }

  /** From an empty store, the key count is the number of distinct questions clicked. */
  lemma ReplayCountsDistinctIds(events: seq<Answer>)
    ensures |Replay(map[], events)| == |Elements(AnswerIds(events))|
  {
    ReplayKeys(map[], events);
    assert Replay(map[], events).Keys == Elements(AnswerIds(events));
  }
}
