/**
 * The goal picker: nine development goals, a selection kept as an ordered list of goal
 * ids, and a click that toggles one id in or out of the list.
 */
module DevelopmentalGoals {
  import opened Seqs

  /** The ids of the nine goals, in display order. */
  const GoalIds: seq<string> := [
    "communication", "time-management", "leadership", "collaboration", "problem-solving",
    "adaptability", "emotional-intelligence", "conflict-resolution", "technical-proficiency"]

  /** `selectedGoals.includes(goalId) ? selectedGoals.filter(id => id !== goalId) : [...selectedGoals, goalId]`. */
  function Toggle(selected: seq<string>, goalId: string): seq<string> {
    if goalId in selected then Remove(selected, goalId) else selected + [goalId]
  }

  /** A toggle flips the membership of the clicked id and keeps that of every other id. */
  lemma ToggleFlipsMembership(selected: seq<string>, goalId: string)
    ensures goalId in Toggle(selected, goalId) <==> goalId !in selected
    ensures forall id :: id != goalId ==> (id in Toggle(selected, goalId) <==> id in selected)
  {
    FilterMembers(selected, Differs(goalId));
  }

  /** Toggling an id that is not selected appends it at the end. */
  lemma ToggleAbsentAppends(selected: seq<string>, goalId: string)
    requires goalId !in selected
    ensures Toggle(selected, goalId) == selected + [goalId]
    ensures |Toggle(selected, goalId)| == |selected| + 1
  {
  }

  /**
   * Toggling a selected id removes it where it stands: the ids before and after it keep
   * their order, and the list is one shorter.
   */
  lemma {:induction false} TogglePresentRemoves(selected: seq<string>, goalId: string, k: nat)
    requires Distinct(selected) && k < |selected| && selected[k] == goalId
    ensures Toggle(selected, goalId) == selected[..k] + selected[k + 1..]
    ensures |Toggle(selected, goalId)| == |selected| - 1
  {
    RemoveUnique(selected, k);
  }

  /** A duplicate-free selection stays duplicate-free. */
  lemma ToggleKeepsDistinct(selected: seq<string>, goalId: string)
    requires Distinct(selected)
    ensures Distinct(Toggle(selected, goalId))
  {
    if goalId in selected {
      FilterKeepsDistinct(selected, Differs(goalId));
    } else {
      DistinctAppend(selected, goalId);
    }
  }

  /** Selecting an id and deselecting it again restores the list. */
  lemma ToggleTwiceRestoresAbsent(selected: seq<string>, goalId: string)
    requires goalId !in selected
    ensures Toggle(Toggle(selected, goalId), goalId) == selected
  {
    var p := Differs(goalId);
    FilterSnoc(selected, goalId, p);
    FilterUniform(selected, p);
  }

  /**
   * Deselecting an id and selecting it again moves it to the end: the list is restored
   * exactly when the id was last.
   */
  lemma ToggleTwicePresent(selected: seq<string>, goalId: string, k: nat)
    requires Distinct(selected) && k < |selected| && selected[k] == goalId
    ensures Toggle(Toggle(selected, goalId), goalId) == selected[..k] + selected[k + 1..] + [goalId]
    ensures Toggle(Toggle(selected, goalId), goalId) == selected <==> k == |selected| - 1
  {
    TogglePresentRemoves(selected, goalId, k);
    ToggleFlipsMembership(selected, goalId);
    var twice := selected[..k] + selected[k + 1..] + [goalId];
    if k == |selected| - 1 {
      assert selected == selected[..k] + [goalId];
    } else {
      assert twice[k] == selected[k + 1] != selected[k];
    }
  }

  /** Toggling a selected id twice keeps the same goals, only in a different order. */
  lemma ToggleTwiceCounterexample()
    ensures Toggle(Toggle(["communication", "leadership"], "communication"), "communication")
         == ["leadership", "communication"]
  {
    ToggleTwicePresent(["communication", "leadership"], "communication", 0);
  }

  /** With ids from the catalog, at most nine goals are selected. */
  lemma SelectionAtMostNine(selected: seq<string>)
    requires Distinct(selected) && forall id :: id in selected ==> id in GoalIds
    ensures |selected| <= 9
  {
    DistinctWithin(selected, GoalIds);
  }

  /** The picker's held state. */
  class Picker {
    var selectedGoals: seq<string>

    /** Mounting the picker: the selection is copied from the props. */
    constructor (data: seq<string>)
      ensures selectedGoals == data
    {
      selectedGoals := data;
    }

    /** `toggleGoal`: store the toggled list and forward it to the parent. */
    method ToggleGoal(goalId: string) returns (forwarded: seq<string>)
      modifies this
      ensures selectedGoals == Toggle(old(selectedGoals), goalId)
      ensures forwarded == selectedGoals
    {
      if goalId in selectedGoals {
        selectedGoals := Remove(selectedGoals, goalId);
      } else {
        selectedGoals := selectedGoals + [goalId];
      }
      forwarded := selectedGoals;
    }
  }
}
