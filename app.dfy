/** The state of the App component and its handlers: the shown plan, the history, the loading
    flag, the error banner, the view and the title of the step being decomposed. React's state
    setters become field assignments, applied in the order the handler calls them. */
module AppShell {
  import opened Wrappers
  import opened Plans
  import opened PlanTree
  import GeminiService

  datatype View = Home | Archive | Settings

  /** The banner text of a failed generation. */
  const GENERATION_ERROR := "Something went wrong while generating your plan. Please try again."

  /** The parent link `handleGenerate` writes onto a plan: only a truthy `parentId` is written. */
  function Linked(p: Plan, parentId: Option<string>): (r: Plan)
    ensures r.parentId == if Truthy(parentId) then parentId else p.parentId
    // no field other than the parent link changes
    ensures r.(parentId := p.parentId) == p
  {
    if Truthy(parentId) then p.(parentId := parentId) else p
  }

  /** The plan on screen after a run of partial updates: the last one, linked, or the plan that
      was shown before when there was none. */
  function LastShown(before: Option<Plan>, updates: seq<Plan>, parentId: Option<string>): Option<Plan> {
    if updates == [] then before else Some(Linked(updates[|updates| - 1], parentId))
  }

  class App {
    var plan: Option<Plan>
    var history: seq<Plan>
    var loading: bool
    var error: Option<string>
    var view: View
    var decomposingTask: Option<string>

    /** The initial state; the history stored in the browser is not part of this model. */
    constructor()
      ensures plan == None && history == [] && !loading && error == None
      ensures view == Home && decomposingTask == None
    {
      plan := None;
      history := [];
      loading := false;
      error := None;
      view := Home;
      decomposingTask := None;
    }

    /** `handleGenerate`. Every partial update is shown as it arrives (with the parent link),
        so a failed generation leaves the last one on screen; a completed one is shown and
        upserted into the history. */
    method HandleGenerate(goal: string, parentId: Option<string>, isSubTask: bool, b: GeminiService.Backend)
      modifies this
      ensures var result := GeminiService.ExpectedResult(b);
              && (result.Success? ==>
                    && plan == Some(Linked(result.value, parentId))
                    && history == Upsert(old(history), Linked(result.value, parentId))
                    && error == None)
              && (result.Failure? ==>
                    && plan == LastShown(old(plan), GeminiService.ExpectedUpdates(goal, b, true), parentId)
                    && history == old(history)
                    && error == Some(GENERATION_ERROR))
      ensures !loading && decomposingTask == None && view == old(view)
      ensures old(UniqueIds(history)) ==> UniqueIds(history)
    {
      loading := true;
      error := None;
      var updates, result := GeminiService.GenerateGoalPlan(goal, b, true);
      StreamUpdates(updates, parentId);
      Settle(result, parentId);
    }

    /** The `onPartialUpdate` callback: the snapshot, with the parent link, is shown. */
    method OnPartialUpdate(partialPlan: Plan, parentId: Option<string>)
      modifies this
      ensures plan == Some(Linked(partialPlan, parentId))
      ensures history == old(history) && error == old(error) && loading == old(loading)
      ensures view == old(view) && decomposingTask == old(decomposingTask)
    {
      plan := Some(Linked(partialPlan, parentId));
    }

    /** The callback invocations of one generation, in order. */
    method StreamUpdates(updates: seq<Plan>, parentId: Option<string>)
      modifies this
      ensures plan == LastShown(old(plan), updates, parentId)
      ensures history == old(history) && error == old(error) && loading == old(loading)
      ensures view == old(view) && decomposingTask == old(decomposingTask)
    {
      for k := 0 to |updates|
        invariant plan == LastShown(old(plan), updates[..k], parentId)
        invariant history == old(history) && error == old(error) && loading == old(loading)
        invariant view == old(view) && decomposingTask == old(decomposingTask)
      {
        OnPartialUpdate(updates[k], parentId);
        assert updates[..k + 1][k] == updates[k];
      }
      assert updates[..|updates|] == updates;
    }

    /** The rest of `handleGenerate` once the generation has settled: the completed plan is
        shown and upserted, a failure sets the banner; either way loading ends. */
    method Settle(result: Result<Plan, GeminiService.GenError>, parentId: Option<string>)
      modifies this
      ensures result.Success? ==>
                && plan == Some(Linked(result.value, parentId))
                && history == Upsert(old(history), Linked(result.value, parentId))
                && error == old(error)
      ensures result.Failure? ==>
                plan == old(plan) && history == old(history) && error == Some(GENERATION_ERROR)
      ensures !loading && decomposingTask == None && view == old(view)
      ensures old(UniqueIds(history)) ==> UniqueIds(history)
    {
      match result {
        case Success(generated) =>
          var generatedPlan := Linked(generated, parentId);
          plan := Some(generatedPlan);
          if UniqueIds(history) {
            UpsertKeepsIdsUnique(history, generatedPlan);
          }
          history := Upsert(history, generatedPlan);
        case Failure(_) =>
          error := Some(GENERATION_ERROR);
      }
      loading := false;
      decomposingTask := None;
    }

    /** `handleLoadPlan`: show a saved plan on the home view. */
    method HandleLoadPlan(savedPlan: Plan)
      modifies this
      ensures plan == Some(savedPlan) && view == Home
      ensures history == old(history) && loading == old(loading) && error == old(error)
      ensures decomposingTask == old(decomposingTask)
    {
      plan := Some(savedPlan);
      view := Home;
    }

    /** `handleDeleteHistoryItem`: drop the entries with that timestamp, and the shown plan
        when it is one of them. */
    method HandleDeleteHistoryItem(timestamp: int)
      modifies this
      ensures history == DeleteByTimestamp(old(history), timestamp)
      ensures plan == if old(plan).Some? && old(plan).value.createdAt == timestamp then None else old(plan)
      ensures loading == old(loading) && error == old(error) && view == old(view)
      ensures decomposingTask == old(decomposingTask)
      ensures old(UniqueIds(history)) ==> UniqueIds(history)
    {
      if UniqueIds(history) {
        DeleteKeepsIdsUnique(history, timestamp);
      }
      history := DeleteByTimestamp(history, timestamp);
      if plan.Some? && plan.value.createdAt == timestamp {
        plan := None;
      }
    }

    /** `handleClearHistory`. */
    method HandleClearHistory()
      modifies this
      ensures history == [] && plan == None
      ensures loading == old(loading) && error == old(error) && view == old(view)
      ensures decomposingTask == old(decomposingTask)
    {
      history := [];
      plan := None;
    }

    /** `handleBreakdown`: without a shown plan nothing happens; a sub-plan already stored for
        this task of the shown plan is shown again; otherwise a sub-task generation runs with
        the shown plan's id as parent. */
    method HandleBreakdown(taskTitle: string, b: GeminiService.Backend)
      modifies this
      ensures old(plan).None? ==> unchanged(this)
      ensures old(plan).Some? && FindSubPlan(old(history), old(plan).value.id, taskTitle).Some? ==>
                && plan == FindSubPlan(old(history), old(plan).value.id, taskTitle)
                && history == old(history) && error == old(error) && loading == old(loading)
                && decomposingTask == old(decomposingTask) && view == old(view)
      ensures old(plan).Some? && FindSubPlan(old(history), old(plan).value.id, taskTitle).None? ==>
                var parentId := Some(old(plan).value.id);
                var result := GeminiService.ExpectedResult(b);
                && (result.Success? ==>
                      && plan == Some(Linked(result.value, parentId))
                      && history == Upsert(old(history), Linked(result.value, parentId))
                      && error == None)
                && (result.Failure? ==>
                      && plan == LastShown(old(plan), GeminiService.ExpectedUpdates(taskTitle, b, true), parentId)
                      && history == old(history)
                      && error == Some(GENERATION_ERROR))
                && !loading && decomposingTask == None && view == old(view)
      ensures old(UniqueIds(history)) ==> UniqueIds(history)
    {
      if plan.None? {
        return;
      }
      var current := plan.value;
      var existingSubPlan := FindSubPlan(history, current.id, taskTitle);
      if existingSubPlan.Some? {
        plan := existingSubPlan;
        return;
      }
      decomposingTask := Some(taskTitle);
      HandleGenerate(taskTitle, Some(current.id), true, b);
    }

    /** The `planPath` memo: walks the parent links up from the shown plan, at most
        `MAX_HOPS` times, putting each parent it finds in front. */
    method PlanPath() returns (path: seq<Plan>)
      ensures path == PathOf(history, plan)
    {
      if plan.None? {
        return [];
      }
      var shown := plan.value;
      path := [shown];
      var curr := shown;
      var loops: nat := 0;
      ghost var full := PathOf(history, plan);
      PathOfShown(history, shown);
      while HasParent(curr) && loops < MAX_HOPS
        invariant loops <= MAX_HOPS
        invariant full == Ancestors(history, curr, MAX_HOPS - loops) + path
        decreases MAX_HOPS - loops
      {
        var parent := FindById(history, curr.parentId.value);
        if parent.Some? {
          PathStep(history, full, curr, MAX_HOPS - loops, parent.value, path);
          path := [parent.value] + path;
          curr := parent.value;
        } else {
          break;
        }
        loops := loops + 1;
      }
      AncestorsStop(history, curr, MAX_HOPS - loops);
      assert [] + path == path;
    }

    /** The `childPlans` memo. */
    function Children(): (r: seq<Plan>)
      reads this
      ensures plan.None? ==> r == []
      ensures plan.Some? ==> forall x :: x in multiset(r) <==> x in multiset(history) && x.parentId == Some(plan.value.id)
      ensures forall i, j :: 0 <= i < j < |r| ==> r[i].createdAt >= r[j].createdAt
    {
      ChildPlans(history, plan)
    }
  }
}
