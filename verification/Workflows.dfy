// UnifiedWorkflowOrchestrator (src/cadgenesis/autonomous_platform/orchestrator.py):
// the execution order of the registered stages, and a run with required and
// optional stages and a checkpoint after each stage that succeeds.
module Workflows {
  import opened Results
  import opened Seqs
  import opened Graphs
  import opened Kahn

  datatype StageConfig = StageConfig(dependencies: seq<Id>, required: bool, rollbackOnFailure: bool)

  // What calling a stage's function does.
  datatype StageOutcome = Returned(value: string) | Threw(text: string)

  // An entry of stage_results: a value, or the note left for an optional stage.
  datatype Entry = Value(value: string) | SkippedNote(error: string)

  datatype WorkflowStatus = Pending | Running | Completed | Failed | RolledBack

  type Stages = map<Id, StageConfig>
  type Outcomes = Id -> StageOutcome

  function StageGraph(cfg: Stages): Graph {
    map s | s in cfg :: cfg[s].dependencies
  }

  function EntryOf(run: Outcomes, s: Id): Entry {
    match run(s)
    case Returned(v) => Value(v)
    case Threw(t) => SkippedNote(t)
  }

  // The stage stops the workflow.
  predicate Fatal(cfg: Stages, run: Outcomes, s: Id) {
    s in cfg && cfg[s].required && run(s).Threw?
  }

  // The entries of the first k stages of the order.
  function Entries(run: Outcomes, order: seq<Id>, k: nat): map<Id, Entry>
    requires k <= |order|
  {
    map s | s in order[..k] :: EntryOf(run, s)
  }

  lemma {:induction false} EntriesSnoc(run: Outcomes, order: seq<Id>, k: nat)
    requires k < |order|
    ensures Entries(run, order, k + 1) == Entries(run, order, k)[order[k] := EntryOf(run, order[k])]
  {
    assert order[..k + 1] == order[..k] + [order[k]];
    ElemsSnoc(order[..k], order[k]);
    assert Entries(run, order, k + 1).Keys == Elems(order[..k + 1]);
    assert Entries(run, order, k).Keys == Elems(order[..k]);
  }

  // The checkpoint of stage i: what had been recorded once it succeeded.
  ghost predicate CheckpointAt(run: Outcomes, order: seq<Id>, checkpoints: map<Id, map<Id, Entry>>, i: nat)
    requires i < |order|
  {
    if run(order[i]).Returned? then order[i] in checkpoints && checkpoints[order[i]] == Entries(run, order, i + 1)
    else order[i] !in checkpoints
  }

  ghost predicate ErrorAt(run: Outcomes, order: seq<Id>, errors: map<Id, string>, i: nat)
    requires i < |order|
  {
    if run(order[i]).Threw? then order[i] in errors && errors[order[i]] == run(order[i]).text
    else order[i] !in errors
  }

  // The first k stages have run, none of them stopping the workflow.
  ghost predicate RanThrough(cfg: Stages, run: Outcomes, order: seq<Id>, k: nat, results: map<Id, Entry>,
      errors: map<Id, string>, checkpoints: map<Id, map<Id, Entry>>)
  {
    && k <= |order| && results == Entries(run, order, k)
    && (forall i: nat {:trigger order[i]} :: i < k ==> !Fatal(cfg, run, order[i]))
    && errors.Keys <= Elems(order[..k]) && checkpoints.Keys <= Elems(order[..k])
    && (forall i: nat {:trigger ErrorAt(run, order, errors, i)} :: i < k ==> ErrorAt(run, order, errors, i))
    && (forall i: nat {:trigger CheckpointAt(run, order, checkpoints, i)} ::
      i < k ==> CheckpointAt(run, order, checkpoints, i))
  }

  lemma {:induction false} OneMoreStage(cfg: Stages, run: Outcomes, order: seq<Id>, k: nat, results: map<Id, Entry>,
      errors: map<Id, string>, checkpoints: map<Id, map<Id, Entry>>)
    requires NoDup(order) && k < |order| && !Fatal(cfg, run, order[k])
    requires RanThrough(cfg, run, order, k, results, errors, checkpoints)
    ensures var s := order[k];
      var results' := results[s := EntryOf(run, s)];
      RanThrough(cfg, run, order, k + 1, results', if run(s).Threw? then errors[s := run(s).text] else errors,
        if run(s).Returned? then checkpoints[s := results'] else checkpoints)
  {
    var s := order[k];
    var results' := results[s := EntryOf(run, s)];
    var errors' := if run(s).Threw? then errors[s := run(s).text] else errors;
    var checkpoints' := if run(s).Returned? then checkpoints[s := results'] else checkpoints;
    EntriesSnoc(run, order, k);
    assert order[..k + 1] == order[..k] + [s];
    ElemsSnoc(order[..k], s);
    NoDupCut(order, 0, k);
    assert s !in Elems(order[..k]);
    forall i: nat | i < k + 1
      ensures ErrorAt(run, order, errors', i) && CheckpointAt(run, order, checkpoints', i)
    {
      NoDupAt(order, i, k);
      assert i < k ==> ErrorAt(run, order, errors, i) && CheckpointAt(run, order, checkpoints, i);
    }
  }

  // In a topological order, a stage's dependencies have all been recorded.
  lemma {:induction false} DependenciesRecorded(cfg: Stages, run: Outcomes, order: seq<Id>, k: nat)
    requires Closed(StageGraph(cfg)) && TopologicalOrder(StageGraph(cfg), order) && k < |order|
    ensures order[k] in cfg && forall d :: d in cfg[order[k]].dependencies ==> d in Entries(run, order, k)
  {
    var g := StageGraph(cfg);
    assert Follows(g, order, k);
    forall d | d in cfg[order[k]].dependencies
      ensures d in Entries(run, order, k)
    {
      assert d in g[order[k]];
      assert d in order[..k];
    }
  }

  class WorkflowState {
    var status: WorkflowStatus
    var results: map<Id, Entry>
    var errors: map<Id, string>
    var checkpoints: map<Id, map<Id, Entry>>
    var failure: Option<string>

    constructor ()
      ensures status == Running && results == map[] && errors == map[] && checkpoints == map[] && failure == None
    {
      status, results, errors, checkpoints, failure := Running, map[], map[], map[], None;
    }
  }

  const CIRCULAR := "Workflow has circular dependencies"

  // How a run ends: every stage ran, or the order stops at the first stage k that is
  // required and threw.
  ghost predicate Finished(cfg: Stages, run: Outcomes, order: seq<Id>, k: nat, status: WorkflowStatus,
      results: map<Id, Entry>, errors: map<Id, string>, checkpoints: map<Id, map<Id, Entry>>, failure: Option<string>)
  {
    if k == |order| then
      status == Completed && failure == None && RanThrough(cfg, run, order, k, results, errors, checkpoints)
    else
      && k < |order| && Fatal(cfg, run, order[k]) && status == Failed && failure == Some(run(order[k]).text)
      && order[k] in errors && errors[order[k]] == run(order[k]).text
      && RanThrough(cfg, run, order, k, results, errors - {order[k]}, checkpoints)
  }

  // The status that a failing stage leaves before the workflow is marked as failed.
  function FailedAs(config: StageConfig): WorkflowStatus {
    if config.rollbackOnFailure then RolledBack else Failed
  }

  // A workflow is completed exactly when no required stage threw.
  lemma {:induction false} CompletedIffNoneFatal(cfg: Stages, run: Outcomes, order: seq<Id>, k: nat,
      status: WorkflowStatus, results: map<Id, Entry>, errors: map<Id, string>, checkpoints: map<Id, map<Id, Entry>>,
      failure: Option<string>)
    requires TopologicalOrder(StageGraph(cfg), order)
    requires Finished(cfg, run, order, k, status, results, errors, checkpoints, failure)
    ensures status == Completed <==> forall s :: s in cfg ==> !Fatal(cfg, run, s)
  {
    forall s | s in cfg
      ensures s in order
    {
      assert s in StageGraph(cfg).Keys;
      assert s in Elems(order);
    }
  }

  class Orchestrator {
    // The dictionary of stages: its keys in insertion order, and its entries.
    var ids: seq<Id>
    var stages: Stages

    ghost predicate Valid()
      reads this
    {
      NoDup(ids) && Elems(ids) == stages.Keys
    }

    constructor ()
      ensures Valid() && stages == map[]
    {
      ids, stages := [], map[];
    }

    // register_stage: a stage registered again keeps its place.
    method RegisterStage(stage: Id, config: StageConfig)
      requires Valid()
      modifies this
      ensures Valid() && stages == old(stages)[stage := config]
      ensures ids == if stage in old(stages) then old(ids) else old(ids) + [stage]
    {
      if stage !in stages {
        assert stage !in Elems(ids);
        ElemsSnoc(ids, stage);
        NoDupSnoc(ids, stage);
        ids := ids + [stage];
      }
      stages := stages[stage := config];
    }

    // _get_execution_order: a dependency may be listed more than once, but must be
    // registered.
    method GetExecutionOrder() returns (r: Result<seq<Id>, string>)
      requires Valid()
      ensures r.Ok? <==> Closed(StageGraph(stages)) && !Cyclic(StageGraph(stages))
      ensures r.Ok? ==> TopologicalOrder(StageGraph(stages), r.value)
      ensures r.Err? ==> r.error == CIRCULAR == "Workflow has circular dependencies"
    {
      var g := StageGraph(stages);
      var adjacency, indegree := BuildEdges(ids, g);
      var order := DrainQueue(ids, g, adjacency, indegree);
      ExhaustedDecides(g, order);
      SameKeysSameSize(g, stages);
      return if |order| != |stages| then Err(CIRCULAR) else Ok(order);
    }

    // _run_workflow, on the fresh state that execute_workflow gives it.
    method RunWorkflow(state: WorkflowState, run: Outcomes)
        returns (r: Result<(), string>, ghost order: seq<Id>, ghost k: nat)
      requires Valid() && state.results == map[] && state.errors == map[] && state.checkpoints == map[]
      modifies state
      ensures state.failure == old(state.failure)
      ensures (Closed(StageGraph(stages)) && !Cyclic(StageGraph(stages))) ==>
        && TopologicalOrder(StageGraph(stages), order) && k <= |order| && (r.Ok? <==> k == |order|)
        && (r.Ok? ==> Finished(stages, run, order, k, state.status, state.results, state.errors, state.checkpoints,
          None))
        && (r.Err? ==> Finished(stages, run, order, k, Failed, state.results, state.errors, state.checkpoints,
          Some(r.error)))
        && (r.Err? ==> state.status == FailedAs(stages[order[k]]))
      ensures !(Closed(StageGraph(stages)) && !Cyclic(StageGraph(stages))) ==>
        && r == Err(CIRCULAR) && state.status == old(state.status)
        && state.results == map[] && state.errors == map[] && state.checkpoints == map[]
    {
      var sorted := GetExecutionOrder();
      order, k := [], 0;
      if sorted.Err? {
        return Err(sorted.error), order, k;
      }
      order := sorted.value;
      r, k := RunStages(state, run, sorted.value);
    }

    // The loop over the stages in order.
    method RunStages(state: WorkflowState, run: Outcomes, order: seq<Id>) returns (r: Result<(), string>, ghost k: nat)
      requires Valid() && Closed(StageGraph(stages)) && TopologicalOrder(StageGraph(stages), order)
      requires state.results == map[] && state.errors == map[] && state.checkpoints == map[]
      modifies state
      ensures state.failure == old(state.failure) && k <= |order| && (r.Ok? <==> k == |order|)
      ensures r.Ok? ==>
        Finished(stages, run, order, k, state.status, state.results, state.errors, state.checkpoints, None)
      ensures r.Err? ==>
        Finished(stages, run, order, k, Failed, state.results, state.errors, state.checkpoints, Some(r.error))
      ensures r.Err? ==> state.status == FailedAs(stages[order[k]])
    {
      var i := 0;
      k := 0;
      while i < |order|
        invariant 0 <= i <= |order| && k == i
        invariant state.failure == old(state.failure)
        invariant RanThrough(stages, run, order, k, state.results, state.errors, state.checkpoints)
      {
        var stage := order[i];
        DependenciesRecorded(stages, run, order, i);
        var config := stages[stage];
        var outcome := if forall d | d in config.dependencies :: d in state.results then run(stage)
                       else Threw("Dependency not satisfied");
        match outcome {
          case Returned(value) =>
            OneMoreStage(stages, run, order, k, state.results, state.errors, state.checkpoints);
            state.results := state.results[stage := Value(value)];
            state.checkpoints := state.checkpoints[stage := state.results];
          case Threw(text) =>
            if config.required {
              StopAt(stages, run, order, k, state.results, state.errors, state.checkpoints);
              state.errors := state.errors[stage := text];
              state.status := Failed;
              if config.rollbackOnFailure {
                state.status := RolledBack;
              }
              return Err(text), k;
            }
            OneMoreStage(stages, run, order, k, state.results, state.errors, state.checkpoints);
            state.errors := state.errors[stage := text];
            state.results := state.results[stage := SkippedNote(text)];
        }
        i, k := i + 1, k + 1;
      }
      state.status := Completed;
      return Ok(()), k;
    }

    // execute_workflow: whatever is raised ends in a failed workflow.
    method ExecuteWorkflow(run: Outcomes) returns (state: WorkflowState, ghost order: seq<Id>, ghost k: nat)
      requires Valid()
      ensures fresh(state)
      ensures (Closed(StageGraph(stages)) && !Cyclic(StageGraph(stages))) ==>
        && TopologicalOrder(StageGraph(stages), order)
        && Finished(stages, run, order, k, state.status, state.results, state.errors, state.checkpoints, state.failure)
      ensures !(Closed(StageGraph(stages)) && !Cyclic(StageGraph(stages))) ==>
        && state.status == Failed && state.failure == Some(CIRCULAR)
        && state.results == map[] && state.errors == map[] && state.checkpoints == map[]
    {
      state := new WorkflowState();
      var r;
      r, order, k := RunWorkflow(state, run);
      if r.Err? {
        state.status := Failed;
        state.failure := Some(r.error);
      }
    }
  }

  lemma {:induction false} StopAt(cfg: Stages, run: Outcomes, order: seq<Id>, k: nat, results: map<Id, Entry>,
      errors: map<Id, string>, checkpoints: map<Id, map<Id, Entry>>)
    requires NoDup(order) && k < |order| && Fatal(cfg, run, order[k])
    requires RanThrough(cfg, run, order, k, results, errors, checkpoints)
    ensures Finished(cfg, run, order, k, Failed, results, errors[order[k] := run(order[k]).text], checkpoints,
      Some(run(order[k]).text))
  {
    NoDupCut(order, 0, k);
    assert order[0..k] == order[..k];
    assert errors[order[k] := run(order[k]).text] - {order[k]} == errors;
  }
}
