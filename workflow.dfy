/**
 * The actor's workflow: the linear pipeline of stages, what the host is asked to do after a
 * stage handler returns, and the progress query.
 */
module Workflow {

  /** The workflow states, in declaration (and pipeline) order. */
  datatype WorkflowState =
    | InitWorkflow
    | SpiralCreateCenter
    | SpiralCreateNeighbors
    | CreateVertices
    | CreateTriangles
    | WriteTiles
    | WriteTileIndices
    | WriteVertices
    | WriteTriangles
    | WriteParams
    | Done
    | Error

  /** What a stage handler leaves behind for the host: call the dispatcher again after a
      delay (a one-shot timer on the workflow delegate), or nothing at all. */
  datatype Schedule = After(delay: real) | Idle

  /** The underlying value of each enumerator. */
  function Ordinal(s: WorkflowState): (n: nat)
    ensures n < 12
  {
    match s
    case InitWorkflow => 0
    case SpiralCreateCenter => 1
    case SpiralCreateNeighbors => 2
    case CreateVertices => 3
    case CreateTriangles => 4
    case WriteTiles => 5
    case WriteTileIndices => 6
    case WriteVertices => 7
    case WriteTriangles => 8
    case WriteParams => 9
    case Done => 10
    case Error => 11
  }

  /** Done and Error do no work and schedule nothing. */
  predicate IsTerminal(s: WorkflowState) {
    s == Done || s == Error
  }

  /** The stages that write a file and so may fail into Error. */
  predicate IsWriteStage(s: WorkflowState) {
    s == WriteTiles || s == WriteTileIndices || s == WriteVertices || s == WriteTriangles
    || s == WriteParams
  }

  /** The state a stage hands off to once it has finished its work. */
  function Next(s: WorkflowState): WorkflowState
    requires !IsTerminal(s)
  {
    match s
    case InitWorkflow => SpiralCreateCenter
    case SpiralCreateCenter => SpiralCreateNeighbors
    case SpiralCreateNeighbors => CreateVertices
    case CreateVertices => CreateTriangles
    case CreateTriangles => WriteTiles
    case WriteTiles => WriteTileIndices
    case WriteTileIndices => WriteVertices
    case WriteVertices => WriteTriangles
    case WriteTriangles => WriteParams
    case WriteParams => Done
  }

  /** What one call of the workflow does to the state: Done and Error stay; a write stage
      whose file does not open moves to Error; any other call either stays in its stage or
      hands off to the next one. */
  predicate Step(before: WorkflowState, after: WorkflowState, fileOpens: bool) {
    if IsTerminal(before) then after == before
    else if IsWriteStage(before) && !fileOpens then after == Error
    else after == before || after == Next(before)
  }

  /** A call never goes backwards: short of Error, the state's value grows by at most one,
      and Error is reached only from a write stage. */
  lemma StepForward(before: WorkflowState, after: WorkflowState, fileOpens: bool)
    requires Step(before, after, fileOpens)
    ensures after != Error ==> Ordinal(before) <= Ordinal(after) <= Ordinal(before) + 1
    ensures after == Error ==> before == Error || IsWriteStage(before)
  {
    if !IsTerminal(before) && after == Next(before) {
      NextIsSuccessor(before);
    }
  }

  /** Every finished stage hands off to exactly the next enumerator, and only Error comes
      after Done. */
  lemma NextIsSuccessor(s: WorkflowState)
    requires !IsTerminal(s)
    ensures Ordinal(Next(s)) == Ordinal(s) + 1
    ensures Next(s) != Error
    ensures Next(s) == Done <==> s == WriteParams
  {
  }

  /** Following the hand-offs from InitWorkflow visits the ten working stages in enum order
      and arrives at Done. */
  function Pipeline(s: WorkflowState): (p: seq<WorkflowState>)
    requires s != Error
    ensures |p| == 11 - Ordinal(s)
    ensures p[|p| - 1] == Done
    decreases 11 - Ordinal(s)
  {
    if s == Done then [Done] else [s] + Pipeline(Next(s))
  }

  lemma {:induction false} PipelineInOrder(s: WorkflowState)
    requires s != Error
    ensures forall m :: 0 <= m < |Pipeline(s)| ==> Ordinal(Pipeline(s)[m]) == Ordinal(s) + m
    decreases 11 - Ordinal(s)
  {
    if s != Done {
      NextIsSuccessor(s);
      PipelineInOrder(Next(s));
    }
  }

  /** The pipeline from the initial state is the whole enum except Error. */
  lemma FullPipeline()
    ensures Pipeline(InitWorkflow) ==
      [InitWorkflow, SpiralCreateCenter, SpiralCreateNeighbors, CreateVertices,
       CreateTriangles, WriteTiles, WriteTileIndices, WriteVertices, WriteTriangles,
       WriteParams, Done]
  {
  }

  /** The progress of the running stage: 0 while no target is set, otherwise the fraction
      done, capped at 1 (computed in single precision by the source; reals here). */
  function GetProgress(current: int, target: int): (p: real)
    ensures target == 0 ==> p == 0.0
    ensures target != 0 ==> p <= 1.0
  {
    if target == 0 then 0.0
    else
      var rate := current as real / target as real;
      if rate > 1.0 then 1.0 else rate
  }

  /** For a positive target the progress lies in [0, 1], reaches 1 exactly when the target
      is met, and equals the fraction done below it. */
  lemma ProgressBounds(current: int, target: int)
    requires target > 0 && current >= 0
    ensures 0.0 <= GetProgress(current, target) <= 1.0
    ensures GetProgress(current, target) == 1.0 <==> current >= target
    ensures current <= target ==> GetProgress(current, target) * target as real == current as real
  {
    var rate := current as real / target as real;
    if current >= target {
      assert rate >= 1.0;
    } else {
      assert rate < 1.0;
    }
  }

  /** Progress never goes backwards while the counter grows towards a fixed target. */
  lemma ProgressMonotone(current: int, current': int, target: int)
    requires target > 0 && current <= current'
    ensures GetProgress(current, target) <= GetProgress(current', target)
  {
    assert current as real / target as real <= current' as real / target as real;
  }
}
