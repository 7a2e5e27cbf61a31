/**
  What the run that led to a state tells about it: which conditions were evaluated with which
  results, which tasks returned what, and how each stage ended because of that.  Everything is
  said of the graphs themselves, stage by stage.
 */
module ScheduleHistory {
  import opened Digraph
  import opened Stages
  import opened WellBuiltGraphs
  import opened Schedules
  import opened ScheduleSafety
  import opened ScheduleTheorems
  import opened PipelineConfig

  /** A step that evaluates the condition of a stage: the loop of its graph is testing it. */
  predicate TestOf(s: State, a: Step, x: StageId) {
    && a.TestCondition? && a.g == x.graph
    && LoopOf(s, x.graph).Testing? && LoopOf(s, x.graph).stage == x.name
  }

  /** The results that evaluating the condition of a stage had in a run. */
  function Outcomes(top: Graph, s: State, steps: seq<Step>, x: StageId): set<ConditionResult>
    decreases |steps|
  {
    if steps == [] || !Enabled(top, s, steps[0]) then {}
    else
      (if TestOf(s, steps[0], x) then {steps[0].result} else {})
      + Outcomes(top, Apply(top, s, steps[0]), steps[1..], x)
  }

  /** The loop of its graph checks the parents of a stage. */
  predicate InCheck(s: State, x: StageId) {
    LoopOf(s, x.graph).Checking? && LoopOf(s, x.graph).stage == x.name
  }

  /** What a stage has come to is what the results so far make of it. */
  ghost predicate Explained(top: Graph, s: State, x: StageId, seen: set<ConditionResult>) {
    && (StatusOf(s, x) == Skipped <==> Unmet in seen)
    && (StatusOf(s, x) == Failed && WorkerOf(s, x) == Idle <==> Broken in seen)
    && (seen != {} ==> HasCondition(top, x))
    && (HasCondition(top, x) && (WorkerOf(s, x) != Idle || InCheck(s, x) || StatusOf(s, x) == Canceled) ==> Met in seen)
  }

  lemma NothingSeen(top: Graph, x: StageId)
    ensures Explained(top, INITIAL, x, {})
  {
  }

  /** Nothing that matters for the account of a stage has changed. */
  ghost predicate SameAccount(s: State, t: State, x: StageId) {
    && StatusOf(t, x) == StatusOf(s, x)
    && (WorkerOf(t, x) == Idle <==> WorkerOf(s, x) == Idle)
    && (InCheck(t, x) ==> InCheck(s, x))
  }

  lemma AccountKept(top: Graph, s: State, t: State, x: StageId, seen: set<ConditionResult>)
    requires Explained(top, s, x, seen) && SameAccount(s, t, x)
    ensures Explained(top, t, x, seen)
  {
  }

  lemma TestExplains(top: Graph, s: State, g: seq<Name>, r: ConditionResult, x: StageId, seen: set<ConditionResult>)
    requires Explained(top, s, x, seen) && Enabled(top, s, TestCondition(g, r))
    requires LoopInv(top, s, g) && StatusInv(top, s, x)
    ensures Explained(top, Apply(top, s, TestCondition(g, r)), x,
                      seen + if TestOf(s, TestCondition(g, r), x) then {r} else {})
  {
    hide ParentsPass, SomeParentBlocks, Left, GraphAt, HasCondition;
  }

  lemma ReadExplains(top: Graph, s: State, g: seq<Name>, p: Name, x: StageId, seen: set<ConditionResult>)
    requires Explained(top, s, x, seen) && Enabled(top, s, ReadParent(g, p)) && LoopInv(top, s, g)
    ensures Explained(top, Apply(top, s, ReadParent(g, p)), x, seen)
  {
    ReadChanges(top, s, g, p, x);
    hide ReadParentStep, StatusOf, WorkerOf, ParentsPass, SomeParentBlocks, Left, GraphAt, HasCondition;
  }

  lemma ReadChanges(top: Graph, s: State, g: seq<Name>, p: Name, x: StageId)
    requires LoopOf(s, g).Checking?
    ensures var t, own := ReadParentStep(top, s, g, p), x == StageId(g, LoopOf(s, g).stage);
            && (StatusOf(t, x) == StatusOf(s, x) || (own && StatusOf(t, x) == Canceled))
            && WorkerOf(t, x) == WorkerOf(s, x) && (InCheck(t, x) <==> InCheck(s, x))
  {
    hide Passing, Blocking;
  }

  lemma DecideExplains(top: Graph, s: State, g: seq<Name>, x: StageId, seen: set<ConditionResult>)
    requires Explained(top, s, x, seen) && Enabled(top, s, Decide(g)) && LoopInv(top, s, g)
    ensures Explained(top, Apply(top, s, Decide(g)), x, seen)
  {
    DecideEffect(s, g, x);
    hide DecideStep, StatusOf, WorkerOf, ParentsPass, SomeParentBlocks, Left, GraphAt, HasCondition;
  }

  /** The stage that a worker step belongs to. */
  function OwnerOf(a: Step): Option<StageId> {
    match a
    case ScheduleNested(x) => Some(x)
    case TaskReturns(x, _) => Some(x)
    case NestedReturns(x) => Some(x)
    case StoreResult(x) => Some(x)
    case RecordError(x) => Some(x)
    case Finish(x) => Some(x)
    case _ => None
  }

  /** The worker of a stage was started and the stage was not skipped, before the step and after it. */
  lemma OwnWorker(top: Graph, s: State, a: Step, x: StageId)
    requires Enabled(top, s, a) && OwnerOf(a) == Some(x) && StatusInv(top, s, x)
    ensures var t := Apply(top, s, a);
            && WorkerOf(s, x) != Idle && WorkerOf(t, x) != Idle
            && StatusOf(s, x) in {Running, Failed} && StatusOf(t, x) in {Running, Failed, Done}
  {
    hide SomeParentBlocks, GraphAt, HasCondition, Allows, NodesAt, ErrorsOf, LoopOf, IsNested, StoreResultStep;
    if a.StoreResult? {
      ResultEffect(s, x);
    }
  }

  lemma OtherWorker(top: Graph, s: State, a: Step, x: StageId)
    requires Enabled(top, s, a) && OwnerOf(a).Some? && OwnerOf(a) != Some(x)
    ensures var t := Apply(top, s, a); WorkerOf(t, x) == WorkerOf(s, x) && StatusOf(t, x) == StatusOf(s, x)
  {
    hide GraphAt, Allows, NodesAt, ErrorsOf, LoopOf, IsNested, StoreResultStep;
    if a.StoreResult? {
      ResultEffect(s, a.x);
    }
  }

  lemma WorkersCheckNothing(top: Graph, s: State, a: Step, x: StageId)
    requires Enabled(top, s, a) && OwnerOf(a).Some?
    ensures InCheck(Apply(top, s, a), x) ==> InCheck(s, x)
  {
    hide GraphAt, Allows, NodesAt, ErrorsOf, StatusOf;
  }

  lemma WorkerExplains(top: Graph, s: State, a: Step, x: StageId, seen: set<ConditionResult>)
    requires Explained(top, s, x, seen) && Enabled(top, s, a) && StatusInv(top, s, x) && OwnerOf(a).Some?
    ensures Explained(top, Apply(top, s, a), x, seen)
  {
    WorkersCheckNothing(top, s, a, x);
    if OwnerOf(a) == Some(x) {
      OwnWorker(top, s, a, x);
    } else {
      OtherWorker(top, s, a, x);
    }
    hide Apply, Enabled, InCheck, StatusInv, HasCondition, OwnerOf;
  }

  lemma VisitExplains(top: Graph, s: State, g: seq<Name>, n: Name, x: StageId, seen: set<ConditionResult>)
    requires Explained(top, s, x, seen) && Enabled(top, s, Visit(g, n))
    ensures Explained(top, VisitStep(top, s, g, n), x, seen)
  {
    hide GraphAt, ParentsAt;
  }

  lemma ChecksNothingNew(top: Graph, s: State, a: Step, x: StageId)
    requires Enabled(top, s, a)
    requires OwnerOf(a).None? && !a.TestCondition? && !a.ReadParent? && !a.Decide? && !a.Visit?
    ensures InCheck(Apply(top, s, a), x) ==> InCheck(s, x)
  {
    hide GraphAt, NodesAt, ErrorsOf, StatusOf;
  }

  lemma LoopStepExplains(top: Graph, s: State, a: Step, x: StageId, seen: set<ConditionResult>)
    requires Explained(top, s, x, seen) && Enabled(top, s, a)
    requires OwnerOf(a).None? && !a.TestCondition? && !a.ReadParent? && !a.Decide?
    ensures Explained(top, Apply(top, s, a), x, seen)
  {
    if a.Visit? {
      VisitExplains(top, s, a.g, a.n, x, seen);
    } else {
      LoopsLeaveWorkers(top, s, a);
      OthersKeepStatus(top, s, a);
      ChecksNothingNew(top, s, a, x);
      hide Apply, Enabled, Explained, InCheck;
      AccountKept(top, s, Apply(top, s, a), x, seen);
    }
  }

  /** One step, with the result it may have had. */
  lemma StepExplains(top: Graph, s: State, a: Step, x: StageId, seen: set<ConditionResult>)
    requires Inv(top, s) && Explained(top, s, x, seen) && Enabled(top, s, a)
    ensures Explained(top, Apply(top, s, a), x, seen + if TestOf(s, a, x) then {a.result} else {})
  {
    InvAt(top, s, x);
    assert seen + {} == seen;
    hide Inv, Explained, LoopInv, ReturnInv, StatusInv, StartInv, ResultInv, Apply, Enabled;
    if OwnerOf(a).Some? {
      WorkerExplains(top, s, a, x, seen);
    } else if a.TestCondition? {
      InvAtLoop(top, s, a.g);
      TestExplains(top, s, a.g, a.result, x, seen);
    } else if a.ReadParent? {
      InvAtLoop(top, s, a.g);
      ReadExplains(top, s, a.g, a.p, x, seen);
    } else if a.Decide? {
      InvAtLoop(top, s, a.g);
      DecideExplains(top, s, a.g, x, seen);
    } else {
      LoopStepExplains(top, s, a, x, seen);
    }
  }

  lemma {:induction false} RunExplains(
    top: Graph, s: State, steps: seq<Step>, t: State, x: StageId, seen: set<ConditionResult>)
    requires Inv(top, s) && Explained(top, s, x, seen) && Run(top, s, steps, t)
    ensures Explained(top, t, x, seen + Outcomes(top, s, steps, x))
    decreases |steps|
  {
    hide Explained, Inv, Apply, Enabled;
    if steps == [] {
      assert seen + {} == seen;
    } else {
      var u, more := Apply(top, s, steps[0]), seen + if TestOf(s, steps[0], x) then {steps[0].result} else {};
      StepExplains(top, s, steps[0], x, seen);
      StepKeeps(top, s, steps[0]);
      RunExplains(top, u, steps[1..], t, x, more);
      assert seen + Outcomes(top, s, steps, x) == more + Outcomes(top, u, steps[1..], x);
    }
  }

  // ----- tasks

  /** The outcome of a stage that runs a task is what its task returned. */
  lemma StepResults(top: Graph, s: State, a: Step, x: StageId, err: bool)
    requires Inv(top, s) && Enabled(top, s, a) && !IsNested(top, x)
    ensures ResultOf(WorkerOf(Apply(top, s, a), x)) == Some(err) <==>
              ResultOf(WorkerOf(s, x)) == Some(err) || a == TaskReturns(x, err)
  {
    InvAt(top, s, x);
    hide Inv, StartInv, StatusInv, ResultInv;
    if OwnerOf(a).Some? {
      if OwnerOf(a) == Some(x) {
        OwnResult(top, s, a, x, err);
      } else {
        OtherWorker(top, s, a, x);
      }
    } else if a.Decide? {
      InvAtLoop(top, s, a.g);
      DecideResults(top, s, a.g, x);
    } else {
      LoopsLeaveWorkers(top, s, a);
    }
  }

  lemma OwnResult(top: Graph, s: State, a: Step, x: StageId, err: bool)
    requires Enabled(top, s, a) && OwnerOf(a) == Some(x) && !IsNested(top, x) && ResultInv(top, s, x)
    ensures ResultOf(WorkerOf(Apply(top, s, a), x)) == Some(err) <==>
              ResultOf(WorkerOf(s, x)) == Some(err) || a == TaskReturns(x, err)
  {
    hide GraphAt, Allows, NodesAt, ErrorsOf, LoopOf, StatusOf;
  }

  lemma DecideResults(top: Graph, s: State, g: seq<Name>, x: StageId)
    requires Enabled(top, s, Decide(g)) && LoopInv(top, s, g)
    ensures ResultOf(WorkerOf(DecideStep(s, g), x)) == ResultOf(WorkerOf(s, x))
  {
    hide ParentsPass, Left, GraphAt;
  }

  lemma LoopsLeaveWorkers(top: Graph, s: State, a: Step)
    requires Enabled(top, s, a) && OwnerOf(a).None? && !a.Decide?
    ensures Apply(top, s, a).worker == s.worker
  {
    hide GraphAt, NodesAt, ErrorsOf, StatusOf, ParentsAt, HasCondition, Passing, Blocking;
  }

  lemma {:induction false} RunResults(top: Graph, s: State, steps: seq<Step>, t: State, x: StageId, err: bool)
    requires Inv(top, s) && Run(top, s, steps, t) && !IsNested(top, x)
    ensures ResultOf(WorkerOf(t, x)) == Some(err) <==>
              ResultOf(WorkerOf(s, x)) == Some(err) || TaskReturns(x, err) in steps
    decreases |steps|
  {
    if steps != [] {
      StepResults(top, s, steps[0], x, err);
      StepKeeps(top, s, steps[0]);
      RunResults(top, Apply(top, s, steps[0]), steps[1..], t, x, err);
      assert steps == [steps[0]] + steps[1..];
    }
  }

  /** What a loop step leaves alone, unless it is a decision. */
  ghost predicate Untouched(s: State, t: State) {
    t.failedTasks == s.failedTasks && t.cancelled == s.cancelled && t.starts == s.starts
  }

  lemma LoopsLeaveAlone(top: Graph, s: State, g: seq<Name>, n: Name, r: ConditionResult)
    ensures LoopOf(s, g).Polling? ==> Untouched(s, PollStep(s, g, n))
    ensures LoopOf(s, g).Sweeping? ==> Untouched(s, VisitStep(top, s, g, n))
    ensures LoopOf(s, g).Testing? ==> Untouched(s, TestStep(top, s, g, r))
    ensures LoopOf(s, g).Checking? ==> Untouched(s, ReadParentStep(top, s, g, n))
    ensures LoopOf(s, g).Checking? ==> Untouched(s, DecideStep(s, g).(starts := s.starts))
  {
    hide GraphAt, StatusOf, ParentsAt, HasCondition, Passing, Blocking;
  }

  lemma StepFailures(top: Graph, s: State, a: Step)
    requires Enabled(top, s, a)
    ensures Apply(top, s, a).failedTasks ==
              s.failedTasks + if a.TaskReturns? && a.err then {a.x} else {}
  {
    hide GraphAt, NodesAt, ErrorsOf, StatusOf, Allows, Quiet, IsNested, PollStep, VisitStep, TestStep, ReadParentStep,
         DecideStep;
    if a.Poll? || a.Visit? {
      LoopsLeaveAlone(top, s, a.g, a.n, Met);
    } else if a.TestCondition? {
      LoopsLeaveAlone(top, s, a.g, "", a.result);
    } else if a.ReadParent? {
      LoopsLeaveAlone(top, s, a.g, a.p, Met);
    } else if a.Decide? {
      LoopsLeaveAlone(top, s, a.g, "", Met);
    }
  }

  lemma {:induction false} RunFailures(top: Graph, s: State, steps: seq<Step>, t: State, x: StageId)
    requires Run(top, s, steps, t)
    ensures x in t.failedTasks <==> x in s.failedTasks || TaskReturns(x, true) in steps
    decreases |steps|
  {
    if steps != [] {
      StepFailures(top, s, steps[0]);
      hide Apply, Enabled;
      RunFailures(top, Apply(top, s, steps[0]), steps[1..], t, x);
      assert steps == [steps[0]] + steps[1..];
    }
  }

  // ----- the theorems

  /** A stage of the tree of graphs. */
  ghost predicate StageIn(top: Graph, x: StageId, g: Graph) {
    GraphAt(top, x.graph) == Some(g) && x.name in g.nodes
  }

  lemma RunFromStart(top: Graph, steps: seq<Step>, s: State, x: StageId)
    requires Run(top, INITIAL, steps, s)
    ensures Inv(top, s) && StartInv(top, s, x) && StatusInv(top, s, x) && ResultInv(top, s, x)
    ensures LoopInv(top, s, x.graph) && ReturnInv(s, x.graph)
    ensures Explained(top, s, x, Outcomes(top, INITIAL, steps, x))
  {
    InitialInv(top);
    RunKeeps(top, INITIAL, steps, s);
    InvAt(top, s, x);
    InvAtLoop(top, s, x.graph);
    NothingSeen(top, x);
    hide Inv, Explained, Run;
    RunExplains(top, INITIAL, steps, s, x, {});
    assert {} + Outcomes(top, INITIAL, steps, x) == Outcomes(top, INITIAL, steps, x);
  }

  /**
    Conditions decide: only a stage with a condition is tested; it is skipped exactly if its
    condition was not met, and fails unstarted exactly if its condition could not be evaluated; it
    is started, or cancelled for a parent, only if its condition was met whenever it was evaluated.
   */
  lemma ConditionsDecide(top: Graph, steps: seq<Step>, s: State, x: StageId, g: Graph)
    requires Run(top, INITIAL, steps, s) && StageIn(top, x, g)
    ensures var seen := Outcomes(top, INITIAL, steps, x);
            && (g.nodes[x.name].condition == "" ==> seen == {})
            && (StatusOf(s, x) == Skipped <==> Unmet in seen)
            && (StatusOf(s, x) == Failed && s.starts[x] == 0 <==> Broken in seen)
            && (s.starts[x] > 0 || StatusOf(s, x) == Canceled ==>
                  seen == if g.nodes[x.name].condition == "" then {} else {Met})
  {
    RunFromStart(top, steps, s, x);
    var seen := Outcomes(top, INITIAL, steps, x);
    assert HasCondition(top, x) <==> g.nodes[x.name].condition != "";
    hide Inv, Run, ParentsPass, SomeParentBlocks, LoopInv, ResultInv, ReturnInv, Outcomes, GraphAt;
    hide HasCondition, StageIn;
    OnlyMet(seen);
  }

  lemma OnlyMet(seen: set<ConditionResult>)
    ensures Unmet !in seen && Broken !in seen && Met in seen ==> seen == {Met}
  {
    forall r | r in seen && Unmet !in seen && Broken !in seen ensures r == Met {
      match r
      case Met =>
      case Unmet =>
      case Broken =>
    }
  }

  /** A condition that was not met is final: the stage is not tested again and never started. */
  lemma UnmetIsFinal(top: Graph, steps: seq<Step>, s: State, more: seq<Step>, t: State, x: StageId)
    requires Run(top, INITIAL, steps, s) && Run(top, s, more, t)
    requires Unmet in Outcomes(top, INITIAL, steps, x)
    ensures StatusOf(t, x) == Skipped && t.starts[x] == 0 && Outcomes(top, s, more, x) == {}
  {
    RunFromStart(top, steps, s, x);
    RunGoesForward(top, s, more, t, x);
    RunKeeps(top, s, more, t);
    InvAt(top, t, x);
    hide Inv, ParentsPass, SomeParentBlocks, LoopInv, ResultInv;
    LeftIsNotTested(top, s, more, t, x);
  }

  /** A stage that no longer waits is not tested. */
  lemma {:induction false} LeftIsNotTested(top: Graph, s: State, steps: seq<Step>, t: State, x: StageId)
    requires Inv(top, s) && Run(top, s, steps, t) && StatusOf(s, x) == Skipped
    ensures Outcomes(top, s, steps, x) == {}
    decreases |steps|
  {
    if steps != [] {
      InvAtLoop(top, s, x.graph);
      assert !TestOf(s, steps[0], x);
      StepKeeps(top, s, steps[0]);
      StatusMovesForward(top, s, steps[0], x);
      hide Inv, LoopInv, Apply, Enabled;
      LeftIsNotTested(top, Apply(top, s, steps[0]), steps[1..], t, x);
    }
  }

  /** The parent, a stage of the graph, lets its children start. */
  ghost predicate LetsStart(g: Graph, s: State, path: seq<Name>, p: Name) {
    var st := StatusOf(s, StageId(path, p));
    st == Done || st == Skipped || (st == Failed && p in g.nodes && g.nodes[p].allowFailure)
  }

  /** The parent was cancelled, or failed without leave. */
  ghost predicate HoldsBack(g: Graph, s: State, path: seq<Name>, p: Name) {
    var st := StatusOf(s, StageId(path, p));
    st == Canceled || (st == Failed && !(p in g.nodes && g.nodes[p].allowFailure))
  }

  ghost predicate SomeHoldsBack(g: Graph, s: State, x: StageId) {
    exists p :: p in Succ(g.parent, x.name) && HoldsBack(g, s, x.graph, p)
  }

  lemma ParentsAre(top: Graph, s: State, x: StageId, g: Graph)
    requires GraphAt(top, x.graph) == Some(g)
    ensures ParentsPass(top, s, x, {}) <==> forall p | p in Succ(g.parent, x.name) :: LetsStart(g, s, x.graph, p)
    ensures SomeParentBlocks(top, s, x) <==> SomeHoldsBack(g, s, x)
  {
    forall p
      ensures Passing(top, s, StageId(x.graph, p)) <==> LetsStart(g, s, x.graph, p)
      ensures Blocking(top, s, StageId(x.graph, p)) <==> HoldsBack(g, s, x.graph, p)
      ensures p in ParentsAt(top, x.graph, x.name) <==> p in Succ(g.parent, x.name)
    {
    }
    hide Passing, Blocking, LetsStart, HoldsBack, ParentsAt, GraphAt;
  }

  /**
    Whatever the interleaving: only stages of the tree are started, each at most once, and a
    started stage has only parents that were done or skipped, or failed and may; a cancelled one
    was never started, and has a parent that was cancelled or failed and may not.
   */
  lemma StartsAreJustified(top: Graph, s: State, x: StageId)
    requires Reachable(top, s)
    ensures s.starts[x] <= 1
    ensures var at := GraphAt(top, x.graph);
            s.starts[x] == 1 ==>
              && at.Some? && x.name in at.value.nodes && x.name != ROOT
              && forall p | p in Succ(at.value.parent, x.name) :: LetsStart(at.value, s, x.graph, p)
    ensures var at := GraphAt(top, x.graph);
            StatusOf(s, x) == Canceled ==> s.starts[x] == 0 && at.Some? && SomeHoldsBack(at.value, s, x)
    ensures StatusOf(s, x) == Running || StatusOf(s, x) == Done ==> s.starts[x] == 1 || x.name == ROOT
  {
    ReachableInv(top, s);
    InvAt(top, s, x);
    var at := GraphAt(top, x.graph);
    if at.Some? {
      ParentsAre(top, s, x, at.value);
    }
    hide Inv, SomeHoldsBack, LetsStart, ResultInv;
  }

  /** The work of a stage came to an end: its task returned, or the run of its pipeline did. */
  ghost predicate Ended(s: State, steps: seq<Step>, x: StageId, o: Stage, err: bool) {
    match o.body
    case Nested(_) => LoopOf(s, x.graph + [x.name]) == Returned(err)
    case _ => TaskReturns(x, err) in steps
  }

  lemma EndedIs(top: Graph, steps: seq<Step>, s: State, x: StageId, g: Graph, err: bool)
    requires Run(top, INITIAL, steps, s) && StageIn(top, x, g) && Quiet(WorkerOf(s, x))
    ensures Ended(s, steps, x, g.nodes[x.name], err) <==> WorkerOf(s, x) == Exited(err)
  {
    RunFromStart(top, steps, s, x);
    if !IsNested(top, x) {
      InitialInv(top);
      RunResults(top, INITIAL, steps, s, x, err);
    }
    hide Inv, Run, ParentsPass, SomeParentBlocks, LoopInv, StatusInv, ReturnInv, Explained;
  }

  lemma ReturnedIsQuiet(top: Graph, s: State, x: StageId)
    requires Inv(top, s) && LoopOf(s, x.graph).Returned?
    ensures Quiet(WorkerOf(s, x))
  {
    InvAt(top, s, x);
  }

  /**
    How the stages of a graph have ended when its run returns.  The started ones are those whose
    work has ended; they are done if it ended well or they may fail, and failed otherwise.  If the
    run was not cancelled all others were skipped, because their condition was not met, or else
    cancelled, and then exactly for a parent that held them back.
   */
  lemma HowStagesEnd(top: Graph, steps: seq<Step>, s: State, x: StageId, g: Graph)
    requires Run(top, INITIAL, steps, s) && StageIn(top, x, g) && x.name != ROOT
    requires LoopOf(s, x.graph).Returned?
    ensures var o := g.nodes[x.name];
            && (s.starts[x] == 1 <==> Ended(s, steps, x, o, false) || Ended(s, steps, x, o, true))
            && (StatusOf(s, x) == Done <==>
                  Ended(s, steps, x, o, false) || (Ended(s, steps, x, o, true) && o.allowFailure))
            && (StatusOf(s, x) == Failed && s.starts[x] == 1 <==> Ended(s, steps, x, o, true) && !o.allowFailure)
    ensures !s.cancelled ==>
              && StatusOf(s, x) in {Done, Skipped, Canceled, Failed}
              && (StatusOf(s, x) == Failed ==> s.starts[x] == 1)
              && (StatusOf(s, x) == Skipped <==> Unmet in Outcomes(top, INITIAL, steps, x))
              && (StatusOf(s, x) == Canceled <==>
                    SomeHoldsBack(g, s, x) && Unmet !in Outcomes(top, INITIAL, steps, x))
  {
    RunFromStart(top, steps, s, x);
    ReturnedIsQuiet(top, s, x);
    EndedIs(top, steps, s, x, g, false);
    EndedIs(top, steps, s, x, g, true);
    ParentsAre(top, s, x, g);
    if SomeParentBlocks(top, s, x) {
      BlockedIsNotStarted(top, s, x);
    }
    hide Inv, Run, ParentsPass, SomeParentBlocks, ResultInv, ReturnInv, Ended, SomeHoldsBack, GraphAt, HasCondition;
    EndOfStage(top, s, x, g, Outcomes(top, INITIAL, steps, x));
  }

  lemma BlockedIsNotStarted(top: Graph, s: State, x: StageId)
    requires StartInv(top, s, x) && SomeParentBlocks(top, s, x)
    ensures WorkerOf(s, x) == Idle
  {
    var p :| p in ParentsAt(top, x.graph, x.name) && Blocking(top, s, StageId(x.graph, p));
    assert WorkerOf(s, x) != Idle ==> Passing(top, s, StageId(x.graph, p));
  }

  lemma EndOfStage(top: Graph, s: State, x: StageId, g: Graph, seen: set<ConditionResult>)
    requires StageIn(top, x, g) && x.name != ROOT && LoopOf(s, x.graph).Returned? && Quiet(WorkerOf(s, x))
    requires StartInv(top, s, x) && StatusInv(top, s, x) && LoopInv(top, s, x.graph) && Explained(top, s, x, seen)
    requires SomeParentBlocks(top, s, x) ==> WorkerOf(s, x) == Idle
    ensures var w, may := WorkerOf(s, x), g.nodes[x.name].allowFailure;
            && (s.starts[x] == 1 <==> w == Exited(false) || w == Exited(true))
            && (StatusOf(s, x) == Done <==> w == Exited(false) || (w == Exited(true) && may))
            && (StatusOf(s, x) == Failed && s.starts[x] == 1 <==> w == Exited(true) && !may)
    ensures !s.cancelled ==>
              && StatusOf(s, x) in {Done, Skipped, Canceled, Failed}
              && (StatusOf(s, x) == Failed ==> s.starts[x] == 1)
              && (StatusOf(s, x) == Skipped <==> Unmet in seen)
              && (StatusOf(s, x) == Canceled <==> SomeParentBlocks(top, s, x) && Unmet !in seen)
  {
    assert Allows(top, x) == g.nodes[x.name].allowFailure;
    assert !s.cancelled ==> Left(s, x) by {
      assert StageId(x.graph, x.name) == x && x.name in NodesAt(top, x.graph);
      hide SomeParentBlocks, ParentsPass, HasCondition, Allows;
    }
    hide ParentsPass, SomeParentBlocks, GraphAt, HasCondition, Allows, LoopInv, NodesAt;
  }

  /** A graph has returned with an error exactly if a task returned one in it or below, allowed or not. */
  lemma ErrorMeansTaskFailed(top: Graph, steps: seq<Step>, s: State, g: seq<Name>)
    requires Run(top, INITIAL, steps, s) && LoopOf(s, g).Returned?
    ensures LoopOf(s, g).err <==> exists y :: TaskReturns(y, true) in steps && g <= y.graph
  {
    RunFromStart(top, steps, s, StageId(g, ""));
    hide Inv, LoopInv, StartInv, StatusInv, ResultInv, Run, Explained;
    forall y ensures y in s.failedTasks <==> TaskReturns(y, true) in steps {
      RunFailures(top, INITIAL, steps, s, y);
    }
    if LoopOf(s, g).err {
      var y :| y in s.failedTasks && g <= y.graph;
      assert TaskReturns(y, true) in steps;
    }
    if y :| TaskReturns(y, true) in steps && g <= y.graph {
      assert y in s.failedTasks;
    }
  }

  /** The error list of a returned graph names each stage whose work failed once, and nothing else. */
  lemma OneErrorPerFailedStage(top: Graph, steps: seq<Step>, s: State, x: StageId)
    requires Run(top, INITIAL, steps, s) && LoopOf(s, x.graph).Returned?
    ensures var at := GraphAt(top, x.graph);
            Count(ErrorsOf(s, x.graph), x.name) ==
              if at.Some? && x.name in at.value.nodes && Ended(s, steps, x, at.value.nodes[x.name], true) then 1 else 0
  {
    RunFromStart(top, steps, s, x);
    ReturnedIsQuiet(top, s, x);
    var at := GraphAt(top, x.graph);
    if at.Some? && x.name in at.value.nodes {
      EndedIs(top, steps, s, x, at.value, true);
    }
    hide Inv, LoopInv, StatusInv, Run, Explained, Ended, ParentsPass, ReturnInv;
  }

  // ----- cancelling

  /** The stages that the sweep under way has still to look at or is looking at. */
  function Ahead(l: Loop): set<Name> {
    match l
    case Sweeping(rest) => rest
    case Testing(rest, n) => rest + {n}
    case ConditionBroke(rest, _) => rest
    case Checking(rest, n, _, _) => rest + {n}
    case _ => {}
  }

  lemma DecideStarts(s: State, g: seq<Name>, x: StageId)
    requires LoopOf(s, g).Checking?
    ensures DecideStep(s, g).starts[x] > s.starts[x] ==> InCheck(s, x)
  {
    hide StatusOf;
  }

  /** Only the decision on a stage that was checked starts it. */
  lemma StepStarts(top: Graph, s: State, a: Step, x: StageId)
    requires Enabled(top, s, a)
    ensures Apply(top, s, a).starts[x] > s.starts[x] ==> InCheck(s, x)
  {
    hide GraphAt, NodesAt, ErrorsOf, StatusOf, Allows, Quiet, IsNested, PollStep, VisitStep, TestStep, ReadParentStep,
         DecideStep;
    match a
    case Poll(g, n) => LoopsLeaveAlone(top, s, g, n, Met);
    case Visit(g, n) => LoopsLeaveAlone(top, s, g, n, Met);
    case TestCondition(g, r) => LoopsLeaveAlone(top, s, g, "", r);
    case ReadParent(g, p) => LoopsLeaveAlone(top, s, g, p, Met);
    case Decide(g) => DecideStarts(s, g, x);
    case _ =>
  }

  lemma CancelledMove(top: Graph, s: State, a: Step, g: seq<Name>)
    requires Enabled(top, s, a) && s.cancelled && Moves(a) == Some(g)
    ensures Ahead(LoopOf(Apply(top, s, a), g)) <= Ahead(LoopOf(s, g))
  {
    hide GraphAt, NodesAt, ErrorsOf, StatusOf, ParentsAt, HasCondition, Passing, Blocking, Allows, IsNested, Quiet;
  }

  lemma CancelledStep(top: Graph, s: State, a: Step, x: StageId)
    requires Enabled(top, s, a) && s.cancelled
    ensures var t := Apply(top, s, a);
            && t.cancelled && Ahead(LoopOf(t, x.graph)) <= Ahead(LoopOf(s, x.graph))
            && (t.starts[x] > s.starts[x] ==> x.name in Ahead(LoopOf(s, x.graph)))
  {
    StepStarts(top, s, a, x);
    if Moves(a) == Some(x.graph) {
      CancelledMove(top, s, a, x.graph);
    } else {
      OtherLoopsStay(top, s, a, x.graph);
    }
    StepCancels(top, s, a);
    hide Apply, Enabled;
  }

  /** Steps that cancel the run: an interrupt, and the loop's own after a condition that could not be evaluated. */
  predicate Cancelling(a: Step) {
    a.Interrupt? || a.CancelRun?
  }

  lemma StepCancels(top: Graph, s: State, a: Step)
    requires Enabled(top, s, a)
    ensures Apply(top, s, a).cancelled <==> s.cancelled || Cancelling(a)
  {
    hide GraphAt, NodesAt, ErrorsOf, StatusOf, Allows, Quiet, IsNested, PollStep, VisitStep, TestStep, ReadParentStep,
         DecideStep;
    if a.Poll? || a.Visit? {
      LoopsLeaveAlone(top, s, a.g, a.n, Met);
    } else if a.TestCondition? {
      LoopsLeaveAlone(top, s, a.g, "", a.result);
    } else if a.ReadParent? {
      LoopsLeaveAlone(top, s, a.g, a.p, Met);
    } else if a.Decide? {
      LoopsLeaveAlone(top, s, a.g, "", Met);
    }
  }

  /** A run is cancelled exactly if it was interrupted or one of its conditions could not be evaluated. */
  lemma {:induction false} CancelledExactly(top: Graph, s: State, steps: seq<Step>, t: State)
    requires Run(top, s, steps, t)
    ensures t.cancelled <==> s.cancelled || exists a :: a in steps && Cancelling(a)
    decreases |steps|
  {
    if steps != [] {
      StepCancels(top, s, steps[0]);
      hide Apply, Enabled, Cancelling;
      CancelledExactly(top, Apply(top, s, steps[0]), steps[1..], t);
      assert steps == [steps[0]] + steps[1..];
      assert steps[0] in steps;
    }
  }

  /**
    Cancelling: once the run is cancelled no loop begins another sweep.  Whatever happens afterwards,
    only stages are started that a sweep under way had still to look at.
   */
  lemma {:induction false} CancelStopsStarts(top: Graph, s: State, steps: seq<Step>, t: State, x: StageId)
    requires Run(top, s, steps, t) && s.cancelled
    ensures t.starts[x] > s.starts[x] ==> x.name in Ahead(LoopOf(s, x.graph))
    decreases |steps|
  {
    if steps != [] {
      CancelledStep(top, s, steps[0], x);
      hide Apply, Enabled, Ahead;
      CancelStopsStarts(top, Apply(top, s, steps[0]), steps[1..], t, x);
    }
  }

  // ----- stages and their definitions

  /** The work of the stage that a definition asks for came to an end. */
  ghost predicate DefinedWorkEnded(s: State, steps: seq<Step>, x: StageId, def: PipelineDefinition, err: bool) {
    if def.task != "" then TaskReturns(x, err) in steps else LoopOf(s, x.graph + [x.name]) == Returned(err)
  }

  /**
    What a definition asks for is what its stage does in every run of the built graph: it is tested
    only if it has a condition, and started only if that was met and everything it depends on lets
    it; and if its work fails it ends as done exactly if the definition allows failure.
   */
  lemma DefinitionsDecide(
    top: Graph, steps: seq<Step>, s: State, path: seq<Name>, g: Graph, defs: seq<PipelineDefinition>, cfg: Config,
    i: nat, n: Name)
    requires Run(top, INITIAL, steps, s) && GraphAt(top, path) == Some(g) && Built(g, defs, cfg)
    requires i < |defs| && NamedBy(defs[i], n)
    ensures var def, x := defs[i], StageId(path, n);
            var seen := Outcomes(top, INITIAL, steps, x);
            && (def.condition == "" ==> seen == {})
            && (s.starts[x] == 1 ==>
                  && seen == (if def.condition == "" then {} else {Met})
                  && forall d | d in def.dependsOn :: LetsStart(g, s, path, d))
            && (LoopOf(s, path).Returned? && DefinedWorkEnded(s, steps, x, def, true) ==>
                  StatusOf(s, x) == if def.allowFailure then Done else Failed)
            && (LoopOf(s, path).Returned? && DefinedWorkEnded(s, steps, x, def, false) ==> StatusOf(s, x) == Done)
  {
    var def, x := defs[i], StageId(path, n);
    DefinedStage(s, steps, path, g, defs, cfg, i, n);
    assert StageIn(top, x, g) && Reachable(top, s);
    hide Built, NamedBy, Run, Reachable, GraphAt, DefinedWorkEnded, Ended, Outcomes, LetsStart, StatusOf, StageIn;
    ConditionsDecide(top, steps, s, x, g);
    StartsAreJustified(top, s, x);
    if LoopOf(s, path).Returned? {
      HowStagesEnd(top, steps, s, x, g);
    }
  }

  lemma DefinedStage(
    s: State, steps: seq<Step>, path: seq<Name>, g: Graph, defs: seq<PipelineDefinition>, cfg: Config, i: nat, n: Name)
    requires Built(g, defs, cfg) && i < |defs| && NamedBy(defs[i], n)
    ensures n in g.nodes && n != ROOT
    ensures g.nodes[n].condition == defs[i].condition && g.nodes[n].allowFailure == defs[i].allowFailure
    ensures forall d | d in defs[i].dependsOn :: d in Succ(g.parent, n)
    ensures forall err ::
              DefinedWorkEnded(s, steps, StageId(path, n), defs[i], err) <==>
              Ended(s, steps, StageId(path, n), g.nodes[n], err)
  {
    ShownStage(g, defs, cfg, i, n);
    hide Built, NamedBy, LoopOf;
  }
}
