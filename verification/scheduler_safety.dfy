/**
  What every step of the scheduler keeps, whichever loop or worker takes it.
 */
module ScheduleSafety {
  import opened Digraph
  import opened Stages
  import opened WellBuiltGraphs
  import opened Schedules

  /** How a status may change: forward only, and a failure is forgiven only where that is allowed. */
  predicate Forward(top: Graph, x: StageId, old_: Status, new_: Status) {
    || old_ == new_
    || (old_ == Waiting && new_ != Done)
    || (old_ == Running && (new_ == Done || new_ == Failed))
    || (old_ == Failed && new_ == Done && Allows(top, x))
  }

  /** A stage that neither waits nor runs. */
  predicate Left(s: State, x: StageId) {
    StatusOf(s, x) != Waiting && StatusOf(s, x) != Running
  }

  /** The outcome of a stage, once its work has one. */
  function ResultOf(w: Worker): Option<bool> {
    match w
    case Ran(err) => Some(err)
    case MarkedFailed => Some(true)
    case Recorded => Some(true)
    case Exited(err) => Some(err)
    case _ => None
  }

  predicate StatusFits(top: Graph, x: StageId, w: Worker, st: Status) {
    match w
    case Idle => if x.name == ROOT then st == Done else st != Running && st != Done
    case Launched => st == Running
    case InNested => st == Running
    case Ran(_) => st == Running
    case MarkedFailed => st == Failed
    case Recorded => st == Failed
    case Exited(err) => st == if !err || Allows(top, x) then Done else Failed
  }

  ghost predicate ParentsPass(top: Graph, s: State, x: StageId, except: set<Name>) {
    forall p | p in ParentsAt(top, x.graph, x.name) && p !in except :: Passing(top, s, StageId(x.graph, p))
  }

  ghost predicate SomeParentBlocks(top: Graph, s: State, x: StageId) {
    exists p :: p in ParentsAt(top, x.graph, x.name) && Blocking(top, s, StageId(x.graph, p))
  }

  /** A started stage was started once, in a running graph, with every parent passing. */
  ghost predicate StartInv(top: Graph, s: State, x: StageId) {
    var w := WorkerOf(s, x);
    && s.starts[x] == (if w == Idle then 0 else 1)
    && (w != Idle ==>
          && IsStage(top, x)
          && x.name != ROOT
          && ParentsPass(top, s, x, {})
          && LoopOf(s, x.graph) != Off)
    && (!Quiet(w) ==> !LoopOf(s, x.graph).Returned?)
  }

  ghost predicate StatusInv(top: Graph, s: State, x: StageId) {
    && StatusFits(top, x, WorkerOf(s, x), StatusOf(s, x))
    && (StatusOf(s, x) == Skipped ==> HasCondition(top, x))
    && (StatusOf(s, x) == Canceled ==> SomeParentBlocks(top, s, x))
    && (StatusOf(s, x) == Failed && WorkerOf(s, x) == Idle ==>
          s.cancelled || (LoopOf(s, x.graph).ConditionBroke? && LoopOf(s, x.graph).stage == x.name))
  }

  /** The outcome of a stage is that of its task, or of the nested run it waited for. */
  ghost predicate ResultInv(top: Graph, s: State, x: StageId) {
    var w, sub := WorkerOf(s, x), LoopOf(s, Child(x));
    && Count(ErrorsOf(s, x.graph), x.name) == (if w == Recorded || w == Exited(true) then 1 else 0)
    && (IsNested(top, x) ==>
          && x !in s.failedTasks
          && (w == Idle || w == Launched ==> sub == Off)
          && (w == InNested ==> sub != Off)
          && (ResultOf(w).Some? ==> sub == Returned(ResultOf(w).value)))
    && (!IsNested(top, x) ==>
          && sub == Off && w != InNested
          && (x in s.failedTasks <==> ResultOf(w) == Some(true)))
  }

  ghost predicate LoopInv(top: Graph, s: State, g: seq<Name>) {
    var l, nodes := LoopOf(s, g), NodesAt(top, g);
    && (l != Off ==> GraphAt(top, g).Some?)
    && match l
       case Polling(rest) => rest <= nodes && forall n | n in nodes && n !in rest :: Left(s, StageId(g, n))
       case Sweeping(rest) => rest <= nodes
       case Testing(rest, n) =>
         rest <= nodes && n in nodes && StatusOf(s, StageId(g, n)) == Waiting && HasCondition(top, StageId(g, n))
       case ConditionBroke(rest, n) => rest <= nodes
       case Checking(rest, n, unread, ready) =>
         && rest <= nodes && n in nodes && unread <= ParentsAt(top, g, n)
         && WorkerOf(s, StageId(g, n)) == Idle && n != ROOT
         && (StatusOf(s, StageId(g, n)) == Waiting || StatusOf(s, StageId(g, n)) == Canceled)
         && (ready ==> StatusOf(s, StageId(g, n)) == Waiting && ParentsPass(top, s, StageId(g, n), unread))
       case Draining => s.cancelled || forall n | n in nodes :: Left(s, StageId(g, n))
       case Returned(_) =>
         && (s.cancelled || forall n | n in nodes :: Left(s, StageId(g, n)))
         && forall n | n in nodes :: Quiet(WorkerOf(s, StageId(g, n)))
       case _ => true
  }

  /** Some task failed in the graph or in a pipeline nested in it. */
  ghost predicate TaskFailedIn(s: State, g: seq<Name>) {
    exists x :: x in s.failedTasks && g <= x.graph
  }

  /** The run of a graph returns an error exactly when a task failed inside it. */
  ghost predicate ReturnInv(s: State, g: seq<Name>) {
    LoopOf(s, g).Returned? ==> (LoopOf(s, g).err <==> TaskFailedIn(s, g))
  }

  ghost predicate Inv(top: Graph, s: State) {
    && (forall x :: StartInv(top, s, x))
    && (forall x :: StatusInv(top, s, x))
    && (forall x :: ResultInv(top, s, x))
    && (forall g :: LoopInv(top, s, g))
    && (forall g :: ReturnInv(s, g))
  }

  lemma InitialInv(top: Graph)
    ensures Inv(top, INITIAL)
  {
  }

  lemma InvAt(top: Graph, s: State, x: StageId)
    requires Inv(top, s)
    ensures StartInv(top, s, x) && StatusInv(top, s, x) && ResultInv(top, s, x)
  {
  }

  lemma InvAtLoop(top: Graph, s: State, g: seq<Name>)
    requires Inv(top, s)
    ensures LoopInv(top, s, g) && ReturnInv(s, g)
  {
  }

  predicate WritesStatus(a: Step) {
    a.TestCondition? || a.ReadParent? || a.Decide? || a.StoreResult? || a.Finish?
  }

  lemma OthersKeepStatus(top: Graph, s: State, a: Step)
    requires Enabled(top, s, a) && !WritesStatus(a)
    ensures Apply(top, s, a).status == s.status
  {
  }

  lemma TestMovesForward(top: Graph, s: State, g: seq<Name>, result: ConditionResult, x: StageId)
    requires LoopInv(top, s, g) && LoopOf(s, g).Testing?
    ensures Forward(top, x, StatusOf(s, x), StatusOf(TestStep(top, s, g, result), x))
  {
    hide ParentsPass, Left, GraphAt, HasCondition;
  }

  lemma ReadMovesForward(top: Graph, s: State, g: seq<Name>, p: Name, x: StageId)
    requires LoopInv(top, s, g) && LoopOf(s, g).Checking?
    ensures Forward(top, x, StatusOf(s, x), StatusOf(ReadParentStep(top, s, g, p), x))
  {
    hide ParentsPass, Left, GraphAt, Passing, Blocking;
  }

  lemma DecideMovesForward(top: Graph, s: State, g: seq<Name>, x: StageId)
    requires LoopInv(top, s, g) && LoopOf(s, g).Checking?
    ensures Forward(top, x, StatusOf(s, x), StatusOf(DecideStep(s, g), x))
  {
    hide ParentsPass, Left, GraphAt;
  }

  lemma WorkerMovesForward(top: Graph, s: State, x: StageId, y: StageId)
    requires StatusInv(top, s, x)
    ensures WorkerOf(s, x).Ran? ==> Forward(top, y, StatusOf(s, y), StatusOf(StoreResultStep(s, x), y))
    ensures WorkerOf(s, x) == Recorded && Allows(top, x) ==>
              Forward(top, y, StatusOf(s, y), StatusOf(WithStatus(s, x, Done), y))
  {
  }

  /** Statuses only move forward. */
  lemma StatusMovesForward(top: Graph, s: State, a: Step, x: StageId)
    requires Inv(top, s) && Enabled(top, s, a)
    ensures Forward(top, x, StatusOf(s, x), StatusOf(Apply(top, s, a), x))
  {
    hide Inv, StartInv, StatusInv, ResultInv, ReturnInv, LoopInv, TestStep, ReadParentStep, DecideStep, StoreResultStep;
    if WritesStatus(a) {
      match a
      case TestCondition(g, result) =>
        InvAtLoop(top, s, g);
        TestMovesForward(top, s, g, result, x);
      case ReadParent(g, p) =>
        InvAtLoop(top, s, g);
        ReadMovesForward(top, s, g, p, x);
      case Decide(g) =>
        InvAtLoop(top, s, g);
        DecideMovesForward(top, s, g, x);
      case StoreResult(y) =>
        InvAt(top, s, y);
        WorkerMovesForward(top, s, y, x);
      case Finish(y) =>
        InvAt(top, s, y);
        WorkerMovesForward(top, s, y, x);
    } else {
      OthersKeepStatus(top, s, a);
    }
  }

  /** So a parent that passes or blocks goes on doing so, and a stage that has left stays away. */
  lemma VerdictsLast(top: Graph, s: State, a: Step, x: StageId)
    requires Inv(top, s) && Enabled(top, s, a)
    ensures Passing(top, s, x) ==> Passing(top, Apply(top, s, a), x)
    ensures Blocking(top, s, x) ==> Blocking(top, Apply(top, s, a), x)
    ensures Left(s, x) ==> Left(Apply(top, s, a), x)
    ensures StatusOf(s, x) in {Done, Skipped, Canceled} ==> StatusOf(Apply(top, s, a), x) == StatusOf(s, x)
  {
    StatusMovesForward(top, s, a, x);
  }

  // ----- frames: what a step leaves alone keeps its invariant

  /** Statuses moved forward and a cancellation was not taken back. */
  ghost predicate Onward(top: Graph, s: State, t: State) {
    && (forall x :: Forward(top, x, StatusOf(s, x), StatusOf(t, x)))
    && (s.cancelled ==> t.cancelled)
  }

  lemma ParentsKept(top: Graph, s: State, t: State, x: StageId, except: set<Name>)
    requires Onward(top, s, t)
    ensures ParentsPass(top, s, x, except) ==> ParentsPass(top, t, x, except)
    ensures SomeParentBlocks(top, s, x) ==> SomeParentBlocks(top, t, x)
  {
    forall p
      ensures Passing(top, s, StageId(x.graph, p)) ==> Passing(top, t, StageId(x.graph, p))
      ensures Blocking(top, s, StageId(x.graph, p)) ==> Blocking(top, t, StageId(x.graph, p))
    {
      assert Forward(top, StageId(x.graph, p), StatusOf(s, StageId(x.graph, p)), StatusOf(t, StageId(x.graph, p)));
    }
  }

  /** A loop that is under way may have moved, but was neither started nor ended. */
  predicate LoopMoved(s: State, t: State, g: seq<Name>) {
    && LoopOf(s, g) != Off && !LoopOf(s, g).Returned? && LoopOf(t, g) != Off && !LoopOf(t, g).Returned?
  }

  /** The entries of one stage are as before. */
  ghost predicate SameStage(s: State, t: State, x: StageId) {
    && WorkerOf(t, x) == WorkerOf(s, x)
    && StatusOf(t, x) == StatusOf(s, x)
    && t.starts[x] == s.starts[x]
    && Count(ErrorsOf(t, x.graph), x.name) == Count(ErrorsOf(s, x.graph), x.name)
    && (x in t.failedTasks <==> x in s.failedTasks)
  }

  ghost predicate StageInv(top: Graph, s: State, x: StageId) {
    StartInv(top, s, x) && StatusInv(top, s, x) && ResultInv(top, s, x)
  }

  lemma KeepStage(top: Graph, s: State, t: State, x: StageId)
    requires StageInv(top, s, x) && Onward(top, s, t) && SameStage(s, t, x)
    requires LoopOf(t, x.graph) == LoopOf(s, x.graph)
          || (LoopMoved(s, t, x.graph) && (LoopOf(s, x.graph).ConditionBroke? ==> t.cancelled))
          || (LoopOf(s, x.graph) == Off && LoopOf(t, x.graph).Polling?)
          || (LoopOf(s, x.graph) == Draining && LoopOf(t, x.graph).Returned? && Quiet(WorkerOf(s, x)))
    requires LoopOf(t, Child(x)) == LoopOf(s, Child(x))
          || LoopMoved(s, t, Child(x))
          || (LoopOf(s, Child(x)) == Draining && LoopOf(t, Child(x)).Returned?)
    ensures StageInv(top, t, x)
  {
    ParentsKept(top, s, t, x, {});
    hide ParentsPass, SomeParentBlocks, Onward;
  }

  /** A loop keeps its invariant while only stages that are at work change under it. */
  lemma KeepLoop(top: Graph, s: State, t: State, g: seq<Name>)
    requires LoopInv(top, s, g) && Onward(top, s, t) && LoopOf(t, g) == LoopOf(s, g)
    requires forall n :: StatusInv(top, s, StageId(g, n)) && StartInv(top, s, StageId(g, n))
    requires forall n :: var x := StageId(g, n);
               || (WorkerOf(t, x) == WorkerOf(s, x) && StatusOf(t, x) == StatusOf(s, x))
               || !Quiet(WorkerOf(s, x))
    ensures LoopInv(top, t, g)
  {
    var l := LoopOf(s, g);
    forall n ensures Left(s, StageId(g, n)) ==> Left(t, StageId(g, n)) {
      assert Forward(top, StageId(g, n), StatusOf(s, StageId(g, n)), StatusOf(t, StageId(g, n)));
    }
    if l.Checking? {
      ParentsKept(top, s, t, StageId(g, l.stage), l.unread);
    }
    hide Onward, ParentsPass, SomeParentBlocks;
    if l.Testing? || l.Checking? {
      assert StatusInv(top, s, StageId(g, l.stage));
    }
    if l.Returned? {
      forall n | n in NodesAt(top, g) ensures Quiet(WorkerOf(t, StageId(g, n))) {
        assert StartInv(top, s, StageId(g, n));
      }
    }
  }

  // ----- the steps of a polling loop

  /** A loop step: it moves the loop of one graph and writes at most the status of one stage not started. */
  ghost predicate LoopStep(top: Graph, s: State, t: State, x: StageId) {
    && t.worker == s.worker && t.starts == s.starts && t.errors == s.errors && t.failedTasks == s.failedTasks
    && (s.cancelled ==> t.cancelled)
    && LoopMoved(s, t, x.graph)
    && (LoopOf(s, x.graph).ConditionBroke? ==> t.cancelled)
    && (forall h :: h != x.graph ==> LoopOf(t, h) == LoopOf(s, h))
    && (forall y :: y != x ==> StatusOf(t, y) == StatusOf(s, y))
    && (StatusOf(t, x) == StatusOf(s, x) || WorkerOf(s, x) == Idle)
    && Forward(top, x, StatusOf(s, x), StatusOf(t, x))
  }

  lemma LoopStepOnward(top: Graph, s: State, t: State, x: StageId)
    requires LoopStep(top, s, t, x)
    ensures Onward(top, s, t)
  {
  }

  lemma LoopStepKeeps(top: Graph, s: State, t: State, x: StageId)
    requires Inv(top, s) && LoopStep(top, s, t, x)
    requires StatusInv(top, t, x) && LoopInv(top, t, x.graph)
    ensures Inv(top, t)
  {
    LoopStepOnward(top, s, t, x);
    InvAt(top, s, x);
    ParentsKept(top, s, t, x, {});
    assert forall y :: y != x ==> SameStage(s, t, y);
    hide Inv, Onward, ParentsPass, SomeParentBlocks, SameStage;
    StageAndLoopKeep(top, s, t, x);
  }

  /** A step of the loop of a graph that, of all stages, changes one stage of that graph. */
  lemma StageAndLoopKeep(top: Graph, s: State, t: State, x: StageId)
    requires Inv(top, s) && Onward(top, s, t)
    requires LoopMoved(s, t, x.graph) && (LoopOf(s, x.graph).ConditionBroke? ==> t.cancelled)
    requires forall h :: h != x.graph ==> LoopOf(t, h) == LoopOf(s, h)
    requires forall y :: y != x ==> SameStage(s, t, y)
    requires t.failedTasks == s.failedTasks
    requires StageInv(top, t, x) && LoopInv(top, t, x.graph)
    ensures Inv(top, t)
  {
    hide Onward, ParentsPass, SomeParentBlocks, TaskFailedIn, Left, StageInv;
    forall y ensures StageInv(top, t, y) {
      if y != x {
        InvAt(top, s, y);
        StageIs(top, s, y);
        KeepStage(top, s, t, y);
      }
    }
    forall h ensures LoopInv(top, t, h) && ReturnInv(t, h) {
      InvAtLoop(top, s, h);
      FailuresKept(s, t, h);
      if h != x.graph {
        forall n
          ensures StatusInv(top, s, StageId(h, n)) && StartInv(top, s, StageId(h, n))
          ensures SameStage(s, t, StageId(h, n))
        {
          InvAt(top, s, StageId(h, n));
        }
        KeepLoop(top, s, t, h);
      }
    }
    hide LoopInv, ReturnInv;
    Assemble(top, t);
  }

  lemma StageIs(top: Graph, s: State, x: StageId)
    requires StartInv(top, s, x) && StatusInv(top, s, x) && ResultInv(top, s, x)
    ensures StageInv(top, s, x)
  {
  }

  lemma FailuresKept(s: State, t: State, g: seq<Name>)
    requires t.failedTasks == s.failedTasks
    ensures TaskFailedIn(t, g) <==> TaskFailedIn(s, g)
  {
  }

  lemma Assemble(top: Graph, t: State)
    requires forall y :: StageInv(top, t, y)
    requires forall h :: LoopInv(top, t, h) && ReturnInv(t, h)
    ensures Inv(top, t)
  {
    forall y ensures StartInv(top, t, y) && StatusInv(top, t, y) && ResultInv(top, t, y) {
      assert StageInv(top, t, y);
    }
  }

  /** A loop step without a store. */
  lemma LoopOnlyKeeps(top: Graph, s: State, g: seq<Name>, l: Loop, n: Name)
    requires Inv(top, s) && LoopMoved(s, WithLoop(s, g, l), g) && !LoopOf(s, g).ConditionBroke?
    requires LoopInv(top, WithLoop(s, g, l), g)
    ensures Inv(top, WithLoop(s, g, l))
  {
    var t, x := WithLoop(s, g, l), StageId(g, n);
    InvAt(top, s, x);
    assert Onward(top, s, t);
    ParentsKept(top, s, t, x, {});
    hide Inv, LoopInv, Onward, ParentsPass, SomeParentBlocks, ReturnInv;
    LoopStepKeeps(top, s, t, x);
  }

  lemma PollKeeps(top: Graph, s: State, g: seq<Name>, n: Name)
    requires Inv(top, s) && Enabled(top, s, Poll(g, n))
    ensures Inv(top, PollStep(s, g, n))
  {
    InvAtLoop(top, s, g);
    hide Inv;
    var st := StatusOf(s, StageId(g, n));
    LoopOnlyKeeps(top, s, g, if st == Waiting || st == Running then Polled else Polling(LoopOf(s, g).rest - {n}), n);
  }

  lemma VisitKeeps(top: Graph, s: State, g: seq<Name>, n: Name)
    requires Inv(top, s) && Enabled(top, s, Visit(g, n))
    ensures Inv(top, VisitStep(top, s, g, n))
  {
    InvAtLoop(top, s, g);
    InvAt(top, s, StageId(g, n));
    hide Inv;
    LoopOnlyKeeps(top, s, g, LoopOf(VisitStep(top, s, g, n), g), n);
  }

  /** The store of a verdict on a stage that was not started. */
  lemma VerdictIsLoopStep(top: Graph, s: State, x: StageId, st: Status, l: Loop)
    requires LoopOf(s, x.graph) != Off && !LoopOf(s, x.graph).Returned? && !LoopOf(s, x.graph).ConditionBroke?
    requires l != Off && !l.Returned? && WorkerOf(s, x) == Idle
    requires Forward(top, x, StatusOf(s, x), st)
    ensures LoopStep(top, s, WithLoop(WithStatus(s, x, st), x.graph, l), x)
  {
  }

  lemma TestKeeps(top: Graph, s: State, g: seq<Name>, result: ConditionResult)
    requires Inv(top, s) && Enabled(top, s, TestCondition(g, result))
    ensures Inv(top, TestStep(top, s, g, result))
  {
    if result == Met {
      MetKeeps(top, s, g);
    } else {
      var x, rest := StageId(g, LoopOf(s, g).stage), LoopOf(s, g).rest;
      InvAtLoop(top, s, g);
      InvAt(top, s, x);
      VerdictFits(top, s, g, result);
      if result == Broken {
        VerdictIsLoopStep(top, s, x, Failed, ConditionBroke(rest, x.name));
      } else {
        VerdictIsLoopStep(top, s, x, Skipped, Sweeping(rest));
      }
      hide Inv, ReturnInv, StartInv, StatusInv, ResultInv, LoopInv, LoopStep;
      LoopStepKeeps(top, s, TestStep(top, s, g, result), x);
    }
  }

  lemma VerdictFits(top: Graph, s: State, g: seq<Name>, result: ConditionResult)
    requires LoopInv(top, s, g) && LoopOf(s, g).Testing? && result != Met
    requires StatusInv(top, s, StageId(g, LoopOf(s, g).stage))
    ensures StatusInv(top, TestStep(top, s, g, result), StageId(g, LoopOf(s, g).stage))
    ensures LoopInv(top, TestStep(top, s, g, result), g)
  {
    hide ParentsPass, SomeParentBlocks, Left, NodesAt, ParentsAt, HasCondition, Allows;
  }

  lemma MetKeeps(top: Graph, s: State, g: seq<Name>)
    requires Inv(top, s) && LoopOf(s, g).Testing?
    ensures Inv(top, TestStep(top, s, g, Met))
  {
    var l := LoopOf(s, g);
    InvAtLoop(top, s, g);
    InvAt(top, s, StageId(g, l.stage));
    hide Inv, ReturnInv;
    LoopOnlyKeeps(top, s, g, Checking(l.rest, l.stage, ParentsAt(top, g, l.stage), true), l.stage);
  }

  lemma ReadParentKeeps(top: Graph, s: State, g: seq<Name>, p: Name)
    requires Inv(top, s) && Enabled(top, s, ReadParent(g, p))
    ensures Inv(top, ReadParentStep(top, s, g, p))
  {
    if Blocking(top, s, StageId(g, p)) {
      ReadBlockingKeeps(top, s, g, p);
    } else {
      ReadKeepsLoop(top, s, g, p);
      hide Inv, LoopInv, ReturnInv, Blocking, Passing;
      var l := LoopOf(s, g);
      LoopOnlyKeeps(top, s, g, LoopOf(ReadParentStep(top, s, g, p), g), l.stage);
    }
  }

  /** A read that does not block keeps what is known of the loop. */
  lemma ReadKeepsLoop(top: Graph, s: State, g: seq<Name>, p: Name)
    requires Inv(top, s) && Enabled(top, s, ReadParent(g, p)) && !Blocking(top, s, StageId(g, p))
    ensures LoopInv(top, ReadParentStep(top, s, g, p), g)
    ensures ReadParentStep(top, s, g, p) == WithLoop(s, g, LoopOf(ReadParentStep(top, s, g, p), g))
  {
    InvAtLoop(top, s, g);
    hide Inv, ReturnInv;
  }

  lemma ReadBlockingKeeps(top: Graph, s: State, g: seq<Name>, p: Name)
    requires Inv(top, s) && Enabled(top, s, ReadParent(g, p)) && Blocking(top, s, StageId(g, p))
    ensures Inv(top, ReadParentStep(top, s, g, p))
  {
    var t, x := ReadParentStep(top, s, g, p), StageId(g, LoopOf(s, g).stage);
    InvAtLoop(top, s, g);
    VerdictIsLoopStep(top, s, x, Canceled, LoopOf(t, g));
    LoopStepOnward(top, s, t, x);
    CanceledKeeps(top, s, t, g, p);
    hide Inv, LoopInv, StatusInv, LoopStep, Onward, ReturnInv, ParentsPass, SomeParentBlocks;
    LoopStepKeeps(top, s, t, x);
  }

  lemma CanceledKeeps(top: Graph, s: State, t: State, g: seq<Name>, p: Name)
    requires LoopInv(top, s, g) && LoopOf(s, g).Checking? && p in LoopOf(s, g).unread
    requires Blocking(top, s, StageId(g, p)) && Onward(top, s, t)
    requires t == ReadParentStep(top, s, g, p)
    ensures StatusInv(top, t, StageId(g, LoopOf(s, g).stage)) && LoopInv(top, t, g)
  {
    var x := StageId(g, LoopOf(s, g).stage);
    assert SomeParentBlocks(top, s, x);
    ParentsKept(top, s, t, x, {});
    hide Onward, SomeParentBlocks, ParentsPass, Left;
  }

  /** All parents were read and all of them pass: the stage is started. */
  lemma StartIsOnward(top: Graph, s: State, g: seq<Name>)
    requires Enabled(top, s, Decide(g)) && LoopOf(s, g).ready && LoopInv(top, s, g)
    ensures Onward(top, s, DecideStep(s, g))
    ensures forall y :: y != StageId(g, LoopOf(s, g).stage) ==> SameStage(s, DecideStep(s, g), y)
  {
    hide GraphAt, ParentsPass, ParentsAt;
  }

  lemma StartKeeps(top: Graph, s: State, g: seq<Name>)
    requires Inv(top, s) && Enabled(top, s, Decide(g)) && LoopOf(s, g).ready
    ensures Inv(top, DecideStep(s, g))
  {
    var t, x := DecideStep(s, g), StageId(g, LoopOf(s, g).stage);
    InvAtLoop(top, s, g);
    InvAt(top, s, x);
    StartIsOnward(top, s, g);
    StartedStage(top, s, g);
    hide Inv, Onward, StartInv, StatusInv, ResultInv, StageInv, SameStage, ParentsPass;
    StageAndLoopKeep(top, s, t, x);
  }

  /** A stage that is started waits, and all its parents pass. */
  lemma StartIsDue(top: Graph, s: State, g: seq<Name>)
    requires Enabled(top, s, Decide(g)) && LoopOf(s, g).ready && LoopInv(top, s, g)
    ensures var x := StageId(g, LoopOf(s, g).stage);
            ParentsPass(top, s, x, {}) && WorkerOf(s, x) == Idle && IsStage(top, x) && x.name != ROOT
  {
    hide GraphAt, StatusOf, WorkerOf, Left, Passing;
  }

  lemma StartedStage(top: Graph, s: State, g: seq<Name>)
    requires Enabled(top, s, Decide(g)) && LoopOf(s, g).ready && LoopInv(top, s, g)
    requires StageInv(top, s, StageId(g, LoopOf(s, g).stage)) && Onward(top, s, DecideStep(s, g))
    ensures StageInv(top, DecideStep(s, g), StageId(g, LoopOf(s, g).stage))
  {
    hide LoopInv, DecideStep, StatusOf, WorkerOf, LoopOf, ErrorsOf, IsStage, NodesAt, Left, GraphAt, Count;
    hide Onward, ParentsPass, SomeParentBlocks, Allows, IsNested, HasCondition, ParentsAt;
    var x := StageId(g, LoopOf(s, g).stage);
    StartIsDue(top, s, g);
    ParentsKept(top, s, DecideStep(s, g), x, {});
    DecideEffect(s, g, x);
  }

  lemma DecideKeeps(top: Graph, s: State, g: seq<Name>)
    requires Inv(top, s) && Enabled(top, s, Decide(g))
    ensures Inv(top, DecideStep(s, g))
  {
    if LoopOf(s, g).ready {
      StartKeeps(top, s, g);
    } else {
      InvAtLoop(top, s, g);
      hide Inv, ReturnInv;
      LoopOnlyKeeps(top, s, g, Sweeping(LoopOf(s, g).rest), LoopOf(s, g).stage);
    }
  }

  /** The flag is raised; a loop may stand in front of doing so. */
  lemma CancelKeeps(top: Graph, s: State, t: State, g: seq<Name>)
    requires Inv(top, s)
    requires Cancels(s, t, g)
    ensures Inv(top, t)
  {
    forall y ensures StageInv(top, t, y) { CancelKeepsStage(top, s, t, g, y); }
    forall h ensures LoopInv(top, t, h) && ReturnInv(t, h) { CancelKeepsLoop(top, s, t, g, h); }
    hide StageInv, LoopInv, ReturnInv;
    Assemble(top, t);
  }

  ghost predicate Cancels(s: State, t: State, g: seq<Name>) {
    || t == s.(cancelled := true)
    || (LoopOf(s, g).ConditionBroke? && t == WithLoop(s, g, Sweeping(LoopOf(s, g).rest)).(cancelled := true))
  }

  /** What cancelling changes around a stage: the loop of its graph, or of the one nested in it, goes on. */
  lemma CancelMoves(top: Graph, s: State, t: State, g: seq<Name>, y: StageId)
    requires Cancels(s, t, g)
    ensures Onward(top, s, t) && SameStage(s, t, y) && t.cancelled
    ensures forall h :: LoopOf(t, h) == LoopOf(s, h) || LoopMoved(s, t, h)
  {
  }

  lemma CancelKeepsStage(top: Graph, s: State, t: State, g: seq<Name>, y: StageId)
    requires Inv(top, s) && Cancels(s, t, g)
    ensures StageInv(top, t, y)
  {
    CancelMoves(top, s, t, g, y);
    InvAt(top, s, y);
    hide Inv, Cancels, Onward, SameStage, LoopOf, LoopMoved, StartInv, StatusInv, ResultInv;
    KeepStage(top, s, t, y);
  }

  lemma CancelKeepsLoop(top: Graph, s: State, t: State, g: seq<Name>, h: seq<Name>)
    requires Inv(top, s) && Cancels(s, t, g)
    ensures LoopInv(top, t, h) && ReturnInv(t, h)
  {
    assert Onward(top, s, t);
    InvAtLoop(top, s, h);
    FailuresKept(s, t, h);
    hide Onward, ParentsPass, SomeParentBlocks, TaskFailedIn, Left;
    if LoopOf(t, h) == LoopOf(s, h) {
      forall n { InvAt(top, s, StageId(h, n)); }
      KeepLoop(top, s, t, h);
    }
  }

  // ----- loops and the workers above them

  /** The graphs around a graph that is being scheduled are being scheduled, and have not returned before it. */
  lemma {:induction false} ActiveAbove(top: Graph, s: State, g: seq<Name>, h: seq<Name>)
    requires Inv(top, s) && g <= h && LoopOf(s, h) != Off
    ensures LoopOf(s, g) != Off
    ensures !LoopOf(s, h).Returned? ==> !LoopOf(s, g).Returned?
    decreases |h|
  {
    if g != h {
      var owner := StageId(h[..|h| - 1], h[|h| - 1]);
      assert Child(owner) == h;
      InvAt(top, s, owner);
      ActiveAbove(top, s, g, owner.graph);
    }
  }

  /** When all workers of a graph are done, its error list tells whether a task failed anywhere inside it. */
  lemma ErrorsTellFailures(top: Graph, s: State, g: seq<Name>)
    requires Inv(top, s)
    requires forall n | n in NodesAt(top, g) :: Quiet(WorkerOf(s, StageId(g, n)))
    ensures ErrorsOf(s, g) != [] <==> TaskFailedIn(s, g)
  {
    if ErrorsOf(s, g) != [] {
      ErrorHasFailure(top, s, g, ErrorsOf(s, g)[0]);
    }
    if TaskFailedIn(s, g) {
      var y :| y in s.failedTasks && g <= y.graph;
      FailureHasError(top, s, g, y);
    }
  }

  lemma ErrorHasFailure(top: Graph, s: State, g: seq<Name>, n: Name)
    requires Inv(top, s) && n in ErrorsOf(s, g)
    requires forall k | k in NodesAt(top, g) :: Quiet(WorkerOf(s, StageId(g, k)))
    ensures TaskFailedIn(s, g)
  {
    var x := StageId(g, n);
    assert Count(ErrorsOf(s, g), n) > 0 by { assert n in multiset(ErrorsOf(s, g)); }
    InvAt(top, s, x);
    if IsNested(top, x) {
      InvAtLoop(top, s, Child(x));
      var y :| y in s.failedTasks && Child(x) <= y.graph;
      assert g <= y.graph;
    }
  }

  lemma FailureHasError(top: Graph, s: State, g: seq<Name>, y: StageId)
    requires Inv(top, s) && y in s.failedTasks && g <= y.graph
    requires forall k | k in NodesAt(top, g) :: Quiet(WorkerOf(s, StageId(g, k)))
    ensures ErrorsOf(s, g) != []
  {
    InvAt(top, s, y);
    if y.graph != g {
      var x := StageId(g, y.graph[|g|]);
      assert Child(x) <= y.graph;
      ActiveAbove(top, s, Child(x), y.graph);
      InvAt(top, s, x);
      InvAtLoop(top, s, Child(x));
      assert TaskFailedIn(s, Child(x));
    }
    hide Inv, ParentsPass, SomeParentBlocks, StatusInv, LoopInv;
  }

  lemma WaitEndKeeps(top: Graph, s: State, g: seq<Name>)
    requires Inv(top, s) && Enabled(top, s, WaitEnd(g))
    ensures Inv(top, Apply(top, s, WaitEnd(g)))
  {
    var t := Apply(top, s, WaitEnd(g));
    forall y ensures StageInv(top, t, y) { WaitEndKeepsStage(top, s, g, y); }
    forall h ensures LoopInv(top, t, h) && ReturnInv(t, h) { WaitEndKeepsLoop(top, s, g, h); }
    hide StageInv, LoopInv, ReturnInv;
    Assemble(top, t);
  }

  lemma WaitEndKeepsStage(top: Graph, s: State, g: seq<Name>, y: StageId)
    requires Inv(top, s) && Enabled(top, s, WaitEnd(g))
    ensures StageInv(top, Apply(top, s, WaitEnd(g)), y)
  {
    var t := Apply(top, s, WaitEnd(g));
    assert Onward(top, s, t);
    InvAt(top, s, y);
    hide Onward, ParentsPass, SomeParentBlocks;
    KeepStage(top, s, t, y);
  }

  lemma WaitEndKeepsLoop(top: Graph, s: State, g: seq<Name>, h: seq<Name>)
    requires Inv(top, s) && Enabled(top, s, WaitEnd(g))
    ensures LoopInv(top, Apply(top, s, WaitEnd(g)), h) && ReturnInv(Apply(top, s, WaitEnd(g)), h)
  {
    var t := Apply(top, s, WaitEnd(g));
    assert Onward(top, s, t);
    ErrorsTellFailures(top, s, g);
    InvAtLoop(top, s, h);
    FailuresKept(s, t, h);
    hide Onward, ParentsPass, SomeParentBlocks, TaskFailedIn, Left;
    if h != g {
      forall n { InvAt(top, s, StageId(h, n)); }
      KeepLoop(top, s, t, h);
    } else {
      forall n ensures Left(s, StageId(h, n)) ==> Left(t, StageId(h, n)) { LeftSame(s, t, StageId(h, n)); }
    }
  }

  lemma LeftSame(s: State, t: State, x: StageId)
    requires StatusOf(s, x) == StatusOf(t, x)
    ensures Left(s, x) <==> Left(t, x)
  {
  }

  // ----- the steps of a worker

  /** A worker step: only the entries of its own stage change. */
  ghost predicate WorkerStep(top: Graph, s: State, t: State, x: StageId) {
    && !Quiet(WorkerOf(s, x))
    && (forall h :: LoopOf(t, h) == LoopOf(s, h))
    && t.cancelled == s.cancelled && t.starts == s.starts
    && (forall y :: y != x ==> SameStage(s, t, y))
    && Forward(top, x, StatusOf(s, x), StatusOf(t, x))
  }

  lemma WorkerStepOnward(top: Graph, s: State, t: State, x: StageId)
    requires WorkerStep(top, s, t, x)
    ensures Onward(top, s, t)
  {
    forall y ensures Forward(top, y, StatusOf(s, y), StatusOf(t, y)) {
      assert y != x ==> SameStage(s, t, y);
    }
  }

  lemma WorkerStepKeeps(top: Graph, s: State, t: State, x: StageId)
    requires Inv(top, s) && WorkerStep(top, s, t, x)
    requires ParentsPass(top, t, x, {}) ==> StageInv(top, t, x)
    requires forall h | LoopOf(s, h).Returned? :: TaskFailedIn(t, h) <==> TaskFailedIn(s, h)
    ensures Inv(top, t)
  {
    WorkerStepOnward(top, s, t, x);
    InvAt(top, s, x);
    ParentsKept(top, s, t, x, {});
    hide Onward, ParentsPass, SomeParentBlocks, TaskFailedIn, Left;
    forall y ensures StageInv(top, t, y) {
      if y != x {
        InvAt(top, s, y);
        KeepStage(top, s, t, y);
      }
    }
    forall h ensures LoopInv(top, t, h) && ReturnInv(t, h) {
      InvAtLoop(top, s, h);
      forall n
        ensures StatusInv(top, s, StageId(h, n)) && StartInv(top, s, StageId(h, n))
        ensures StageId(h, n) == x || SameStage(s, t, StageId(h, n))
      {
        InvAt(top, s, StageId(h, n));
      }
      KeepLoop(top, s, t, h);
    }
    hide StageInv, LoopInv, ReturnInv;
    Assemble(top, t);
  }

  lemma TaskReturnsKeeps(top: Graph, s: State, x: StageId, err: bool)
    requires Inv(top, s) && Enabled(top, s, TaskReturns(x, err))
    ensures Inv(top, Apply(top, s, TaskReturns(x, err)))
  {
    var t := Apply(top, s, TaskReturns(x, err));
    InvAt(top, s, x);
    forall h | LoopOf(s, h).Returned? ensures TaskFailedIn(t, h) <==> TaskFailedIn(s, h) {
      if h <= x.graph {
        ActiveAbove(top, s, h, x.graph);
      }
    }
    TaskFits(top, s, x, err);
    hide Inv, ParentsPass, TaskFailedIn, StageInv, StatusInv, ResultInv, StartInv, WorkerStep;
    WorkerStepKeeps(top, s, t, x);
  }

  lemma TaskFits(top: Graph, s: State, x: StageId, err: bool)
    requires StageInv(top, s, x) && Enabled(top, s, TaskReturns(x, err))
    ensures WorkerStep(top, s, Apply(top, s, TaskReturns(x, err)), x)
    ensures ParentsPass(top, Apply(top, s, TaskReturns(x, err)), x, {}) ==>
              StageInv(top, Apply(top, s, TaskReturns(x, err)), x)
  {
    hide ParentsPass, SomeParentBlocks, IsStage, Allows, IsNested, HasCondition;
  }

  lemma NestedReturnsKeeps(top: Graph, s: State, x: StageId)
    requires Inv(top, s) && Enabled(top, s, NestedReturns(x))
    ensures Inv(top, Apply(top, s, NestedReturns(x)))
  {
    var t := Apply(top, s, NestedReturns(x));
    InvAt(top, s, x);
    forall h { FailuresKept(s, t, h); }
    hide Inv, ParentsPass, SomeParentBlocks, TaskFailedIn, Onward;
    WorkerStepKeeps(top, s, t, x);
  }

  lemma StoreResultKeeps(top: Graph, s: State, x: StageId)
    requires Inv(top, s) && Enabled(top, s, StoreResult(x))
    ensures Inv(top, StoreResultStep(s, x))
  {
    var t := StoreResultStep(s, x);
    InvAt(top, s, x);
    forall h { FailuresKept(s, t, h); }
    hide Inv, ParentsPass, SomeParentBlocks, TaskFailedIn, StatusInv, ResultInv, StartInv;
    assert WorkerStep(top, s, t, x) by { ResultIsWorkerStep(top, s, x); }
    hide WorkerStep;
    if ParentsPass(top, t, x, {}) {
      ResultFits(top, s, x);
    }
    WorkerStepKeeps(top, s, t, x);
  }

  lemma ResultIsWorkerStep(top: Graph, s: State, x: StageId)
    requires WorkerOf(s, x).Ran? && StatusInv(top, s, x)
    ensures WorkerStep(top, s, StoreResultStep(s, x), x)
  {
    ResultEffect(s, x);
    hide StoreResultStep, StatusOf, WorkerOf, SomeParentBlocks, HasCondition;
  }

  lemma ResultFits(top: Graph, s: State, x: StageId)
    requires StageInv(top, s, x) && WorkerOf(s, x).Ran? && ParentsPass(top, StoreResultStep(s, x), x, {})
    ensures StageInv(top, StoreResultStep(s, x), x)
  {
    hide ParentsPass, SomeParentBlocks, IsStage, Allows, IsNested, HasCondition;
  }

  lemma RecordErrorKeeps(top: Graph, s: State, x: StageId)
    requires Inv(top, s) && Enabled(top, s, RecordError(x))
    ensures Inv(top, Apply(top, s, RecordError(x)))
  {
    var t := Apply(top, s, RecordError(x));
    InvAt(top, s, x);
    forall h { FailuresKept(s, t, h); }
    RecordIsWorkerStep(top, s, x);
    if ParentsPass(top, t, x, {}) {
      RecordFits(top, s, x);
    }
    hide Inv, ParentsPass, TaskFailedIn, StageInv, StatusInv, ResultInv, StartInv, WorkerStep;
    WorkerStepKeeps(top, s, t, x);
  }

  lemma RecordIsWorkerStep(top: Graph, s: State, x: StageId)
    requires WorkerOf(s, x) == MarkedFailed
    ensures WorkerStep(top, s, Apply(top, s, RecordError(x)), x)
  {
    var t := Apply(top, s, RecordError(x));
    forall y | y != x ensures SameStage(s, t, y) {
      if y.graph == x.graph {
        CountAppend(ErrorsOf(s, x.graph), x.name, y.name);
      }
    }
  }

  lemma CountAppend(s: seq<Name>, x: Name, y: Name)
    ensures Count(s + [x], y) == Count(s, y) + if x == y then 1 else 0
  {
  }

  lemma RecordFits(top: Graph, s: State, x: StageId)
    requires StageInv(top, s, x) && WorkerOf(s, x) == MarkedFailed
    requires ParentsPass(top, Apply(top, s, RecordError(x)), x, {})
    ensures StageInv(top, Apply(top, s, RecordError(x)), x)
  {
    CountAppend(ErrorsOf(s, x.graph), x.name, x.name);
    hide ParentsPass, SomeParentBlocks, IsStage, Allows, IsNested, HasCondition, Count;
  }

  lemma FinishKeeps(top: Graph, s: State, x: StageId)
    requires Inv(top, s) && Enabled(top, s, Finish(x))
    ensures Inv(top, Apply(top, s, Finish(x)))
  {
    var t := Apply(top, s, Finish(x));
    InvAt(top, s, x);
    forall h { FailuresKept(s, t, h); }
    FinishFits(top, s, x);
    hide Inv, ParentsPass, TaskFailedIn, StageInv, StatusInv, ResultInv, StartInv, WorkerStep;
    WorkerStepKeeps(top, s, t, x);
  }

  lemma FinishFits(top: Graph, s: State, x: StageId)
    requires StageInv(top, s, x) && WorkerOf(s, x) == Recorded
    ensures WorkerStep(top, s, Apply(top, s, Finish(x)), x)
    ensures ParentsPass(top, Apply(top, s, Finish(x)), x, {}) ==> StageInv(top, Apply(top, s, Finish(x)), x)
  {
    hide ParentsPass, SomeParentBlocks, IsStage, IsNested, HasCondition, Count, ParentsAt, NodesAt;
    if Allows(top, x) {
      hide Allows;
    } else {
      hide Allows;
    }
  }

  // ----- starting a loop

  lemma ChildInjective(x: StageId, y: StageId)
    requires Child(x) == Child(y)
    ensures x == y
  {
    assert Child(x)[..|x.graph|] == x.graph && Child(y)[..|y.graph|] == y.graph;
    assert Child(x)[|x.graph|] == x.name && Child(y)[|y.graph|] == y.name;
  }

  /** The loop of a graph is started; of all stages, only the one that calls it may change. */
  lemma StartLoopKeeps(top: Graph, s: State, t: State, g: seq<Name>, caller: Option<StageId>)
    requires Inv(top, s) && Onward(top, s, t)
    requires LoopOf(s, g) == Off && LoopOf(t, g) == Polling(NodesAt(top, g)) && GraphAt(top, g).Some?
    requires forall h :: h != g ==> LoopOf(t, h) == LoopOf(s, h)
    requires forall y :: Some(y) != caller ==> SameStage(s, t, y)
    requires t.failedTasks == s.failedTasks
    requires caller.Some? ==> Child(caller.value) == g && StageInv(top, t, caller.value)
    requires caller.Some? ==> !Quiet(WorkerOf(s, caller.value))
    requires caller.None? ==> g == []
    ensures Inv(top, t)
  {
    hide Onward, ParentsPass, SomeParentBlocks, TaskFailedIn, Left, StageInv;
    forall y ensures StageInv(top, t, y) {
      if Some(y) != caller {
        InvAt(top, s, y);
        StageIs(top, s, y);
        if caller.Some? && Child(y) == g {
          ChildInjective(y, caller.value);
        }
        KeepStage(top, s, t, y);
      }
    }
    forall h ensures LoopInv(top, t, h) && ReturnInv(t, h) {
      InvAtLoop(top, s, h);
      FailuresKept(s, t, h);
      if h != g {
        forall n
          ensures StatusInv(top, s, StageId(h, n)) && StartInv(top, s, StageId(h, n))
          ensures Some(StageId(h, n)) == caller || SameStage(s, t, StageId(h, n))
        {
          InvAt(top, s, StageId(h, n));
        }
        KeepLoop(top, s, t, h);
      }
    }
    hide LoopInv, ReturnInv;
    Assemble(top, t);
  }

  lemma ScheduleNestedKeeps(top: Graph, s: State, x: StageId)
    requires Inv(top, s) && Enabled(top, s, ScheduleNested(x))
    ensures Inv(top, Apply(top, s, ScheduleNested(x)))
  {
    var t := Apply(top, s, ScheduleNested(x));
    InvAt(top, s, x);
    GraphAtSnoc(top, x.graph, x.name);
    assert Onward(top, s, t);
    ParentsKept(top, s, t, x, {});
    assert forall y :: y != x ==> SameStage(s, t, y);
    NestedStage(top, s, x);
    hide Inv, Onward, StartInv, StatusInv, ResultInv, StageInv, SameStage, ParentsPass, NodesAt;
    StartLoopKeeps(top, s, t, Child(x), Some(x));
  }

  lemma NestedStage(top: Graph, s: State, x: StageId)
    requires StageInv(top, s, x) && Enabled(top, s, ScheduleNested(x))
    requires Onward(top, s, Apply(top, s, ScheduleNested(x)))
    ensures StageInv(top, Apply(top, s, ScheduleNested(x)), x)
  {
    ParentsKept(top, s, Apply(top, s, ScheduleNested(x)), x, {});
    hide Onward, ParentsPass, SomeParentBlocks;
  }

  // ----- the theorem

  lemma WorkerStepsKeep(top: Graph, s: State, a: Step)
    requires Inv(top, s) && Enabled(top, s, a)
    requires a.ScheduleNested? || a.TaskReturns? || a.NestedReturns? || a.StoreResult? || a.RecordError? || a.Finish?
    ensures Inv(top, Apply(top, s, a))
  {
    hide Inv;
    match a
    case ScheduleNested(x) => ScheduleNestedKeeps(top, s, x);
    case TaskReturns(x, err) => TaskReturnsKeeps(top, s, x, err);
    case NestedReturns(x) => NestedReturnsKeeps(top, s, x);
    case StoreResult(x) => StoreResultKeeps(top, s, x);
    case RecordError(x) => RecordErrorKeeps(top, s, x);
    case Finish(x) => FinishKeeps(top, s, x);
  }

  lemma PollEndKeeps(top: Graph, s: State, g: seq<Name>, a: Step)
    requires Inv(top, s) && Enabled(top, s, a)
    requires a == PollEnd(g) || a == ReadCancelled(g) || a == SweepEnd(g)
    ensures Inv(top, Apply(top, s, a))
  {
    var t := Apply(top, s, a);
    InvAtLoop(top, s, g);
    hide Inv, ReturnInv;
    LoopOnlyKeeps(top, s, g, LoopOf(t, g), ROOT);
  }

  lemma ScheduleTopKeeps(top: Graph, s: State)
    requires Inv(top, s) && Enabled(top, s, ScheduleTop)
    ensures Inv(top, Apply(top, s, ScheduleTop))
  {
    var t := Apply(top, s, ScheduleTop);
    assert Onward(top, s, t);
    assert forall y :: SameStage(s, t, y);
    hide Inv, Onward, SameStage, NodesAt;
    StartLoopKeeps(top, s, t, [], None);
  }

  /** Every step of every loop and every worker keeps the invariant. */
  lemma StepKeeps(top: Graph, s: State, a: Step)
    requires Inv(top, s) && Enabled(top, s, a)
    ensures Inv(top, Apply(top, s, a))
  {
    hide Inv;
    match a
    case ScheduleTop => ScheduleTopKeeps(top, s);
    case Poll(g, n) => PollKeeps(top, s, g, n);
    case PollEnd(g) => PollEndKeeps(top, s, g, a);
    case ReadCancelled(g) => PollEndKeeps(top, s, g, a);
    case Visit(g, n) => VisitKeeps(top, s, g, n);
    case SweepEnd(g) => PollEndKeeps(top, s, g, a);
    case TestCondition(g, result) => TestKeeps(top, s, g, result);
    case CancelRun(g) => CancelKeeps(top, s, Apply(top, s, a), g);
    case ReadParent(g, p) => ReadParentKeeps(top, s, g, p);
    case Decide(g) => DecideKeeps(top, s, g);
    case WaitEnd(g) => WaitEndKeeps(top, s, g);
    case Interrupt => CancelKeeps(top, s, Apply(top, s, a), []);
    case _ => WorkerStepsKeep(top, s, a);
  }

  lemma {:induction false} RunKeeps(top: Graph, s: State, steps: seq<Step>, t: State)
    requires Inv(top, s) && Run(top, s, steps, t)
    ensures Inv(top, t)
    decreases |steps|
  {
    if steps != [] {
      StepKeeps(top, s, steps[0]);
      RunKeeps(top, Apply(top, s, steps[0]), steps[1..], t);
    }
  }

  /** The invariant holds in every state that some interleaving leads to. */
  lemma ReachableInv(top: Graph, s: State)
    requires Reachable(top, s)
    ensures Inv(top, s)
  {
    var steps :| Run(top, INITIAL, steps, s);
    InitialInv(top);
    RunKeeps(top, INITIAL, steps, s);
  }
}
