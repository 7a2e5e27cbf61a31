/**
  The scheduler as a state machine.

  One polling loop runs for every execution graph that is being scheduled, and one worker for
  every stage that was started.  A nested pipeline is scheduled by the worker of its stage, so
  loops and workers of all levels run side by side.  A step is one load or store of a status,
  of the cancellation flag or of an error list; a store that only the storing thread can make
  is taken together with the load that decided it.
 */
module Schedules {
  import opened Digraph
  import opened Stages
  import opened WellBuiltGraphs

  datatype Status = Waiting | Running | Skipped | Done | Failed | Canceled

  /** A stage inside the tree of graphs: the path of its graph, and its name there. */
  datatype StageId = StageId(graph: seq<Name>, name: Name)

  /** What the worker of a stage has got to. */
  datatype Worker =
    | Idle
    | Launched
    | InNested
    | Ran(err: bool)
    | MarkedFailed
    | Recorded
    | Exited(err: bool)

  /** What the polling loop of a graph has got to. */
  datatype Loop =
    | Off
    | Polling(rest: set<Name>)
    | Polled
    | Sweeping(rest: set<Name>)
    | Testing(rest: set<Name>, stage: Name)
    | ConditionBroke(rest: set<Name>, stage: Name)
    | Checking(rest: set<Name>, stage: Name, unread: set<Name>, ready: bool)
    | Draining
    | Returned(err: bool)

  datatype ConditionResult = Broken | Unmet | Met

  datatype State = State(
    status: map<StageId, Status>,
    worker: map<StageId, Worker>,
    loop: map<seq<Name>, Loop>,
    errors: map<seq<Name>, seq<Name>>,
    cancelled: bool,
    starts: multiset<StageId>,
    failedTasks: set<StageId>)

  const INITIAL := State(map[], map[], map[], map[], false, multiset{}, {})

  function StatusOf(s: State, x: StageId): Status {
    if x in s.status then s.status[x] else if x.name == ROOT then Done else Waiting
  }

  function WorkerOf(s: State, x: StageId): Worker {
    if x in s.worker then s.worker[x] else Idle
  }

  function LoopOf(s: State, g: seq<Name>): Loop {
    if g in s.loop then s.loop[g] else Off
  }

  function ErrorsOf(s: State, g: seq<Name>): seq<Name> {
    if g in s.errors then s.errors[g] else []
  }

  // ----- what never changes during a run: read off the graph that is scheduled

  function NodesAt(top: Graph, g: seq<Name>): set<Name> {
    var at := GraphAt(top, g);
    if at.Some? then at.value.nodes.Keys else {}
  }

  predicate IsStage(top: Graph, x: StageId) {
    x.name in NodesAt(top, x.graph)
  }

  function TheStage(top: Graph, x: StageId): Stage
    requires IsStage(top, x)
  {
    GraphAt(top, x.graph).value.nodes[x.name]
  }

  function ParentsAt(top: Graph, g: seq<Name>, n: Name): set<Name> {
    var at := GraphAt(top, g);
    if at.Some? then set p | p in Succ(at.value.parent, n) else {}
  }

  predicate Allows(top: Graph, x: StageId) {
    IsStage(top, x) && TheStage(top, x).allowFailure
  }

  predicate IsNested(top: Graph, x: StageId) {
    IsStage(top, x) && TheStage(top, x).body.Nested?
  }

  predicate HasCondition(top: Graph, x: StageId) {
    IsStage(top, x) && TheStage(top, x).condition != ""
  }

  /** A parent that lets its children start. */
  predicate Passing(top: Graph, s: State, x: StageId) {
    var st := StatusOf(s, x);
    st == Done || st == Skipped || (st == Failed && Allows(top, x))
  }

  /** A parent that cancels its children. */
  predicate Blocking(top: Graph, s: State, x: StageId) {
    var st := StatusOf(s, x);
    st == Canceled || (st == Failed && !Allows(top, x))
  }

  /** Nothing of a worker is left to do. */
  predicate Quiet(w: Worker) {
    w.Idle? || w.Exited?
  }

  // ----- steps

  datatype Step =
    | ScheduleTop
    | Poll(g: seq<Name>, n: Name)
    | PollEnd(g: seq<Name>)
    | ReadCancelled(g: seq<Name>)
    | Visit(g: seq<Name>, n: Name)
    | SweepEnd(g: seq<Name>)
    | TestCondition(g: seq<Name>, result: ConditionResult)
    | CancelRun(g: seq<Name>)
    | ReadParent(g: seq<Name>, p: Name)
    | Decide(g: seq<Name>)
    | WaitEnd(g: seq<Name>)
    | ScheduleNested(x: StageId)
    | TaskReturns(x: StageId, err: bool)
    | NestedReturns(x: StageId)
    | StoreResult(x: StageId)
    | RecordError(x: StageId)
    | Finish(x: StageId)
    | Interrupt

  function Child(x: StageId): seq<Name> {
    x.graph + [x.name]
  }

  predicate Enabled(top: Graph, s: State, a: Step) {
    match a
    case ScheduleTop => LoopOf(s, []) == Off
    case Poll(g, n) => LoopOf(s, g).Polling? && n in LoopOf(s, g).rest
    case PollEnd(g) => LoopOf(s, g) == Polling({})
    case ReadCancelled(g) => LoopOf(s, g) == Polled
    case Visit(g, n) => LoopOf(s, g).Sweeping? && n in LoopOf(s, g).rest
    case SweepEnd(g) => LoopOf(s, g) == Sweeping({})
    case TestCondition(g, _) => LoopOf(s, g).Testing?
    case CancelRun(g) => LoopOf(s, g).ConditionBroke?
    case ReadParent(g, p) => LoopOf(s, g).Checking? && p in LoopOf(s, g).unread
    case Decide(g) => LoopOf(s, g).Checking? && LoopOf(s, g).unread == {}
    case WaitEnd(g) => LoopOf(s, g) == Draining && forall n | n in NodesAt(top, g) :: Quiet(WorkerOf(s, StageId(g, n)))
    case ScheduleNested(x) => WorkerOf(s, x) == Launched && IsNested(top, x)
    case TaskReturns(x, _) => WorkerOf(s, x) == Launched && !IsNested(top, x)
    case NestedReturns(x) => WorkerOf(s, x) == InNested && LoopOf(s, Child(x)).Returned?
    case StoreResult(x) => WorkerOf(s, x).Ran?
    case RecordError(x) => WorkerOf(s, x) == MarkedFailed
    case Finish(x) => WorkerOf(s, x) == Recorded
    case Interrupt => true
  }

  function WithLoop(s: State, g: seq<Name>, l: Loop): State {
    s.(loop := s.loop[g := l])
  }

  function WithStatus(s: State, x: StageId, st: Status): State {
    s.(status := s.status[x := st])
  }

  function WithWorker(s: State, x: StageId, w: Worker): State {
    s.(worker := s.worker[x := w])
  }

  /** One status read of the done check. */
  function PollStep(s: State, g: seq<Name>, n: Name): State
    requires LoopOf(s, g).Polling?
  {
    var st := StatusOf(s, StageId(g, n));
    WithLoop(s, g, if st == Waiting || st == Running then Polled else Polling(LoopOf(s, g).rest - {n}))
  }

  /** One stage of a sweep: only a waiting stage is looked at further. */
  function VisitStep(top: Graph, s: State, g: seq<Name>, n: Name): State
    requires LoopOf(s, g).Sweeping?
  {
    var x, rest := StageId(g, n), LoopOf(s, g).rest - {n};
    WithLoop(s, g,
             if StatusOf(s, x) != Waiting then Sweeping(rest)
             else if HasCondition(top, x) then Testing(rest, n)
             else Checking(rest, n, ParentsAt(top, g, n), true))
  }

  function TestStep(top: Graph, s: State, g: seq<Name>, result: ConditionResult): State
    requires LoopOf(s, g).Testing?
  {
    var l := LoopOf(s, g);
    var x := StageId(g, l.stage);
    match result
    case Broken => WithLoop(WithStatus(s, x, Failed), g, ConditionBroke(l.rest, l.stage))
    case Unmet => WithLoop(WithStatus(s, x, Skipped), g, Sweeping(l.rest))
    case Met => WithLoop(s, g, Checking(l.rest, l.stage, ParentsAt(top, g, l.stage), true))
  }

  function ReadParentStep(top: Graph, s: State, g: seq<Name>, p: Name): State
    requires LoopOf(s, g).Checking?
  {
    var l, parent := LoopOf(s, g), StageId(g, p);
    var read := WithLoop(s, g, l.(unread := l.unread - {p}, ready := l.ready && Passing(top, s, parent)));
    if Blocking(top, s, parent) then WithStatus(read, StageId(g, l.stage), Canceled) else read
  }

  function DecideStep(s: State, g: seq<Name>): State
    requires LoopOf(s, g).Checking?
  {
    var l := LoopOf(s, g);
    var x, next := StageId(g, l.stage), WithLoop(s, g, Sweeping(l.rest));
    if l.ready then WithWorker(WithStatus(next, x, Running), x, Launched).(starts := s.starts + multiset{x})
    else next
  }

  function StoreResultStep(s: State, x: StageId): State
    requires WorkerOf(s, x).Ran?
  {
    if WorkerOf(s, x).err then WithWorker(WithStatus(s, x, Failed), x, MarkedFailed)
    else WithWorker(WithStatus(s, x, Done), x, Exited(false))
  }

  function Apply(top: Graph, s: State, a: Step): State
    requires Enabled(top, s, a)
  {
    match a
    case ScheduleTop => WithLoop(s, [], Polling(NodesAt(top, [])))
    case Poll(g, n) => PollStep(s, g, n)
    case PollEnd(g) => WithLoop(s, g, Draining)
    case ReadCancelled(g) => WithLoop(s, g, if s.cancelled then Draining else Sweeping(NodesAt(top, g)))
    case Visit(g, n) => VisitStep(top, s, g, n)
    case SweepEnd(g) => WithLoop(s, g, Polling(NodesAt(top, g)))
    case TestCondition(g, result) => TestStep(top, s, g, result)
    case CancelRun(g) => WithLoop(s, g, Sweeping(LoopOf(s, g).rest)).(cancelled := true)
    case ReadParent(g, p) => ReadParentStep(top, s, g, p)
    case Decide(g) => DecideStep(s, g)
    case WaitEnd(g) => WithLoop(s, g, Returned(ErrorsOf(s, g) != []))
    case ScheduleNested(x) => WithLoop(WithWorker(s, x, InNested), Child(x), Polling(NodesAt(top, Child(x))))
    case TaskReturns(x, err) =>
      WithWorker(s, x, Ran(err)).(failedTasks := if err then s.failedTasks + {x} else s.failedTasks)
    case NestedReturns(x) => WithWorker(s, x, Ran(LoopOf(s, Child(x)).err))
    case StoreResult(x) => StoreResultStep(s, x)
    case RecordError(x) =>
      WithWorker(s, x, Recorded).(errors := s.errors[x.graph := ErrorsOf(s, x.graph) + [x.name]])
    case Finish(x) =>
      WithWorker(if Allows(top, x) then WithStatus(s, x, Done) else s, x, Exited(true))
    case Interrupt => s.(cancelled := true)
  }

  /** The state after a list of steps, if every one of them was enabled. */
  ghost predicate Run(top: Graph, s: State, steps: seq<Step>, t: State)
    decreases |steps|
  {
    if steps == [] then s == t
    else Enabled(top, s, steps[0]) && Run(top, Apply(top, s, steps[0]), steps[1..], t)
  }

  ghost predicate Reachable(top: Graph, s: State) {
    exists steps :: Run(top, INITIAL, steps, s)
  }

  /** What one parent read does: it lowers the readiness unless the parent passes, and cancels if it blocks. */
  lemma ReadEffect(top: Graph, s: State, g: seq<Name>, p: Name)
    requires Enabled(top, s, ReadParent(g, p))
    ensures var l, t := LoopOf(s, g), ReadParentStep(top, s, g, p);
            && LoopOf(t, g) == l.(unread := l.unread - {p}, ready := l.ready && Passing(top, s, StageId(g, p)))
            && StatusOf(t, StageId(g, l.stage)) ==
                 (if Blocking(top, s, StageId(g, p)) then Canceled else StatusOf(s, StageId(g, l.stage)))
            && forall y :: y != StageId(g, l.stage) ==> StatusOf(t, y) == StatusOf(s, y)
  {
  }

  /** What deciding a stage does: it is started if it is ready, and the sweep goes on. */
  lemma DecideEffect(s: State, g: seq<Name>, x: StageId)
    requires LoopOf(s, g).Checking?
    ensures var t, starts := DecideStep(s, g), LoopOf(s, g).ready && x == StageId(g, LoopOf(s, g).stage);
            && StatusOf(t, x) == (if starts then Running else StatusOf(s, x))
            && WorkerOf(t, x) == (if starts then Launched else WorkerOf(s, x))
            && t.starts[x] == s.starts[x] + (if starts then 1 else 0)
            && ErrorsOf(t, x.graph) == ErrorsOf(s, x.graph)
            && t.failedTasks == s.failedTasks && t.cancelled == s.cancelled
            && forall h :: LoopOf(t, h) == if h == g then Sweeping(LoopOf(s, g).rest) else LoopOf(s, h)
  {
  }

  /** What storing a result does. */
  lemma ResultEffect(s: State, x: StageId)
    requires WorkerOf(s, x).Ran?
    ensures var t, err := StoreResultStep(s, x), WorkerOf(s, x).err;
            && StatusOf(t, x) == (if err then Failed else Done)
            && WorkerOf(t, x) == (if err then MarkedFailed else Exited(false))
            && (forall y :: y != x ==> StatusOf(t, y) == StatusOf(s, y) && WorkerOf(t, y) == WorkerOf(s, y))
            && t.loop == s.loop && t.errors == s.errors && t.starts == s.starts
            && t.failedTasks == s.failedTasks && t.cancelled == s.cancelled
  {
  }
}
