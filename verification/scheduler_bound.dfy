/**
  That every run ends: apart from the polling of graphs that wait for a worker, the steps of
  any run are bounded by a number that depends on the pipeline only.
 */
module ScheduleBounds {
  import opened Digraph
  import opened Stages
  import opened WellBuiltGraphs
  import opened Schedules
  import opened ScheduleSafety
  import opened ScheduleTheorems
  import opened ScheduleTermination

  // ----- sums

  ghost function Sum<T>(names: set<T>, f: T -> nat): nat {
    if names == {} then 0 else var n :| n in names; f(n) + Sum(names - {n}, f)
  }

  lemma {:induction false} SumPick<T>(names: set<T>, f: T -> nat, n: T)
    requires n in names
    ensures Sum(names, f) == f(n) + Sum(names - {n}, f)
    decreases |names|
  {
    var k :| k in names && Sum(names, f) == f(k) + Sum(names - {k}, f);
    if k != n {
      SumPick(names - {k}, f, n);
      SumPick(names - {n}, f, k);
      assert names - {k} - {n} == names - {n} - {k};
    }
  }

  lemma {:induction false} SumFalls<T>(names: set<T>, f: T -> nat, h: T -> nat)
    requires forall n | n in names :: h(n) <= f(n)
    ensures Sum(names, h) <= Sum(names, f)
    ensures (exists n :: n in names && h(n) < f(n)) ==> Sum(names, h) < Sum(names, f)
    decreases |names|
  {
    if names != {} {
      var n :| n in names;
      SumPick(names, f, n);
      SumPick(names, h, n);
      SumFalls(names - {n}, f, h);
    }
  }

  /** Only one of the summands may grow. */
  lemma SumGrows<T>(names: set<T>, f: T -> nat, h: T -> nat, n: T, extra: nat)
    requires forall m | m in names && m != n :: h(m) <= f(m)
    requires h(n) <= f(n) + extra
    ensures Sum(names, h) <= Sum(names, f) + extra
  {
    if n in names {
      SumPick(names, f, n);
      SumPick(names, h, n);
      SumFalls(names - {n}, f, h);
    } else {
      SumFalls(names, f, h);
    }
  }

  // ----- what is left to do in a graph

  ghost function WorkAll(top: Graph, s: State, g: seq<Name>): nat {
    Sum(NodesAt(top, g), n => WorkLeft(WorkerOf(s, StageId(g, n))))
  }

  /** The steps left to the loop; all of them while it is off, or waits for a worker. */
  ghost function LoopWork(top: Graph, s: State, g: seq<Name>): nat {
    if LoopOf(s, g) == Off || !NothingLive(top, s, g) then MostSteps(|NodesAt(top, g)|) else StepsLeft(top, s, g)
  }

  /** A change of a status pays for a worker that it starts and for all the steps of the loop. */
  ghost function Price(k: nat): nat {
    MostSteps(k) + 6
  }

  /** So many things at a price. */
  ghost function Worth(price: nat, count: nat): nat {
    price * count
  }

  ghost function Work(top: Graph, s: State, g: seq<Name>): nat {
    var k := |NodesAt(top, g)|;
    Worth(Price(k), RemainingAll(s, g, NodesAt(top, g))) + WorkAll(top, s, g)
      + (if s.cancelled then 0 else MostSteps(k) + 1) + LoopWork(top, s, g)
  }

  lemma {:induction false} Priced(price: nat, a: nat, b: nat)
    ensures a <= b ==> Worth(price, a) <= Worth(price, b)
    ensures a < b ==> Worth(price, a) + price <= Worth(price, b)
  {
    if a < b {
      Priced(price, a, b - 1);
      assert price * b == price * (b - 1) + price;
    }
  }

  // ----- how a step changes it

  /** The graph whose stage a step of a worker is about. */
  function WorkerGraph(a: Step): Option<seq<Name>> {
    match a
    case ScheduleNested(x) => Some(x.graph)
    case TaskReturns(x, _) => Some(x.graph)
    case NestedReturns(x) => Some(x.graph)
    case StoreResult(x) => Some(x.graph)
    case RecordError(x) => Some(x.graph)
    case Finish(x) => Some(x.graph)
    case _ => None
  }

  /** No status changes except to one that is nearer to the end. */
  ghost predicate Advances(top: Graph, s: State, t: State, g: seq<Name>) {
    && (s.cancelled ==> t.cancelled)
    && RemainingAll(t, g, NodesAt(top, g)) <= RemainingAll(s, g, NodesAt(top, g))
    && (!SameStatuses(top, s, t, g) ==> RemainingAll(t, g, NodesAt(top, g)) < RemainingAll(s, g, NodesAt(top, g)))
  }

  lemma StepAdvances(top: Graph, s: State, a: Step, g: seq<Name>)
    requires Inv(top, s) && Enabled(top, s, a) && Calm(a)
    ensures Advances(top, s, Apply(top, s, a), g) && Inv(top, Apply(top, s, a))
  {
    var t := Apply(top, s, a);
    CanStep(top, s, a);
    ReachKeeps(top, s, t);
    hide Inv, Apply, Enabled, CanReach, NodesAt, RemainingAll, Remaining, StatusOf;
    RemainingFalls(s, t, g, NodesAt(top, g));
    if !SameStatuses(top, s, t, g) {
      SomeChanged(top, s, t, g);
    }
  }

  lemma SomeChanged(top: Graph, s: State, t: State, g: seq<Name>)
    requires !SameStatuses(top, s, t, g)
    requires forall x :: StatusOf(t, x) != StatusOf(s, x) ==> Remaining(StatusOf(t, x)) < Remaining(StatusOf(s, x))
    ensures exists n :: n in NodesAt(top, g) &&
              Remaining(StatusOf(t, StageId(g, n))) < Remaining(StatusOf(s, StageId(g, n)))
  {
    hide NodesAt, Remaining, StatusOf;
    var n :| n in NodesAt(top, g) && StatusOf(t, StageId(g, n)) != StatusOf(s, StageId(g, n));
  }

  lemma LoopWorkBound(top: Graph, s: State, g: seq<Name>)
    requires Inv(top, s) && GraphAt(top, g).Some? && WellBuilt(GraphAt(top, g).value)
    ensures LoopWork(top, s, g) <= MostSteps(|NodesAt(top, g)|)
  {
    InvAtLoop(top, s, g);
    StepsLeftBound(top, s, g);
  }

  /** A change of a status, or the cancellation, pays for all the rest. */
  lemma ChangePays(top: Graph, s: State, t: State, g: seq<Name>)
    requires Advances(top, s, t, g) && LoopWork(top, t, g) <= MostSteps(|NodesAt(top, g)|)
    requires WorkAll(top, t, g) <= WorkAll(top, s, g) + if SameStatuses(top, s, t, g) then 0 else 5
    ensures !SameStatuses(top, s, t, g) || t.cancelled != s.cancelled ==> Work(top, t, g) < Work(top, s, g)
    ensures LoopWork(top, t, g) <= LoopWork(top, s, g) ==> Work(top, t, g) <= Work(top, s, g)
    ensures LoopWork(top, t, g) < LoopWork(top, s, g) ==> Work(top, t, g) < Work(top, s, g)
    ensures LoopWork(top, t, g) <= LoopWork(top, s, g) && WorkAll(top, t, g) < WorkAll(top, s, g) ==>
              Work(top, t, g) < Work(top, s, g)
  {
    Priced(Price(|NodesAt(top, g)|), RemainingAll(t, g, NodesAt(top, g)), RemainingAll(s, g, NodesAt(top, g)));
    hide NodesAt, RemainingAll, WorkAll, LoopWork, SameStatuses, MostSteps, Worth;
  }

  // ----- steps elsewhere

  /** The entries of a graph and its loop are as before, but that its loop may have been started. */
  ghost predicate Untouched(top: Graph, s: State, t: State, g: seq<Name>) {
    && (forall n | n in NodesAt(top, g) :: SameAt(s, t, StageId(g, n)))
    && (LoopOf(t, g) == LoopOf(s, g) || LoopOf(s, g) == Off)
  }

  lemma ElsewhereUntouched(top: Graph, s: State, a: Step, g: seq<Name>)
    requires Inv(top, s) && Enabled(top, s, a) && !LoopStepOf(a, g) && WorkerGraph(a) != Some(g)
    ensures Untouched(top, s, Apply(top, s, a), g)
  {
    StartedWasOff(top, s, a, g);
    forall n ensures !Touches(s, a, StageId(g, n)) { NotTouched(s, a, g, n); }
    hide Inv, Apply, Enabled, Touches, NodesAt;
    forall n | n in NodesAt(top, g) ensures SameAt(s, Apply(top, s, a), StageId(g, n)) {
      OthersUntouched(top, s, a, StageId(g, n));
    }
  }

  lemma NotTouched(s: State, a: Step, g: seq<Name>, n: Name)
    requires !LoopStepOf(a, g) && WorkerGraph(a) != Some(g)
    ensures !Touches(s, a, StageId(g, n))
  {
  }

  lemma StartedWasOff(top: Graph, s: State, a: Step, g: seq<Name>)
    requires Inv(top, s) && Enabled(top, s, a) && !LoopStepOf(a, g)
    ensures LoopOf(Apply(top, s, a), g) == LoopOf(s, g) || LoopOf(s, g) == Off
  {
    if Moves(a) != Some(g) {
      OtherLoopsStay(top, s, a, g);
    } else if a.ScheduleNested? {
      InvAt(top, s, a.x);
    }
  }

  lemma UntouchedWork(top: Graph, s: State, t: State, g: seq<Name>)
    requires Untouched(top, s, t, g)
    ensures WorkAll(top, t, g) <= WorkAll(top, s, g) && SameStatuses(top, s, t, g)
    ensures NothingLive(top, t, g) <==> NothingLive(top, s, g)
  {
    hide NodesAt, StatusOf, WorkLeft, LoopOf;
    var names := NodesAt(top, g);
    forall n | n in names
      ensures SameAt(s, t, StageId(g, n)) && WorkerOf(t, StageId(g, n)) == WorkerOf(s, StageId(g, n))
    {
    }
    hide WorkerOf;
    SumFalls(names, n => WorkLeft(WorkerOf(s, StageId(g, n))), n => WorkLeft(WorkerOf(t, StageId(g, n))));
  }

  lemma ElsewhereCostsNothing(top: Graph, s: State, a: Step, g: seq<Name>)
    requires Inv(top, s) && Enabled(top, s, a) && Calm(a) && !LoopStepOf(a, g) && WorkerGraph(a) != Some(g)
    requires GraphAt(top, g).Some? && WellBuilt(GraphAt(top, g).value)
    ensures Work(top, Apply(top, s, a), g) <= Work(top, s, g)
  {
    var t := Apply(top, s, a);
    StepAdvances(top, s, a, g);
    ElsewhereUntouched(top, s, a, g);
    UntouchedWork(top, s, t, g);
    LoopWorkBound(top, t, g);
    hide Inv, Apply, Enabled, GraphAt, WellBuilt, WorkAll, Work, StepsLeft, MostSteps, NothingLive, NodesAt;
    if LoopOf(t, g) == LoopOf(s, g) && t.cancelled == s.cancelled {
      SameStepsLeft(top, s, t, g);
    }
    ChangePays(top, s, t, g);
  }

  // ----- steps of its workers

  lemma WorkerStepPays(top: Graph, s: State, a: Step, x: StageId)
    requires Inv(top, s) && Enabled(top, s, a) && WorkerStepOf(top, a, x)
    requires GraphAt(top, x.graph).Some? && WellBuilt(GraphAt(top, x.graph).value)
    ensures Work(top, Apply(top, s, a), x.graph) < Work(top, s, x.graph)
  {
    var t, g := Apply(top, s, a), x.graph;
    StepAdvances(top, s, a, g);
    WorkFalls(top, s, a, x);
    LoopWorkBound(top, t, g);
    hide Inv, Apply, Enabled, GraphAt, WellBuilt, WorkAll, Work, StepsLeft, MostSteps, NodesAt;
    ChangePays(top, s, t, g);
  }

  lemma WorkFalls(top: Graph, s: State, a: Step, x: StageId)
    requires Inv(top, s) && Enabled(top, s, a) && WorkerStepOf(top, a, x)
    ensures WorkAll(top, Apply(top, s, a), x.graph) < WorkAll(top, s, x.graph) && !NothingLive(top, s, x.graph)
  {
    var t, g := Apply(top, s, a), x.graph;
    WorkerStepHelps(top, s, a, x);
    WorkerIsStage(top, s, x);
    hide Inv, Apply, Enabled, NodesAt, WorkLeft;
    forall y | y != x ensures WorkerOf(t, y) == WorkerOf(s, y) {
      WorkerUntouched(top, s, a, x, y);
    }
    hide WorkerOf;
    assert x == StageId(g, x.name);
    SumFalls(NodesAt(top, g), n => WorkLeft(WorkerOf(s, StageId(g, n))), n => WorkLeft(WorkerOf(t, StageId(g, n))));
  }

  lemma WorkerIsStage(top: Graph, s: State, x: StageId)
    requires Inv(top, s) && WorkLeft(WorkerOf(s, x)) > 0
    ensures x.name in NodesAt(top, x.graph) && !Quiet(WorkerOf(s, x))
  {
    InvAt(top, s, x);
  }

  // ----- steps of its loop

  lemma LoopStepPays(top: Graph, s: State, a: Step, g: seq<Name>)
    requires Inv(top, s) && Enabled(top, s, a) && Calm(a) && LoopStepOf(a, g)
    requires GraphAt(top, g).Some? && WellBuilt(GraphAt(top, g).value)
    ensures Work(top, Apply(top, s, a), g) <= Work(top, s, g)
    ensures NothingLive(top, s, g) ==> Work(top, Apply(top, s, a), g) < Work(top, s, g)
  {
    var t := Apply(top, s, a);
    StepAdvances(top, s, a, g);
    LoopStepWork(top, s, a, g);
    LoopWorkBound(top, t, g);
    LoopIsOn(top, s, a, g);
    if SameStatuses(top, s, t, g) && t.cancelled == s.cancelled && NothingLive(top, s, g) {
      LoopStepSpends(top, s, a, g);
      LoopStepKeepsWorkers(top, s, a, g);
    }
    hide Inv, Apply, Enabled, GraphAt, WellBuilt, WorkAll, Work, StepsLeft, MostSteps, NodesAt, NothingLive;
    ChangePays(top, s, t, g);
  }

  lemma LoopIsOn(top: Graph, s: State, a: Step, g: seq<Name>)
    requires Enabled(top, s, a) && LoopStepOf(a, g)
    ensures LoopOf(s, g) != Off && LoopOf(Apply(top, s, a), g) != Off
  {
    LoopWasOn(top, s, a, g);
    LoopStaysOn(top, s, a, g);
  }

  lemma LoopWasOn(top: Graph, s: State, a: Step, g: seq<Name>)
    requires Enabled(top, s, a) && LoopStepOf(a, g)
    ensures LoopOf(s, g) != Off
  {
  }

  lemma TouchedStage(s: State, a: Step, g: seq<Name>) returns (n: Name)
    requires LoopStepOf(a, g)
    ensures forall m | m != n :: !Touches(s, a, StageId(g, m))
  {
    n := ROOT;
    if m :| Touches(s, a, StageId(g, m)) {
      n := m;
    }
  }

  /** The other workers are as before, and this one only if it was not started. */
  lemma OneWorker(top: Graph, s: State, a: Step, g: seq<Name>) returns (n: Name)
    requires Inv(top, s) && Enabled(top, s, a) && LoopStepOf(a, g)
    ensures forall m | m != n :: WorkerOf(Apply(top, s, a), StageId(g, m)) == WorkerOf(s, StageId(g, m))
    ensures n in NodesAt(top, g) && SameStatuses(top, s, Apply(top, s, a), g) ==>
              WorkerOf(Apply(top, s, a), StageId(g, n)) == WorkerOf(s, StageId(g, n))
  {
    n := TouchedStage(s, a, g);
    InvAtLoop(top, s, g);
    WorkerStartsRunning(top, s, a, g, n);
    hide Inv, Apply, Enabled, Touches, LoopInv, NodesAt;
    forall m | m != n ensures WorkerOf(Apply(top, s, a), StageId(g, m)) == WorkerOf(s, StageId(g, m)) {
      OthersUntouched(top, s, a, StageId(g, m));
    }
  }

  lemma AtMostFive(w: Worker)
    ensures WorkLeft(w) <= 5
  {
  }

  /** Only a decision to start a stage makes work for a worker. */
  lemma LoopStepWork(top: Graph, s: State, a: Step, g: seq<Name>)
    requires Inv(top, s) && Enabled(top, s, a) && LoopStepOf(a, g)
    ensures var t := Apply(top, s, a);
            WorkAll(top, t, g) <= WorkAll(top, s, g) + if SameStatuses(top, s, t, g) then 0 else 5
  {
    var t := Apply(top, s, a);
    var n := OneWorker(top, s, a, g);
    hide *;
    if SameStatuses(top, s, t, g) {
      WorkersSame(top, s, t, g, n);
    } else {
      OneMoreWorker(top, s, t, g, n);
    }
  }

  lemma WorkersSame(top: Graph, s: State, t: State, g: seq<Name>, n: Name)
    requires forall m | m != n :: WorkerOf(t, StageId(g, m)) == WorkerOf(s, StageId(g, m))
    requires n in NodesAt(top, g) ==> WorkerOf(t, StageId(g, n)) == WorkerOf(s, StageId(g, n))
    ensures WorkAll(top, t, g) <= WorkAll(top, s, g)
  {
    hide NodesAt, WorkerOf, WorkLeft;
    SumFalls(NodesAt(top, g), n => WorkLeft(WorkerOf(s, StageId(g, n))), n => WorkLeft(WorkerOf(t, StageId(g, n))));
  }

  lemma OneMoreWorker(top: Graph, s: State, t: State, g: seq<Name>, n: Name)
    requires forall m | m != n :: WorkerOf(t, StageId(g, m)) == WorkerOf(s, StageId(g, m))
    ensures WorkAll(top, t, g) <= WorkAll(top, s, g) + 5
  {
    AtMostFive(WorkerOf(t, StageId(g, n)));
    hide NodesAt, WorkerOf, WorkLeft;
    var f, h := m => WorkLeft(WorkerOf(s, StageId(g, m))), m => WorkLeft(WorkerOf(t, StageId(g, m)));
    SumGrows(NodesAt(top, g), f, h, n, 5);
  }

  // ----- all graphs together

  /** The paths of all graphs of a tree. */
  ghost function Graphs(g: Graph): set<seq<Name>> {
    {[]} + set n, p | n in g.nodes && g.nodes[n].body.Nested? && p in Graphs(g.nodes[n].body.graph) :: [n] + p
  }

  lemma {:induction false} GraphsAre(g: Graph, p: seq<Name>)
    ensures p in Graphs(g) <==> GraphAt(g, p).Some?
    decreases |p|
  {
    if p != [] {
      assert p == [p[0]] + p[1..];
      if p[0] in g.nodes && g.nodes[p[0]].body.Nested? {
        GraphsAre(g.nodes[p[0]].body.graph, p[1..]);
      }
      if p in Graphs(g) {
        var n, q :| n in g.nodes && g.nodes[n].body.Nested? && q in Graphs(g.nodes[n].body.graph) && p == [n] + q;
        assert q == p[1..];
      }
    }
  }

  lemma {:induction false} AllWellBuilt(g: Graph, p: seq<Name>)
    requires DeepWellBuilt(g) && GraphAt(g, p).Some?
    ensures WellBuilt(GraphAt(g, p).value)
    decreases |p|
  {
    if p != [] {
      AllWellBuilt(g.nodes[p[0]].body.graph, p[1..]);
    }
  }

  ghost function TotalWork(top: Graph, s: State): nat {
    Sum(Graphs(top), g => Work(top, s, g))
  }

  /** The graph that a step is about. */
  function GraphOfStep(a: Step): seq<Name> {
    if WorkerGraph(a).Some? then WorkerGraph(a).value else if Moves(a).Some? then Moves(a).value else []
  }

  lemma GraphIsThere(top: Graph, s: State, a: Step)
    requires Inv(top, s) && Enabled(top, s, a)
    ensures GraphAt(top, GraphOfStep(a)).Some?
  {
    if WorkerGraph(a).Some? {
      var x := WorkerOfStep(top, s, a);
      InvAt(top, s, x);
    } else {
      InvAtLoop(top, s, GraphOfStep(a));
    }
  }

  lemma WorkerOfStep(top: Graph, s: State, a: Step) returns (x: StageId)
    requires Enabled(top, s, a) && WorkerGraph(a).Some?
    ensures WorkerStepOf(top, a, x) && x.graph == WorkerGraph(a).value && WorkerOf(s, x) != Idle
  {
    hide GraphAt, NodesAt;
    x := match a
      case ScheduleNested(y) => y
      case TaskReturns(y, _) => y
      case NestedReturns(y) => y
      case StoreResult(y) => y
      case RecordError(y) => y
      case Finish(y) => y;
  }

  lemma OnlyTheTop(a: Step)
    requires !a.Interrupt? && !LoopStepOf(a, GraphOfStep(a)) && WorkerGraph(a) != Some(GraphOfStep(a))
    ensures a == ScheduleTop && GraphOfStep(a) == []
  {
  }

  lemma StartPays(top: Graph, s: State)
    requires Inv(top, s) && Enabled(top, s, ScheduleTop) && WellBuilt(top)
    ensures Work(top, Apply(top, s, ScheduleTop), []) < Work(top, s, [])
  {
    var t := Apply(top, s, ScheduleTop);
    StepAdvances(top, s, ScheduleTop, []);
    ElsewhereUntouched(top, s, ScheduleTop, []);
    UntouchedWork(top, s, t, []);
    NothingStarted(top, s);
    FreshLoop(top, s, t);
    LoopWorkBound(top, t, []);
    hide Inv, Apply, Enabled, WorkAll, Work, StepsLeft, MostSteps, NodesAt, NothingLive;
    ChangePays(top, s, t, []);
  }

  lemma NothingStarted(top: Graph, s: State)
    requires Inv(top, s) && LoopOf(s, []) == Off
    ensures NothingLive(top, s, [])
  {
    forall n | n in NodesAt(top, []) ensures Quiet(WorkerOf(s, StageId([], n))) {
      InvAt(top, s, StageId([], n));
    }
  }

  lemma FreshLoop(top: Graph, s: State, t: State)
    requires Enabled(top, s, ScheduleTop) && t == Apply(top, s, ScheduleTop) && NothingLive(top, t, [])
    ensures LoopWork(top, t, []) < LoopWork(top, s, [])
  {
    hide NodesAt, NothingLive, AllLeft, Visits;
  }

  /** No step adds work to a graph, and one that counts takes some from the graph it is about. */
  lemma StepPays(top: Graph, s: State, a: Step, g: seq<Name>)
    requires Inv(top, s) && Enabled(top, s, a) && Calm(a) && DeepWellBuilt(top) && GraphAt(top, g).Some?
    ensures Work(top, Apply(top, s, a), g) <= Work(top, s, g)
    ensures Counts(top, s, a) && g == GraphOfStep(a) ==> Work(top, Apply(top, s, a), g) < Work(top, s, g)
  {
    AllWellBuilt(top, g);
    assert WellBuilt(top);
    hide Inv, Apply, Enabled, GraphAt, WellBuilt, DeepWellBuilt, Work, NothingLive, LoopStepOf, WorkerGraph,
         GraphOfStep;
    if LoopStepOf(a, g) {
      LoopStepPays(top, s, a, g);
    } else if WorkerGraph(a) == Some(g) {
      var x := WorkerOfStep(top, s, a);
      WorkerStepPays(top, s, a, x);
    } else {
      ElsewhereCostsNothing(top, s, a, g);
      if Counts(top, s, a) && g == GraphOfStep(a) {
        OnlyTheTop(a);
        StartPays(top, s);
      }
    }
  }

  lemma TotalFalls(top: Graph, s: State, a: Step)
    requires Inv(top, s) && Enabled(top, s, a) && Calm(a) && DeepWellBuilt(top)
    ensures TotalWork(top, Apply(top, s, a)) <= TotalWork(top, s)
    ensures Counts(top, s, a) ==> TotalWork(top, Apply(top, s, a)) < TotalWork(top, s)
  {
    var t, here := Apply(top, s, a), GraphOfStep(a);
    GraphIsThere(top, s, a);
    GraphsAre(top, here);
    forall g | g in Graphs(top)
      ensures Work(top, t, g) <= Work(top, s, g)
      ensures Counts(top, s, a) && g == here ==> Work(top, t, g) < Work(top, s, g)
    {
      hide *;
      GraphsAre(top, g);
      StepPays(top, s, a, g);
    }
    TotalsFall(top, s, t);
    hide Inv, Apply, Enabled, GraphAt, DeepWellBuilt, Work, Graphs, Counts, GraphOfStep, TotalWork;
  }

  lemma TotalsFall(top: Graph, s: State, t: State)
    requires forall g | g in Graphs(top) :: Work(top, t, g) <= Work(top, s, g)
    ensures TotalWork(top, t) <= TotalWork(top, s)
    ensures (exists g :: g in Graphs(top) && Work(top, t, g) < Work(top, s, g)) ==>
              TotalWork(top, t) < TotalWork(top, s)
  {
    hide Work, Graphs;
    SumFalls(Graphs(top), g => Work(top, s, g), g => Work(top, t, g));
  }

  /** The steps of a run that count. */
  ghost function Counted(top: Graph, s: State, steps: seq<Step>, t: State): nat
    requires Run(top, s, steps, t)
    decreases |steps|
  {
    if steps == [] then 0
    else (if Counts(top, s, steps[0]) then 1 else 0) + Counted(top, Apply(top, s, steps[0]), steps[1..], t)
  }

  lemma {:induction false} CountedIsSpent(top: Graph, s: State, steps: seq<Step>, t: State)
    requires Inv(top, s) && Run(top, s, steps, t) && AllCalm(steps) && DeepWellBuilt(top)
    ensures Counted(top, s, steps, t) + TotalWork(top, t) <= TotalWork(top, s)
    decreases |steps|
  {
    if steps != [] {
      StepKeeps(top, s, steps[0]);
      assert steps[0] in steps && forall b | b in steps[1..] :: b in steps;
      TotalFalls(top, s, steps[0]);
      hide Inv, TotalWork, Counts, DeepWellBuilt, Enabled, Apply;
      CountedIsSpent(top, Apply(top, s, steps[0]), steps[1..], t);
    }
  }

  /** What there is to do in a graph of k stages at most. */
  ghost function MostWork(k: nat): nat {
    Worth(Price(k), 3 * k) + 5 * k + 2 * MostSteps(k) + 1
  }

  ghost function MostWorkIn(top: Graph): nat {
    Sum(Graphs(top), g => MostWork(|NodesAt(top, g)|))
  }

  lemma WorkBound(top: Graph, s: State, g: seq<Name>)
    requires Inv(top, s) && GraphAt(top, g).Some? && WellBuilt(GraphAt(top, g).value)
    ensures Work(top, s, g) <= MostWork(|NodesAt(top, g)|)
  {
    var k := |NodesAt(top, g)|;
    LoopWorkBound(top, s, g);
    RemainingBound(s, g, NodesAt(top, g));
    Priced(Price(k), RemainingAll(s, g, NodesAt(top, g)), 3 * k);
    hide Inv, GraphAt, WellBuilt, NodesAt, RemainingAll, LoopWork, MostSteps, Worth;
    forall n ensures WorkLeft(WorkerOf(s, StageId(g, n))) <= 5 { AtMostFive(WorkerOf(s, StageId(g, n))); }
    SumBound(NodesAt(top, g), n => WorkLeft(WorkerOf(s, StageId(g, n))), 5);
  }

  lemma {:induction false} SumBound<T>(names: set<T>, f: T -> nat, most: nat)
    requires forall n | n in names :: f(n) <= most
    ensures Sum(names, f) <= most * |names|
    decreases |names|
  {
    if names != {} {
      var n :| n in names;
      SumPick(names, f, n);
      SumBound(names - {n}, f, most);
      assert most * |names| == most * (|names| - 1) + most;
    }
  }

  /** What is left to do after a run, and the steps of it that count, keep within the bound. */
  lemma WithinBound(top: Graph, s: State, steps: seq<Step>, t: State)
    requires Reachable(top, s) && Run(top, s, steps, t) && AllCalm(steps) && DeepWellBuilt(top)
    ensures Counted(top, s, steps, t) + TotalWork(top, t) <= MostWorkIn(top)
  {
    ReachableInv(top, s);
    CountedIsSpent(top, s, steps, t);
    hide Inv, Reachable, DeepWellBuilt, Run, Counted, Work, GraphAt, Graphs, MostWork;
    forall g | g in Graphs(top) ensures Work(top, s, g) <= MostWork(|NodesAt(top, g)|) {
      GraphsAre(top, g);
      AllWellBuilt(top, g);
      WorkBound(top, s, g);
    }
    SumFalls(Graphs(top), g => MostWork(|NodesAt(top, g)|), g => Work(top, s, g));
  }

  /**
    In any run without an interrupt and with all conditions evaluated, whatever loops and workers
    do, the steps that count are bounded by a number that depends on the pipeline only.
   */
  lemma RunsAreBounded(top: Graph, s: State, steps: seq<Step>, t: State)
    requires Reachable(top, s) && Run(top, s, steps, t) && AllCalm(steps) && DeepWellBuilt(top)
    ensures Counted(top, s, steps, t) <= MostWorkIn(top)
  {
    WithinBound(top, s, steps, t);
  }

  /**
    Every run ends: one that has taken that many steps that count has returned, and until it has
    returned some such step is possible.  So it ends if no such step is put off forever.
   */
  lemma RunsEnd(top: Graph, s: State, steps: seq<Step>, t: State)
    requires Reachable(top, s) && Run(top, s, steps, t) && AllCalm(steps) && DeepWellBuilt(top)
    ensures Counted(top, s, steps, t) >= MostWorkIn(top) ==> LoopOf(t, []).Returned?
    ensures !LoopOf(t, []).Returned? ==> exists a :: Enabled(top, t, a) && Calm(a) && Counts(top, t, a)
  {
    ReachableInv(top, s);
    RunKeeps(top, s, steps, t);
    if !LoopOf(t, []).Returned? {
      var a := ScheduleTop;
      if LoopOf(t, []) != Off {
        a := NeverStuck(top, t, []);
      }
      var u := Apply(top, t, a);
      StepKeeps(top, t, a);
      TotalFalls(top, t, a);
      hide Inv, Reachable, DeepWellBuilt, Run, Counted, TotalWork, Apply;
      WithinBound(top, s, steps, t);
    }
  }
}
