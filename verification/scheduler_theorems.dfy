/**
  What holds of every run of the scheduler: which statuses are final, that nothing runs after a
  return, why stages get cancelled, and that sweeps make progress.
 */
module ScheduleTheorems {
  import opened Digraph
  import opened Stages
  import opened WellBuiltGraphs
  import opened Schedules
  import opened ScheduleSafety

  lemma {:induction false} RunGoesForward(top: Graph, s: State, steps: seq<Step>, t: State, x: StageId)
    requires Inv(top, s) && Run(top, s, steps, t)
    ensures StatusOf(s, x) in {Done, Skipped, Canceled} ==> StatusOf(t, x) == StatusOf(s, x)
    ensures StatusOf(s, x) == Failed && !Allows(top, x) ==> StatusOf(t, x) == Failed
    ensures Passing(top, s, x) ==> Passing(top, t, x)
    ensures Left(s, x) ==> Left(t, x)
    ensures StatusOf(t, x) == Waiting ==> StatusOf(s, x) == Waiting
    decreases |steps|
  {
    if steps != [] {
      var u := Apply(top, s, steps[0]);
      StepKeeps(top, s, steps[0]);
      StatusMovesForward(top, s, steps[0], x);
      hide Inv;
      RunGoesForward(top, u, steps[1..], t, x);
    }
  }

  /** Done, skipped, cancelled and unforgiven failures are final. */
  lemma FinalStatusesStay(top: Graph, s: State, steps: seq<Step>, t: State, x: StageId)
    requires Reachable(top, s) && Run(top, s, steps, t)
    ensures StatusOf(s, x) in {Done, Skipped, Canceled} ==> StatusOf(t, x) == StatusOf(s, x)
    ensures StatusOf(s, x) == Failed && !Allows(top, x) ==> StatusOf(t, x) == Failed
    ensures Passing(top, s, x) ==> Passing(top, t, x)
  {
    ReachableInv(top, s);
    RunGoesForward(top, s, steps, t, x);
  }

  /** When the run of a graph returns, no stage in it or nested in it is running, cancelled run or not. */
  lemma NothingRunsAfterReturn(top: Graph, s: State, x: StageId, g: seq<Name>)
    requires Reachable(top, s) && LoopOf(s, g).Returned? && g <= x.graph
    ensures StatusOf(s, x) != Running && Quiet(WorkerOf(s, x))
  {
    ReachableInv(top, s);
    InvAt(top, s, x);
    if !Quiet(WorkerOf(s, x)) {
      ActiveAbove(top, s, g, x.graph);
    }
  }

  /** In an uncancelled run the stages of a graph that has returned have all left. */
  lemma ReturnedIsDecided(top: Graph, s: State, x: StageId)
    requires Reachable(top, s) && LoopOf(s, x.graph).Returned? && !s.cancelled
    requires IsStage(top, x) && x.name != ROOT
    ensures StatusOf(s, x) in {Done, Skipped, Canceled, Failed}
  {
    ReachableInv(top, s);
    InvAtLoop(top, s, x.graph);
    assert Left(s, x);
  }

  /** A walk along dependencies on which every stage but the first was cancelled. */
  ghost predicate CancelChain(s: State, g: seq<Name>, children: Adjacency, p: seq<Name>) {
    && IsWalk(children, p)
    && forall i | 0 < i < |p| :: StatusOf(s, StageId(g, p[i])) == Canceled
  }

  lemma ExtendChain(s: State, g: seq<Name>, children: Adjacency, up: seq<Name>, n: Name)
    requires CancelChain(s, g, children, up)
    requires Edge(children, up[|up| - 1], n) && StatusOf(s, StageId(g, n)) == Canceled
    ensures CancelChain(s, g, children, up + [n])
  {
  }

  /** The parent to blame for a cancelled stage. */
  lemma BlockedParent(top: Graph, s: State, g: seq<Name>, gr: Graph, n: Name) returns (p: Name)
    requires StatusInv(top, s, StageId(g, n)) && StatusOf(s, StageId(g, n)) == Canceled
    requires GraphAt(top, g) == Some(gr) && WellBuilt(gr)
    ensures Blocking(top, s, StageId(g, p)) && Edge(gr.children, p, n)
    ensures |Descendants(gr.children, n)| < |Descendants(gr.children, p)| <= |Vertices(gr.children)|
  {
    p :| p in ParentsAt(top, g, n) && Blocking(top, s, StageId(g, p));
    WellBuiltParent(gr, n, p);
    DescendantsShrink(gr.children, p, n);
    DescendantsBound(gr.children, p);
  }

  /** Following blocked parents from a cancelled stage always ends at a stage that failed without leave. */
  lemma {:induction false} CancellationHasACause(top: Graph, s: State, g: seq<Name>, gr: Graph, n: Name)
    returns (chain: seq<Name>)
    requires Reachable(top, s) && GraphAt(top, g) == Some(gr) && WellBuilt(gr)
    requires StatusOf(s, StageId(g, n)) == Canceled
    ensures |chain| > 1 && CancelChain(s, g, gr.children, chain) && chain[|chain| - 1] == n
    ensures StatusOf(s, StageId(g, chain[0])) == Failed && !Allows(top, StageId(g, chain[0]))
    decreases |Vertices(gr.children)| - |Descendants(gr.children, n)|
  {
    ReachableInv(top, s);
    InvAt(top, s, StageId(g, n));
    hide Inv, Reachable, StatusInv, GraphAt, WellBuilt, Descendants, Vertices, Allows, CancelChain, IsWalk;
    var p := BlockedParent(top, s, g, gr, n);
    if StatusOf(s, StageId(g, p)) == Canceled {
      var up := CancellationHasACause(top, s, g, gr, p);
      ExtendChain(s, g, gr.children, up, n);
      chain := up + [n];
    } else {
      chain := [p, n];
      ShortChain(s, g, gr.children, p, n);
    }
  }

  lemma ShortChain(s: State, g: seq<Name>, children: Adjacency, p: Name, n: Name)
    requires Edge(children, p, n) && StatusOf(s, StageId(g, n)) == Canceled
    ensures CancelChain(s, g, children, [p, n])
  {
  }

  // ----- progress

  /** A waiting stage that the sweep under way has still to decide, if it does not leave on the way. */
  ghost predicate Pending(s: State, g: seq<Name>, m: Name) {
    || StatusOf(s, StageId(g, m)) != Waiting
    || match LoopOf(s, g)
       case Sweeping(rest) => m in rest
       case Testing(rest, n) => m in rest || n == m
       case ConditionBroke(rest, _) => m in rest
       case Checking(rest, n, _, ready) => m in rest || (n == m && ready)
       case _ => false
  }

  ghost predicate ParentsLeft(top: Graph, s: State, g: seq<Name>, m: Name) {
    forall p | p in ParentsAt(top, g, m) :: Left(s, StageId(g, p))
  }

  lemma VisitKeepsPending(top: Graph, s: State, g: seq<Name>, k: Name, m: Name)
    requires Enabled(top, s, Visit(g, k)) && Pending(s, g, m)
    ensures Pending(VisitStep(top, s, g, k), g, m)
  {
    hide GraphAt;
  }

  lemma TestKeepsPending(top: Graph, s: State, g: seq<Name>, result: ConditionResult, m: Name)
    requires LoopOf(s, g).Testing? && Pending(s, g, m)
    ensures Pending(TestStep(top, s, g, result), g, m)
  {
    hide GraphAt;
  }

  lemma ReadKeepsPending(top: Graph, s: State, g: seq<Name>, p: Name, m: Name)
    requires Enabled(top, s, ReadParent(g, p)) && LoopInv(top, s, g) && ParentsLeft(top, s, g, m) && Pending(s, g, m)
    ensures Pending(ReadParentStep(top, s, g, p), g, m)
  {
    hide ParentsPass, GraphAt, ReadParentStep;
    var l, t := LoopOf(s, g), ReadParentStep(top, s, g, p);
    ReadEffect(top, s, g, p);
    if l.stage == m {
      assert Left(s, StageId(g, p));
      hide ParentsLeft, LoopInv;
    }
  }

  lemma DecideKeepsPending(top: Graph, s: State, g: seq<Name>, m: Name)
    requires LoopOf(s, g).Checking? && Pending(s, g, m)
    ensures Pending(DecideStep(s, g), g, m)
  {
  }

  /** The loop a step moves. */
  function Moves(a: Step): Option<seq<Name>> {
    match a
    case ScheduleTop => Some([])
    case Poll(g, _) => Some(g)
    case PollEnd(g) => Some(g)
    case ReadCancelled(g) => Some(g)
    case Visit(g, _) => Some(g)
    case SweepEnd(g) => Some(g)
    case TestCondition(g, _) => Some(g)
    case CancelRun(g) => Some(g)
    case ReadParent(g, _) => Some(g)
    case Decide(g) => Some(g)
    case WaitEnd(g) => Some(g)
    case ScheduleNested(x) => Some(Child(x))
    case _ => None
  }

  lemma OtherLoopsStay(top: Graph, s: State, a: Step, g: seq<Name>)
    requires Enabled(top, s, a) && Moves(a) != Some(g)
    ensures LoopOf(Apply(top, s, a), g) == LoopOf(s, g)
  {
    hide GraphAt, StatusOf, WorkerOf, Passing, Blocking, NodesAt, ParentsAt, HasCondition, Allows, IsNested,
         ErrorsOf, Quiet;
    hide PollStep, VisitStep, TestStep, ReadParentStep, DecideStep;
    if a.Poll? || a.Visit? {
      LongStepStays(top, s, a.g, a.n, Met, g);
    } else if a.TestCondition? {
      LongStepStays(top, s, a.g, "", a.result, g);
    } else if a.ReadParent? {
      LongStepStays(top, s, a.g, a.p, Met, g);
    } else if a.Decide? {
      LongStepStays(top, s, a.g, "", Met, g);
    }
  }

  lemma LongStepStays(top: Graph, s: State, h: seq<Name>, n: Name, result: ConditionResult, g: seq<Name>)
    requires g != h
    ensures LoopOf(s, h).Polling? ==> LoopOf(PollStep(s, h, n), g) == LoopOf(s, g)
    ensures LoopOf(s, h).Sweeping? ==> LoopOf(VisitStep(top, s, h, n), g) == LoopOf(s, g)
    ensures LoopOf(s, h).Testing? ==> LoopOf(TestStep(top, s, h, result), g) == LoopOf(s, g)
    ensures LoopOf(s, h).Checking? ==>
              LoopOf(ReadParentStep(top, s, h, n), g) == LoopOf(s, g) && LoopOf(DecideStep(s, h), g) == LoopOf(s, g)
  {
    hide GraphAt, StatusOf, Passing, Blocking, NodesAt, ParentsAt, HasCondition;
  }

  /** No step lets a stage slip that is still to be decided in this sweep and whose parents have all left. */
  lemma StepKeepsPending(top: Graph, s: State, a: Step, g: seq<Name>, m: Name)
    requires Inv(top, s) && Enabled(top, s, a) && ParentsLeft(top, s, g, m) && Pending(s, g, m)
    ensures Pending(Apply(top, s, a), g, m)
  {
    StatusMovesForward(top, s, a, StageId(g, m));
    if StatusOf(s, StageId(g, m)) == Waiting {
      if a.ScheduleNested? && Child(a.x) == g {
        InvAt(top, s, a.x);
      } else if Moves(a) == Some(g) {
        MoveKeepsPending(top, s, a, g, m);
      } else {
        OtherLoopsStay(top, s, a, g);
      }
    }
  }

  lemma MoveKeepsPending(top: Graph, s: State, a: Step, g: seq<Name>, m: Name)
    requires Inv(top, s) && Enabled(top, s, a) && ParentsLeft(top, s, g, m) && Pending(s, g, m)
    requires Moves(a) == Some(g) && !a.ScheduleNested? && StatusOf(s, StageId(g, m)) == Waiting
    ensures Pending(Apply(top, s, a), g, m)
  {
    InvAtLoop(top, s, g);
    hide Inv, ParentsLeft, VisitStep, TestStep, ReadParentStep, DecideStep, LoopInv, StartInv, StatusInv;
    hide NodesAt, ParentsAt, HasCondition, Allows, Passing, Blocking, ErrorsOf;
    match a
    case Visit(_, k) => VisitKeepsPending(top, s, g, k, m);
    case TestCondition(_, result) => TestKeepsPending(top, s, g, result, m);
    case ReadParent(_, p) => ReadKeepsPending(top, s, g, p, m);
    case Decide(_) => DecideKeepsPending(top, s, g, m);
    case _ =>
  }

  lemma {:induction false} RunKeepsPending(top: Graph, s: State, steps: seq<Step>, t: State, g: seq<Name>, m: Name)
    requires Inv(top, s) && Run(top, s, steps, t) && ParentsLeft(top, s, g, m) && Pending(s, g, m)
    ensures Pending(t, g, m)
    decreases |steps|
  {
    if steps != [] {
      var u := Apply(top, s, steps[0]);
      StepKeepsPending(top, s, steps[0], g, m);
      StepKeeps(top, s, steps[0]);
      forall p { VerdictsLast(top, s, steps[0], StageId(g, p)); }
      hide Inv, Pending, Left;
      RunKeepsPending(top, u, steps[1..], t, g, m);
    }
  }

  predicate InSweep(l: Loop) {
    (l.Sweeping? && l.rest != {}) || l.Testing? || l.ConditionBroke? || l.Checking?
  }

  /** A whole sweep decides every stage whose parents had left when it began, whatever runs beside it. */
  lemma SweepDecides(top: Graph, s: State, steps: seq<Step>, t: State, g: seq<Name>, m: Name)
    requires Inv(top, s) && Run(top, s, steps, t)
    requires LoopOf(s, g) == Sweeping(NodesAt(top, g)) && m in NodesAt(top, g) && ParentsLeft(top, s, g, m)
    requires !InSweep(LoopOf(t, g))
    ensures StatusOf(t, StageId(g, m)) != Waiting
  {
    assert Pending(s, g, m);
    hide ParentsLeft, Inv;
    RunKeepsPending(top, s, steps, t, g, m);
  }

  /** With no cycle and every dependency present, some waiting stage has no waiting parent. */
  lemma {:induction false} FirstWaiting(top: Graph, s: State, g: seq<Name>, n: Name) returns (m: Name)
    requires GraphAt(top, g).Some? && WellBuilt(GraphAt(top, g).value)
    requires n in NodesAt(top, g) && StatusOf(s, StageId(g, n)) == Waiting
    requires forall k | k in NodesAt(top, g) :: StatusOf(s, StageId(g, k)) != Running
    ensures m in NodesAt(top, g) && StatusOf(s, StageId(g, m)) == Waiting && ParentsLeft(top, s, g, m)
    decreases |Vertices(GraphAt(top, g).value.children)| - |Descendants(GraphAt(top, g).value.children, n)|
  {
    if p :| p in ParentsAt(top, g, n) && StatusOf(s, StageId(g, p)) == Waiting {
      var gr := GraphAt(top, g).value;
      WellBuiltParent(gr, n, p);
      DescendantsShrink(gr.children, p, n);
      DescendantsBound(gr.children, p);
      hide GraphAt, WellBuilt, Descendants, Vertices, Acyclic;
      m := FirstWaiting(top, s, g, p);
    } else {
      m := n;
      var gr := GraphAt(top, g).value;
      forall p | p in ParentsAt(top, g, n) ensures Left(s, StageId(g, p)) {
        WellBuiltParent(gr, n, p);
      }
    }
  }

  lemma WellBuiltParent(g: Graph, n: Name, p: Name)
    requires WellBuilt(g) && p in Succ(g.parent, n)
    ensures p in g.nodes && Edge(g.children, p, n) && Acyclic(g.children)
  {
    InverseEdges(g.parent, g.children, p, n);
  }

  /**
    Progress: when a sweep begins with a waiting stage and no running one, then by its end some
    stage that was waiting no longer is.
   */
  lemma SweepIsProductive(top: Graph, s: State, steps: seq<Step>, t: State, g: seq<Name>, n: Name) returns (m: Name)
    requires Reachable(top, s) && Run(top, s, steps, t)
    requires GraphAt(top, g).Some? && WellBuilt(GraphAt(top, g).value)
    requires LoopOf(s, g) == Sweeping(NodesAt(top, g)) && !InSweep(LoopOf(t, g))
    requires n in NodesAt(top, g) && StatusOf(s, StageId(g, n)) == Waiting
    requires forall k | k in NodesAt(top, g) :: StatusOf(s, StageId(g, k)) != Running
    ensures m in NodesAt(top, g) && StatusOf(s, StageId(g, m)) == Waiting && StatusOf(t, StageId(g, m)) != Waiting
  {
    ReachableInv(top, s);
    m := FirstWaiting(top, s, g, n);
    SweepDecides(top, s, steps, t, g, m);
  }

  /** How many times a status can still change. */
  function Remaining(st: Status): nat {
    match st
    case Waiting => 3
    case Running => 2
    case Failed => 1
    case _ => 0
  }

  ghost function RemainingAll(s: State, g: seq<Name>, names: set<Name>): nat {
    if names == {} then 0
    else var n :| n in names; Remaining(StatusOf(s, StageId(g, n))) + RemainingAll(s, g, names - {n})
  }

  /** The sum over some names, with one of them taken first. */
  ghost predicate Splits(s: State, g: seq<Name>, names: set<Name>, n: Name) {
    RemainingAll(s, g, names) == Remaining(StatusOf(s, StageId(g, n))) + RemainingAll(s, g, names - {n})
  }

  lemma SomeSplit(s: State, g: seq<Name>, names: set<Name>) returns (n: Name)
    requires names != {}
    ensures n in names && Splits(s, g, names, n)
  {
    n :| n in names &&
         RemainingAll(s, g, names) == Remaining(StatusOf(s, StageId(g, n))) + RemainingAll(s, g, names - {n});
  }

  lemma {:induction false} RemainingBound(s: State, g: seq<Name>, names: set<Name>)
    ensures RemainingAll(s, g, names) <= 3 * |names|
    decreases |names|
  {
    if names != {} {
      var n := SomeSplit(s, g, names);
      RemainingBound(s, g, names - {n});
      assert |names - {n}| == |names| - 1;
      assert Remaining(StatusOf(s, StageId(g, n))) <= 3;
      assert RemainingAll(s, g, names - {n}) <= 3 * |names - {n}|;
    }
  }

  lemma {:induction false} RemainingFalls(s: State, t: State, g: seq<Name>, names: set<Name>)
    requires forall n | n in names :: Remaining(StatusOf(t, StageId(g, n))) <= Remaining(StatusOf(s, StageId(g, n)))
    ensures RemainingAll(t, g, names) <= RemainingAll(s, g, names)
    ensures (exists n :: n in names && Remaining(StatusOf(t, StageId(g, n))) < Remaining(StatusOf(s, StageId(g, n))))
            ==> RemainingAll(t, g, names) < RemainingAll(s, g, names)
    decreases |names|
  {
    if names != {} {
      var n := SomeSplit(s, g, names);
      RemainingPick(t, g, names, n);
      RemainingFalls(s, t, g, names - {n});
    }
  }

  /** The sum does not depend on the order in which the names are taken. */
  lemma {:induction false} RemainingPick(s: State, g: seq<Name>, names: set<Name>, n: Name)
    requires n in names
    ensures RemainingAll(s, g, names) == Remaining(StatusOf(s, StageId(g, n))) + RemainingAll(s, g, names - {n})
    decreases |names|
  {
    var k := SomeSplit(s, g, names);
    if k != n {
      RemainingPick(s, g, names - {k}, n);
      RemainingPick(s, g, names - {n}, k);
      assert names - {k} - {n} == names - {n} - {k};
    }
  }

  lemma {:induction false} RunOnlyAdvances(top: Graph, s: State, steps: seq<Step>, t: State, x: StageId)
    requires Inv(top, s) && Run(top, s, steps, t)
    ensures Remaining(StatusOf(t, x)) <= Remaining(StatusOf(s, x))
    ensures StatusOf(t, x) != StatusOf(s, x) ==> Remaining(StatusOf(t, x)) < Remaining(StatusOf(s, x))
    decreases |steps|
  {
    if steps != [] {
      StatusMovesForward(top, s, steps[0], x);
      StepKeeps(top, s, steps[0]);
      hide Inv;
      RunOnlyAdvances(top, Apply(top, s, steps[0]), steps[1..], t, x);
    }
  }

  ghost predicate Leads(top: Graph, s: State, t: State) {
    exists steps :: Run(top, s, steps, t)
  }

  /** One state leads to another, and some stage of the graph has a different status there. */
  ghost predicate Changed(top: Graph, g: seq<Name>, s: State, t: State) {
    && Leads(top, s, t)
    && exists n :: n in NodesAt(top, g) && StatusOf(t, StageId(g, n)) != StatusOf(s, StageId(g, n))
  }

  lemma ChangeCosts(top: Graph, g: seq<Name>, s: State, t: State)
    requires Reachable(top, s) && Changed(top, g, s, t)
    ensures RemainingAll(t, g, NodesAt(top, g)) < RemainingAll(s, g, NodesAt(top, g))
  {
    var steps :| Run(top, s, steps, t);
    ReachableInv(top, s);
    forall n { RunOnlyAdvances(top, s, steps, t, StageId(g, n)); }
    RemainingFalls(s, t, g, NodesAt(top, g));
  }

  /** A list of reachable states, each leading to the next with some stage of the graph changed. */
  ghost predicate Milestones(top: Graph, g: seq<Name>, marks: seq<State>) {
    && (forall i | 0 <= i < |marks| :: Reachable(top, marks[i]))
    && forall i | 0 < i < |marks| :: Changed(top, g, marks[i - 1], marks[i])
  }

  /** The statuses of a graph change at most three times per stage: so there are only so many productive sweeps. */
  lemma {:induction false} ChangesAreBounded(top: Graph, g: seq<Name>, marks: seq<State>)
    requires Milestones(top, g, marks) && |marks| > 0
    ensures |marks| - 1 + RemainingAll(marks[|marks| - 1], g, NodesAt(top, g)) <= 3 * |NodesAt(top, g)|
    decreases |marks|
  {
    hide Changed, Reachable, NodesAt;
    var k, names := |marks| - 1, NodesAt(top, g);
    if k == 0 {
      RemainingBound(marks[0], g, names);
    } else {
      assert forall i | 0 <= i < k :: marks[..k][i] == marks[i];
      ChangesAreBounded(top, g, marks[..k]);
      assert Changed(top, g, marks[k - 1], marks[k]);
      ChangeCosts(top, g, marks[k - 1], marks[k]);
    }
  }

  lemma {:induction false} RunsJoin(top: Graph, s: State, p: seq<Step>, t: State, q: seq<Step>, u: State)
    requires Run(top, s, p, t) && Run(top, t, q, u)
    ensures Run(top, s, p + q, u)
    decreases |p|
  {
    hide Enabled, Apply;
    if p == [] {
      assert p + q == q;
    } else {
      RunsJoin(top, Apply(top, s, p[0]), p[1..], t, q, u);
      assert (p + q)[1..] == p[1..] + q;
    }
  }

  /** A whole sweep that begins with a waiting stage and no running one. */
  ghost predicate QuietSweep(top: Graph, g: seq<Name>, s: State, t: State) {
    && Reachable(top, s) && Leads(top, s, t)
    && LoopOf(s, g) == Sweeping(NodesAt(top, g)) && !InSweep(LoopOf(t, g))
    && (exists n :: n in NodesAt(top, g) && StatusOf(s, StageId(g, n)) == Waiting)
    && forall k | k in NodesAt(top, g) :: StatusOf(s, StageId(g, k)) != Running
  }

  lemma SweepThenNext(top: Graph, g: seq<Name>, s: State, t: State, u: State)
    requires GraphAt(top, g).Some? && WellBuilt(GraphAt(top, g).value)
    requires QuietSweep(top, g, s, t) && Leads(top, t, u)
    ensures Changed(top, g, s, u)
  {
    hide WellBuilt, GraphAt;
    var p :| Run(top, s, p, t);
    var q :| Run(top, t, q, u);
    var n :| n in NodesAt(top, g) && StatusOf(s, StageId(g, n)) == Waiting;
    var m := SweepIsProductive(top, s, p, t, g, n);
    ReachableInv(top, s);
    RunKeeps(top, s, p, t);
    RunGoesForward(top, t, q, u, StageId(g, m));
    RunsJoin(top, s, p, t, q, u);
    assert Leads(top, s, u);
  }

  /**
    No run of a graph without a cycle and with every dependency present goes on sweeping a
    graph in which nothing runs: there are at most so many such sweeps, whatever happens in
    between.
   */
  lemma QuietSweepsAreFew(top: Graph, g: seq<Name>, begins: seq<State>, ends: seq<State>)
    requires GraphAt(top, g).Some? && WellBuilt(GraphAt(top, g).value)
    requires |begins| == |ends| && forall i | 0 <= i < |begins| :: QuietSweep(top, g, begins[i], ends[i])
    requires forall i | 0 < i < |begins| :: Leads(top, ends[i - 1], begins[i])
    ensures |begins| <= 3 * |NodesAt(top, g)| + 1
  {
    hide WellBuilt, GraphAt, NodesAt, Leads, LoopOf, InSweep;
    if begins != [] {
      forall i | 0 < i < |begins| ensures Changed(top, g, begins[i - 1], begins[i]) {
        assert QuietSweep(top, g, begins[i - 1], ends[i - 1]);
        SweepThenNext(top, g, begins[i - 1], ends[i - 1], begins[i]);
      }
      forall i | 0 <= i < |begins| ensures Reachable(top, begins[i]) {
        assert QuietSweep(top, g, begins[i], ends[i]);
      }
      ChangesAreBounded(top, g, begins);
    }
  }

}
