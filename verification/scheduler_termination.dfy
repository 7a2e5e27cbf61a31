/**
  That a run ends: no state is stuck, a polling loop with no live worker takes only so many
  steps before a stage changes or it returns, and from every state the run can be completed.
 */
module ScheduleTermination {
  import opened Digraph
  import opened Stages
  import opened WellBuiltGraphs
  import opened Schedules
  import opened ScheduleSafety
  import opened ScheduleTheorems

  /** A step that is neither an interrupt from outside nor a condition that cannot be evaluated. */
  predicate Calm(a: Step) {
    !a.Interrupt? && !(a.TestCondition? && a.result.Broken?)
  }

  /** A step that moves a loop that has been started. */
  predicate LoopStepOf(a: Step, g: seq<Name>) {
    Moves(a) == Some(g) && !a.ScheduleNested? && !a.ScheduleTop?
  }

  ghost predicate NothingLive(top: Graph, s: State, g: seq<Name>) {
    forall n | n in NodesAt(top, g) :: Quiet(WorkerOf(s, StageId(g, n)))
  }

  ghost predicate AllLeft(top: Graph, s: State, g: seq<Name>) {
    forall n | n in NodesAt(top, g) :: Left(s, StageId(g, n))
  }

  predicate Active(s: State, g: seq<Name>) {
    LoopOf(s, g) != Off && !LoopOf(s, g).Returned?
  }

  /** The steps that count: all but those of a loop while a worker of its graph is live, and interrupts. */
  ghost predicate Counts(top: Graph, s: State, a: Step) {
    !a.Interrupt? && forall g | LoopStepOf(a, g) :: NothingLive(top, s, g)
  }

  // ----- no state is stuck

  /** What a polling loop can do next, unless it waits for a worker. */
  lemma NextLoopStep(top: Graph, s: State, g: seq<Name>) returns (a: Step)
    requires Active(s, g) && (LoopOf(s, g) == Draining ==> NothingLive(top, s, g))
    ensures Enabled(top, s, a) && LoopStepOf(a, g) && Calm(a)
  {
    hide GraphAt, NodesAt;
    match LoopOf(s, g)
    case Polling(rest) => if rest == {} { a := PollEnd(g); } else { var n :| n in rest; a := Poll(g, n); }
    case Polled => a := ReadCancelled(g);
    case Sweeping(rest) => if rest == {} { a := SweepEnd(g); } else { var n :| n in rest; a := Visit(g, n); }
    case Testing(_, _) => a := TestCondition(g, Met);
    case ConditionBroke(_, _) => a := CancelRun(g);
    case Checking(_, _, unread, _) =>
      if unread == {} { a := Decide(g); } else { var p :| p in unread; a := ReadParent(g, p); }
    case Draining => a := WaitEnd(g);
  }

  /** What a live worker can do next, unless it waits for the run of its pipeline. */
  lemma NextWorkerStep(top: Graph, s: State, x: StageId) returns (a: Step)
    requires !Quiet(WorkerOf(s, x)) && (WorkerOf(s, x) == InNested ==> LoopOf(s, Child(x)).Returned?)
    ensures Enabled(top, s, a) && Calm(a) && Moves(a) != Some(x.graph)
    ensures WorkerStepOf(top, a, x)
  {
    hide GraphAt;
    match WorkerOf(s, x)
    case Launched => a := if IsNested(top, x) then ScheduleNested(x) else TaskReturns(x, false);
    case InNested => a := NestedReturns(x);
    case Ran(_) => a := StoreResult(x);
    case MarkedFailed => a := RecordError(x);
    case Recorded => a := Finish(x);
  }

  predicate WorkerStepOf(top: Graph, a: Step, x: StageId) {
    match a
    case ScheduleNested(y) => y == x && IsNested(top, x)
    case TaskReturns(y, _) => y == x
    case NestedReturns(y) => y == x
    case StoreResult(y) => y == x
    case RecordError(y) => y == x
    case Finish(y) => y == x
    case _ => false
  }

  /**
    While a graph is being scheduled some step that counts is possible, without an interrupt and
    whatever the conditions.
   */
  lemma {:induction false} NeverStuck(top: Graph, s: State, g: seq<Name>) returns (a: Step)
    requires Inv(top, s) && GraphAt(top, g).Some? && Active(s, g)
    ensures Enabled(top, s, a) && Calm(a) && Counts(top, s, a)
    decreases GraphAt(top, g).value
  {
    if NothingLive(top, s, g) {
      a := NextLoopStep(top, s, g);
    } else {
      var n :| n in NodesAt(top, g) && !Quiet(WorkerOf(s, StageId(g, n)));
      var x := StageId(g, n);
      InvAt(top, s, x);
      if WorkerOf(s, x) == InNested && !LoopOf(s, Child(x)).Returned? {
        NestedBelow(top, s, x);
        a := NeverStuck(top, s, Child(x));
      } else {
        a := NextWorkerStep(top, s, x);
      }
    }
  }

  /** The graph that a worker waits for is a smaller one. */
  lemma NestedBelow(top: Graph, s: State, x: StageId)
    requires Inv(top, s) && !Quiet(WorkerOf(s, x)) && IsNested(top, x)
    ensures GraphAt(top, x.graph).Some? && GraphAt(top, Child(x)).Some?
    ensures GraphAt(top, x.graph).value decreases to GraphAt(top, Child(x)).value
    ensures DeepWellBuilt(GraphAt(top, x.graph).value) ==> DeepWellBuilt(GraphAt(top, Child(x)).value)
  {
    GraphAtSnoc(top, x.graph, x.name);
  }

  // ----- how many steps a loop has left

  predicate SweepLike(l: Loop) {
    l.Sweeping? || l.Testing? || l.ConditionBroke? || l.Checking?
  }

  /** The steps that a number of stages can cost in a sweep over k stages. */
  function Visits(n: nat, k: nat): nat {
    n * (k + 3)
  }

  /** The steps left in a sweep over k stages: for each stage a visit, a test, the reads and the decision. */
  function SweepCost(l: Loop, k: nat): nat
    requires SweepLike(l)
  {
    match l
    case Sweeping(rest) => Visits(|rest|, k) + 1
    case Testing(rest, _) => Visits(|rest|, k) + k + 3
    case ConditionBroke(rest, _) => Visits(|rest|, k) + 2
    case Checking(rest, _, unread, _) => Visits(|rest|, k) + |unread| + 2
  }

  /** A waiting stage that the sweep under way is bound to decide. */
  ghost predicate Due(top: Graph, s: State, g: seq<Name>, m: Name) {
    && m in NodesAt(top, g) && StatusOf(s, StageId(g, m)) == Waiting
    && ParentsLeft(top, s, g, m) && Pending(s, g, m)
  }

  ghost predicate SomeDue(top: Graph, s: State, g: seq<Name>) {
    exists m :: Due(top, s, g, m)
  }

  /** The steps left after a sweep: none are counted past one that is bound to decide a stage. */
  ghost function AfterSweep(top: Graph, s: State, g: seq<Name>): nat {
    var k := |NodesAt(top, g)|;
    if s.cancelled then k + 3
    else if AllLeft(top, s, g) then k + 2
    else if SomeDue(top, s, g) then 0
    else k + Visits(k, k) + 3
  }

  /** The steps left to a loop until it returns, or has decided a stage. */
  ghost function StepsLeft(top: Graph, s: State, g: seq<Name>): nat {
    var l, k := LoopOf(s, g), |NodesAt(top, g)|;
    match l
    case Off => 0
    case Returned(_) => 0
    case Draining => 1
    case Polled =>
      if s.cancelled then 2 else if AllLeft(top, s, g) then Visits(k, k) + k + 4 else Visits(k, k) + 2
    case Polling(rest) =>
      |rest| + if s.cancelled then 3 else if AllLeft(top, s, g) then 2 else Visits(k, k) + 3
    case _ => SweepCost(l, k) + AfterSweep(top, s, g)
  }

  lemma OneLess(rest: set<Name>, n: Name, k: nat)
    requires n in rest
    ensures Visits(|rest - {n}|, k) + k + 3 == Visits(|rest|, k)
  {
    assert |rest - {n}| == |rest| - 1;
    assert (|rest| - 1) * (k + 3) + (k + 3) == |rest| * (k + 3);
  }

  lemma FewParents(top: Graph, g: seq<Name>, n: Name)
    requires GraphAt(top, g).Some? && WellBuilt(GraphAt(top, g).value)
    ensures |ParentsAt(top, g, n)| <= |NodesAt(top, g)|
  {
    forall p | p in ParentsAt(top, g, n) ensures p in NodesAt(top, g) {
      WellBuiltParent(GraphAt(top, g).value, n, p);
    }
    SubsetAtMost(ParentsAt(top, g, n), NodesAt(top, g));
  }

  /** Within a sweep every step brings its end nearer. */
  lemma SweepGoesOn(top: Graph, s: State, a: Step, g: seq<Name>)
    requires GraphAt(top, g).Some? && WellBuilt(GraphAt(top, g).value)
    requires Enabled(top, s, a) && LoopStepOf(a, g) && Calm(a) && SweepLike(LoopOf(s, g)) && !a.SweepEnd?
    ensures var l, k := LoopOf(Apply(top, s, a), g), |NodesAt(top, g)|;
            SweepLike(l) && SweepCost(l, k) < SweepCost(LoopOf(s, g), k)
  {
    hide GraphAt, NodesAt, ParentsAt, WellBuilt, VisitStep, TestStep, ReadParentStep, DecideStep, SweepCost;
    match a
    case Visit(_, n) => VisitGoesOn(top, s, g, n);
    case TestCondition(_, result) => TestGoesOn(top, s, g, result);
    case ReadParent(_, p) => ReadGoesOn(top, s, g, p);
    case Decide(_) => DecideGoesOn(s, g, |NodesAt(top, g)|);
    case CancelRun(_) => BrokenGoesOn(LoopOf(s, g), |NodesAt(top, g)|);
  }

  lemma VisitGoesOn(top: Graph, s: State, g: seq<Name>, n: Name)
    requires GraphAt(top, g).Some? && WellBuilt(GraphAt(top, g).value)
    requires LoopOf(s, g).Sweeping? && n in LoopOf(s, g).rest
    ensures var l, k := LoopOf(VisitStep(top, s, g, n), g), |NodesAt(top, g)|;
            SweepLike(l) && SweepCost(l, k) < SweepCost(LoopOf(s, g), k)
  {
    hide GraphAt, NodesAt, ParentsAt, WellBuilt, StatusOf, HasCondition, Visits;
    FewParents(top, g, n);
    OneLess(LoopOf(s, g).rest, n, |NodesAt(top, g)|);
  }

  lemma TestGoesOn(top: Graph, s: State, g: seq<Name>, result: ConditionResult)
    requires GraphAt(top, g).Some? && WellBuilt(GraphAt(top, g).value)
    requires LoopOf(s, g).Testing? && !result.Broken?
    ensures var l, k := LoopOf(TestStep(top, s, g, result), g), |NodesAt(top, g)|;
            SweepLike(l) && SweepCost(l, k) < SweepCost(LoopOf(s, g), k)
  {
    hide GraphAt, NodesAt, ParentsAt, WellBuilt, Visits;
    FewParents(top, g, LoopOf(s, g).stage);
  }

  lemma ReadGoesOn(top: Graph, s: State, g: seq<Name>, p: Name)
    requires LoopOf(s, g).Checking? && p in LoopOf(s, g).unread
    ensures var l, k := LoopOf(ReadParentStep(top, s, g, p), g), |NodesAt(top, g)|;
            SweepLike(l) && SweepCost(l, k) < SweepCost(LoopOf(s, g), k)
  {
    hide GraphAt, NodesAt, Visits, Passing, Blocking;
    assert |LoopOf(s, g).unread - {p}| == |LoopOf(s, g).unread| - 1;
  }

  lemma DecideGoesOn(s: State, g: seq<Name>, k: nat)
    requires LoopOf(s, g).Checking?
    ensures var l := LoopOf(DecideStep(s, g), g);
            SweepLike(l) && SweepCost(l, k) < SweepCost(LoopOf(s, g), k)
  {
    hide Visits;
  }

  lemma BrokenGoesOn(l: Loop, k: nat)
    requires l.ConditionBroke?
    ensures SweepCost(Sweeping(l.rest), k) < SweepCost(l, k)
  {
    hide Visits;
  }

  /** No stage of a graph has another status. */
  ghost predicate SameStatuses(top: Graph, s: State, t: State, g: seq<Name>) {
    forall n | n in NodesAt(top, g) :: StatusOf(t, StageId(g, n)) == StatusOf(s, StageId(g, n))
  }

  lemma SameAllLeft(top: Graph, s: State, t: State, g: seq<Name>)
    requires SameStatuses(top, s, t, g)
    ensures AllLeft(top, s, g) <==> AllLeft(top, t, g)
  {
    if AllLeft(top, t, g) {
      forall n | n in NodesAt(top, g) ensures Left(s, StageId(g, n)) {
        assert Left(t, StageId(g, n));
      }
    }
    if AllLeft(top, s, g) {
      forall n | n in NodesAt(top, g) ensures Left(t, StageId(g, n)) {
        assert Left(s, StageId(g, n));
      }
    }
  }

  lemma StillDue(top: Graph, s: State, a: Step, g: seq<Name>)
    requires Inv(top, s) && Enabled(top, s, a) && SomeDue(top, s, g)
    requires GraphAt(top, g).Some? && WellBuilt(GraphAt(top, g).value) && SameStatuses(top, s, Apply(top, s, a), g)
    ensures SomeDue(top, Apply(top, s, a), g)
  {
    hide Inv, WellBuilt, GraphAt, Apply;
    var m :| Due(top, s, g, m);
    StepKeepsPending(top, s, a, g, m);
    forall p | p in ParentsAt(top, g, m) ensures Left(Apply(top, s, a), StageId(g, p)) {
      ParentIsNode(top, g, m, p);
      assert Left(s, StageId(g, p));
    }
    assert Due(top, Apply(top, s, a), g, m);
  }

  lemma ParentIsNode(top: Graph, g: seq<Name>, n: Name, p: Name)
    requires GraphAt(top, g).Some? && WellBuilt(GraphAt(top, g).value) && p in ParentsAt(top, g, n)
    ensures p in NodesAt(top, g)
  {
    WellBuiltParent(GraphAt(top, g).value, n, p);
  }

  lemma DueIsSweepLike(top: Graph, s: State, g: seq<Name>)
    requires SomeDue(top, s, g)
    ensures SweepLike(LoopOf(s, g)) && LoopOf(s, g) != Sweeping({}) && !AllLeft(top, s, g)
  {
    hide NodesAt, ParentsLeft;
    var m :| Due(top, s, g, m);
    assert !Left(s, StageId(g, m));
  }

  /** A new sweep finds a stage to decide, if any waits and none runs. */
  lemma NewSweepHasDue(top: Graph, s: State, g: seq<Name>)
    requires Inv(top, s) && NothingLive(top, s, g) && !AllLeft(top, s, g)
    requires GraphAt(top, g).Some? && WellBuilt(GraphAt(top, g).value)
    requires LoopOf(s, g) == Sweeping(NodesAt(top, g))
    ensures SomeDue(top, s, g)
  {
    forall n | n in NodesAt(top, g) ensures StatusOf(s, StageId(g, n)) != Running {
      InvAt(top, s, StageId(g, n));
    }
    hide Inv, WellBuilt, GraphAt;
    var n :| n in NodesAt(top, g) && !Left(s, StageId(g, n));
    var m := FirstWaiting(top, s, g, n);
    assert Due(top, s, g, m);
  }

  /**
    With no live worker in a graph, every step of its loop costs: unless it changes a stage or
    finds the run cancelled, fewer steps are left to the loop afterwards.
   */
  lemma LoopStepSpends(top: Graph, s: State, a: Step, g: seq<Name>)
    requires Inv(top, s) && Enabled(top, s, a) && LoopStepOf(a, g) && Calm(a) && NothingLive(top, s, g)
    requires GraphAt(top, g).Some? && WellBuilt(GraphAt(top, g).value)
    requires SameStatuses(top, s, Apply(top, s, a), g) && Apply(top, s, a).cancelled == s.cancelled
    ensures StepsLeft(top, Apply(top, s, a), g) < StepsLeft(top, s, g)
  {
    SameAllLeft(top, s, Apply(top, s, a), g);
    InvAtLoop(top, s, g);
    hide Inv, GraphAt, WellBuilt, Apply, Enabled, AllLeft, LoopInv, NodesAt, StepsLeft, SomeDue;
    if SweepLike(LoopOf(s, g)) && !a.SweepEnd? {
      SweepStepSpends(top, s, a, g);
    } else if a.ReadCancelled? && !s.cancelled {
      NewSweepSpends(top, s, g);
    } else {
      if SomeDue(top, s, g) {
        DueIsSweepLike(top, s, g);
        EndOfSweep(top, s, a, g);
      }
      PhaseStepSpends(top, s, a, g);
    }
  }

  lemma EndOfSweep(top: Graph, s: State, a: Step, g: seq<Name>)
    requires Enabled(top, s, a) && LoopStepOf(a, g)
    ensures a.SweepEnd? ==> LoopOf(s, g) == Sweeping({})
  {
  }

  lemma SweepStepSpends(top: Graph, s: State, a: Step, g: seq<Name>)
    requires Inv(top, s) && Enabled(top, s, a) && LoopStepOf(a, g) && Calm(a)
    requires GraphAt(top, g).Some? && WellBuilt(GraphAt(top, g).value)
    requires SameStatuses(top, s, Apply(top, s, a), g) && Apply(top, s, a).cancelled == s.cancelled
    requires AllLeft(top, s, g) <==> AllLeft(top, Apply(top, s, a), g)
    requires SweepLike(LoopOf(s, g)) && !a.SweepEnd?
    ensures StepsLeft(top, Apply(top, s, a), g) < StepsLeft(top, s, g)
  {
    hide Inv, GraphAt, WellBuilt, Apply, AllLeft, SomeDue, SweepCost, NodesAt, SameStatuses, AfterSweep, StepsLeft;
    SweepGoesOn(top, s, a, g);
    if SomeDue(top, s, g) {
      StillDue(top, s, a, g);
    }
    AfterSweepSame(top, s, Apply(top, s, a), g);
    CostsAdd(top, s, Apply(top, s, a), g);
  }

  lemma CostsAdd(top: Graph, s: State, t: State, g: seq<Name>)
    requires SweepLike(LoopOf(s, g)) && SweepLike(LoopOf(t, g))
    requires var k := |NodesAt(top, g)|; SweepCost(LoopOf(t, g), k) < SweepCost(LoopOf(s, g), k)
    requires AfterSweep(top, t, g) <= AfterSweep(top, s, g)
    ensures StepsLeft(top, t, g) < StepsLeft(top, s, g)
  {
    hide SweepCost, AfterSweep, NodesAt;
  }

  lemma AfterSweepSame(top: Graph, s: State, t: State, g: seq<Name>)
    requires t.cancelled == s.cancelled && (AllLeft(top, s, g) <==> AllLeft(top, t, g))
    requires SomeDue(top, s, g) ==> SomeDue(top, t, g)
    ensures AfterSweep(top, t, g) <= AfterSweep(top, s, g)
  {
    hide AllLeft, SomeDue, Visits, NodesAt;
  }

  lemma NewSweepSpends(top: Graph, s: State, g: seq<Name>)
    requires Inv(top, s) && LoopOf(s, g) == Polled && NothingLive(top, s, g) && !s.cancelled
    requires GraphAt(top, g).Some? && WellBuilt(GraphAt(top, g).value)
    requires var a := ReadCancelled(g); AllLeft(top, s, g) <==> AllLeft(top, Apply(top, s, a), g)
    ensures StepsLeft(top, Apply(top, s, ReadCancelled(g)), g) < StepsLeft(top, s, g)
  {
    var a := ReadCancelled(g);
    var t := Apply(top, s, a);
    if !AllLeft(top, s, g) {
      StepKeeps(top, s, a);
      assert NothingLive(top, t, g);
      NewSweepHasDue(top, t, g);
    }
    hide Inv, GraphAt, WellBuilt, AllLeft, SomeDue, Visits, NodesAt;
  }

  /** The steps between sweeps. */
  lemma PhaseStepSpends(top: Graph, s: State, a: Step, g: seq<Name>)
    requires Enabled(top, s, a) && LoopStepOf(a, g) && LoopInv(top, s, g)
    requires a.SweepEnd? || (!SweepLike(LoopOf(s, g)) && (a.ReadCancelled? ==> s.cancelled))
    requires AllLeft(top, s, g) <==> AllLeft(top, Apply(top, s, a), g)
    requires !SomeDue(top, s, g) && Apply(top, s, a).cancelled == s.cancelled
    ensures StepsLeft(top, Apply(top, s, a), g) < StepsLeft(top, s, g)
  {
    hide GraphAt, NodesAt, SomeDue, Visits, AllLeft;
    PollingCovers(top, s, a, g);
    match a
    case Poll(_, n) =>
      assert |LoopOf(s, g).rest - {n}| == |LoopOf(s, g).rest| - 1;
    case _ =>
  }

  lemma PollingCovers(top: Graph, s: State, a: Step, g: seq<Name>)
    requires Enabled(top, s, a) && LoopStepOf(a, g) && LoopInv(top, s, g)
    ensures a.PollEnd? ==> AllLeft(top, s, g)
    ensures a.WaitEnd? && !s.cancelled ==> AllLeft(top, s, g)
    ensures a.Poll? && AllLeft(top, s, g) ==> Left(s, StageId(g, a.n))
  {
    hide GraphAt;
  }

  /** All the steps that can be left. */
  function MostSteps(k: nat): nat {
    2 * Visits(k, k) + 2 * k + 9
  }

  lemma StepsLeftBound(top: Graph, s: State, g: seq<Name>)
    requires LoopInv(top, s, g) && GraphAt(top, g).Some? && WellBuilt(GraphAt(top, g).value)
    ensures StepsLeft(top, s, g) <= MostSteps(|NodesAt(top, g)|)
  {
    hide GraphAt, WellBuilt, NodesAt, Visits, AllLeft, SomeDue, ParentsAt, ParentsPass, StatusOf, WorkerOf;
    var l, k := LoopOf(s, g), |NodesAt(top, g)|;
    if SweepLike(l) {
      SubsetAtMost(l.rest, NodesAt(top, g));
      Times(|l.rest|, k, k);
      if l.Checking? {
        FewParents(top, g, l.stage);
        SubsetAtMost(l.unread, ParentsAt(top, g, l.stage));
      }
    } else if l.Polling? {
      SubsetAtMost(l.rest, NodesAt(top, g));
    }
  }

  lemma Times(a: nat, b: nat, k: nat)
    requires a <= b
    ensures Visits(a, k) <= Visits(b, k)
  {
  }

  // ----- what a step leaves alone

  /** The stage whose status or worker a step can write. */
  predicate Touches(s: State, a: Step, y: StageId) {
    match a
    case TestCondition(g, _) => LoopOf(s, g).Testing? && y == StageId(g, LoopOf(s, g).stage)
    case ReadParent(g, _) => LoopOf(s, g).Checking? && y == StageId(g, LoopOf(s, g).stage)
    case Decide(g) => LoopOf(s, g).Checking? && y == StageId(g, LoopOf(s, g).stage)
    case ScheduleNested(x) => y == x
    case TaskReturns(x, _) => y == x
    case NestedReturns(x) => y == x
    case StoreResult(x) => y == x
    case RecordError(x) => y == x
    case Finish(x) => y == x
    case _ => false
  }

  lemma OthersUntouched(top: Graph, s: State, a: Step, y: StageId)
    requires Enabled(top, s, a) && !Touches(s, a, y)
    ensures StatusOf(Apply(top, s, a), y) == StatusOf(s, y) && WorkerOf(Apply(top, s, a), y) == WorkerOf(s, y)
  {
    hide GraphAt, NodesAt, ParentsAt, HasCondition, Passing, Blocking, IsNested, Allows, Quiet, ErrorsOf;
    hide TestStep, ReadParentStep, DecideStep, PollStep, VisitStep, StoreResultStep, StatusOf, WorkerOf, LoopOf;
    match a
    case Poll(g, n) => PollUntouched(top, s, g, n, y);
    case Visit(g, n) => PollUntouched(top, s, g, n, y);
    case TestCondition(g, result) => TestUntouched(top, s, g, result, y);
    case ReadParent(g, p) => ReadUntouched(top, s, g, p, y);
    case Decide(g) => DecideUntouched(s, g, y);
    case ScheduleNested(x) => WorkerUntouched(top, s, a, x, y);
    case TaskReturns(x, _) => WorkerUntouched(top, s, a, x, y);
    case NestedReturns(x) => WorkerUntouched(top, s, a, x, y);
    case StoreResult(x) => WorkerUntouched(top, s, a, x, y);
    case RecordError(x) => WorkerUntouched(top, s, a, x, y);
    case Finish(x) => WorkerUntouched(top, s, a, x, y);
    case _ =>
      ShortUntouched(top, s, a);
      SameWritten(s, Apply(top, s, a), y);
  }

  lemma SameWritten(s: State, t: State, y: StageId)
    requires t.status == s.status && t.worker == s.worker
    ensures StatusOf(t, y) == StatusOf(s, y) && WorkerOf(t, y) == WorkerOf(s, y)
  {
  }

  /** The other steps of loops write no status. */
  lemma ShortUntouched(top: Graph, s: State, a: Step)
    requires Enabled(top, s, a)
    requires a.ScheduleTop? || a.PollEnd? || a.ReadCancelled? || a.SweepEnd? || a.CancelRun? || a.WaitEnd? ||
             a.Interrupt?
    ensures Apply(top, s, a).status == s.status && Apply(top, s, a).worker == s.worker
  {
    hide GraphAt, NodesAt, IsNested, Allows, Quiet, ErrorsOf, LoopOf, WorkerOf, StatusOf;
  }

  /** The steps of workers write that of their stage only. */
  lemma WorkerUntouched(top: Graph, s: State, a: Step, x: StageId, y: StageId)
    requires Enabled(top, s, a) && WorkerStepOf(top, a, x) && y != x
    ensures StatusOf(Apply(top, s, a), y) == StatusOf(s, y) && WorkerOf(Apply(top, s, a), y) == WorkerOf(s, y)
  {
    WorkerStepWrites(top, s, a, x);
    WorkerStepMarks(top, s, a, x);
    hide Enabled, Apply, WorkerStepOf;
    var t := Apply(top, s, a);
    assert y in t.worker <==> y in s.worker;
    assert y in t.status <==> y in s.status;
  }

  lemma WorkerStepWrites(top: Graph, s: State, a: Step, x: StageId)
    requires Enabled(top, s, a) && WorkerStepOf(top, a, x)
    ensures var t := Apply(top, s, a);
            x in t.worker && t.worker == s.worker[x := t.worker[x]]
  {
    hide GraphAt, NodesAt, Quiet, ErrorsOf, LoopOf, IsNested, HasCondition, PollStep, VisitStep, TestStep,
         ReadParentStep, DecideStep, Allows;
  }

  lemma WorkerStepMarks(top: Graph, s: State, a: Step, x: StageId)
    requires Enabled(top, s, a) && WorkerStepOf(top, a, x)
    ensures var t := Apply(top, s, a).status;
            t == s.status || t == s.status[x := Done] || t == s.status[x := Failed]
  {
    hide GraphAt, NodesAt, Quiet, ErrorsOf, LoopOf, IsNested, HasCondition, PollStep, VisitStep, TestStep,
         ReadParentStep, DecideStep, Allows;
    if a.Finish? {
      hide StoreResultStep, Enabled;
    } else if a.StoreResult? {
      hide Enabled;
    } else {
      hide StoreResultStep;
      assert Apply(top, s, a).status == s.status;
    }
  }

  lemma PollUntouched(top: Graph, s: State, g: seq<Name>, n: Name, y: StageId)
    ensures LoopOf(s, g).Polling? ==> SameAt(s, PollStep(s, g, n), y)
    ensures LoopOf(s, g).Sweeping? ==> SameAt(s, VisitStep(top, s, g, n), y)
  {
    hide GraphAt, NodesAt, ParentsAt, HasCondition;
  }

  lemma TestUntouched(top: Graph, s: State, g: seq<Name>, result: ConditionResult, y: StageId)
    requires LoopOf(s, g).Testing? && y != StageId(g, LoopOf(s, g).stage)
    ensures SameAt(s, TestStep(top, s, g, result), y)
  {
    hide GraphAt, NodesAt, ParentsAt;
  }

  lemma ReadUntouched(top: Graph, s: State, g: seq<Name>, p: Name, y: StageId)
    requires LoopOf(s, g).Checking? && y != StageId(g, LoopOf(s, g).stage)
    ensures SameAt(s, ReadParentStep(top, s, g, p), y)
  {
    hide GraphAt, NodesAt, Passing, Blocking;
  }

  lemma DecideUntouched(s: State, g: seq<Name>, y: StageId)
    requires LoopOf(s, g).Checking? && y != StageId(g, LoopOf(s, g).stage)
    ensures SameAt(s, DecideStep(s, g), y)
  {
  }

  predicate SameAt(s: State, t: State, y: StageId) {
    StatusOf(t, y) == StatusOf(s, y) && WorkerOf(t, y) == WorkerOf(s, y)
  }

  /** Only a decision to start a stage makes a worker live, and it changes the status of the stage. */
  lemma LoopStepKeepsWorkers(top: Graph, s: State, a: Step, g: seq<Name>)
    requires Inv(top, s) && Enabled(top, s, a) && LoopStepOf(a, g)
    ensures SameStatuses(top, s, Apply(top, s, a), g) && NothingLive(top, s, g) ==>
        NothingLive(top, Apply(top, s, a), g)
    ensures forall y: StageId | y.graph != g ::
              StatusOf(Apply(top, s, a), y) == StatusOf(s, y) && WorkerOf(Apply(top, s, a), y) == WorkerOf(s, y)
  {
    var t := Apply(top, s, a);
    InvAtLoop(top, s, g);
    hide Inv, GraphAt, Apply;
    forall y: StageId | y.graph != g ensures StatusOf(t, y) == StatusOf(s, y) && WorkerOf(t, y) == WorkerOf(s, y) {
      OthersUntouched(top, s, a, y);
    }
    if SameStatuses(top, s, t, g) && NothingLive(top, s, g) {
      forall n | n in NodesAt(top, g) ensures Quiet(WorkerOf(t, StageId(g, n))) {
        WorkerStartsRunning(top, s, a, g, n);
      }
    }
  }

  lemma WorkerStartsRunning(top: Graph, s: State, a: Step, g: seq<Name>, n: Name)
    requires Enabled(top, s, a) && LoopStepOf(a, g) && LoopInv(top, s, g)
    ensures var t, x := Apply(top, s, a), StageId(g, n);
            WorkerOf(t, x) == WorkerOf(s, x) || (StatusOf(t, x) == Running && StatusOf(s, x) != Running)
  {
    hide GraphAt, NodesAt, HasCondition, Allows, ErrorsOf, ParentsPass;
    if a.Decide? {
      hide TestStep, ReadParentStep, PollStep, VisitStep;
    } else {
      hide LoopInv;
      WorkersStay(top, s, a, StageId(g, n));
    }
  }

  lemma WorkersStay(top: Graph, s: State, a: Step, x: StageId)
    requires Enabled(top, s, a) && Moves(a).Some? && !a.ScheduleNested? && !a.Decide?
    ensures WorkerOf(Apply(top, s, a), x) == WorkerOf(s, x)
  {
    hide GraphAt, NodesAt, ParentsAt, StatusOf, HasCondition, Passing, Blocking, IsNested, Allows, ErrorsOf;
  }

  /** What happens elsewhere does not show in a graph without live workers. */
  lemma ElsewhereDoesNotShow(top: Graph, s: State, a: Step, g: seq<Name>)
    requires Inv(top, s) && Enabled(top, s, a) && !LoopStepOf(a, g) && LoopOf(s, g) != Off && NothingLive(top, s, g)
    ensures LoopOf(Apply(top, s, a), g) == LoopOf(s, g) && SameStatuses(top, s, Apply(top, s, a), g)
    ensures NothingLive(top, Apply(top, s, a), g)
  {
    if a.ScheduleNested? {
      InvAt(top, s, a.x);
    }
    OtherLoopsStay(top, s, a, g);
    forall n | n in NodesAt(top, g) ensures !Touches(s, a, StageId(g, n)) {
      TouchesLive(top, s, a, g, n);
    }
    hide Inv, GraphAt, Apply, Enabled, Touches;
    forall n | n in NodesAt(top, g)
      ensures StatusOf(Apply(top, s, a), StageId(g, n)) == StatusOf(s, StageId(g, n))
      ensures WorkerOf(Apply(top, s, a), StageId(g, n)) == WorkerOf(s, StageId(g, n))
    {
      OthersUntouched(top, s, a, StageId(g, n));
    }
  }

  lemma TouchesLive(top: Graph, s: State, a: Step, g: seq<Name>, n: Name)
    requires Enabled(top, s, a) && !LoopStepOf(a, g) && Quiet(WorkerOf(s, StageId(g, n)))
    ensures !Touches(s, a, StageId(g, n))
  {
    hide GraphAt, NodesAt;
  }

  lemma SameDue(top: Graph, s: State, t: State, g: seq<Name>)
    requires GraphAt(top, g).Some? && WellBuilt(GraphAt(top, g).value)
    requires LoopOf(t, g) == LoopOf(s, g) && SameStatuses(top, s, t, g) && SomeDue(top, s, g)
    ensures SomeDue(top, t, g)
  {
    hide GraphAt, WellBuilt, NodesAt, ParentsAt;
    var m :| Due(top, s, g, m);
    forall p | p in ParentsAt(top, g, m) ensures Left(t, StageId(g, p)) {
      ParentIsNode(top, g, m, p);
      assert Left(s, StageId(g, p));
    }
    assert Due(top, t, g, m);
  }

  lemma SameStepsLeft(top: Graph, s: State, t: State, g: seq<Name>)
    requires GraphAt(top, g).Some? && WellBuilt(GraphAt(top, g).value)
    requires LoopOf(t, g) == LoopOf(s, g) && SameStatuses(top, s, t, g) && t.cancelled == s.cancelled
    ensures StepsLeft(top, t, g) == StepsLeft(top, s, g)
  {
    SameAllLeft(top, s, t, g);
    if SomeDue(top, s, g) {
      SameDue(top, s, t, g);
    }
    if SomeDue(top, t, g) {
      SameDue(top, t, s, g);
    }
    SameAfterSweep(top, s, t, g);
    hide GraphAt, WellBuilt, AllLeft, SomeDue, NodesAt, Visits, SweepCost, SameStatuses, AfterSweep;
  }

  lemma SameAfterSweep(top: Graph, s: State, t: State, g: seq<Name>)
    requires t.cancelled == s.cancelled && (AllLeft(top, s, g) <==> AllLeft(top, t, g))
    requires SomeDue(top, s, g) <==> SomeDue(top, t, g)
    ensures AfterSweep(top, t, g) == AfterSweep(top, s, g)
  {
    hide AllLeft, SomeDue, Visits, NodesAt;
  }

  // ----- how many steps a loop takes in any run

  function MovesOf(steps: seq<Step>, g: seq<Name>): nat {
    if steps == [] then 0 else (if LoopStepOf(steps[0], g) then 1 else 0) + MovesOf(steps[1..], g)
  }

  predicate AllCalm(steps: seq<Step>) {
    forall a | a in steps :: Calm(a)
  }

  lemma CancelledStays(top: Graph, s: State, a: Step)
    requires Enabled(top, s, a) && s.cancelled
    ensures Apply(top, s, a).cancelled
  {
    hide GraphAt, NodesAt, ParentsAt, StatusOf, WorkerOf;
  }

  lemma {:induction false} CancelledForGood(top: Graph, s: State, steps: seq<Step>, t: State)
    requires Run(top, s, steps, t) && s.cancelled
    ensures t.cancelled
    decreases |steps|
  {
    if steps != [] {
      CancelledStays(top, s, steps[0]);
      CancelledForGood(top, Apply(top, s, steps[0]), steps[1..], t);
    }
  }

  /** Statuses that are the same in the end were the same all along. */
  lemma SameAllAlong(top: Graph, s: State, a: Step, rest: seq<Step>, t: State, g: seq<Name>)
    requires Inv(top, s) && Enabled(top, s, a) && Run(top, Apply(top, s, a), rest, t) && SameStatuses(top, s, t, g)
    ensures SameStatuses(top, s, Apply(top, s, a), g) && SameStatuses(top, Apply(top, s, a), t, g)
  {
    var u := Apply(top, s, a);
    StepKeeps(top, s, a);
    assert Run(top, u, [], u) && [a][1..] == [];
    assert Run(top, s, [a], u);
    hide Inv, GraphAt, Apply, Run;
    forall n | n in NodesAt(top, g) ensures StatusOf(u, StageId(g, n)) == StatusOf(s, StageId(g, n)) {
      RunOnlyAdvances(top, s, [a], u, StageId(g, n));
      RunOnlyAdvances(top, u, rest, t, StageId(g, n));
    }
  }

  /**
    In any run, whatever the other loops and the workers do: as long as no worker of a graph is
    live and no stage of it changes, its loop has taken all the steps that are no longer left.
   */
  lemma {:induction false} LoopStepsAreSpent(top: Graph, s: State, steps: seq<Step>, t: State, g: seq<Name>)
    requires Inv(top, s) && Run(top, s, steps, t) && AllCalm(steps)
    requires GraphAt(top, g).Some? && WellBuilt(GraphAt(top, g).value)
    requires LoopOf(s, g) != Off && NothingLive(top, s, g)
    requires SameStatuses(top, s, t, g) && t.cancelled == s.cancelled
    ensures MovesOf(steps, g) + StepsLeft(top, t, g) <= StepsLeft(top, s, g)
    decreases |steps|
  {
    if steps != [] {
      var a, rest := steps[0], steps[1..];
      var u := Apply(top, s, a);
      StepKeeps(top, s, a);
      SameAllAlong(top, s, a, rest, t, g);
      if u.cancelled {
        CancelledForGood(top, u, rest, t);
      }
      if s.cancelled {
        CancelledStays(top, s, a);
      }
      LoopStaysOn(top, s, a, g);
      assert a in steps && forall b | b in rest :: b in steps;
      hide Inv, GraphAt, WellBuilt, NothingLive, SameStatuses, Apply, StepsLeft, Enabled;
      if LoopStepOf(a, g) {
        LoopStepSpends(top, s, a, g);
        LoopStepKeepsWorkers(top, s, a, g);
      } else {
        ElsewhereDoesNotShow(top, s, a, g);
        SameStepsLeft(top, s, u, g);
      }
      LoopStepsAreSpent(top, u, rest, t, g);
    }
  }

  lemma LoopStaysOn(top: Graph, s: State, a: Step, g: seq<Name>)
    requires Enabled(top, s, a) && LoopOf(s, g) != Off
    ensures LoopOf(Apply(top, s, a), g) != Off
  {
    hide GraphAt, NodesAt, ParentsAt, StatusOf, WorkerOf, Passing, Blocking, HasCondition, IsNested, Allows, ErrorsOf;
    if Moves(a) != Some(g) {
      OtherLoopsStay(top, s, a, g);
    }
  }

  /** So there is a bound on them that depends on the number of stages only. */
  lemma LoopStepsAreBounded(top: Graph, s: State, steps: seq<Step>, t: State, g: seq<Name>)
    requires Reachable(top, s) && Run(top, s, steps, t) && AllCalm(steps)
    requires GraphAt(top, g).Some? && WellBuilt(GraphAt(top, g).value)
    requires LoopOf(s, g) != Off && NothingLive(top, s, g)
    requires SameStatuses(top, s, t, g) && t.cancelled == s.cancelled
    ensures MovesOf(steps, g) <= MostSteps(|NodesAt(top, g)|)
  {
    ReachableInv(top, s);
    InvAtLoop(top, s, g);
    LoopStepsAreSpent(top, s, steps, t, g);
    StepsLeftBound(top, s, g);
  }

  // ----- the done check

  /** Nothing waits or runs, and the loop looks for that or has found it. */
  ghost predicate Leaving(top: Graph, s: State, g: seq<Name>) {
    AllLeft(top, s, g) && (LoopOf(s, g).Polling? || LoopOf(s, g) == Draining || LoopOf(s, g).Returned?)
  }

  lemma LeavingStays(top: Graph, s: State, a: Step, g: seq<Name>)
    requires Inv(top, s) && Enabled(top, s, a) && Leaving(top, s, g)
    ensures Leaving(top, Apply(top, s, a), g)
  {
    LeftStays(top, s, a, g);
    LeavingLoopStays(top, s, a, g);
    hide Inv, Enabled, Apply;
  }

  lemma LeftStays(top: Graph, s: State, a: Step, g: seq<Name>)
    requires Inv(top, s) && Enabled(top, s, a) && AllLeft(top, s, g)
    ensures AllLeft(top, Apply(top, s, a), g)
  {
    forall n | n in NodesAt(top, g) ensures Left(Apply(top, s, a), StageId(g, n)) {
      VerdictsLast(top, s, a, StageId(g, n));
    }
    hide Inv, Enabled, Apply, NodesAt, Left, Passing, Blocking, StatusOf;
  }

  lemma LeavingLoopStays(top: Graph, s: State, a: Step, g: seq<Name>)
    requires Inv(top, s) && Enabled(top, s, a) && Leaving(top, s, g)
    ensures var l := LoopOf(Apply(top, s, a), g); l.Polling? || l == Draining || l.Returned?
  {
    InvAtLoop(top, s, g);
    if a.ScheduleNested? {
      InvAt(top, s, a.x);
    }
    hide Inv, GraphAt, NodesAt, Passing, Blocking, StatusFits, Touches;
    if Moves(a) != Some(g) {
      OtherLoopsStay(top, s, a, g);
    } else {
      hide VisitStep, TestStep, ReadParentStep, DecideStep;
    }
  }

  /**
    The whole done check: once every stage of a graph has left, the check that is under way
    goes through in any run; it never turns to another sweep.
   */
  lemma {:induction false} DoneCheckGoesThrough(top: Graph, s: State, steps: seq<Step>, t: State, g: seq<Name>)
    requires Inv(top, s) && Run(top, s, steps, t) && AllLeft(top, s, g) && LoopOf(s, g).Polling?
    ensures AllLeft(top, t, g) && (LoopOf(t, g).Polling? || LoopOf(t, g) == Draining || LoopOf(t, g).Returned?)
  {
    StaysLeaving(top, s, steps, t, g);
  }

  lemma {:induction false} StaysLeaving(top: Graph, s: State, steps: seq<Step>, t: State, g: seq<Name>)
    requires Inv(top, s) && Run(top, s, steps, t) && Leaving(top, s, g)
    ensures Leaving(top, t, g)
    decreases |steps|
  {
    if steps != [] {
      StepKeeps(top, s, steps[0]);
      LeavingStays(top, s, steps[0], g);
      hide Inv, Leaving;
      StaysLeaving(top, Apply(top, s, steps[0]), steps[1..], t, g);
    }
  }

  /** With no live worker it takes one read per stage and two steps more, and the run of the graph has returned. */
  lemma DoneCheckReturns(top: Graph, s: State, steps: seq<Step>, t: State, g: seq<Name>)
    requires Inv(top, s) && Run(top, s, steps, t) && AllCalm(steps)
    requires GraphAt(top, g).Some? && WellBuilt(GraphAt(top, g).value)
    requires AllLeft(top, s, g) && NothingLive(top, s, g) && LoopOf(s, g).Polling?
    requires SameStatuses(top, s, t, g) && !t.cancelled
    requires MovesOf(steps, g) >= |LoopOf(s, g).rest| + 2
    ensures LoopOf(t, g).Returned?
  {
    if s.cancelled {
      CancelledForGood(top, s, steps, t);
    }
    LoopStepsAreSpent(top, s, steps, t, g);
    StaysLeaving(top, s, steps, t, g);
  }

  // ----- every run can be completed

  ghost predicate CalmRun(top: Graph, s: State, steps: seq<Step>, t: State) {
    Run(top, s, steps, t) && AllCalm(steps)
  }

  /** A state that can be reached without an interrupt, with all conditions that are tested evaluated. */
  ghost predicate CanReach(top: Graph, s: State, t: State) {
    exists steps :: CalmRun(top, s, steps, t)
  }

  lemma CanStay(top: Graph, s: State)
    ensures CanReach(top, s, s)
  {
    assert CalmRun(top, s, [], s);
  }

  lemma CanStep(top: Graph, s: State, a: Step)
    requires Enabled(top, s, a) && Calm(a)
    ensures CanReach(top, s, Apply(top, s, a))
  {
    var t := Apply(top, s, a);
    assert [a][1..] == [] && Run(top, t, [], t);
    assert CalmRun(top, s, [a], t);
  }

  lemma CanGoOn(top: Graph, s: State, t: State, u: State)
    requires CanReach(top, s, t) && CanReach(top, t, u)
    ensures CanReach(top, s, u)
  {
    var p :| CalmRun(top, s, p, t);
    var q :| CalmRun(top, t, q, u);
    RunsJoin(top, s, p, t, q, u);
    assert CalmRun(top, s, p + q, u);
  }

  lemma ReachKeeps(top: Graph, s: State, t: State)
    requires Inv(top, s) && CanReach(top, s, t)
    ensures Inv(top, t) && (s.cancelled ==> t.cancelled)
    ensures forall x :: Remaining(StatusOf(t, x)) <= Remaining(StatusOf(s, x))
    ensures forall x ::
              StatusOf(t, x) != StatusOf(s, x) ==> Remaining(StatusOf(t, x)) < Remaining(StatusOf(s, x))
  {
    var steps :| CalmRun(top, s, steps, t);
    RunKeeps(top, s, steps, t);
    if s.cancelled {
      CancelledForGood(top, s, steps, t);
    }
    hide Run, Inv;
    forall x {
      RunOnlyAdvances(top, s, steps, t, x);
    }
  }

  /** Only what lies at or below a graph has changed. */
  ghost predicate OnlyBelow(s: State, t: State, g: seq<Name>) {
    && (forall x: StageId | !(g <= x.graph) :: StatusOf(t, x) == StatusOf(s, x) && WorkerOf(t, x) == WorkerOf(s, x))
    && (forall h: seq<Name> | !(g <= h) :: LoopOf(t, h) == LoopOf(s, h))
  }

  /** Only a stage and what lies below it have changed. */
  ghost predicate OnlyAtStage(s: State, t: State, x: StageId) {
    && (forall y: StageId | y != x && !(Child(x) <= y.graph) ::
          StatusOf(t, y) == StatusOf(s, y) && WorkerOf(t, y) == WorkerOf(s, y))
    && (forall h: seq<Name> | !(Child(x) <= h) :: LoopOf(t, h) == LoopOf(s, h))
  }

  lemma OnlyAtStageTwice(s: State, t: State, u: State, x: StageId)
    requires OnlyAtStage(s, t, x) && OnlyAtStage(t, u, x)
    ensures OnlyAtStage(s, u, x)
  {
  }

  lemma OnlyBelowTwice(s: State, t: State, u: State, g: seq<Name>)
    requires OnlyBelow(s, t, g) && OnlyBelow(t, u, g)
    ensures OnlyBelow(s, u, g)
  {
  }

  lemma BelowChildIsStage(s: State, t: State, x: StageId)
    requires OnlyBelow(s, t, Child(x))
    ensures OnlyAtStage(s, t, x) && WorkerOf(t, x) == WorkerOf(s, x)
  {
    assert !(Child(x) <= x.graph);
  }

  lemma StageIsBelow(s: State, t: State, x: StageId)
    requires OnlyAtStage(s, t, x)
    ensures OnlyBelow(s, t, x.graph) && LoopOf(t, x.graph) == LoopOf(s, x.graph)
  {
    assert !(Child(x) <= x.graph);
    forall h: seq<Name> | !(x.graph <= h) ensures LoopOf(t, h) == LoopOf(s, h) {
      ChildIsBelow(x, h);
    }
    forall y: StageId | !(x.graph <= y.graph)
      ensures StatusOf(t, y) == StatusOf(s, y) && WorkerOf(t, y) == WorkerOf(s, y)
    {
      ChildIsBelow(x, y.graph);
    }
  }

  lemma ChildIsBelow(x: StageId, h: seq<Name>)
    ensures Child(x) <= h ==> x.graph <= h
  {
    if Child(x) <= h {
      assert h[..|x.graph|] == Child(x)[..|x.graph|] == x.graph;
    }
  }

  /** A step of a worker changes its stage only, and may start the loop below it. */
  lemma WorkerStepIsLocal(top: Graph, s: State, a: Step, x: StageId)
    requires Enabled(top, s, a) && WorkerStepOf(top, a, x)
    ensures OnlyAtStage(s, Apply(top, s, a), x)
  {
    var t := Apply(top, s, a);
    hide GraphAt, Apply, Enabled;
    forall y | y != x ensures StatusOf(t, y) == StatusOf(s, y) && WorkerOf(t, y) == WorkerOf(s, y) {
      OthersUntouched(top, s, a, y);
    }
    forall h: seq<Name> | !(Child(x) <= h) ensures LoopOf(t, h) == LoopOf(s, h) {
      OtherLoopsStay(top, s, a, h);
    }
  }

  lemma LoopStepIsLocal(top: Graph, s: State, a: Step, g: seq<Name>)
    requires Inv(top, s) && Enabled(top, s, a) && LoopStepOf(a, g)
    ensures OnlyBelow(s, Apply(top, s, a), g)
  {
    LoopStepKeepsWorkers(top, s, a, g);
    hide Inv, GraphAt, Apply, Enabled;
    forall h: seq<Name> | !(g <= h) ensures LoopOf(Apply(top, s, a), h) == LoopOf(s, h) {
      OtherLoopsStay(top, s, a, h);
    }
  }

  /** How far a worker has to go. */
  function WorkLeft(w: Worker): nat {
    match w
    case Launched => 5
    case InNested => 4
    case Ran(_) => 3
    case MarkedFailed => 2
    case Recorded => 1
    case _ => 0
  }

  lemma WorkerStepHelps(top: Graph, s: State, a: Step, x: StageId)
    requires Enabled(top, s, a) && WorkerStepOf(top, a, x)
    ensures WorkLeft(WorkerOf(Apply(top, s, a), x)) < WorkLeft(WorkerOf(s, x))
  {
    hide GraphAt, Passing, Blocking;
  }

  ghost function LiveAt(top: Graph, s: State, g: seq<Name>): set<Name> {
    set n | n in NodesAt(top, g) && !Quiet(WorkerOf(s, StageId(g, n)))
  }

  /** A live worker can be brought to its end; the run it may wait for is one of a smaller graph. */
  lemma {:induction false} FinishWorker(top: Graph, s: State, x: StageId) returns (t: State)
    requires Inv(top, s) && !Quiet(WorkerOf(s, x))
    requires GraphAt(top, x.graph).Some? && DeepWellBuilt(GraphAt(top, x.graph).value)
    ensures CanReach(top, s, t) && OnlyAtStage(s, t, x) && Quiet(WorkerOf(t, x))
    decreases GraphAt(top, x.graph).value, 0, WorkLeft(WorkerOf(s, x)), 0, 0, 0
  {
    var u := s;
    CanStay(top, s);
    if WorkerOf(s, x) == InNested && !LoopOf(s, Child(x)).Returned? {
      InvAt(top, s, x);
      NestedBelow(top, s, x);
      u := FinishGraph(top, s, Child(x));
      BelowChildIsStage(s, u, x);
      ReachKeeps(top, s, u);
    }
    var a := NextWorkerStep(top, u, x);
    var v := Apply(top, u, a);
    CanStep(top, u, a);
    WorkerStepIsLocal(top, u, a, x);
    WorkerStepHelps(top, u, a, x);
    StepKeeps(top, u, a);
    hide Inv, GraphAt, DeepWellBuilt, Enabled, Apply, CanReach, OnlyAtStage;
    CanGoOn(top, s, u, v);
    OnlyAtStageTwice(s, u, v, x);
    if Quiet(WorkerOf(v, x)) {
      t := v;
    } else {
      t := FinishWorker(top, v, x);
      CanGoOn(top, s, v, t);
      OnlyAtStageTwice(s, v, t, x);
    }
  }

  /** The run of a graph can be brought to its end. */
  lemma {:induction false} FinishGraph(top: Graph, s: State, g: seq<Name>) returns (t: State)
    requires Inv(top, s) && LoopOf(s, g) != Off
    requires GraphAt(top, g).Some? && DeepWellBuilt(GraphAt(top, g).value)
    ensures CanReach(top, s, t) && OnlyBelow(s, t, g) && LoopOf(t, g).Returned?
    decreases GraphAt(top, g).value, 1, if s.cancelled then 0 else 1,
              RemainingAll(s, g, NodesAt(top, g)), |LiveAt(top, s, g)|, StepsLeft(top, s, g)
  {
    hide RemainingAll, StepsLeft, Inv, Enabled, Apply, GraphAt, OnlyBelow, OnlyAtStage, CanReach, NodesAt;
    if LoopOf(s, g).Returned? {
      CanStay(top, s);
      NothingChanged(s, g);
      t := s;
    } else {
      var u: State;
      if LiveAt(top, s, g) != {} {
        var n :| n in LiveAt(top, s, g);
        u := FinishWorker(top, s, StageId(g, n));
        FinishedIsLess(top, s, u, g, n);
        StageIsBelow(s, u, StageId(g, n));
      } else {
        NoneLive(top, s, g);
        var a := NextLoopStep(top, s, g);
        u := Apply(top, s, a);
        CanStep(top, s, a);
        LoopStepIsLocal(top, s, a, g);
        LoopStaysOn(top, s, a, g);
        LoopStepIsLess(top, s, a, g);
      }
      ReachKeeps(top, s, u);
      t := FinishGraph(top, u, g);
      CanGoOn(top, s, u, t);
      OnlyBelowTwice(s, u, t, g);
    }
  }

  lemma NothingChanged(s: State, g: seq<Name>)
    ensures OnlyBelow(s, s, g)
  {
  }

  lemma NoneLive(top: Graph, s: State, g: seq<Name>)
    requires LiveAt(top, s, g) == {}
    ensures NothingLive(top, s, g)
  {
    forall n | n in NodesAt(top, g) ensures Quiet(WorkerOf(s, StageId(g, n))) {
      assert n !in LiveAt(top, s, g);
    }
  }

  lemma FinishedIsLess(top: Graph, s: State, u: State, g: seq<Name>, n: Name)
    requires Inv(top, s) && CanReach(top, s, u) && n in LiveAt(top, s, g)
    requires OnlyAtStage(s, u, StageId(g, n)) && Quiet(WorkerOf(u, StageId(g, n)))
    ensures RemainingAll(u, g, NodesAt(top, g)) <= RemainingAll(s, g, NodesAt(top, g))
    ensures |LiveAt(top, u, g)| < |LiveAt(top, s, g)|
  {
    ReachKeeps(top, s, u);
    RemainingFalls(s, u, g, NodesAt(top, g));
    hide Inv, NodesAt, RemainingAll;
    assert !(Child(StageId(g, n)) <= g);
    forall m | m in LiveAt(top, u, g) ensures m in LiveAt(top, s, g) && m != n {
      if m != n {
        assert WorkerOf(u, StageId(g, m)) == WorkerOf(s, StageId(g, m));
      }
    }
    SubsetSize(LiveAt(top, u, g), LiveAt(top, s, g));
  }

  lemma LoopStepIsLess(top: Graph, s: State, a: Step, g: seq<Name>)
    requires Inv(top, s) && Enabled(top, s, a) && LoopStepOf(a, g) && Calm(a) && NothingLive(top, s, g)
    requires GraphAt(top, g).Some? && WellBuilt(GraphAt(top, g).value)
    ensures var u := Apply(top, s, a);
            || (u.cancelled && !s.cancelled)
            || (u.cancelled == s.cancelled && RemainingAll(u, g, NodesAt(top, g)) < RemainingAll(s, g, NodesAt(top, g)))
            || (u.cancelled == s.cancelled && LiveAt(top, u, g) == {} && LiveAt(top, s, g) == {}
                && RemainingAll(u, g, NodesAt(top, g)) == RemainingAll(s, g, NodesAt(top, g))
                && StepsLeft(top, u, g) < StepsLeft(top, s, g))
  {
    var u := Apply(top, s, a);
    if s.cancelled {
      CancelledStays(top, s, a);
    }
    CanStep(top, s, a);
    ReachKeeps(top, s, u);
    hide Inv, Apply, GraphAt, WellBuilt, NodesAt, StepsLeft, Enabled, RemainingAll;
    RemainingFalls(s, u, g, NodesAt(top, g));
    if SameStatuses(top, s, u, g) && u.cancelled == s.cancelled {
      RemainingFalls(u, s, g, NodesAt(top, g));
      LoopStepSpends(top, s, a, g);
      LoopStepKeepsWorkers(top, s, a, g);
    } else if u.cancelled == s.cancelled {
      var n :| n in NodesAt(top, g) && StatusOf(u, StageId(g, n)) != StatusOf(s, StageId(g, n));
      assert Remaining(StatusOf(u, StageId(g, n))) < Remaining(StatusOf(s, StageId(g, n)));
    }
  }

  /** No condition has failed to be evaluated without the cancellation that follows. */
  ghost predicate Untroubled(s: State) {
    !s.cancelled && forall g :: !LoopOf(s, g).ConditionBroke?
  }

  lemma CalmStays(top: Graph, s: State, a: Step)
    requires Enabled(top, s, a) && Calm(a) && Untroubled(s)
    ensures Untroubled(Apply(top, s, a))
  {
    var t := Apply(top, s, a);
    forall g ensures !LoopOf(t, g).ConditionBroke? {
      if Moves(a) != Some(g) {
        OtherLoopsStay(top, s, a, g);
      } else {
        NotBrokenBy(top, s, a, g);
      }
    }
    hide GraphAt, NodesAt, ParentsAt, StatusOf, WorkerOf, Passing, Blocking, HasCondition;
  }

  lemma NotBrokenBy(top: Graph, s: State, a: Step, g: seq<Name>)
    requires Enabled(top, s, a) && Calm(a) && Moves(a) == Some(g)
    ensures !LoopOf(Apply(top, s, a), g).ConditionBroke?
  {
    hide GraphAt, NodesAt, ParentsAt, StatusOf, WorkerOf, Passing, Blocking, HasCondition;
  }

  lemma {:induction false} CalmRunStays(top: Graph, s: State, steps: seq<Step>, t: State)
    requires CalmRun(top, s, steps, t) && Untroubled(s)
    ensures Untroubled(t)
    decreases |steps|
  {
    if steps != [] {
      assert steps[0] in steps && forall b | b in steps[1..] :: b in steps;
      CalmStays(top, s, steps[0]);
      hide Untroubled, Apply, Enabled;
      CalmRunStays(top, Apply(top, s, steps[0]), steps[1..], t);
    }
  }

  lemma ReachedAgain(top: Graph, s: State, t: State)
    requires Reachable(top, s) && CanReach(top, s, t)
    ensures Reachable(top, t)
  {
    var p :| Run(top, INITIAL, p, s);
    var q :| CalmRun(top, s, q, t);
    RunsJoin(top, INITIAL, p, s, q, t);
  }

  /**
    Termination: from every reachable state the run can be completed without an interrupt.  If
    it was not cancelled by then, it ends with every stage of the graph in a final status, and
    so does the run of every nested pipeline that was started.
   */
  lemma RunCanEnd(top: Graph, s: State) returns (t: State)
    requires Reachable(top, s) && DeepWellBuilt(top)
    ensures Reachable(top, t) && CanReach(top, s, t) && LoopOf(t, []).Returned?
    ensures Untroubled(s) ==> !t.cancelled
    ensures Untroubled(s) ==>
              forall x | IsStage(top, x) && x.name != ROOT && LoopOf(t, x.graph) != Off ::
                StatusOf(t, x) in {Done, Skipped, Canceled, Failed}
  {
    var u := s;
    CanStay(top, s);
    ReachableInv(top, s);
    if LoopOf(s, []) == Off {
      u := Apply(top, s, ScheduleTop);
      CanStep(top, s, ScheduleTop);
      StepKeeps(top, s, ScheduleTop);
    }
    t := FinishGraph(top, u, []);
    hide Inv, Apply, Reachable, CanReach, IsStage, StatusOf, Untroubled;
    CanGoOn(top, s, u, t);
    ReachedAgain(top, s, t);
    if Untroubled(s) {
      EndsUntroubled(top, s, t);
      forall x | IsStage(top, x) && x.name != ROOT && LoopOf(t, x.graph) != Off
        ensures StatusOf(t, x) in {Done, Skipped, Canceled, Failed}
      {
        ReturnedBelow(top, t, x.graph);
        ReturnedIsDecided(top, t, x);
      }
    }
  }

  lemma EndsUntroubled(top: Graph, s: State, t: State)
    requires CanReach(top, s, t) && Untroubled(s)
    ensures !t.cancelled
  {
    var steps :| CalmRun(top, s, steps, t);
    CalmRunStays(top, s, steps, t);
  }

  lemma ReturnedBelow(top: Graph, t: State, h: seq<Name>)
    requires Reachable(top, t) && LoopOf(t, []).Returned? && LoopOf(t, h) != Off
    ensures LoopOf(t, h).Returned?
  {
    ReachableInv(top, t);
    assert [] <= h;
    ActiveAbove(top, t, [], h);
  }
}
