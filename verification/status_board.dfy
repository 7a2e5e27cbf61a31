/**
  The parent check and the done check of one graph as the loops they are, over statuses that
  are stores into a shared table, and their agreement with the steps of the state machine.
 */
module StatusBoards {
  import opened Digraph
  import opened Stages
  import opened WellBuiltGraphs
  import opened Schedules

  predicate Passes(graph: Graph, status: map<Name, Status>, p: Name) {
    && p in graph.nodes && p in status
    && (status[p] == Done || status[p] == Skipped || (status[p] == Failed && graph.nodes[p].allowFailure))
  }

  predicate Blocks(graph: Graph, status: map<Name, Status>, p: Name) {
    && p in graph.nodes && p in status
    && (status[p] == Canceled || (status[p] == Failed && !graph.nodes[p].allowFailure))
  }

  ghost predicate SomeBlocks(graph: Graph, status: map<Name, Status>, parents: set<Name>) {
    exists p :: p in parents && Blocks(graph, status, p)
  }

  /** The statuses after a parent check: those before it, with the stage cancelled if a parent blocks. */
  ghost function AfterCheck(graph: Graph, status: map<Name, Status>, stage: Name): map<Name, Status> {
    if SomeBlocks(graph, status, set p | p in Succ(graph.parent, stage)) then status[stage := Canceled] else status
  }

  lemma NoneBlocks(graph: Graph, status: map<Name, Status>)
    ensures !SomeBlocks(graph, status, {})
  {
  }

  lemma SomeBlocksStep(graph: Graph, status: map<Name, Status>, parents: set<Name>, p: Name)
    ensures SomeBlocks(graph, status, parents + {p}) <==> SomeBlocks(graph, status, parents) || Blocks(graph, status, p)
  {
    if SomeBlocks(graph, status, parents) {
      var q :| q in parents && Blocks(graph, status, q);
      assert q in parents + {p};
    }
    assert p in parents + {p};
  }

  /** The statuses of the stages of one graph. */
  class Board {
    const graph: Graph
    var status: map<Name, Status>

    ghost predicate Valid()
      reads this
    {
      WellBuilt(graph) && status.Keys == graph.nodes.Keys
    }

    constructor (graph: Graph)
      requires WellBuilt(graph)
      ensures Valid() && this.graph == graph
      ensures status == map n | n in graph.nodes :: if n == ROOT then Done else Waiting
    {
      this.graph := graph;
      status := map n | n in graph.nodes :: if n == ROOT then Done else Waiting;
    }

    /** Read every parent once, in any order; one that blocks cancels the stage on the way. */
    method ReadParents(stage: Name) returns (checked: map<Name, bool>)
      requires Valid() && stage in graph.nodes && stage !in Succ(graph.parent, stage)
      requires forall p | p in Succ(graph.parent, stage) :: p in graph.nodes
      modifies this`status
      ensures checked.Keys == set p | p in Succ(graph.parent, stage)
      ensures forall p | p in checked :: checked[p] == Passes(graph, old(status), p)
      ensures status == AfterCheck(graph, old(status), stage)
    {
      hide WellBuilt, SomeBlocks, Inverse, Acyclic;
      ghost var before := status;
      checked := map[];
      var rest := set p | p in Succ(graph.parent, stage);
      ghost var parents := rest;
      NoneBlocks(graph, before);
      assert parents - rest == {};
      while rest != {}
        invariant rest <= parents && checked.Keys == parents - rest
        invariant forall p | p in checked :: checked[p] == Passes(graph, before, p)
        invariant status == if SomeBlocks(graph, before, parents - rest) then before[stage := Canceled] else before
      {
        var p :| p in rest;
        SomeBlocksStep(graph, before, parents - rest, p);
        assert parents - (rest - {p}) == parents - rest + {p};
        rest := rest - {p};
        checked := checked[p := false];
        match status[p] {
          case Done => checked := checked[p := true];
          case Skipped => checked := checked[p := true];
          case Failed =>
            if !graph.nodes[p].allowFailure {
              status := status[stage := Canceled];
            } else {
              checked := checked[p := true];
            }
          case Canceled =>
            status := status[stage := Canceled];
          case _ =>
        }
      }
    }

    /** May the stage start?  It may when every parent passes; a parent that blocks cancels it. */
    method CheckStatus(stage: Name) returns (ok: bool)
      requires Valid() && stage in graph.nodes
      modifies this`status
      ensures Valid()
      ensures ok <==> forall p | p in Succ(graph.parent, stage) :: Passes(graph, old(status), p)
      ensures status == AfterCheck(graph, old(status), stage)
    {
      NoOwnParent(graph, stage);
      forall p | p in Succ(graph.parent, stage) ensures p in graph.nodes { WellBuiltEdgeUp(graph, stage, p); }
      var checked := ReadParents(stage);
      var values := checked.Keys;
      while values != {}
        invariant values <= checked.Keys
        invariant forall p | p in checked && p !in values :: checked[p]
      {
        var p :| p in values;
        if !checked[p] {
          return false;
        }
        values := values - {p};
      }
      return true;
    }

    /** Does nothing wait or run any more? */
    method IsDone() returns (done: bool)
      requires Valid()
      ensures done <==> forall n | n in graph.nodes :: status[n] != Waiting && status[n] != Running
    {
      var rest := graph.nodes.Keys;
      while rest != {}
        invariant rest <= graph.nodes.Keys
        invariant forall n | n in graph.nodes && n !in rest :: status[n] != Waiting && status[n] != Running
      {
        var n :| n in rest;
        match status[n] {
          case Waiting => return false;
          case Running => return false;
          case _ =>
        }
        rest := rest - {n};
      }
      return true;
    }
  }

  lemma WellBuiltEdgeUp(g: Graph, n: Name, p: Name)
    requires WellBuilt(g) && p in Succ(g.parent, n)
    ensures p in g.nodes && p != n
  {
    InverseEdges(g.parent, g.children, p, n);
    EdgeFollows(g.children, p, n);
  }

  lemma NoOwnParent(g: Graph, n: Name)
    requires WellBuilt(g)
    ensures n !in Succ(g.parent, n)
  {
    if n in Succ(g.parent, n) {
      WellBuiltEdgeUp(g, n, n);
    }
  }

  function ReadAll(g: seq<Name>, order: seq<Name>): seq<Step> {
    if order == [] then [] else [ReadParent(g, order[0])] + ReadAll(g, order[1..])
  }

  /** All of the listed parents pass; some of them blocks. */
  ghost predicate AllPass(top: Graph, s: State, g: seq<Name>, order: seq<Name>) {
    forall p | p in order :: Passing(top, s, StageId(g, p))
  }

  ghost predicate OneBlocks(top: Graph, s: State, g: seq<Name>, order: seq<Name>) {
    exists p :: p in order && Blocking(top, s, StageId(g, p))
  }

  lemma VerdictSplit(top: Graph, s: State, u: State, g: seq<Name>, order: seq<Name>)
    requires order != []
    requires forall p | p in order[1..] :: StatusOf(u, StageId(g, p)) == StatusOf(s, StageId(g, p))
    ensures AllPass(top, s, g, order) <==> Passing(top, s, StageId(g, order[0])) && AllPass(top, u, g, order[1..])
    ensures OneBlocks(top, s, g, order) <==> Blocking(top, s, StageId(g, order[0])) || OneBlocks(top, u, g, order[1..])
  {
    assert forall q :: q in order <==> q == order[0] || q in order[1..];
    if OneBlocks(top, u, g, order[1..]) {
      var q :| q in order[1..] && Blocking(top, u, StageId(g, q));
      assert Blocking(top, s, StageId(g, q));
    }
  }

  lemma RestOfOrder(order: seq<Name>)
    requires order != [] && forall i, j | 0 <= i < j < |order| :: order[i] != order[j]
    ensures (set p | p in order) - {order[0]} == set q | q in order[1..]
    ensures order[0] !in order[1..]
    ensures forall i, j | 0 <= i < j < |order[1..]| :: order[1..][i] != order[1..][j]
  {
  }

  /**
    The parent reads of one check, when no other step comes between them, find in any order
    what CheckStatus finds.
   */
  lemma {:induction false} UndisturbedCheck(top: Graph, s: State, g: seq<Name>, order: seq<Name>) returns (t: State)
    requires LoopOf(s, g).Checking? && LoopOf(s, g).unread == set p | p in order
    requires forall i, j | 0 <= i < j < |order| :: order[i] != order[j]
    requires LoopOf(s, g).stage !in order
    ensures Run(top, s, ReadAll(g, order), t)
    ensures LoopOf(t, g) ==
              LoopOf(s, g).(unread := {}, ready := LoopOf(s, g).ready && AllPass(top, s, g, order))
    ensures StatusOf(t, StageId(g, LoopOf(s, g).stage)) ==
              if OneBlocks(top, s, g, order) then Canceled else StatusOf(s, StageId(g, LoopOf(s, g).stage))
    ensures forall y :: y != StageId(g, LoopOf(s, g).stage) ==> StatusOf(t, y) == StatusOf(s, y)
    decreases |order|
  {
    if order == [] {
      t := s;
    } else {
      var p, l := order[0], LoopOf(s, g);
      var u := ReadParentStep(top, s, g, p);
      RestOfOrder(order);
      ReadEffect(top, s, g, p);
      hide ReadParentStep, AllPass, OneBlocks, Passing, Blocking;
      VerdictSplit(top, s, u, g, order);
      t := UndisturbedCheck(top, u, g, order[1..]);
      assert ReadAll(g, order)[0] == ReadParent(g, p) && ReadAll(g, order)[1..] == ReadAll(g, order[1..]);
    }
  }

  // ----- the loops on a board and the steps

  /** A board shows the statuses that the stages of a graph have in a state. */
  ghost predicate Shows(top: Graph, s: State, g: seq<Name>, graph: Graph, status: map<Name, Status>) {
    && GraphAt(top, g) == Some(graph) && status.Keys == graph.nodes.Keys
    && forall n | n in graph.nodes :: status[n] == StatusOf(s, StageId(g, n))
  }

  lemma SameVerdicts(top: Graph, s: State, g: seq<Name>, graph: Graph, status: map<Name, Status>, p: Name)
    requires Shows(top, s, g, graph, status) && p in graph.nodes
    ensures Passes(graph, status, p) <==> Passing(top, s, StageId(g, p))
    ensures Blocks(graph, status, p) <==> Blocking(top, s, StageId(g, p))
  {
  }

  /**
    The parent check on a board and the single reads of the step relation come to the same: the
    same answer, and statuses that the board shows again.  The reads may be in any order.
   */
  lemma CheckAgrees(top: Graph, s: State, g: seq<Name>, graph: Graph, status: map<Name, Status>, order: seq<Name>)
    returns (t: State)
    requires WellBuilt(graph) && Shows(top, s, g, graph, status)
    requires LoopOf(s, g).Checking? && LoopOf(s, g).ready && LoopOf(s, g).stage in graph.nodes
    requires LoopOf(s, g).unread == ParentsAt(top, g, LoopOf(s, g).stage) == set p | p in order
    requires forall i, j | 0 <= i < j < |order| :: order[i] != order[j]
    ensures Run(top, s, ReadAll(g, order), t) && LoopOf(t, g).Checking? && LoopOf(t, g).unread == {}
    ensures LoopOf(t, g).ready <==> forall p | p in Succ(graph.parent, LoopOf(s, g).stage) :: Passes(graph, status, p)
    ensures Shows(top, t, g, graph, AfterCheck(graph, status, LoopOf(s, g).stage))
  {
    var n := LoopOf(s, g).stage;
    ParentsInOrder(top, g, graph, n, order);
    NoOwnParent(graph, n);
    t := UndisturbedCheck(top, s, g, order);
    hide Run, ReadAll, WellBuilt, AllPass, OneBlocks, GraphAt, ParentsAt, SomeBlocks;
    VerdictsAgree(top, s, g, graph, status, n, order);
    BoardFollows(top, s, t, g, graph, status, n, OneBlocks(top, s, g, order));
  }

  lemma VerdictsAgree(
    top: Graph, s: State, g: seq<Name>, graph: Graph, status: map<Name, Status>, n: Name, order: seq<Name>)
    requires WellBuilt(graph) && Shows(top, s, g, graph, status)
    requires forall p :: p in order <==> p in Succ(graph.parent, n)
    ensures AllPass(top, s, g, order) <==> forall p | p in Succ(graph.parent, n) :: Passes(graph, status, p)
    ensures OneBlocks(top, s, g, order) <==> SomeBlocks(graph, status, set p | p in Succ(graph.parent, n))
  {
    forall p | p in order
      ensures Passes(graph, status, p) <==> Passing(top, s, StageId(g, p))
      ensures Blocks(graph, status, p) <==> Blocking(top, s, StageId(g, p))
    {
      WellBuiltEdgeUp(graph, n, p);
      SameVerdicts(top, s, g, graph, status, p);
    }
    hide WellBuilt, Shows, Passing, Blocking, Passes, Blocks;
    var parents := set p | p in Succ(graph.parent, n);
    if SomeBlocks(graph, status, parents) {
      var p :| p in parents && Blocks(graph, status, p);
      assert p in order && Blocking(top, s, StageId(g, p));
    }
    if OneBlocks(top, s, g, order) {
      var p :| p in order && Blocking(top, s, StageId(g, p));
      assert p in parents && Blocks(graph, status, p);
    }
  }

  /** A board that is changed as the state is goes on showing it. */
  lemma BoardFollows(
    top: Graph, s: State, t: State, g: seq<Name>, graph: Graph, status: map<Name, Status>, n: Name, blocked: bool)
    requires Shows(top, s, g, graph, status) && n in graph.nodes
    requires StatusOf(t, StageId(g, n)) == if blocked then Canceled else StatusOf(s, StageId(g, n))
    requires forall y :: y != StageId(g, n) ==> StatusOf(t, y) == StatusOf(s, y)
    requires blocked <==> SomeBlocks(graph, status, set p | p in Succ(graph.parent, n))
    ensures Shows(top, t, g, graph, AfterCheck(graph, status, n))
  {
    hide StatusOf, SomeBlocks, GraphAt;
    var after := AfterCheck(graph, status, n);
    assert after.Keys == status.Keys;
  }

  lemma ParentsInOrder(top: Graph, g: seq<Name>, graph: Graph, n: Name, order: seq<Name>)
    requires GraphAt(top, g) == Some(graph) && ParentsAt(top, g, n) == set p | p in order
    ensures forall p :: p in order <==> p in Succ(graph.parent, n)
  {
    forall p ensures p in order <==> p in ParentsAt(top, g, n) {}
  }

  /** The reads of a done check: one stage after the other, up to the first that waits or runs. */
  function PollAll(s: State, g: seq<Name>, order: seq<Name>): seq<Step> {
    if order == [] then []
    else [Poll(g, order[0])] + if Busy(s, g, order[0]) then [] else PollAll(s, g, order[1..])
  }

  predicate Busy(s: State, g: seq<Name>, n: Name) {
    StatusOf(s, StageId(g, n)) == Waiting || StatusOf(s, StageId(g, n)) == Running
  }

  ghost predicate SomeBusy(s: State, g: seq<Name>, order: seq<Name>) {
    exists n :: n in order && Busy(s, g, n)
  }

  /** Undisturbed, they find in any order whether a stage waits or runs. */
  lemma {:induction false} UndisturbedPoll(top: Graph, s: State, g: seq<Name>, order: seq<Name>) returns (t: State)
    requires LoopOf(s, g).Polling? && LoopOf(s, g).rest == set n | n in order
    requires forall i, j | 0 <= i < j < |order| :: order[i] != order[j]
    ensures Run(top, s, PollAll(s, g, order), t) && forall y :: StatusOf(t, y) == StatusOf(s, y)
    ensures LoopOf(t, g) == if SomeBusy(s, g, order) then Polled else Polling({})
    decreases |order|
  {
    if order == [] {
      t := s;
      assert LoopOf(s, g).rest == {};
    } else {
      var n := order[0];
      var u := PollStep(s, g, n);
      RestOfOrder(order);
      assert forall q :: q in order <==> q == n || q in order[1..];
      if Busy(s, g, n) {
        t := u;
        assert SomeBusy(s, g, order);
        assert [Poll(g, n)][1..] == [];
      } else {
        SamePolls(s, u, g, order[1..]);
        t := UndisturbedPoll(top, u, g, order[1..]);
        assert PollAll(s, g, order)[1..] == PollAll(u, g, order[1..]);
      }
    }
  }

  lemma {:induction false} SamePolls(s: State, u: State, g: seq<Name>, order: seq<Name>)
    requires forall y :: StatusOf(u, y) == StatusOf(s, y)
    ensures PollAll(u, g, order) == PollAll(s, g, order) && (SomeBusy(u, g, order) <==> SomeBusy(s, g, order))
  {
    if order != [] {
      SamePolls(s, u, g, order[1..]);
    }
    if SomeBusy(s, g, order) {
      var n :| n in order && Busy(s, g, n);
      assert Busy(u, g, n);
    }
    if SomeBusy(u, g, order) {
      var n :| n in order && Busy(u, g, n);
      assert Busy(s, g, n);
    }
  }

  /** The done check on a board and the reads of the step relation come to the same. */
  lemma DoneAgrees(top: Graph, s: State, g: seq<Name>, graph: Graph, status: map<Name, Status>, order: seq<Name>)
    returns (t: State)
    requires Shows(top, s, g, graph, status)
    requires LoopOf(s, g) == Polling(graph.nodes.Keys) && graph.nodes.Keys == set n | n in order
    requires forall i, j | 0 <= i < j < |order| :: order[i] != order[j]
    ensures Run(top, s, PollAll(s, g, order), t) && Shows(top, t, g, graph, status)
    ensures LoopOf(t, g) == Polling({}) || LoopOf(t, g) == Polled
    ensures LoopOf(t, g) == Polling({}) <==> forall n | n in graph.nodes :: status[n] != Waiting && status[n] != Running
  {
    t := UndisturbedPoll(top, s, g, order);
    hide Run, PollAll, LoopOf, GraphAt;
    forall n ensures n in order <==> n in graph.nodes.Keys {}
    if SomeBusy(s, g, order) {
      var n :| n in order && Busy(s, g, n);
      assert n in graph.nodes;
    } else {
      forall n | n in graph.nodes ensures status[n] != Waiting && status[n] != Running {
        assert n in order && !Busy(s, g, n);
      }
    }
  }
}
