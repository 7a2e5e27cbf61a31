/**
  The runs of a recursion that goes through its subcalls in any order.  A call does something
  of its own, then makes its inner calls in any order, then those for its children in any
  order.  Which write is the last one before the last of certain visits can be read off the
  tree of calls.
 */
module CallTrees {
  import opened Digraph
  import opened Stages

  /** The visit of a stage, in the pipeline it belongs to, below the given names. */
  datatype Visit = Visit(anc: seq<string>, g: Graph, n: Name)

  datatype Call = Call(own: seq<Visit>, inner: Calls, kids: Calls)

  datatype Calls = Calls(of: map<Name, Call>)

  // ----- runs

  ghost predicate RunOf(c: Call, run: seq<Visit>)
    decreases c, 1
  {
    exists a, b :: RunInParts(c, run, a, b)
  }

  ghost predicate RunInParts(c: Call, run: seq<Visit>, a: seq<Visit>, b: seq<Visit>)
    decreases c, 0
  {
    run == c.own + a + b && RunOfSome(c.inner, c.inner.of.Keys, a) && RunOfSome(c.kids, c.kids.of.Keys, b)
  }

  /** A run of some of the calls, one after the other. */
  ghost predicate RunOfSome(cs: Calls, names: set<Name>, run: seq<Visit>)
    requires names <= cs.of.Keys
    decreases cs, |names|
  {
    if names == {} then run == [] else exists k, a, b :: RunEndsWith(cs, names, run, k, a, b)
  }

  ghost predicate RunEndsWith(cs: Calls, names: set<Name>, run: seq<Visit>, k: Name, a: seq<Visit>, b: seq<Visit>)
    requires names <= cs.of.Keys
    decreases cs, |names|, 0
  {
    k in names && run == a + b && RunOfSome(cs, names - {k}, a) && RunOf(cs.of[k], b)
  }

  lemma RunOfTwo(cs: Calls, p: set<Name>, q: set<Name>, a: seq<Visit>, b: seq<Visit>)
    requires p <= cs.of.Keys && q <= cs.of.Keys && p !! q
    requires RunOfSome(cs, p, a) && RunOfSome(cs, q, b)
    ensures RunOfSome(cs, p + q, a + b)
    decreases |q|
  {
    if q == {} {
      assert p + q == p && a + b == a;
    } else {
      var k, b0, b1 :| RunEndsWith(cs, q, b, k, b0, b1);
      RunOfTwo(cs, p, q - {k}, a, b0);
      assert p + (q - {k}) == p + q - {k};
      assert a + b == a + b0 + b1;
      assert RunEndsWith(cs, p + q, a + b, k, a + b0, b1);
    }
  }

  lemma RunOfOne(cs: Calls, k: Name, run: seq<Visit>)
    requires k in cs.of && RunOf(cs.of[k], run)
    ensures RunOfSome(cs, {k}, run)
  {
    assert {k} - {k} == {} && run == [] + run;
    assert RunEndsWith(cs, {k}, run, k, [], run);
  }

  lemma {:induction false} SomeRun(c: Call) returns (run: seq<Visit>)
    ensures RunOf(c, run)
    decreases c, 1
  {
    var a := SomeRunOf(c.inner, c.inner.of.Keys);
    var b := SomeRunOf(c.kids, c.kids.of.Keys);
    run := c.own + a + b;
    assert RunInParts(c, run, a, b);
  }

  lemma {:induction false} SomeRunOf(cs: Calls, names: set<Name>) returns (run: seq<Visit>)
    requires names <= cs.of.Keys
    ensures RunOfSome(cs, names, run)
    decreases cs, |names|
  {
    if names == {} {
      run := [];
    } else {
      var k :| k in names;
      var a := SomeRunOf(cs, names - {k});
      var b := SomeRun(cs.of[k]);
      run := a + b;
      assert RunEndsWith(cs, names, run, k, a, b);
    }
  }

  // ----- the last write before the last visit, in a run

  /** The last of the given writes. */
  ghost function LastWrite(run: seq<Visit>, writes: iset<Visit>): Option<Visit> {
    if run == [] then None
    else if run[|run| - 1] in writes then Some(run[|run| - 1])
    else LastWrite(run[..|run| - 1], writes)
  }

  /** What the last of the given visits comes after: a write, or none in this run. */
  datatype Seen = Never | After(write: Option<Visit>)

  ghost function SeenLast(run: seq<Visit>, writes: iset<Visit>, looks: iset<Visit>): Seen {
    if run == [] then Never
    else if run[|run| - 1] in looks then After(LastWrite(run[..|run| - 1], writes))
    else SeenLast(run[..|run| - 1], writes, looks)
  }

  function Then(first: Option<Visit>, second: Option<Visit>): Option<Visit> {
    if second.Some? then second else first
  }

  /** What is seen in the second part of a run, once the first part is known. */
  function SeenThen(first: Seen, write: Option<Visit>, second: Seen): Seen {
    match second
    case Never => first
    case After(o) => After(Then(write, o))
  }

  lemma {:induction false} LastWriteOfTwo(a: seq<Visit>, b: seq<Visit>, writes: iset<Visit>)
    ensures LastWrite(a + b, writes) == Then(LastWrite(a, writes), LastWrite(b, writes))
  {
    if b == [] {
      assert a + b == a;
    } else {
      assert (a + b)[..|a + b| - 1] == a + b[..|b| - 1];
      LastWriteOfTwo(a, b[..|b| - 1], writes);
    }
  }

  lemma {:induction false} SeenLastOfTwo(a: seq<Visit>, b: seq<Visit>, writes: iset<Visit>, looks: iset<Visit>)
    ensures SeenLast(a + b, writes, looks) ==
            SeenThen(SeenLast(a, writes, looks), LastWrite(a, writes), SeenLast(b, writes, looks))
  {
    if b == [] {
      assert a + b == a;
    } else {
      assert (a + b)[..|a + b| - 1] == a + b[..|b| - 1];
      SeenLastOfTwo(a, b[..|b| - 1], writes, looks);
      LastWriteOfTwo(a, b[..|b| - 1], writes);
    }
  }

  // ----- the same, read off the tree of calls

  /** Some visit of the call is one of the given. */
  ghost predicate Holds(c: Call, vs: iset<Visit>)
    decreases c, 1
  {
    || (exists v :: v in c.own && v in vs)
    || SomeHold(c.inner, c.inner.of.Keys, vs)
    || SomeHold(c.kids, c.kids.of.Keys, vs)
  }

  ghost predicate SomeHold(cs: Calls, names: set<Name>, vs: iset<Visit>)
    requires names <= cs.of.Keys
    decreases cs, 0
  {
    exists k :: k in names && Holds(cs.of[k], vs)
  }

  /** A write can be the last of a call: of its children if these write at all, else of its inner calls. */
  ghost predicate CanEndWith(c: Call, writes: iset<Visit>, v: Visit)
    decreases c, 1
  {
    if SomeHold(c.kids, c.kids.of.Keys, writes) then EndsIn(c.kids, c.kids.of.Keys, writes, v)
    else BeforeKids(c, writes, Some(v))
  }

  ghost predicate EndsIn(cs: Calls, names: set<Name>, writes: iset<Visit>, v: Visit)
    requires names <= cs.of.Keys
    decreases cs, 0
  {
    exists k :: k in names && CanEndWith(cs.of[k], writes, v)
  }

  /** What has been written last when the calls for the children begin. */
  ghost predicate BeforeKids(c: Call, writes: iset<Visit>, o: Option<Visit>)
    decreases c, 0
  {
    if SomeHold(c.inner, c.inner.of.Keys, writes) then o.Some? && EndsIn(c.inner, c.inner.of.Keys, writes, o.value)
    else o == LastWrite(c.own, writes)
  }

  /**
    What the last of the given visits in a call can come after.  It is among the children if they
    have such visits at all, else in the inner calls, else the call's own.
   */
  ghost predicate CanSee(c: Call, writes: iset<Visit>, looks: iset<Visit>, o: Option<Visit>)
    decreases c, 1
  {
    if SomeHold(c.kids, c.kids.of.Keys, looks) then
      || (o.Some? && SomeSee(c.kids, c.kids.of.Keys, writes, looks, o))
      || (SomeSee(c.kids, c.kids.of.Keys, writes, looks, None) && BeforeKids(c, writes, o))
    else if SomeHold(c.inner, c.inner.of.Keys, looks) then
      || (o.Some? && SomeSee(c.inner, c.inner.of.Keys, writes, looks, o))
      || (SomeSee(c.inner, c.inner.of.Keys, writes, looks, None) && o == LastWrite(c.own, writes))
    else
      SeenLast(c.own, writes, looks) == After(o)
  }

  /** The same for some calls in any order. */
  ghost predicate SomeSee(cs: Calls, names: set<Name>, writes: iset<Visit>, looks: iset<Visit>, o: Option<Visit>)
    requires names <= cs.of.Keys
    decreases cs, 1
  {
    exists k :: k in names && SeesIn(cs, names, k, writes, looks, o)
  }

  /**
    The last visit is in one of the calls.  What it comes after is written there, or by any
    other of the calls that writes, made just before; nothing of the two only if the other
    calls that have such visits too, and so must come earlier, do not write.
   */
  ghost predicate SeesIn(
    cs: Calls, names: set<Name>, k: Name, writes: iset<Visit>, looks: iset<Visit>, o: Option<Visit>)
    requires names <= cs.of.Keys && k in names
    decreases cs, 0
  {
    match o
    case Some(v) =>
      || CanSee(cs.of[k], writes, looks, o)
      || (CanSee(cs.of[k], writes, looks, None) && EndsIn(cs, names - {k}, writes, v))
    case None =>
      && CanSee(cs.of[k], writes, looks, None)
      && forall j | j in names && j != k && Holds(cs.of[j], looks) :: !Holds(cs.of[j], writes)
  }

  // ----- every run is as the tree says

  lemma {:induction false} OwnWrite(run: seq<Visit>, vs: iset<Visit>)
    ensures LastWrite(run, vs).Some? <==> exists v :: v in run && v in vs
  {
    if run != [] {
      var front, last := run[..|run| - 1], run[|run| - 1];
      OwnWrite(front, vs);
      assert forall v :: v in run <==> v in front || v == last;
    }
  }

  lemma {:induction false} WriteOfRun(c: Call, writes: iset<Visit>, run: seq<Visit>)
    requires RunOf(c, run)
    ensures LastWrite(run, writes).Some? <==> Holds(c, writes)
    ensures LastWrite(run, writes).Some? ==> CanEndWith(c, writes, LastWrite(run, writes).value)
    decreases c, 1
  {
    var a, b :| RunInParts(c, run, a, b);
    OwnWrite(c.own, writes);
    WriteOfSome(c.inner, c.inner.of.Keys, writes, a);
    WriteOfSome(c.kids, c.kids.of.Keys, writes, b);
    LastWriteOfTwo(c.own + a, b, writes);
    LastWriteOfTwo(c.own, a, writes);
  }

  lemma {:induction false} WriteOfSome(cs: Calls, names: set<Name>, writes: iset<Visit>, run: seq<Visit>)
    requires names <= cs.of.Keys && RunOfSome(cs, names, run)
    ensures LastWrite(run, writes).Some? <==> SomeHold(cs, names, writes)
    ensures LastWrite(run, writes).Some? ==> EndsIn(cs, names, writes, LastWrite(run, writes).value)
    decreases cs, |names|
  {
    if names != {} {
      var k, a, b :| RunEndsWith(cs, names, run, k, a, b);
      WriteOfSome(cs, names - {k}, writes, a);
      WriteOfRun(cs.of[k], writes, b);
      LastWriteOfTwo(a, b, writes);
      assert forall j :: j in names <==> j in names - {k} || j == k;
    }
  }

  /** Whether a call has one of the visits at all shows in every run of it. */
  lemma {:induction false} LooksOfRun(c: Call, writes: iset<Visit>, looks: iset<Visit>, run: seq<Visit>)
    requires RunOf(c, run)
    ensures SeenLast(run, writes, looks).After? <==> Holds(c, looks)
  {
    WriteOfRun(c, looks, run);
    SeenIfThere(run, writes, looks);
  }

  lemma {:induction false} SeenIfThere(run: seq<Visit>, writes: iset<Visit>, looks: iset<Visit>)
    ensures SeenLast(run, writes, looks).After? <==> LastWrite(run, looks).Some?
  {
    if run != [] {
      SeenIfThere(run[..|run| - 1], writes, looks);
    }
  }

  lemma {:induction false} SeenInRun(c: Call, writes: iset<Visit>, looks: iset<Visit>, run: seq<Visit>)
    requires RunOf(c, run) && SeenLast(run, writes, looks).After?
    ensures CanSee(c, writes, looks, SeenLast(run, writes, looks).write)
    decreases c, 1
  {
    var a, b :| RunInParts(c, run, a, b);
    SeenLastOfTwo(c.own + a, b, writes, looks);
    SeenLastOfTwo(c.own, a, writes, looks);
    LastWriteOfTwo(c.own, a, writes);
    WriteOfSome(c.inner, c.inner.of.Keys, writes, a);
    SeenIfThere(a, writes, looks);
    SeenIfThere(b, writes, looks);
    WriteOfSome(c.inner, c.inner.of.Keys, looks, a);
    WriteOfSome(c.kids, c.kids.of.Keys, looks, b);
    if SomeHold(c.kids, c.kids.of.Keys, looks) {
      SeenInSome(c.kids, c.kids.of.Keys, writes, looks, b);
    } else if SomeHold(c.inner, c.inner.of.Keys, looks) {
      SeenInSome(c.inner, c.inner.of.Keys, writes, looks, a);
    }
  }

  lemma {:induction false} SeenInSome(
    cs: Calls, names: set<Name>, writes: iset<Visit>, looks: iset<Visit>, run: seq<Visit>)
    requires names <= cs.of.Keys && RunOfSome(cs, names, run) && SeenLast(run, writes, looks).After?
    ensures SomeSee(cs, names, writes, looks, SeenLast(run, writes, looks).write)
    decreases cs, |names|
  {
    var k, a, b :| RunEndsWith(cs, names, run, k, a, b);
    SeenLastOfTwo(a, b, writes, looks);
    LooksOfRun(cs.of[k], writes, looks, b);
    WriteOfSome(cs, names - {k}, writes, a);
    var o := SeenLast(run, writes, looks).write;
    if Holds(cs.of[k], looks) {
      SeenInRun(cs.of[k], writes, looks, b);
      assert SeesIn(cs, names, k, writes, looks, o);
    } else {
      SeenInSome(cs, names - {k}, writes, looks, a);
      var j :| j in names - {k} && SeesIn(cs, names - {k}, j, writes, looks, o);
      assert SeesIn(cs, names, j, writes, looks, o);
    }
  }

  // ----- and everything the tree says happens in some run

  lemma {:induction false} EndingRun(c: Call, writes: iset<Visit>, v: Visit) returns (run: seq<Visit>)
    requires CanEndWith(c, writes, v)
    ensures RunOf(c, run) && LastWrite(run, writes) == Some(v)
    decreases c, 1
  {
    var a, b;
    if SomeHold(c.kids, c.kids.of.Keys, writes) {
      a := SomeRunOf(c.inner, c.inner.of.Keys);
      b := EndingRunOf(c.kids, c.kids.of.Keys, writes, v);
    } else {
      a := BeginningRun(c, writes, Some(v));
      b := SomeRunOf(c.kids, c.kids.of.Keys);
      WriteOfSome(c.kids, c.kids.of.Keys, writes, b);
    }
    run := c.own + a + b;
    LastWriteOfTwo(c.own + a, b, writes);
    assert RunInParts(c, run, a, b);
  }

  /** A run of the inner calls after which the given write is the last. */
  lemma {:induction false} BeginningRun(c: Call, writes: iset<Visit>, o: Option<Visit>) returns (a: seq<Visit>)
    requires BeforeKids(c, writes, o)
    ensures RunOfSome(c.inner, c.inner.of.Keys, a) && LastWrite(c.own + a, writes) == o
    decreases c, 0
  {
    if SomeHold(c.inner, c.inner.of.Keys, writes) {
      a := EndingRunOf(c.inner, c.inner.of.Keys, writes, o.value);
    } else {
      a := SomeRunOf(c.inner, c.inner.of.Keys);
      WriteOfSome(c.inner, c.inner.of.Keys, writes, a);
    }
    LastWriteOfTwo(c.own, a, writes);
  }

  lemma {:induction false} EndingRunOf(cs: Calls, names: set<Name>, writes: iset<Visit>, v: Visit)
    returns (run: seq<Visit>)
    requires names <= cs.of.Keys && EndsIn(cs, names, writes, v)
    ensures RunOfSome(cs, names, run) && LastWrite(run, writes) == Some(v)
    decreases cs, 0
  {
    var k :| k in names && CanEndWith(cs.of[k], writes, v);
    var a := SomeRunOf(cs, names - {k});
    var b := EndingRun(cs.of[k], writes, v);
    run := a + b;
    LastWriteOfTwo(a, b, writes);
    assert RunEndsWith(cs, names, run, k, a, b);
  }

  lemma {:induction false} SeeingRun(c: Call, writes: iset<Visit>, looks: iset<Visit>, o: Option<Visit>)
    returns (run: seq<Visit>)
    requires CanSee(c, writes, looks, o)
    ensures RunOf(c, run) && SeenLast(run, writes, looks) == After(o)
    decreases c, 1
  {
    var a, b;
    if SomeHold(c.kids, c.kids.of.Keys, looks) {
      if o.Some? && SomeSee(c.kids, c.kids.of.Keys, writes, looks, o) {
        a := SomeRunOf(c.inner, c.inner.of.Keys);
        b := SeeingRunOf(c.kids, c.kids.of.Keys, writes, looks, o);
      } else {
        a := BeginningRun(c, writes, o);
        b := SeeingRunOf(c.kids, c.kids.of.Keys, writes, looks, None);
      }
    } else {
      a := SeeingInner(c, writes, looks, o);
      b := SomeRunOf(c.kids, c.kids.of.Keys);
      NeverSeen(c.kids, c.kids.of.Keys, writes, looks, b);
    }
    run := c.own + a + b;
    SeenLastOfTwo(c.own + a, b, writes, looks);
    assert RunInParts(c, run, a, b);
  }

  lemma {:induction false} SeeingInner(c: Call, writes: iset<Visit>, looks: iset<Visit>, o: Option<Visit>)
    returns (a: seq<Visit>)
    requires CanSee(c, writes, looks, o) && !SomeHold(c.kids, c.kids.of.Keys, looks)
    ensures RunOfSome(c.inner, c.inner.of.Keys, a) && SeenLast(c.own + a, writes, looks) == After(o)
    decreases c, 0
  {
    if SomeHold(c.inner, c.inner.of.Keys, looks) {
      if o.Some? && SomeSee(c.inner, c.inner.of.Keys, writes, looks, o) {
        a := SeeingRunOf(c.inner, c.inner.of.Keys, writes, looks, o);
      } else {
        a := SeeingRunOf(c.inner, c.inner.of.Keys, writes, looks, None);
      }
    } else {
      a := SomeRunOf(c.inner, c.inner.of.Keys);
      NeverSeen(c.inner, c.inner.of.Keys, writes, looks, a);
    }
    SeenLastOfTwo(c.own, a, writes, looks);
  }

  lemma NeverSeen(cs: Calls, names: set<Name>, writes: iset<Visit>, looks: iset<Visit>, run: seq<Visit>)
    requires names <= cs.of.Keys && RunOfSome(cs, names, run) && !SomeHold(cs, names, looks)
    ensures SeenLast(run, writes, looks) == Never
  {
    WriteOfSome(cs, names, looks, run);
    SeenIfThere(run, writes, looks);
  }

  lemma {:induction false} SeeingRunOf(
    cs: Calls, names: set<Name>, writes: iset<Visit>, looks: iset<Visit>, o: Option<Visit>) returns (run: seq<Visit>)
    requires names <= cs.of.Keys && SomeSee(cs, names, writes, looks, o)
    ensures RunOfSome(cs, names, run) && SeenLast(run, writes, looks) == After(o)
    decreases cs, 1
  {
    var k :| k in names && SeesIn(cs, names, k, writes, looks, o);
    if o.Some? {
      var a, b;
      if CanSee(cs.of[k], writes, looks, o) {
        a := SomeRunOf(cs, names - {k});
        b := SeeingRun(cs.of[k], writes, looks, o);
      } else {
        a := EndingRunOf(cs, names - {k}, writes, o.value);
        b := SeeingRun(cs.of[k], writes, looks, None);
      }
      run := a + b;
      SeenLastOfTwo(a, b, writes, looks);
      assert RunEndsWith(cs, names, run, k, a, b);
    } else {
      run := FirstSeenRun(cs, names, k, writes, looks);
    }
  }

  /** Make the other calls that have such visits first, then this one, and the rest after it. */
  lemma {:induction false} FirstSeenRun(
    cs: Calls, names: set<Name>, k: Name, writes: iset<Visit>, looks: iset<Visit>) returns (run: seq<Visit>)
    requires names <= cs.of.Keys && k in names && SeesIn(cs, names, k, writes, looks, None)
    ensures RunOfSome(cs, names, run) && SeenLast(run, writes, looks) == After(None)
    decreases cs, 0
  {
    var early := set j | j in names && j != k && Holds(cs.of[j], looks);
    var late := names - early - {k};
    var a := SomeRunOf(cs, early);
    var b := SeeingRun(cs.of[k], writes, looks, None);
    var d := SomeRunOf(cs, late);
    WriteOfSome(cs, early, writes, a);
    NeverSeen(cs, late, writes, looks, d);
    run := a + b + d;
    SeenLastOfTwo(a, b, writes, looks);
    SeenLastOfTwo(a + b, d, writes, looks);
    RunOfOne(cs, k, b);
    RunOfTwo(cs, early, {k}, a, b);
    RunOfTwo(cs, early + {k}, late, a + b, d);
    assert early + {k} + late == names;
  }

  /**
    Which write can be the last before the last visit, over all runs of a call: exactly what
    the tree of calls says.
   */
  lemma CanSeeExactly(c: Call, writes: iset<Visit>, looks: iset<Visit>, o: Option<Visit>)
    ensures CanSee(c, writes, looks, o) <==> exists run :: RunOf(c, run) && SeenLast(run, writes, looks) == After(o)
  {
    if CanSee(c, writes, looks, o) {
      var run := SeeingRun(c, writes, looks, o);
    }
    if run :| RunOf(c, run) && SeenLast(run, writes, looks) == After(o) {
      SeenInRun(c, writes, looks, run);
    }
  }
}
