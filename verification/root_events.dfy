/**
  Which events can be behind a run of each workflow: the events every workflow declares are
  passed on along calls, in place and in any order, until nothing changes any more.
 */
module RootEvents {
  import opened Workflows

  type EventSets = map<Path, set<RootEvent>>

  ghost predicate Closed(ws: Repository, m: EventSets)
    requires m.Keys == ws.Keys
  {
    forall a, b | Calls(ws, a, b) :: m[a] <= m[b]
  }

  /** Every workflow has its own events. */
  ghost predicate HasOwn(ws: Repository, m: EventSets)
    requires m.Keys == ws.Keys
  {
    forall w, e | w in ws && Declares(ws[w], e) :: e in m[w]
  }

  /** Every workflow has its own events, and no event that does not reach it. */
  ghost predicate Between(ws: Repository, m: EventSets) {
    && m.Keys == ws.Keys && HasOwn(ws, m)
    && (forall w, e | w in ws && e in m[w] :: ReachedBy(ws, w, e))
  }

  /** The events of every workflow are exactly those that reach it. */
  ghost predicate Exact(ws: Repository, m: EventSets) {
    m.Keys == ws.Keys && forall w, e | w in ws :: e in m[w] <==> ReachedBy(ws, w, e)
  }

  lemma ClosedIsExact(ws: Repository, m: EventSets)
    requires Between(ws, m) && Closed(ws, m)
    ensures Exact(ws, m)
  {
    forall w, e | w in ws && ReachedBy(ws, w, e) ensures e in m[w] {
      var s :| ReachedByFrom(ws, w, e, s);
      var p :| Chain(ws, p, s, w);
      AlongChain(ws, m, p, s, w);
    }
  }

  /**
    The exact sets are the least ones that hold every workflow's own events and grow along
    calls: they do both, and are contained in all sets that do.
   */
  lemma ExactIsLeast(ws: Repository, m: EventSets, other: EventSets)
    requires Exact(ws, m)
    ensures Closed(ws, m) && HasOwn(ws, m)
    ensures other.Keys == ws.Keys && Closed(ws, other) && HasOwn(ws, other) ==> forall w | w in ws :: m[w] <= other[w]
  {
    forall a, b | Calls(ws, a, b) ensures m[a] <= m[b] {
      forall e | e in m[a] ensures e in m[b] {
        PassedOn(ws, a, b, e);
      }
    }
    forall w, e | w in ws && Declares(ws[w], e) ensures e in m[w] {
      OwnReaches(ws, w, e);
    }
    if other.Keys == ws.Keys && Closed(ws, other) && HasOwn(ws, other) {
      forall w, e | w in ws && e in m[w] ensures e in other[w] {
        var s :| ReachedByFrom(ws, w, e, s);
        var p :| Chain(ws, p, s, w);
        AlongChain(ws, other, p, s, w);
      }
    }
  }

  lemma PassedOn(ws: Repository, a: Path, b: Path, e: RootEvent)
    requires Calls(ws, a, b) && ReachedBy(ws, a, e)
    ensures ReachedBy(ws, b, e)
  {
    var s :| ReachedByFrom(ws, a, e, s);
    LeadsOn(ws, s, a, b);
    assert ReachedByFrom(ws, b, e, s);
  }

  lemma OwnReaches(ws: Repository, w: Path, e: RootEvent)
    requires w in ws && Declares(ws[w], e)
    ensures ReachedBy(ws, w, e)
  {
    LeadsToItself(ws, w);
    assert ReachedByFrom(ws, w, e, w);
  }

  /** Every event that is declared anywhere. */
  ghost function Declared(ws: Repository): set<RootEvent> {
    set w, e | w in ws && e in DirectEvents(ws[w]) :: e
  }

  /** What is still missing from sets that can only grow: the pairs of a workflow and a declared event it lacks. */
  ghost function Missing(ws: Repository, m: EventSets): set<(Path, RootEvent)>
    requires m.Keys == ws.Keys
  {
    set w, e | w in ws && e in Declared(ws) && e !in m[w] :: (w, e)
  }

  ghost predicate Grows(m: EventSets, m': EventSets) {
    m'.Keys == m.Keys && forall w | w in m :: m[w] <= m'[w]
  }

  lemma GrowsSelf(ws: Repository, m: EventSets)
    requires Between(ws, m)
    ensures Grows(m, m) && m.Keys == ws.Keys
  {
  }

  /** Sets that only grow are back where they were only if they never changed. */
  lemma GrowsStrictly(a: EventSets, b: EventSets, c: EventSets)
    requires Grows(a, b) && Grows(b, c)
    ensures Grows(a, c) && (c == a <==> a == b && b == c)
  {
    if c == a {
      forall w | w in a ensures a[w] == b[w] {}
      assert a == b;
    }
  }

  lemma MissingShrinks(ws: Repository, m: EventSets, m': EventSets)
    requires Between(ws, m) && Between(ws, m') && Grows(m, m') && m != m'
    ensures |Missing(ws, m')| < |Missing(ws, m)|
  {
    hide ReachedBy, Declared, DirectEvents, Missing;
    var w, e := FindsNew(m, m');
    ReachingIsDeclared(ws, w, e);
    var a, b := Missing(ws, m), Missing(ws, m');
    IsMissing(ws, m, (w, e));
    IsMissing(ws, m', (w, e));
    forall x | x in b ensures x in a {
      IsMissing(ws, m, x);
      IsMissing(ws, m', x);
    }
    Smaller(a, b, (w, e));
  }

  lemma FindsNew(m: EventSets, m': EventSets) returns (w: Path, e: RootEvent)
    requires Grows(m, m') && m != m'
    ensures w in m && e in m'[w] && e !in m[w]
  {
    w :| w in m && m'[w] != m[w];
    e :| e in m'[w] && e !in m[w];
  }

  lemma IsMissing(ws: Repository, m: EventSets, x: (Path, RootEvent))
    requires m.Keys == ws.Keys
    ensures x in Missing(ws, m) <==> x.0 in ws && x.1 in Declared(ws) && x.1 !in m[x.0]
  {
    hide Declared;
    assert x == (x.0, x.1);
  }

  lemma ReachingIsDeclared(ws: Repository, w: Path, e: RootEvent)
    requires ReachedBy(ws, w, e)
    ensures e in Declared(ws)
  {
    var s :| ReachedByFrom(ws, w, e, s);
    DirectEventsAre(ws[s], e);
  }

  lemma Smaller<T>(a: set<T>, b: set<T>, x: T)
    requires b <= a - {x} && x in a
    ensures |b| < |a|
  {
    assert a - {x} == b + (a - {x} - b);
    assert |a - {x}| == |b| + |a - {x} - b|;
  }

  /** One workflow's events are copied to another. */
  ghost predicate Copied(m: EventSets, m': EventSets, source: Path, destination: Path)
    requires source in m && destination in m
  {
    && m'.Keys == m.Keys && m'[destination] == m[destination] + m[source]
    && forall w | w in m && w != destination :: m'[w] == m[w]
  }

  lemma CopyStep(ws: Repository, m: EventSets, m': EventSets, a: Path, b: Path)
    requires Between(ws, m) && Calls(ws, a, b) && Copied(m, m', a, b)
    ensures Between(ws, m') && Grows(m, m')
  {
    assert a in ws && b in ws;
    hide ReachedBy, Calls, Declares;
    forall w, e | w in ws && e in m'[w] ensures ReachedBy(ws, w, e) {
      if w == b && e !in m[w] {
        PassedOn(ws, a, b, e);
      }
    }
    forall w | w in ws ensures m[w] <= m'[w] {
      assert m[w] <= m'[w];
    }
  }

  lemma CopyChanges(m: EventSets, m': EventSets, a: Path, b: Path)
    requires a in m && b in m && Copied(m, m', a, b)
    ensures m == m' <==> m[a] <= m[b]
  {
    if m[a] <= m[b] {
      assert m[b] + m[a] == m[b];
      assert m' == m;
    } else {
      assert m'[b] != m[b];
    }
  }

  lemma KeysSame(ws: Repository, m: EventSets)
    requires Between(ws, m)
    ensures m.Keys == ws.Keys
  {
  }

  class Resolver {
    const workflows: Repository
    var events: EventSets

    constructor (workflows: Repository)
      ensures this.workflows == workflows && events == map[]
    {
      this.workflows, events := workflows, map[];
    }

    /** Copy the events of one workflow to another. */
    method PropagateRootEvents(source: Path, destination: Path) returns (changed: bool)
      requires source in events && destination in events
      modifies this`events
      ensures Copied(old(events), events, source, destination)
      ensures changed <==> !(old(events)[source] <= old(events)[destination])
    {
      changed := false;
      var from, rest := events[source], events[source];
      while rest != {}
        invariant rest <= from
        invariant events.Keys == old(events).Keys && events[destination] == old(events)[destination] + (from - rest)
        invariant forall w | w in events && w != destination :: events[w] == old(events)[w]
        invariant changed <==> !(from - rest <= old(events)[destination])
      {
        var event :| event in rest;
        if event !in events[destination] {
          events := events[destination := events[destination] + {event}];
          changed := true;
        }
        rest := rest - {event};
      }
    }

    /** Pass the events of one workflow on to all the workflows its jobs call. */
    method PropagateFrom(callerPath: Path) returns (changed: bool)
      requires callerPath in workflows && Between(workflows, events)
      modifies this`events
      ensures Between(workflows, events) && Grows(old(events), events)
      ensures changed <==> events != old(events)
      ensures !changed ==> forall b | Calls(workflows, callerPath, b) :: events[callerPath] <= events[b]
    {
      hide Between, Grows;
      GrowsSelf(workflows, events);
      changed := false;
      var jobs := workflows[callerPath].jobs;
      var rest := jobs.Keys;
      while rest != {}
        invariant rest <= jobs.Keys
        invariant Between(workflows, events) && Grows(old(events), events)
        invariant changed <==> events != old(events)
        invariant !changed ==> forall id, b | id !in rest && CallsBy(workflows, callerPath, id, b) ::
            events[callerPath] <= events[b]
      {
        var id :| id in rest;
        var job := jobs[id];
        rest := rest - {id};
        forall b { CalledPathIs(job, b); }
        if CallsLocal(job) {
          var calledPath := CalledPath(job);
          if calledPath in workflows {
            assert CallsBy(workflows, callerPath, id, calledPath);
            ghost var before := events;
            KeysSame(workflows, events);
            var more := PropagateRootEvents(callerPath, calledPath);
            CopyStep(workflows, before, events, callerPath, calledPath);
            CopyChanges(before, events, callerPath, calledPath);
            GrowsStrictly(old(events), before, events);
            changed := more || changed;
          }
        }
      }
    }

    /** One pass over all workflows; without a change, nothing is left to pass on. */
    method PropagateReusableEvents() returns (changed: bool)
      requires Between(workflows, events)
      modifies this`events
      ensures Between(workflows, events) && Grows(old(events), events)
      ensures changed <==> events != old(events)
      ensures !changed ==> Closed(workflows, events)
    {
      changed := false;
      var rest := workflows.Keys;
      while rest != {}
        invariant rest <= workflows.Keys
        invariant Between(workflows, events) && Grows(old(events), events)
        invariant changed <==> events != old(events)
        invariant !changed ==> forall a, b | a !in rest && Calls(workflows, a, b) :: events[a] <= events[b]
      {
        var callerPath :| callerPath in rest;
        ghost var before := events;
        var more := PropagateFrom(callerPath);
        GrowsStrictly(old(events), before, events);
        changed := more || changed;
        rest := rest - {callerPath};
      }
    }

    /** Start from the declared events and pass on until a pass changes nothing. */
    method ResolveEffectiveRootEvents()
      modifies this`events
      ensures Exact(workflows, events)
      ensures events.Keys == workflows.Keys
      ensures forall w, e | w in workflows && Declares(workflows[w], e) :: e in events[w]
      ensures forall a, id, b | a in workflows && b in workflows && id in workflows[a].jobs &&
                  workflows[a].jobs[id].uses == "./" + b && ".github/workflows/" <= b && '@' !in b ::
                  events[a] <= events[b]
    {
      var rest := workflows.Keys;
      events := map[];
      while rest != {}
        invariant rest <= workflows.Keys && events.Keys == workflows.Keys - rest
        invariant forall w | w in events :: events[w] == DirectEvents(workflows[w])
      {
        var path :| path in rest;
        events := events[path := DirectEvents(workflows[path])];
        rest := rest - {path};
      }
      forall w, e | w in workflows ensures e in events[w] <==> Declares(workflows[w], e) {
        DirectEventsAre(workflows[w], e);
      }
      forall w, e | w in workflows && e in events[w] ensures ReachedBy(workflows, w, e) {
        OwnReaches(workflows, w, e);
      }
      var changed := true;
      while changed
        invariant Between(workflows, events)
        invariant !changed ==> Closed(workflows, events)
        decreases changed, |Missing(workflows, events)|
      {
        ghost var before := events;
        changed := PropagateReusableEvents();
        if changed {
          MissingShrinks(workflows, before, events);
        }
      }
      ClosedIsExact(workflows, events);
      forall a, id, b | a in workflows && b in workflows && id in workflows[a].jobs &&
        workflows[a].jobs[id].uses == "./" + b && ".github/workflows/" <= b && '@' !in b
        ensures events[a] <= events[b]
      {
        assert CallsBy(workflows, a, id, b);
        assert Calls(workflows, a, b);
      }
    }
  }
}
