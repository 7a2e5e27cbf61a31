/**
  The check that no job runs code it does not trust with authority over the default branch,
  over secrets, or over a machine that outlives the run.
 */
module PrivilegedFlow {
  import opened Workflows
  import opened RootEvents

  /** A pattern that cannot be matched counts as one that may target the default branch. */
  ghost predicate HasBadPattern(patterns: seq<BranchPattern>) {
    exists i :: 0 <= i < |patterns| && patterns[i].main.BadPattern?
  }

  ghost predicate LastHit(patterns: seq<BranchPattern>, i: int) {
    0 <= i < |patterns| && patterns[i].main.Hit? && forall j | i < j < |patterns| :: !patterns[j].main.Hit?
  }

  /** Whether a push that starts the workflow can be one to the default branch. */
  ghost predicate PushTargetsDefault(w: Workflow) {
    && w.on.On?
    && var t := w.on.triggers;
       if t.branches != [] then
         HasBadPattern(t.branches) || exists i :: LastHit(t.branches, i) && !t.branches[i].negative
       else
         HasBadPattern(t.branchesIgnore) || forall p | p in t.branchesIgnore :: !p.main.Hit?
  }

  /** The branch list decides by its last match; without one, the list of ignored branches does. */
  method PushCanTargetDefaultBranch(w: Workflow) returns (r: bool)
    ensures r <==> PushTargetsDefault(w)
  {
    if w.on.NoTriggers? {
      return false;
    }
    var branches, ignore := w.on.triggers.branches, w.on.triggers.branchesIgnore;
    if |branches| > 0 {
      var included := false;
      for i := 0 to |branches|
        invariant forall j | 0 <= j < i :: !branches[j].main.BadPattern?
        invariant included <==> exists j :: LastHit(branches[..i], j) && !branches[j].negative
      {
        if branches[i].main.BadPattern? {
          return true;
        }
        LastHitStep(branches, i);
        if branches[i].main.Hit? {
          included := !branches[i].negative;
        }
      }
      assert branches[..|branches|] == branches;
      return included;
    }
    var ignored := false;
    for i := 0 to |ignore|
      invariant forall j | 0 <= j < i :: !ignore[j].main.BadPattern?
      invariant ignored <==> exists j :: 0 <= j < i && ignore[j].main.Hit?
    {
      if ignore[i].main.BadPattern? {
        return true;
      }
      if ignore[i].main.Hit? {
        ignored := true;
      }
    }
    return !ignored;
  }

  lemma LastHitStep(patterns: seq<BranchPattern>, i: nat)
    requires i < |patterns|
    ensures forall j :: LastHit(patterns[..i + 1], j) <==>
                          if patterns[i].main.Hit? then j == i else LastHit(patterns[..i], j)
  {
    var done, more := patterns[..i], patterns[..i + 1];
    forall j ensures LastHit(more, j) <==> if patterns[i].main.Hit? then j == i else LastHit(done, j) {
      assert forall k | 0 <= k < i :: more[k] == done[k];
      assert more[i] == patterns[i];
    }
  }

  const CACHE_WRITERS: set<string> :=
    {"workflow_dispatch", "repository_dispatch", "delete", "registry_package", "page_build", "schedule"}

  const KNOWN_READ_ONLY: set<string> := {"pull_request", "pull_request_target", "issue_comment", "workflow_run"}

  /**
    Whether an event of a workflow can write the cache of the default branch; an unknown event
    counts as one that can.
   */
  ghost predicate WritesCache(w: Workflow, event: string) {
    if event == "push" then PushTargetsDefault(w)
    else
      && event != "workflow_call"
      && event != "pull_request" && event != "pull_request_target" && event != "issue_comment"
      && event != "workflow_run"
  }

  method EventWritesDefaultBranchCache(w: Workflow, event: string) returns (r: bool)
    ensures r <==> WritesCache(w, event)
  {
    if event in CACHE_WRITERS {
      return true;
    }
    if event == "push" {
      r := PushCanTargetDefaultBranch(w);
      return;
    }
    if event == "workflow_call" {
      return false;
    }
    return event !in KNOWN_READ_ONLY;
  }

  predicate RunnerMayPersist(job: Job) {
    if |job.runsOn| != 1 then |job.runsOn| > 0
    else
      var runner := job.runsOn[0];
      !StartsWith(runner, "ubuntu-") && !StartsWith(runner, "windows-") && !StartsWith(runner, "macos-")
  }

  /** A machine that is made for one job, by its name. */
  ghost predicate IsEphemeral(runner: string) {
    exists image :: runner == "ubuntu-" + image || runner == "windows-" + image || runner == "macos-" + image
  }

  /** The job asks for a machine other than one that is made for it; one that asks for none gets one from its caller. */
  ghost predicate Persists(job: Job) {
    job.runsOn != [] && !(|job.runsOn| == 1 && IsEphemeral(job.runsOn[0]))
  }

  lemma StartsWithIs(s: string, prefix: string)
    ensures StartsWith(s, prefix) <==> exists rest :: s == prefix + rest
  {
    if StartsWith(s, prefix) {
      assert s == prefix + s[|prefix|..];
    }
  }

  lemma PersistsIs(job: Job)
    ensures RunnerMayPersist(job) <==> Persists(job)
  {
    if |job.runsOn| == 1 {
      var runner := job.runsOn[0];
      StartsWithIs(runner, "ubuntu-");
      StartsWithIs(runner, "windows-");
      StartsWithIs(runner, "macos-");
    }
  }

  /** A step uses the workspace after an earlier step checked out code that is not trusted. */
  ghost predicate RunsUntrusted(job: Job) {
    exists i, j :: 0 <= i < j < |job.steps| && job.steps[i].untrustedCheckout && job.steps[j].executesWorkspace
  }

  ghost predicate Risky(job: Job) {
    RunsUntrusted(job) || exists s :: s in job.steps && s.untrustedShellCheckout
  }

  method ExecutesAfterUntrustedCheckout(job: Job) returns (r: bool)
    ensures r <==> RunsUntrusted(job)
  {
    for checkout := 0 to |job.steps|
      invariant forall i, j | 0 <= i < checkout && i < j < |job.steps| ::
                  !(job.steps[i].untrustedCheckout && job.steps[j].executesWorkspace)
    {
      if job.steps[checkout].untrustedCheckout {
        for k := checkout + 1 to |job.steps|
          invariant forall j | checkout < j < k :: !job.steps[j].executesWorkspace
        {
          if job.steps[k].executesWorkspace {
            return true;
          }
        }
      }
    }
    return false;
  }

  method JobHasPrivilegedPRExecution(job: Job) returns (r: bool)
    ensures r <==> Risky(job)
  {
    r := ExecutesAfterUntrustedCheckout(job);
    if r {
      return;
    }
    for i := 0 to |job.steps|
      invariant forall j | 0 <= j < i :: !job.steps[j].untrustedShellCheckout
    {
      if job.steps[i].untrustedShellCheckout {
        return true;
      }
    }
    return false;
  }

  datatype Authority = Authority(privileged: bool, persistentRunner: bool, cacheWrite: bool)

  /** The workflow whose triggers an event is judged by. */
  function SourceOf(ws: Repository, w: Workflow, e: RootEvent): Workflow {
    if e.source in ws then ws[e.source] else w
  }

  /** What a job may do, given the events that can be behind it. */
  method AuthorityForJob(ws: Repository, w: Workflow, job: Job, events: set<RootEvent>) returns (a: Authority)
    ensures a.privileged == job.privileged && a.persistentRunner == Persists(job)
    ensures a.cacheWrite <==> exists e :: e in events && WritesCache(SourceOf(ws, w, e), e.name)
  {
    PersistsIs(job);
    a := Authority(job.privileged, RunnerMayPersist(job), false);
    var rest := events;
    while rest != {}
      invariant rest <= events
      invariant a.privileged == job.privileged && a.persistentRunner == Persists(job)
      invariant a.cacheWrite <==> exists e :: e in events && e !in rest && WritesCache(SourceOf(ws, w, e), e.name)
    {
      var event :| event in rest;
      var writes := EventWritesDefaultBranchCache(SourceOf(ws, w, event), event.name);
      a := a.(cacheWrite := a.cacheWrite || writes);
      rest := rest - {event};
    }
  }

  datatype Reason = ReusableCall | CacheWrite | Privilege | PersistentRunner

  datatype Verdict = Accepted | Rejected(path: Path, job: string, reason: Reason)

  /** The job calls a workflow of this repository. */
  ghost predicate CallsSome(job: Job) {
    exists b :: NamesWorkflow(job.uses, b)
  }

  lemma CallsSomeIs(job: Job)
    ensures CallsLocal(job) <==> CallsSome(job)
  {
    forall b { CalledPathIs(job, b); }
  }

  ghost predicate ReusableIsPlain(job: Job) {
    CallsSome(job) ==> !job.privileged && !Persists(job)
  }

  ghost predicate RiskIsContained(job: Job, cacheWrite: bool) {
    Risky(job) ==> !cacheWrite && !job.privileged && !Persists(job)
  }

  ghost predicate SomeWrites(ws: Repository, w: Workflow, events: set<RootEvent>) {
    exists e :: e in events && WritesCache(SourceOf(ws, w, e), e.name)
  }

  ghost predicate JobPasses(ws: Repository, w: Workflow, job: Job, events: set<RootEvent>) {
    ReusableIsPlain(job) && RiskIsContained(job, SomeWrites(ws, w, events))
  }

  /** The stated reason applies to the job. */
  ghost predicate Applies(ws: Repository, w: Workflow, job: Job, events: set<RootEvent>, reason: Reason) {
    match reason
    case ReusableCall => CallsSome(job) && (job.privileged || Persists(job))
    case CacheWrite => Risky(job) && SomeWrites(ws, w, events)
    case Privilege => Risky(job) && job.privileged
    case PersistentRunner => Risky(job) && Persists(job)
  }

  /** Judge the jobs of one workflow; a rejection names a job and a reason that applies to it. */
  method ValidatePrivilegedFlow(ws: Repository, w: Workflow, events: set<RootEvent>) returns (r: Verdict)
    ensures r.Accepted? <==> forall id | id in w.jobs :: JobPasses(ws, w, w.jobs[id], events)
    ensures r.Rejected? ==> r.path == w.path && r.job in w.jobs && Applies(ws, w, w.jobs[r.job], events, r.reason)
  {
    hide Risky, WritesCache, Persists;
    var rest := w.jobs.Keys;
    while rest != {}
      invariant rest <= w.jobs.Keys
      invariant forall id | id in w.jobs && id !in rest :: JobPasses(ws, w, w.jobs[id], events)
    {
      var id :| id in rest;
      var job := w.jobs[id];
      var authority := AuthorityForJob(ws, w, job, events);
      CallsSomeIs(job);
      if CallsLocal(job) && (authority.privileged || authority.persistentRunner) {
        return Rejected(w.path, id, ReusableCall);
      }
      var risky := JobHasPrivilegedPRExecution(job);
      if risky {
        if authority.cacheWrite {
          return Rejected(w.path, id, CacheWrite);
        } else if authority.privileged {
          return Rejected(w.path, id, Privilege);
        } else if authority.persistentRunner {
          return Rejected(w.path, id, PersistentRunner);
        }
      }
      rest := rest - {id};
    }
    return Accepted;
  }

  /** Every workflow is stored under its own path. */
  ghost predicate Keyed(ws: Repository) {
    forall k | k in ws :: ws[k].path == k
  }

  /** A workflow that declares an event which can write the cache leads by calls to this one. */
  ghost predicate CacheWriterBehind(ws: Repository, w: Path) {
    exists s, e :: ReachedByFrom(ws, w, e, s) && WritesCache(ws[s], e.name)
  }

  /** What an accepted repository satisfies, in terms of its call chains. */
  ghost predicate JobIsSafe(ws: Repository, w: Path, id: string)
    requires w in ws && id in ws[w].jobs
  {
    ReusableIsPlain(ws[w].jobs[id]) && RiskIsContained(ws[w].jobs[id], CacheWriterBehind(ws, w))
  }

  ghost predicate Safe(ws: Repository) {
    forall w, id | w in ws && id in ws[w].jobs :: JobIsSafe(ws, w, id)
  }

  lemma WriterIsBehind(ws: Repository, m: EventSets, w: Path)
    requires Keyed(ws) && Exact(ws, m) && w in ws
    ensures SomeWrites(ws, ws[w], m[w]) <==> CacheWriterBehind(ws, w)
  {
    hide WritesCache, Leads;
    if SomeWrites(ws, ws[w], m[w]) {
      var e :| e in m[w] && WritesCache(SourceOf(ws, ws[w], e), e.name);
      var s :| ReachedByFrom(ws, w, e, s);
      assert e.source == s;
      assert ReachedByFrom(ws, w, e, s) && WritesCache(ws[s], e.name);
    }
    if CacheWriterBehind(ws, w) {
      var s, e :| ReachedByFrom(ws, w, e, s) && WritesCache(ws[s], e.name);
      assert ReachedBy(ws, w, e);
      assert e in m[w] && SourceOf(ws, ws[w], e) == ws[s];
    }
  }

  /** The whole check accepts exactly the repositories all whose jobs are safe. */
  method ValidateFlows(ws: Repository) returns (r: Verdict)
    requires Keyed(ws)
    ensures r.Accepted? <==> Safe(ws)
    ensures r.Rejected? ==> r.path in ws && r.job in ws[r.path].jobs && !JobIsSafe(ws, r.path, r.job)
  {
    hide Risky, WritesCache, Persists, CallsSome, SomeWrites, CacheWriterBehind, Exact;
    var resolver := new Resolver(ws);
    resolver.ResolveEffectiveRootEvents();
    var effectiveEvents := resolver.events;
    SameKeys(ws, effectiveEvents);
    var rest := ws.Keys;
    while rest != {}
      invariant rest <= ws.Keys
      invariant forall w, id | w in ws && w !in rest && id in ws[w].jobs :: JobIsSafe(ws, w, id)
    {
      var path :| path in rest;
      WriterIsBehind(ws, effectiveEvents, path);
      r := ValidatePrivilegedFlow(ws, ws[path], effectiveEvents[path]);
      if r.Rejected? {
        return;
      }
      rest := rest - {path};
      forall id | id in ws[path].jobs ensures JobIsSafe(ws, path, id) {
        assert JobPasses(ws, ws[path], ws[path].jobs[id], effectiveEvents[path]);
      }
    }
    return Accepted;
  }

  lemma SameKeys(ws: Repository, m: EventSets)
    requires Exact(ws, m)
    ensures m.Keys == ws.Keys
  {
  }

  ghost predicate Extends(ws: Repository, ws': Repository) {
    forall k | k in ws :: k in ws' && ws'[k] == ws[k]
  }

  /** More workflows never make an unsafe repository safe: whatever reaches a workflow still does. */
  lemma MoreWorkflowsStayUnsafe(ws: Repository, ws': Repository)
    requires Extends(ws, ws') && !Safe(ws)
    ensures !Safe(ws')
  {
    hide WritesCache, Risky, Persists, CallsSome;
    var w, id :| w in ws && id in ws[w].jobs && !JobIsSafe(ws, w, id);
    if CacheWriterBehind(ws, w) {
      var s, e :| ReachedByFrom(ws, w, e, s) && WritesCache(ws[s], e.name);
      LeadsInMore(ws, ws', s, w);
      assert ReachedByFrom(ws', w, e, s) && WritesCache(ws'[s], e.name);
    }
    assert !JobIsSafe(ws', w, id);
  }

  lemma LeadsInMore(ws: Repository, ws': Repository, a: Path, b: Path)
    requires Extends(ws, ws') && Leads(ws, a, b)
    ensures Leads(ws', a, b)
  {
    var p :| Chain(ws, p, a, b);
    forall i | 0 <= i < |p| - 1 ensures Calls(ws', p[i], p[i + 1]) {
      var id :| CallsBy(ws, p[i], id, p[i + 1]);
      assert CallsBy(ws', p[i], id, p[i + 1]);
    }
    assert Chain(ws', p, a, b);
  }
}
