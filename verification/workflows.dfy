/**
  Workflow definitions as the policy checker reads them, and which workflows call which.

  What the checker decides by looking into strings (whether a step checks out code that is
  not trusted, whether a job holds privileges) is recorded here as a flag of the step or job.
 */
module Workflows {

  type Path = string

  /** How a branch pattern relates to the name of the default branch. */
  datatype Match = BadPattern | Hit | Miss

  datatype BranchPattern = BranchPattern(negative: bool, main: Match)

  datatype Triggers = Triggers(
    configured: set<string>, branches: seq<BranchPattern>, branchesIgnore: seq<BranchPattern>)

  datatype OnClause = NoTriggers | On(triggers: Triggers)

  datatype Step = Step(untrustedCheckout: bool, untrustedShellCheckout: bool, executesWorkspace: bool)

  datatype Job = Job(uses: string, runsOn: seq<string>, privileged: bool, steps: seq<Step>)

  datatype Workflow = Workflow(path: Path, on: OnClause, jobs: map<string, Job>)

  type Repository = map<Path, Workflow>

  /** An event that starts a run, with the workflow that declares it. */
  datatype RootEvent = RootEvent(name: string, source: Path)

  const REUSABLE_PREFIX: string := "./.github/workflows/"

  predicate StartsWith(s: string, prefix: string) {
    prefix <= s
  }

  /** Whether a job calls a workflow of this repository. */
  predicate CallsLocal(job: Job) {
    StartsWith(job.uses, REUSABLE_PREFIX) && '@' !in job.uses
  }

  /** The path of the workflow it calls. */
  function CalledPath(job: Job): Path
    requires CallsLocal(job)
  {
    job.uses[2..]
  }

  /** What it says: the path of a workflow in the usual directory, seen from here and without a version. */
  ghost predicate NamesWorkflow(uses: string, b: Path) {
    uses == "./" + b && ".github/workflows/" <= b && '@' !in b
  }

  /** A job calls a workflow of this repository exactly if it names its path. */
  lemma CalledPathIs(job: Job, b: Path)
    ensures NamesWorkflow(job.uses, b) <==> CallsLocal(job) && CalledPath(job) == b
  {
    assert REUSABLE_PREFIX == "./" + ".github/workflows/";
    AfterPrefix("./", ".github/workflows/", job.uses);
    CutPrefix("./", job.uses, b);
  }

  lemma AfterPrefix(a: string, b: string, s: string)
    ensures a + b <= s <==> a <= s && b <= s[|a|..]
  {
    if a + b <= s {
      assert a == (a + b)[..|a|] && b == (a + b)[|a|..];
      assert s[..|a|] == (a + b)[..|a|] && s[|a|..][..|b|] == (a + b)[|a|..];
    }
  }

  lemma CutPrefix(a: string, s: string, b: string)
    ensures s == a + b <==> a <= s && s[|a|..] == b
  {
  }

  ghost predicate CallsBy(ws: Repository, a: Path, id: string, b: Path) {
    a in ws && b in ws && id in ws[a].jobs && NamesWorkflow(ws[a].jobs[id].uses, b)
  }

  /** Some job of a calls b, and b is in the repository. */
  ghost predicate Calls(ws: Repository, a: Path, b: Path) {
    exists id :: CallsBy(ws, a, id, b)
  }

  /** A chain of calls from one workflow to another; a workflow alone is a chain. */
  ghost predicate Chain(ws: Repository, p: seq<Path>, a: Path, b: Path) {
    && |p| > 0 && p[0] == a && p[|p| - 1] == b
    && (forall i | 0 <= i < |p| :: p[i] in ws)
    && (forall i | 0 <= i < |p| - 1 :: Calls(ws, p[i], p[i + 1]))
  }

  ghost predicate Leads(ws: Repository, a: Path, b: Path) {
    exists p :: Chain(ws, p, a, b)
  }

  lemma LeadsToItself(ws: Repository, a: Path)
    requires a in ws
    ensures Leads(ws, a, a)
  {
    assert Chain(ws, [a], a, a);
  }

  lemma LeadsOn(ws: Repository, a: Path, b: Path, c: Path)
    requires Leads(ws, a, b) && Calls(ws, b, c)
    ensures Leads(ws, a, c)
  {
    var p :| Chain(ws, p, a, b);
    assert Chain(ws, p + [c], a, c);
  }

  /** A family of sets that grows along calls grows along chains of calls. */
  lemma {:induction false} AlongChain(ws: Repository, m: map<Path, set<RootEvent>>, p: seq<Path>, a: Path, b: Path)
    requires m.Keys == ws.Keys && Chain(ws, p, a, b)
    requires forall x, y | Calls(ws, x, y) :: m[x] <= m[y]
    ensures m[a] <= m[b]
    decreases |p|
  {
    if |p| > 1 {
      var q := p[..|p| - 1];
      assert Chain(ws, q, a, q[|q| - 1]);
      AlongChain(ws, m, q, a, q[|q| - 1]);
      assert Calls(ws, p[|p| - 2], p[|p| - 1]);
    }
  }

  /** The events a workflow declares itself; being called is none of them. */
  function DirectEvents(w: Workflow): set<RootEvent> {
    if w.on.NoTriggers? then {}
    else set n | n in w.on.triggers.configured && n != "workflow_call" :: RootEvent(n, w.path)
  }

  /** The workflow declares the event itself. */
  ghost predicate Declares(w: Workflow, e: RootEvent) {
    w.on.On? && e.name in w.on.triggers.configured && e.name != "workflow_call" && e.source == w.path
  }

  lemma DirectEventsAre(w: Workflow, e: RootEvent)
    ensures e in DirectEvents(w) <==> Declares(w, e)
  {
    if Declares(w, e) {
      assert e == RootEvent(e.name, w.path);
    }
  }

  /** An event reaches a workflow: some workflow declares it and a chain of calls leads from there. */
  ghost predicate ReachedByFrom(ws: Repository, w: Path, e: RootEvent, s: Path) {
    s in ws && Declares(ws[s], e) && Leads(ws, s, w)
  }

  ghost predicate ReachedBy(ws: Repository, w: Path, e: RootEvent) {
    exists s :: ReachedByFrom(ws, w, e, s)
  }
}
