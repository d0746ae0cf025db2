/** Compile jobs and their dependencies: the order in which `addJobs` lists them. Job `j`
    depends on the jobs in `g[j]`. */
module JobGraph {
  import opened Graphs
  import opened Sequences

  /** Every dependency is listed before the jobs that need it. */
  ghost predicate DepsFirst(g: Graph, jobs: seq<nat>) {
    forall i :: 0 <= i < |jobs| ==> jobs[i] < |g| && DepsIn(g, jobs[i], jobs[..i])
  }

  ghost predicate DepsIn(g: Graph, j: nat, earlier: seq<nat>)
    requires j < |g|
  {
    forall k :: 0 <= k < |g[j]| ==> g[j][k] in earlier
  }

  /** A duplicate-free topological order of exactly the jobs `root` needs. */
  ghost predicate Plan(g: Graph, root: nat, jobs: seq<nat>) {
    && Distinct(jobs)
    && DepsFirst(g, jobs)
    && (forall x: nat :: x in jobs <==> Reaches(g, x, root))
  }

  lemma {:induction false} Pigeonhole(n: nat, s: seq<nat>)
    requires Distinct(s) && forall i :: 0 <= i < |s| ==> s[i] < n
    ensures |s| <= n
  {
    if s == [] {
    } else if n - 1 in s {
      var k :| 0 <= k < |s| && s[k] == n - 1;
      var t := s[..k] + s[k + 1..];
      assert forall i :: 0 <= i < |t| ==> t[i] == if i < k then s[i] else s[i + 1];
      Pigeonhole(n - 1, t);
    } else {
      forall i | 0 <= i < |s| ensures s[i] < n - 1 {
        assert s[i] in s;
      }
      Pigeonhole(n - 1, s);
    }
  }

  lemma AcyclicPathsAreShort(g: Graph, p: seq<nat>)
    requires Acyclic(g) && IsPath(g, p)
    ensures |p| <= |g|
  {
    forall i, j | 0 <= i < j < |p| ensures p[i] != p[j] {
      OffCycleVisitedOnce(g, p, p[i]);
    }
    Pigeonhole(|g|, p);
  }

  ghost predicate ReachesDep(g: Graph, x: nat, job: nat) {
    job < |g| && exists i :: 0 <= i < |g[job]| && Reaches(g, x, g[job][i])
  }

  lemma ReachesThroughDep(g: Graph, x: nat, job: nat)
    requires Acyclic(g) && ReachesDep(g, x, job)
    ensures Reaches(g, x, job) && x != job
  {
    var i :| 0 <= i < |g[job]| && Reaches(g, x, g[job][i]);
    var p :| PathFromTo(g, p, x, g[job][i]);
    AppendEdge(g, p, job);
    assert PathFromTo(g, p + [job], x, job);
    assert x == job ==> OnCycle(g, job);
  }

  /** Listing a job after all its dependencies. */
  lemma ListJob(g: Graph, jobs: seq<nat>, job: nat)
    requires Distinct(jobs) && DepsFirst(g, jobs) && job < |g| && job !in jobs && DepsIn(g, job, jobs)
    ensures Distinct(jobs + [job]) && DepsFirst(g, jobs + [job])
  {
    var js := jobs + [job];
    forall i | 0 <= i < |js| ensures js[i] < |g| && DepsIn(g, js[i], js[..i]) {
      if i < |jobs| {
        assert js[..i] == jobs[..i];
      } else {
        assert js[..i] == jobs;
      }
    }
  }

  lemma LongerChain(g: Graph, dep: nat, path: seq<nat>)
    requires Acyclic(g) && Closed(g) && IsPath(g, path) && Edge(g, dep, path[0])
    ensures IsPath(g, [dep] + path) && ([dep] + path)[0] == dep && |[dep] + path| <= |g|
  {
    PrependEdge(g, dep, path);
    AcyclicPathsAreShort(g, [dep] + path);
  }

  ghost predicate NewNeedDep(g: Graph, job: nat, older: seq<nat>, jobs: seq<nat>) {
    forall x :: x in jobs ==> x in older || ReachesDep(g, x, job)
  }

  lemma StillNeeded(g: Graph, job: nat, k: nat, older: seq<nat>, before: seq<nat>, jobs: seq<nat>)
    requires job < |g| && k < |g[job]| && NewNeedDep(g, job, older, before)
    requires forall x :: x in jobs ==> x in before || Reaches(g, x, g[job][k])
    ensures NewNeedDep(g, job, older, jobs)
  {
  }

  lemma AllNeeded(g: Graph, job: nat, older: seq<nat>, jobs: seq<nat>)
    requires Acyclic(g) && job < |g| && NewNeedDep(g, job, older, jobs) && job !in older
    ensures job !in jobs && Reaches(g, job, job)
    ensures forall x :: x in jobs ==> x in older || Reaches(g, x, job)
  {
    forall x | x in jobs && x !in older ensures Reaches(g, x, job) && x != job {
      ReachesThroughDep(g, x, job);
    }
    ReachesSelf(g, job);
  }

  /** The slice and the set shared by the recursive `addJobs`. */
  class JobList {
    var jobs: seq<nat>
    var addedJobs: set<nat>

    constructor ()
      ensures jobs == [] && addedJobs == {}
    {
      jobs, addedJobs := [], {};
    }

    ghost predicate Valid(g: Graph)
      reads this
    {
      Distinct(jobs) && DepsFirst(g, jobs) && forall x :: x in addedJobs <==> x in jobs
    }

    /** Lists `job` and everything it needs; `path` is the chain of calls from the root. */
    method AddJobs(g: Graph, job: nat, ghost path: seq<nat>)
      requires Closed(g) && Acyclic(g) && Valid(g)
      requires IsPath(g, path) && path[0] == job && |path| <= |g|
      modifies this
      ensures Valid(g) && old(jobs) <= jobs && job in jobs
      ensures forall x :: x in jobs ==> x in old(jobs) || Reaches(g, x, job)
      decreases |g| - |path|
    {
      if job in addedJobs {
        return;
      }
      var k := 0;
      while k < |g[job]|
        invariant 0 <= k <= |g[job]|
        invariant Valid(g) && old(jobs) <= jobs
        invariant forall i :: 0 <= i < k ==> g[job][i] in jobs
        invariant NewNeedDep(g, job, old(jobs), jobs)
      {
        var dep := g[job][k];
        LongerChain(g, dep, path);
        ghost var before := jobs;
        AddJobs(g, dep, [dep] + path);
        StillNeeded(g, job, k, old(jobs), before, jobs);
        k := k + 1;
      }
      AllNeeded(g, job, old(jobs), jobs);
      ListJob(g, jobs, job);
      jobs := jobs + [job];
      addedJobs := addedJobs + {job};
    }
  }

  /** A list that holds each job's dependencies holds everything that reaches its jobs. */
  lemma {:induction false} ListedClosed(g: Graph, jobs: seq<nat>, p: seq<nat>, i: nat)
    requires DepsFirst(g, jobs) && IsPath(g, p) && p[|p| - 1] in jobs && i < |p|
    ensures p[i] in jobs
    decreases |p| - i
  {
    if i < |p| - 1 {
      ListedClosed(g, jobs, p, i + 1);
      var k :| 0 <= k < |jobs| && jobs[k] == p[i + 1];
      assert Edge(g, p[i], p[i + 1]) && DepsIn(g, jobs[k], jobs[..k]);
      assert p[i] in jobs[..k];
    }
  }

  /** The jobs to run: exactly those `root` needs, each once, dependencies first. */
  method ListJobs(g: Graph, root: nat) returns (jobs: seq<nat>)
    requires Closed(g) && Acyclic(g) && root < |g|
    ensures Plan(g, root, jobs)
  {
    var list := new JobList();
    assert IsPath(g, [root]);
    list.AddJobs(g, root, [root]);
    jobs := list.jobs;
    forall x: nat | Reaches(g, x, root) ensures x in jobs {
      var p :| PathFromTo(g, p, x, root);
      ListedClosed(g, jobs, p, 0);
    }
  }
}
