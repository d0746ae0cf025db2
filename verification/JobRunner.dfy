/** `runJobs`: setting up the maps and the scheduling loop. */
module JobRunner {
  import opened Graphs
  import opened JobGraph
  import opened Scheduler
  import opened SchedulerProofs
  import opened Options
  import opened Sequences

  /** Reading a missing map entry gives an empty slice. */
  function DependentsOf(m: map<nat, seq<nat>>, c: nat): seq<nat> {
    if c in m then m[c] else []
  }

  ghost predicate ListsAll(m: map<nat, seq<nat>>, g: Graph, jobs: seq<nat>) {
    forall c: nat :: DependentsOf(m, c) == Dependents(g, jobs, c)
  }

  ghost predicate Appended(m0: map<nat, seq<nat>>, m: map<nat, seq<nat>>, j: nat, deps: seq<nat>) {
    forall c: nat :: DependentsOf(m, c) == DependentsOf(m0, c) + Copies(j, deps, c)
  }

  lemma CopiesNext(j: nat, deps: seq<nat>, d: nat, c: nat)
    ensures Copies(j, deps + [d], c) == Copies(j, deps, c) + (if c == d then [j] else [])
  {
    assert (deps + [d])[..|deps|] == deps;
  }

  lemma AppendedNext(m0: map<nat, seq<nat>>, m: map<nat, seq<nat>>, j: nat, deps: seq<nat>, d: nat)
    requires Appended(m0, m, j, deps)
    ensures Appended(m0, m[d := DependentsOf(m, d) + [j]], j, deps + [d])
  {
    hide Copies;
    var m' := m[d := DependentsOf(m, d) + [j]];
    forall c: nat ensures DependentsOf(m', c) == DependentsOf(m0, c) + Copies(j, deps + [d], c) {
      CopiesNext(j, deps, d, c);
      assert DependentsOf(m, c) == DependentsOf(m0, c) + Copies(j, deps, c);
      assert DependentsOf(m', c) == DependentsOf(m, c) + (if c == d then [j] else []);
    }
  }

  /** Adds job `j` to the dependents list of each of its dependencies. */
  method AddDependents(m0: map<nat, seq<nat>>, j: nat, deps: seq<nat>)
    returns (m: map<nat, seq<nat>>, waitDeps: set<nat>)
    ensures Appended(m0, m, j, deps) && waitDeps == DepSet(deps)
  {
    m, waitDeps := m0, {};
    var k := 0;
    while k < |deps|
      invariant 0 <= k <= |deps|
      invariant Appended(m0, m, j, deps[..k])
      invariant waitDeps == DepSet(deps[..k])
    {
      assert deps[..k + 1] == deps[..k] + [deps[k]];
      AppendedNext(m0, m, j, deps[..k], deps[k]);
      m := m[deps[k] := DependentsOf(m, deps[k]) + [j]];
      waitDeps := waitDeps + {deps[k]};
      k := k + 1;
    }
    assert deps[..k] == deps;
  }

  lemma ListsNext(g: Graph, jobs: seq<nat>, j: nat, m: map<nat, seq<nat>>, m': map<nat, seq<nat>>)
    requires j < |g| && ListsAll(m, g, jobs) && Appended(m, m', j, g[j])
    ensures ListsAll(m', g, jobs + [j])
  {
    assert (jobs + [j])[..|jobs|] == jobs;
    forall c: nat ensures DependentsOf(m', c) == Dependents(g, jobs + [j], c) {
      assert DependentsOf(m, c) == Dependents(g, jobs, c);
    }
  }

  /** The tables after the first jobs have been entered. */
  ghost predicate SetUpFor(g: Graph, jobs: seq<nat>, n: nat, waiting: map<nat, set<nat>>,
                           dependents: map<nat, seq<nat>>, jidx: map<nat, nat>, ready: seq<nat>)
    requires n <= |jobs|
  {
    && waiting == WaitMap(g, jobs[..n])
    && ListsAll(dependents, g, jobs[..n])
    && (forall k :: 0 <= k < n ==> jobs[k] in jidx && jidx[jobs[k]] == k)
    && IndicesOk(jobs, ready) && multiset(JobsAt(jobs, ready)) == Without(g, jobs[..n])
  }

  lemma WaitMapNext(g: Graph, jobs: seq<nat>, j: nat)
    requires j < |g|
    ensures g[j] == [] ==> WaitMap(g, jobs + [j]) == WaitMap(g, jobs)
    ensures g[j] != [] ==> WaitMap(g, jobs + [j]) == WaitMap(g, jobs)[j := DepSet(g[j])]
  {
    var js := jobs + [j];
    assert forall x :: x in js <==> x in jobs || x == j;
  }

  lemma ReadyNext(g: Graph, jobs: seq<nat>, n: nat, ready: seq<nat>)
    requires n < |jobs| && jobs[n] < |g| && g[jobs[n]] == []
    requires IndicesOk(jobs, ready) && multiset(JobsAt(jobs, ready)) == Without(g, jobs[..n])
    ensures IndicesOk(jobs, ready + [n]) && multiset(JobsAt(jobs, ready + [n])) == Without(g, jobs[..n + 1])
  {
    assert jobs[..n + 1][..n] == jobs[..n];
    assert JobsAt(jobs, ready + [n]) == JobsAt(jobs, ready) + [jobs[n]];
  }

  lemma EnterReady(g: Graph, jobs: seq<nat>, n: nat, waiting: map<nat, set<nat>>,
                   dependents: map<nat, seq<nat>>, jidx: map<nat, nat>, ready: seq<nat>)
    requires n < |jobs| && Distinct(jobs) && jobs[n] < |g| && g[jobs[n]] == []
    requires SetUpFor(g, jobs, n, waiting, dependents, jidx, ready)
    ensures SetUpFor(g, jobs, n + 1, waiting, dependents, jidx[jobs[n] := n], ready + [n])
  {
    var j := jobs[n];
    assert jobs[..n + 1] == jobs[..n] + [j] && jobs[..n + 1][..n] == jobs[..n];
    WaitMapNext(g, jobs[..n], j);
    ReadyNext(g, jobs, n, ready);
    assert Appended(dependents, dependents, j, []);
    ListsNext(g, jobs[..n], j, dependents, dependents);
  }

  lemma EnterWaiting(g: Graph, jobs: seq<nat>, n: nat, waiting: map<nat, set<nat>>, dependents: map<nat, seq<nat>>,
                     dependents': map<nat, seq<nat>>, jidx: map<nat, nat>, ready: seq<nat>)
    requires n < |jobs| && Distinct(jobs) && jobs[n] < |g| && g[jobs[n]] != []
    requires SetUpFor(g, jobs, n, waiting, dependents, jidx, ready)
    requires Appended(dependents, dependents', jobs[n], g[jobs[n]])
    ensures SetUpFor(g, jobs, n + 1, waiting[jobs[n] := DepSet(g[jobs[n]])], dependents', jidx[jobs[n] := n], ready)
  {
    var j := jobs[n];
    assert jobs[..n + 1] == jobs[..n] + [j] && jobs[..n + 1][..n] == jobs[..n];
    WaitMapNext(g, jobs[..n], j);
    ListsNext(g, jobs[..n], j, dependents, dependents');
  }

  lemma NothingSetUp(g: Graph, jobs: seq<nat>)
    ensures SetUpFor(g, jobs, 0, map[], map[], map[], [])
  {
  }

  /** The loop that fills `waiting`, `dependents`, `jidx` and `ready`. */
  method SetUp(g: Graph, jobs: seq<nat>)
    returns (waiting: map<nat, set<nat>>, dependents: map<nat, seq<nat>>, jidx: map<nat, nat>, ready: seq<nat>)
    requires Distinct(jobs) && forall i :: 0 <= i < |jobs| ==> jobs[i] < |g|
    ensures SetUpFor(g, jobs, |jobs|, waiting, dependents, jidx, ready)
  {
    hide SetUpFor, Appended;
    waiting, dependents, jidx, ready := map[], map[], map[], [];
    NothingSetUp(g, jobs);
    var i := 0;
    while i < |jobs|
      invariant 0 <= i <= |jobs|
      invariant SetUpFor(g, jobs, i, waiting, dependents, jidx, ready)
    {
      var job := jobs[i];
      if g[job] == [] {
        EnterReady(g, jobs, i, waiting, dependents, jidx, ready);
        ready := ready + [i];
      } else {
        var m, waitDeps := AddDependents(dependents, job, g[job]);
        EnterWaiting(g, jobs, i, waiting, dependents, m, jidx, ready);
        waiting := waiting[job := waitDeps];
        dependents := m;
      }
      jidx := jidx[job := i];
      i := i + 1;
    }
  }

  ghost predicate IndicesOk(jobs: seq<nat>, ready: seq<nat>) {
    forall i :: 0 <= i < |ready| ==> ready[i] < |jobs|
  }

  ghost function JobsAt(jobs: seq<nat>, ready: seq<nat>): seq<nat>
    requires IndicesOk(jobs, ready)
  {
    seq(|ready|, i requires 0 <= i < |ready| => jobs[ready[i]])
  }

  lemma DependentsAreJobs(g: Graph, jobs: seq<nat>, c: nat, j: nat)
    requires Distinct(jobs) && (forall i :: 0 <= i < |jobs| ==> jobs[i] < |g|) && j in Dependents(g, jobs, c)
    ensures j in jobs
  {
    DependentsCount(g, jobs, c, j);
  }

  lemma DropAt(s: seq<nat>, i: nat)
    requires i < |s|
    ensures multiset(s[..i] + s[i + 1..]) == multiset(s) - multiset{s[i]}
  {
    assert s == s[..i] + [s[i]] + s[i + 1..];
  }

  lemma JobsAtDrop(jobs: seq<nat>, ready: seq<nat>, i: nat)
    requires IndicesOk(jobs, ready) && i < |ready|
    ensures IndicesOk(jobs, ready[..i] + ready[i + 1..])
    ensures multiset(JobsAt(jobs, ready[..i] + ready[i + 1..])) ==
      multiset(JobsAt(jobs, ready)) - multiset{jobs[ready[i]]}
  {
    var js := JobsAt(jobs, ready);
    DropAt(js, i);
    assert JobsAt(jobs, ready[..i] + ready[i + 1..]) == js[..i] + js[i + 1..];
  }

  /** The variables of the scheduling loop. `running` are the goroutines that have not yet
      reported on the channel; `done` records the completed jobs. */
  class Runner {
    const conf: Conf
    var waiting: map<nat, set<nat>>
    var dependents: map<nat, seq<nat>>
    var jidx: map<nat, nat>
    var ready: seq<nat>
    var running: seq<nat>
    var numRunningJobs: nat
    var sema: nat
    ghost var done: multiset<nat>

    ghost predicate Valid()
      reads this
    {
      && Distinct(conf.jobs) && (forall i :: 0 <= i < |conf.jobs| ==> conf.jobs[i] < |conf.g|)
      && IndicesOk(conf.jobs, ready)
      && ListsAll(dependents, conf.g, conf.jobs)
      && (forall k :: 0 <= k < |conf.jobs| ==> conf.jobs[k] in jidx && jidx[conf.jobs[k]] == k)
    }

    ghost function View(): State
      reads this
      requires Valid()
    {
      State(waiting, multiset(JobsAt(conf.jobs, ready)), multiset(running), done, numRunningJobs, sema, 0, None)
    }

    constructor (conf: Conf)
      requires Distinct(conf.jobs) && forall i :: 0 <= i < |conf.jobs| ==> conf.jobs[i] < |conf.g|
      ensures this.conf == conf && Valid() && View() == Init(conf)
    {
      this.conf := conf;
      running, numRunningJobs, sema, done := [], 0, 0, multiset{};
      new;
      waiting, dependents, jidx, ready := SetUp(conf.g, conf.jobs);
      assert conf.jobs[..|conf.jobs|] == conf.jobs;
    }

    /** Takes a token and starts the job at position `i` of the heap. */
    method StartJob(i: nat) returns (job: nat)
      requires Valid() && i < |ready|
      modifies this`ready, this`running, this`numRunningJobs, this`sema
      ensures Valid() && job in old(View()).ready
      ensures View() == old(View()).(
        ready := old(View()).ready - multiset{job}, running := old(View()).running + multiset{job},
        numRunning := old(numRunningJobs) + 1, tokens := old(sema) + 1)
    {
      sema := sema + 1;
      job := conf.jobs[ready[i]];
      JobsAtDrop(conf.jobs, ready, i);
      assert JobsAt(conf.jobs, ready)[i] == job;
      ready := ready[..i] + ready[i + 1..];
      running := running + [job];
      numRunningJobs := numRunningJobs + 1;
    }

    /** Receives the completion of goroutine `k`. */
    method ReceiveDone(k: nat) returns (completed: nat)
      requires Valid() && k < |running| && numRunningJobs > 0 && sema > 0
      modifies this`running, this`numRunningJobs, this`sema
      ensures Valid() && completed in old(View()).running
      ensures View() == old(View()).(running := old(View()).running - multiset{completed},
                                     numRunning := old(numRunningJobs) - 1, tokens := old(sema) - 1)
    {
      completed := running[k];
      DropAt(running, k);
      running := running[..k] + running[k + 1..];
      numRunningJobs := numRunningJobs - 1;
      sema := sema - 1;
    }

    /** Updates the dependents of a job that completed without error. */
    method UpdateDependents(completed: nat)
      requires Valid()
      modifies this`waiting, this`ready, this`done
      ensures Valid()
      ensures var q := VisitAll(Queue(old(waiting), old(View()).ready), completed,
        Dependents(conf.g, conf.jobs, completed));
        View() == old(View()).(waiting := q.waiting, ready := q.ready, done := old(done) + multiset{completed})
    {
      var js := DependentsOf(dependents, completed);
      forall j: nat | j in js ensures j in conf.jobs {
        DependentsAreJobs(conf.g, conf.jobs, completed, j);
      }
      waiting, ready := VisitDependents(conf.jobs, jidx, completed, js, waiting, ready);
      done := done + multiset{completed};
    }
  }

  method VisitDependents(jobs: seq<nat>, jidx: map<nat, nat>, completed: nat, js: seq<nat>,
                         waiting0: map<nat, set<nat>>, ready0: seq<nat>)
    returns (waiting: map<nat, set<nat>>, ready: seq<nat>)
    requires IndicesOk(jobs, ready0) && forall j :: j in js ==> j in jobs
    requires forall k :: 0 <= k < |jobs| ==> jobs[k] in jidx && jidx[jobs[k]] == k
    ensures IndicesOk(jobs, ready)
    ensures Queue(waiting, multiset(JobsAt(jobs, ready))) ==
      VisitAll(Queue(waiting0, multiset(JobsAt(jobs, ready0))), completed, js)
  {
    waiting, ready := waiting0, ready0;
    ghost var q0 := Queue(waiting, multiset(JobsAt(jobs, ready)));
    var k := 0;
    while k < |js|
      invariant 0 <= k <= |js| && IndicesOk(jobs, ready)
      invariant Queue(waiting, multiset(JobsAt(jobs, ready))) == VisitAll(q0, completed, js[..k])
    {
      var j := js[k];
      assert js[..k + 1][..k] == js[..k];
      assert j in jobs;
      var wait := if j in waiting then waiting[j] - {completed} else {};
      if wait == {} {
        PushIndex(jobs, ready, jidx[j]);
        ready := ready + [jidx[j]];
        waiting := waiting - {j};
      } else {
        waiting := waiting[j := wait];
      }
      k := k + 1;
    }
    assert js[..k] == js;
  }

  lemma PushIndex(jobs: seq<nat>, ready: seq<nat>, i: nat)
    requires IndicesOk(jobs, ready) && i < |jobs|
    ensures IndicesOk(jobs, ready + [i])
    ensures multiset(JobsAt(jobs, ready + [i])) == multiset(JobsAt(jobs, ready)) + multiset{jobs[i]}
  {
    assert JobsAt(jobs, ready + [i]) == JobsAt(jobs, ready) + [jobs[i]];
  }

  // ---------------------------------------------------------------------------
  // The loop

  lemma StartIsStep(conf: Conf, s: State, job: nat, s': State)
    requires Enabled(conf, s, Start(job))
    requires s' == s.(ready := s.ready - multiset{job}, running := s.running + multiset{job},
                      numRunning := s.numRunning + 1, tokens := s.tokens + 1)
    ensures s' == Step(conf, s, Start(job))
  {
  }

  lemma CompleteIsStep(conf: Conf, s: State, c: nat, mid: State, s': State)
    requires Enabled(conf, s, Complete(c, false))
    requires mid == s.(running := s.running - multiset{c}, numRunning := s.numRunning - 1, tokens := s.tokens - 1)
    requires var q := VisitAll(Queue(mid.waiting, mid.ready), c, Dependents(conf.g, conf.jobs, c));
      s' == mid.(waiting := q.waiting, ready := q.ready, done := mid.done + multiset{c})
    ensures s' == Step(conf, s, Complete(c, false))
  {
  }

  /** One turn of the loop. Which ready job starts and which running job reports next is
      arbitrary; a report says whether the job failed. */
  method LoopStep(run: Runner, fails: nat -> bool) returns (a: Action)
    requires run.Valid() && run.sema == run.numRunningJobs == |run.running| && run.conf.cap > 0
    requires |run.ready| > 0 || run.numRunningJobs != 0
    modifies run
    ensures run.Valid() && !a.Others? && Enabled(run.conf, old(run.View()), a)
    ensures a.Complete? ==> a.fails == fails(a.job)
    ensures a.Complete? && a.fails ==> run.sema == old(run.sema) - 1
    ensures a.Start? || !a.fails ==> run.View() == Step(run.conf, old(run.View()), a)
  {
    ghost var s := run.View();
    hide Step, VisitAll, Dependents;
    var start: bool := *;
    if |run.ready| > 0 && run.sema < run.conf.cap && (start || run.numRunningJobs == 0) {
      var i :| 0 <= i < |run.ready|;
      var job := run.StartJob(i);
      a := Start(job);
      StartIsStep(run.conf, s, job, run.View());
    } else {
      var k :| 0 <= k < |run.running|;
      var completed := run.ReceiveDone(k);
      a := Complete(completed, fails(completed));
      if !fails(completed) {
        ghost var mid := run.View();
        run.UpdateDependents(completed);
        CompleteIsStep(run.conf, s, completed, mid, run.View());
      }
    }
  }

  /** Bookkeeping of the run so far: what has been started, and two steps per finished job. */
  ghost predicate Accounted(s: State, started: seq<nat>, steps: nat, fails: nat -> bool) {
    && multiset(started) == s.running + s.done
    && steps == |s.running| + 2 * |s.done|
    && forall x :: x in s.done ==> !fails(x)
  }

  lemma StillAccounted(conf: Conf, s: State, a: Action, started: seq<nat>, steps: nat, fails: nat -> bool)
    requires Accounted(s, started, steps, fails) && Enabled(conf, s, a) && !a.Others?
    requires a.Complete? ==> !a.fails && !fails(a.job)
    ensures Accounted(Step(conf, s, a), if a.Start? then started + [a.job] else started, steps + 1, fails)
  {
    var s' := Step(conf, s, a);
    if a.Start? {
      assert multiset(started + [a.job]) == multiset(started) + multiset{a.job};
    } else {
      assert s.running == s'.running + multiset{a.job};
    }
  }

  ghost predicate Progress(conf: Conf, s: State, started: seq<nat>, steps: nat, fails: nat -> bool) {
    Inv(conf, s) && Accounted(s, started, steps, fails)
  }

  lemma ProgressStarts(conf: Conf, fails: nat -> bool)
    requires GoodConf(conf)
    ensures Progress(conf, Init(conf), [], 0, fails)
  {
    InitInv(conf);
  }

  lemma BeforeStep(conf: Conf, s: State, started: seq<nat>, steps: nat, fails: nat -> bool)
    requires Progress(conf, s, started, steps, fails) && Distinct(conf.jobs)
    requires s.ready != multiset{} || s.numRunning != 0
    ensures steps < 2 * |conf.jobs| && s.tokens == s.numRunning == |s.running| && s.tokens == 2 * |started| - steps
    ensures forall x: nat :: x in multiset(started) ==> multiset(started)[x] == 1
    ensures forall x: nat :: x in s.running ==> x in multiset(started)
  {
    hide Released, Pending;
    StepsBound(conf, s);
    OnceStarted(conf, s, started);
    assert |started| == |multiset(started)| == |s.running| + |s.done|;
  }

  lemma ProgressStep(conf: Conf, s: State, a: Action, started: seq<nat>, steps: nat, fails: nat -> bool, s': State)
    requires GoodConf(conf) && Clean(conf) && Progress(conf, s, started, steps, fails)
    requires Enabled(conf, s, a) && !a.Others? && (a.Complete? ==> !a.fails && !fails(a.job)) && s' == Step(conf, s, a)
    ensures Progress(conf, s', if a.Start? then started + [a.job] else started, steps + 1, fails)
  {
    StepInv(conf, s, a);
    StillAccounted(conf, s, a, started, steps, fails);
  }

  lemma ProgressEnds(conf: Conf, s: State, started: seq<nat>, steps: nat, fails: nat -> bool)
    requires GoodConf(conf) && Progress(conf, s, started, steps, fails)
    requires s.ready == multiset{} && (s.running == multiset{} || s.numRunning == 0)
    ensures s.waiting == map[] && s.tokens == 0 && multiset(started) == multiset(conf.jobs) && steps == 2 * |conf.jobs|
    ensures forall j :: j in multiset(conf.jobs) ==> !fails(j)
  {
    EndMeansAllDone(conf, s);
    assert |multiset(conf.jobs)| == |conf.jobs|;
  }

  lemma PlanIsGood(g: Graph, root: nat, plan: seq<nat>, cap: nat)
    requires Closed(g) && Acyclic(g) && root < |g| && CleanFor(g, root) && Plan(g, root, plan) && cap > 0
    ensures GoodConf(Conf(g, plan, cap)) && Clean(Conf(g, plan, cap))
    ensures Distinct(plan) && forall i :: 0 <= i < |plan| ==> plan[i] < |g|
  {
    CleanPlan(g, root, plan, cap);
  }

  /** Every repeated dependency of a job that `root` needs is shielded. */
  ghost predicate CleanFor(g: Graph, root: nat) {
    forall j: nat, d: nat :: Reaches(g, j, root) && j < |g| && multiset(g[j])[d] > 1 ==> Shielded(g, j, d)
  }

  lemma CleanPlan(g: Graph, root: nat, jobs: seq<nat>, cap: nat)
    requires Plan(g, root, jobs) && CleanFor(g, root)
    ensures Clean(Conf(g, jobs, cap))
  {
  }

  datatype Outcome = AllDone | NoSlots | Failed(job: nat) | CycleError

  /** `runJobs`: a run starts every job of the plan exactly once, in two loop steps per job,
      and returns every token; or it stops at the first failure it sees; it never reports a
      cycle. */
  method RunJobs(g: Graph, root: nat, cap: nat, fails: nat -> bool)
    returns (r: Outcome, plan: seq<nat>, started: seq<nat>, steps: nat, tokens: nat)
    requires Closed(g) && Acyclic(g) && root < |g| && CleanFor(g, root)
    ensures r != CycleError && (r == NoSlots <==> cap == 0)
    ensures r == AllDone ==>
      Plan(g, root, plan) && multiset(started) == multiset(plan) && steps == 2 * |plan| && tokens == 0
    ensures r == AllDone ==> forall j :: j in multiset(plan) ==> !fails(j)
    ensures r.Failed? ==> Plan(g, root, plan) && r.job in multiset(started) && fails(r.job)
    ensures r.Failed? ==> forall x: nat :: x in multiset(started) ==> multiset(started)[x] == 1
    // The tokens of the jobs still running at the failure are not returned.
    ensures r.Failed? ==> tokens == 2 * |started| - steps
  {
    hide Plan, Acyclic, Closed, CleanFor, GoodConf, Clean, Progress, Step, Init, Distinct;
    plan, started, steps, tokens := [], [], 0, 0;
    if cap == 0 {
      return NoSlots, plan, started, steps, tokens;
    }
    plan := ListJobs(g, root);
    PlanIsGood(g, root, plan, cap);
    var conf := Conf(g, plan, cap);
    var run := new Runner(conf);
    ProgressStarts(conf, fails);
    while |run.ready| > 0 || run.numRunningJobs != 0
      invariant fresh(run) && run.Valid() && run.conf == conf
      invariant Progress(conf, run.View(), started, steps, fails)
      decreases 2 * |plan| - steps
    {
      ghost var s := run.View();
      ViewShows(run);
      BeforeStep(conf, s, started, steps, fails);
      var a := LoopStep(run, fails);
      if a.Complete? && a.fails {
        return Failed(a.job), plan, started, steps + 1, run.sema;
      }
      ProgressStep(conf, s, a, started, steps, fails, run.View());
      started := if a.Start? then started + [a.job] else started;
      steps := steps + 1;
    }
    ViewShows(run);
    ProgressEnds(conf, run.View(), started, steps, fails);
    tokens := run.sema;
    r := if |run.waiting| != 0 then CycleError else AllDone;
  }

  lemma ViewShows(run: Runner)
    requires run.Valid()
    ensures run.View().ready == multiset{} <==> |run.ready| == 0
    ensures run.View().running == multiset{} <==> |run.running| == 0
    ensures |run.View().running| == |run.running|
  {
    if |run.ready| > 0 {
      assert JobsAt(run.conf.jobs, run.ready)[0] in run.View().ready;
    }
    if |run.running| > 0 {
      assert run.running[0] in run.View().running;
    }
  }
}
