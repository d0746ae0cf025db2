/** Whole runs of the job scheduler: safety of every interleaving, the exact condition on
    repeated dependencies, progress, and what a successful or failed run leaves behind. */
module SchedulerProofs {
  import opened Graphs
  import opened JobGraph
  import opened Scheduler
  import opened Options
  import opened Sequences

  lemma ReachesAppend(g: Graph, a: nat, b: nat, c: nat)
    requires Reaches(g, a, b) && c < |g| && Edge(g, b, c)
    ensures Reaches(g, a, c)
  {
    var p :| PathFromTo(g, p, a, b);
    AppendEdge(g, p, c);
  }

  /** Whatever a finished job needs, directly or not, is finished. */
  lemma {:induction false} DoneClosed(conf: Conf, s: State, p: seq<nat>, i: nat)
    requires Inv(conf, s) && IsPath(conf.g, p) && p[|p| - 1] in s.done && i < |p|
    ensures p[i] in s.done
    decreases |p| - i
  {
    if i < |p| - 1 {
      DoneClosed(conf, s, p, i + 1);
      assert p[i + 1] in Released(s) && Edge(conf.g, p[i], p[i + 1]);
      assert p[i] !in Pending(conf.g[p[i + 1]], s.done);
    }
  }

  /** A dependency may be repeated only if another dependency of the same job needs it, so
      that the repeated one is never the last to finish. */
  ghost predicate Clean(conf: Conf) {
    forall j: nat, d: nat :: j in conf.jobs && j < |conf.g| && multiset(conf.g[j])[d] > 1 ==> Shielded(conf.g, j, d)
  }

  ghost predicate Shielded(g: Graph, j: nat, d: nat)
    requires j < |g|
  {
    exists e: nat :: e in g[j] && e != d && Reaches(g, d, e)
  }

  lemma CleanCompletion(conf: Conf, s: State, c: nat)
    requires GoodConf(conf) && Clean(conf) && Inv(conf, s) && c in s.running && s.numRunning > 0 && s.tokens > 0
    ensures Once(CompleteOk(conf, s, c))
  {
    RunningNotDone(conf, s, c);
    forall x: nat | x in s.waiting && s.waiting[x] == {c} ensures multiset(conf.g[x])[c] <= 1 {
      if multiset(conf.g[x])[c] > 1 {
        assert Shielded(conf.g, x, c);
        var e: nat :| e in conf.g[x] && e != c && Reaches(conf.g, c, e);
        assert e !in Pending(conf.g[x], s.done);
        var p :| PathFromTo(conf.g, p, c, e);
        DoneClosed(conf, s, p, 0);
      }
    }
    CompleteOnce(conf, s, c);
  }

  /** In every interleaving, until a job fails, the invariant holds. */
  lemma {:induction false} EveryRunKeepsInv(conf: Conf, acts: seq<Action>)
    requires GoodConf(conf) && Clean(conf) && Run(conf, acts).failed.None?
    ensures Inv(conf, Run(conf, acts))
  {
    if acts == [] {
      InitInv(conf);
    } else {
      var pre, a := acts[..|acts| - 1], acts[|acts| - 1];
      EveryRunKeepsInv(conf, pre);
      var s := Run(conf, pre);
      if Enabled(conf, s, a) {
        StepInv(conf, s, a);
      }
    }
  }

  lemma StepInv(conf: Conf, s: State, a: Action)
    requires GoodConf(conf) && Clean(conf) && Inv(conf, s) && Enabled(conf, s, a) && Step(conf, s, a).failed.None?
    ensures Inv(conf, Step(conf, s, a))
  {
    match a
    case Start(j) => StartInv(conf, s, j);
    case Complete(c, fails) =>
      CleanCompletion(conf, s, c);
      CompleteInv(conf, s, c);
    case Others(n) => assert Released(s.(others := n)) == Released(s);
  }

  // ---------------------------------------------------------------------------
  // A repeated dependency that is not shielded releases its job twice in some run

  lemma RunMore(conf: Conf, acts: seq<Action>, a: Action)
    ensures Run(conf, acts + [a]) == Step(conf, Run(conf, acts), a)
  {
    var bs := acts + [a];
    assert bs[..|bs| - 1] == acts;
  }

  ghost predicate ReachedState(conf: Conf, s: State) {
    exists acts :: Run(conf, acts) == s
  }

  lemma ReachedStep(conf: Conf, s: State, a: Action)
    requires ReachedState(conf, s)
    ensures ReachedState(conf, Step(conf, s, a))
  {
    var acts :| Run(conf, acts) == s;
    RunMore(conf, acts, a);
  }

  /** Runs a job whose dependencies are done, while nothing else is running. */
  lemma RunOne(conf: Conf, s: State, x: nat) returns (s': State)
    requires GoodConf(conf) && Inv(conf, s) && ReachedState(conf, s) && s.running == multiset{} && s.others == 0
    requires x in conf.jobs && x < |conf.g| && x !in s.done && Pending(conf.g[x], s.done) == {}
    ensures ReachedState(conf, s') && s'.failed.None?
    ensures !Once(s') || (Inv(conf, s') && s'.running == multiset{} && s'.others == 0
      && s'.done == s.done + multiset{x})
  {
    assert x !in s.waiting && x in Released(s);
    StartInv(conf, s, x);
    ReachedStep(conf, s, Start(x));
    var s1 := Step(conf, s, Start(x));
    assert s1.running == multiset{x};
    ReachedStep(conf, s1, Complete(x, false));
    s' := Step(conf, s1, Complete(x, false));
    if Once(s') {
      CompleteInv(conf, s1, x);
    }
  }

  ghost predicate RanUpTo(conf: Conf, s: State, d: nat, k: nat)
    requires k <= |conf.jobs|
  {
    && Inv(conf, s) && s.running == multiset{} && s.others == 0
    && forall x: nat :: x in s.done <==> x in conf.jobs[..k] && !Reaches(conf.g, d, x)
  }

  lemma DepsRan(conf: Conf, s: State, d: nat, k: nat)
    requires GoodConf(conf) && k < |conf.jobs| && RanUpTo(conf, s, d, k) && !Reaches(conf.g, d, conf.jobs[k])
    ensures conf.jobs[k] < |conf.g| && conf.jobs[k] !in s.done && Pending(conf.g[conf.jobs[k]], s.done) == {}
  {
    var x := conf.jobs[k];
    assert DepsIn(conf.g, x, conf.jobs[..k]);
    forall y: nat | y in conf.g[x] ensures y in s.done {
      var i :| 0 <= i < |conf.g[x]| && conf.g[x][i] == y;
      assert y in conf.jobs[..k] && Edge(conf.g, y, x);
      if Reaches(conf.g, d, y) {
        ReachesAppend(conf.g, d, y, x);
      }
    }
    assert x !in conf.jobs[..k];
  }

  lemma RanNext(conf: Conf, s: State, s': State, d: nat, k: nat)
    requires k < |conf.jobs| && RanUpTo(conf, s, d, k) && !Reaches(conf.g, d, conf.jobs[k])
    requires Inv(conf, s') && s'.running == multiset{} && s'.others == 0 && s'.done == s.done + multiset{conf.jobs[k]}
    ensures RanUpTo(conf, s', d, k + 1)
  {
    assert conf.jobs[..k + 1] == conf.jobs[..k] + [conf.jobs[k]];
  }

  lemma RanSkip(conf: Conf, s: State, d: nat, k: nat)
    requires k < |conf.jobs| && RanUpTo(conf, s, d, k) && Reaches(conf.g, d, conf.jobs[k])
    ensures RanUpTo(conf, s, d, k + 1)
  {
    assert conf.jobs[..k + 1] == conf.jobs[..k] + [conf.jobs[k]];
  }

  lemma RanStart(conf: Conf, d: nat)
    requires GoodConf(conf)
    ensures RanUpTo(conf, Init(conf), d, 0) && ReachedState(conf, Init(conf))
  {
    InitInv(conf);
    assert Run(conf, []) == Init(conf);
  }

  /** Runs, one at a time, every job that does not need `d`. */
  lemma {:induction false} RunAllBut(conf: Conf, d: nat, k: nat) returns (s: State)
    requires GoodConf(conf) && k <= |conf.jobs|
    ensures ReachedState(conf, s) && s.failed.None? && (!Once(s) || RanUpTo(conf, s, d, k))
  {
    if k == 0 {
      s := Init(conf);
      RanStart(conf, d);
    } else {
      s := RunAllBut(conf, d, k - 1);
      if Once(s) {
        s := RunNext(conf, s, d, k - 1);
      }
    }
  }

  lemma RunNext(conf: Conf, s: State, d: nat, k: nat) returns (s': State)
    requires GoodConf(conf) && k < |conf.jobs| && RanUpTo(conf, s, d, k) && ReachedState(conf, s)
    ensures ReachedState(conf, s') && s'.failed.None? && (!Once(s') || RanUpTo(conf, s', d, k + 1))
  {
    var x := conf.jobs[k];
    if Reaches(conf.g, d, x) {
      RanSkip(conf, s, d, k);
      s' := s;
    } else {
      DepsRan(conf, s, d, k);
      s' := RunOne(conf, s, x);
      if Once(s') {
        RanNext(conf, s, s', d, k);
      }
    }
  }

  lemma OnlyWaitsFor(conf: Conf, s: State, j: nat, d: nat)
    requires GoodConf(conf) && Inv(conf, s) && j in conf.jobs && j < |conf.g| && d in conf.g[j] && d !in s.done
    requires forall x: nat :: x in conf.jobs && !Reaches(conf.g, d, x) ==> x in s.done
    requires !Shielded(conf.g, j, d)
    ensures j in s.waiting && s.waiting[j] == {d}
  {
    assert d in Pending(conf.g[j], s.done);
    assert j !in Released(s);
    forall e: nat | e in s.waiting[j] ensures e == d {
      JobsClosed(conf, j, e);
    }
  }

  lemma JobsClosed(conf: Conf, j: nat, e: nat)
    requires GoodConf(conf) && j in conf.jobs && j < |conf.g| && e in conf.g[j]
    ensures e in conf.jobs
  {
    var i :| 0 <= i < |conf.jobs| && conf.jobs[i] == j;
    assert DepsIn(conf.g, j, conf.jobs[..i]);
    var k :| 0 <= k < |conf.g[j]| && conf.g[j][k] == e;
    assert e in conf.jobs[..i];
  }

  /** Once everything that does not need `d` is done, completing `d` releases `j` twice. */
  lemma LastDependency(conf: Conf, s: State, j: nat, d: nat) returns (s': State)
    requires GoodConf(conf) && RanUpTo(conf, s, d, |conf.jobs|) && ReachedState(conf, s)
    requires j in conf.jobs && j < |conf.g| && multiset(conf.g[j])[d] > 1 && !Shielded(conf.g, j, d)
    ensures ReachedState(conf, s') && s'.failed.None? && !Once(s')
  {
    assert conf.jobs[..|conf.jobs|] == conf.jobs;
    assert d in conf.g[j];
    JobsClosed(conf, j, d);
    assert d < |conf.g|;
    ReachesSelf(conf.g, d);
    NeededByNothingItNeeds(conf, s, d);
    StartInv(conf, s, d);
    ReachedStep(conf, s, Start(d));
    var s1 := Step(conf, s, Start(d));
    assert s1.done == s.done && s1.failed.None? && d in s1.running && s1.tokens == 1 && s1.numRunning == 1;
    OnlyWaitsFor(conf, s1, j, d);
    s' := DoubleRelease(conf, s1, j, d);
  }

  lemma DoubleRelease(conf: Conf, s: State, j: nat, d: nat) returns (s': State)
    requires GoodConf(conf) && Inv(conf, s) && ReachedState(conf, s) && d in s.running && s.numRunning > 0
      && s.tokens > 0
    requires j in s.waiting && s.waiting[j] == {d} && j < |conf.g| && multiset(conf.g[j])[d] > 1
    ensures ReachedState(conf, s') && s'.failed.None? && !Once(s')
  {
    CompleteOnce(conf, s, d);
    ReachedStep(conf, s, Complete(d, false));
    s' := Step(conf, s, Complete(d, false));
  }

  lemma NotCleanReleasesTwice(conf: Conf, j: nat, d: nat) returns (s: State)
    requires GoodConf(conf) && j in conf.jobs && j < |conf.g| && multiset(conf.g[j])[d] > 1 && !Shielded(conf.g, j, d)
    ensures ReachedState(conf, s) && s.failed.None? && !Once(s)
  {
    s := RunAllBut(conf, d, |conf.jobs|);
    if Once(s) {
      s := LastDependency(conf, s, j, d);
    }
  }

  lemma NoWayBack(g: Graph, d: nat, x: nat)
    requires d < |g| && !OnCycle(g, d) && x in g[d]
    ensures !Reaches(g, d, x)
  {
    forall p | PathFromTo(g, p, d, x) ensures false {
      AppendEdge(g, p, d);
    }
  }

  lemma NeededByNothingItNeeds(conf: Conf, s: State, d: nat)
    requires GoodConf(conf) && RanUpTo(conf, s, d, |conf.jobs|) && d in conf.jobs && d < |conf.g|
    ensures d in s.ready && s.tokens == 0
  {
    assert conf.jobs[..|conf.jobs|] == conf.jobs;
    ReachesSelf(conf.g, d);
    forall x: nat | x in conf.g[d] ensures x in s.done {
      JobsClosed(conf, d, x);
      NoWayBack(conf.g, d, x);
    }
    assert Pending(conf.g[d], s.done) == {};
    assert d !in s.waiting && d in Released(s);
  }

  /** No interleaving releases a job twice if and only if every repeated dependency is
      shielded. */
  lemma OnceIffClean(conf: Conf)
    requires GoodConf(conf)
    ensures (forall acts :: Run(conf, acts).failed.None? ==> Once(Run(conf, acts))) <==> Clean(conf)
  {
    if Clean(conf) {
      forall acts | Run(conf, acts).failed.None? ensures Once(Run(conf, acts)) {
        EveryRunKeepsInv(conf, acts);
      }
    } else {
      var j: nat, d: nat :| j in conf.jobs && j < |conf.g| && multiset(conf.g[j])[d] > 1 && !Shielded(conf.g, j, d);
      var s := NotCleanReleasesTwice(conf, j, d);
      var acts := WitnessRun(conf, s);
    }
  }

  lemma WitnessRun(conf: Conf, s: State) returns (acts: seq<Action>)
    requires ReachedState(conf, s) && s.failed.None? && !Once(s)
    ensures Run(conf, acts).failed.None? && !Once(Run(conf, acts))
  {
    acts :| Run(conf, acts) == s;
  }

  // A job released twice is started twice by some continuation of the run.

  /** The jobs started so far, as long as none has failed. */
  ghost function Started(s: State): multiset<nat> {
    s.running + s.done
  }

  ghost predicate StartedOnce(s: State) {
    forall x: nat :: Started(s)[x] <= 1
  }

  /** In every run, clean or not, the tokens held are those of the running jobs. */
  ghost predicate Counted(conf: Conf, s: State) {
    s.failed.None? ==> s.tokens == s.numRunning == |s.running| && s.tokens + s.others <= conf.cap
  }

  lemma {:induction false} RunCounted(conf: Conf, acts: seq<Action>)
    ensures Counted(conf, Run(conf, acts))
  {
    if acts != [] {
      RunCounted(conf, acts[..|acts| - 1]);
    }
  }

  lemma {:induction false} VisitAllGrows(q: Queue, c: nat, js: seq<nat>)
    ensures q.ready <= VisitAll(q, c, js).ready
  {
    if js != [] {
      VisitAllGrows(q, c, js[..|js| - 1]);
    }
  }

  lemma CompleteGrows(conf: Conf, s: State, c: nat)
    requires c in s.running && s.numRunning > 0 && s.tokens > 0
    ensures Released(s) <= Released(CompleteOk(conf, s, c)) && Started(s) == Started(CompleteOk(conf, s, c))
  {
    hide VisitAll, Dependents;
    VisitAllGrows(Queue(s.waiting, s.ready), c, Dependents(conf.g, conf.jobs, c));
  }

  /** Completes what runs and starts `x` until it has been started twice. */
  lemma {:induction false} StartTwice(conf: Conf, s: State, x: nat) returns (s': State)
    requires conf.cap > 0 && ReachedState(conf, s) && s.failed.None? && s.others == 0 && Released(s)[x] > 1
    ensures ReachedState(conf, s') && s'.failed.None? && Started(s')[x] > 1
    decreases if Started(s)[x] < 2 then 2 - Started(s)[x] else 0, |s.running|
  {
    hide ReachedState;
    ReachedCounted(conf, s);
    if Started(s)[x] > 1 {
      s' := s;
    } else if s.running != multiset{} {
      var c: nat :| c in s.running;
      CompleteGrows(conf, s, c);
      ReachedStep(conf, s, Complete(c, false));
      s' := StartTwice(conf, Step(conf, s, Complete(c, false)), x);
    } else {
      ReachedStep(conf, s, Start(x));
      s' := StartTwice(conf, Step(conf, s, Start(x)), x);
    }
  }

  lemma ReachedCounted(conf: Conf, s: State)
    requires ReachedState(conf, s)
    ensures Counted(conf, s)
  {
    var acts :| Run(conf, acts) == s;
    RunCounted(conf, acts);
  }

  lemma TwiceStarted(conf: Conf, acts: seq<Action>) returns (more: seq<Action>)
    requires conf.cap > 0 && Run(conf, acts).failed.None? && !Once(Run(conf, acts))
    ensures Run(conf, more).failed.None? && !StartedOnce(Run(conf, more))
  {
    hide Run;
    var s := Run(conf, acts);
    var x: nat :| Released(s)[x] > 1;
    ReachedCounted(conf, s);
    ReachedStep(conf, s, Others(0));
    var s' := StartTwice(conf, Step(conf, s, Others(0)), x);
    more :| Run(conf, more) == s';
  }

  /** Every interleaving starts every job at most once if and only if every repeated dependency
      is shielded. */
  lemma StartedOnceIffClean(conf: Conf)
    requires GoodConf(conf)
    ensures (forall acts :: Run(conf, acts).failed.None? ==> StartedOnce(Run(conf, acts))) <==> Clean(conf)
  {
    hide GoodConf, Clean, Once, StartedOnce;
    OnceIffClean(conf);
    if Clean(conf) {
      forall acts | Run(conf, acts).failed.None? ensures StartedOnce(Run(conf, acts)) {
        assert Once(Run(conf, acts));
        AtMostReleased(Run(conf, acts));
      }
    } else {
      var acts :| Run(conf, acts).failed.None? && !Once(Run(conf, acts));
      GoodHasTokens(conf);
      var more := TwiceStarted(conf, acts);
    }
  }

  lemma AtMostReleased(s: State)
    requires Once(s)
    ensures StartedOnce(s)
  {
    forall x: nat ensures Started(s)[x] <= 1 {
      assert Released(s)[x] <= 1;
    }
  }

  lemma GoodHasTokens(conf: Conf)
    requires GoodConf(conf)
    ensures conf.cap > 0
  {
  }

  /** Job 1 lists job 0 twice. */
  const TWICE_LISTED := Conf([[], [0, 0]], [0, 1], 1)

  lemma TwiceListedIsGood(conf: Conf)
    requires |conf.g| == 2 && conf.g[0] == [] && conf.g[1] == [0, 0] && conf.jobs == [0, 1] && conf.cap == 1
    ensures GoodConf(conf)
  {
    var g := conf.g;
    forall b: nat | b < 2 ensures !OnCycle(g, b) {
      OnlyFromZero(g, b);
    }
    assert conf.jobs[..0] == [] && conf.jobs[..1] == [0];
  }

  lemma OnlyFromZero(g: Graph, b: nat)
    requires |g| == 2 && g[0] == [] && g[1] == [0, 0] && b < 2
    ensures !OnCycle(g, b)
  {
    forall p | PathFromTo(g, p, b, b) && |p| > 1 ensures false {
      PathEnds(g, p);
    }
  }

  lemma PathEnds(g: Graph, p: seq<nat>)
    requires IsPath(g, p) && |p| > 1
    ensures Edge(g, p[0], p[1]) && Edge(g, p[|p| - 2], p[|p| - 1])
  {
  }

  lemma TwiceListedDependents(g: Graph)
    requires |g| == 2 && g[0] == [] && g[1] == [0, 0]
    ensures Dependents(g, [0, 1], 0) == [1, 1]
  {
    assert [0, 1][..1] == [0] && [0][..0] == [] && [0, 0][..1] == [0];
    assert Copies(1, [0], 0) == [1];
    assert Copies(1, [0, 0], 0) == [1, 1];
    assert Dependents(g, [0], 0) == [];
  }

  lemma VisitedTwice(q: Queue, j: nat)
    requires q.waiting == map[j := {0}] && q.ready == multiset{}
    ensures VisitAll(q, 0, [j, j]).ready == multiset{j, j}
  {
    assert [j, j][..1] == [j] && [j][..0] == [];
    assert VisitAll(q, 0, [j]) == Visit(q, 0, j);
    assert q.waiting[j] - {0} == {};
  }

  /** When job 0 completes, job 1 is released twice. */
  lemma RepeatedDependencyReleasesTwice(conf: Conf, acts: seq<Action>)
    requires conf == TWICE_LISTED && acts == [Start(0), Complete(0, false)]
    ensures GoodConf(conf) && Run(conf, acts).failed.None? && Run(conf, acts).ready == multiset{1, 1}
    ensures !Once(Run(conf, acts))
  {
    assert acts[..1][..0] == [] && acts[..1] == [acts[0]];
    var s1 := Step(conf, Init(conf), acts[0]);
    assert Run(conf, acts[..1]) == s1;
    TwiceListedSteps(conf, s1, Run(conf, acts));
  }

  lemma TwiceListedSteps(conf: Conf, s1: State, s2: State)
    requires |conf.g| == 2 && conf.g[0] == [] && conf.g[1] == [0, 0] && conf.jobs == [0, 1] && conf.cap == 1
    requires s1 == Step(conf, Init(conf), Start(0)) && s2 == Step(conf, s1, Complete(0, false))
    ensures GoodConf(conf) && s2.failed.None? && s2.ready == multiset{1, 1} && !Once(s2)
  {
    TwiceListedIsGood(conf);
    TwiceListedStart(conf, s1);
    hide GoodConf, Init, Step, Once;
    TwiceListedCompletes(conf, s1, s2);
  }

  lemma TwiceListedCompletes(conf: Conf, s1: State, s2: State)
    requires |conf.g| == 2 && conf.g[0] == [] && conf.g[1] == [0, 0] && conf.jobs == [0, 1]
    requires s1.running == multiset{0} && s1.ready == multiset{} && s1.waiting == map[1 := {0}]
    requires s1.tokens == 1 && s1.numRunning == 1 && s1.failed.None? && s2 == Step(conf, s1, Complete(0, false))
    ensures s2.failed.None? && s2.ready == multiset{1, 1} && !Once(s2)
  {
    TwiceListedDependents(conf.g);
    VisitedTwice(Queue(s1.waiting, s1.ready), 1);
    hide VisitAll, Dependents;
    assert s2 == CompleteOk(conf, s1, 0);
    assert Released(s2)[1] >= 2;
  }

  lemma TwiceListedStart(conf: Conf, s1: State)
    requires |conf.g| == 2 && conf.g[0] == [] && conf.g[1] == [0, 0] && conf.jobs == [0, 1] && conf.cap == 1
    requires s1 == Step(conf, Init(conf), Start(0))
    ensures s1.running == multiset{0} && s1.ready == multiset{} && s1.done == multiset{} && s1.waiting == map[1 := {0}]
    ensures s1.tokens == 1 && s1.numRunning == 1 && s1.failed.None?
  {
    TwiceListedInit(conf);
    hide WaitMap, Without;
  }

  lemma TwiceListedInit(conf: Conf)
    requires |conf.g| == 2 && conf.g[0] == [] && conf.g[1] == [0, 0] && conf.jobs == [0, 1]
    ensures Init(conf).waiting == map[1 := {0}] && Init(conf).ready == multiset{0}
  {
    assert [0, 1][..1] == [0] && [0][..0] == [];
    assert Without(conf.g, [0]) == multiset{0};
    assert DepSet([0, 0]) == {0};
  }

  // ---------------------------------------------------------------------------
  // The end of a run

  /** When nothing is ready or running, the jobs listed first are all done. */
  lemma {:induction false} NoneWaiting(conf: Conf, s: State, k: nat)
    requires GoodConf(conf) && Inv(conf, s) && s.ready == multiset{} && s.running == multiset{} && k <= |conf.jobs|
    ensures forall i :: 0 <= i < k ==> conf.jobs[i] in s.done
  {
    if k > 0 {
      NoneWaiting(conf, s, k - 1);
      var x := conf.jobs[k - 1];
      assert DepsIn(conf.g, x, conf.jobs[..k - 1]);
      forall d: nat | d in conf.g[x] ensures d in s.done {
        var i :| 0 <= i < |conf.g[x]| && conf.g[x][i] == d;
        assert d in conf.jobs[..k - 1];
      }
      assert Pending(conf.g[x], s.done) == {};
      assert x in conf.jobs;
      assert x in Released(s);
    }
  }

  lemma {:induction false} DistinctCount(jobs: seq<nat>, x: nat)
    requires Distinct(jobs)
    ensures multiset(jobs)[x] == if x in jobs then 1 else 0
  {
    if jobs != [] {
      var n := |jobs| - 1;
      DistinctCount(jobs[..n], x);
      assert jobs == jobs[..n] + [jobs[n]];
      assert x == jobs[n] ==> x !in jobs[..n];
    }
  }

  /** The loop never ends with jobs still waiting, so the dependency cycle error is
      unreachable, and then every job has run exactly once. */
  lemma EndMeansAllDone(conf: Conf, s: State)
    requires GoodConf(conf) && Inv(conf, s) && s.ready == multiset{} && s.running == multiset{}
    ensures s.waiting == map[] && s.done == multiset(conf.jobs) && s.tokens == 0
  {
    NoneWaiting(conf, s, |conf.jobs|);
    forall x: nat ensures s.done[x] == multiset(conf.jobs)[x] && x !in s.waiting {
      DistinctCount(conf.jobs, x);
      assert Released(s)[x] <= 1;
      if x in conf.jobs {
        assert x in s.done;
      } else {
        assert x !in Released(s);
      }
    }
  }

  /** While work remains and other users leave a token, some action is possible. */
  lemma NoDeadlock(conf: Conf, s: State) returns (a: Action)
    requires Inv(conf, s) && (s.ready != multiset{} || s.running != multiset{}) && s.others < conf.cap
    ensures !a.Others? && Enabled(conf, s, a)
  {
    if s.running != multiset{} {
      var c: nat :| c in s.running;
      RunningNotDone(conf, s, c);
      a := Complete(c, false);
    } else {
      var j: nat :| j in s.ready;
      a := Start(j);
    }
  }

  /** A failing job leaves the loop with the tokens of the jobs that were still running. */
  lemma FailureKeepsTokens(conf: Conf, s: State, c: nat)
    requires Inv(conf, s) && c in s.running
    ensures var s' := Step(conf, s, Complete(c, true));
      s'.failed == Some(c) && s'.numRunning == 0 && s'.tokens == |s.running| - 1 && c < |conf.g|
        && Pending(conf.g[c], s'.done) == {}
  {
    RunningNotDone(conf, s, c);
    assert c in Released(s);
  }

  /** No more jobs are released than there are, so a run has at most two steps per job. */
  lemma StepsBound(conf: Conf, s: State)
    requires Inv(conf, s) && Distinct(conf.jobs)
    ensures |s.ready| + |s.running| + |s.done| <= |conf.jobs|
  {
    var a := Released(s);
    forall x: nat ensures a[x] <= multiset(conf.jobs)[x] {
      DistinctCount(conf.jobs, x);
      assert a[x] <= 1;
      if a[x] == 1 {
        assert x in a;
      }
    }
    assert a <= multiset(conf.jobs);
    SubmultisetSize(a, multiset(conf.jobs));
    assert |a| == |s.ready| + |s.running| + |s.done|;
  }

  lemma SubmultisetSize(a: multiset<nat>, b: multiset<nat>)
    requires a <= b
    ensures |a| <= |b|
  {
    assert b == a + (b - a);
  }

  lemma OnceStarted(conf: Conf, s: State, started: seq<nat>)
    requires Inv(conf, s) && multiset(started) == s.running + s.done
    ensures forall x: nat :: x in multiset(started) ==> multiset(started)[x] == 1
  {
    forall x: nat | x in multiset(started) ensures multiset(started)[x] == 1 {
      assert Released(s)[x] <= 1;
    }
  }
}
