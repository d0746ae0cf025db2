/** The scheduling loop of `runJobs` as a state machine: jobs are started and complete in any
    order the semaphore and the dependencies allow. */
module Scheduler {
  import opened Graphs
  import opened JobGraph
  import opened Options
  import opened Sequences

  /** `jobs` is the list built by `addJobs`, `cap` the capacity of the semaphore. */
  datatype Conf = Conf(g: Graph, jobs: seq<nat>, cap: nat)

  /** `tokens` are the semaphore tokens this run holds and `others` those held by other runs. */
  datatype State = State(waiting: map<nat, set<nat>>, ready: multiset<nat>, running: multiset<nat>,
                         done: multiset<nat>, numRunning: nat, tokens: nat, others: nat, failed: Option<nat>)

  datatype Action = Start(job: nat) | Complete(job: nat, fails: bool) | Others(tokens: nat)

  /** The entry `dependents[c]`: a job is listed once per occurrence of `c` in its list. */
  function Dependents(g: Graph, jobs: seq<nat>, c: nat): seq<nat> {
    if jobs == [] then []
    else
      var j := jobs[|jobs| - 1];
      Dependents(g, jobs[..|jobs| - 1], c) + (if j < |g| then Copies(j, g[j], c) else [])
  }

  function Copies(j: nat, deps: seq<nat>, c: nat): seq<nat> {
    if deps == [] then []
    else Copies(j, deps[..|deps| - 1], c) + (if deps[|deps| - 1] == c then [j] else [])
  }

  datatype Queue = Queue(waiting: map<nat, set<nat>>, ready: multiset<nat>)

  /** One dependent of the completed job `c`. A job already removed from `waiting` reads as an
      empty set and is pushed again. */
  function Visit(q: Queue, c: nat, j: nat): Queue {
    var wait := if j in q.waiting then q.waiting[j] - {c} else {};
    if wait == {} then Queue(q.waiting - {j}, q.ready + multiset{j})
    else q.(waiting := q.waiting[j := wait])
  }

  function VisitAll(q: Queue, c: nat, js: seq<nat>): Queue {
    if js == [] then q else Visit(VisitAll(q, c, js[..|js| - 1]), c, js[|js| - 1])
  }

  function DepSet(deps: seq<nat>): set<nat> {
    set d | d in deps
  }

  function Init(conf: Conf): State {
    State(WaitMap(conf.g, conf.jobs), Without(conf.g, conf.jobs), multiset{}, multiset{}, 0, 0, 0, None)
  }

  /** What each job with dependencies waits for at first. */
  function WaitMap(g: Graph, jobs: seq<nat>): map<nat, set<nat>> {
    map j | j in jobs && j < |g| && g[j] != [] :: DepSet(g[j])
  }

  /** The jobs without dependencies. */
  function Without(g: Graph, jobs: seq<nat>): multiset<nat> {
    if jobs == [] then multiset{}
    else
      var j := jobs[|jobs| - 1];
      Without(g, jobs[..|jobs| - 1]) + (if j < |g| && g[j] == [] then multiset{j} else multiset{})
  }

  function CompleteOk(conf: Conf, s: State, c: nat): State
    requires c in s.running && s.numRunning > 0 && s.tokens > 0
  {
    var q := VisitAll(Queue(s.waiting, s.ready), c, Dependents(conf.g, conf.jobs, c));
    s.(waiting := q.waiting, ready := q.ready, running := s.running - multiset{c},
       done := s.done + multiset{c}, numRunning := s.numRunning - 1, tokens := s.tokens - 1)
  }

  /** A failed job: the remaining jobs are waited for, but their tokens are not returned. */
  function CompleteFailed(s: State, c: nat): State
    requires c in s.running && s.tokens > 0
  {
    s.(running := multiset{}, numRunning := 0, tokens := s.tokens - 1, failed := Some(c))
  }

  predicate Enabled(conf: Conf, s: State, a: Action) {
    match a
    case Start(j) => s.failed.None? && j in s.ready && s.tokens + s.others < conf.cap
    case Complete(c, _) => s.failed.None? && c in s.running && s.numRunning > 0 && s.tokens > 0
    case Others(n) => n + s.tokens <= conf.cap
  }

  function Step(conf: Conf, s: State, a: Action): State {
    if !Enabled(conf, s, a) then s
    else match a
      case Start(j) =>
        s.(ready := s.ready - multiset{j}, running := s.running + multiset{j},
           numRunning := s.numRunning + 1, tokens := s.tokens + 1)
      case Complete(c, fails) => if fails then CompleteFailed(s, c) else CompleteOk(conf, s, c)
      case Others(n) => s.(others := n)
  }

  function Run(conf: Conf, acts: seq<Action>): State {
    if acts == [] then Init(conf) else Step(conf, Run(conf, acts[..|acts| - 1]), acts[|acts| - 1])
  }

  // ---------------------------------------------------------------------------
  // Invariants

  ghost function Released(s: State): multiset<nat> {
    s.ready + s.running + s.done
  }

  /** No job has been released to run more than once. */
  ghost predicate Once(s: State) {
    forall x: nat :: Released(s)[x] <= 1
  }

  function Pending(deps: seq<nat>, done: multiset<nat>): set<nat> {
    set d | d in deps && d !in done
  }

  /** Every job is in exactly one of waiting, ready, running and done; a waiting job waits for
      exactly its dependencies that are not done; any other job has all of them done; and the
      tokens held are the running jobs. */
  ghost predicate Inv(conf: Conf, s: State) {
    && Once(s)
    && s.failed.None?
    && (forall x: nat :: x in conf.jobs <==> x in s.waiting || x in Released(s))
    && (forall x: nat :: x in s.waiting ==> x !in Released(s))
    && (forall x: nat :: x in s.waiting ==> x < |conf.g| && s.waiting[x] == Pending(conf.g[x], s.done) != {})
    && (forall x: nat :: x in Released(s) ==> x < |conf.g| && Pending(conf.g[x], s.done) == {})
    && s.tokens == s.numRunning == |s.running|
    && s.tokens + s.others <= conf.cap
  }

  ghost predicate GoodConf(conf: Conf) {
    && Closed(conf.g) && Acyclic(conf.g)
    && Distinct(conf.jobs) && DepsFirst(conf.g, conf.jobs)
    && conf.cap > 0
  }

  lemma CountConcat(a: seq<nat>, b: seq<nat>, x: nat)
    ensures multiset(a + b)[x] == multiset(a)[x] + multiset(b)[x]
  {
  }

  lemma LastIsNew(jobs: seq<nat>)
    requires Distinct(jobs) && jobs != []
    ensures Distinct(jobs[..|jobs| - 1]) && jobs[|jobs| - 1] !in jobs[..|jobs| - 1]
  {
  }

  lemma LastOrBefore(jobs: seq<nat>, x: nat)
    requires jobs != []
    ensures x in jobs <==> x in jobs[..|jobs| - 1] || x == jobs[|jobs| - 1]
  {
    assert jobs == jobs[..|jobs| - 1] + [jobs[|jobs| - 1]];
  }

  lemma {:induction false} CopiesCount(j: nat, deps: seq<nat>, c: nat)
    ensures multiset(Copies(j, deps, c))[j] == multiset(deps)[c]
    ensures forall x: nat :: x != j ==> multiset(Copies(j, deps, c))[x] == 0
  {
    if deps != [] {
      var pre, last := deps[..|deps| - 1], deps[|deps| - 1];
      CopiesCount(j, pre, c);
      assert deps == pre + [last];
      CountConcat(pre, [last], c);
      var rest: seq<nat> := if last == c then [j] else [];
      assert Copies(j, deps, c) == Copies(j, pre, c) + rest;
      forall x: nat {
        CountConcat(Copies(j, pre, c), rest, x);
      }
    }
  }

  /** A job is listed under `c` as often as `c` occurs among its dependencies. */
  lemma {:induction false} DependentsCount(g: Graph, jobs: seq<nat>, c: nat, x: nat)
    requires Distinct(jobs) && forall i :: 0 <= i < |jobs| ==> jobs[i] < |g|
    ensures multiset(Dependents(g, jobs, c))[x] == if x in jobs then multiset(g[x])[c] else 0
  {
    if jobs != [] {
      var pre, j := jobs[..|jobs| - 1], jobs[|jobs| - 1];
      hide Distinct, Copies;
      LastIsNew(jobs);
      LastOrBefore(jobs, x);
      DependentsCount(g, pre, c, x);
      CopiesCount(j, g[j], c);
      assert Dependents(g, jobs, c) == Dependents(g, pre, c) + Copies(j, g[j], c);
      CountConcat(Dependents(g, pre, c), Copies(j, g[j], c), x);
    }
  }

  /** What completing `c` does to the queues: a waiting job loses `c` from its set; a job whose
      set becomes empty is released once per visit. */
  lemma {:induction false} VisitAllEffect(q: Queue, c: nat, js: seq<nat>, x: nat)
    requires forall j :: j in js ==> j in q.waiting
    ensures var r := VisitAll(q, c, js);
      && (x in js && q.waiting[x] - {c} == {} ==> x !in r.waiting && r.ready[x] == q.ready[x] + multiset(js)[x])
      && (x in js && q.waiting[x] - {c} != {} ==>
            x in r.waiting && r.waiting[x] == q.waiting[x] - {c} && r.ready[x] == q.ready[x])
      && (x !in js ==> r.ready[x] == q.ready[x] && (x in r.waiting <==> x in q.waiting)
                       && (x in q.waiting ==> r.waiting[x] == q.waiting[x]))
  {
    if js != [] {
      var pre, j := js[..|js| - 1], js[|js| - 1];
      assert js == pre + [j];
      assert j in js && forall i :: i in pre ==> i in js;
      VisitAllEffect(q, c, pre, x);
      if x in pre {
        assert x in js;
      }
    }
  }

  lemma RunningNotDone(conf: Conf, s: State, c: nat)
    requires Inv(conf, s) && c in s.running
    ensures c !in s.done && c !in s.ready && s.running[c] == 1 && c in conf.jobs && s.tokens > 0
  {
    assert Released(s)[c] <= 1;
    assert s.running[c] >= 1 && |s.running| >= 1;
    assert c in Released(s);
  }

  /** Exactly the jobs waiting for `c` are visited when it completes. */
  lemma VisitedAreWaiting(conf: Conf, s: State, c: nat, x: nat)
    requires GoodConf(conf) && Inv(conf, s) && c in s.running
    ensures var js := Dependents(conf.g, conf.jobs, c);
      && (x in js <==> x in s.waiting && c in s.waiting[x])
      && (x in js ==> multiset(js)[x] == multiset(conf.g[x])[c])
  {
    RunningNotDone(conf, s, c);
    var js := Dependents(conf.g, conf.jobs, c);
    DependentsCount(conf.g, conf.jobs, c, x);
    if x in js {
      assert c in Pending(conf.g[x], s.done);
      assert x in conf.jobs;
    }
  }

  /** The effect of a completion on one job. */
  lemma CompleteEffect(conf: Conf, s: State, c: nat, x: nat)
    requires GoodConf(conf) && Inv(conf, s) && c in s.running && s.numRunning > 0 && s.tokens > 0
    ensures var s' := CompleteOk(conf, s, c);
      if x !in s.waiting then x !in s'.waiting && Released(s')[x] == Released(s)[x]
      else if s.waiting[x] == {c} then x !in s'.waiting && Released(s')[x] == multiset(conf.g[x])[c]
      else x in s'.waiting && s'.waiting[x] == s.waiting[x] - {c} && Released(s')[x] == 0
  {
    hide GoodConf, VisitAll, Dependents, Pending;
    var js, q := Dependents(conf.g, conf.jobs, c), Queue(s.waiting, s.ready);
    forall j: nat | j in js ensures j in s.waiting {
      VisitedAreWaiting(conf, s, c, j);
    }
    VisitAllEffect(q, c, js, x);
    VisitedAreWaiting(conf, s, c, x);
    RunningNotDone(conf, s, c);
    if x in s.waiting {
      assert Released(s)[x] == 0;
      assert s.waiting[x] - {c} == {} <==> s.waiting[x] == {c} by { assert s.waiting[x] != {}; }
      if x !in js {
        assert s.waiting[x] - {c} == s.waiting[x];
      }
    }
  }

  lemma PendingNext(deps: seq<nat>, done: multiset<nat>, c: nat)
    ensures Pending(deps, done + multiset{c}) == Pending(deps, done) - {c}
  {
  }

  /** Completing a job keeps the invariant as long as no job is released twice. */
  lemma CompleteJob(conf: Conf, s: State, c: nat, x: nat, s': State)
    requires GoodConf(conf) && Inv(conf, s) && c in s.running && s.numRunning > 0 && s.tokens > 0
    requires s' == CompleteOk(conf, s, c) && Once(s')
    ensures x in conf.jobs <==> x in s'.waiting || x in Released(s')
    ensures x in s'.waiting ==> x !in Released(s')
    ensures x in s'.waiting ==> x < |conf.g| && s'.waiting[x] == Pending(conf.g[x], s'.done) != {}
    ensures x in Released(s') ==> x < |conf.g| && Pending(conf.g[x], s'.done) == {}
  {
    hide GoodConf;
    RunningNotDone(conf, s, c);
    CompleteEffect(conf, s, c, x);
    if x < |conf.g| {
      PendingNext(conf.g[x], s.done, c);
    }
    if x in s.waiting && s.waiting[x] == {c} {
      assert c in conf.g[x] by { assert c in Pending(conf.g[x], s.done); }
      assert multiset(conf.g[x])[c] > 0;
    }
  }

  lemma CompleteCounts(conf: Conf, s: State, c: nat, s': State)
    requires Inv(conf, s) && c in s.running && s.numRunning > 0 && s.tokens > 0 && s' == CompleteOk(conf, s, c)
    ensures s'.failed.None? && s'.tokens == s'.numRunning == |s'.running| && s'.tokens + s'.others <= conf.cap
  {
    hide Released, Pending;
  }

  lemma CompleteInv(conf: Conf, s: State, c: nat)
    requires GoodConf(conf) && Inv(conf, s) && c in s.running && s.numRunning > 0 && s.tokens > 0
    requires Once(CompleteOk(conf, s, c))
    ensures Inv(conf, CompleteOk(conf, s, c))
  {
    var s' := CompleteOk(conf, s, c);
    CompleteCounts(conf, s, c, s');
    hide GoodConf, CompleteOk, Pending, Released;
    forall x: nat
      ensures x in conf.jobs <==> x in s'.waiting || x in Released(s')
      ensures x in s'.waiting ==> x !in Released(s')
      ensures x in s'.waiting ==> x < |conf.g| && s'.waiting[x] == Pending(conf.g[x], s'.done) != {}
      ensures x in Released(s') ==> x < |conf.g| && Pending(conf.g[x], s'.done) == {}
    {
      CompleteJob(conf, s, c, x, s');
    }
  }

  /** Completing `c` releases some job twice exactly when a job waiting only for `c` lists it
      more than once. */
  lemma CompleteOnce(conf: Conf, s: State, c: nat)
    requires GoodConf(conf) && Inv(conf, s) && c in s.running && s.numRunning > 0 && s.tokens > 0
    ensures Once(CompleteOk(conf, s, c)) <==>
      forall x: nat :: x in s.waiting && s.waiting[x] == {c} ==> multiset(conf.g[x])[c] <= 1
  {
    var s' := CompleteOk(conf, s, c);
    forall x: nat
      ensures Released(s')[x] <= 1 <==> (x in s.waiting && s.waiting[x] == {c} ==> multiset(conf.g[x])[c] <= 1)
    {
      CompleteEffect(conf, s, c, x);
      assert Released(s)[x] <= 1;
    }
    if Once(s') {
      forall x: nat | x in s.waiting && s.waiting[x] == {c} ensures multiset(conf.g[x])[c] <= 1 {
        assert Released(s')[x] <= 1;
      }
    }
  }

  lemma StartInv(conf: Conf, s: State, j: nat)
    requires Inv(conf, s) && Enabled(conf, s, Start(j))
    ensures Inv(conf, Step(conf, s, Start(j)))
  {
    var s' := Step(conf, s, Start(j));
    assert s.ready == (s.ready - multiset{j}) + multiset{j};
    assert Released(s') == Released(s);
  }

  lemma {:induction false} WithoutCount(g: Graph, jobs: seq<nat>, x: nat)
    requires Distinct(jobs) && forall i :: 0 <= i < |jobs| ==> jobs[i] < |g|
    ensures Without(g, jobs)[x] == if x in jobs && g[x] == [] then 1 else 0
  {
    if jobs != [] {
      var pre, j := jobs[..|jobs| - 1], jobs[|jobs| - 1];
      WithoutCount(g, pre, x);
      assert jobs == pre + [j];
      if x == j {
        assert x !in pre;
      }
    }
  }

  lemma InitEffect(conf: Conf, x: nat)
    requires GoodConf(conf)
    ensures var s := Init(conf);
      && Released(s)[x] == (if x in conf.jobs && conf.g[x] == [] then 1 else 0)
      && (x in s.waiting <==> x in conf.jobs && conf.g[x] != [])
      && (x in s.waiting ==> s.waiting[x] == Pending(conf.g[x], multiset{}) != {})
      && (x in conf.jobs ==> x < |conf.g| && (conf.g[x] == [] ==> Pending(conf.g[x], multiset{}) == {}))
  {
    var s := Init(conf);
    WithoutCount(conf.g, conf.jobs, x);
    if x in s.waiting {
      assert conf.g[x][0] in Pending(conf.g[x], multiset{});
      assert s.waiting[x] == DepSet(conf.g[x]) == Pending(conf.g[x], multiset{});
    }
  }

  lemma InitInv(conf: Conf)
    requires GoodConf(conf)
    ensures Inv(conf, Init(conf))
  {
    var s := Init(conf);
    assert conf.cap > 0;
    hide GoodConf, WaitMap, Without, Pending;
    forall x: nat
      ensures x in conf.jobs <==> x in s.waiting || x in Released(s)
      ensures x in s.waiting ==> x !in Released(s)
      ensures x in s.waiting ==> x < |conf.g| && s.waiting[x] == Pending(conf.g[x], s.done) != {}
      ensures x in Released(s) ==> x < |conf.g| && Pending(conf.g[x], s.done) == {}
      ensures Released(s)[x] <= 1
    {
      InitEffect(conf, x);
    }
  }
}
