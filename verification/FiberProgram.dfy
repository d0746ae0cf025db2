/** A program that issues the workload's operations through the fiber interface: the flag-driven
    runtime gives it the answers the workload's model of fibers records. */
module FiberProgram {
  import opened Fibers
  import opened FiberMachine
  import opened FiberTraces
  import opened Workload

  /** The main program: allocate, resume and forget fibers as told. `handles` is the table from
      keys to fibers. It stops at an operation on a key that has no fiber. */
  ghost function Program(ops: seq<Op>, handles: map<nat, nat>): Co
    decreases |ops|
  {
    if ops == [] then Return(NULL)
    else
      var rest := ops[1..];
      match ops[0]
      case AllocOp(k) => Alloc(AsyncWorker, (g: nat) => Program(rest, handles[k := g]))
      case FreeOp(k) => if k in handles then Program(rest, handles - {k}) else Return(NULL)
      case ResumeOp(k, v) =>
        if k in handles then Resume(handles[k], v, (r, st) => Program(rest, handles)) else Return(NULL)
  }

  /** The answers an observer reads off a log: each resume with the stack uses before it. */
  function Observed(log: seq<Event>): (seq<Answer>, seq<int>) {
    if log == [] then ([], [])
    else
      var (answers, uses) := Observed(log[..|log| - 1]);
      match log[|log| - 1]
      case Used(kb) => (answers, uses + [kb])
      case Resumed(_, _, v) => (answers + [Answer(v, uses)], [])
  }

  /** The answers to resumes. */
  function Answered(answers: seq<Answer>): seq<Answer> {
    if answers == [] then []
    else
      var last := answers[|answers| - 1];
      Answered(answers[..|answers| - 1]) + (if last.Answer? then [last] else [])
  }

  function ApplyAll(b: Both, ops: seq<Op>): Both
    decreases |ops|
  {
    if ops == [] then b else ApplyAll(Apply(b, ops[0]), ops[1..])
  }

  /** No operation uses a fiber that does not exist. */
  predicate AllLive(b: Both, ops: seq<Op>)
    decreases |ops|
  {
    ops == [] || ((ops[0].AllocOp? || Live(b, ops[0].key)) && AllLive(Apply(b, ops[0]), ops[1..]))
  }

  /** The states a worker's fiber can be in. */
  ghost predicate WorkerLike(c: Coroutine) {
    || c == Fresh(AsyncWorker) || c == Finished
    || (c.Suspended? && forall kb :: c.k(kb) == Use(kb, Return(1)))
  }

  /** The coroutine state `s`, about to run the remaining operations, has the fibers and the
      answers of `b`. */
  ghost predicate Follows(b: Both, handles: map<nat, nat>, s: Spec) {
    SameFibers(b, handles, s.fibers) && Observed(s.log) == (Answered(b.byFiber), [])
  }

  ghost predicate SameFibers(b: Both, handles: map<nat, nat>, fibers: seq<Coroutine>) {
    && b.fibers.Keys == b.resumes.Keys == handles.Keys
    && (forall k :: k in handles ==>
          handles[k] < |fibers| && fibers[handles[k]] == b.fibers[k] && WorkerLike(b.fibers[k]))
    && (forall j, k :: j in handles && k in handles && j != k ==> handles[j] != handles[k])
  }

  ghost predicate AtProgram(s: Spec, ops: seq<Op>, handles: map<nat, nat>) {
    |s.frames| == 1 && s.frames[0].code == Runs(Program(ops, handles))
  }

  // ---------------------------------------------------------------------------
  // Reading the log

  lemma {:induction false} ObservedUses(log: seq<Event>, uses: seq<int>)
    ensures Observed(log + Uses(uses)) == (Observed(log).0, Observed(log).1 + uses)
    decreases |uses|
  {
    if uses == [] {
      assert log + Uses(uses) == log && Observed(log).1 + uses == Observed(log).1;
    } else {
      var front, last := uses[..|uses| - 1], uses[|uses| - 1];
      ObservedUses(log, front);
      var all := log + Uses(uses);
      assert all[..|all| - 1] == log + Uses(front);
      assert all[|all| - 1] == Used(last);
      var before := Observed(log).1;
      assert before + front + [last] == before + uses;
    }
  }

  lemma ObservedResume(log: seq<Event>, uses: seq<int>, g: nat, status: Status, v: int)
    requires Observed(log).1 == []
    ensures Observed(log + (Uses(uses) + [Resumed(g, status, v)])) == (Observed(log).0 + [Answer(v, uses)], [])
  {
    ObservedUses(log, uses);
    var all := log + (Uses(uses) + [Resumed(g, status, v)]);
    assert all[..|all| - 1] == log + Uses(uses);
    assert [] + uses == uses;
  }

  lemma AnsweredNext(answers: seq<Answer>, x: Answer)
    ensures Answered(answers + [x]) == if x.Answer? then Answered(answers) + [x] else Answered(answers)
  {
    assert (answers + [x])[..|answers|] == answers;
    assert Answered(answers) + [] == Answered(answers);
  }

  // ---------------------------------------------------------------------------
  // One operation

  lemma WorkerResumes(c: Coroutine, v: u32)
    requires WorkerLike(c)
    ensures !c.Running? && (c.Finished? || Stops(Body(c, v))) && WorkerLike(ResumeOnce(c, v).next)
  {
    if c.Fresh? {
      assert Segment(AsyncWorker(v)) == ([], AsyncWorker(v));
    } else if c.Suspended? {
      UseThenReturn(v);
      assert c.k(v) == Use(v, Return(1));
    }
  }

  lemma AllocFollows(b: Both, handles: map<nat, nat>, s: Spec, k: nat, s': Spec)
    requires Follows(b, handles, s) && s'.fibers == s.fibers + [Fresh(AsyncWorker)] && s'.log == s.log
    ensures Follows(Apply(b, AllocOp(k)), handles[k := |s.fibers|], s')
  {
    AnsweredNext(b.byFiber, Done);
    ApplyAppends(b, AllocOp(k));
    hide Answered, Observed, Apply, SameFibers;
    SameFibersAllocated(b, handles, s.fibers, k);
  }

  lemma FreshIsWorkerLike()
    ensures WorkerLike(Fresh(AsyncWorker))
  {
  }

  lemma SameFibersAllocated(b: Both, handles: map<nat, nat>, fibers: seq<Coroutine>, k: nat)
    requires SameFibers(b, handles, fibers)
    ensures SameFibers(Apply(b, AllocOp(k)), handles[k := |fibers|], fibers + [Fresh(AsyncWorker)])
  {
    hide WorkerLike;
    FreshIsWorkerLike();
    var handles' := handles[k := |fibers|];
    forall j | j in handles && j != k ensures handles'[j] == handles[j] < |fibers| {
    }
  }

  lemma FreeFollows(b: Both, handles: map<nat, nat>, s: Spec, k: nat)
    requires Follows(b, handles, s) && Live(b, k)
    ensures Follows(Apply(b, FreeOp(k)), handles - {k}, s)
  {
    AnsweredNext(b.byFiber, Done);
  }

  lemma ResumeFollows(b: Both, handles: map<nat, nat>, s: Spec, k: nat, v: u32, s': Spec)
    requires Follows(b, handles, s) && Live(b, k)
    requires var o := ResumeOnce(b.fibers[k], v);
      && s'.fibers == s.fibers[handles[k] := o.next]
      && s'.log == s.log + (Uses(o.uses) + [Resumed(handles[k], o.status, o.v)])
    ensures Follows(Apply(b, ResumeOp(k, v)), handles, s')
  {
    var o := ResumeOnce(b.fibers[k], v);
    SameFibersResumed(b, handles, s.fibers, k, v);
    ApplyAppends(b, ResumeOp(k, v));
    hide SameFibers, Apply, ResumeOnce;
    ObservedResume(s.log, o.uses, handles[k], o.status, o.v);
    AnsweredNext(b.byFiber, Answer(o.v, o.uses));
  }

  lemma SameFibersResumed(b: Both, handles: map<nat, nat>, fibers: seq<Coroutine>, k: nat, v: u32)
    requires SameFibers(b, handles, fibers) && Live(b, k)
    ensures handles[k] < |fibers|
    ensures SameFibers(Apply(b, ResumeOp(k, v)), handles, fibers[handles[k] := ResumeOnce(b.fibers[k], v).next])
  {
    WorkerResumes(b.fibers[k], v);
    hide WorkerLike, ResumeOnce;
  }

  /** The program takes the steps of its first operation. */
  lemma OperationRuns(b: Both, handles: map<nat, nat>, s: Spec, ops: seq<Op>)
    returns (handles': map<nat, nat>, s': Spec)
    requires ops != [] && Follows(b, handles, s) && AtProgram(s, ops, handles)
      && (ops[0].AllocOp? || Live(b, ops[0].key))
    ensures Leads(s, s') && Follows(Apply(b, ops[0]), handles', s') && AtProgram(s', ops[1..], handles')
  {
    var k := ops[0].key;
    match ops[0]
    case AllocOp(_) =>
      handles' := handles[k := |s.fibers|];
      s' := AllocRuns(handles, s, ops);
      AllocFollows(b, handles, s, k, s');
    case FreeOp(_) =>
      handles', s' := handles - {k}, s;
      LeadsSelf(s);
      FreeFollows(b, handles, s, k);
    case ResumeOp(_, v) =>
      handles' := handles;
      WorkerResumes(b.fibers[k], v);
      s' := ResumeRuns(handles, s, ops);
      ResumeFollows(b, handles, s, k, v, s');
  }

  lemma AllocRuns(handles: map<nat, nat>, s: Spec, ops: seq<Op>) returns (s': Spec)
    requires ops != [] && ops[0].AllocOp? && AtProgram(s, ops, handles)
    ensures Leads(s, s') && s'.fibers == s.fibers + [Fresh(AsyncWorker)] && s'.log == s.log
    ensures AtProgram(s', ops[1..], handles[ops[0].key := |s.fibers|])
  {
    s' := SpecStep(s);
    LeadsStep(s, s');
    assert Program(ops, handles).next(|s.fibers|) == Program(ops[1..], handles[ops[0].key := |s.fibers|]);
  }

  lemma ResumeRuns(handles: map<nat, nat>, s: Spec, ops: seq<Op>) returns (s': Spec)
    requires ops != [] && ops[0].ResumeOp? && AtProgram(s, ops, handles) && ops[0].key in handles
    requires handles[ops[0].key] < |s.fibers|
    requires var c := s.fibers[handles[ops[0].key]]; !c.Running? && (c.Finished? || Stops(Body(c, ops[0].v)))
    ensures Leads(s, s') && AtProgram(s', ops[1..], handles)
    ensures var g := handles[ops[0].key];
      var o := ResumeOnce(s.fibers[g], ops[0].v);
      && s'.fibers == s.fibers[g := o.next]
      && s'.log == s.log + (Uses(o.uses) + [Resumed(g, o.status, o.v)])
  {
    var g, cont := handles[ops[0].key], Program(ops, handles).cont;
    var o := ResumeOnce(s.fibers[g], ops[0].v);
    assert cont(o.v, o.status) == Program(ops[1..], handles);
    ResumeReturns(s, g, ops[0].v, cont);
    s' := Returned(s, g, cont, o);
  }

  // ---------------------------------------------------------------------------
  // All operations

  lemma {:induction false} ProgramRuns(b: Both, handles: map<nat, nat>, s: Spec, ops: seq<Op>) returns (t: Spec)
    requires Follows(b, handles, s) && AtProgram(s, ops, handles) && AllLive(b, ops)
    ensures Leads(s, t) && Ended(t) && Observed(t.log) == (Answered(ApplyAll(b, ops).byFiber), [])
    decreases |ops|
  {
    if ops == [] {
      t := s;
      LeadsSelf(s);
    } else {
      hide Follows, AtProgram, Ended;
      var handles', s' := OperationRuns(b, handles, s, ops);
      t := ProgramRuns(Apply(b, ops[0]), handles', s', ops[1..]);
      LeadsTrans(s, s', t);
    }
  }

  lemma {:induction false} ApplyAllAppends(b: Both, ops: seq<Op>, op: Op)
    ensures ApplyAll(b, ops + [op]) == Apply(ApplyAll(b, ops), op)
    decreases |ops|
  {
    if ops != [] {
      assert (ops + [op])[1..] == ops[1..] + [op];
      ApplyAllAppends(Apply(b, ops[0]), ops[1..], op);
    } else {
      assert ops + [op] == [op];
      assert [op][1..] == [];
    }
  }

  lemma {:induction false} RunIsApplyAll(ops: seq<Op>)
    ensures RunOps(ops) == ApplyAll(START, ops)
  {
    if ops != [] {
      var pre, op := ops[..|ops| - 1], ops[|ops| - 1];
      RunIsApplyAll(pre);
      ApplyAllAppends(START, pre, op);
      assert pre + [op] == ops;
    }
  }

  /** For every sequence of operations on fibers that exist, the flag-driven runtime ends with a
      log that shows exactly the recorded answers. */
  lemma FlagsGiveAnswers(ops: seq<Op>) returns (n: nat)
    requires AllLive(START, ops)
    ensures forall m: nat :: m >= n ==>
      Observed(MachineRun(Program(ops, map[]), m).log) == (Answered(RunOps(ops).byFiber), [])
  {
    var main := Program(ops, map[]);
    var s := SpecRun(main, 0);
    assert Follows(START, map[], s);
    var t := ProgramRuns(START, map[], s, ops);
    n := EndIsReached(main, t);
    RunIsApplyAll(ops);
  }

  lemma {:induction false} AllLiveAppends(b: Both, ops: seq<Op>, op: Op)
    requires AllLive(b, ops) && (op.AllocOp? || Live(ApplyAll(b, ops), op.key))
    ensures AllLive(b, ops + [op])
    decreases |ops|
  {
    if ops != [] {
      assert (ops + [op])[1..] == ops[1..] + [op];
      AllLiveAppends(Apply(b, ops[0]), ops[1..], op);
    } else {
      assert ops + [op] == [op];
      assert [op][1..] == [];
    }
  }

  lemma {:induction false} DisciplinedIsLive(ops: seq<Op>)
    requires Disciplined(ops)
    ensures AllLive(START, ops)
  {
    if ops != [] {
      var pre, op := ops[..|ops| - 1], ops[|ops| - 1];
      DisciplinedIsLive(pre);
      RunIsApplyAll(pre);
      AllLiveAppends(START, pre, op);
      assert pre + [op] == ops;
    }
  }

  /** Under the driver's discipline, the hand-written state machine gives the answers of the
      flag-driven runtime. */
  lemma BespokeMatchesFlags(ops: seq<Op>) returns (n: nat)
    requires Disciplined(ops)
    ensures forall m: nat :: m >= n ==>
      Observed(MachineRun(Program(ops, map[]), m).log) == (Answered(RunOps(ops).byMachine), [])
  {
    DisciplinedIsLive(ops);
    SameAnswersIffDisciplined(ops);
    n := FlagsGiveAnswers(ops);
  }
}
