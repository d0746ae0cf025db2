/** The driver of the workload on the flag-driven fiber runtime: its operations keep to the
    discipline, and the log of the runtime shows the count both drivers return. */
module DriverRun {
  import opened Arithmetic
  import opened Fibers
  import opened FiberMachine
  import opened Workload
  import opened FiberProgram

  /** What `n` connections answer: each yields its argument, then uses the stack and returns 1. */
  function Served(n: nat, stackKb: u32): seq<Answer> {
    if n == 0 then [] else Served(n - 1, stackKb) + [Answer(stackKb, []), Answer(1, [stackKb])]
  }

  /** The driver's count, from the answers to its resumes: it drops the first of each connection
      and adds the second. */
  function Count(answers: seq<Answer>): u32 {
    if |answers| < 2 then 0
    else
      var last := answers[|answers| - 1];
      (Count(answers[..|answers| - 2]) + (if last.Answer? then last.value else 0)) % TWO32
  }

  lemma {:induction false} CountServed(n: nat, stackKb: u32)
    ensures Count(Served(n, stackKb)) == n % TWO32
  {
    if n > 0 {
      CountServed(n - 1, stackKb);
      hide Count;
      CountOne(Served(n - 1, stackKb), stackKb);
      CountNext(n - 1, stackKb);
    }
  }

  lemma CountOne(before: seq<Answer>, stackKb: u32)
    ensures Count(before + [Answer(stackKb, []), Answer(1, [stackKb])]) == (Count(before) + 1) % TWO32
  {
    var all := before + [Answer(stackKb, []), Answer(1, [stackKb])];
    assert all[..|all| - 2] == before && all[|all| - 1] == Answer(1, [stackKb]);
  }

  /** After `ops`, exactly the keys from `lo` to `hi` have a worker, none of them resumed yet, and
      `n` connections have been served. */
  ghost predicate Idle(ops: seq<Op>, lo: nat, hi: nat, n: nat, stackKb: u32) {
    && Disciplined(ops)
    && (forall k: nat :: k in RunOps(ops).resumes <==> lo <= k < hi)
    && (forall k: nat :: k in RunOps(ops).resumes ==> RunOps(ops).resumes[k] == 0)
    && Answered(RunOps(ops).byMachine) == Served(n, stackKb)
  }

  lemma DisciplinedAppend(ops: seq<Op>, op: Op)
    requires Disciplined(ops) && Harmless(RunOps(ops), op)
    ensures Disciplined(ops + [op]) && RunOps(ops + [op]) == Apply(RunOps(ops), op)
  {
    hide Apply, Harmless;
    RunAppend(ops, op);
    assert (ops + [op])[..|ops|] == ops;
  }

  /** One resume of a worker that has been resumed less than twice. */
  lemma ResumeWorker(ops: seq<Op>, j: nat, v: u32) returns (ops': seq<Op>)
    requires Disciplined(ops) && j in RunOps(ops).resumes && RunOps(ops).resumes[j] < 2
    ensures ops' == ops + [ResumeOp(j, v)] && Disciplined(ops')
    ensures RunOps(ops').resumes == RunOps(ops).resumes[j := RunOps(ops).resumes[j] + 1]
    ensures Answered(RunOps(ops').byMachine) == Answered(RunOps(ops).byMachine) +
      [if RunOps(ops).resumes[j] == 0 then Answer(v, []) else Answer(1, [v])]
  {
    var b, op := RunOps(ops), ResumeOp(j, v);
    ops' := ops + [op];
    SameAnswersIffDisciplined(ops);
    hide RunOps, Disciplined;
    assert Corresponds(MachineAt(b, j), b.fibers[j], b.resumes[j]);
    DisciplinedAppend(ops, op);
    ApplyAppends(b, op);
    AnsweredNext(b.byMachine, MachineDoes(b, op));
  }

  lemma FreeWorker(ops: seq<Op>, j: nat) returns (ops': seq<Op>)
    requires Disciplined(ops) && j in RunOps(ops).resumes
    ensures ops' == ops + [FreeOp(j)] && Disciplined(ops')
    ensures RunOps(ops').resumes == RunOps(ops).resumes - {j}
    ensures Answered(RunOps(ops').byMachine) == Answered(RunOps(ops).byMachine)
  {
    var b, op := RunOps(ops), FreeOp(j);
    ops' := ops + [op];
    SameAnswersIffDisciplined(ops);
    hide RunOps, Disciplined;
    DisciplinedAppend(ops, op);
    AnsweredNext(b.byMachine, Done);
  }

  lemma AllocWorker(ops: seq<Op>, j: nat) returns (ops': seq<Op>)
    requires Disciplined(ops)
    ensures ops' == ops + [AllocOp(j)] && Disciplined(ops')
    ensures RunOps(ops').resumes == RunOps(ops).resumes[j := 0]
    ensures Answered(RunOps(ops').byMachine) == Answered(RunOps(ops).byMachine)
  {
    var b, op := RunOps(ops), AllocOp(j);
    ops' := ops + [op];
    hide RunOps, Disciplined;
    DisciplinedAppend(ops, op);
    AnsweredNext(b.byMachine, Done);
  }

  lemma ServeWorker(ops: seq<Op>, j: nat, stackKb: u32) returns (ops': seq<Op>)
    requires Disciplined(ops) && j in RunOps(ops).resumes && RunOps(ops).resumes[j] == 0
    ensures ops' == ops + Connection(j, stackKb) && Disciplined(ops')
    ensures RunOps(ops').resumes == RunOps(ops).resumes - {j}
    ensures Answered(RunOps(ops').byMachine) ==
      Answered(RunOps(ops).byMachine) + [Answer(stackKb, []), Answer(1, [stackKb])]
  {
    hide RunOps, Disciplined, Answered;
    ops' := ResumeWorker(ops, j, stackKb);
    ops' := ResumeWorker(ops', j, stackKb);
    ops' := FreeWorker(ops', j);
  }

  lemma NothingIdle(stackKb: u32)
    ensures Idle([], 0, 0, 0, stackKb)
  {
  }

  lemma AllocationIdle(ops: seq<Op>, hi: nat, stackKb: u32)
    requires Idle(ops, 0, hi, 0, stackKb)
    ensures Idle(ops + [AllocOp(hi)], 0, hi + 1, 0, stackKb)
  {
    hide RunOps, Disciplined, Answered;
    var after := AllocWorker(ops, hi);
  }

  lemma {:induction false} AllocationsIdle(n: nat, stackKb: u32)
    ensures Idle(Allocations(n), 0, n, 0, stackKb)
  {
    hide Idle;
    if n == 0 {
      NothingIdle(stackKb);
    } else {
      AllocationsIdle(n - 1, stackKb);
      AllocationIdle(Allocations(n - 1), n - 1, stackKb);
    }
  }

  lemma ConnectionIdle(ops: seq<Op>, j: nat, hi: nat, n: nat, stackKb: u32)
    requires Idle(ops, 0, hi, n, stackKb) && j < hi
    ensures Idle(ops + Connection(j, stackKb) + [AllocOp(j)], 0, hi, n + 1, stackKb)
  {
    hide RunOps, Disciplined, Answered, Connection;
    var served := ServeWorker(ops, j, stackKb);
    var after := AllocWorker(served, j);
  }

  lemma LastConnectionIdle(ops: seq<Op>, j: nat, hi: nat, n: nat, stackKb: u32)
    requires Idle(ops, j, hi, n, stackKb) && j < hi
    ensures Idle(ops + Connection(j, stackKb), j + 1, hi, n + 1, stackKb)
  {
    hide RunOps, Disciplined, Answered, Connection;
    var served := ServeWorker(ops, j, stackKb);
  }

  lemma {:induction false} ConnectionsIdle(ops: seq<Op>, n: nat, activeConn: nat, stackKb: u32)
    requires activeConn > 0 && Idle(ops, 0, activeConn, 0, stackKb)
    ensures Idle(ops + Connections(n, activeConn, stackKb), 0, activeConn, n, stackKb)
  {
    hide Idle, Connection;
    if n == 0 {
      assert ops + Connections(0, activeConn, stackKb) == ops;
    } else {
      ConnectionsIdle(ops, n - 1, activeConn, stackKb);
      var j, before := (n - 1) % activeConn, ops + Connections(n - 1, activeConn, stackKb);
      SlotInRange(n - 1, activeConn);
      ConnectionIdle(before, j, activeConn, n - 1, stackKb);
      assert before + Connection(j, stackKb) + [AllocOp(j)] == ops + Connections(n, activeConn, stackKb);
    }
  }

  lemma {:induction false} LastConnectionsIdle(ops: seq<Op>, n: nat, total: nat, activeConn: nat, stackKb: u32)
    requires n <= activeConn && Idle(ops, 0, activeConn, total, stackKb)
    ensures Idle(ops + LastConnections(n, stackKb), n, activeConn, total + n, stackKb)
  {
    hide Idle, Connection;
    if n == 0 {
      assert ops + LastConnections(0, stackKb) == ops;
    } else {
      LastConnectionsIdle(ops, n - 1, total, activeConn, stackKb);
      var before := ops + LastConnections(n - 1, stackKb);
      LastConnectionIdle(before, n - 1, activeConn, total + n - 1, stackKb);
      assert before + Connection(n - 1, stackKb) == ops + LastConnections(n, stackKb);
    }
  }

  /** The driver's operations keep to the discipline, free every worker, and are answered by the
      state machine with one pair per connection. */
  lemma DriverIsDisciplined(totalConn: nat, activeConn: nat, stackKb: u32)
    requires activeConn > 0
    ensures var ops := DriverOps(totalConn, activeConn, stackKb);
      && Disciplined(ops) && RunOps(ops).resumes == map[]
      && Answered(RunOps(ops).byMachine) == Served(totalConn + activeConn, stackKb)
  {
    AllocationsIdle(activeConn, stackKb);
    ConnectionsIdle(Allocations(activeConn), totalConn, activeConn, stackKb);
    LastConnectionsIdle(Allocations(activeConn) + Connections(totalConn, activeConn, stackKb), activeConn, totalConn,
                        activeConn, stackKb);
  }

  /** For all parameters, the flag-driven runtime, run on the driver's program, ends with a log that
      shows one pair of answers per connection, so that its count is that of both drivers. */
  lemma DriverOnFlags(totalConn: nat, activeConn: nat, stackKb: u32) returns (n: nat)
    requires activeConn > 0
    ensures forall m: nat :: m >= n ==>
      var log := MachineRun(Program(DriverOps(totalConn, activeConn, stackKb), map[]), m).log;
      && Observed(log) == (Served(totalConn + activeConn, stackKb), [])
      && Count(Observed(log).0) == (totalConn + activeConn) % TWO32
  {
    hide MachineRun, Program, Observed, RunOps, Disciplined, Answered, DriverOps;
    DriverIsDisciplined(totalConn, activeConn, stackKb);
    CountServed(totalConn + activeConn, stackKb);
    n := BespokeMatchesFlags(DriverOps(totalConn, activeConn, stackKb));
  }

  // ---------------------------------------------------------------------------
  // Which operation comes when

  lemma {:induction false} AllocationsAt(n: nat, i: nat)
    ensures |Allocations(n)| == n && (i < n ==> Allocations(n)[i] == AllocOp(i))
  {
    if n > 0 {
      AllocationsAt(n - 1, i);
    }
  }

  /** From position `at` on, slot `j` is resumed twice and freed. */
  predicate Uses(ops: seq<Op>, at: nat, j: nat, stackKb: u32) {
    && at + 2 < |ops|
    && ops[at] == ResumeOp(j, stackKb) && ops[at + 1] == ResumeOp(j, stackKb) && ops[at + 2] == FreeOp(j)
  }

  /** And then allocated again. */
  predicate Reuses(ops: seq<Op>, at: nat, j: nat, stackKb: u32) {
    Uses(ops, at, j, stackKb) && at + 3 < |ops| && ops[at + 3] == AllocOp(j)
  }

  lemma {:induction false} ConnectionsAt(n: nat, activeConn: nat, stackKb: u32, i: nat)
    requires activeConn > 0
    ensures var ops := Connections(n, activeConn, stackKb);
      |ops| == 4 * n && (i < n ==> Reuses(ops, 4 * i, i % activeConn, stackKb))
  {
    if n > 0 {
      ConnectionsAt(n - 1, activeConn, stackKb, i);
    }
  }

  lemma {:induction false} LastConnectionsAt(n: nat, stackKb: u32, j: nat)
    ensures var ops := LastConnections(n, stackKb); |ops| == 3 * n && (j < n ==> Uses(ops, 3 * j, j, stackKb))
  {
    if n > 0 {
      LastConnectionsAt(n - 1, stackKb, j);
    }
  }

  /** The driver's operations by position: every slot is allocated once in order, connection `i` then
      uses slot `i` modulo the number of slots and allocates it again, and at the end every slot is
      used and freed in order. */
  lemma DriverSchedule(totalConn: nat, activeConn: nat, stackKb: u32, i: nat, j: nat)
    requires activeConn > 0
    ensures var ops := DriverOps(totalConn, activeConn, stackKb);
      && |ops| == 4 * (activeConn + totalConn)
      && (j < activeConn ==> ops[j] == AllocOp(j))
      && (i < totalConn ==> Reuses(ops, activeConn + 4 * i, i % activeConn, stackKb))
      && (j < activeConn ==> Uses(ops, activeConn + 4 * totalConn + 3 * j, j, stackKb))
  {
    hide Allocations, Connections, LastConnections;
    AllocationsAt(activeConn, j);
    ConnectionsAt(totalConn, activeConn, stackKb, i);
    LastConnectionsAt(activeConn, stackKb, j);
  }
}
