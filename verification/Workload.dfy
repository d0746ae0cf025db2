/** The asynchronous workload: a fiber-based worker in direct style, a hand-written state
    machine doing the same, and the driver that runs either. */
module Workload {
  import opened Arithmetic
  import opened Fibers
  import opened FiberTraces
  import opened Options

  type u32 = n: int | 0 <= n < TWO32

  // ---------------------------------------------------------------------------
  // The worker, as a coroutine and as a state machine

  /** The direct-style worker: yield the argument, use the stack, return 1. */
  function AsyncWorker(arg: Value): Co {
    Yield(arg, kb => Use(kb, Return(1)))
  }

  datatype WorkerState = NORMAL | YIELDING
  datatype Worker = Worker(state: WorkerState, arg: u32, value: u32)

  const FRESH_WORKER := Worker(NORMAL, 0, 0)

  /** What one operation does: a resume returns a value and passes arguments to `stack_use`;
      other operations return nothing; using a fiber that does not exist is undefined. */
  datatype Answer = Answer(value: int, uses: seq<int>) | Done | Undefined

  /** One resume of the state machine. */
  function MachineResume(w: Worker, v: u32): (Worker, Answer) {
    if w.state == WorkerState.YIELDING then (Worker(NORMAL, w.arg, v), Answer(1, [v]))
    else (Worker(WorkerState.YIELDING, v, v), Answer(v, []))
  }

  function FiberAnswer(c: Coroutine, v: u32): (Coroutine, Answer) {
    var o := ResumeOnce(c, v);
    (o.next, Answer(o.v, o.uses))
  }

  /** The operations of the interface. */
  datatype Op = AllocOp(key: nat) | ResumeOp(key: nat, v: u32) | FreeOp(key: nat)

  /** The hand-written state machine, as the C code has it. */
  class Bespoke {
    var workers: array<Worker>
    var active: nat
    var used: seq<int>
    ghost var calls: seq<Op> // the operations performed

    constructor (n: nat)
      ensures fresh(workers) && workers.Length == n && active == 0 && used == [] && calls == []
    {
      workers := new Worker[n](_ => FRESH_WORKER);
      active := 0;
      used := [];
      calls := [];
    }

    method AsyncWorkerYield(arg: u32) returns (r: u32)
      requires active < workers.Length
      modifies workers
      ensures var w := old(workers[active]);
        if w.state == NORMAL then workers[active] == Worker(WorkerState.YIELDING, w.arg, arg) && r == 0
        else workers[active] == Worker(NORMAL, w.arg, w.value) && r == w.value
      ensures forall k :: 0 <= k < workers.Length && k != active ==> workers[k] == old(workers[k])
    {
      match workers[active].state {
        case NORMAL =>
          workers[active] := workers[active].(value := arg);
          workers[active] := workers[active].(state := WorkerState.YIELDING);
          r := 0;
        case YIELDING =>
          workers[active] := workers[active].(state := NORMAL);
          r := workers[active].value;
      }
    }

    method AsyncWorkerBody(arg: u32) returns (r: u32)
      requires active < workers.Length
      modifies workers, this`used
      ensures var w := old(workers[active]);
        if w.state == NORMAL then workers[active] == Worker(WorkerState.YIELDING, w.arg, arg) && r == 0
          && used == old(used)
        else workers[active] == Worker(NORMAL, w.arg, w.value) && r == 1 && used == old(used) + [w.value]
      ensures forall k :: 0 <= k < workers.Length && k != active ==> workers[k] == old(workers[k])
    {
      r := 0;
      if workers[active].state == NORMAL {
        var _ := AsyncWorkerYield(arg);
        if workers[active].state == WorkerState.YIELDING {
          return;
        }
      }
      var kb := AsyncWorkerYield(arg);
      if workers[active].state == NORMAL {
        used := used + [kb]; // stack_use(kb)
        r := 1;
      }
    }

    method AllocAsyncWorker(key: nat)
      requires key < workers.Length
      modifies workers, this`calls
      ensures workers[key] == FRESH_WORKER && calls == old(calls) + [AllocOp(key)]
      ensures forall k :: 0 <= k < workers.Length && k != key ==> workers[k] == old(workers[k])
    {
      workers[key] := FRESH_WORKER;
      calls := calls + [AllocOp(key)];
    }

    method FreeAsyncWorker(key: nat)
      modifies this`calls
      ensures calls == old(calls) + [FreeOp(key)]
    {
      calls := calls + [FreeOp(key)];
    }

    method ResumeAsyncWorker(key: nat, value: u32) returns (r: u32)
      requires key < workers.Length
      modifies workers, this`used, this`active, this`calls
      ensures workers == old(workers) && calls == old(calls) + [ResumeOp(key, value)]
      ensures var (w, a) := MachineResume(old(workers[key]), value);
        workers[key] == w && r == a.value && used == old(used) + a.uses
      ensures forall k :: 0 <= k < workers.Length && k != key ==> workers[k] == old(workers[k])
    {
      active := key;
      if workers[active].state == WorkerState.YIELDING {
        workers[active] := workers[active].(value := value);
      } else {
        workers[active] := workers[active].(arg := value);
      }
      var result := AsyncWorkerBody(workers[active].arg);
      r := if workers[active].state == NORMAL then result else workers[active].value;
      calls := calls + [ResumeOp(key, value)];
    }
  }

  /** The fiber-based operations: a table of fibers, each running `AsyncWorker`. An entry is None
      before its fiber is allocated and after it is freed. */
  class FiberStore {
    var store: array<Option<Coroutine>>
    var used: seq<int>
    ghost var calls: seq<Op> // the operations performed

    constructor (n: nat)
      ensures fresh(store) && store.Length == n && used == [] && calls == []
      ensures forall k :: 0 <= k < n ==> store[k] == None
    {
      store := new Option<Coroutine>[n](_ => None);
      used := [];
      calls := [];
    }

    method AllocAsyncWorker(key: nat)
      requires key < store.Length
      modifies store, this`calls
      ensures store[key] == Some(Fresh(AsyncWorker)) && calls == old(calls) + [AllocOp(key)]
      ensures forall k :: 0 <= k < store.Length && k != key ==> store[k] == old(store[k])
    {
      store[key] := Some(Fresh(AsyncWorker));
      calls := calls + [AllocOp(key)];
    }

    method FreeAsyncWorker(key: nat)
      requires key < store.Length && store[key].Some?
      modifies store, this`calls
      ensures store[key] == None && calls == old(calls) + [FreeOp(key)]
      ensures forall k :: 0 <= k < store.Length && k != key ==> store[k] == old(store[k])
    {
      store[key] := None;
      calls := calls + [FreeOp(key)];
    }

    /** The result of the flag-driven resume, by `FiberProgram.FlagsGiveAnswers`. */
    method ResumeAsyncWorker(key: nat, arg: u32) returns (r: int)
      requires key < store.Length && store[key].Some?
      modifies store, this`used, this`calls
      ensures store == old(store) && calls == old(calls) + [ResumeOp(key, arg)]
      ensures var (c, a) := FiberAnswer(old(store[key].value), arg);
        store[key] == Some(c) && r == a.value && used == old(used) + a.uses
      ensures forall k :: 0 <= k < store.Length && k != key ==> store[k] == old(store[k])
    {
      var o := ResumeOnce(store[key].value, arg);
      store[key] := Some(o.next);
      used := used + o.uses;
      r := o.v;
      calls := calls + [ResumeOp(key, arg)];
    }
  }

  // ---------------------------------------------------------------------------
  // Any interleaving of operations on any number of slots

  /** Slots of both implementations, resumes of each live slot since its allocation, and what
      every operation did. The workers are there from the beginning and freeing one does nothing;
      a fiber exists from its allocation until it is freed. */
  datatype Both = Both(machines: map<nat, Worker>, fibers: map<nat, Coroutine>, resumes: map<nat, nat>,
                       byMachine: seq<Answer>, byFiber: seq<Answer>)

  const START := Both(map[], map[], map[], [], [])

  /** Workers are zero until they are written. */
  function MachineAt(b: Both, k: nat): Worker {
    if k in b.machines then b.machines[k] else FRESH_WORKER
  }

  predicate Live(b: Both, k: nat) {
    k in b.fibers && k in b.resumes
  }

  function Apply(b: Both, op: Op): Both {
    match op
    case AllocOp(k) =>
      b.(machines := b.machines[k := FRESH_WORKER], fibers := b.fibers[k := Fresh(AsyncWorker)],
         resumes := b.resumes[k := 0], byMachine := b.byMachine + [Done], byFiber := b.byFiber + [Done])
    case FreeOp(k) =>
      b.(fibers := b.fibers - {k}, resumes := b.resumes - {k}, byMachine := b.byMachine + [Done],
         byFiber := b.byFiber + [if Live(b, k) then Done else Undefined])
    case ResumeOp(k, v) =>
      var (w, x) := MachineResume(MachineAt(b, k), v);
      var b' := b.(machines := b.machines[k := w], byMachine := b.byMachine + [x]);
      if !Live(b, k) then b'.(byFiber := b.byFiber + [Undefined])
      else
        var (c, y) := FiberAnswer(b.fibers[k], v);
        b'.(fibers := b.fibers[k := c], resumes := b.resumes[k := b.resumes[k] + 1], byFiber := b.byFiber + [y])
  }

  function RunOps(ops: seq<Op>): Both {
    if ops == [] then START else Apply(RunOps(ops[..|ops| - 1]), ops[|ops| - 1])
  }

  /** The driver uses only slots it has allocated and not freed, and resumes a slot at most twice
      between allocations. A third resume is only harmless when it passes 0. */
  predicate Harmless(b: Both, op: Op) {
    match op
    case AllocOp(_) => true
    case FreeOp(k) => Live(b, k)
    case ResumeOp(k, v) => Live(b, k) && (b.resumes[k] < 2 || (b.resumes[k] == 2 && v == 0))
  }

  predicate Disciplined(ops: seq<Op>) {
    ops == [] || (Disciplined(ops[..|ops| - 1]) && Harmless(RunOps(ops[..|ops| - 1]), ops[|ops| - 1]))
  }

  /** A slot of both implementations after `n` resumes. */
  ghost predicate Corresponds(w: Worker, c: Coroutine, n: nat) {
    match n
    case 0 => w.state == NORMAL && c == Fresh(AsyncWorker)
    case 1 => w.state == WorkerState.YIELDING && c.Suspended? && forall kb :: c.k(kb) == Use(kb, Return(1))
    case 2 => w.state == NORMAL && c == Finished
    case _ => w.state == WorkerState.YIELDING && c == Finished && n == 3
  }

  ghost predicate AllCorrespond(b: Both) {
    && b.fibers.Keys == b.resumes.Keys
    && forall k :: k in b.resumes ==> Corresponds(MachineAt(b, k), b.fibers[k], b.resumes[k])
  }

  lemma UseThenReturn(v: Value)
    ensures Segment(Use(v, Return(1))) == ([v], Return(1))
  {
    var rest := Return(1);
    var co := Use(v, rest);
    assert Segment(rest) == ([], rest);
    assert Segment(co).0 == [v] + Segment(rest).0 == [v];
  }

  lemma ResumeAgrees(w: Worker, c: Coroutine, n: nat, v: u32)
    requires Corresponds(w, c, n)
    ensures MachineResume(w, v).1 == FiberAnswer(c, v).1 <==> n < 2 || (n == 2 && v == 0)
    ensures n < 3 ==> Corresponds(MachineResume(w, v).0, FiberAnswer(c, v).0, n + 1)
  {
    if n == 0 {
      assert Segment(AsyncWorker(v)) == ([], AsyncWorker(v));
    } else if n == 1 {
      UseThenReturn(v);
      assert c.k(v) == Use(v, Return(1));
    }
  }

  /** What one operation does in both implementations. */
  function MachineDoes(b: Both, op: Op): Answer {
    if op.ResumeOp? then MachineResume(MachineAt(b, op.key), op.v).1 else Done
  }

  function FiberDoes(b: Both, op: Op): Answer {
    if op.AllocOp? then Done
    else if !Live(b, op.key) then Undefined
    else if op.FreeOp? then Done
    else FiberAnswer(b.fibers[op.key], op.v).1
  }

  lemma ApplyAppends(b: Both, op: Op)
    ensures Apply(b, op).byMachine == b.byMachine + [MachineDoes(b, op)]
    ensures Apply(b, op).byFiber == b.byFiber + [FiberDoes(b, op)]
  {
  }

  lemma StepAgrees(b: Both, op: Op)
    requires AllCorrespond(b)
    ensures MachineDoes(b, op) == FiberDoes(b, op) <==> Harmless(b, op)
    ensures Harmless(b, op) ==> AllCorrespond(Apply(b, op))
  {
    if op.ResumeOp? && Live(b, op.key) {
      ResumeAgrees(MachineAt(b, op.key), b.fibers[op.key], b.resumes[op.key], op.v);
    }
  }

  /** Over every sequence of operations, both implementations do the same, operation by
      operation, exactly under the discipline. */
  lemma {:induction false} SameAnswersIffDisciplined(ops: seq<Op>)
    ensures RunOps(ops).byMachine == RunOps(ops).byFiber <==> Disciplined(ops)
    ensures |RunOps(ops).byMachine| == |RunOps(ops).byFiber| == |ops|
    ensures Disciplined(ops) ==> AllCorrespond(RunOps(ops))
  {
    if ops != [] {
      var pre, op := ops[..|ops| - 1], ops[|ops| - 1];
      SameAnswersIffDisciplined(pre);
      var b := RunOps(pre);
      hide Apply, AllCorrespond, Harmless, MachineDoes, FiberDoes;
      ApplyAppends(b, op);
      AppendedEqual(b.byMachine, MachineDoes(b, op), b.byFiber, FiberDoes(b, op));
      if Disciplined(pre) {
        StepAgrees(b, op);
      }
    }
  }

  lemma AppendedEqual(s: seq<Answer>, x: Answer, t: seq<Answer>, y: Answer)
    requires |s| == |t|
    ensures s + [x] == t + [y] <==> s == t && x == y
  {
    if s + [x] == t + [y] {
      assert s == (s + [x])[..|s|] && t == (t + [y])[..|s|];
      assert x == (s + [x])[|s|] && y == (t + [y])[|s|];
    }
  }

  lemma RunAppend(ops: seq<Op>, op: Op)
    ensures RunOps(ops + [op]) == Apply(RunOps(ops), op)
  {
    assert (ops + [op])[..|ops|] == ops;
  }

  /** Slot 0 after its allocation and `n` resumes with 5. */
  ghost predicate Slot0(b: Both, n: nat) {
    Live(b, 0) && b.resumes[0] == n && Corresponds(MachineAt(b, 0), b.fibers[0], n)
  }

  lemma ResumeSlot0(b: Both, n: nat, b': Both)
    requires Slot0(b, n) && n < 3 && b' == Apply(b, ResumeOp(0, 5))
    ensures Slot0(b', n + 1)
    ensures b'.byMachine == b.byMachine + [if n == 1 then Answer(1, [5]) else Answer(5, [])]
    ensures b'.byFiber == b.byFiber +
      [if n == 0 then Answer(5, []) else if n == 1 then Answer(1, [5]) else Answer(0, [])]
  {
    ResumeAgrees(MachineAt(b, 0), b.fibers[0], n, 5);
    ApplyAppends(b, ResumeOp(0, 5));
  }

  lemma ResumeSlot0Thrice(b: Both, r: Op, b': Both)
    requires Slot0(b, 0) && b.byMachine == b.byFiber == [Done] && r == ResumeOp(0, 5)
    requires b' == Apply(Apply(Apply(b, r), r), r)
    ensures b'.byMachine == [Done, Answer(5, []), Answer(1, [5]), Answer(5, [])]
    ensures b'.byFiber == [Done, Answer(5, []), Answer(1, [5]), Answer(0, [])]
  {
    hide Slot0, Apply;
    ResumeSlot0(b, 0, Apply(b, r));
    ResumeSlot0(Apply(b, r), 1, Apply(Apply(b, r), r));
    ResumeSlot0(Apply(Apply(b, r), r), 2, b');
  }

  lemma RunFour(a: Op, r: Op)
    ensures RunOps([a, r, r, r]) == Apply(Apply(Apply(Apply(START, a), r), r), r)
  {
    hide Apply;
    RunAppend([], a);
    RunAppend([a], r);
    RunAppend([a, r], r);
    RunAppend([a, r, r], r);
    assert [] + [a] == [a] && [a] + [r] == [a, r] && [a, r] + [r] == [a, r, r] && [a, r, r] + [r] == [a, r, r, r];
  }

  /** The third resume of one allocation: the state machine has begun again, the fiber is done. */
  lemma ThirdResumeDiffers(a: Op, r: Op)
    requires a == AllocOp(0) && r == ResumeOp(0, 5)
    ensures RunOps([a, r, r, r]).byMachine == [Done, Answer(5, []), Answer(1, [5]), Answer(5, [])]
    ensures RunOps([a, r, r, r]).byFiber == [Done, Answer(5, []), Answer(1, [5]), Answer(0, [])]
  {
    var b := Apply(START, a);
    assert Slot0(b, 0) && b.byMachine == b.byFiber == [Done];
    RunFour(a, r);
    hide RunOps, Slot0, Apply;
    ResumeSlot0Thrice(b, r, Apply(Apply(Apply(b, r), r), r));
  }

  /** A resume of a slot that was never allocated is answered by the state machine only. */
  lemma DeadResumeDiffers()
    ensures RunOps([ResumeOp(0, 5)]).byMachine == [Answer(5, [])] && RunOps([ResumeOp(0, 5)]).byFiber == [Undefined]
  {
    assert [ResumeOp(0, 5)][..0] == [];
    ApplyAppends(START, ResumeOp(0, 5));
  }

  // ---------------------------------------------------------------------------
  // The driver

  /** The operations the driver issues: first the allocations, then every connection in its turn,
      then the connections still open. */
  function DriverOps(totalConn: nat, activeConn: nat, stackKb: u32): seq<Op>
    requires activeConn > 0
  {
    Allocations(activeConn) + Connections(totalConn, activeConn, stackKb) + LastConnections(activeConn, stackKb)
  }

  function Allocations(n: nat): seq<Op> {
    if n == 0 then [] else Allocations(n - 1) + [AllocOp(n - 1)]
  }

  /** One connection: resume twice and free the worker. */
  function Connection(j: nat, stackKb: u32): seq<Op> {
    [ResumeOp(j, stackKb), ResumeOp(j, stackKb), FreeOp(j)]
  }

  function Connections(n: nat, activeConn: nat, stackKb: u32): seq<Op>
    requires activeConn > 0
  {
    if n == 0 then []
    else
      var j := (n - 1) % activeConn;
      Connections(n - 1, activeConn, stackKb) + Connection(j, stackKb) + [AllocOp(j)]
  }

  function LastConnections(n: nat, stackKb: u32): seq<Op> {
    if n == 0 then [] else LastConnections(n - 1, stackKb) + Connection(n - 1, stackKb)
  }

  function Repeat(x: int, n: nat): seq<int> {
    seq(n, _ => x)
  }

  lemma CountNext(i: nat, kb: int)
    ensures (i % TWO32 + 1) % TWO32 == (i + 1) % TWO32
    ensures Repeat(kb, i + 1) == Repeat(kb, i) + [kb]
  {
  }

  lemma SlotInRange(i: nat, n: nat)
    requires n > 0
    ensures 0 <= i % n < n
  {
  }

  /** The workload over the state machine: every connection contributes one. */
  method BespokeWorkload(totalConn: u32, activeConn: u32, stackKb: u32)
    returns (count: u32, used: seq<int>, ghost calls: seq<Op>)
    requires activeConn > 0
    ensures count == (totalConn + activeConn) % TWO32
    ensures used == Repeat(stackKb, totalConn + activeConn)
    ensures calls == DriverOps(totalConn, activeConn, stackKb)
  {
    hide Repeat, Connections, Connection;
    var b := new Bespoke(activeConn);
    var i := 0;
    while i < activeConn
      invariant 0 <= i <= activeConn && b.workers.Length == activeConn && fresh(b.workers) && b.used == []
      invariant b.calls == Allocations(i)
      invariant forall k :: 0 <= k < i ==> b.workers[k] == FRESH_WORKER
    {
      b.AllocAsyncWorker(i);
      i := i + 1;
    }
    count := BespokeConnections(b, totalConn, stackKb);
    var j := 0;
    ghost var before := b.calls;
    while j < activeConn
      invariant 0 <= j <= activeConn && b.workers.Length == activeConn && fresh(b.workers)
      invariant forall k :: 0 <= k < activeConn ==> b.workers[k].state == NORMAL
      invariant count == (totalConn + j) % TWO32 && b.used == Repeat(stackKb, totalConn + j)
      invariant b.calls == before + LastConnections(j, stackKb)
    {
      CountNext(totalConn + j, stackKb);
      count := Serve(b, j, stackKb, count);
      j := j + 1;
    }
    used, calls := b.used, b.calls;
  }

  method BespokeConnections(b: Bespoke, totalConn: u32, stackKb: u32) returns (count: u32)
    requires b.workers.Length > 0 && b.used == []
    requires forall k :: 0 <= k < b.workers.Length ==> b.workers[k] == FRESH_WORKER
    modifies b, b.workers
    ensures b.workers == old(b.workers)
    ensures forall k :: 0 <= k < b.workers.Length ==> b.workers[k].state == NORMAL
    ensures count == totalConn % TWO32 && b.used == Repeat(stackKb, totalConn)
    ensures b.calls == old(b.calls) + Connections(totalConn, b.workers.Length, stackKb)
  {
    count := 0;
    var i := 0;
    while i < totalConn
      invariant 0 <= i <= totalConn && b.workers == old(b.workers)
      invariant forall k :: 0 <= k < b.workers.Length ==> b.workers[k].state == NORMAL
      invariant count == i % TWO32 && b.used == Repeat(stackKb, i)
      invariant b.calls == old(b.calls) + Connections(i, b.workers.Length, stackKb)
    {
      SlotInRange(i, b.workers.Length);
      CountNext(i, stackKb);
      var j := i % b.workers.Length;
      count := Serve(b, j, stackKb, count);
      b.AllocAsyncWorker(j);
      i := i + 1;
    }
  }

  /** One connection: resume twice, add the second answer and free the worker. */
  method Serve(b: Bespoke, j: nat, stackKb: u32, count0: u32) returns (count: u32)
    requires j < b.workers.Length && b.workers[j].state == NORMAL
    modifies b.workers, b`used, b`active, b`calls
    ensures b.workers == old(b.workers) && b.workers[j].state == NORMAL
    ensures forall k :: 0 <= k < b.workers.Length && k != j ==> b.workers[k] == old(b.workers[k])
    ensures count == (count0 + 1) % TWO32 && b.used == old(b.used) + [stackKb]
    ensures b.calls == old(b.calls) + Connection(j, stackKb)
  {
    var _ := b.ResumeAsyncWorker(j, stackKb);
    var r := b.ResumeAsyncWorker(j, stackKb);
    count := (count0 + r) % TWO32;
    b.FreeAsyncWorker(j);
  }

  /** The workload over fibers gives the same count and the same uses. */
  method FiberWorkload(totalConn: u32, activeConn: u32, stackKb: u32)
    returns (count: u32, used: seq<int>, ghost calls: seq<Op>)
    requires activeConn > 0
    ensures count == (totalConn + activeConn) % TWO32
    ensures used == Repeat(stackKb, totalConn + activeConn)
    ensures calls == DriverOps(totalConn, activeConn, stackKb)
  {
    hide Repeat, Connections, Connection;
    var s := new FiberStore(activeConn);
    var i := 0;
    while i < activeConn
      invariant 0 <= i <= activeConn && s.store.Length == activeConn && fresh(s.store) && s.used == []
      invariant s.calls == Allocations(i)
      invariant forall k :: 0 <= k < i ==> s.store[k] == Some(Fresh(AsyncWorker))
    {
      s.AllocAsyncWorker(i);
      i := i + 1;
    }
    count := FiberConnections(s, totalConn, stackKb);
    var j := 0;
    ghost var before := s.calls;
    while j < activeConn
      invariant 0 <= j <= activeConn && s.store.Length == activeConn && fresh(s.store)
      invariant forall k :: j <= k < activeConn ==> s.store[k] == Some(Fresh(AsyncWorker))
      invariant count == (totalConn + j) % TWO32 && s.used == Repeat(stackKb, totalConn + j)
      invariant s.calls == before + LastConnections(j, stackKb)
    {
      CountNext(totalConn + j, stackKb);
      count := ServeFiber(s, j, stackKb, count);
      j := j + 1;
    }
    used, calls := s.used, s.calls;
  }

  method FiberConnections(s: FiberStore, totalConn: u32, stackKb: u32) returns (count: u32)
    requires s.store.Length > 0 && s.used == []
    requires forall k :: 0 <= k < s.store.Length ==> s.store[k] == Some(Fresh(AsyncWorker))
    modifies s`used, s`calls, s.store
    ensures s.store == old(s.store)
    ensures forall k :: 0 <= k < s.store.Length ==> s.store[k] == Some(Fresh(AsyncWorker))
    ensures count == totalConn % TWO32 && s.used == Repeat(stackKb, totalConn)
    ensures s.calls == old(s.calls) + Connections(totalConn, s.store.Length, stackKb)
  {
    count := 0;
    var i := 0;
    while i < totalConn
      invariant 0 <= i <= totalConn
      invariant forall k :: 0 <= k < s.store.Length ==> s.store[k] == Some(Fresh(AsyncWorker))
      invariant count == i % TWO32 && s.used == Repeat(stackKb, i)
      invariant s.calls == old(s.calls) + Connections(i, s.store.Length, stackKb)
    {
      SlotInRange(i, s.store.Length);
      CountNext(i, stackKb);
      var j := i % s.store.Length;
      count := ServeFiber(s, j, stackKb, count);
      s.AllocAsyncWorker(j);
      i := i + 1;
    }
  }

  method ServeFiber(s: FiberStore, j: nat, stackKb: u32, count0: u32) returns (count: u32)
    requires j < s.store.Length && s.store[j] == Some(Fresh(AsyncWorker))
    modifies s.store, s`used, s`calls
    ensures s.store == old(s.store)
    ensures forall k :: 0 <= k < s.store.Length && k != j ==> s.store[k] == old(s.store[k])
    ensures count == (count0 + 1) % TWO32 && s.used == old(s.used) + [stackKb] && s.store[j] == None
    ensures s.calls == old(s.calls) + Connection(j, stackKb)
  {
    ResumeAgrees(FRESH_WORKER, s.store[j].value, 0, stackKb);
    var _ := s.ResumeAsyncWorker(j, stackKb);
    ResumeAgrees(Worker(WorkerState.YIELDING, stackKb, stackKb), s.store[j].value, 1, stackKb);
    var r := s.ResumeAsyncWorker(j, stackKb);
    count := (count0 + r) % TWO32;
    s.FreeAsyncWorker(j);
  }

  /** With the parameters of the benchmark both workloads return its reference count. */
  method ReferenceCounts() returns (bespoke: u32, fiber: u32)
    ensures bespoke == fiber == 10010000
  {
    var total, active, kb := 10 * 1000000, 10000, 32;
    var used;
    ghost var calls;
    bespoke, used, calls := BespokeWorkload(total, active, kb);
    fiber, used, calls := FiberWorkload(total, active, kb);
  }
}
