/** The emitted program as a machine: control flow, defer records in stack slots or heap
    cells, the list head, and the landing pad. It is compared with the behaviour the Go
    language asks of defer statements, a stack of calls that every drain empties. */
module DeferMachine {
  import opened Graphs
  import opened DeferEmission

  /** Where a drain continues: after the `RunDefers` at a site, or at the recover block. */
  datatype Cont = AfterRun(block: nat, index: nat) | ToRecover

  /** `Wild` is undefined behaviour: the `unreachable` default case of a drain's switch, or
      a jump through a jump buffer no checkpoint has filled in. */
  datatype Pc = At(block: nat, index: nat) | Drain(k: Cont) | InCall(k: Cont, mayPanic: bool) | Exited | Aborted | Wild

  /** What the environment decides in one step. */
  datatype Choice = Choice(panics: bool, next: nat, call: Deferred)

  // ---------------------------------------------------------------------------
  // The Go semantics of defer

  /** `trail` is the path of blocks taken, `segment` the defers executed since the last
      drain ended and `base` the calls started by then. */
  datatype Spec = Spec(pc: Pc, stack: seq<Deferred>, log: seq<Invocation>,
                       trail: seq<nat>, segment: seq<Deferred>, base: seq<Invocation>)

  const SPEC_INIT := Spec(At(0, 0), [], [], [0], [], [])

  /** A panic runs the pending defers of a function that can recover, and ends the program
      otherwise. */
  function GoPanic(f: Func): Pc {
    if f.frame then Drain(ToRecover) else Aborted
  }

  /** A block that is in nobody's list of predecessors returns. */
  predicate GoReturns(f: Func, b: nat) {
    forall c :: 0 <= c < |f.preds| ==> b !in f.preds[c]
  }

  function SpecStep(f: Func, s: Spec, c: Choice): Spec {
    match s.pc
    case At(b, i) =>
      if b >= |f.code| then s
      else if i >= |f.code[b]| then
        if Edge(f.preds, b, c.next) then s.(pc := At(c.next, 0), trail := s.trail + [c.next])
        else if GoReturns(f, b) then s.(pc := Exited)
        else s
      else (
        match f.code[b][i]
        case Plain => s.(pc := At(b, i + 1))
        case Call => s.(pc := if c.panics then GoPanic(f) else At(b, i + 1))
        case Print => s.(pc := if c.panics then GoPanic(f) else At(b, i + 1))
        case Defer(callee) =>
          if c.call.Callee() != callee then s
          else s.(pc := At(b, i + 1), stack := s.stack + [c.call], segment := s.segment + [c.call])
        case RunDefers => s.(pc := Drain(AfterRun(b, i)))
      )
    case Drain(k) =>
      if s.stack == [] then
        var t := s.(segment := [], base := s.log);
        match k
        case AfterRun(b, i) => t.(pc := At(b, i + 1))
        case ToRecover => t.(pc := At(f.recover, 0), trail := [f.recover])
      else
        var top := s.stack[|s.stack| - 1];
        s.(pc := InCall(k, top.Callee().MayPanic()), stack := s.stack[..|s.stack| - 1], log := s.log + [top.Call()])
    case InCall(k, mayPanic) => s.(pc := if c.panics && mayPanic then GoPanic(f) else Drain(k))
    case _ => s
  }

  function SpecRun(f: Func, cs: seq<Choice>): Spec {
    if cs == [] then SPEC_INIT
    else SpecStep(f, SpecRun(f, cs[..|cs| - 1]), cs[|cs| - 1])
  }

  /** The calls of `ds`, last deferred first. */
  function Reversed(ds: seq<Deferred>): seq<Invocation> {
    if ds == [] then [] else Reversed(ds[1..]) + [ds[0].Call()]
  }

  ghost predicate LastInFirstOut(s: Spec) {
    && |s.stack| <= |s.segment|
    && s.stack == s.segment[..|s.stack|]
    && s.log == s.base + Reversed(s.segment[|s.stack|..])
    && (s.pc.At? ==> s.stack == s.segment)
  }

  lemma SpecStepLifo(f: Func, s: Spec, c: Choice)
    requires LastInFirstOut(s)
    ensures LastInFirstOut(SpecStep(f, s, c))
  {
    var t := SpecStep(f, s, c);
    var n := |s.stack|;
    if s.pc.Drain? && n > 0 {
      assert s.segment[n - 1..][1..] == s.segment[n..];
    } else {
      assert t.segment[|t.stack|..] == if |t.segment| == |t.stack| then [] else s.segment[n..];
    }
  }

  // ---------------------------------------------------------------------------
  // The emitted code

  datatype Concrete = Concrete(pc: Pc, cells: map<Addr, Record>, head: Addr, heapNext: nat,
                               armed: bool, log: seq<Invocation>)

  const CONCRETE_INIT := Concrete(At(0, 0), map[], Nil, 0, false, [])

  /** A block off every cycle uses its own stack slot, any other block a fresh heap cell. */
  ghost function CellFor(f: Func, s: Concrete, b: nat, i: nat): Addr {
    if OnCycle(f.preds, b) then Heap(s.heapNext) else Slot(b, i)
  }

  /** The number of switch cases of a drain. */
  function Cases(f: Func, k: Cont): nat {
    match k
    case AfterRun(b, i) => if b < |f.code| && i <= |f.code[b]| then |TableAt(f, b, i)| else 0
    case ToRecover => |FullTable(f)|
  }

  ghost function PushDefer(f: Func, s: Concrete, b: nat, i: nat, d: Deferred): Concrete {
    var cell := CellFor(f, s, b, i);
    s.(pc := At(b, i + 1),
       cells := s.cells[cell := Record(IndexOf(FullTable(f), d.Callee()), s.head, d.Fields())],
       head := cell,
       heapNext := if cell.Heap? then s.heapNext + 1 else s.heapNext)
  }

  /** One turn of the drain loop: the head is popped before the call is made. Only direct
      calls set a checkpoint. */
  function PopDefer(t: seq<Callee>, cases: nat, s: Concrete, k: Cont): Concrete {
    if s.head !in s.cells then s.(pc := Wild)
    else
      var rec := s.cells[s.head];
      if rec.callback >= cases || rec.callback >= |t| then s.(head := rec.next, pc := Wild)
      else
        s.(head := rec.next, pc := InCall(k, t[rec.callback].MayPanic()),
           log := s.log + [Dispatch(t[rec.callback], rec.fields)],
           armed := s.armed || t[rec.callback].Direct?)
  }

  predicate IsExit(f: Func, b: nat) {
    forall c :: 0 <= c < |f.preds| ==> !Edge(f.preds, b, c)
  }

  /** Where a panic takes control once a checkpoint exists: to the landing pad, which drains. */
  function Panicked(f: Func): Pc {
    if f.frame then Drain(ToRecover) else Aborted
  }

  /** Where the emitted code goes on a panic raised without setting a checkpoint. */
  function Jump(f: Func, armed: bool): Pc {
    if f.frame && !armed then Wild else Panicked(f)
  }

  ghost function ConcreteStep(f: Func, s: Concrete, c: Choice): Concrete {
    match s.pc
    case At(b, i) =>
      if b >= |f.code| then s
      else if i >= |f.code[b]| then
        if Edge(f.preds, b, c.next) then s.(pc := At(c.next, 0))
        else if IsExit(f, b) then s.(pc := Exited)
        else s
      else (
        match f.code[b][i]
        case Plain => s.(pc := At(b, i + 1))
        case Call => s.(armed := true, pc := if c.panics then Panicked(f) else At(b, i + 1))
        case Print => s.(pc := if c.panics then Jump(f, s.armed) else At(b, i + 1))
        case Defer(callee) => if c.call.Callee() != callee then s else PushDefer(f, s, b, i, c.call)
        case RunDefers => s.(pc := Drain(AfterRun(b, i)))
      )
    case Drain(k) =>
      if s.head == Nil then
        match k
        case AfterRun(b, i) => s.(pc := At(b, i + 1))
        case ToRecover => s.(pc := At(f.recover, 0))
      else PopDefer(FullTable(f), Cases(f, k), s, k)
    case InCall(k, mayPanic) => s.(pc := if c.panics && mayPanic then Jump(f, s.armed) else Drain(k))
    case _ => s
  }

  ghost function ConcreteRun(f: Func, cs: seq<Choice>): Concrete {
    if cs == [] then CONCRETE_INIT
    else ConcreteStep(f, ConcreteRun(f, cs[..|cs| - 1]), cs[|cs| - 1])
  }

  // ---------------------------------------------------------------------------
  // Simulation

  /** What a record holds besides its link. */
  datatype Body = Body(callback: nat, fields: seq<Value>)

  function BodyOf(t: seq<Callee>, d: Deferred): Body {
    Body(IndexOf(t, d.Callee()), d.Fields())
  }

  function Bodies(t: seq<Callee>, stack: seq<Deferred>): seq<Body> {
    seq(|stack|, i requires 0 <= i < |stack| => BodyOf(t, stack[i]))
  }

  function Below(addrs: seq<Addr>, i: nat): Addr
    requires i <= |addrs|
  {
    if i == 0 then Nil else addrs[i - 1]
  }

  ghost predicate Holds(cells: map<Addr, Record>, b: Body, a: Addr, next: Addr) {
    !a.Nil? && a in cells && cells[a] == Record(b.callback, next, b.fields)
  }

  /** The records reachable from the head hold exactly `bodies`, newest first, at pairwise
      different addresses: the list has no cycle and no cell is shared. */
  ghost predicate Linked(cells: map<Addr, Record>, head: Addr, bodies: seq<Body>, addrs: seq<Addr>) {
    && |addrs| == |bodies|
    && head == Below(addrs, |addrs|)
    && (forall i, j :: 0 <= i < j < |addrs| ==> addrs[i] != addrs[j])
    && (forall i :: 0 <= i < |addrs| ==> Holds(cells, bodies[i], addrs[i], Below(addrs, i)))
  }

  ghost predicate HasList(cells: map<Addr, Record>, head: Addr, bodies: seq<Body>) {
    exists addrs :: Linked(cells, head, bodies, addrs)
  }

  ghost predicate Known(t: seq<Callee>, stack: seq<Deferred>) {
    forall i :: 0 <= i < |stack| ==> stack[i].Callee() in t
  }

  /** The site control is at, when it is in the function's own blocks. */
  function Current(pc: Pc): Pc {
    match pc
    case At(b, i) => pc
    case Drain(AfterRun(b, i)) => At(b, i)
    case InCall(AfterRun(b, i), _) => At(b, i)
    case _ => Exited
  }

  ghost predicate IsRunDefers(f: Func, b: nat, i: nat) {
    b < |f.code| && i < |f.code[b]| && f.code[b][i].RunDefers?
  }

  ghost predicate OnTrail(f: Func, pc: Pc, trail: seq<nat>) {
    && IsPath(f.preds, trail)
    && (Current(pc).At? ==> Current(pc).block == trail[|trail| - 1])
    && (Current(pc).At? && !pc.At? ==> IsRunDefers(f, Current(pc).block, Current(pc).index))
  }

  /** Stack slots are written only by sites that control has already passed. */
  ghost predicate SlotsBehind(f: Func, pc: Pc, trail: seq<nat>, cells: map<Addr, Record>)
    requires trail != []
  {
    Current(pc).At? && Current(pc).block != f.recover ==>
      forall a :: a in cells && a.Slot? ==>
        a.block in trail[..|trail| - 1] || (a.block == Current(pc).block && a.index < Current(pc).index)
  }

  ghost predicate HeapBelow(cells: map<Addr, Record>, n: nat) {
    forall a :: a in cells ==> !a.Nil? && (a.Heap? ==> a.n < n)
  }

  ghost predicate Simulates(f: Func, c: Concrete, s: Spec) {
    && c.pc == s.pc && c.log == s.log
    && OnTrail(f, s.pc, s.trail)
    && SlotsBehind(f, s.pc, s.trail, c.cells)
    && HeapBelow(c.cells, c.heapNext)
    && Known(FullTable(f), s.stack)
    && HasList(c.cells, c.head, Bodies(FullTable(f), s.stack))
  }

  /** A defer statement never overwrites a record that exists. */
  lemma CellIsNew(f: Func, c: Concrete, s: Spec)
    requires WellFormed(f) && Simulates(f, c, s) && s.pc.At?
    requires s.pc.index < |f.code[s.pc.block]| && f.code[s.pc.block][s.pc.index].Defer?
    ensures CellFor(f, c, s.pc.block, s.pc.index) !in c.cells
  {
    var b := s.pc.block;
    if !OnCycle(f.preds, b) {
      OffCycleVisitedOnce(f.preds, s.trail, b);
      assert b !in s.trail[..|s.trail| - 1];
    }
  }

  lemma LinkedPush(cells: map<Addr, Record>, head: Addr, bodies: seq<Body>, addrs: seq<Addr>, cell: Addr, b: Body)
    requires Linked(cells, head, bodies, addrs) && cell !in cells && !cell.Nil?
    ensures Linked(cells[cell := Record(b.callback, head, b.fields)], cell, bodies + [b], addrs + [cell])
  {
    var cells', bodies', addrs' := cells[cell := Record(b.callback, head, b.fields)], bodies + [b], addrs + [cell];
    forall i | 0 <= i < |addrs'|
      ensures Holds(cells', bodies'[i], addrs'[i], Below(addrs', i))
    {
      if i < |addrs| {
        assert Holds(cells, bodies[i], addrs[i], Below(addrs, i));
      }
    }
    forall i, j | 0 <= i < j < |addrs'|
      ensures addrs'[i] != addrs'[j]
    {
      assert Holds(cells, bodies[i], addrs[i], Below(addrs, i));
    }
  }

  lemma LinkedPop(cells: map<Addr, Record>, head: Addr, bodies: seq<Body>, addrs: seq<Addr>)
    requires Linked(cells, head, bodies, addrs) && bodies != []
    ensures head in cells && !head.Nil?
    ensures Body(cells[head].callback, cells[head].fields) == bodies[|bodies| - 1]
    ensures Linked(cells, cells[head].next, bodies[..|bodies| - 1], addrs[..|addrs| - 1])
  {
    var n := |addrs| - 1;
    assert Holds(cells, bodies[n], addrs[n], Below(addrs, n));
    forall i | 0 <= i < n
      ensures Holds(cells, bodies[..n][i], addrs[..n][i], Below(addrs[..n], i))
    {
      assert Holds(cells, bodies[i], addrs[i], Below(addrs, i));
    }
  }

  lemma ListPush(t: seq<Callee>, cells: map<Addr, Record>, head: Addr, stack: seq<Deferred>, cell: Addr, d: Deferred)
    requires HasList(cells, head, Bodies(t, stack)) && cell !in cells && !cell.Nil?
    ensures HasList(cells[cell := Record(IndexOf(t, d.Callee()), head, d.Fields())], cell, Bodies(t, stack + [d]))
  {
    var addrs :| Linked(cells, head, Bodies(t, stack), addrs);
    LinkedPush(cells, head, Bodies(t, stack), addrs, cell, BodyOf(t, d));
    assert Bodies(t, stack + [d]) == Bodies(t, stack) + [BodyOf(t, d)];
  }

  /** The new record is behind control once the defer statement is done. */
  lemma PlacePush(f: Func, c: Concrete, s: Spec, cell: Addr, rec: Record)
    requires Simulates(f, c, s) && s.pc.At? && cell == CellFor(f, c, s.pc.block, s.pc.index)
    ensures SlotsBehind(f, At(s.pc.block, s.pc.index + 1), s.trail, c.cells[cell := rec])
    ensures HeapBelow(c.cells[cell := rec], if cell.Heap? then c.heapNext + 1 else c.heapNext)
  {
  }

  lemma KnownPush(t: seq<Callee>, stack: seq<Deferred>, d: Deferred)
    requires Known(t, stack) && d.Callee() in t
    ensures Known(t, stack + [d])
  {
  }

  lemma PushSimulated(f: Func, c: Concrete, s: Spec, d: Deferred, c': Concrete, s': Spec)
    requires WellFormed(f) && Simulates(f, c, s) && s.pc.At?
    requires s.pc.block < |f.code| && s.pc.index < |f.code[s.pc.block]|
      && f.code[s.pc.block][s.pc.index] == Defer(d.Callee())
    requires c' == PushDefer(f, c, s.pc.block, s.pc.index, d)
    requires s'.pc == c'.pc && s'.stack == s.stack + [d] && s'.log == s.log && s'.trail == s.trail
    ensures Simulates(f, c', s')
  {
    var b, i := s.pc.block, s.pc.index;
    CellIsNew(f, c, s);
    DeferHasCallback(f, b, i);
    KnownPush(FullTable(f), s.stack, d);
    ListPush(FullTable(f), c.cells, c.head, s.stack, c'.head, d);
    PlacePush(f, c, s, c'.head, c'.cells[c'.head]);
  }

  lemma SimulatePush(f: Func, c: Concrete, s: Spec, ch: Choice)
    requires WellFormed(f) && Simulates(f, c, s) && s.pc.At?
    requires s.pc.block < |f.code| && s.pc.index < |f.code[s.pc.block]|
    requires f.code[s.pc.block][s.pc.index] == Defer(ch.call.Callee())
    ensures Simulates(f, ConcreteStep(f, c, ch), SpecStep(f, s, ch))
  {
    PushSimulated(f, c, s, ch.call, ConcreteStep(f, c, ch), SpecStep(f, s, ch));
  }

  /** A turn of the drain loop either starts the newest pending call, with the parameters
      it was deferred with, or finds no switch case for it. */
  lemma PopStartsTop(t: seq<Callee>, cases: nat, c: Concrete, stack: seq<Deferred>, k: Cont)
    requires stack != [] && Known(t, stack) && HasList(c.cells, c.head, Bodies(t, stack))
    ensures !c.head.Nil?
    ensures var n, c' := |stack| - 1, PopDefer(t, cases, c, k);
      && c'.cells == c.cells && c'.heapNext == c.heapNext
      && HasList(c'.cells, c'.head, Bodies(t, stack[..n]))
      && (c'.pc == Wild <==> IndexOf(t, stack[n].Callee()) >= cases)
      && (c'.pc != Wild ==>
            && c'.pc == InCall(k, stack[n].Callee().MayPanic()) && c'.log == c.log + [stack[n].Call()]
            && (c'.armed <==> c.armed || stack[n].Callee().Direct?))
  {
    var n := |stack| - 1;
    ListPop(t, c.cells, c.head, stack);
    CallbackRestores(t, stack[n]);
  }

  lemma ListPop(t: seq<Callee>, cells: map<Addr, Record>, head: Addr, stack: seq<Deferred>)
    requires stack != [] && HasList(cells, head, Bodies(t, stack))
    ensures head in cells && !head.Nil?
    ensures cells[head].callback == IndexOf(t, stack[|stack| - 1].Callee())
      && cells[head].fields == stack[|stack| - 1].Fields()
    ensures HasList(cells, cells[head].next, Bodies(t, stack[..|stack| - 1]))
  {
    var n := |stack| - 1;
    BodiesPrefix(t, stack, Bodies(t, stack), BodyOf(t, stack[n]));
    ListPopBodies(cells, head, Bodies(t, stack));
  }

  lemma BodiesPrefix(t: seq<Callee>, stack: seq<Deferred>, bodies: seq<Body>, top: Body)
    requires stack != [] && bodies == Bodies(t, stack) && top == BodyOf(t, stack[|stack| - 1])
    ensures |bodies| == |stack| && Bodies(t, stack[..|stack| - 1]) == bodies[..|stack| - 1]
      && bodies[|stack| - 1] == top
  {
  }

  lemma ListPopBodies(cells: map<Addr, Record>, head: Addr, bodies: seq<Body>)
    requires bodies != [] && HasList(cells, head, bodies)
    ensures head in cells && !head.Nil? && Body(cells[head].callback, cells[head].fields) == bodies[|bodies| - 1]
    ensures HasList(cells, cells[head].next, bodies[..|bodies| - 1])
  {
    var addrs :| Linked(cells, head, bodies, addrs);
    LinkedPop(cells, head, bodies, addrs);
  }

  /** The switch on a record's callback gets back the deferred call. */
  lemma CallbackRestores(t: seq<Callee>, d: Deferred)
    requires d.Callee() in t
    ensures IndexOf(t, d.Callee()) < |t| && Dispatch(t[IndexOf(t, d.Callee())], d.Fields()) == d.Call()
    ensures t[IndexOf(t, d.Callee())] == d.Callee()
  {
    DispatchRestoresCall(d);
  }

  lemma DrainSimulated(f: Func, c: Concrete, s: Spec, c': Concrete, s': Spec)
    requires Simulates(f, c, s) && s.pc.Drain? && s.stack != []
    requires c'.cells == c.cells && c'.heapNext == c.heapNext && c'.pc == s'.pc && c'.log == s'.log
    requires HasList(c'.cells, c'.head, Bodies(FullTable(f), s'.stack))
    requires s'.pc.InCall? && s'.pc.k == s.pc.k && s'.stack == s.stack[..|s.stack| - 1] && s'.trail == s.trail
    ensures Simulates(f, c', s')
  {
    assert Current(s'.pc) == Current(s.pc);
  }

  lemma HeadShowsStack(t: seq<Callee>, cells: map<Addr, Record>, head: Addr, stack: seq<Deferred>)
    requires HasList(cells, head, Bodies(t, stack))
    ensures head.Nil? <==> stack == []
  {
    if stack != [] {
      ListPop(t, cells, head, stack);
    }
  }

  /** The end of a drain. */
  lemma DrainEnds(f: Func, c: Concrete, s: Spec, c': Concrete, s': Spec)
    requires WellFormed(f) && Simulates(f, c, s) && s.pc.Drain? && s.stack == []
    requires c'.cells == c.cells && c'.head == c.head && c'.heapNext == c.heapNext && c'.log == c.log
    requires s'.stack == s.stack && s'.log == s.log && s'.pc == c'.pc
    requires s.pc.k.AfterRun? ==> c'.pc == At(s.pc.k.block, s.pc.k.index + 1) && s'.trail == s.trail
    requires s.pc.k.ToRecover? ==> c'.pc == At(f.recover, 0) && s'.trail == [f.recover]
    ensures Simulates(f, c', s')
  {
    hide HasList, Bodies, FullTable, HeapBelow, Known, Linked;
    if s.pc.k.ToRecover? {
      assert IsPath(f.preds, [f.recover]);
    }
  }

  lemma DrainSteps(f: Func, c: Concrete, s: Spec, ch: Choice, c': Concrete, s': Spec)
    requires c.pc == s.pc && s.pc.Drain? && (c.head.Nil? <==> s.stack == [])
    requires c' == ConcreteStep(f, c, ch) && s' == SpecStep(f, s, ch)
    ensures s.stack != [] ==>
      && c' == PopDefer(FullTable(f), Cases(f, s.pc.k), c, s.pc.k)
      && s'.pc == InCall(s.pc.k, s.stack[|s.stack| - 1].Callee().MayPanic())
      && s'.stack == s.stack[..|s.stack| - 1] && s'.trail == s.trail
      && s'.log == s.log + [s.stack[|s.stack| - 1].Call()]
    ensures s.stack == [] ==>
      && c'.cells == c.cells && c'.head == c.head && c'.heapNext == c.heapNext && c'.log == c.log
      && s'.stack == s.stack && s'.log == s.log && s'.pc == c'.pc
      && (s.pc.k.AfterRun? ==> c'.pc == At(s.pc.k.block, s.pc.k.index + 1) && s'.trail == s.trail)
      && (s.pc.k.ToRecover? ==> c'.pc == At(f.recover, 0) && s'.trail == [f.recover])
  {
  }

  lemma SimulateDrain(f: Func, c: Concrete, s: Spec, ch: Choice, c': Concrete, s': Spec)
    requires WellFormed(f) && Simulates(f, c, s) && s.pc.Drain? && c'.pc != Wild
    requires c' == ConcreteStep(f, c, ch) && s' == SpecStep(f, s, ch)
    ensures Simulates(f, c', s')
  {
    hide HasList, Bodies, FullTable, OnTrail, SlotsBehind, HeapBelow, Known, WellFormed, Linked, IndexOf,
      ConcreteStep, SpecStep;
    HeadShowsStack(FullTable(f), c.cells, c.head, s.stack);
    DrainSteps(f, c, s, ch, c', s');
    if s.stack != [] {
      PopStartsTop(FullTable(f), Cases(f, s.pc.k), c, s.stack, s.pc.k);
      DrainSimulated(f, c, s, c', s');
    } else {
      DrainEnds(f, c, s, c', s');
    }
  }

  lemma JumpSimulated(f: Func, c: Concrete, s: Spec, next: nat, c': Concrete, s': Spec)
    requires WellFormed(f) && Simulates(f, c, s) && s.pc.At? && Edge(f.preds, s.pc.block, next)
    requires c' == c.(pc := At(next, 0)) && s' == s.(pc := At(next, 0), trail := s.trail + [next])
    ensures Simulates(f, c', s')
  {
    hide HasList, Bodies, FullTable, OnTrail, SlotsBehind, HeapBelow, Known, WellFormed, Edge;
    JumpTrail(f, s.pc, s.trail, next, s'.trail);
    JumpSlots(f, s.pc, s.trail, c.cells, next, s'.trail);
  }

  lemma JumpTrail(f: Func, pc: Pc, trail: seq<nat>, next: nat, trail': seq<nat>)
    requires OnTrail(f, pc, trail) && pc.At? && Edge(f.preds, pc.block, next) && trail' == trail + [next]
    ensures OnTrail(f, At(next, 0), trail')
  {
    AppendEdge(f.preds, trail, next);
  }

  lemma JumpSlots(f: Func, pc: Pc, trail: seq<nat>, cells: map<Addr, Record>, next: nat, trail': seq<nat>)
    requires WellFormed(f) && OnTrail(f, pc, trail) && pc.At? && Edge(f.preds, pc.block, next)
      && trail' == trail + [next]
    requires SlotsBehind(f, pc, trail, cells)
    ensures SlotsBehind(f, At(next, 0), trail', cells)
  {
    assert trail'[..|trail'| - 1] == trail;
    if next != f.recover {
      assert pc.block != f.recover;
    }
  }

  lemma SimulateJump(f: Func, c: Concrete, s: Spec, ch: Choice, c': Concrete, s': Spec)
    requires WellFormed(f) && Simulates(f, c, s) && s.pc.At? && s.pc.block < |f.code|
      && s.pc.index >= |f.code[s.pc.block]|
    requires c' == ConcreteStep(f, c, ch) && s' == SpecStep(f, s, ch)
    ensures Simulates(f, c', s')
  {
    if Edge(f.preds, s.pc.block, ch.next) {
      JumpSimulated(f, c, s, ch.next, c', s');
    } else {
      ReturnsIffExit(f, s.pc.block);
      assert Advances(f, s.pc, s'.pc);
      SimulateAdvance(f, c, s, c', s');
    }
  }

  lemma ReturnsIffExit(f: Func, b: nat)
    ensures GoReturns(f, b) <==> IsExit(f, b)
  {
    forall c | 0 <= c < |f.preds| ensures Edge(f.preds, b, c) <==> b in f.preds[c] {
    }
  }

  /** Control stays in its block, at or after the current instruction, or leaves the
      function's own blocks. */
  ghost predicate Advances(f: Func, pc: Pc, pc': Pc) {
    Current(pc').At? ==>
      && Current(pc).At? && Current(pc').block == Current(pc).block
      && Current(pc').index >= Current(pc).index
      && (pc'.At? || IsRunDefers(f, Current(pc').block, Current(pc').index))
  }

  lemma SimulateAdvance(f: Func, c: Concrete, s: Spec, c': Concrete, s': Spec)
    requires Simulates(f, c, s) && Advances(f, s.pc, s'.pc)
    requires c'.cells == c.cells && c'.head == c.head && c'.heapNext == c.heapNext
    requires s'.stack == s.stack && s'.trail == s.trail && c'.pc == s'.pc && c'.log == s'.log
    ensures Simulates(f, c', s')
  {
  }

  /** Steps that leave the list alone. */
  lemma OtherSteps(f: Func, c: Concrete, s: Spec, ch: Choice, c': Concrete, s': Spec)
    requires c.pc == s.pc && c.log == s.log && c' == ConcreteStep(f, c, ch) && s' == SpecStep(f, s, ch) && c'.pc != Wild
    requires s.pc.InCall? && s.pc.k.AfterRun? ==> IsRunDefers(f, s.pc.k.block, s.pc.k.index)
    requires !s.pc.Drain? && (s.pc.At? ==>
               && s.pc.block < |f.code| && s.pc.index < |f.code[s.pc.block]|
               && f.code[s.pc.block][s.pc.index] != Defer(ch.call.Callee()))
    ensures c'.cells == c.cells && c'.head == c.head && c'.heapNext == c.heapNext
    ensures s'.stack == s.stack && s'.trail == s.trail && c'.pc == s'.pc && c'.log == s'.log && Advances(f, s.pc, s'.pc)
  {
  }

  lemma SimulateOther(f: Func, c: Concrete, s: Spec, ch: Choice, c': Concrete, s': Spec)
    requires Simulates(f, c, s) && c' == ConcreteStep(f, c, ch) && s' == SpecStep(f, s, ch) && c'.pc != Wild
    requires !s.pc.Drain? && (s.pc.At? ==>
               && s.pc.block < |f.code| && s.pc.index < |f.code[s.pc.block]|
               && f.code[s.pc.block][s.pc.index] != Defer(ch.call.Callee()))
    ensures Simulates(f, c', s')
  {
    assert OnTrail(f, s.pc, s.trail);
    OtherSteps(f, c, s, ch, c', s');
    SimulateAdvance(f, c, s, c', s');
  }

  /** One step of the emitted code is one step of the Go semantics, unless it is undefined. */
  lemma SimulateStep(f: Func, c: Concrete, s: Spec, ch: Choice)
    requires WellFormed(f) && Simulates(f, c, s) && ConcreteStep(f, c, ch).pc != Wild
    ensures Simulates(f, ConcreteStep(f, c, ch), SpecStep(f, s, ch))
  {
    var c', s' := ConcreteStep(f, c, ch), SpecStep(f, s, ch);
    hide HasList, SlotsBehind, HeapBelow, Known, ConcreteStep, SpecStep;
    assert s.pc.At? ==> s.pc.block < |f.code|;
    if s.pc.Drain? {
      SimulateDrain(f, c, s, ch, c', s');
    } else if s.pc.At? && s.pc.index >= |f.code[s.pc.block]| {
      SimulateJump(f, c, s, ch, c', s');
    } else if s.pc.At? && f.code[s.pc.block][s.pc.index] == Defer(ch.call.Callee()) {
      SimulatePush(f, c, s, ch);
    } else {
      SimulateOther(f, c, s, ch, c', s');
    }
  }

  /** On every run that stays defined, the emitted code does what the Go semantics says:
      same control flow, same calls with the same parameters in the same order, and an
      acyclic list holding exactly the pending calls. */
  lemma {:induction false} Refinement(f: Func, cs: seq<Choice>)
    requires WellFormed(f) && ConcreteRun(f, cs).pc != Wild
    ensures Simulates(f, ConcreteRun(f, cs), SpecRun(f, cs))
    ensures LastInFirstOut(SpecRun(f, cs))
  {
    hide Simulates, WellFormed, LastInFirstOut, ConcreteStep, SpecStep;
    if cs == [] {
      InitSimulates(f);
    } else {
      var pre, ch := cs[..|cs| - 1], cs[|cs| - 1];
      WildStays(f, ConcreteRun(f, pre), ch);
      Refinement(f, pre);
      SimulateStep(f, ConcreteRun(f, pre), SpecRun(f, pre), ch);
      SpecStepLifo(f, SpecRun(f, pre), ch);
    }
  }

  lemma InitSimulates(f: Func)
    requires WellFormed(f)
    ensures Simulates(f, CONCRETE_INIT, SPEC_INIT) && LastInFirstOut(SPEC_INIT)
  {
    assert Linked(map[], Nil, Bodies(FullTable(f), []), []);
    assert HasList(map[], Nil, Bodies(FullTable(f), []));
  }

  lemma WildStays(f: Func, c: Concrete, ch: Choice)
    ensures c.pc == Wild ==> ConcreteStep(f, c, ch).pc == Wild
  {
  }

  /** When a drain ends, it has started every defer executed since the previous one exactly
      once, newest first, however many of the calls panicked. */
  lemma DrainStartsAll(f: Func, cs: seq<Choice>)
    requires WellFormed(f) && ConcreteRun(f, cs).pc.Drain? && ConcreteRun(f, cs).head == Nil
    ensures ConcreteRun(f, cs).log == SpecRun(f, cs).base + Reversed(SpecRun(f, cs).segment)
  {
    Refinement(f, cs);
    var s := SpecRun(f, cs);
    assert s.stack == [] && s.segment[0..] == s.segment;
  }
}
