/** The instrumented program running on the fiber runtime, and its refinement of
    direct-style coroutines. */
module FiberMachine {
  import opened Fibers
  import opened Options

  /** One activation of `fiber_resume` together with the entry function it runs: `Enter` is
      the call of the entry function, `Leave` its return, `Wait` code inside a nested call of
      `fiber_resume`. Frame 0 is the main program. */
  datatype Code = Run(co: Co) | Enter(arg: Value) | Leave(result: Value) | Wait(cont: (Value, Status) -> Co)
  datatype Frame = Frame(fiber: Option<nat>, prev: Option<nat>, code: Code)
  datatype Machine = Machine(rt: Runtime, frames: seq<Frame>, log: seq<Event>)

  ghost predicate OnFrames(frames: seq<Frame>, g: nat) {
    exists i :: 0 <= i < |frames| && frames[i].fiber == Some(g)
  }

  ghost function Top(m: Machine): Frame
    requires m.frames != []
  {
    m.frames[|m.frames| - 1]
  }

  ghost function SetTop(m: Machine, code: Code): Machine
    requires m.frames != []
  {
    var n := |m.frames| - 1;
    m.(frames := m.frames[..n] + [m.frames[n].(code := code)])
  }

  /** The entry function starts: afresh, or at the captured continuation when rewinding. */
  ghost function EnterStep(m: Machine, arg: Value): Machine
    requires m.frames != []
  {
    if !HasActive(m.rt) then m
    else
      var fiber := m.rt.fibers[m.rt.active.value];
      if m.rt.mode.Rewinding? && fiber.stack.Some? then SetTop(m, Run(fiber.stack.value))
      else SetTop(m, Run(fiber.entry(arg)))
  }

  /** A call of `fiber_yield`; if it starts an unwind, the continuation is captured and the
      entry function returns a dummy value. */
  ghost function YieldStep(m: Machine, co: Co): Machine
    requires m.frames != [] && co.Yield?
  {
    if !HasActive(m.rt) then m
    else
      var f := m.rt.active.value;
      var (rt, r) := YieldEffect(m.rt, co.v);
      if r.Some? then SetTop(m.(rt := rt), Run(co.k(r.value)))
      else SetTop(m.(rt := rt.(fibers := rt.fibers[f := rt.fibers[f].(stack := Some(co))])), Leave(NULL))
  }

  ghost function ResumeStep(m: Machine, g: nat, arg: Value, cont: (Value, Status) -> Co): Machine
    requires m.frames != []
  {
    if g >= |m.rt.fibers| || OnFrames(m.frames, g) then m
    else if m.rt.fibers[g].state == DONE then
      SetTop(m, Run(cont(NULL, Error))).(log := m.log + [Resumed(g, Error, NULL)])
    else
      Machine(EnterEffect(m.rt, g, arg),
              SetTop(m, Wait(cont)).frames + [Frame(Some(g), m.rt.active, Enter(arg))], m.log)
  }

  ghost function LeaveStep(m: Machine, result: Value): Machine
    requires m.frames != []
  {
    var n := |m.frames| - 1;
    if n == 0 || !m.frames[n].fiber.Some? || m.frames[n].fiber.value >= |m.rt.fibers|
      || !m.frames[n - 1].code.Wait? then m
    else
      var f := m.frames[n].fiber.value;
      var (rt, status, v) := LeaveEffect(m.rt, f, m.frames[n].prev, result);
      Machine(rt, m.frames[..n - 1] + [m.frames[n - 1].(code := Run(m.frames[n - 1].code.cont(v, status)))],
              m.log + [Resumed(f, status, v)])
  }

  ghost function Step(m: Machine): Machine {
    if m.frames == [] then m
    else match Top(m).code
      case Wait(_) => m
      case Enter(arg) => EnterStep(m, arg)
      case Leave(result) => LeaveStep(m, result)
      case Run(co) =>
        match co
        case Return(v) => if |m.frames| == 1 then m else SetTop(m, Leave(v))
        case Yield(v, k) => if |m.frames| == 1 then m else YieldStep(m, co)
        case Resume(g, arg, cont) => ResumeStep(m, g, arg, cont)
        case Alloc(entry, next) =>
          SetTop(m, Run(next(|m.rt.fibers|))).(
            rt := m.rt.(fibers := m.rt.fibers + [Fiber(ACTIVE, NULL, entry, None)]))
        case Use(kb, rest) => SetTop(m, Run(rest)).(log := m.log + [Used(kb)])
  }

  ghost function Init(main: Co): Machine {
    Machine(Runtime(None, Normal, []), [Frame(None, None, Run(main))], [])
  }

  ghost function MachineRun(main: Co, n: nat): Machine {
    if n == 0 then Init(main) else Step(MachineRun(main, n - 1))
  }

  // ---------------------------------------------------------------------------
  // The invariant

  /** Mode, state and captured stack of the fiber that is executing agree with the point its
      code has reached. */
  ghost predicate TopOk(rt: Runtime, f: nat, code: Code)
    requires f < |rt.fibers|
  {
    var fiber := rt.fibers[f];
    var plain := rt.mode == Normal && fiber.state == ACTIVE;
    var saved := fiber.state == YIELDING && fiber.stack.Some? && fiber.stack.value.Yield?;
    match code
    case Run(co) => plain || (rt.mode == Rewinding(f) && saved && co == fiber.stack.value)
    case Enter(arg) => plain || (rt.mode == Rewinding(f) && saved && fiber.arg == arg)
    case Leave(_) => plain || (rt.mode == Unwinding(f) && saved && fiber.arg == fiber.stack.value.v)
    case Wait(_) => false
  }

  /** A frame remembers the fiber that was active when it was entered. */
  ghost predicate PrevOk(frames: seq<Frame>, i: nat)
    requires 0 < i < |frames|
  {
    frames[i].prev == frames[i - 1].fiber
  }

  ghost predicate FramesOk(m: Machine) {
    && m.frames != []
    && m.frames[0].fiber == None
    && (forall i :: 0 < i < |m.frames| ==> m.frames[i].fiber.Some? && m.frames[i].fiber.value < |m.rt.fibers|)
    && (forall i: nat :: 0 < i < |m.frames| ==> PrevOk(m.frames, i))
    && (forall i, j :: 0 <= i < j < |m.frames| ==> m.frames[i].fiber != m.frames[j].fiber)
    && (forall i :: 0 <= i < |m.frames| - 1 ==> m.frames[i].code.Wait?)
    && (forall i :: 0 < i < |m.frames| - 1 ==> m.rt.fibers[m.frames[i].fiber.value].state == ACTIVE)
    && m.rt.active == Top(m).fiber
  }

  ghost predicate Inv(m: Machine) {
    && FramesOk(m)
    && (forall g :: 0 <= g < |m.rt.fibers| && !OnFrames(m.frames, g) ==> Parked(m.rt.fibers[g]))
    && (if |m.frames| == 1 then Top(m).code.Run? && m.rt.mode == Normal
        else TopOk(m.rt, Top(m).fiber.value, Top(m).code))
  }

  ghost predicate Parked(fiber: Fiber) {
    fiber.state == YIELDING ==> fiber.stack.Some? && fiber.stack.value.Yield?
  }

  // ---------------------------------------------------------------------------
  // The coroutine a machine state stands for

  ghost function AbsFiber(m: Machine, g: nat): Coroutine
    requires g < |m.rt.fibers|
  {
    var fiber := m.rt.fibers[g];
    if OnFrames(m.frames, g) then Running
    else match fiber.state
      case DONE => Finished
      case ACTIVE => Fresh(fiber.entry)
      case YIELDING =>
        if fiber.stack.Some? && fiber.stack.value.Yield? then Suspended(fiber.stack.value.k) else Finished
  }

  ghost function AbsCode(rt: Runtime, code: Code): SpecCode {
    match code
    case Wait(cont) => Awaits(cont)
    case Run(co) =>
      if HasActive(rt) && rt.mode.Rewinding? && co.Yield? then Runs(co.k(rt.fibers[rt.active.value].arg)) else Runs(co)
    case Enter(arg) =>
      if !HasActive(rt) then Runs(Return(NULL))
      else
        var fiber := rt.fibers[rt.active.value];
        if rt.mode.Rewinding? && fiber.stack.Some? && fiber.stack.value.Yield? then Runs(fiber.stack.value.k(fiber.arg))
        else Runs(fiber.entry(arg))
    case Leave(result) =>
      if HasActive(rt) && rt.mode.Unwinding? && rt.fibers[rt.active.value].stack.Some?
      then Runs(rt.fibers[rt.active.value].stack.value)
      else Runs(Return(result))
  }

  ghost function AbsFrames(rt: Runtime, frames: seq<Frame>): seq<SpecFrame> {
    seq(|frames|, i requires 0 <= i < |frames| => SpecFrame(frames[i].fiber, AbsCode(rt, frames[i].code)))
  }

  ghost function AbsFibers(m: Machine): seq<Coroutine> {
    seq(|m.rt.fibers|, g requires 0 <= g < |m.rt.fibers| => AbsFiber(m, g))
  }

  ghost function Abs(m: Machine): Spec {
    Spec(AbsFibers(m), AbsFrames(m.rt, m.frames), m.log)
  }

  /** Whether the next step is internal to the runtime, and how many such steps can follow. */
  ghost predicate Internal(m: Machine)
    requires m.frames != []
  {
    match Top(m).code
    case Enter(_) => true
    case Run(co) => |m.frames| > 1 && (co.Yield? || co.Return?)
    case _ => false
  }

  ghost function Rank(m: Machine): nat
    requires m.frames != []
  {
    match Top(m).code
    case Enter(_) => 3
    case Run(_) => if m.rt.mode.Rewinding? then 2 else 1
    case _ => 0
  }

  // ---------------------------------------------------------------------------
  // Preservation and refinement

  lemma SameFibersOnFrames(a: seq<Frame>, b: seq<Frame>)
    requires |a| == |b| && forall i :: 0 <= i < |a| ==> a[i].fiber == b[i].fiber
    ensures forall g :: OnFrames(a, g) <==> OnFrames(b, g)
  {
  }

  /** A step that changes only the top frame's code and the top fiber. */
  lemma TopStep(m: Machine, m': Machine, code: Code)
    requires Inv(m) && |m.frames| > 1 && m'.frames == SetTop(m, code).frames
    requires m'.rt.active == m.rt.active && |m'.rt.fibers| == |m.rt.fibers|
    requires forall g :: 0 <= g < |m.rt.fibers| && Some(g) != Top(m).fiber ==> m'.rt.fibers[g] == m.rt.fibers[g]
    requires TopOk(m'.rt, Top(m).fiber.value, code)
    ensures Inv(m') && AbsFibers(m') == AbsFibers(m)
    ensures AbsFrames(m'.rt, m'.frames) ==
      AbsFrames(m.rt, m.frames)[|m.frames| - 1 := SpecFrame(Top(m).fiber, AbsCode(m'.rt, code))]
  {
    hide AbsFibers, AbsFrames, AbsCode, OnFrames, Parked;
    TopStepFrames(m, m', code);
    SameFibersOnFrames(m.frames, m'.frames);
    TopStepFibers(m, m', code);
    TopStepAbs(m.rt, m'.rt, m.frames, m'.frames, code);
  }

  lemma PrevKept(frames: seq<Frame>, frames': seq<Frame>)
    requires |frames'| <= |frames| && forall i: nat :: 0 < i < |frames| ==> PrevOk(frames, i)
    requires forall i :: 0 <= i < |frames'| ==> frames'[i].fiber == frames[i].fiber && frames'[i].prev == frames[i].prev
    ensures forall i: nat :: 0 < i < |frames'| ==> PrevOk(frames', i)
  {
    forall i: nat | 0 < i < |frames'| ensures PrevOk(frames', i) {
      assert PrevOk(frames, i);
    }
  }

  lemma TopStepFrames(m: Machine, m': Machine, code: Code)
    requires FramesOk(m) && |m.frames| > 1 && m'.frames == SetTop(m, code).frames
    requires m'.rt.active == m.rt.active && |m'.rt.fibers| >= |m.rt.fibers|
    requires forall g :: 0 <= g < |m.rt.fibers| && Some(g) != Top(m).fiber ==> m'.rt.fibers[g] == m.rt.fibers[g]
    ensures FramesOk(m')
  {
    PrevKept(m.frames, m'.frames);
  }

  lemma TopStepFibers(m: Machine, m': Machine, code: Code)
    requires Inv(m) && |m.frames| > 1 && m'.frames == SetTop(m, code).frames && |m'.rt.fibers| == |m.rt.fibers|
    requires forall g :: 0 <= g < |m.rt.fibers| && Some(g) != Top(m).fiber ==> m'.rt.fibers[g] == m.rt.fibers[g]
    requires forall g :: OnFrames(m.frames, g) <==> OnFrames(m'.frames, g)
    ensures AbsFibers(m') == AbsFibers(m)
    ensures forall g :: 0 <= g < |m'.rt.fibers| && !OnFrames(m'.frames, g) ==> Parked(m'.rt.fibers[g])
  {
    assert OnFrames(m.frames, Top(m).fiber.value);
  }

  /** Waiting frames stand for the same thing whatever the runtime's state. */
  lemma TopStepAbs(rt: Runtime, rt': Runtime, frames: seq<Frame>, frames': seq<Frame>, code: Code)
    requires frames != [] && |frames'| == |frames|
    requires forall i :: 0 <= i < |frames| - 1 ==> frames[i].code.Wait? && frames'[i] == frames[i]
    requires frames'[|frames| - 1] == frames[|frames| - 1].(code := code)
    ensures AbsFrames(rt', frames') ==
      AbsFrames(rt, frames)[|frames| - 1 := SpecFrame(frames[|frames| - 1].fiber, AbsCode(rt', code))]
  {
  }

  /** An internal step: the top frame moves on, what it stands for does not change. */
  lemma StutterStep(m: Machine, m': Machine, code: Code)
    requires Inv(m) && |m.frames| > 1 && m'.frames == SetTop(m, code).frames && m'.log == m.log
    requires m'.rt.active == m.rt.active && |m'.rt.fibers| == |m.rt.fibers|
    requires forall g :: 0 <= g < |m.rt.fibers| && Some(g) != Top(m).fiber ==> m'.rt.fibers[g] == m.rt.fibers[g]
    requires TopOk(m'.rt, Top(m).fiber.value, code) && AbsCode(m'.rt, code) == AbsCode(m.rt, Top(m).code)
    ensures Inv(m') && Abs(m') == Abs(m)
  {
    TopStep(m, m', code);
    var n := |m.frames| - 1;
    assert AbsFrames(m.rt, m.frames)[n] == SpecFrame(Top(m).fiber, AbsCode(m.rt, Top(m).code));
  }

  lemma EnterRefines(m: Machine)
    requires Inv(m) && Top(m).code.Enter?
    ensures Inv(Step(m)) && Abs(Step(m)) == Abs(m) && Rank(Step(m)) < Rank(m)
  {
    var fiber := m.rt.fibers[Top(m).fiber.value];
    var code := Run(if m.rt.mode.Rewinding? then fiber.stack.value else fiber.entry(Top(m).code.arg));
    assert Step(m) == SetTop(m, code);
    StutterStep(m, SetTop(m, code), code);
  }

  lemma ReturnRefines(m: Machine)
    requires Inv(m) && |m.frames| > 1 && Top(m).code.Run? && Top(m).code.co.Return?
    ensures Inv(Step(m)) && Abs(Step(m)) == Abs(m) && Rank(Step(m)) < Rank(m)
  {
    var code := Leave(Top(m).code.co.v);
    StutterStep(m, SetTop(m, code), code);
  }

  lemma YieldRefines(m: Machine)
    requires Inv(m) && |m.frames| > 1 && Top(m).code.Run? && Top(m).code.co.Yield?
    ensures Inv(Step(m)) && Abs(Step(m)) == Abs(m) && Rank(Step(m)) < Rank(m)
  {
    var f, co := Top(m).fiber.value, Top(m).code.co;
    var fiber := m.rt.fibers[f];
    var m' := YieldStep(m, co);
    if fiber.state == YIELDING {
      StutterStep(m, m', Run(co.k(fiber.arg)));
    } else {
      StutterStep(m, m', Leave(NULL));
    }
  }

  lemma InternalStep(m: Machine)
    requires Inv(m) && Internal(m)
    ensures Inv(Step(m)) && Abs(Step(m)) == Abs(m) && Rank(Step(m)) < Rank(m)
  {
    if Top(m).code.Enter? {
      EnterRefines(m);
    } else if Top(m).code.co.Return? {
      ReturnRefines(m);
    } else {
      YieldRefines(m);
    }
  }

  /** User code moves on in normal mode, possibly after allocating fibers. */
  lemma UserStep(m: Machine, m': Machine, co: Co)
    requires Inv(m) && Top(m).code.Run? && m.rt.mode == Normal && m'.frames == SetTop(m, Run(co)).frames
    requires m'.rt.active == m.rt.active && m'.rt.mode == Normal && m.rt.fibers <= m'.rt.fibers
    requires forall g :: |m.rt.fibers| <= g < |m'.rt.fibers| ==> m'.rt.fibers[g].state == ACTIVE
    ensures Inv(m') && AbsFrames(m'.rt, m'.frames) ==
      AbsFrames(m.rt, m.frames)[|m.frames| - 1 := SpecFrame(Top(m).fiber, Runs(co))]
    ensures |AbsFibers(m')| == |m'.rt.fibers|
    ensures forall g :: 0 <= g < |m.rt.fibers| ==> AbsFibers(m')[g] == AbsFibers(m)[g]
    ensures forall g :: |m.rt.fibers| <= g < |m'.rt.fibers| ==> AbsFibers(m')[g] == Fresh(m'.rt.fibers[g].entry)
  {
    hide AbsFibers, AbsFrames, OnFrames, Parked;
    UserStepFrames(m, m', co);
    SameFibersOnFrames(m.frames, m'.frames);
    UserStepFibers(m, m', co);
    TopStepAbs(m.rt, m'.rt, m.frames, m'.frames, Run(co));
  }

  lemma UserStepFrames(m: Machine, m': Machine, co: Co)
    requires FramesOk(m) && m'.frames == SetTop(m, Run(co)).frames
    requires m'.rt.active == m.rt.active && m.rt.fibers <= m'.rt.fibers
    ensures FramesOk(m')
  {
    PrevKept(m.frames, m'.frames);
  }

  lemma UserStepFibers(m: Machine, m': Machine, co: Co)
    requires Inv(m) && m'.frames == SetTop(m, Run(co)).frames && m.rt.fibers <= m'.rt.fibers
    requires forall g :: |m.rt.fibers| <= g < |m'.rt.fibers| ==> m'.rt.fibers[g].state == ACTIVE
    requires forall g :: OnFrames(m.frames, g) <==> OnFrames(m'.frames, g)
    ensures forall g :: 0 <= g < |m'.rt.fibers| && !OnFrames(m'.frames, g) ==> Parked(m'.rt.fibers[g])
    ensures |AbsFibers(m')| == |m'.rt.fibers|
    ensures forall g :: 0 <= g < |m.rt.fibers| ==> AbsFibers(m')[g] == AbsFibers(m)[g]
    ensures forall g :: |m.rt.fibers| <= g < |m'.rt.fibers| ==> AbsFibers(m')[g] == Fresh(m'.rt.fibers[g].entry)
  {
    forall g | |m.rt.fibers| <= g < |m'.rt.fibers| ensures !OnFrames(m'.frames, g) {
      assert !OnFrames(m.frames, g);
    }
  }

  lemma TopIsRun(m: Machine)
    requires Inv(m) && Top(m).code.Run? && m.rt.mode == Normal
    ensures Abs(m).frames != [] && Abs(m).frames[|m.frames| - 1] == SpecFrame(Top(m).fiber, Runs(Top(m).code.co))
  {
  }

  lemma UseRefines(m: Machine)
    requires Inv(m) && Top(m).code.Run? && Top(m).code.co.Use?
    ensures Inv(Step(m)) && Abs(Step(m)) == SpecStep(Abs(m))
  {
    TopIsRun(m);
    var s, n := Abs(m), |m.frames| - 1;
    UserStep(m, Step(m), Top(m).code.co.rest);
    assert AbsFibers(Step(m)) == AbsFibers(m);
    assert Abs(Step(m)).frames == s.frames[..n] + [s.frames[n].(code := Runs(Top(m).code.co.rest))];
  }

  lemma AllocRefines(m: Machine)
    requires Inv(m) && Top(m).code.Run? && Top(m).code.co.Alloc?
    ensures Inv(Step(m)) && Abs(Step(m)) == SpecStep(Abs(m))
  {
    TopIsRun(m);
    var m' := Step(m);
    var s, n, co := Abs(m), |m.frames| - 1, Top(m).code.co;
    var co' := co.next(|m.rt.fibers|);
    AllocStep(m, m', co.entry, co');
    assert m'.log == m.log;
    assert SpecStep(s).fibers == s.fibers + [Fresh(co.entry)];
    assert SpecStep(s).frames == s.frames[..n] + [s.frames[n].(code := Runs(co'))];
  }

  lemma AllocStep(m: Machine, m': Machine, entry: Value -> Co, co': Co)
    requires Inv(m) && Top(m).code.Run? && m.rt.mode == Normal && m'.frames == SetTop(m, Run(co')).frames
    requires m'.rt == m.rt.(fibers := m.rt.fibers + [Fiber(ACTIVE, NULL, entry, None)])
    ensures Inv(m') && AbsFibers(m') == AbsFibers(m) + [Fresh(entry)]
    ensures var n, fs := |m.frames| - 1, AbsFrames(m.rt, m.frames);
      AbsFrames(m'.rt, m'.frames) == fs[..n] + [fs[n].(code := Runs(co'))]
  {
    UserStep(m, m', co');
    assert AbsFibers(m') == AbsFibers(m) + [Fresh(entry)];
  }

  lemma ResumeDoneRefines(m: Machine, g: nat, arg: Value, cont: (Value, Status) -> Co)
    requires Inv(m) && Top(m).code == Run(Resume(g, arg, cont))
    requires g < |m.rt.fibers| && !OnFrames(m.frames, g) && m.rt.fibers[g].state == DONE
    ensures Inv(Step(m)) && Abs(Step(m)) == SpecStep(Abs(m))
  {
    TopIsRun(m);
    var s, n := Abs(m), |m.frames| - 1;
    UserStep(m, Step(m), cont(NULL, Error));
    assert AbsFibers(Step(m)) == AbsFibers(m);
    assert s.fibers[g] == Finished;
    assert Abs(Step(m)).frames == s.frames[..n] + [s.frames[n].(code := Runs(cont(NULL, Error)))];
  }

  lemma OnFramesPush(frames: seq<Frame>, frames': seq<Frame>, g: nat)
    requires |frames'| == |frames| + 1 && frames'[|frames|].fiber == Some(g)
    requires forall i :: 0 <= i < |frames| ==> frames'[i].fiber == frames[i].fiber
    ensures forall h: nat :: OnFrames(frames', h) <==> h == g || OnFrames(frames, h)
  {
    forall h: nat ensures OnFrames(frames', h) <==> h == g || OnFrames(frames, h) {
      if OnFrames(frames, h) {
        var i :| 0 <= i < |frames| && frames[i].fiber == Some(h);
        assert frames'[i].fiber == Some(h);
      }
    }
  }

  /** The state of `m` after `fiber_resume` has called the entry function of `g`. */
  ghost predicate Entered(m: Machine, m': Machine, g: nat, arg: Value, cont: (Value, Status) -> Co) {
    && m.frames != [] && g < |m.rt.fibers|
    && m'.rt == EnterEffect(m.rt, g, arg) && m'.log == m.log
    && var n := |m.frames| - 1;
       && |m'.frames| == n + 2
       && (forall i :: 0 <= i < n ==> m'.frames[i] == m.frames[i])
       && m'.frames[n] == m.frames[n].(code := Wait(cont))
       && m'.frames[n + 1] == Frame(Some(g), m.rt.active, Enter(arg))
  }

  lemma ResumeEnterFrames(m: Machine, m': Machine, g: nat, arg: Value, cont: (Value, Status) -> Co)
    requires FramesOk(m) && Entered(m, m', g, arg, cont) && !OnFrames(m.frames, g)
    requires |m.frames| > 1 ==> m.rt.fibers[Top(m).fiber.value].state == ACTIVE
    ensures FramesOk(m')
  {
    hide EnterEffect, OnFrames;
    EnterEffectOthers(m.rt, g, arg);
    PushedDistinct(m.frames, m'.frames, g);
    PushedLinks(m.frames, m'.frames, m.rt.active, |m.rt.fibers|);
    PushedActive(m, m', g);
    PushedWaits(m.frames, m'.frames, cont);
  }

  lemma PushedWaits(frames: seq<Frame>, frames': seq<Frame>, cont: (Value, Status) -> Co)
    requires frames != [] && |frames'| == |frames| + 1 && frames'[|frames| - 1].code == Wait(cont)
    requires forall i :: 0 <= i < |frames| - 1 ==> frames'[i] == frames[i] && frames[i].code.Wait?
    ensures forall i :: 0 <= i < |frames'| - 1 ==> frames'[i].code.Wait?
  {
  }

  lemma PushedDistinct(frames: seq<Frame>, frames': seq<Frame>, g: nat)
    requires |frames'| == |frames| + 1 && frames'[|frames|].fiber == Some(g) && !OnFrames(frames, g)
    requires forall i :: 0 <= i < |frames| ==> frames'[i].fiber == frames[i].fiber
    requires forall i, j :: 0 <= i < j < |frames| ==> frames[i].fiber != frames[j].fiber
    ensures forall i, j :: 0 <= i < j < |frames'| ==> frames'[i].fiber != frames'[j].fiber
  {
  }

  lemma PushedLinks(frames: seq<Frame>, frames': seq<Frame>, active: Option<nat>, n: nat)
    requires frames != [] && |frames'| == |frames| + 1 && frames'[|frames|].prev == active == frames[|frames| - 1].fiber
    requires frames'[|frames|].fiber.Some? && frames'[|frames|].fiber.value < n
    requires forall i :: 0 <= i < |frames| ==> frames'[i].fiber == frames[i].fiber && frames'[i].prev == frames[i].prev
    requires forall i :: 0 < i < |frames| ==> frames[i].fiber.Some? && frames[i].fiber.value < n
    requires forall i: nat :: 0 < i < |frames| ==> PrevOk(frames, i)
    ensures forall i :: 0 < i < |frames'| ==> frames'[i].fiber.Some? && frames'[i].fiber.value < n
    ensures forall i: nat :: 0 < i < |frames'| ==> PrevOk(frames', i)
  {
    forall i: nat | 0 < i < |frames'| ensures PrevOk(frames', i) {
      assert i < |frames| ==> PrevOk(frames, i);
    }
  }

  lemma PushedActive(m: Machine, m': Machine, g: nat)
    requires FramesOk(m) && |m'.frames| == |m.frames| + 1 && |m'.rt.fibers| == |m.rt.fibers| && !OnFrames(m.frames, g)
    requires forall i :: 0 <= i < |m.frames| ==> m'.frames[i].fiber == m.frames[i].fiber
    requires forall h :: 0 <= h < |m.rt.fibers| && h != g ==> m'.rt.fibers[h] == m.rt.fibers[h]
    requires |m.frames| > 1 ==> m.rt.fibers[Top(m).fiber.value].state == ACTIVE
    ensures forall i :: 0 < i < |m.frames| ==> m'.rt.fibers[m'.frames[i].fiber.value].state == ACTIVE
  {
    forall i | 0 < i < |m.frames| ensures m'.rt.fibers[m'.frames[i].fiber.value].state == ACTIVE {
      assert m.frames[i].fiber != Some(g);
      assert m.rt.fibers[m.frames[i].fiber.value].state == ACTIVE;
    }
  }

  lemma EnterEffectOthers(rt: Runtime, g: nat, arg: Value)
    requires g < |rt.fibers|
    ensures var rt' := EnterEffect(rt, g, arg);
      |rt'.fibers| == |rt.fibers| && rt'.active == Some(g)
        && forall h :: 0 <= h < |rt.fibers| && h != g ==> rt'.fibers[h] == rt.fibers[h]
  {
  }

  lemma ResumeEnterInv(m: Machine, m': Machine, g: nat, arg: Value, cont: (Value, Status) -> Co)
    requires Inv(m) && Top(m).code == Run(Resume(g, arg, cont)) && Entered(m, m', g, arg, cont)
    requires !OnFrames(m.frames, g) && m.rt.fibers[g].state != DONE
    ensures Inv(m') && forall h: nat :: OnFrames(m'.frames, h) <==> h == g || OnFrames(m.frames, h)
  {
    OnFramesPush(m.frames, m'.frames, g);
    ResumeEnterFrames(m, m', g, arg, cont);
    assert Parked(m.rt.fibers[g]);
  }

  lemma ResumeEnterAbs(m: Machine, m': Machine, g: nat, arg: Value, cont: (Value, Status) -> Co)
    requires Inv(m) && Top(m).code == Run(Resume(g, arg, cont)) && Entered(m, m', g, arg, cont)
    requires !OnFrames(m.frames, g) && m.rt.fibers[g].state != DONE
    ensures var s, n, fiber := Abs(m), |m.frames| - 1, m.rt.fibers[g];
      var co := if fiber.state == YIELDING then fiber.stack.value.k(arg) else fiber.entry(arg);
      && AbsFibers(m') == s.fibers[g := Running]
      && AbsFrames(m'.rt, m'.frames) ==
           s.frames[..n] + [s.frames[n].(code := Awaits(cont))] + [SpecFrame(Some(g), Runs(co))]
  {
    OnFramesPush(m.frames, m'.frames, g);
    EnterAbsFibers(m, m', g, arg, cont);
    EnterAbsFrames(m, m', g, arg, cont);
  }

  lemma EnterAbsFibers(m: Machine, m': Machine, g: nat, arg: Value, cont: (Value, Status) -> Co)
    requires Entered(m, m', g, arg, cont)
    requires forall h: nat :: OnFrames(m'.frames, h) <==> h == g || OnFrames(m.frames, h)
    ensures AbsFibers(m') == AbsFibers(m)[g := Running]
  {
    hide OnFrames;
  }

  lemma EnterAbsFrames(m: Machine, m': Machine, g: nat, arg: Value, cont: (Value, Status) -> Co)
    requires Inv(m) && Entered(m, m', g, arg, cont) && !OnFrames(m.frames, g) && m.rt.fibers[g].state != DONE
    requires Top(m).code == Run(Resume(g, arg, cont))
    ensures var n, fiber, frames := |m.frames| - 1, m.rt.fibers[g], AbsFrames(m.rt, m.frames);
      var co := if fiber.state == YIELDING then fiber.stack.value.k(arg) else fiber.entry(arg);
      AbsFrames(m'.rt, m'.frames) == frames[..n] + [frames[n].(code := Awaits(cont))] + [SpecFrame(Some(g), Runs(co))]
  {
    var fiber := m.rt.fibers[g];
    assert Parked(fiber);
    var co := if fiber.state == YIELDING then fiber.stack.value.k(arg) else fiber.entry(arg);
    assert AbsCode(m'.rt, Enter(arg)) == Runs(co);
    hide OnFrames, Inv;
  }

  lemma ResumeEnterRefines(m: Machine, g: nat, arg: Value, cont: (Value, Status) -> Co)
    requires Inv(m) && Top(m).code == Run(Resume(g, arg, cont))
    requires g < |m.rt.fibers| && !OnFrames(m.frames, g) && m.rt.fibers[g].state != DONE
    ensures Inv(Step(m)) && Abs(Step(m)) == SpecStep(Abs(m))
  {
    hide Inv, AbsFibers, AbsFrames, Step, SpecStep, Entered, OnFrames;
    var m' := Step(m);
    StepEnters(m, g, arg, cont);
    ResumeEnterInv(m, m', g, arg, cont);
    ResumeEnterAbs(m, m', g, arg, cont);
    SpecEnters(m, g, arg, cont);
  }

  lemma StepEnters(m: Machine, g: nat, arg: Value, cont: (Value, Status) -> Co)
    requires Inv(m) && Top(m).code == Run(Resume(g, arg, cont))
    requires g < |m.rt.fibers| && !OnFrames(m.frames, g) && m.rt.fibers[g].state != DONE
    ensures Entered(m, Step(m), g, arg, cont) && Step(m).log == m.log
  {
    TopIsRun(m);
  }

  /** The coroutine semantics takes the same step. */
  lemma SpecEnters(m: Machine, g: nat, arg: Value, cont: (Value, Status) -> Co)
    requires Inv(m) && Top(m).code == Run(Resume(g, arg, cont))
    requires g < |m.rt.fibers| && !OnFrames(m.frames, g) && m.rt.fibers[g].state != DONE
    ensures var s, fiber := Abs(m), m.rt.fibers[g];
      var co := if fiber.state == YIELDING then fiber.stack.value.k(arg) else fiber.entry(arg);
      |s.frames| == |m.frames| && s.frames != [] && g < |s.fibers| && SpecStep(s) == SpecEnter(s, g, cont, co)
  {
    TopIsRun(m);
    assert Parked(m.rt.fibers[g]);
    assert Abs(m).fibers[g] == AbsFiber(m, g);
  }

  /** Resuming a fiber that is running or does not exist is stuck in both. */
  lemma ResumeStuck(m: Machine, g: nat, arg: Value, cont: (Value, Status) -> Co)
    requires Inv(m) && Top(m).code == Run(Resume(g, arg, cont)) && (g >= |m.rt.fibers| || OnFrames(m.frames, g))
    ensures Inv(Step(m)) && Abs(Step(m)) == SpecStep(Abs(m))
  {
    TopIsRun(m);
    if g < |m.rt.fibers| {
      assert Abs(m).fibers[g] == Running;
    }
  }

  lemma ResumeRefines(m: Machine)
    requires Inv(m) && Top(m).code.Run? && Top(m).code.co.Resume?
    ensures Inv(Step(m)) && Abs(Step(m)) == SpecStep(Abs(m))
  {
    var Resume(g, arg, cont) := Top(m).code.co;
    hide Inv, Step, SpecStep, AbsFrames, AbsFibers;
    if g >= |m.rt.fibers| || OnFrames(m.frames, g) {
      ResumeStuck(m, g, arg, cont);
    } else if m.rt.fibers[g].state == DONE {
      ResumeDoneRefines(m, g, arg, cont);
    } else {
      ResumeEnterRefines(m, g, arg, cont);
    }
  }

  /** The state of `m` after `fiber_resume` has returned to its caller. */
  ghost predicate Left(m: Machine, m': Machine) {
    && FramesOk(m) && |m.frames| > 1 && Top(m).code.Leave?
    && var n := |m.frames| - 1;
       var (rt, status, v) := LeaveEffect(m.rt, Top(m).fiber.value, Top(m).prev, Top(m).code.result);
       && m'.rt == rt && m'.log == m.log + [Resumed(Top(m).fiber.value, status, v)]
       && |m'.frames| == n
       && (forall i :: 0 <= i < n - 1 ==> m'.frames[i] == m.frames[i])
       && m'.frames[n - 1] == m.frames[n - 1].(code := Run(m.frames[n - 1].code.cont(v, status)))
  }

  lemma LeaveFrames(m: Machine, m': Machine)
    requires Left(m, m')
    ensures FramesOk(m')
    ensures forall h: nat :: OnFrames(m.frames, h) <==> h == Top(m).fiber.value || OnFrames(m'.frames, h)
    ensures !OnFrames(m'.frames, Top(m).fiber.value)
  {
    OnFramesPush(m'.frames, m.frames, Top(m).fiber.value);
    assert PrevOk(m.frames, |m.frames| - 1);
    PrevKept(m.frames, m'.frames);
  }

  lemma LeaveInv(m: Machine, m': Machine)
    requires Inv(m) && Left(m, m')
    ensures Inv(m') && m'.rt.mode == Normal && m'.rt.active == Top(m).prev
  {
    LeaveFrames(m, m');
    var n := |m.frames| - 1;
    if n > 1 {
      assert m.rt.fibers[m.frames[n - 1].fiber.value].state == ACTIVE;
    }
  }

  lemma SpecDelivers(s: Spec, f: nat, co: Co, cont: (Value, Status) -> Co, c: Coroutine, status: Status, v: Value)
    requires |s.frames| > 1 && f < |s.fibers|
    requires s.frames[|s.frames| - 1] == SpecFrame(Some(f), Runs(co)) && s.frames[|s.frames| - 2].code == Awaits(cont)
    requires || (co == Return(v) && status == Ok && c == Finished)
             || (co.Yield? && co.v == v && status == Yielded && c == Suspended(co.k))
    ensures var n := |s.frames| - 1;
      SpecStep(s) == Spec(s.fibers[f := c], s.frames[..n - 1] + [s.frames[n - 1].(code := Runs(cont(v, status)))],
                          s.log + [Resumed(f, status, v)])
  {
  }

  lemma LeaveRefinesAs(m: Machine, m': Machine)
    requires Inv(m) && Left(m, m')
    ensures Inv(m') && Abs(m') == SpecStep(Abs(m))
  {
    var s, n, f := Abs(m), |m.frames| - 1, Top(m).fiber.value;
    var fiber := m.rt.fibers[f];
    LeaveInv(m, m');
    LeaveAbs(m, m');
    assert s.frames[n] == SpecFrame(Some(f), AbsCode(m.rt, Top(m).code));
    assert s.frames[n - 1] == SpecFrame(m.frames[n - 1].fiber, Awaits(m.frames[n - 1].code.cont));
    if fiber.state == YIELDING {
      var co := fiber.stack.value;
      SpecDelivers(s, f, co, m.frames[n - 1].code.cont, Suspended(co.k), Yielded, fiber.arg);
    } else {
      var v := Top(m).code.result;
      SpecDelivers(s, f, Return(v), m.frames[n - 1].code.cont, Finished, Ok, v);
    }
  }

  lemma LeaveRefines(m: Machine)
    requires Inv(m) && Top(m).code.Leave?
    ensures Inv(Step(m)) && Abs(Step(m)) == SpecStep(Abs(m))
  {
    assert Left(m, Step(m));
    LeaveRefinesAs(m, Step(m));
  }

  lemma LeaveAbs(m: Machine, m': Machine)
    requires Inv(m) && Left(m, m')
    ensures var s, n, f := Abs(m), |m.frames| - 1, Top(m).fiber.value;
      var fiber := m.rt.fibers[f];
      var (status, v) := if fiber.state == YIELDING then (Yielded, fiber.arg) else (Ok, Top(m).code.result);
      && AbsFibers(m') == s.fibers[f := if fiber.state == YIELDING then Suspended(fiber.stack.value.k) else Finished]
      && AbsFrames(m'.rt, m'.frames) ==
           s.frames[..n - 1] + [s.frames[n - 1].(code := Runs(m.frames[n - 1].code.cont(v, status)))]
  {
    LeaveFrames(m, m');
    LeaveAbsFibers(m, m');
    LeaveAbsFrames(m, m');
  }

  lemma LeaveAbsFibers(m: Machine, m': Machine)
    requires Inv(m) && Left(m, m') && FramesOk(m')
    requires forall h: nat :: OnFrames(m.frames, h) <==> h == Top(m).fiber.value || OnFrames(m'.frames, h)
    requires !OnFrames(m'.frames, Top(m).fiber.value)
    ensures var f := Top(m).fiber.value;
      var fiber := m.rt.fibers[f];
      AbsFibers(m') == AbsFibers(m)[f := if fiber.state == YIELDING then Suspended(fiber.stack.value.k) else Finished]
  {
    hide OnFrames;
  }

  lemma LeaveAbsFrames(m: Machine, m': Machine)
    requires Inv(m) && Left(m, m')
    ensures var n, fiber := |m.frames| - 1, m.rt.fibers[Top(m).fiber.value];
      var (status, v) := if fiber.state == YIELDING then (Yielded, fiber.arg) else (Ok, Top(m).code.result);
      var frames := AbsFrames(m.rt, m.frames);
      AbsFrames(m'.rt, m'.frames) ==
        frames[..n - 1] + [frames[n - 1].(code := Runs(m.frames[n - 1].code.cont(v, status)))]
  {
    hide OnFrames;
  }

  /** Every step of the flag-driven code keeps the invariant and is either internal or exactly
      one step of the direct-style coroutines. */
  lemma StepRefines(m: Machine)
    requires Inv(m)
    ensures Inv(Step(m))
    ensures if Internal(m) then Abs(Step(m)) == Abs(m) && Rank(Step(m)) < Rank(m)
            else Abs(Step(m)) == SpecStep(Abs(m))
  {
    if Internal(m) {
      InternalStep(m);
    } else if Top(m).code.Leave? {
      LeaveRefines(m);
    } else {
      TopIsRun(m);
      match Top(m).code.co
      case Use(_, _) => UseRefines(m);
      case Alloc(_, _) => AllocRefines(m);
      case Resume(_, _, _) => ResumeRefines(m);
      case _ =>
    }
  }

  lemma {:induction false} InitRefines(main: Co)
    ensures Inv(Init(main)) && Abs(Init(main)) == SpecRun(main, 0)
  {
    var m := Init(main);
    assert AbsFrames(m.rt, m.frames) == [SpecFrame(None, Runs(main))];
    assert AbsFibers(m) == [];
  }

  ghost predicate Matches(main: Co, m: Machine, j: nat) {
    Inv(m) && Abs(m) == SpecRun(main, j)
  }

  lemma MatchStep(main: Co, m: Machine, j: nat) returns (j': nat)
    requires Matches(main, m, j)
    ensures Matches(main, Step(m), j')
  {
    StepRefines(m);
    if Internal(m) {
      j' := j;
    } else {
      j' := j + 1;
      MatchNext(main, Abs(m), Abs(Step(m)), j);
    }
  }

  lemma MatchNext(main: Co, s: Spec, s': Spec, j: nat)
    requires s == SpecRun(main, j) && s' == SpecStep(s)
    ensures s' == SpecRun(main, j + 1)
  {
  }

  /** Everything the flag-driven code does is done by the coroutines: after any number of
      steps its state stands for a state of the direct-style run with the same events. */
  lemma {:induction false} Soundness(main: Co, n: nat) returns (j: nat)
    ensures Matches(main, MachineRun(main, n), j)
  {
    if n == 0 {
      InitRefines(main);
      j := 0;
    } else {
      j := Soundness(main, n - 1);
      j := MatchStep(main, MachineRun(main, n - 1), j);
    }
  }

  /** Everything the coroutines do is done by the flag-driven code. */
  lemma {:induction false} Completeness(main: Co, j: nat) returns (n: nat)
    ensures Inv(MachineRun(main, n)) && Abs(MachineRun(main, n)) == SpecRun(main, j)
  {
    hide Inv, Abs, Step, SpecStep;
    if j == 0 {
      InitRefines(main);
      n := 0;
    } else {
      n := Completeness(main, j - 1);
      n := SkipInternal(main, n);
      StepRefines(MachineRun(main, n));
      n := n + 1;
    }
  }

  lemma {:induction false} SkipInternal(main: Co, n: nat) returns (k: nat)
    requires Inv(MachineRun(main, n))
    ensures Inv(MachineRun(main, k)) && !Internal(MachineRun(main, k))
    ensures Abs(MachineRun(main, k)) == Abs(MachineRun(main, n))
    decreases Rank(MachineRun(main, n))
  {
    k := n;
    if Internal(MachineRun(main, n)) {
      StepRefines(MachineRun(main, n));
      assert MachineRun(main, n + 1) == Step(MachineRun(main, n));
      k := SkipInternal(main, n + 1);
    }
  }

  /** Whenever user code runs, `active_fiber` is the fiber that code belongs to, and asyncify is in
      normal mode unless the code is being rewound to the yield it stopped at. */
  lemma UserCodeSeesOwnFiber(main: Co, n: nat)
    ensures var m := MachineRun(main, n);
      && m.frames != [] && m.rt.active == Top(m).fiber
      && (Top(m).code.Run? ==> m.rt.mode == Normal || (m.rt.mode.Rewinding? && Top(m).code.co.Yield?))
  {
    var j := Soundness(main, n);
  }
}
