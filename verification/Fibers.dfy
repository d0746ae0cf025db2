/** The fiber interface over asyncify: a fiber's entry function is run again on every resume
    and rewinds to the yield it was suspended at. The flag-driven code is compared with
    direct-style coroutines. */
module Fibers {
  import opened Options

  /** A `void*` payload; null is 0. */
  type Value = int
  const NULL: Value := 0

  datatype Status = Ok | Yielded | Error

  /** Code in direct style, as the compiler sees it before asyncify instruments it. `Use` is
      an observable effect, `Resume` a call of `fiber_resume`, `Alloc` of `fiber_alloc`. */
  datatype Co =
    | Return(v: Value)
    | Yield(v: Value, k: Value -> Co)
    | Resume(fiber: nat, arg: Value, cont: (Value, Status) -> Co)
    | Alloc(entry: Value -> Co, next: nat -> Co)
    | Use(kb: Value, rest: Co)

  datatype Event = Used(kb: Value) | Resumed(fiber: nat, status: Status, v: Value)

  // ---------------------------------------------------------------------------
  // Direct-style coroutines

  datatype Coroutine = Fresh(entry: Value -> Co) | Suspended(k: Value -> Co) | Running | Finished

  datatype SpecFrame = SpecFrame(fiber: Option<nat>, code: SpecCode)
  datatype SpecCode = Runs(co: Co) | Awaits(cont: (Value, Status) -> Co)

  /** Frame 0 is the main program. */
  datatype Spec = Spec(fibers: seq<Coroutine>, frames: seq<SpecFrame>, log: seq<Event>)

  ghost function Deliver(s: Spec, c: Coroutine, status: Status, v: Value): Spec
    requires |s.frames| > 1
  {
    var n := |s.frames| - 1;
    match (s.frames[n].fiber, s.frames[n - 1].code)
    case (Some(f), Awaits(cont)) =>
      if f >= |s.fibers| then s
      else Spec(s.fibers[f := c],
                s.frames[..n - 1] + [s.frames[n - 1].(code := Runs(cont(v, status)))],
                s.log + [Resumed(f, status, v)])
    case _ => s
  }

  ghost function SpecResume(s: Spec, g: nat, arg: Value, cont: (Value, Status) -> Co): Spec
    requires s.frames != []
  {
    var n := |s.frames| - 1;
    var caller := s.frames[n];
    if g >= |s.fibers| then s
    else match s.fibers[g]
      case Running => s
      case Finished => s.(frames := s.frames[..n] + [caller.(code := Runs(cont(NULL, Error)))],
                          log := s.log + [Resumed(g, Error, NULL)])
      case Fresh(entry) => SpecEnter(s, g, cont, entry(arg))
      case Suspended(k) => SpecEnter(s, g, cont, k(arg))
  }

  ghost function SpecEnter(s: Spec, g: nat, cont: (Value, Status) -> Co, co: Co): Spec
    requires s.frames != [] && g < |s.fibers|
  {
    var n := |s.frames| - 1;
    Spec(s.fibers[g := Running],
         s.frames[..n] + [s.frames[n].(code := Awaits(cont))] + [SpecFrame(Some(g), Runs(co))], s.log)
  }

  /** One step; a program that yields outside a fiber, resumes a fiber that is running or
      does not exist, or has ended, stays where it is. */
  ghost function SpecStep(s: Spec): Spec {
    if s.frames == [] then s
    else
      var n := |s.frames| - 1;
      match s.frames[n].code
      case Awaits(_) => s
      case Runs(co) =>
        match co
        case Return(v) => if n == 0 then s else Deliver(s, Finished, Ok, v)
        case Yield(v, k) => if n == 0 then s else Deliver(s, Suspended(k), Yielded, v)
        case Resume(g, arg, cont) => SpecResume(s, g, arg, cont)
        case Alloc(entry, next) =>
          s.(fibers := s.fibers + [Fresh(entry)],
             frames := s.frames[..n] + [s.frames[n].(code := Runs(next(|s.fibers|)))])
        case Use(kb, rest) =>
          s.(frames := s.frames[..n] + [s.frames[n].(code := Runs(rest))], log := s.log + [Used(kb)])
  }

  ghost function SpecRun(main: Co, n: nat): Spec {
    if n == 0 then Spec([], [SpecFrame(None, Runs(main))], []) else SpecStep(SpecRun(main, n - 1))
  }

  // ---------------------------------------------------------------------------
  // The flag-driven runtime

  datatype FiberState = ACTIVE | YIELDING | DONE

  /** The mode of the instrumented program: normal execution, or capturing or reinstating
      the continuation of a fiber. */
  datatype Mode = Normal | Unwinding(fiber: nat) | Rewinding(fiber: nat)

  /** `stack` is what asyncify captured: the code suspended at its call of `fiber_yield`. */
  datatype Fiber = Fiber(state: FiberState, arg: Value, entry: Value -> Co, stack: Option<Co>)

  datatype Runtime = Runtime(active: Option<nat>, mode: Mode, fibers: seq<Fiber>)

  ghost predicate HasActive(r: Runtime) {
    r.active.Some? && r.active.value < |r.fibers|
  }

  /** `fiber_yield`: the runtime afterwards and, unless it unwinds, the value returned. */
  ghost function YieldEffect(r: Runtime, arg: Value): (Runtime, Option<Value>)
    requires HasActive(r)
  {
    var f := r.active.value;
    var fiber := r.fibers[f];
    if fiber.state == YIELDING then
      (r.(mode := Normal, fibers := r.fibers[f := fiber.(state := ACTIVE)]), Some(fiber.arg))
    else
      (r.(mode := Unwinding(f), fibers := r.fibers[f := fiber.(arg := arg, state := YIELDING)]), None)
  }

  /** `fiber_resume` up to the call of the entry function, for a fiber that is not done. */
  ghost function EnterEffect(r: Runtime, f: nat, arg: Value): Runtime
    requires f < |r.fibers|
  {
    var fiber := r.fibers[f];
    if fiber.state == YIELDING then
      r.(active := Some(f), mode := Rewinding(f), fibers := r.fibers[f := fiber.(arg := arg)])
    else r.(active := Some(f))
  }

  /** `fiber_resume` after the entry function returned `result`. */
  ghost function LeaveEffect(r: Runtime, f: nat, prev: Option<nat>, result: Value): (Runtime, Status, Value)
    requires f < |r.fibers|
  {
    var fiber := r.fibers[f];
    if fiber.state == YIELDING then (r.(mode := Normal, active := prev), Yielded, fiber.arg)
    else (r.(mode := Normal, active := prev, fibers := r.fibers[f := fiber.(state := DONE)]), Ok, result)
  }

  /** The C code, statement by statement. */
  class FiberRuntime {
    var activeFiber: Option<nat>
    var mode: Mode
    var fibers: seq<Fiber>

    ghost function View(): Runtime
      reads this
    {
      Runtime(activeFiber, mode, fibers)
    }

    constructor ()
      ensures View() == Runtime(None, Normal, [])
    {
      activeFiber, mode, fibers := None, Normal, [];
    }

    method FiberAlloc(entry: Value -> Co) returns (f: nat)
      modifies this
      ensures f == |old(fibers)|
      ensures View() == old(View()).(fibers := old(fibers) + [Fiber(ACTIVE, NULL, entry, None)])
    {
      f := |fibers|;
      fibers := fibers + [Fiber(ACTIVE, NULL, entry, None)];
    }

    method FiberYield(arg: Value) returns (r: Value)
      requires HasActive(View())
      modifies this
      ensures View() == YieldEffect(old(View()), arg).0
      ensures YieldEffect(old(View()), arg).1.Some? ==> r == YieldEffect(old(View()), arg).1.value
    {
      var f := activeFiber.value;
      if fibers[f].state == YIELDING {
        mode := Normal; // asyncify_stop_rewind
        fibers := fibers[f := fibers[f].(state := ACTIVE)];
        return fibers[f].arg;
      } else {
        fibers := fibers[f := fibers[f].(arg := arg)];
        fibers := fibers[f := fibers[f].(state := YIELDING)];
        mode := Unwinding(f); // asyncify_start_unwind
        return NULL;
      }
    }

    method ResumeEnter(f: nat, arg: Value) returns (done: bool, prev: Option<nat>)
      requires f < |fibers|
      modifies this
      ensures done <==> old(fibers[f]).state == DONE
      ensures !done ==> prev == old(activeFiber) && View() == EnterEffect(old(View()), f, arg)
      ensures done ==> View() == old(View())
    {
      done, prev := fibers[f].state == DONE, activeFiber;
      if done {
        return;
      }
      activeFiber := Some(f);
      if fibers[f].state == YIELDING {
        fibers := fibers[f := fibers[f].(arg := arg)];
        mode := Rewinding(f); // asyncify_start_rewind
      }
    }

    method ResumeLeave(f: nat, prev: Option<nat>, fiberResult: Value) returns (status: Status, r: Value)
      requires f < |fibers|
      modifies this
      ensures (View(), status, r) == LeaveEffect(old(View()), f, prev, fiberResult)
    {
      mode := Normal; // asyncify_stop_unwind
      if fibers[f].state != YIELDING {
        fibers := fibers[f := fibers[f].(state := DONE)];
      }
      activeFiber := prev;
      status := if fibers[f].state == YIELDING then Yielded else Ok;
      r := if fibers[f].state == YIELDING then fibers[f].arg else fiberResult;
    }
  }
}
