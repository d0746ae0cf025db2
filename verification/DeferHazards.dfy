/** When the emitted defer code is well defined. Drains are compiled inline, so a drain has
    switch cases only for the defer statements compiled before it; and only direct calls and
    ordinary calls set the checkpoint that a panic jumps to, while other deferred calls and
    printing an interface value can panic as well. These gaps are described by a condition on
    paths through the block graph. */
module DeferHazards {
  import opened Graphs
  import opened DeferEmission
  import opened DeferMachine

  /** What panic-free execution of straight-line code leaves behind. */
  datatype Effect = Effect(pending: seq<Callee>, armed: bool)

  ghost predicate HasDirect(cs: seq<Callee>) {
    exists k :: 0 <= k < |cs| && cs[k].Direct?
  }

  ghost function Advance(e: Effect, x: Instr): Effect {
    match x
    case Plain => e
    case Call => e.(armed := true)
    case Print => e
    case Defer(c) => e.(pending := e.pending + [c])
    case RunDefers => Effect([], e.armed || HasDirect(e.pending))
  }

  ghost function EffectOf(code: seq<Instr>): Effect {
    if code == [] then Effect([], false)
    else Advance(EffectOf(code[..|code| - 1]), code[|code| - 1])
  }

  /** The instructions executed on the way along `trail` to instruction `i` of its last block. */
  function PathCode(f: Func, trail: seq<nat>, i: nat): seq<Instr>
    requires trail != [] && trail[|trail| - 1] < |f.code| && i <= |f.code[trail[|trail| - 1]]|
  {
    Flatten(f, trail[..|trail| - 1]) + f.code[trail[|trail| - 1]][..i]
  }

  /** A deferred call that can panic although it sets no checkpoint. */
  predicate Risky(c: Callee) {
    c.MayPanic() && !c.Direct?
  }

  /** Pending call `k` is risky and no call started before it by a drain sets a checkpoint. */
  ghost predicate ExposedAt(pending: seq<Callee>, k: nat) {
    k < |pending| && Risky(pending[k]) && !HasDirect(pending[k + 1..])
  }

  ghost predicate Exposed(pending: seq<Callee>) {
    exists k: nat :: ExposedAt(pending, k)
  }

  /** A path from the entry reaches a drain that lacks a switch case for a pending call or, with
      no checkpoint set before, a drain in which a risky call comes before every direct one, or
      the printing of an interface value. */
  ghost predicate Hazard(f: Func, trail: seq<nat>, i: nat) {
    && IsPath(f.preds, trail) && trail[0] == 0
    && var b := trail[|trail| - 1];
       && b < |f.code| && i < |f.code[b]|
       && HazardHere(f, b, i, EffectOf(PathCode(f, trail, i)))
  }

  ghost predicate HazardHere(f: Func, b: nat, i: nat, e: Effect)
    requires b < |f.code| && i < |f.code[b]|
  {
    match f.code[b][i]
    case RunDefers => Unlisted(f, b, i, e.pending) || (f.frame && !e.armed && Exposed(e.pending))
    case Print => f.frame && !e.armed
    case _ => false
  }

  ghost predicate Unlisted(f: Func, b: nat, i: nat, pending: seq<Callee>)
    requires IsRunDefers(f, b, i)
  {
    exists k :: 0 <= k < |pending| && pending[k] !in TableAt(f, b, i)
  }

  function Callees(stack: seq<Deferred>): seq<Callee> {
    seq(|stack|, i requires 0 <= i < |stack| => stack[i].Callee())
  }

  /** The machine state agrees with the path taken, as long as nothing has panicked. */
  ghost predicate Tracks(f: Func, c: Concrete, s: Spec) {
    && ((s.pc.Drain? || s.pc.InCall?) && s.pc.k.ToRecover? ==> c.armed)
    && (Current(s.pc).At? && Current(s.pc).block != f.recover ==> TracksPath(f, c, s))
  }

  ghost predicate TracksPath(f: Func, c: Concrete, s: Spec) {
    OnPath(f, s) && Agrees(Here(f, s), s.stack, c.armed, s.pc)
  }

  ghost predicate Agrees(e: Effect, stack: seq<Deferred>, armed: bool, pc: Pc) {
    && Callees(stack) <= e.pending
    && (armed <==> e.armed || HasDirect(e.pending[|stack|..]))
    && (pc.At? ==> |stack| == |e.pending|)
    && (pc.InCall? ==> |stack| < |e.pending| && pc.mayPanic == e.pending[|stack|].MayPanic())
  }

  lemma PathCodeStep(f: Func, trail: seq<nat>, i: nat)
    requires trail != [] && trail[|trail| - 1] < |f.code| && i < |f.code[trail[|trail| - 1]]|
    ensures EffectOf(PathCode(f, trail, i + 1)) ==
      Advance(EffectOf(PathCode(f, trail, i)), f.code[trail[|trail| - 1]][i])
  {
    var next := PathCode(f, trail, i + 1);
    assert next[..|next| - 1] == PathCode(f, trail, i);
  }

  lemma PathCodeJump(f: Func, trail: seq<nat>, b: nat)
    requires trail != [] && trail[|trail| - 1] < |f.code| && b < |f.code|
    ensures PathCode(f, trail + [b], 0) == PathCode(f, trail, |f.code[trail[|trail| - 1]]|)
  {
    var t := trail + [b];
    assert t[..|t| - 1] == trail;
  }

  lemma AgreesPush(e: Effect, stack: seq<Deferred>, armed: bool, pc: Pc, d: Deferred)
    requires Agrees(e, stack, armed, pc) && pc.At?
    ensures Agrees(Advance(e, Defer(d.Callee())), stack + [d], armed, pc)
  {
    assert Callees(stack + [d]) == Callees(stack) + [d.Callee()];
    assert e.pending[|stack|..] == [] == (e.pending + [d.Callee()])[|stack| + 1..];
  }

  lemma AgreesPop(e: Effect, stack: seq<Deferred>, armed: bool, pc: Pc, armed': bool, pc': Pc)
    requires Agrees(e, stack, armed, pc) && stack != []
    requires pc'.InCall? && pc'.mayPanic == stack[|stack| - 1].Callee().MayPanic()
    requires armed' <==> armed || stack[|stack| - 1].Callee().Direct?
    ensures Agrees(e, stack[..|stack| - 1], armed', pc')
  {
    var n := |stack| - 1;
    assert Callees(stack[..n]) == Callees(stack)[..n];
    assert e.pending[n] == Callees(stack)[n] == stack[n].Callee();
    HasDirectCons(e.pending, n);
  }

  lemma AgreesDone(e: Effect, armed: bool, pc: Pc, pc': Pc)
    requires Agrees(e, [], armed, pc) && pc'.At?
    ensures Agrees(Advance(e, RunDefers), [], armed, pc')
  {
    assert e.pending[0..] == e.pending;
    assert Callees([]) == [];
  }

  lemma AgreesCall(e: Effect, stack: seq<Deferred>, armed: bool, pc: Pc)
    requires Agrees(e, stack, armed, pc) && pc.At?
    ensures Agrees(Advance(e, Call), stack, true, pc)
  {
  }

  lemma AgreesAnywhere(e: Effect, stack: seq<Deferred>, armed: bool, pc: Pc, pc': Pc)
    requires Agrees(e, stack, armed, pc)
    requires pc'.At? ==> pc.At?
    requires pc'.InCall? ==> pc' == pc
    ensures Agrees(e, stack, armed, pc')
  {
  }

  /** The effect at the current position. */
  ghost function Here(f: Func, s: Spec): Effect
    requires OnPath(f, s)
  {
    EffectOf(PathCode(f, s.trail, Current(s.pc).index))
  }

  ghost predicate OnPath(f: Func, s: Spec) {
    && Current(s.pc).At? && s.trail != [] && s.trail[0] == 0
    && var b := s.trail[|s.trail| - 1];
       b == Current(s.pc).block < |f.code| && Current(s.pc).index <= |f.code[b]|
  }

  lemma HereNext(f: Func, s: Spec, s': Spec)
    requires OnPath(f, s) && s'.trail == s.trail && Current(s.pc).index < |f.code[Current(s.pc).block]|
    requires s'.pc == At(Current(s.pc).block, Current(s.pc).index + 1)
    ensures OnPath(f, s')
    ensures Here(f, s') == Advance(Here(f, s), f.code[Current(s.pc).block][Current(s.pc).index])
  {
    PathCodeStep(f, s.trail, Current(s.pc).index);
  }

  lemma HasDirectCons(p: seq<Callee>, n: nat)
    requires n < |p|
    ensures HasDirect(p[n..]) <==> p[n].Direct? || HasDirect(p[n + 1..])
  {
    if HasDirect(p[n..]) {
      var k :| 0 <= k < |p[n..]| && p[n..][k].Direct?;
      if k > 0 {
        assert p[n + 1..][k - 1].Direct?;
      }
    }
    if p[n].Direct? {
      assert p[n..][0].Direct?;
    }
    if HasDirect(p[n + 1..]) {
      var k :| 0 <= k < |p[n + 1..]| && p[n + 1..][k].Direct?;
      assert p[n..][k + 1].Direct?;
    }
  }

  lemma TracksInstr(f: Func, c: Concrete, s: Spec, ch: Choice)
    requires c.pc == s.pc && s.pc.At? && TracksPath(f, c, s) && s.pc.index < |f.code[s.pc.block]|
    requires ConcreteStep(f, c, ch).pc != Wild
    ensures Tracks(f, ConcreteStep(f, c, ch), SpecStep(f, s, ch))
  {
    var x, e := f.code[s.pc.block][s.pc.index], Here(f, s);
    var c', s' := ConcreteStep(f, c, ch), SpecStep(f, s, ch);
    if x == Defer(ch.call.Callee()) {
      AgreesPush(e, s.stack, c.armed, s.pc, ch.call);
      HereNext(f, s, s');
    } else if x.Call? {
      if !ch.panics {
        AgreesCall(e, s.stack, c.armed, s.pc);
        HereNext(f, s, s');
      }
    } else if x.Plain? {
      HereNext(f, s, s');
    } else if x.Print? {
      if !ch.panics {
        HereNext(f, s, s');
        AgreesAnywhere(e, s.stack, c.armed, s.pc, s'.pc);
      }
    } else {
      assert s'.stack == s.stack && s'.trail == s.trail && Current(s'.pc) == s.pc && c'.armed == c.armed;
      AgreesAnywhere(e, s.stack, c.armed, s.pc, s'.pc);
    }
  }

  lemma TracksStarted(f: Func, c: Concrete, s: Spec, c': Concrete, s': Spec)
    requires s.pc.Drain? && s.pc.k.AfterRun? && TracksPath(f, c, s) && s.stack != []
    requires s'.pc == InCall(s.pc.k, s.stack[|s.stack| - 1].Callee().MayPanic())
    requires s'.stack == s.stack[..|s.stack| - 1] && s'.trail == s.trail
    requires c'.armed <==> c.armed || s.stack[|s.stack| - 1].Callee().Direct?
    ensures TracksPath(f, c', s')
  {
    AgreesPop(Here(f, s), s.stack, c.armed, s.pc, c'.armed, s'.pc);
  }

  lemma TracksDrained(f: Func, c: Concrete, s: Spec, c': Concrete, s': Spec)
    requires s.pc.Drain? && s.pc.k.AfterRun? && TracksPath(f, c, s) && s.stack == []
    requires IsRunDefers(f, s.pc.k.block, s.pc.k.index)
    requires s'.pc == At(s.pc.k.block, s.pc.k.index + 1) && s'.stack == [] && s'.trail == s.trail
    requires c'.armed == c.armed
    ensures TracksPath(f, c', s')
  {
    AgreesDone(Here(f, s), c.armed, s.pc, s'.pc);
    HereNext(f, s, s');
  }

  lemma TracksPop(f: Func, c: Concrete, s: Spec, ch: Choice)
    requires Simulates(f, c, s) && s.pc.Drain? && s.pc.k.AfterRun? && TracksPath(f, c, s)
    requires ConcreteStep(f, c, ch).pc != Wild
    ensures TracksPath(f, ConcreteStep(f, c, ch), SpecStep(f, s, ch))
  {
    hide HasList, Linked, Bodies, SlotsBehind, HeapBelow, TracksPath, FullTable, Cases, IndexOf, SpecStep, Known;
    var c', s' := ConcreteStep(f, c, ch), SpecStep(f, s, ch);
    HeadShowsStack(FullTable(f), c.cells, c.head, s.stack);
    DrainSteps(f, c, s, ch, c', s');
    if s.stack != [] {
      PopStartsTop(FullTable(f), Cases(f, s.pc.k), c, s.stack, s.pc.k);
      TracksStarted(f, c, s, c', s');
    } else {
      TracksDrained(f, c, s, c', s');
    }
  }

  lemma TracksJump(f: Func, c: Concrete, s: Spec, ch: Choice)
    requires c.pc == s.pc && s.pc.At? && TracksPath(f, c, s) && s.pc.index == |f.code[s.pc.block]|
    requires |f.preds| == |f.code|
    ensures Tracks(f, ConcreteStep(f, c, ch), SpecStep(f, s, ch))
  {
    if Edge(f.preds, s.pc.block, ch.next) {
      PathCodeJump(f, s.trail, ch.next);
    }
  }

  lemma TracksStep(f: Func, c: Concrete, s: Spec, ch: Choice)
    requires WellFormed(f) && Simulates(f, c, s) && Tracks(f, c, s) && ConcreteStep(f, c, ch).pc != Wild
    ensures Tracks(f, ConcreteStep(f, c, ch), SpecStep(f, s, ch))
  {
    match s.pc
    case At(b, i) =>
      if b == f.recover {
        TracksRecover(f, c, s, ch);
      } else if i < |f.code[b]| {
        TracksInstr(f, c, s, ch);
      } else {
        TracksJump(f, c, s, ch);
      }
    case Drain(k) =>
      if k.AfterRun? {
        assert k.block != f.recover;
        TracksPop(f, c, s, ch);
      } else if s.stack != [] {
        PopStartsTop(FullTable(f), Cases(f, ToRecover), c, s.stack, ToRecover);
      }
    case _ => TracksOther(f, c, s, ch);
  }

  lemma TracksOther(f: Func, c: Concrete, s: Spec, ch: Choice)
    requires c.pc == s.pc && Tracks(f, c, s) && !s.pc.At? && !s.pc.Drain? && ConcreteStep(f, c, ch).pc != Wild
    ensures Tracks(f, ConcreteStep(f, c, ch), SpecStep(f, s, ch))
  {
    var c', s' := ConcreteStep(f, c, ch), SpecStep(f, s, ch);
    if s.pc.InCall? && s.pc.k.AfterRun? && s.pc.k.block != f.recover && s'.pc == Drain(s.pc.k) {
      AgreesAnywhere(Here(f, s), s.stack, c.armed, s.pc, s'.pc);
    }
  }

  lemma TracksRecover(f: Func, c: Concrete, s: Spec, ch: Choice)
    requires WellFormed(f) && Simulates(f, c, s) && s.pc.At? && s.pc.block == f.recover
    ensures Tracks(f, ConcreteStep(f, c, ch), SpecStep(f, s, ch))
  {
  }

  lemma {:induction false} RunTracks(f: Func, cs: seq<Choice>)
    requires WellFormed(f) && ConcreteRun(f, cs).pc != Wild
    ensures Simulates(f, ConcreteRun(f, cs), SpecRun(f, cs))
    ensures Tracks(f, ConcreteRun(f, cs), SpecRun(f, cs))
  {
    hide Simulates, WellFormed, Tracks, ConcreteStep, SpecStep;
    Refinement(f, cs);
    if cs == [] {
      InitTracks(f);
    } else {
      var pre, ch := cs[..|cs| - 1], cs[|cs| - 1];
      WildStays(f, ConcreteRun(f, pre), ch);
      RunTracks(f, pre);
      TracksStep(f, ConcreteRun(f, pre), SpecRun(f, pre), ch);
    }
  }

  lemma InitTracks(f: Func)
    requires WellFormed(f)
    ensures Tracks(f, CONCRETE_INIT, SPEC_INIT)
  {
    assert PathCode(f, [0], 0) == [];
  }

  // ---------------------------------------------------------------------------
  // Undefined behaviour comes from a hazard

  lemma CallbackListed(f: Func, b: nat, i: nat, callee: Callee)
    requires WellFormed(f) && IsRunDefers(f, b, i) && callee in FullTable(f)
    ensures IndexOf(FullTable(f), callee) < |TableAt(f, b, i)| <==> callee in TableAt(f, b, i)
  {
    TableAtPrefix(f, b, i);
    TableNoDuplicates(Flatten(f, f.order));
    IndexInPrefix(TableAt(f, b, i), FullTable(f), callee);
  }

  lemma WildPop(f: Func, c: Concrete, s: Spec, ch: Choice)
    requires WellFormed(f) && Simulates(f, c, s) && Tracks(f, c, s) && s.pc.Drain?
    requires ConcreteStep(f, c, ch).pc == Wild
    ensures s.pc.k.AfterRun? && Hazard(f, s.trail, s.pc.k.index)
  {
    hide HasList, Linked, Bodies, SlotsBehind, HeapBelow, IndexOf, EffectOf, PathCode;
    var n := |s.stack| - 1;
    HeadShowsStack(FullTable(f), c.cells, c.head, s.stack);
    PopStartsTop(FullTable(f), Cases(f, s.pc.k), c, s.stack, s.pc.k);
    assert s.stack[n].Callee() in FullTable(f);
    var b, i := s.pc.k.block, s.pc.k.index;
    CallbackListed(f, b, i, s.stack[n].Callee());
    assert Callees(s.stack)[n] == s.stack[n].Callee();
    assert Here(f, s).pending[n] !in TableAt(f, b, i);
  }

  lemma FirstNotDirect(pending: seq<Callee>, n: nat)
    requires n < |pending| && !HasDirect(pending[n..])
    ensures !pending[n].Direct? && !HasDirect(pending[n + 1..])
  {
    HasDirectCons(pending, n);
  }

  lemma WildCallUnarmed(f: Func, c: Concrete, ch: Choice)
    requires c.pc.InCall? && ConcreteStep(f, c, ch).pc == Wild
    ensures f.frame && !c.armed && c.pc.mayPanic
  {
  }

  /** Control is not in the recover block when a drain or a deferred call is under way. */
  lemma NotInRecover(f: Func, c: Concrete, s: Spec)
    requires WellFormed(f) && Simulates(f, c, s) && (s.pc.Drain? || s.pc.InCall?) && s.pc.k.AfterRun?
    ensures IsRunDefers(f, s.pc.k.block, s.pc.k.index) && s.pc.k.block != f.recover && IsPath(f.preds, s.trail)
  {
    hide HasList, SlotsBehind, HeapBelow, Known, IsPath;
    assert OnTrail(f, s.pc, s.trail);
  }

  lemma UnarmedHazard(f: Func, c: Concrete, s: Spec)
    requires s.pc.InCall? && s.pc.k.AfterRun? && TracksPath(f, c, s) && f.frame && !c.armed && s.pc.mayPanic
    requires IsRunDefers(f, s.pc.k.block, s.pc.k.index) && IsPath(f.preds, s.trail)
    ensures Hazard(f, s.trail, s.pc.k.index)
  {
    hide EffectOf, PathCode, IsPath, HasDirect, Unlisted, Callees;
    var e := Here(f, s);
    FirstNotDirect(e.pending, |s.stack|);
    assert ExposedAt(e.pending, |s.stack|);
  }

  lemma WildCall(f: Func, c: Concrete, s: Spec, ch: Choice)
    requires WellFormed(f) && Simulates(f, c, s) && Tracks(f, c, s) && s.pc.InCall?
    requires ConcreteStep(f, c, ch).pc == Wild
    ensures s.pc.k.AfterRun? && Hazard(f, s.trail, s.pc.k.index)
  {
    hide HasList, SlotsBehind, HeapBelow, Known, ConcreteStep, WellFormed, TracksPath, Hazard, OnTrail;
    WildCallUnarmed(f, c, ch);
    NotInRecover(f, c, s);
    UnarmedHazard(f, c, s);
  }

  /** Only printing can be undefined inside a block. */
  lemma WildPrintUnarmed(f: Func, c: Concrete, ch: Choice)
    requires c.pc.At? && ConcreteStep(f, c, ch).pc == Wild
    ensures c.pc.block < |f.code| && c.pc.index < |f.code[c.pc.block]| && f.code[c.pc.block][c.pc.index].Print?
    ensures f.frame && !c.armed
  {
  }

  lemma PrintHazard(f: Func, c: Concrete, s: Spec)
    requires s.pc.At? && TracksPath(f, c, s) && f.frame && !c.armed && IsPath(f.preds, s.trail)
    requires s.pc.index < |f.code[s.pc.block]| && f.code[s.pc.block][s.pc.index].Print?
    ensures Hazard(f, s.trail, s.pc.index)
  {
    hide EffectOf, PathCode, IsPath, Callees;
  }

  lemma WildPrint(f: Func, c: Concrete, s: Spec, ch: Choice)
    requires WellFormed(f) && Simulates(f, c, s) && Tracks(f, c, s) && s.pc.At?
    requires ConcreteStep(f, c, ch).pc == Wild
    ensures Hazard(f, s.trail, s.pc.index)
  {
    hide HasList, SlotsBehind, HeapBelow, Known, ConcreteStep, TracksPath, Hazard;
    WildPrintUnarmed(f, c, ch);
    assert s.pc.block != f.recover;
    PrintHazard(f, c, s);
  }

  lemma WildStep(f: Func, c: Concrete, s: Spec, ch: Choice)
    requires WellFormed(f) && Simulates(f, c, s) && Tracks(f, c, s) && c.pc != Wild
    requires ConcreteStep(f, c, ch).pc == Wild
    ensures exists i :: Hazard(f, s.trail, i)
  {
    hide Hazard, WellFormed, HasList, SlotsBehind, HeapBelow, Known, OnTrail, Tracks, ConcreteStep;
    WildOrigin(f, c, ch);
    if c.pc.Drain? {
      WildPop(f, c, s, ch);
    } else if c.pc.InCall? {
      WildCall(f, c, s, ch);
    } else {
      WildPrint(f, c, s, ch);
    }
  }

  lemma WildOrigin(f: Func, c: Concrete, ch: Choice)
    requires c.pc != Wild && ConcreteStep(f, c, ch).pc == Wild
    ensures c.pc.Drain? || c.pc.InCall? || c.pc.At?
  {
  }

  /** The last of the choices makes the run undefined, after it has followed `trail`. */
  ghost predicate Breaks(f: Func, cs: seq<Choice>, trail: seq<nat>) {
    && cs != [] && ConcreteRun(f, cs).pc == Wild
    && var pre := cs[..|cs| - 1];
       ConcreteRun(f, pre).pc != Wild && SpecRun(f, pre).trail == trail
  }

  ghost predicate BreaksOn(f: Func, trail: seq<nat>) {
    exists cs :: Breaks(f, cs, trail)
  }

  lemma {:induction false} FirstBreak(f: Func, cs: seq<Choice>) returns (n: nat)
    requires ConcreteRun(f, cs).pc == Wild
    ensures 0 < n <= |cs| && Breaks(f, cs[..n], SpecRun(f, cs[..n - 1]).trail)
  {
    var pre := cs[..|cs| - 1];
    if ConcreteRun(f, pre).pc == Wild {
      n := FirstBreak(f, pre);
      assert pre[..n] == cs[..n] && pre[..n - 1] == cs[..n - 1];
    } else {
      n := |cs|;
      assert cs[..n] == cs;
    }
  }

  /** A run that becomes undefined does so on a path with a hazard. */
  lemma WildNeedsHazard(f: Func, cs: seq<Choice>, trail: seq<nat>)
    requires WellFormed(f) && Breaks(f, cs, trail)
    ensures exists i :: Hazard(f, trail, i)
  {
    var pre, ch := cs[..|cs| - 1], cs[|cs| - 1];
    RunTracks(f, pre);
    WildStep(f, ConcreteRun(f, pre), SpecRun(f, pre), ch);
  }

  // ---------------------------------------------------------------------------
  // Every hazard is reached by some run

  function Sample(callee: Callee): (d: Deferred)
    ensures d.Callee() == callee
  {
    var args := seq(callee.arity, _ => Undef);
    match callee
    case Invoke(m, _) => DInvoke(m, Undef, Undef, args)
    case Direct(fn, e, _) => DDirect(fn, e, args)
    case Closure(fn, _) => DClosure(fn, Undef, args)
    case Builtin(v, name, itf, _) => DBuiltin(v, name, itf, args)
    case FuncExpr(v, _) => DFuncExpr(v, 0, 0, args)
  }

  ghost predicate Reached(f: Func, c: Concrete, s: Spec) {
    exists cs :: ConcreteRun(f, cs) == c && SpecRun(f, cs) == s
  }

  lemma ReachedStep(f: Func, c: Concrete, s: Spec, ch: Choice)
    requires Reached(f, c, s)
    ensures Reached(f, ConcreteStep(f, c, ch), SpecStep(f, s, ch))
    ensures c.pc != Wild && ConcreteStep(f, c, ch).pc == Wild ==> BreaksOn(f, s.trail)
  {
    hide ConcreteStep, SpecStep;
    var cs :| ConcreteRun(f, cs) == c && SpecRun(f, cs) == s;
    var ds := cs + [ch];
    assert ds[..|ds| - 1] == cs;
    assert ConcreteRun(f, ds) == ConcreteStep(f, c, ch);
    if c.pc != Wild && ConcreteStep(f, c, ch).pc == Wild {
      assert Breaks(f, ds, s.trail);
    }
  }

  lemma ReachedTracks(f: Func, c: Concrete, s: Spec)
    requires WellFormed(f) && Reached(f, c, s) && c.pc != Wild
    ensures Simulates(f, c, s) && Tracks(f, c, s)
  {
    var cs :| ConcreteRun(f, cs) == c && SpecRun(f, cs) == s;
    RunTracks(f, cs);
  }

  /** One panic-free turn of a drain. */
  lemma DrainTurn(f: Func, c: Concrete, s: Spec) returns (c': Concrete, s': Spec)
    requires WellFormed(f) && Reached(f, c, s) && c.pc.Drain? && c.pc.k.AfterRun? && s.stack != []
    ensures Reached(f, c', s') && IsRunDefers(f, c.pc.k.block, c.pc.k.index)
    ensures if c'.pc == Wild then BreaksOn(f, s.trail) else
      (&& c'.pc == c.pc && s'.trail == s.trail && s'.stack == s.stack[..|s.stack| - 1]
       && s.stack[|s.stack| - 1].Callee() in TableAt(f, c.pc.k.block, c.pc.k.index)
       && (c'.armed <==> c.armed || s.stack[|s.stack| - 1].Callee().Direct?))
  {
    hide HasList, Linked, Bodies, SlotsBehind, HeapBelow, Tracks, Reached, BreaksOn, IndexOf;
    var quiet := Choice(false, 0, Sample(Builtin(0, "", false, 0)));
    ReachedTracks(f, c, s);
    PopStartsTop(FullTable(f), Cases(f, c.pc.k), c, s.stack, c.pc.k);
    CallbackListed(f, c.pc.k.block, c.pc.k.index, s.stack[|s.stack| - 1].Callee());
    ReachedStep(f, c, s, quiet);
    c', s' := ConcreteStep(f, c, quiet), SpecStep(f, s, quiet);
    if c'.pc != Wild {
      ReachedStep(f, c', s', quiet);
      c', s' := ConcreteStep(f, c', quiet), SpecStep(f, s', quiet);
    }
  }

  /** Drains without panicking until a record has no switch case or the list is empty. If
      one of the pending calls is unlisted, the former happens. */
  lemma {:induction false} DrainOut(f: Func, c: Concrete, s: Spec) returns (c': Concrete, s': Spec)
    requires WellFormed(f) && Reached(f, c, s) && c.pc.Drain? && c.pc.k.AfterRun?
    ensures Reached(f, c', s') && IsRunDefers(f, c.pc.k.block, c.pc.k.index)
    ensures if c'.pc == Wild then BreaksOn(f, s.trail) else
      (&& c'.pc == At(c.pc.k.block, c.pc.k.index + 1) && s'.trail == s.trail
       && !Unlisted(f, c.pc.k.block, c.pc.k.index, Callees(s.stack)))
    decreases |s.stack|
  {
    hide HasList, Linked, Bodies, SlotsBehind, HeapBelow, Tracks, Reached, BreaksOn, WellFormed, IsRunDefers;
    if s.stack == [] {
      c', s' := DrainEnd(f, c, s);
    } else {
      c', s' := DrainTurn(f, c, s);
      if c'.pc != Wild {
        c', s' := DrainOut(f, c', s');
        if c'.pc != Wild {
          UnlistedRest(f, c.pc.k.block, c.pc.k.index, s.stack);
        }
      }
    }
  }

  lemma DrainEnd(f: Func, c: Concrete, s: Spec) returns (c': Concrete, s': Spec)
    requires WellFormed(f) && Reached(f, c, s) && c.pc.Drain? && c.pc.k.AfterRun? && s.stack == []
    ensures Reached(f, c', s') && IsRunDefers(f, c.pc.k.block, c.pc.k.index)
    ensures c'.pc == At(c.pc.k.block, c.pc.k.index + 1) && s'.trail == s.trail
  {
    var quiet := Choice(false, 0, Sample(Builtin(0, "", false, 0)));
    ReachedTracks(f, c, s);
    ReachedStep(f, c, s, quiet);
    c', s' := ConcreteStep(f, c, quiet), SpecStep(f, s, quiet);
  }

  lemma UnlistedRest(f: Func, b: nat, i: nat, stack: seq<Deferred>)
    requires IsRunDefers(f, b, i) && stack != []
    requires stack[|stack| - 1].Callee() in TableAt(f, b, i)
    requires !Unlisted(f, b, i, Callees(stack[..|stack| - 1]))
    ensures !Unlisted(f, b, i, Callees(stack))
  {
    var n := |stack| - 1;
    forall k | 0 <= k < |stack|
      ensures Callees(stack)[k] in TableAt(f, b, i)
    {
      if k < n {
        assert Callees(stack[..n])[k] == Callees(stack)[k];
      }
    }
  }

  /** One instruction without panicking. */
  lemma FollowInstr(f: Func, c: Concrete, s: Spec) returns (c': Concrete, s': Spec)
    requires WellFormed(f) && Reached(f, c, s) && c.pc.At?
    requires c.pc.block < |f.code| && c.pc.index < |f.code[c.pc.block]|
    ensures Reached(f, c', s')
    ensures if c'.pc == Wild then BreaksOn(f, s.trail)
      else c'.pc == At(c.pc.block, c.pc.index + 1) && s'.trail == s.trail
  {
    hide HasList, Linked, Bodies, SlotsBehind, HeapBelow, WellFormed, Tracks, Reached, BreaksOn, FullTable, Unlisted,
      Callees;
    ReachedTracks(f, c, s);
    var x := f.code[c.pc.block][c.pc.index];
    var ch := Choice(false, 0, Sample(if x.Defer? then x.callee else Builtin(0, "", false, 0)));
    ReachedStep(f, c, s, ch);
    c', s' := ConcreteStep(f, c, ch), SpecStep(f, s, ch);
    if x.RunDefers? {
      c', s' := DrainOut(f, c', s');
    }
  }

  lemma FollowEdge(f: Func, c: Concrete, s: Spec, b: nat) returns (c': Concrete, s': Spec)
    requires WellFormed(f) && Reached(f, c, s) && c.pc.At? && Edge(f.preds, c.pc.block, b)
    requires c.pc.block < |f.code| && c.pc.index == |f.code[c.pc.block]|
    ensures Reached(f, c', s') && c'.pc == At(b, 0) && s'.trail == s.trail + [b]
  {
    ReachedTracks(f, c, s);
    var ch := Choice(false, b, Sample(Builtin(0, "", false, 0)));
    ReachedStep(f, c, s, ch);
    c', s' := ConcreteStep(f, c, ch), SpecStep(f, s, ch);
  }

  /** Some run that follows `trail` becomes undefined on the way. */
  ghost predicate BreaksAlong(f: Func, trail: seq<nat>) {
    exists n: nat :: n <= |trail| && BreaksOn(f, trail[..n])
  }

  lemma BreaksHere(f: Func, trail: seq<nat>)
    requires BreaksOn(f, trail)
    ensures BreaksAlong(f, trail)
  {
    assert trail[..|trail|] == trail;
  }

  lemma BreaksBefore(f: Func, before: seq<nat>, trail: seq<nat>)
    requires before <= trail && BreaksAlong(f, before)
    ensures BreaksAlong(f, trail)
  {
    var n: nat :| n <= |before| && BreaksOn(f, before[..n]);
    assert before[..n] == trail[..n];
  }

  /** Follows a path through the block graph without panicking. */
  lemma {:induction false} Follow(f: Func, trail: seq<nat>, i: nat) returns (c: Concrete, s: Spec)
    requires WellFormed(f) && IsPath(f.preds, trail) && trail[0] == 0 && i <= |f.code[trail[|trail| - 1]]|
    ensures Reached(f, c, s)
    ensures if c.pc == Wild then BreaksAlong(f, trail) else c.pc == At(trail[|trail| - 1], i) && s.trail == trail
    decreases |trail|, i
  {
    hide BreaksOn, BreaksAlong, Reached;
    var last := |trail| - 1;
    if i > 0 {
      c, s := Follow(f, trail, i - 1);
      if c.pc != Wild {
        c, s := FollowInstr(f, c, s);
        if c.pc == Wild {
          BreaksHere(f, trail);
        }
      }
    } else if last > 0 {
      var before := trail[..last];
      SubPath(f.preds, trail, 0, last - 1);
      assert trail[0..last] == before && Edge(f.preds, trail[last - 1], trail[last]);
      c, s := Follow(f, before, |f.code[trail[last - 1]]|);
      if c.pc == Wild {
        BreaksBefore(f, before, trail);
      } else {
        c, s := FollowEdge(f, c, s, trail[last]);
        assert before + [trail[last]] == trail;
      }
    } else {
      c, s := CONCRETE_INIT, SPEC_INIT;
      ReachedInit(f);
      assert trail == [0];
    }
  }

  lemma ReachedInit(f: Func)
    ensures Reached(f, CONCRETE_INIT, SPEC_INIT)
  {
    assert ConcreteRun(f, []) == CONCRETE_INIT && SpecRun(f, []) == SPEC_INIT;
  }

  /** For every path with a hazard some run that follows it becomes undefined. */
  lemma HazardReached(f: Func, trail: seq<nat>, i: nat)
    requires WellFormed(f) && Hazard(f, trail, i)
    ensures BreaksAlong(f, trail)
  {
    hide BreaksOn, BreaksAlong, Reached;
    var c, s := Follow(f, trail, i);
    if c.pc != Wild {
      HazardFires(f, c, s);
      BreaksHere(f, trail);
    }
  }

  lemma HazardFires(f: Func, c: Concrete, s: Spec)
    requires WellFormed(f) && Reached(f, c, s) && c.pc.At? && Hazard(f, s.trail, c.pc.index)
    requires s.trail[|s.trail| - 1] == c.pc.block
    ensures BreaksOn(f, s.trail)
  {
    hide BreaksOn, Reached;
    HazardState(f, c, s);
    var pending := Callees(s.stack);
    if f.code[c.pc.block][c.pc.index].Print? {
      PrintPanics(f, c, s);
    } else {
      var c', s' := EnterDrain(f, c, s);
      if Unlisted(f, c.pc.block, c.pc.index, pending) {
        c', s' := DrainOut(f, c', s');
      } else {
        var k: nat :| ExposedAt(pending, k);
        ExposedPanic(f, c', s', k);
      }
    }
  }

  /** What a hazard at the current instruction means for the state. */
  lemma HazardState(f: Func, c: Concrete, s: Spec)
    requires WellFormed(f) && Reached(f, c, s) && c.pc.At? && Hazard(f, s.trail, c.pc.index)
    requires s.trail[|s.trail| - 1] == c.pc.block
    ensures c.pc.block < |f.code| && c.pc.index < |f.code[c.pc.block]| && s.pc == c.pc
    ensures HazardHere(f, c.pc.block, c.pc.index, Effect(Callees(s.stack), c.armed))
  {
    hide HasList, Linked, Bodies, SlotsBehind, HeapBelow, Reached, IndexOf, EffectOf, PathCode, FullTable;
    ReachedTracks(f, c, s);
    assert c.pc.block != f.recover;
    var e := Here(f, s);
    assert Callees(s.stack) == e.pending && e.pending[|s.stack|..] == [];
    assert e == Effect(Callees(s.stack), c.armed);
  }

  lemma PrintPanics(f: Func, c: Concrete, s: Spec)
    requires Reached(f, c, s) && c.pc.At? && c.pc.block < |f.code| && c.pc.index < |f.code[c.pc.block]|
    requires f.code[c.pc.block][c.pc.index].Print? && f.frame && !c.armed
    ensures BreaksOn(f, s.trail)
  {
    hide Reached, BreaksOn;
    ReachedStep(f, c, s, Choice(true, 0, Sample(Builtin(0, "", false, 0))));
  }

  lemma EnterDrain(f: Func, c: Concrete, s: Spec) returns (c': Concrete, s': Spec)
    requires Reached(f, c, s) && c.pc == s.pc && c.pc.At? && IsRunDefers(f, c.pc.block, c.pc.index)
    ensures Reached(f, c', s') && c'.pc == Drain(AfterRun(c.pc.block, c.pc.index))
    ensures s'.stack == s.stack && s'.trail == s.trail && c'.armed == c.armed
  {
    hide Reached, BreaksOn;
    var quiet := Choice(false, 0, Sample(Builtin(0, "", false, 0)));
    ReachedStep(f, c, s, quiet);
    c', s' := ConcreteStep(f, c, quiet), SpecStep(f, s, quiet);
  }

  /** A drain without a checkpoint reaches a risky call that no direct call precedes. */
  lemma {:induction false} ExposedPanic(f: Func, c: Concrete, s: Spec, k: nat)
    requires WellFormed(f) && f.frame && Reached(f, c, s) && c.pc.Drain? && c.pc.k.AfterRun? && !c.armed
    requires ExposedAt(Callees(s.stack), k)
    ensures BreaksOn(f, s.trail)
    decreases |s.stack|
  {
    hide WellFormed, Reached, IsRunDefers, BreaksOn;
    var n := |s.stack| - 1;
    if k == n {
      UnarmedPanic(f, c, s);
    } else {
      ExposedBelow(s.stack, k);
      var c', s' := DrainTurn(f, c, s);
      if c'.pc != Wild {
        ExposedPanic(f, c', s', k);
      }
    }
  }

  lemma ExposedBelow(stack: seq<Deferred>, k: nat)
    requires ExposedAt(Callees(stack), k) && k < |stack| - 1
    ensures !stack[|stack| - 1].Callee().Direct? && ExposedAt(Callees(stack[..|stack| - 1]), k)
  {
    var n, all := |stack| - 1, Callees(stack);
    assert Callees(stack[..n]) == all[..n];
    var above, below := all[k + 1..], all[..n][k + 1..];
    assert above == below + [all[n]];
    assert above[n - k - 1] == all[n];
    assert forall j :: 0 <= j < |below| ==> below[j] == above[j];
  }

  /** A drain that has no checkpoint and whose next call is risky. */
  lemma UnarmedPanic(f: Func, c: Concrete, s: Spec)
    requires WellFormed(f) && f.frame && Reached(f, c, s) && c.pc.Drain? && !c.armed
    requires s.stack != [] && Risky(s.stack[|s.stack| - 1].Callee())
    ensures BreaksOn(f, s.trail)
  {
    hide HasList, Linked, Bodies, SlotsBehind, HeapBelow, WellFormed, Tracks, OnTrail, Reached, BreaksOn;
    ReachedTracks(f, c, s);
    var ch := Choice(true, 0, Sample(Builtin(0, "", false, 0)));
    PopStartsTop(FullTable(f), Cases(f, c.pc.k), c, s.stack, c.pc.k);
    ReachedStep(f, c, s, ch);
    var c', s' := ConcreteStep(f, c, ch), SpecStep(f, s, ch);
    if c'.pc != Wild {
      ReachedStep(f, c', s', ch);
    }
  }

  /** Path by path: some run along `trail` becomes undefined on the way exactly when `trail`, or a
      path it begins with, has a hazard. */
  lemma UndefinedAlongIffHazard(f: Func, trail: seq<nat>)
    requires WellFormed(f)
    ensures BreaksAlong(f, trail) <==> exists n: nat, i :: n <= |trail| && Hazard(f, trail[..n], i)
  {
    hide Hazard;
    if BreaksAlong(f, trail) {
      var n: nat :| n <= |trail| && BreaksOn(f, trail[..n]);
      var cs :| Breaks(f, cs, trail[..n]);
      WildNeedsHazard(f, cs, trail[..n]);
    }
    if n: nat, i :| n <= |trail| && Hazard(f, trail[..n], i) {
      HazardReached(f, trail[..n], i);
      BreaksBefore(f, trail[..n], trail);
    }
  }

  /** The emitted code of a function can become undefined exactly when some path from its entry
      reaches a drain or a print with a hazard. */
  lemma UndefinedIffHazard(f: Func)
    requires WellFormed(f)
    ensures (exists cs :: ConcreteRun(f, cs).pc == Wild) <==> (exists trail, i :: Hazard(f, trail, i))
  {
    hide Hazard;
    if cs :| ConcreteRun(f, cs).pc == Wild {
      var n := FirstBreak(f, cs);
      WildNeedsHazard(f, cs[..n], SpecRun(f, cs[..n - 1]).trail);
    }
    if trail, i :| Hazard(f, trail, i) {
      HazardReached(f, trail, i);
      var n: nat :| n <= |trail| && BreaksOn(f, trail[..n]);
      var cs :| Breaks(f, cs, trail[..n]);
    }
  }

  /** `for { if x { return }; defer f() }`: block 2 returns and is compiled before block 3,
      which defers. */
  const EARLY_RETURN_LOOP := Func(
    [[], [0, 3], [1], [1], []],
    [[], [], [RunDefers], [Defer(Direct(7, false, 0))], []],
    [0, 1, 2, 3, 4], 4, true)

  lemma EarlyReturnLoopTable()
    ensures TableAt(EARLY_RETURN_LOOP, 2, 0) == []
  {
    var f := EARLY_RETURN_LOOP;
    assert f.order[0] == 0 && f.order[1] == 1 && f.order[2] == 2;
    assert f.order[1..][0] == 1 && f.order[1..][1..][0] == 2;
    assert Position(f.order, 2) == 2;
    assert f.order[..2] == [0, 1];
    EmptyBlocks(f);
  }

  lemma EmptyBlocks(f: Func)
    requires |f.code| > 1 && f.code[0] == [] && f.code[1] == []
    ensures Flatten(f, [0, 1]) == []
  {
    assert [0, 1][..1] == [0] && [0][..0] == [];
    assert Flatten(f, [0]) == [];
  }

  lemma EarlyReturnLoopPath(f: Func, d: Instr)
    requires |f.code| > 3 && f.code[0] == [] && f.code[1] == [] && f.code[2] == [RunDefers] && f.code[3] == [d]
    ensures PathCode(f, [0, 1, 3, 1, 2], 0) == [d]
  {
    EmptyBlocks(f);
    assert [0, 1, 3][..2] == [0, 1];
    assert Flatten(f, [0, 1, 3]) == [d];
    assert [0, 1, 3, 1][..3] == [0, 1, 3];
    assert Flatten(f, [0, 1, 3, 1]) == [d];
    assert [0, 1, 3, 1, 2][..4] == [0, 1, 3, 1];
  }

  ghost predicate EarlyReturnShape(g: Graph) {
    |g| == 5 && g[0] == [] && g[1] == [0, 3] && g[2] == [1] && g[3] == [1] && g[4] == []
  }

  lemma EarlyReturnGraph(g: Graph)
    requires EarlyReturnShape(g)
    ensures Closed(g) && IsPath(g, [0, 1, 3, 1, 2])
    ensures forall b :: 0 <= b < |g| ==> !Edge(g, 4, b) && !Edge(g, b, 4)
  {
    var p := [0, 1, 3, 1, 2];
    forall i | 0 <= i < |p| - 1 ensures Edge(g, p[i], p[i + 1]) {
      assert i == 0 || i == 1 || i == 2 || i == 3;
    }
  }

  lemma EarlyReturnOrder(o: seq<nat>)
    requires o == [0, 1, 2, 3, 4]
    ensures forall k :: 0 <= k < |o| ==> o[k] == k
    ensures forall b :: 0 <= b < 5 ==> b in o
  {
    assert forall k :: 0 <= k < |o| ==> o[k] == k;
    forall b | 0 <= b < 5 ensures b in o {
      assert o[b] == b;
    }
  }

  lemma EarlyReturnLoopWellFormed()
    ensures WellFormed(EARLY_RETURN_LOOP) && IsPath(EARLY_RETURN_LOOP.preds, [0, 1, 3, 1, 2])
  {
    EarlyReturnGraph(EARLY_RETURN_LOOP.preds);
    EarlyReturnOrder(EARLY_RETURN_LOOP.order);
    assert EARLY_RETURN_LOOP.code[4] == [];
  }

  lemma EarlyReturnLoopIsHazardous()
    ensures WellFormed(EARLY_RETURN_LOOP) && Hazard(EARLY_RETURN_LOOP, [0, 1, 3, 1, 2], 0)
  {
    EarlyReturnLoopWellFormed();
    var c := Direct(7, false, 0);
    EarlyReturnLoopPath(EARLY_RETURN_LOOP, Defer(c));
    EarlyReturnLoopTable();
    assert [Defer(c)][..0] == [];
    assert EffectOf([Defer(c)]) == Effect([c], false);
    assert Effect([c], false).pending[0] !in TableAt(EARLY_RETURN_LOOP, 2, 0);
  }

  /** `defer g(); println(e)` with an interface value `e`: the program's own code may run and
      panic before any checkpoint is set. */
  const PRINT_BEFORE_CHECKPOINT := Func([[], []], [[Defer(Direct(7, false, 0)), Print, RunDefers], []], [0, 1], 1, true)

  /** `defer close(ch)`: closing cannot raise a panic that is caught. */
  const DEFERRED_CLOSE := Func([[], []], [[Defer(Builtin(3, "close", false, 1)), RunDefers], []], [0, 1], 1, true)

  lemma TwoBlocksWellFormed(f: Func)
    requires f.preds == [[], []] && |f.code| == 2 && f.code[1] == [] && f.order == [0, 1] && f.recover == 1
    ensures WellFormed(f) && IsPath(f.preds, [0])
  {
    assert f.order[0] == 0 && f.order[1] == 1;
  }

  lemma PrintBeforeCheckpointIsHazardous()
    ensures WellFormed(PRINT_BEFORE_CHECKPOINT) && Hazard(PRINT_BEFORE_CHECKPOINT, [0], 1)
  {
    var f, d := PRINT_BEFORE_CHECKPOINT, Defer(Direct(7, false, 0));
    TwoBlocksWellFormed(f);
    assert PathCode(f, [0], 1) == [d];
    assert [d][..0] == [];
    assert EffectOf([d]) == Effect([d.callee], false);
  }

  /** The only path through two blocks without edges stays at the entry. */
  lemma OnlyEntry(g: Graph, trail: seq<nat>)
    requires g == [[], []] && IsPath(g, trail) && trail[0] == 0
    ensures trail == [0]
  {
    assert |trail| > 1 ==> Edge(g, trail[0], trail[1]);
  }

  predicate RunsProgramCode(c: Callee) {
    c.Invoke? || c.Closure? || c.FuncExpr? || (c.Builtin? && c.printsItf && (c.name == "print" || c.name == "println"))
  }

  ghost predicate OneCall(f: Func, c: Callee) {
    f.preds == [[], []] && |f.code| == 2 && f.code[0] == [Defer(c), RunDefers] && f.code[1] == []
  }

  lemma OneExposed(c: Callee)
    ensures Exposed([c]) <==> RunsProgramCode(c)
  {
    assert [c][0 + 1..] == [];
    assert ExposedAt([c], 0) <==> Risky(c);
  }

  lemma OneCallEffect(f: Func, c: Callee)
    requires OneCall(f, c)
    ensures EffectOf(PathCode(f, [0], 1)) == Effect([c], false) && EffectOf(PathCode(f, [0], 0)) == Effect([], false)
  {
    assert PathCode(f, [0], 1) == [Defer(c)] && PathCode(f, [0], 0) == [];
    assert [Defer(c)][..0] == [];
  }

  /** One deferred call that has a switch case is unsafe to drain exactly when it runs code of the
      program without setting a checkpoint: a call of an interface method, a closure or a function
      value, or the printing of an interface value. */
  lemma OneCallHazard(f: Func, c: Callee, trail: seq<nat>, i: nat)
    requires OneCall(f, c) && TableAt(f, 0, 1) == [c] && f.frame && IsPath(f.preds, [0])
    ensures Hazard(f, trail, i) <==> (trail == [0] && i == 1 && RunsProgramCode(c))
  {
    hide TableAt, EffectOf, PathCode, Exposed, RunsProgramCode;
    OneExposed(c);
    OneCallEffect(f, c);
    assert !Unlisted(f, 0, 1, [c]);
    if IsPath(f.preds, trail) && trail[0] == 0 {
      OnlyEntry(f.preds, trail);
    }
  }

  lemma DeferredCloseIsSafe(trail: seq<nat>, i: nat)
    ensures WellFormed(DEFERRED_CLOSE) && !Hazard(DEFERRED_CLOSE, trail, i)
  {
    hide Hazard, TableAt;
    TwoBlocksWellFormed(DEFERRED_CLOSE);
    CloseIsListed();
    OneCallHazard(DEFERRED_CLOSE, Builtin(3, "close", false, 1), trail, i);
  }

  lemma CloseIsListed()
    ensures TableAt(DEFERRED_CLOSE, 0, 1) == [Builtin(3, "close", false, 1)]
  {
    var f, d := DEFERRED_CLOSE, Defer(Builtin(3, "close", false, 1));
    assert f.order[0] == 0 && Position(f.order, 0) == 0;
    assert Before(f, 0, 1) == [d];
    assert [d][..0] == [];
  }
}
