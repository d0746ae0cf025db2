/** What a panic does: with a defer frame it starts every pending call, newest first, whatever the
    calls do, and returns through the recover block; without one it ends the program. */
module DeferPanics {
  import opened Graphs
  import opened DeferEmission
  import opened DeferMachine
  import DeferHazards

  /** The emitted code after further choices. */
  ghost function After(f: Func, c: Concrete, cs: seq<Choice>): Concrete
    decreases |cs|
  {
    if cs == [] then c else After(f, ConcreteStep(f, c, cs[0]), cs[1..])
  }

  lemma {:induction false} RunAfter(f: Func, cs: seq<Choice>, ds: seq<Choice>)
    ensures ConcreteRun(f, cs + ds) == After(f, ConcreteRun(f, cs), ds)
    decreases |ds|
  {
    hide ConcreteStep;
    if ds == [] {
      assert cs + ds == cs;
    } else {
      var next := cs + [ds[0]];
      assert next[..|next| - 1] == cs;
      assert cs + ds == next + ds[1..];
      RunAfter(f, next, ds[1..]);
    }
  }

  lemma {:induction false} AfterConcat(f: Func, c: Concrete, cs: seq<Choice>, ds: seq<Choice>)
    ensures After(f, c, cs + ds) == After(f, After(f, c, cs), ds)
    decreases |cs|
  {
    hide ConcreteStep;
    if cs == [] {
      assert cs + ds == ds;
    } else {
      assert (cs + ds)[1..] == cs[1..] + ds;
      AfterConcat(f, ConcreteStep(f, c, cs[0]), cs[1..], ds);
    }
  }

  /** The code stands at something that can raise a panic: a call, the printing of an interface
      value, or inside a deferred call that can panic. */
  predicate CanPanic(f: Func, c: Concrete) {
    match c.pc
    case At(b, i) => b < |f.code| && i < |f.code[b]| && (f.code[b][i].Call? || f.code[b][i].Print?)
    case InCall(_, mayPanic) => mayPanic
    case _ => false
  }

  /** A checkpoint exists, or the instruction sets one. */
  predicate HasCheckpoint(f: Func, c: Concrete)
    requires CanPanic(f, c)
  {
    c.armed || (c.pc.At? && f.code[c.pc.block][c.pc.index].Call?)
  }

  lemma {:induction false} ReversedSnoc(ds: seq<Deferred>, d: Deferred)
    ensures Reversed(ds + [d]) == [d.Call()] + Reversed(ds)
  {
    if ds == [] {
      assert [d][1..] == [];
    } else {
      assert (ds + [d])[1..] == ds[1..] + [d];
      ReversedSnoc(ds[1..], d);
    }
  }

  /** One turn of the landing pad's drain: the newest call is started and, whether it panics or
      returns, the drain goes on. */
  lemma PadTurn(f: Func, c: Concrete, s: Spec, first: Choice, second: Choice) returns (c': Concrete, s': Spec)
    requires WellFormed(f) && Simulates(f, c, s) && f.frame && c.pc == Drain(ToRecover) && c.armed && s.stack != []
    ensures c' == ConcreteStep(f, ConcreteStep(f, c, first), second) && Simulates(f, c', s')
    ensures c'.pc == Drain(ToRecover) && c'.armed && s'.stack == s.stack[..|s.stack| - 1]
    ensures c'.log == c.log + [s.stack[|s.stack| - 1].Call()]
  {
    hide HasList, Linked, Bodies, SlotsBehind, HeapBelow, WellFormed, FullTable, IndexOf, OnTrail;
    HeadShowsStack(FullTable(f), c.cells, c.head, s.stack);
    PopStartsTop(FullTable(f), Cases(f, ToRecover), c, s.stack, ToRecover);
    CallbackRestores(FullTable(f), s.stack[|s.stack| - 1]);
    SimulateStep(f, c, s, first);
    var c1, s1 := ConcreteStep(f, c, first), SpecStep(f, s, first);
    SimulateStep(f, c1, s1, second);
    c', s' := ConcreteStep(f, c1, second), SpecStep(f, s1, second);
  }

  lemma PadEnd(f: Func, c: Concrete, s: Spec, ch: Choice)
    requires Simulates(f, c, s) && c.pc == Drain(ToRecover) && s.stack == []
    ensures var c' := ConcreteStep(f, c, ch); c'.pc == At(f.recover, 0) && c'.head == Nil && c'.log == c.log
  {
    HeadShowsStack(FullTable(f), c.cells, c.head, s.stack);
  }

  /** The landing pad starts exactly the pending calls, newest first, for all choices. */
  lemma {:induction false} LandingPadDrains(f: Func, c: Concrete, s: Spec, more: seq<Choice>)
    requires WellFormed(f) && Simulates(f, c, s) && f.frame && c.pc == Drain(ToRecover) && c.armed
    requires |more| == 2 * |s.stack| + 1
    ensures var e := After(f, c, more);
      e.pc == At(f.recover, 0) && e.head == Nil && e.log == c.log + Reversed(s.stack)
    decreases |s.stack|
  {
    hide WellFormed, Simulates, ConcreteStep, Reversed;
    if s.stack == [] {
      PadEnd(f, c, s, more[0]);
      assert more[1..] == [];
      NoneReversed();
    } else {
      var n := |s.stack| - 1;
      var c', s' := PadTurn(f, c, s, more[0], more[1]);
      assert more[1..][0] == more[1] && more[1..][1..] == more[2..];
      LandingPadDrains(f, c', s', more[2..]);
      ReversedSnoc(s.stack[..n], s.stack[n]);
      assert s.stack == s.stack[..n] + [s.stack[n]];
    }
  }

  lemma NoneReversed()
    ensures Reversed([]) == []
  {
  }

  lemma PanicLands(f: Func, c: Concrete, s: Spec, ch: Choice)
    requires WellFormed(f) && Simulates(f, c, s) && f.frame && CanPanic(f, c) && HasCheckpoint(f, c) && ch.panics
    ensures var c', s' := ConcreteStep(f, c, ch), SpecStep(f, s, ch);
      Simulates(f, c', s') && c'.pc == Drain(ToRecover) && c'.armed && s'.stack == s.stack && c'.log == c.log
  {
    hide HasList, SlotsBehind, HeapBelow, WellFormed, FullTable, OnTrail;
    SimulateStep(f, c, s, ch);
  }

  /** The recover block runs to its end and returns. */
  lemma {:induction false} RecoverReturns(f: Func, c: Concrete, i: nat, more: seq<Choice>)
    requires WellFormed(f) && i <= |f.code[f.recover]| && c.pc == At(f.recover, i)
    requires |more| == |f.code[f.recover]| - i + 1
    ensures After(f, c, more) == c.(pc := Exited)
    decreases |more|
  {
    if i < |f.code[f.recover]| {
      RecoverReturns(f, c.(pc := At(f.recover, i + 1)), i + 1, more[1..]);
    } else {
      assert more[1..] == [];
    }
  }

  /** On every run of a function with a defer frame that raises a panic with a checkpoint set, and
      whatever the deferred calls then do: after two steps for each pending call the drain is over,
      exactly the pending calls have been started, newest first, and the function returns through
      its recover block without starting anything else. */
  lemma PanicRunsDefers(f: Func, cs: seq<Choice>, ch: Choice, more: seq<Choice>, rest: seq<Choice>)
    requires WellFormed(f) && f.frame && ConcreteRun(f, cs).pc != Wild && ch.panics
    requires CanPanic(f, ConcreteRun(f, cs)) && HasCheckpoint(f, ConcreteRun(f, cs))
    requires |more| == 2 * |SpecRun(f, cs).stack| + 1 && |rest| == |f.code[f.recover]| + 1
    ensures var c, drained := ConcreteRun(f, cs), ConcreteRun(f, cs + [ch] + more);
      && drained.pc == At(f.recover, 0) && drained.head == Nil
      && drained.log == c.log + Reversed(SpecRun(f, cs).stack)
      && ConcreteRun(f, cs + [ch] + more + rest) == drained.(pc := Exited)
  {
    hide WellFormed, Simulates, ConcreteStep, SpecStep, Reversed, CanPanic, HasCheckpoint;
    var c, s := ConcreteRun(f, cs), SpecRun(f, cs);
    Refinement(f, cs);
    PanicLands(f, c, s, ch);
    LandingPadDrains(f, ConcreteStep(f, c, ch), SpecStep(f, s, ch), more);
    RunAfter(f, cs, [ch]);
    assert [ch][1..] == [];
    RunAfter(f, cs + [ch], more);
    RunAfter(f, cs + [ch] + more, rest);
    RecoverReturns(f, ConcreteRun(f, cs + [ch] + more), 0, rest);
  }

  lemma {:induction false} AbortedStays(f: Func, c: Concrete, more: seq<Choice>)
    requires c.pc == Aborted
    ensures After(f, c, more) == c
    decreases |more|
  {
    if more != [] {
      AbortedStays(f, c, more[1..]);
    }
  }

  /** Without a defer frame a panic ends the program and starts nothing. */
  lemma PanicAborts(f: Func, cs: seq<Choice>, ch: Choice, more: seq<Choice>)
    requires !f.frame && CanPanic(f, ConcreteRun(f, cs)) && ch.panics
    ensures var c, e := ConcreteRun(f, cs), ConcreteRun(f, cs + [ch] + more);
      e.pc == Aborted && e.log == c.log && e.head == c.head
  {
    var c := ConcreteRun(f, cs);
    RunAfter(f, cs, [ch]);
    assert [ch][1..] == [];
    RunAfter(f, cs + [ch], more);
    AbortedStays(f, ConcreteRun(f, cs + [ch]), more);
  }

  /** `func f() { defer g(); h() }`: when h panics, g is started and f returns. */
  lemma PanicExample(f: Func, d: Deferred, quiet: Choice)
    requires f == Func([[], []], [[Defer(Direct(7, false, 0)), Call, RunDefers], []], [0, 1], 1, true)
    requires d == DDirect(7, false, []) && !quiet.panics
    ensures WellFormed(f)
    ensures var cs := [quiet.(call := d), quiet.(panics := true), quiet, quiet, quiet, quiet];
      ConcreteRun(f, cs).pc == Exited && ConcreteRun(f, cs).log == [d.Call()]
  {
    var first, panics := [quiet.(call := d)], quiet.(panics := true);
    DeferHazards.TwoBlocksWellFormed(f);
    FirstDefer(f, d, quiet.(call := d));
    assert [d][1..] == [];
    PanicRunsDefers(f, first, panics, [quiet, quiet, quiet], [quiet]);
    assert first + [panics] + [quiet, quiet, quiet] + [quiet] ==
      [quiet.(call := d), panics, quiet, quiet, quiet, quiet];
  }

  lemma FirstDefer(f: Func, d: Deferred, ch: Choice)
    requires |f.code| > 0 && |f.code[0]| > 1 && f.code[0][0] == Defer(d.Callee()) && ch.call == d
    ensures ConcreteRun(f, [ch]).pc == At(0, 1) && ConcreteRun(f, [ch]).log == [] && SpecRun(f, [ch]).stack == [d]
  {
    assert [ch][..0] == [];
    assert ConcreteRun(f, []) == CONCRETE_INIT && SpecRun(f, []) == SPEC_INIT;
  }

  // ---------------------------------------------------------------------------
  // Heap use

  /** The step executes a defer statement in a block that control can come back to. */
  ghost predicate DefersInLoop(f: Func, c: Concrete, ch: Choice) {
    && c.pc.At? && c.pc.block < |f.code| && c.pc.index < |f.code[c.pc.block]|
    && f.code[c.pc.block][c.pc.index] == Defer(ch.call.Callee())
    && OnCycle(f.preds, c.pc.block)
  }

  /** How many steps of a run do so. */
  ghost function LoopDefers(f: Func, cs: seq<Choice>): nat {
    if cs == [] then 0
    else
      var pre := cs[..|cs| - 1];
      LoopDefers(f, pre) + (if DefersInLoop(f, ConcreteRun(f, pre), cs[|cs| - 1]) then 1 else 0)
  }

  /** Heap cells are allocated for exactly the defers executed in loops, one each. */
  lemma {:induction false} HeapCellsCount(f: Func, cs: seq<Choice>)
    ensures ConcreteRun(f, cs).heapNext == LoopDefers(f, cs)
  {
    if cs != [] {
      HeapCellsCount(f, cs[..|cs| - 1]);
    }
  }
}
