/** What a caller of `fiber_resume` observes: one resume as a function on coroutines, and the
    log of any sequence of resumes of a fiber. */
module FiberTraces {
  import opened Fibers
  import opened FiberMachine
  import opened Options

  /** The effects up to the next yield or return, and the code that stops there. */
  function Segment(co: Co): (seq<Value>, Co) {
    match co
    case Use(kb, rest) => var (uses, stop) := Segment(rest); ([kb] + uses, stop)
    case _ => ([], co)
  }

  ghost predicate Stops(co: Co) {
    Segment(co).1.Return? || Segment(co).1.Yield?
  }

  datatype Outcome = Outcome(next: Coroutine, status: Status, v: Value, uses: seq<Value>)

  function Body(c: Coroutine, arg: Value): Co
    requires c.Fresh? || c.Suspended?
  {
    if c.Fresh? then c.entry(arg) else c.k(arg)
  }

  /** One resume: run the body to its next yield or return; a finished fiber is an error. */
  function ResumeOnce(c: Coroutine, arg: Value): Outcome {
    if c.Fresh? || c.Suspended? then
      var (uses, stop) := Segment(Body(c, arg));
      match stop
      case Return(v) => Outcome(Finished, Ok, v, uses)
      case Yield(v, k) => Outcome(Suspended(k), Yielded, v, uses)
      case _ => Outcome(Running, Error, NULL, uses)
    else Outcome(c, Error, NULL, [])
  }

  ghost function Uses(uses: seq<Value>): seq<Event> {
    seq(|uses|, i requires 0 <= i < |uses| => Used(uses[i]))
  }

  /** The events of resuming fiber `g` with each argument in turn. */
  ghost function Trace(c: Coroutine, g: nat, args: seq<Value>): seq<Event>
    decreases |args|
  {
    if args == [] then []
    else
      var o := ResumeOnce(c, args[0]);
      Uses(o.uses) + [Resumed(g, o.status, o.v)] + Trace(o.next, g, args[1..])
  }

  /** No segment of the body resumes or allocates other fibers. */
  ghost predicate Simple(c: Coroutine, args: seq<Value>)
    decreases |args|
  {
    args == [] ||
    (&& !c.Running? && (c.Finished? || Stops(Body(c, args[0])))
     && Simple(ResumeOnce(c, args[0]).next, args[1..]))
  }

  ghost function Iterate<T>(f: T -> T, s: T, n: nat): T {
    if n == 0 then s else f(Iterate(f, s, n - 1))
  }

  ghost predicate Leads(s: Spec, t: Spec) {
    exists n :: Iterate(SpecStep, s, n) == t
  }

  lemma {:induction false} IterateAdd<T>(f: T -> T, s: T, a: nat, b: nat)
    ensures Iterate(f, Iterate(f, s, a), b) == Iterate(f, s, a + b)
  {
    if b > 0 {
      IterateAdd(f, s, a, b - 1);
    }
  }

  lemma LeadsStep(s: Spec, t: Spec)
    requires SpecStep(s) == t
    ensures Leads(s, t)
  {
    var f := SpecStep;
    assert Iterate(f, s, 0) == s;
    assert Iterate(f, s, 1) == f(s);
  }

  lemma LeadsTrans(s: Spec, t: Spec, u: Spec)
    requires Leads(s, t) && Leads(t, u)
    ensures Leads(s, u)
  {
    var f := SpecStep;
    var a :| Iterate(f, s, a) == t;
    var b :| Iterate(f, t, b) == u;
    IterateAdd(f, s, a, b);
  }

  lemma LeadsSelf(s: Spec)
    ensures Leads(s, s)
  {
    assert Iterate(SpecStep, s, 0) == s;
  }

  lemma {:induction false} RunIsIterate(main: Co, n: nat)
    ensures SpecRun(main, n) == Iterate(SpecStep, SpecRun(main, 0), n)
  {
    if n > 0 {
      RunIsIterate(main, n - 1);
    }
  }

  ghost function WithTop(s: Spec, co: Co): Spec
    requires s.frames != []
  {
    var n := |s.frames| - 1;
    s.(frames := s.frames[..n] + [s.frames[n].(code := Runs(co))])
  }

  /** Running user code to the end of its segment. */
  lemma {:induction false} SegmentRuns(s: Spec, co: Co)
    requires s.frames != [] && s.frames[|s.frames| - 1].code == Runs(co)
    ensures Leads(s, WithTop(s, Segment(co).1).(log := s.log + Uses(Segment(co).0)))
    decreases co
  {
    if co.Use? {
      var s' := WithTop(s, co.rest).(log := s.log + [Used(co.kb)]);
      LeadsStep(s, s');
      SegmentRuns(s', co.rest);
      var uses := Segment(co.rest).0;
      assert Uses([co.kb] + uses) == [Used(co.kb)] + Uses(uses);
      assert s.log + [Used(co.kb)] + Uses(uses) == s.log + ([Used(co.kb)] + Uses(uses));
      assert WithTop(s', Segment(co).1).frames == WithTop(s, Segment(co).1).frames;
      LeadsTrans(s, s', WithTop(s, Segment(co).1).(log := s.log + Uses(Segment(co).0)));
    } else {
      LeadsSelf(s);
      assert WithTop(s, co).frames == s.frames;
      assert s.log + Uses([]) == s.log;
    }
  }

  /** The state in which a resume with outcome `o` has returned to its caller. */
  ghost function Returned(s: Spec, g: nat, cont: (Value, Status) -> Co, o: Outcome): Spec
    requires s.frames != [] && g < |s.fibers|
  {
    WithTop(s, cont(o.v, o.status)).(
      fibers := s.fibers[g := o.next], log := s.log + (Uses(o.uses) + [Resumed(g, o.status, o.v)]))
  }

  lemma FinishedReturns(s: Spec, g: nat, arg: Value, cont: (Value, Status) -> Co)
    requires s.frames != [] && s.frames[|s.frames| - 1].code == Runs(Resume(g, arg, cont))
    requires g < |s.fibers| && s.fibers[g].Finished?
    ensures Leads(s, Returned(s, g, cont, ResumeOnce(s.fibers[g], arg)))
  {
    assert s.fibers[g := Finished] == s.fibers;
    assert Uses([]) + [Resumed(g, Error, NULL)] == [Resumed(g, Error, NULL)];
    LeadsStep(s, Returned(s, g, cont, ResumeOnce(s.fibers[g], arg)));
  }

  lemma BodyEnters(s: Spec, g: nat, arg: Value, cont: (Value, Status) -> Co)
    requires s.frames != [] && s.frames[|s.frames| - 1].code == Runs(Resume(g, arg, cont))
    requires g < |s.fibers| && (s.fibers[g].Fresh? || s.fibers[g].Suspended?)
    ensures Leads(s, SpecEnter(s, g, cont, Body(s.fibers[g], arg)))
  {
    LeadsStep(s, SpecEnter(s, g, cont, Body(s.fibers[g], arg)));
  }

  lemma BodyLeaves(s: Spec, g: nat, cont: (Value, Status) -> Co, co: Co, uses: seq<Value>, o: Outcome)
    requires s.frames != [] && g < |s.fibers| && o.uses == uses
    requires || (co == Return(o.v) && o.status == Ok && o.next == Finished)
             || (co.Yield? && co.v == o.v && o.status == Yielded && o.next == Suspended(co.k))
    ensures Leads(SpecEnter(s, g, cont, co).(log := s.log + Uses(uses)), Returned(s, g, cont, o))
  {
    var s2 := SpecEnter(s, g, cont, co).(log := s.log + Uses(uses));
    SpecDelivers(s2, g, co, cont, o.next, o.status, o.v);
    assert s.fibers[g := Running][g := o.next] == s.fibers[g := o.next];
    var n := |s.frames| - 1;
    assert s2.frames[..n] == s.frames[..n];
    assert s.log + Uses(uses) + [Resumed(g, o.status, o.v)] == s.log + (Uses(uses) + [Resumed(g, o.status, o.v)]);
    LeadsStep(s2, Returned(s, g, cont, o));
  }

  /** A call of `fiber_resume` on a fiber that is not running returns what `ResumeOnce` says,
      and changes nothing else. */
  lemma ResumeReturns(s: Spec, g: nat, arg: Value, cont: (Value, Status) -> Co)
    requires s.frames != [] && s.frames[|s.frames| - 1].code == Runs(Resume(g, arg, cont))
    requires g < |s.fibers| && !s.fibers[g].Running? && (s.fibers[g].Finished? || Stops(Body(s.fibers[g], arg)))
    ensures Leads(s, Returned(s, g, cont, ResumeOnce(s.fibers[g], arg)))
  {
    var c := s.fibers[g];
    if c.Finished? {
      FinishedReturns(s, g, arg, cont);
    } else {
      var co := Body(c, arg);
      var (uses, stop) := Segment(co);
      var s1 := SpecEnter(s, g, cont, co);
      var s2 := SpecEnter(s, g, cont, stop).(log := s.log + Uses(uses));
      BodyEnters(s, g, arg, cont);
      SegmentRuns(s1, co);
      assert WithTop(s1, stop).frames == s2.frames;
      BodyLeaves(s, g, cont, stop, uses, ResumeOnce(c, arg));
      LeadsTrans(s1, s2, Returned(s, g, cont, ResumeOnce(c, arg)));
      LeadsTrans(s, s1, Returned(s, g, cont, ResumeOnce(c, arg)));
    }
  }

  /** A main program that resumes one fiber with each argument in turn. */
  ghost function Resumes(g: nat, args: seq<Value>): Co
    decreases |args|
  {
    if args == [] then Return(NULL) else Resume(g, args[0], (v, st) => Resumes(g, args[1..]))
  }

  ghost function Driver(entry: Value -> Co, args: seq<Value>): Co {
    Alloc(entry, (g: nat) => Resumes(g, args))
  }

  lemma NextResume(s: Spec, g: nat, args: seq<Value>) returns (s': Spec)
    requires s.frames != [] && s.frames[|s.frames| - 1].code == Runs(Resumes(g, args)) && args != []
    requires g < |s.fibers| && !s.fibers[g].Running? && (s.fibers[g].Finished? || Stops(Body(s.fibers[g], args[0])))
    ensures Leads(s, s') && |s'.frames| == |s.frames| && s'.frames[|s'.frames| - 1].code == Runs(Resumes(g, args[1..]))
    ensures var o := ResumeOnce(s.fibers[g], args[0]);
      g < |s'.fibers| && s'.fibers[g] == o.next && s'.log == s.log + (Uses(o.uses) + [Resumed(g, o.status, o.v)])
  {
    var cont := Resumes(g, args).cont;
    var o := ResumeOnce(s.fibers[g], args[0]);
    assert cont(o.v, o.status) == Resumes(g, args[1..]);
    ResumeReturns(s, g, args[0], cont);
    s' := Returned(s, g, cont, o);
  }

  lemma {:induction false} ResumesTrace(s: Spec, g: nat, args: seq<Value>) returns (t: Spec)
    requires s.frames != [] && s.frames[|s.frames| - 1].code == Runs(Resumes(g, args))
    requires g < |s.fibers| && Simple(s.fibers[g], args)
    ensures Leads(s, t) && t.log == s.log + Trace(s.fibers[g], g, args)
    ensures |t.frames| == |s.frames| && t.frames[|t.frames| - 1].code == Runs(Return(NULL))
    decreases |args|
  {
    if args == [] {
      t := s;
      LeadsSelf(s);
    } else {
      var s' := NextResume(s, g, args);
      t := ResumesTrace(s', g, args[1..]);
      LeadsTrans(s, s', t);
      TraceAppends(s.log, s.fibers[g], g, args);
    }
  }

  lemma TraceAppends(log: seq<Event>, c: Coroutine, g: nat, args: seq<Value>)
    requires args != []
    ensures var o := ResumeOnce(c, args[0]);
      log + Trace(c, g, args) == log + (Uses(o.uses) + [Resumed(g, o.status, o.v)]) + Trace(o.next, g, args[1..])
  {
    var o := ResumeOnce(c, args[0]);
    var head, tail := Uses(o.uses) + [Resumed(g, o.status, o.v)], Trace(o.next, g, args[1..]);
    assert log + head + tail == log + (head + tail);
  }

  /** A main program that has returned. */
  ghost predicate Ended(t: Spec) {
    |t.frames| == 1 && t.frames[0].code.Runs? && t.frames[0].code.co.Return?
  }

  lemma MachineEnded(m: Machine)
    requires Inv(m) && Ended(Abs(m))
    ensures Step(m) == m
  {
    assert Abs(m).frames[0] == SpecFrame(m.frames[0].fiber, AbsCode(m.rt, m.frames[0].code));
  }

  /** Once the main program has returned, nothing more happens. */
  lemma {:induction false} StaysEnded(main: Co, n: nat, m: nat)
    requires n <= m && Inv(MachineRun(main, n)) && Ended(Abs(MachineRun(main, n)))
    ensures MachineRun(main, m) == MachineRun(main, n)
    decreases m
  {
    hide Inv, Abs, Step, Ended;
    if n < m {
      StaysEnded(main, n, m - 1);
      MachineEnded(MachineRun(main, n));
    }
  }

  /** A state the coroutines end in is what the flag-driven code ends in, with the same log. */
  lemma EndIsReached(main: Co, t: Spec) returns (n: nat)
    requires Leads(SpecRun(main, 0), t) && Ended(t)
    ensures forall m: nat :: m >= n ==> MachineRun(main, m).log == t.log
  {
    hide Inv, Step, SpecStep, Ended;
    var j :| Iterate(SpecStep, SpecRun(main, 0), j) == t;
    RunIsIterate(main, j);
    n := Completeness(main, j);
    forall m: nat | m >= n ensures MachineRun(main, m).log == t.log {
      StaysEnded(main, n, m);
    }
  }

  /** For every body and every sequence of resume arguments, the flag-driven code ends with the
      trace of the direct-style coroutine in its log. */
  lemma FlagsGiveTrace(entry: Value -> Co, args: seq<Value>) returns (n: nat)
    requires Simple(Fresh(entry), args)
    ensures forall m: nat :: m >= n ==> MachineRun(Driver(entry, args), m).log == Trace(Fresh(entry), 0, args)
  {
    var main := Driver(entry, args);
    var s0 := SpecRun(main, 0);
    var s1 := Spec([Fresh(entry)], [SpecFrame(None, Runs(Resumes(0, args)))], []);
    LeadsStep(s0, s1);
    var t := ResumesTrace(s1, 0, args);
    LeadsTrans(s0, s1, t);
    n := EndIsReached(main, t);
    assert t.log == Trace(Fresh(entry), 0, args);
  }

  /** A finished fiber answers every later resume with an error and never runs again. */
  lemma {:induction false} FinishedStaysFinished(g: nat, args: seq<Value>)
    ensures Trace(Finished, g, args) == seq(|args|, _ => Resumed(g, Error, NULL))
  {
    if args != [] {
      FinishedStaysFinished(g, args[1..]);
      assert Uses([]) == [];
    }
  }
}
