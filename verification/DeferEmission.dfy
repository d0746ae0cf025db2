/** What the defer lowering emits: the record stored by each `defer` statement, the
    callback table shared by all drains, and the switch each drain is given. */
module DeferEmission {
  import opened Graphs

  /** The five ways a call can be deferred. One value stands for one key of the
      builder's callback maps; `arity` is the number of arguments in the source. A builtin
      is keyed by its own SSA value; `printsItf` says that one of its arguments is an
      interface value. */
  datatype Callee =
    | Invoke(meth: string, arity: nat)
    | Direct(fn: nat, exported: bool, arity: nat)
    | Closure(fn: nat, arity: nat)
    | Builtin(value: nat, name: string, printsItf: bool, arity: nat)
    | FuncExpr(value: nat, arity: nat)
  {
    /** Whether the call can raise a panic that jumps to the defer frame. Of the builtins,
        only printing an interface value runs code of the program; the others at most call
        `runtimePanic`, which aborts. */
    predicate MayPanic() {
      this.Builtin? ==> printsItf && (name == "print" || name == "println")
    }
  }

  datatype Value = Word(w: int) | FuncValue(context: int, ptr: int) | Undef

  /** A deferred call with everything Go evaluates when the statement executes. */
  datatype Deferred =
    | DInvoke(meth: string, typecode: Value, receiver: Value, args: seq<Value>)
    | DDirect(fn: nat, exported: bool, args: seq<Value>)
    | DClosure(fn: nat, context: Value, args: seq<Value>)
    | DBuiltin(value: nat, name: string, printsItf: bool, args: seq<Value>)
    | DFuncExpr(value: nat, env: int, ptr: int, args: seq<Value>)
  {
    function Callee(): Callee {
      match this
      case DInvoke(m, _, _, args) => Invoke(m, |args|)
      case DDirect(fn, e, args) => Direct(fn, e, |args|)
      case DClosure(fn, _, args) => Closure(fn, |args|)
      case DBuiltin(v, name, itf, args) => Builtin(v, name, itf, |args|)
      case DFuncExpr(v, _, _, args) => FuncExpr(v, |args|)
    }

    /** The struct fields after `callback` and `next`. */
    function Fields(): seq<Value> {
      match this
      case DInvoke(_, typecode, receiver, args) => [typecode, receiver] + args
      case DDirect(_, _, args) => args
      case DClosure(_, context, args) => args + [context]
      case DBuiltin(_, _, _, args) => args
      case DFuncExpr(_, context, ptr, args) => [FuncValue(context, ptr)] + args
    }

    /** The call that has to be made, under TinyGo's calling convention: receiver and
        arguments, then the typecode of an interface call, then the context. */
    function Call(): Invocation {
      match this
      case DInvoke(m, typecode, receiver, args) =>
        Invocation(Thunk(m), [receiver] + args + [typecode, Undef])
      case DDirect(fn, exported, args) =>
        Invocation(Function(fn), if exported then args else args + [Undef])
      case DClosure(fn, context, args) => Invocation(Function(fn), args + [context])
      case DBuiltin(_, name, _, args) => Invocation(Operation(name), args)
      case DFuncExpr(_, context, ptr, args) => Invocation(Pointer(ptr), args + [Word(context)])
    }
  }

  datatype Target = Thunk(meth: string) | Function(fn: nat) | Operation(name: string) | Pointer(ptr: int)
  datatype Invocation = Invocation(target: Target, params: seq<Value>)

  /** One record on the defer list. */
  datatype Addr = Nil | Slot(block: nat, index: nat) | Heap(n: nat)
  datatype Record = Record(callback: nat, next: Addr, fields: seq<Value>)

  /** The number of fields the drain reads for a callee. */
  function FieldCount(c: Callee): nat {
    match c
    case Invoke(_, n) => n + 2
    case Direct(_, _, n) => n
    case Closure(_, n) => n + 1
    case Builtin(_, _, _, n) => n
    case FuncExpr(_, n) => n + 1
  }

  /** The call made by the switch case of `c` from the fields of a record. */
  function Dispatch(c: Callee, fields: seq<Value>): (r: Invocation) {
    var forward := if FieldCount(c) <= |fields| then fields[..FieldCount(c)] else fields;
    match c
    case Invoke(m, _) =>
      // Move the typecode from the start to the end and add an unused context.
      if forward == [] then Invocation(Thunk(m), [Undef])
      else Invocation(Thunk(m), forward[1..] + [forward[0]] + [Undef])
    case Direct(fn, exported, _) =>
      Invocation(Function(fn), if exported then forward else forward + [Undef])
    case Closure(fn, _) => Invocation(Function(fn), forward)
    case Builtin(_, name, _, _) => Invocation(Operation(name), forward)
    case FuncExpr(_, _) =>
      if forward == [] || !forward[0].FuncValue? then Invocation(Pointer(0), forward)
      else Invocation(Pointer(forward[0].ptr), forward[1..] + [Word(forward[0].context)])
  }

  /** Reading a record back makes exactly the call that was deferred. */
  lemma DispatchRestoresCall(d: Deferred)
    ensures Dispatch(d.Callee(), d.Fields()) == d.Call()
  {
    assert d.Fields()[..FieldCount(d.Callee())] == d.Fields();
    match d
    case DInvoke(m, typecode, receiver, args) =>
      assert d.Fields()[1..] + [typecode] + [Undef] == [receiver] + args + [typecode, Undef];
    case DFuncExpr(_, _, _, args) =>
      assert d.Fields()[1..] == args;
    case _ =>
  }

  // ---------------------------------------------------------------------------
  // Functions and the order in which they are compiled

  /** `Plain` cannot panic; `Call` sets a checkpoint and may panic; `Print` prints an
      interface value, which may panic although no checkpoint is set. */
  datatype Instr = Plain | Call | Print | Defer(callee: Callee) | RunDefers

  /** `preds` is the block graph with entry block 0, `order` the order in which blocks
      are compiled, `recover` the block control continues at after a panic, and
      `frame` says whether the target supports recovering from a panic. */
  datatype Func = Func(preds: Graph, code: seq<seq<Instr>>, order: seq<nat>, recover: nat, frame: bool)

  ghost predicate WellFormed(f: Func) {
    && Closed(f.preds)
    && |f.code| == |f.preds|
    && 0 < f.recover < |f.preds|
    && |f.order| == |f.preds|
    && (forall k :: 0 <= k < |f.order| ==> f.order[k] < |f.preds|)
    && (forall j, k :: 0 <= j < k < |f.order| ==> f.order[j] != f.order[k])
    && (forall b :: 0 <= b < |f.preds| ==> b in f.order)
    // The recover block only loads the named results and returns.
    && (forall b :: 0 <= b < |f.preds| ==> !Edge(f.preds, f.recover, b) && !Edge(f.preds, b, f.recover))
    && (forall i :: 0 <= i < |f.code[f.recover]| ==> f.code[f.recover][i].Plain?)
  }

  function Register(table: seq<Callee>, c: Callee): seq<Callee> {
    if c in table then table else table + [c]
  }

  /** The callback table after compiling `code`. */
  function Table(code: seq<Instr>): seq<Callee> {
    if code == [] then []
    else
      var t := Table(code[..|code| - 1]);
      var x := code[|code| - 1];
      if x.Defer? then Register(t, x.callee) else t
  }

  function Flatten(f: Func, blocks: seq<nat>): seq<Instr> {
    if blocks == [] then []
    else
      var b := blocks[|blocks| - 1];
      Flatten(f, blocks[..|blocks| - 1]) + (if b < |f.code| then f.code[b] else [])
  }

  /** Everything compiled before instruction `i` of block `b`. */
  function Before(f: Func, b: nat, i: nat): seq<Instr>
    requires b < |f.code| && i <= |f.code[b]|
  {
    Flatten(f, f.order[..Position(f.order, b)]) + f.code[b][..i]
  }

  function Position(order: seq<nat>, b: nat): (k: nat)
    ensures k <= |order|
    ensures k < |order| ==> order[k] == b
    ensures k == |order| ==> b !in order
  {
    if order == [] then 0 else if order[0] == b then 0 else 1 + Position(order[1..], b)
  }

  /** The callbacks that the drain compiled at `(b, i)` has switch cases for. */
  function TableAt(f: Func, b: nat, i: nat): seq<Callee>
    requires b < |f.code| && i <= |f.code[b]|
  {
    Table(Before(f, b, i))
  }

  /** The callbacks known once the whole function is compiled, as the landing pad has them. */
  function FullTable(f: Func): seq<Callee> {
    Table(Flatten(f, f.order))
  }

  ghost predicate NoDuplicates(t: seq<Callee>) {
    forall i, j :: 0 <= i < j < |t| ==> t[i] != t[j]
  }

  lemma {:induction false} TableNoDuplicates(code: seq<Instr>)
    ensures NoDuplicates(Table(code))
  {
    if code != [] {
      TableNoDuplicates(code[..|code| - 1]);
    }
  }

  /** Compiling more code only appends to the table. */
  lemma {:induction false} TableGrows(a: seq<Instr>, b: seq<Instr>)
    ensures Table(a) <= Table(a + b)
  {
    if b == [] {
      assert a + b == a;
    } else {
      var c := b[..|b| - 1];
      TableGrows(a, c);
      assert (a + b)[..|a + b| - 1] == a + c;
    }
  }

  lemma {:induction false} TableContains(code: seq<Instr>, k: nat)
    requires k < |code| && code[k].Defer?
    ensures code[k].callee in Table(code)
  {
    if k == |code| - 1 {
      var t := Table(code[..k]);
      if code[k].callee !in t {
        assert Table(code)[|t|] == code[k].callee;
      }
    } else {
      var pre := code[..|code| - 1];
      TableContains(pre, k);
      assert pre + [code[|code| - 1]] == code;
      TableGrows(pre, [code[|code| - 1]]);
      assert forall c :: c in Table(pre) ==> c in Table(code);
    }
  }

  lemma {:induction false} FlattenSplit(f: Func, xs: seq<nat>, ys: seq<nat>)
    ensures Flatten(f, xs + ys) == Flatten(f, xs) + Flatten(f, ys)
  {
    if ys == [] {
      assert xs + ys == xs;
    } else {
      assert (xs + ys)[..|xs + ys| - 1] == xs + ys[..|ys| - 1];
      FlattenSplit(f, xs, ys[..|ys| - 1]);
    }
  }

  lemma CompiledAfter(f: Func, b: nat, i: nat) returns (rest: seq<Instr>)
    requires b < |f.code| && i <= |f.code[b]| && b in f.order
    ensures Flatten(f, f.order) == Before(f, b, i) + rest
  {
    var k := Position(f.order, b);
    var done, upto, after := f.order[..k], f.order[..k + 1], f.order[k + 1..];
    assert upto + after == f.order;
    FlattenSplit(f, upto, after);
    assert upto[..|upto| - 1] == done;
    assert Flatten(f, upto) == Flatten(f, done) + f.code[b];
    rest := f.code[b][i..] + Flatten(f, after);
    Reassociate(Flatten(f, done), f.code[b], i, Flatten(f, after));
  }

  lemma Reassociate(x: seq<Instr>, y: seq<Instr>, i: nat, z: seq<Instr>)
    requires i <= |y|
    ensures x + y + z == (x + y[..i]) + (y[i..] + z)
  {
  }

  /** The table a drain was compiled with is a prefix of the final one. */
  lemma TableAtPrefix(f: Func, b: nat, i: nat)
    requires b < |f.code| && i <= |f.code[b]| && b in f.order
    ensures TableAt(f, b, i) <= FullTable(f)
  {
    var rest := CompiledAfter(f, b, i);
    TableGrows(Before(f, b, i), rest);
  }

  /** Every defer statement of the function has a callback number. */
  lemma DeferHasCallback(f: Func, b: nat, i: nat)
    requires b < |f.code| && i < |f.code[b]| && f.code[b][i].Defer? && b in f.order
    ensures f.code[b][i].callee in FullTable(f)
  {
    var upto := Before(f, b, i + 1);
    var k := |upto| - 1;
    assert upto[k] == f.code[b][i];
    TableContains(upto, k);
    TableAtPrefix(f, b, i + 1);
    assert forall c :: c in TableAt(f, b, i + 1) ==> c in FullTable(f);
  }

  function IndexOf(t: seq<Callee>, c: Callee): (k: nat)
    ensures k <= |t|
    ensures k < |t| ==> t[k] == c
    ensures k == |t| <==> c !in t
  {
    if t == [] then 0 else if t[0] == c then 0 else 1 + IndexOf(t[1..], c)
  }

  /** A callback number is below the size of a prefix exactly when the prefix knows it. */
  lemma {:induction false} IndexInPrefix(p: seq<Callee>, t: seq<Callee>, c: Callee)
    requires p <= t && NoDuplicates(t) && c in t
    ensures IndexOf(t, c) < |p| <==> c in p
  {
    if c in p {
      var k :| 0 <= k < |p| && p[k] == c;
      assert t[k] == c == t[IndexOf(t, c)];
    }
  }

  /** The builder's callback maps while a function is compiled. */
  class Builder {
    var callbacks: map<Callee, nat>
    var allDeferFuncs: seq<Callee>

    ghost predicate Valid()
      reads this
    {
      && (forall c :: c in callbacks ==> callbacks[c] < |allDeferFuncs| && allDeferFuncs[callbacks[c]] == c)
      && (forall k :: 0 <= k < |allDeferFuncs| ==>
            allDeferFuncs[k] in callbacks && callbacks[allDeferFuncs[k]] == k)
    }

    constructor ()
      ensures Valid() && allDeferFuncs == []
    {
      callbacks, allDeferFuncs := map[], [];
    }

    method CallbackNumber(c: Callee) returns (callback: nat)
      requires Valid()
      modifies this
      ensures Valid()
      ensures allDeferFuncs == Register(old(allDeferFuncs), c)
      ensures callback < |allDeferFuncs| && allDeferFuncs[callback] == c
    {
      if c !in callbacks {
        assert c !in allDeferFuncs;
        callbacks := callbacks[c := |allDeferFuncs|];
        allDeferFuncs := allDeferFuncs + [c];
      }
      callback := callbacks[c];
    }

    /** Compiles all blocks in order: a drain gets one switch case per callback known so
        far, and a defer statement stores its callback number. */
    method CompileBlocks(f: Func) returns (sites: Sites)
      requires WellFormed(f) && Valid() && allDeferFuncs == []
      modifies this
      ensures Valid() && allDeferFuncs == FullTable(f)
      ensures forall b :: 0 <= b < |f.code| ==> BlockDone(f, sites, b, |f.code[b]|)
    {
      hide IndexOf, BlockDone, Before, SameElsewhere;
      sites := Sites(map[], map[]);
      var k := 0;
      while k < |f.order|
        invariant 0 <= k <= |f.order|
        invariant Valid() && allDeferFuncs == Table(Flatten(f, f.order[..k]))
        invariant forall m :: 0 <= m < k ==> BlockDone(f, sites, f.order[m], |f.code[f.order[m]]|)
      {
        BlockBoundaries(f, k);
        var sites' := CompileBlock(f, f.order[k], sites);
        forall m | 0 <= m < k ensures BlockDone(f, sites', f.order[m], |f.code[f.order[m]]|) {
          BlockStaysDone(f, sites, sites', f.order[m], f.order[k]);
        }
        sites := sites';
        k := k + 1;
      }
      assert f.order[..k] == f.order;
      forall b | 0 <= b < |f.code| ensures BlockDone(f, sites, b, |f.code[b]|) {
        assert f.order[Position(f.order, b)] == b;
      }
    }

    method CompileBlock(f: Func, b: nat, sites0: Sites) returns (sites: Sites)
      requires Valid() && b < |f.code| && b in f.order
      requires allDeferFuncs == TableAt(f, b, 0)
      modifies this
      ensures Valid() && allDeferFuncs == TableAt(f, b, |f.code[b]|)
      ensures BlockDone(f, sites, b, |f.code[b]|) && SameElsewhere(sites0, sites, b)
    {
      hide IndexOf, FullTable, Flatten, Before, Table;
      sites := sites0;
      var i := 0;
      while i < |f.code[b]|
        invariant 0 <= i <= |f.code[b]|
        invariant Valid() && allDeferFuncs == TableAt(f, b, i)
        invariant BlockDone(f, sites, b, i) && SameElsewhere(sites0, sites, b)
      {
        TableStep(f, b, i);
        match f.code[b][i] {
          case Defer(c) =>
            var callback := CallbackNumber(c);
            NumberIsFinal(f, b, i, callback);
            sites := sites.(numbers := sites.numbers[(b, i) := callback]);
          case RunDefers =>
            sites := sites.(limits := sites.limits[(b, i) := |allDeferFuncs|]);
          case _ =>
        }
        i := i + 1;
      }
    }
  }

  lemma BlockBoundaries(f: Func, k: nat)
    requires k < |f.order| && f.order[k] < |f.code|
    requires forall i, j :: 0 <= i < j < |f.order| ==> f.order[i] != f.order[j]
    ensures Before(f, f.order[k], 0) == Flatten(f, f.order[..k])
    ensures Before(f, f.order[k], |f.code[f.order[k]]|) == Flatten(f, f.order[..k + 1])
  {
    PositionUnique(f.order, k);
    assert f.order[..k + 1][..k] == f.order[..k];
  }

  lemma TableStep(f: Func, b: nat, i: nat)
    requires b < |f.code| && i < |f.code[b]|
    ensures TableAt(f, b, i + 1) ==
      if f.code[b][i].Defer? then Register(TableAt(f, b, i), f.code[b][i].callee) else TableAt(f, b, i)
  {
    var next := Before(f, b, i + 1);
    assert next[..|next| - 1] == Before(f, b, i);
    assert next[|next| - 1] == f.code[b][i];
  }

  ghost predicate SameElsewhere(s: Sites, s': Sites, b: nat) {
    && (forall k :: k in s.limits && k.0 != b ==> k in s'.limits && s'.limits[k] == s.limits[k])
    && (forall k :: k in s.numbers && k.0 != b ==> k in s'.numbers && s'.numbers[k] == s.numbers[k])
  }

  lemma BlockStaysDone(f: Func, s: Sites, s': Sites, b: nat, other: nat)
    requires b < |f.code| && b != other && BlockDone(f, s, b, |f.code[b]|) && SameElsewhere(s, s', other)
    ensures BlockDone(f, s', b, |f.code[b]|)
  {
    forall i | 0 <= i < |f.code[b]| && f.code[b][i].RunDefers?
      ensures (b, i) in s'.limits && s'.limits[(b, i)] == |TableAt(f, b, i)|
    {
      assert (b, i) in s.limits && (b, i).0 != other;
    }
    forall i | 0 <= i < |f.code[b]| && f.code[b][i].Defer?
      ensures (b, i) in s'.numbers && s'.numbers[(b, i)] == IndexOf(FullTable(f), f.code[b][i].callee)
    {
      assert (b, i) in s.numbers && (b, i).0 != other;
    }
  }

  /** `limits`: switch cases of each drain; `numbers`: callback stored by each defer. */
  datatype Sites = Sites(limits: map<(nat, nat), nat>, numbers: map<(nat, nat), nat>)

  ghost predicate BlockDone(f: Func, s: Sites, b: nat, n: nat)
    requires b < |f.code| && n <= |f.code[b]|
  {
    && (forall i :: 0 <= i < n && f.code[b][i].RunDefers? ==>
          (b, i) in s.limits && s.limits[(b, i)] == |TableAt(f, b, i)|)
    && (forall i :: 0 <= i < n && f.code[b][i].Defer? ==>
          (b, i) in s.numbers && s.numbers[(b, i)] == IndexOf(FullTable(f), f.code[b][i].callee))
  }

  lemma {:induction false} PositionUnique(order: seq<nat>, k: nat)
    requires k < |order| && forall i, j :: 0 <= i < j < |order| ==> order[i] != order[j]
    ensures Position(order, order[k]) == k && order[k] !in order[..k]
  {
    var p := Position(order, order[k]);
    assert order[k] in order;
    assert order[p] == order[k];
  }

  /** A number given during compilation is the number in the final table. */
  lemma NumberIsFinal(f: Func, b: nat, i: nat, callback: nat)
    requires b < |f.code| && i < |f.code[b]| && f.code[b][i].Defer? && b in f.order
    requires callback < |TableAt(f, b, i + 1)| && TableAt(f, b, i + 1)[callback] == f.code[b][i].callee
    ensures callback == IndexOf(FullTable(f), f.code[b][i].callee)
  {
    var t := FullTable(f);
    TableAtPrefix(f, b, i + 1);
    TableNoDuplicates(Flatten(f, f.order));
    assert t[callback] == f.code[b][i].callee;
    var k := IndexOf(t, f.code[b][i].callee);
    assert t[k] == t[callback];
  }
}
