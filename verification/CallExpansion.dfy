/** Splitting struct parameters into their fields and joining them again. */
module CallExpansion {
  import opened Arithmetic
  import opened LlvmTypes
  import opened Options

  const MAX_FIELDS_PER_PARAM := 3

  datatype Value = Atom(bits: int) | StructValue(fields: seq<Value>) | ArrayValue(elems: seq<Value>)

  predicate IsStruct(t: Type) {
    t.Struct? || t.FuncValue?
  }

  /** The field types of a struct. */
  function FieldsOf(d: Target, t: Type): seq<Type>
    requires IsStruct(t)
  {
    if t.Struct? then t.fields else [Pointer, Scalar(d.ptrSize, d.abi)]
  }

  function Height(t: Type): nat {
    match t
    case Struct(fields) => 1 + MaxHeight(fields)
    case Array(_, elem) => 1 + Height(elem)
    case FuncValue => 1
    case _ => 0
  }

  function MaxHeight(ts: seq<Type>): nat {
    if ts == [] then 0
    else LlvmTypes.Max(MaxHeight(ts[..|ts| - 1]), Height(ts[|ts| - 1]))
  }

  lemma {:induction false} MaxHeightAt(ts: seq<Type>, i: nat)
    requires i < |ts|
    ensures Height(ts[i]) <= MaxHeight(ts)
  {
    if i < |ts| - 1 {
      MaxHeightAt(ts[..|ts| - 1], i);
    }
  }

  lemma FieldSmaller(d: Target, t: Type, i: nat)
    requires IsStruct(t) && i < |FieldsOf(d, t)|
    ensures Height(FieldsOf(d, t)[i]) < Height(t)
  {
    if t.Struct? {
      MaxHeightAt(t.fields, i);
    }
  }

  ghost predicate HasType(d: Target, v: Value, t: Type)
    decreases Height(t)
  {
    if IsStruct(t) then
      && v.StructValue? && |v.fields| == |FieldsOf(d, t)|
      && forall i :: 0 <= i < |v.fields| ==> (FieldSmaller(d, t, i); HasType(d, v.fields[i], FieldsOf(d, t)[i]))
    else match t
      case Array(length, elem) =>
        v.ArrayValue? && |v.elems| == length && forall i :: 0 <= i < length ==> HasType(d, v.elems[i], elem)
      case Scalar(size, _) => v.Atom? && size > 0
      case _ => v.Atom?
  }

  /** `ConstNull`. */
  function Null(d: Target, t: Type): Value
    decreases Height(t)
  {
    if IsStruct(t) then
      var fs := FieldsOf(d, t);
      StructValue(seq(|fs|, i requires 0 <= i < |fs| => (FieldSmaller(d, t, i); Null(d, fs[i]))))
    else match t
      case Array(length, elem) => ArrayValue(seq(length, _ => Null(d, elem)))
      case _ => Atom(0)
  }

  // ---------------------------------------------------------------------------
  // Flattening types, values and offsets

  function FlattenType(d: Target, t: Type): seq<Type>
    decreases Height(t), 1, 0
  {
    if IsStruct(t) then FlattenTypes(d, t, |FieldsOf(d, t)|) else [t]
  }

  function FlattenTypes(d: Target, t: Type, n: nat): seq<Type>
    requires IsStruct(t) && n <= |FieldsOf(d, t)|
    decreases Height(t), 0, n
  {
    if n == 0 then []
    else
      var f := FieldsOf(d, t)[n - 1];
      FieldSmaller(d, t, n - 1);
      FlattenTypes(d, t, n - 1) + (if Size(d, f) == 0 then [] else FlattenType(d, f))
  }

  function FlattenOffsets(d: Target, t: Type): seq<nat>
    decreases Height(t), 1, 0
  {
    if IsStruct(t) then FieldOffsets(d, t, |FieldsOf(d, t)|) else [0]
  }

  function Plus(xs: seq<nat>, o: nat): seq<nat> {
    seq(|xs|, i requires 0 <= i < |xs| => xs[i] + o)
  }

  function FieldOffsets(d: Target, t: Type, n: nat): seq<nat>
    requires IsStruct(t) && n <= |FieldsOf(d, t)|
    decreases Height(t), 0, n
  {
    if n == 0 then []
    else
      var f := FieldsOf(d, t)[n - 1];
      FieldSmaller(d, t, n - 1);
      FieldOffsets(d, t, n - 1) +
      (if Size(d, f) == 0 then [] else Plus(FlattenOffsets(d, f), Offset(d, FieldsOf(d, t), n - 1)))
  }

  function FlattenValue(d: Target, t: Type, v: Value): seq<Value>
    requires HasType(d, v, t)
    decreases Height(t), 1, 0
  {
    if IsStruct(t) then FlattenValues(d, t, v, |FieldsOf(d, t)|) else [v]
  }

  function FlattenValues(d: Target, t: Type, v: Value, n: nat): seq<Value>
    requires IsStruct(t) && HasType(d, v, t) && n <= |FieldsOf(d, t)|
    decreases Height(t), 0, n
  {
    if n == 0 then []
    else
      var f := FieldsOf(d, t)[n - 1];
      FieldSmaller(d, t, n - 1);
      FlattenValues(d, t, v, n - 1) + (if Size(d, f) == 0 then [] else FlattenValue(d, f, v.fields[n - 1]))
  }

  predicate Splits(d: Target, t: Type) {
    IsStruct(t) && |FlattenType(d, t)| <= MAX_FIELDS_PER_PARAM
  }

  function ExpandType(d: Target, t: Type): seq<Type> {
    if Splits(d, t) then FlattenType(d, t) else [t]
  }

  function ExpandOffsets(d: Target, t: Type): seq<nat> {
    if IsStruct(t) && |FlattenOffsets(d, t)| <= MAX_FIELDS_PER_PARAM then FlattenOffsets(d, t) else [0]
  }

  function ExpandValue(d: Target, t: Type, v: Value): seq<Value>
    requires HasType(d, v, t)
  {
    if Splits(d, t) then FlattenValue(d, t, v) else [v]
  }

  // ---------------------------------------------------------------------------
  // Collapsing

  /** The value built from the front of `vs` and what is left; `None` is an index out of range. */
  datatype Collapsed = Collapsed(v: Value, rest: seq<Value>)
  datatype CollapsedFields = CollapsedFields(vs: seq<Value>, rest: seq<Value>)

  function CollapseInternal(d: Target, t: Type, vs: seq<Value>): Option<Collapsed>
    decreases Height(t), 1, 0
  {
    if Splits(d, t) then
      var r := CollapseFields(d, t, vs, |FieldsOf(d, t)|);
      if r.None? then None else Some(Collapsed(StructValue(r.value.vs), r.value.rest))
    else if vs == [] then None
    else Some(Collapsed(vs[0], vs[1..]))
  }

  function CollapseFields(d: Target, t: Type, vs: seq<Value>, n: nat): Option<CollapsedFields>
    requires IsStruct(t) && n <= |FieldsOf(d, t)|
    decreases Height(t), 0, n
  {
    if n == 0 then Some(CollapsedFields([], vs))
    else
      var f, r := FieldsOf(d, t)[n - 1], CollapseFields(d, t, vs, n - 1);
      FieldSmaller(d, t, n - 1);
      if r.None? then None
      else if Size(d, f) == 0 then Some(CollapsedFields(r.value.vs + [Null(d, f)], r.value.rest))
      else
        var x := CollapseInternal(d, f, r.value.rest);
        if x.None? then None else Some(CollapsedFields(r.value.vs + [x.value.v], x.value.rest))
  }

  /** `collapseFormalParam`; `None` is a panic. */
  function Collapse(d: Target, t: Type, vs: seq<Value>): Option<Value> {
    var r := CollapseInternal(d, t, vs);
    if r.None? || r.value.rest != [] then None else Some(r.value.v)
  }

  /** The same with the source's loop over the fields, which threads the remaining values. */
  method CollapseParam(d: Target, t: Type, vs: seq<Value>) returns (r: Option<Collapsed>)
    ensures r == CollapseInternal(d, t, vs)
    decreases Height(t)
  {
    if !Splits(d, t) {
      return if vs == [] then None else Some(Collapsed(vs[0], vs[1..]));
    }
    var fs := FieldsOf(d, t);
    var value: seq<Value> := [];
    var fields := vs;
    var i := 0;
    while i < |fs|
      invariant 0 <= i <= |fs|
      invariant CollapseFields(d, t, vs, i) == Some(CollapsedFields(value, fields))
    {
      FieldSmaller(d, t, i);
      if Size(d, fs[i]) == 0 {
        value := value + [Null(d, fs[i])];
      } else {
        var x := CollapseParam(d, fs[i], fields);
        if x.None? {
          FieldFails(d, t, vs, i + 1, |fs|);
          return None;
        }
        value, fields := value + [x.value.v], x.value.rest;
      }
      i := i + 1;
    }
    return Some(Collapsed(StructValue(value), fields));
  }

  lemma {:induction false} FieldFails(d: Target, t: Type, vs: seq<Value>, i: nat, n: nat)
    requires IsStruct(t) && i <= n <= |FieldsOf(d, t)| && CollapseFields(d, t, vs, i).None?
    ensures CollapseFields(d, t, vs, n).None?
  {
    if i < n {
      FieldFails(d, t, vs, i, n - 1);
    }
  }

  // ---------------------------------------------------------------------------
  // Lengths agree, and a field splits whenever its struct does

  lemma {:induction false} TypesPrefix(d: Target, t: Type, i: nat, n: nat)
    requires IsStruct(t) && i < n <= |FieldsOf(d, t)| && Size(d, FieldsOf(d, t)[i]) != 0
    ensures |FlattenType(d, FieldsOf(d, t)[i])| <= |FlattenTypes(d, t, n)|
  {
    hide Size;
    FieldSmaller(d, t, n - 1);
    if i < n - 1 {
      TypesPrefix(d, t, i, n - 1);
    }
  }

  /** The field cap is monotone under nesting. */
  lemma FieldSplits(d: Target, t: Type, i: nat)
    requires Splits(d, t) && i < |FieldsOf(d, t)| && Size(d, FieldsOf(d, t)[i]) != 0
    ensures IsStruct(FieldsOf(d, t)[i]) ==> Splits(d, FieldsOf(d, t)[i])
  {
    TypesPrefix(d, t, i, |FieldsOf(d, t)|);
  }

  lemma {:induction false} ValueLength(d: Target, t: Type, v: Value)
    requires HasType(d, v, t)
    ensures |FlattenValue(d, t, v)| == |FlattenType(d, t)|
    decreases Height(t), 1, 0
  {
    if IsStruct(t) {
      ValuesLength(d, t, v, |FieldsOf(d, t)|);
    }
  }

  lemma {:induction false} ValuesLength(d: Target, t: Type, v: Value, n: nat)
    requires IsStruct(t) && HasType(d, v, t) && n <= |FieldsOf(d, t)|
    ensures |FlattenValues(d, t, v, n)| == |FlattenTypes(d, t, n)|
    decreases Height(t), 0, n
  {
    hide Size;
    if n > 0 {
      ValuesLength(d, t, v, n - 1);
      FieldSmaller(d, t, n - 1);
      ValueLength(d, FieldsOf(d, t)[n - 1], v.fields[n - 1]);
    }
  }

  lemma {:induction false} OffsetsLength(d: Target, t: Type)
    ensures |FlattenOffsets(d, t)| == |FlattenType(d, t)|
    decreases Height(t), 1, 0
  {
    if IsStruct(t) {
      FieldOffsetsLength(d, t, |FieldsOf(d, t)|);
    }
  }

  lemma {:induction false} FieldOffsetsLength(d: Target, t: Type, n: nat)
    requires IsStruct(t) && n <= |FieldsOf(d, t)|
    ensures |FieldOffsets(d, t, n)| == |FlattenTypes(d, t, n)|
    decreases Height(t), 0, n
  {
    if n > 0 {
      FieldOffsetsLength(d, t, n - 1);
      FieldSmaller(d, t, n - 1);
      OffsetsLength(d, FieldsOf(d, t)[n - 1]);
    }
  }

  /** Types, values and offsets are split into the same number of pieces. */
  lemma SameLength(d: Target, t: Type, v: Value)
    requires HasType(d, v, t)
    ensures |ExpandType(d, t)| == |ExpandValue(d, t, v)| == |ExpandOffsets(d, t)|
  {
    ValueLength(d, t, v);
    OffsetsLength(d, t);
  }

  // ---------------------------------------------------------------------------
  // Round trip

  /** A type of size zero has only its null value. */
  lemma {:induction false} ZeroSizeIsNull(d: Target, t: Type, v: Value)
    requires ValidTarget(d) && HasType(d, v, t) && Size(d, t) == 0
    ensures v == Null(d, t)
    decreases Height(t)
  {
    match t
    case Struct(fields) =>
      forall i | 0 <= i < |fields| ensures v.fields[i] == Null(d, fields[i]) {
        FieldSmaller(d, t, i);
        FieldInside(d, fields, i);
        ZeroSizeIsNull(d, fields[i], v.fields[i]);
      }
    case Array(length, elem) =>
      if length > 0 {
        assert Size(d, elem) == 0;
        forall i | 0 <= i < length ensures v.elems[i] == Null(d, elem) {
          ZeroSizeIsNull(d, elem, v.elems[i]);
        }
      }
    case _ =>
  }

  lemma {:induction false} CollapseFront(d: Target, t: Type, v: Value, tail: seq<Value>)
    requires ValidTarget(d) && HasType(d, v, t)
    ensures CollapseInternal(d, t, ExpandValue(d, t, v) + tail) == Some(Collapsed(v, tail))
    decreases Height(t), 1, 0
  {
    if Splits(d, t) {
      var n := |FieldsOf(d, t)|;
      CollapseFieldsFront(d, t, v, n, tail);
      assert v.fields[..n] == v.fields;
    } else {
      assert ([v] + tail)[1..] == tail;
    }
  }

  lemma NextField(d: Target, t: Type, vs: seq<Value>, n: nat, acc: CollapsedFields, x: Collapsed)
    requires IsStruct(t) && 0 < n <= |FieldsOf(d, t)| && CollapseFields(d, t, vs, n - 1) == Some(acc)
    requires var f := FieldsOf(d, t)[n - 1];
      if Size(d, f) == 0 then x == Collapsed(Null(d, f), acc.rest) else CollapseInternal(d, f, acc.rest) == Some(x)
    ensures CollapseFields(d, t, vs, n) == Some(CollapsedFields(acc.vs + [x.v], x.rest))
  {
  }

  /** The values of the first n fields, as the pieces before the others. */
  lemma NextPieces(d: Target, t: Type, v: Value, n: nat, tail: seq<Value>)
    requires IsStruct(t) && HasType(d, v, t) && 0 < n <= |FieldsOf(d, t)|
    ensures HasType(d, v.fields[n - 1], FieldsOf(d, t)[n - 1])
    ensures var f := FieldsOf(d, t)[n - 1];
      FlattenValues(d, t, v, n) + tail ==
        FlattenValues(d, t, v, n - 1) + ((if Size(d, f) == 0 then [] else FlattenValue(d, f, v.fields[n - 1])) + tail)
  {
  }

  lemma {:induction false} CollapseFieldsFront(d: Target, t: Type, v: Value, n: nat, tail: seq<Value>)
    requires ValidTarget(d) && Splits(d, t) && HasType(d, v, t) && n <= |FieldsOf(d, t)|
    ensures CollapseFields(d, t, FlattenValues(d, t, v, n) + tail, n) == Some(CollapsedFields(v.fields[..n], tail))
    decreases Height(t), 0, n
  {
    hide Size, Height, FlattenValues, FlattenValue, CollapseFields, CollapseInternal, Null;
    if n == 0 {
      NoFieldsCollapse(d, t, v, tail);
    } else {
      NextPieces(d, t, v, n, tail);
      var f, x, vs := FieldsOf(d, t)[n - 1], v.fields[n - 1], FlattenValues(d, t, v, n) + tail;
      FieldSmaller(d, t, n - 1);
      assert v.fields[..n] == v.fields[..n - 1] + [x];
      if Size(d, f) == 0 {
        assert [] + tail == tail;
        ZeroSizeIsNull(d, f, x);
        CollapseFieldsFront(d, t, v, n - 1, tail);
        NextField(d, t, vs, n, CollapsedFields(v.fields[..n - 1], tail), Collapsed(x, tail));
      } else {
        FieldSplits(d, t, n - 1);
        ExpandIsFlatten(d, f, x);
        var tail' := ExpandValue(d, f, x) + tail;
        CollapseFieldsFront(d, t, v, n - 1, tail');
        CollapseFront(d, f, x, tail);
        NextField(d, t, vs, n, CollapsedFields(v.fields[..n - 1], tail'), Collapsed(x, tail));
      }
    }
  }

  lemma NoFieldsCollapse(d: Target, t: Type, v: Value, tail: seq<Value>)
    requires IsStruct(t) && HasType(d, v, t)
    ensures CollapseFields(d, t, FlattenValues(d, t, v, 0) + tail, 0) == Some(CollapsedFields(v.fields[..0], tail))
  {
    assert [] + tail == tail;
  }

  lemma ExpandIsFlatten(d: Target, t: Type, v: Value)
    requires HasType(d, v, t) && (IsStruct(t) ==> Splits(d, t))
    ensures ExpandValue(d, t, v) == FlattenValue(d, t, v)
  {
  }

  /** Joining the pieces of a parameter gives back its value; neither panic is reached. */
  lemma RoundTrip(d: Target, t: Type, v: Value)
    requires ValidTarget(d) && HasType(d, v, t)
    ensures Collapse(d, t, ExpandValue(d, t, v)) == Some(v)
  {
    CollapseFront(d, t, v, []);
    assert ExpandValue(d, t, v) + [] == ExpandValue(d, t, v);
  }

  // ---------------------------------------------------------------------------
  // Offsets

  /** Pieces in [0, hi), in increasing order without overlap. */
  ghost predicate InOrder(d: Target, ts: seq<Type>, os: seq<nat>, lo: nat, hi: nat) {
    && |ts| == |os|
    && (forall i :: 0 <= i < |os| ==> lo <= os[i] && os[i] + Size(d, ts[i]) <= hi)
    && (forall i, j :: 0 <= i < j < |os| ==> os[i] + Size(d, ts[i]) <= os[j])
  }

  lemma InOrderConcat(d: Target, ts: seq<Type>, os: seq<nat>, ts': seq<Type>, os': seq<nat>, lo: nat, m: nat,
                      m': nat, hi: nat)
    requires InOrder(d, ts, os, lo, m) && InOrder(d, ts', os', m', hi) && lo <= m <= m' <= hi
    ensures InOrder(d, ts + ts', os + os', lo, hi)
  {
    hide Size;
    var xs, ys := ts + ts', os + os';
    forall i, j | 0 <= i < j < |ys| ensures ys[i] + Size(d, xs[i]) <= ys[j] {
      if i < |os| <= j {
        assert ys[j] == os'[j - |os|] >= m';
      }
    }
  }

  lemma InOrderPlus(d: Target, ts: seq<Type>, os: seq<nat>, hi: nat, o: nat)
    requires InOrder(d, ts, os, 0, hi)
    ensures InOrder(d, ts, Plus(os, o), o, hi + o)
  {
  }

  lemma FuncValueSize(d: Target)
    requires ValidTarget(d)
    ensures End(d, FieldsOf(d, FuncValue)) <= Size(d, FuncValue)
  {
    var p, fs := AlignUp(d.ptrSize, d.abi), [Pointer, Scalar(d.ptrSize, d.abi)];
    assert fs[..1] == [Pointer] && [Pointer][..0] == [];
    AlignUpOfMultiple(0, d.abi);
    AlignUpOfMultiple(p, d.abi);
    assert End(d, []) == 0;
    assert End(d, [Pointer]) == p;
  }

  lemma StructEnd(d: Target, t: Type)
    requires ValidTarget(d) && IsStruct(t)
    ensures End(d, FieldsOf(d, t)) <= Size(d, t)
  {
    if t.FuncValue? {
      FuncValueSize(d);
    }
  }

  lemma {:induction false} OffsetsInOrder(d: Target, t: Type)
    requires ValidTarget(d)
    ensures InOrder(d, FlattenType(d, t), FlattenOffsets(d, t), 0, Size(d, t))
    decreases Height(t), 1, 0
  {
    if IsStruct(t) {
      var fs := FieldsOf(d, t);
      FieldOffsetsInOrder(d, t, |fs|);
      assert fs[..|fs|] == fs;
      StructEnd(d, t);
    }
  }

  lemma {:induction false} FieldOffsetsInOrder(d: Target, t: Type, n: nat)
    requires ValidTarget(d) && IsStruct(t) && n <= |FieldsOf(d, t)|
    ensures InOrder(d, FlattenTypes(d, t, n), FieldOffsets(d, t, n), 0, End(d, FieldsOf(d, t)[..n]))
    decreases Height(t), 0, n
  {
    if n > 0 {
      var fs := FieldsOf(d, t);
      var f, o := fs[n - 1], Offset(d, fs, n - 1);
      FieldOffsetsInOrder(d, t, n - 1);
      FieldSmaller(d, t, n - 1);
      OffsetEnd(d, fs, n - 1);
      if Size(d, f) != 0 {
        OffsetsInOrder(d, f);
        InOrderPlus(d, FlattenType(d, f), FlattenOffsets(d, f), Size(d, f), o);
        InOrderConcat(d, FlattenTypes(d, t, n - 1), FieldOffsets(d, t, n - 1),
                      FlattenType(d, f), Plus(FlattenOffsets(d, f), o),
                      0, End(d, fs[..n - 1]), o, End(d, fs[..n]));
      }
    }
  }

  /** The pieces of a parameter are at increasing offsets, do not overlap and lie inside it. */
  lemma ExpandOffsetsInOrder(d: Target, t: Type)
    requires ValidTarget(d)
    ensures InOrder(d, ExpandType(d, t), ExpandOffsets(d, t), 0, Size(d, t))
  {
    OffsetsInOrder(d, t);
    OffsetsLength(d, t);
  }

  // ---------------------------------------------------------------------------
  // What the pieces are

  /** A part of a value that is not a struct, with its offset from the start of the value. */
  datatype Piece = Piece(t: Type, offset: nat)

  /** The parts of a type in order, however deep in structs, that take up space. */
  function Pieces(d: Target, t: Type, at: nat): seq<Piece>
    decreases Height(t), 1, 0
  {
    if Size(d, t) == 0 then []
    else if !IsStruct(t) then [Piece(t, at)]
    else FieldPieces(d, t, at, 0)
  }

  /** The parts of the fields from number `i` on. */
  function FieldPieces(d: Target, t: Type, at: nat, i: nat): seq<Piece>
    requires IsStruct(t) && i <= |FieldsOf(d, t)|
    decreases Height(t), 0, |FieldsOf(d, t)| - i
  {
    var fs := FieldsOf(d, t);
    if i == |fs| then []
    else
      FieldSmaller(d, t, i);
      Pieces(d, fs[i], at + Offset(d, fs, i)) + FieldPieces(d, t, at, i + 1)
  }

  function TypesOf(ps: seq<Piece>): seq<Type> {
    seq(|ps|, i requires 0 <= i < |ps| => ps[i].t)
  }

  function OffsetsOf(ps: seq<Piece>): seq<nat> {
    seq(|ps|, i requires 0 <= i < |ps| => ps[i].offset)
  }

  lemma TypesConcat(ps: seq<Piece>, qs: seq<Piece>)
    ensures TypesOf(ps + qs) == TypesOf(ps) + TypesOf(qs)
    ensures OffsetsOf(ps + qs) == OffsetsOf(ps) + OffsetsOf(qs)
  {
  }

  lemma PlusPlus(xs: seq<nat>, ys: seq<nat>, o: nat, p: nat)
    ensures Plus(xs + ys, o) == Plus(xs, o) + Plus(ys, o) && Plus(Plus(xs, o), p) == Plus(xs, o + p)
  {
  }

  /** Flattening gives the pieces. */
  lemma {:induction false} FlattenIsPieces(d: Target, t: Type, at: nat)
    requires ValidTarget(d) && Size(d, t) != 0
    ensures TypesOf(Pieces(d, t, at)) == FlattenType(d, t)
    ensures OffsetsOf(Pieces(d, t, at)) == Plus(FlattenOffsets(d, t), at)
    decreases Height(t), 1, 0
  {
    hide Size;
    if IsStruct(t) {
      FieldsArePieces(d, t, at, 0);
      assert [] + TypesOf(FieldPieces(d, t, at, 0)) == TypesOf(FieldPieces(d, t, at, 0));
      assert Plus([], at) + OffsetsOf(FieldPieces(d, t, at, 0)) == OffsetsOf(FieldPieces(d, t, at, 0));
    }
  }

  lemma {:induction false} FieldsArePieces(d: Target, t: Type, at: nat, i: nat)
    requires ValidTarget(d) && IsStruct(t) && i <= |FieldsOf(d, t)|
    ensures FlattenTypes(d, t, i) + TypesOf(FieldPieces(d, t, at, i)) == FlattenType(d, t)
    ensures Plus(FieldOffsets(d, t, i), at) + OffsetsOf(FieldPieces(d, t, at, i)) == Plus(FlattenOffsets(d, t), at)
    decreases Height(t), 0, |FieldsOf(d, t)| - i
  {
    hide Size, Offset, Plus, TypesOf, OffsetsOf, FlattenType, FlattenOffsets, FlattenTypes, FieldOffsets, Pieces,
      Height;
    var fs := FieldsOf(d, t);
    if i == |fs| {
      AllFieldsAre(d, t, at);
    } else {
      var f, o := fs[i], Offset(d, fs, i);
      FieldSmaller(d, t, i);
      FieldsArePieces(d, t, at, i + 1);
      var here, rest := Pieces(d, f, at + o), FieldPieces(d, t, at, i + 1);
      EmptyHasNoPieces(d, f, at + o);
      if Size(d, f) != 0 {
        FlattenIsPieces(d, f, at + o);
      }
      NextIsPieces(d, t, at, i, here, rest);
    }
  }

  lemma EmptyHasNoPieces(d: Target, t: Type, at: nat)
    ensures Size(d, t) == 0 ==> Pieces(d, t, at) == []
  {
  }

  lemma AllFieldsAre(d: Target, t: Type, at: nat)
    requires IsStruct(t)
    ensures var n := |FieldsOf(d, t)|;
      && FlattenTypes(d, t, n) + TypesOf([]) == FlattenType(d, t)
      && Plus(FieldOffsets(d, t, n), at) + OffsetsOf([]) == Plus(FlattenOffsets(d, t), at)
  {
    var n := |FieldsOf(d, t)|;
    assert FlattenTypes(d, t, n) + [] == FlattenTypes(d, t, n);
    assert Plus(FieldOffsets(d, t, n), at) + [] == Plus(FieldOffsets(d, t, n), at);
  }

  lemma NextIsPieces(d: Target, t: Type, at: nat, i: nat, here: seq<Piece>, rest: seq<Piece>)
    requires IsStruct(t) && i < |FieldsOf(d, t)|
    requires var f, o := FieldsOf(d, t)[i], Offset(d, FieldsOf(d, t), i);
      if Size(d, f) == 0 then here == []
      else TypesOf(here) == FlattenType(d, f) && OffsetsOf(here) == Plus(FlattenOffsets(d, f), at + o)
    ensures FlattenTypes(d, t, i) + TypesOf(here + rest) == FlattenTypes(d, t, i + 1) + TypesOf(rest)
    ensures Plus(FieldOffsets(d, t, i), at) + OffsetsOf(here + rest) ==
      Plus(FieldOffsets(d, t, i + 1), at) + OffsetsOf(rest)
  {
    hide Size, Offset, FlattenType, FlattenOffsets, Plus, TypesOf, OffsetsOf;
    var f, o := FieldsOf(d, t)[i], Offset(d, FieldsOf(d, t), i);
    TypesConcat(here, rest);
    var before, inner := FieldOffsets(d, t, i), FlattenOffsets(d, f);
    PlusPlus(before, Plus(inner, o), at, 0);
    PlusPlus(inner, [], o, at);
    assert at + o == o + at;
    if Size(d, f) == 0 {
      assert here + rest == rest;
      assert FlattenTypes(d, t, i) + [] == FlattenTypes(d, t, i);
      assert before + [] == before;
    }
  }

  /** No piece is a struct or empty. */
  lemma {:induction false} PiecesAreScalar(d: Target, t: Type, at: nat)
    ensures forall p :: p in Pieces(d, t, at) ==> !IsStruct(p.t) && Size(d, p.t) > 0
    decreases Height(t), 1, 0
  {
    hide Size;
    if IsStruct(t) {
      FieldPiecesAreScalar(d, t, at, 0);
    }
  }

  lemma {:induction false} FieldPiecesAreScalar(d: Target, t: Type, at: nat, i: nat)
    requires IsStruct(t) && i <= |FieldsOf(d, t)|
    ensures forall p :: p in FieldPieces(d, t, at, i) ==> !IsStruct(p.t) && Size(d, p.t) > 0
    decreases Height(t), 0, |FieldsOf(d, t)| - i
  {
    hide Size;
    if i < |FieldsOf(d, t)| {
      FieldSmaller(d, t, i);
      PiecesAreScalar(d, FieldsOf(d, t)[i], at + Offset(d, FieldsOf(d, t), i));
      FieldPiecesAreScalar(d, t, at, i + 1);
    }
  }

  /** A struct without size has nothing to flatten. */
  lemma {:induction false} EmptyFlattens(d: Target, t: Type, n: nat)
    requires ValidTarget(d) && IsStruct(t) && Size(d, t) == 0 && n <= |FieldsOf(d, t)|
    ensures FlattenTypes(d, t, n) == [] && FieldOffsets(d, t, n) == []
    decreases n
  {
    if n > 0 {
      EmptyFlattens(d, t, n - 1);
      FieldInside(d, t.fields, n - 1);
    }
  }

  /** When a parameter is split, and into what: a struct with at most three pieces becomes those
      pieces, at their offsets; everything else is passed whole. */
  lemma ExpandsToPieces(d: Target, t: Type)
    requires ValidTarget(d)
    ensures var ps := Pieces(d, t, 0);
      if IsStruct(t) && |ps| <= 3 then ExpandType(d, t) == TypesOf(ps) && ExpandOffsets(d, t) == OffsetsOf(ps)
      else ExpandType(d, t) == [t] && ExpandOffsets(d, t) == [0]
    ensures forall p :: p in Pieces(d, t, 0) ==> !IsStruct(p.t) && Size(d, p.t) > 0
  {
    PiecesAreScalar(d, t, 0);
    OffsetsLength(d, t);
    if IsStruct(t) {
      if Size(d, t) == 0 {
        EmptyFlattens(d, t, |FieldsOf(d, t)|);
      } else {
        FlattenIsPieces(d, t, 0);
        assert Plus(FlattenOffsets(d, t), 0) == FlattenOffsets(d, t);
      }
    }
  }

  /** The pieces of a value are values of the pieces of its type. */
  lemma {:induction false} ValuesTyped(d: Target, t: Type, v: Value)
    requires HasType(d, v, t)
    ensures var vs, ts := FlattenValue(d, t, v), FlattenType(d, t);
      |vs| == |ts| && forall k :: 0 <= k < |ts| ==> HasType(d, vs[k], ts[k])
    decreases Height(t), 1, 0
  {
    if IsStruct(t) {
      FieldValuesTyped(d, t, v, |FieldsOf(d, t)|);
    }
  }

  lemma {:induction false} FieldValuesTyped(d: Target, t: Type, v: Value, n: nat)
    requires IsStruct(t) && HasType(d, v, t) && n <= |FieldsOf(d, t)|
    ensures var vs, ts := FlattenValues(d, t, v, n), FlattenTypes(d, t, n);
      |vs| == |ts| && forall k :: 0 <= k < |ts| ==> HasType(d, vs[k], ts[k])
    decreases Height(t), 0, n
  {
    hide Size;
    if n > 0 {
      FieldSmaller(d, t, n - 1);
      FieldValuesTyped(d, t, v, n - 1);
      ValuesTyped(d, FieldsOf(d, t)[n - 1], v.fields[n - 1]);
    }
  }

  lemma ExpandsToTyped(d: Target, t: Type, v: Value)
    requires HasType(d, v, t)
    ensures var vs, ts := ExpandValue(d, t, v), ExpandType(d, t);
      |vs| == |ts| && forall k :: 0 <= k < |ts| ==> HasType(d, vs[k], ts[k])
  {
    ValuesTyped(d, t, v);
  }

  /** A slice is passed as three parameters, at one word each. */
  lemma SliceIsThree(d: Target, len: Type)
    requires ValidTarget(d) && len == Scalar(d.ptrSize, d.abi)
    ensures ExpandType(d, Struct([Pointer, len, len])) == [Pointer, len, len]
  {
    var t := Struct([Pointer, len, len]);
    var fs := t.fields;
    assert Size(d, Pointer) > 0 && Size(d, len) > 0;
    assert FlattenTypes(d, t, 0) == [];
    assert FlattenTypes(d, t, 1) == [Pointer];
    assert FlattenTypes(d, t, 2) == [Pointer, len];
    assert FlattenTypes(d, t, 3) == [Pointer, len, len];
  }

  /** A function value is passed as its context pointer and, one word later, its id. */
  lemma FuncValueIsTwo(d: Target, id: Type)
    requires ValidTarget(d) && id == Scalar(d.ptrSize, d.abi)
    ensures ExpandType(d, FuncValue) == [Pointer, id] && ExpandOffsets(d, FuncValue) == [0, d.ptrSize]
  {
    var fs := [Pointer, id];
    AlignUpOfMultiple(d.ptrSize, d.abi);
    AlignUpOfMultiple(0, d.abi);
    assert fs[..0] == [] && fs[..1] == [Pointer] && [Pointer][..0] == [];
    assert End(d, []) == 0;
    assert End(d, [Pointer]) == d.ptrSize;
    assert Size(d, Pointer) > 0 && Size(d, id) > 0;
    FuncValueFlattens(d, id);
  }

  lemma FuncValueFlattens(d: Target, id: Type)
    requires FieldsOf(d, FuncValue) == [Pointer, id] && id.Scalar? && Size(d, Pointer) > 0 && Size(d, id) > 0
    ensures FlattenType(d, FuncValue) == [Pointer, id]
    ensures FlattenOffsets(d, FuncValue) == [Offset(d, [Pointer, id], 0), Offset(d, [Pointer, id], 1)]
  {
    hide Size, Offset;
    assert FlattenTypes(d, FuncValue, 0) == [];
    assert FlattenTypes(d, FuncValue, 1) == [Pointer];
    assert FlattenTypes(d, FuncValue, 2) == [Pointer, id];
    assert FieldOffsets(d, FuncValue, 0) == [];
    assert FieldOffsets(d, FuncValue, 1) == [Offset(d, [Pointer, id], 0)];
    assert FieldOffsets(d, FuncValue, 2) == [Offset(d, [Pointer, id], 0), Offset(d, [Pointer, id], 1)];
  }
}
