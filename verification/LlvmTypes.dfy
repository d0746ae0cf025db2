/** LLVM types with the sizes, alignments and field offsets of a data layout. */
module LlvmTypes {
  import opened Arithmetic

  /** `FuncValue` is the struct named runtime.funcValue: a context pointer and an id the size
      of a pointer. */
  datatype Type =
    | Scalar(size: nat, align: nat)
    | Pointer
    | Struct(fields: seq<Type>)
    | Array(length: nat, elem: Type)
    | FuncValue

  /** `abi` is the ABI alignment of pointers, `pref` their preferred alignment. */
  datatype Target = Target(ptrSize: nat, abi: nat, pref: nat)

  predicate ValidTarget(d: Target) {
    0 < d.pref <= d.ptrSize && 0 < d.abi && d.ptrSize % d.abi == 0
  }

  function Max(a: nat, b: nat): nat {
    if a > b then a else b
  }

  /** ABI alignment; at least one. */
  function Align(d: Target, t: Type): (a: nat)
    ensures a > 0
    decreases t, 1
  {
    match t
    case Scalar(_, align) => if align == 0 then 1 else align
    case Pointer => if d.abi == 0 then 1 else d.abi
    case Struct(fields) => MaxAlign(d, fields)
    case Array(_, elem) => Align(d, elem)
    case FuncValue => if d.abi == 0 then 1 else d.abi
  }

  function MaxAlign(d: Target, fields: seq<Type>): (a: nat)
    ensures a > 0
    decreases fields, 0
  {
    if fields == [] then 1 else Max(MaxAlign(d, fields[..|fields| - 1]), Align(d, fields[|fields| - 1]))
  }

  /** `TypeAllocSize`. */
  function Size(d: Target, t: Type): nat
    decreases t, 1
  {
    match t
    case Scalar(size, _) => AlignUp(size, Align(d, t))
    case Pointer => AlignUp(d.ptrSize, Align(d, t))
    case Struct(fields) => AlignUp(End(d, fields), MaxAlign(d, fields))
    case Array(length, elem) => length * Size(d, elem)
    case FuncValue => 2 * AlignUp(d.ptrSize, Align(d, t))
  }

  /** Where the next field of a struct could start. */
  function End(d: Target, fields: seq<Type>): nat
    decreases fields, 0
  {
    if fields == [] then 0
    else
      var last := fields[|fields| - 1];
      AlignUp(End(d, fields[..|fields| - 1]), Align(d, last)) + Size(d, last)
  }

  /** `ElementOffset`. */
  function Offset(d: Target, fields: seq<Type>, i: nat): nat
    requires i < |fields|
  {
    AlignUp(End(d, fields[..i]), Align(d, fields[i]))
  }

  lemma OffsetEnd(d: Target, fields: seq<Type>, i: nat)
    requires i < |fields|
    ensures End(d, fields[..i + 1]) == Offset(d, fields, i) + Size(d, fields[i])
    ensures End(d, fields[..i]) <= Offset(d, fields, i)
  {
    assert fields[..i + 1][..i] == fields[..i];
  }

  lemma {:induction false} EndMonotone(d: Target, fields: seq<Type>, i: nat, j: nat)
    requires i <= j <= |fields|
    ensures End(d, fields[..i]) <= End(d, fields[..j])
  {
    if i < j {
      EndMonotone(d, fields, i, j - 1);
      OffsetEnd(d, fields, j - 1);
    }
  }

  /** Fields are placed as early as their alignment allows, and a struct is no larger than its
      alignment makes it, which is the largest of its fields'. */
  lemma StructIsTight(d: Target, fields: seq<Type>, i: nat)
    requires i < |fields|
    ensures var before := if i == 0 then 0 else Offset(d, fields, i - 1) + Size(d, fields[i - 1]);
      IsLeastMultiple(Offset(d, fields, i), before, Align(d, fields[i]))
    ensures i == |fields| - 1 ==>
      IsLeastMultiple(Size(d, Struct(fields)), Offset(d, fields, i) + Size(d, fields[i]), Align(d, Struct(fields)))
  {
    if i > 0 {
      OffsetEnd(d, fields, i - 1);
    }
    if i == |fields| - 1 {
      OffsetEnd(d, fields, i);
      assert fields[..i + 1] == fields;
    }
  }

  /** Everything else: a scalar or pointer is padded to its alignment only, a function value is two
      pointers, and an array its elements. */
  lemma OthersAreTight(d: Target, t: Type)
    requires ValidTarget(d)
    ensures match t
      case Scalar(size, align) => Align(d, t) == MaxNat(align, 1) && IsLeastMultiple(Size(d, t), size, MaxNat(align, 1))
      case Pointer => Align(d, t) == d.abi && Size(d, t) == d.ptrSize
      case FuncValue => Align(d, t) == d.abi && Size(d, t) == d.ptrSize + d.ptrSize
      case Array(length, elem) => Align(d, t) == Align(d, elem) && Size(d, t) == length * Size(d, elem)
      case Struct(_) => true
  {
    AlignUpOfMultiple(d.ptrSize, d.abi);
  }

  lemma {:induction false} LargestAlign(d: Target, fields: seq<Type>, n: nat)
    requires n <= |fields|
    ensures var a := MaxAlign(d, fields[..n]);
      && (forall i :: 0 <= i < n ==> Align(d, fields[i]) <= a)
      && (a == 1 || exists i :: 0 <= i < n && Align(d, fields[i]) == a)
  {
    hide Align;
    if n > 0 {
      LargestAlign(d, fields, n - 1);
      assert fields[..n][..n - 1] == fields[..n - 1];
    }
  }

  /** Fields come in order without overlap and end inside the struct. */
  lemma FieldsDisjoint(d: Target, fields: seq<Type>, i: nat, j: nat)
    requires i < j < |fields|
    ensures Offset(d, fields, i) + Size(d, fields[i]) <= Offset(d, fields, j)
  {
    OffsetEnd(d, fields, i);
    EndMonotone(d, fields, i + 1, j);
  }

  lemma FieldInside(d: Target, fields: seq<Type>, i: nat)
    requires i < |fields|
    ensures Offset(d, fields, i) + Size(d, fields[i]) <= Size(d, Struct(fields))
  {
    OffsetEnd(d, fields, i);
    EndMonotone(d, fields, i + 1, |fields|);
    assert fields[..|fields|] == fields;
  }

  /** Every size is a multiple of the alignment. */
  lemma {:induction false} SizeIsAligned(d: Target, t: Type)
    ensures Size(d, t) % Align(d, t) == 0
    decreases t
  {
    match t
    case Array(length, elem) =>
      SizeIsAligned(d, elem);
      ProductOfMultiple(length, Size(d, elem), Align(d, elem));
    case FuncValue => ProductOfMultiple(2, AlignUp(d.ptrSize, Align(d, t)), Align(d, t));
    case _ =>
  }
}
