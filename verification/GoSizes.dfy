/** `stdSizes`: sizes, alignments and offsets of Go types. */
module GoSizes {
  import opened Arithmetic
  import opened Bits

  datatype Kind =
    | Invalid | Bool | Int8 | Int16 | Int32 | Int64 | Uint8 | Uint16 | Uint32 | Uint64
    | Float32 | Float64 | Complex64 | Complex128 | Int | Uint | Uintptr | UnsafePointer | String

  /** `Reference` stands for pointers, channels and maps. */
  datatype Type =
    | Basic(kind: Kind)
    | Array(length: int, elem: Type)
    | Slice
    | Struct(fields: seq<Type>)
    | Interface
    | Reference
    | Signature

  datatype Sizes = Sizes(intSize: nat, ptrSize: nat, maxAlign: nat)

  ghost predicate Valid(s: Sizes) {
    IsPow2(s.intSize) && IsPow2(s.ptrSize) && IsPow2(s.maxAlign)
  }

  /** The table of fixed sizes; 0 for kinds that depend on the target. */
  function FixedSize(k: Kind): nat {
    match k
    case Bool => 1
    case Int8 => 1
    case Uint8 => 1
    case Int16 => 2
    case Uint16 => 2
    case Int32 => 4
    case Uint32 => 4
    case Float32 => 4
    case Int64 => 8
    case Uint64 => 8
    case Float64 => 8
    case Complex64 => 8
    case Complex128 => 16
    case _ => 0
  }

  function BasicSize(s: Sizes, k: Kind): nat {
    if FixedSize(k) > 0 then FixedSize(k)
    else match k
      case String => s.ptrSize * 2
      case Int => s.intSize
      case Uint => s.intSize
      case Uintptr => s.ptrSize
      case UnsafePointer => s.ptrSize
      case _ => 0
  }

  /** Alignment of a type from its size. */
  function SizedAlign(s: Sizes, size: nat, complex: bool): nat {
    if size < 1 then 1
    else
      var a := if complex then size / 2 else size;
      if a > s.maxAlign then s.maxAlign else a
  }

  function AtLeastOne(a: nat): (r: nat)
    ensures r > 0 && (a > 0 ==> r == a)
  {
    if a == 0 then 1 else a
  }

  function Alignof(s: Sizes, t: Type): (a: nat)
    ensures a > 0
    decreases t, 1
  {
    match t
    case Array(_, elem) => Alignof(s, elem)
    case Struct(fields) => MaxAlign(s, fields)
    case Slice => AtLeastOne(s.ptrSize)
    case Interface => AtLeastOne(s.ptrSize)
    case Signature => AtLeastOne(s.ptrSize)
    case Basic(k) =>
      if k == String then AtLeastOne(s.ptrSize)
      else AtLeastOne(SizedAlign(s, BasicSize(s, k), k == Complex64 || k == Complex128))
    case Reference => AtLeastOne(SizedAlign(s, s.ptrSize, false))
  }

  function MaxAlign(s: Sizes, fields: seq<Type>): (a: nat)
    ensures a > 0
    decreases fields, 0
  {
    if fields == [] then 1
    else
      var max, a := MaxAlign(s, fields[..|fields| - 1]), Alignof(s, fields[|fields| - 1]);
      if a > max then a else max
  }

  function Sizeof(s: Sizes, t: Type): nat
    decreases t, 1
  {
    match t
    case Basic(k) => BasicSize(s, k)
    case Array(n, elem) =>
      if n <= 0 then 0
      else
        ArrayBytes(AlignUp(Sizeof(s, elem), Alignof(s, elem)), n - 1, Sizeof(s, elem))
    case Slice => s.ptrSize * 3
    case Struct(fields) => if fields == [] then 0 else AlignUp(End(s, fields), MaxAlign(s, fields))
    case Interface => s.ptrSize * 2
    case Reference => s.ptrSize
    case Signature => s.ptrSize * 2
  }

  function ArrayBytes(stride: nat, n: nat, last: nat): nat {
    stride * n + last
  }

  /** Where the next field could start. */
  function End(s: Sizes, fields: seq<Type>): nat
    decreases fields, 0
  {
    if fields == [] then 0
    else
      var last := fields[|fields| - 1];
      AlignUp(End(s, fields[..|fields| - 1]), Alignof(s, last)) + Sizeof(s, last)
  }

  function Offset(s: Sizes, fields: seq<Type>, i: nat): nat
    requires i < |fields|
  {
    AlignUp(End(s, fields[..i]), Alignof(s, fields[i]))
  }

  method Offsetsof(s: Sizes, fields: seq<Type>) returns (offsets: seq<nat>)
    ensures |offsets| == |fields|
    ensures forall i :: 0 <= i < |fields| ==> offsets[i] == Offset(s, fields, i)
    ensures fields != [] ==> offsets[|fields| - 1] + Sizeof(s, fields[|fields| - 1]) == End(s, fields)
    ensures forall i :: 0 <= i < |fields| ==> Tight(s, fields, offsets, i)
  {
    hide Sizeof, Alignof, AlignUp;
    offsets := [];
    var o := 0;
    var i := 0;
    while i < |fields|
      invariant 0 <= i <= |fields| && |offsets| == i && o == End(s, fields[..i])
      invariant forall k :: 0 <= k < i ==> offsets[k] == Offset(s, fields, k)
    {
      assert fields[..i + 1][..i] == fields[..i];
      o := AlignUp(o, Alignof(s, fields[i]));
      offsets := offsets + [o];
      o := o + Sizeof(s, fields[i]);
      i := i + 1;
    }
    assert fields[..i] == fields;
    forall k | 0 <= k < |fields| ensures Tight(s, fields, offsets, k) {
      OffsetIsTight(s, fields, k);
    }
  }

  /** Field `i` begins at the least multiple of its alignment at or after the end of the field
      before it. */
  ghost predicate Tight(s: Sizes, fields: seq<Type>, offsets: seq<nat>, i: nat)
    requires i < |fields| == |offsets|
  {
    var before := if i == 0 then 0 else offsets[i - 1] + Sizeof(s, fields[i - 1]);
    IsLeastMultiple(offsets[i], before, Alignof(s, fields[i]))
  }

  lemma OffsetIsTight(s: Sizes, fields: seq<Type>, i: nat)
    requires i < |fields|
    ensures var before := if i == 0 then 0 else Offset(s, fields, i - 1) + Sizeof(s, fields[i - 1]);
      IsLeastMultiple(Offset(s, fields, i), before, Alignof(s, fields[i]))
  {
    hide Sizeof, Alignof, AlignUp;
    if i > 0 {
      assert fields[..i][..i - 1] == fields[..i - 1];
    }
  }

  /** A struct is as large as its fields and its alignment make it: its size is the least multiple of
      its alignment at or after the end of its last field, wherever tight offsets place that, and its
      alignment is the largest of its fields'. */
  lemma StructIsTight(s: Sizes, fields: seq<Type>, offsets: seq<nat>)
    requires |offsets| == |fields| && forall i :: 0 <= i < |fields| ==> Tight(s, fields, offsets, i)
    ensures var n, size, a := |fields|, Sizeof(s, Struct(fields)), Alignof(s, Struct(fields));
      && (if n == 0 then size == 0 else IsLeastMultiple(size, offsets[n - 1] + Sizeof(s, fields[n - 1]), a))
      && (forall i :: 0 <= i < n ==> Alignof(s, fields[i]) <= a)
      && (a == 1 || exists i :: 0 <= i < n && Alignof(s, fields[i]) == a)
  {
    var n := |fields|;
    LargestAlign(s, fields, n);
    assert fields[..n] == fields;
    if n > 0 {
      TightIsOffset(s, fields, offsets, n - 1);
      assert fields[..n - 1] == fields[..|fields| - 1];
    }
  }

  /** There is only one tight placement. */
  lemma {:induction false} TightIsOffset(s: Sizes, fields: seq<Type>, offsets: seq<nat>, i: nat)
    requires i < |fields| == |offsets| && forall i :: 0 <= i < |fields| ==> Tight(s, fields, offsets, i)
    ensures offsets[i] == Offset(s, fields, i)
  {
    hide Sizeof, Alignof, AlignUp, Offset;
    if i > 0 {
      TightIsOffset(s, fields, offsets, i - 1);
    }
    OffsetIsTight(s, fields, i);
    assert Tight(s, fields, offsets, i);
    var before := if i == 0 then 0 else offsets[i - 1] + Sizeof(s, fields[i - 1]);
    var a := Alignof(s, fields[i]);
    LeastMultipleIsLeast(offsets[i], before, a, Offset(s, fields, i));
    LeastMultipleIsLeast(Offset(s, fields, i), before, a, offsets[i]);
  }

  lemma {:induction false} LargestAlign(s: Sizes, fields: seq<Type>, n: nat)
    requires n <= |fields|
    ensures var a := MaxAlign(s, fields[..n]);
      && (forall i :: 0 <= i < n ==> Alignof(s, fields[i]) <= a)
      && (a == 1 || exists i :: 0 <= i < n && Alignof(s, fields[i]) == a)
  {
    hide Alignof;
    if n > 0 {
      LargestAlign(s, fields, n - 1);
      assert fields[..n][..n - 1] == fields[..n - 1];
    }
  }

  /** The sizes of everything that is not an array or a struct. */
  lemma LeafSizes(s: Sizes)
    ensures forall k :: k in {Bool, Int8, Uint8} ==> Sizeof(s, Basic(k)) == 1
    ensures forall k :: k in {Int16, Uint16} ==> Sizeof(s, Basic(k)) == 2
    ensures forall k :: k in {Int32, Uint32, Float32} ==> Sizeof(s, Basic(k)) == 4
    ensures forall k :: k in {Int64, Uint64, Float64, Complex64} ==> Sizeof(s, Basic(k)) == 8
    ensures Sizeof(s, Basic(Complex128)) == 16 && Sizeof(s, Basic(Invalid)) == 0
    ensures forall k :: k in {Int, Uint} ==> Sizeof(s, Basic(k)) == s.intSize
    ensures forall k :: k in {Uintptr, UnsafePointer} ==> Sizeof(s, Basic(k)) == s.ptrSize
    ensures Sizeof(s, Reference) == s.ptrSize && Sizeof(s, Slice) == 3 * s.ptrSize
    ensures forall t :: t in {Basic(String), Interface, Signature} ==> Sizeof(s, t) == 2 * s.ptrSize
  {
  }

  /** Their alignments: a word for what is made of words, and otherwise the size, of one half for
      complex numbers, up to the target's maximum. */
  lemma LeafAligns(s: Sizes, t: Type)
    requires Valid(s) && !t.Array? && !t.Struct?
    ensures Alignof(s, t) ==
      if t in {Basic(String), Slice, Interface, Signature} then s.ptrSize
      else if t == Basic(Complex64) then AtMost(4, s.maxAlign)
      else if t == Basic(Complex128) then AtMost(8, s.maxAlign)
      else if t == Basic(Invalid) then 1
      else AtMost(Sizeof(s, t), s.maxAlign)
  {
    Pow2Positive(s.ptrSize);
    Pow2Positive(s.intSize);
    Pow2Positive(s.maxAlign);
  }

  function AtMost(a: nat, max: nat): nat {
    if a > max then max else a
  }

  /** An array is its elements one after the other. */
  lemma ArrayIsDense(s: Sizes, n: int, elem: Type)
    requires Valid(s)
    ensures Sizeof(s, Array(n, elem)) == if n <= 0 then 0 else n * Sizeof(s, elem)
    ensures Alignof(s, Array(n, elem)) == Alignof(s, elem)
  {
    AllAligned(s, elem);
    ArraySize(s, n, elem);
  }

  // ---------------------------------------------------------------------------
  // Leaves

  datatype Leaf = Leaf(offset: nat, size: nat, align: nat)

  function Shift(ls: seq<Leaf>, shift: nat): seq<Leaf> {
    seq(|ls|, i requires 0 <= i < |ls| => ls[i].(offset := ls[i].offset + shift))
  }

  /** Every part of a type that is not an array or struct, with its absolute offset. */
  function Leaves(s: Sizes, t: Type): seq<Leaf>
    decreases t, 2
  {
    match t
    case Array(n, elem) => if n <= 0 then [] else Copies(Leaves(s, elem), AlignUp(Sizeof(s, elem), Alignof(s, elem)), n)
    case Struct(fields) => FieldLeaves(s, fields, |fields|)
    case _ => [Leaf(0, Sizeof(s, t), Alignof(s, t))]
  }

  function Copies(ls: seq<Leaf>, stride: nat, n: nat): seq<Leaf> {
    if n == 0 then [] else Copies(ls, stride, n - 1) + Shift(ls, (n - 1) * stride)
  }

  function FieldLeaves(s: Sizes, fields: seq<Type>, n: nat): seq<Leaf>
    requires n <= |fields|
    decreases fields, n
  {
    if n == 0 then [] else FieldLeaves(s, fields, n - 1) + Shift(Leaves(s, fields[n - 1]), Offset(s, fields, n - 1))
  }

  /** Leaves inside [lo, hi), in order, without overlap, each at a multiple of its alignment,
      which divides `a`. */
  ghost predicate Placed(ls: seq<Leaf>, lo: nat, hi: nat, a: nat) {
    && (forall i :: 0 <= i < |ls| ==> lo <= ls[i].offset && ls[i].offset + ls[i].size <= hi)
    && (forall i :: 0 <= i < |ls| ==> ls[i].align > 0 && ls[i].offset % ls[i].align == 0 && a % ls[i].align == 0)
    && (forall i, j :: 0 <= i < j < |ls| ==> ls[i].offset + ls[i].size <= ls[j].offset)
  }

  lemma PlacedShift(ls: seq<Leaf>, lo: nat, hi: nat, a: nat, shift: nat)
    requires a > 0 && Placed(ls, lo, hi, a) && shift % a == 0
    ensures Placed(Shift(ls, shift), lo + shift, hi + shift, a)
  {
    forall i | 0 <= i < |ls| ensures (ls[i].offset + shift) % ls[i].align == 0 {
      MultipleOfMultiple(shift, a, ls[i].align);
      SumOfMultiples(ls[i].offset, shift, ls[i].align);
    }
  }

  lemma PlacedEmpty(hi: nat, a: nat)
    ensures Placed([], 0, hi, a)
  {
  }

  lemma PlacedConcat(xs: seq<Leaf>, ys: seq<Leaf>, lo: nat, m: nat, m': nat, hi: nat, a: nat)
    requires Placed(xs, lo, m, a) && Placed(ys, m', hi, a) && lo <= m <= m' <= hi
    ensures Placed(xs + ys, lo, hi, a)
  {
    var zs := xs + ys;
    forall i, j | 0 <= i < j < |zs| ensures zs[i].offset + zs[i].size <= zs[j].offset {
      if i < |xs| <= j {
        assert zs[i] == xs[i] && zs[j] == ys[j - |xs|];
      }
    }
  }

  lemma PlacedWeaken(ls: seq<Leaf>, lo: nat, hi: nat, a: nat, a': nat)
    requires a > 0 && a' > 0 && Placed(ls, lo, hi, a) && a' % a == 0
    ensures Placed(ls, lo, hi, a')
  {
    forall i | 0 <= i < |ls| ensures a' % ls[i].align == 0 {
      MultipleOfMultiple(a', a, ls[i].align);
    }
  }

  // ---------------------------------------------------------------------------
  // Alignments are powers of two that divide the sizes

  ghost predicate Aligned(s: Sizes, t: Type) {
    IsPow2(Alignof(s, t)) && Sizeof(s, t) % Alignof(s, t) == 0
  }

  lemma FixedSizeIsPow2(k: Kind)
    requires FixedSize(k) > 0
    ensures IsPow2(FixedSize(k)) && IsPow2(AtLeastOne(FixedSize(k) / 2))
  {
    assert Pow2(0) == 1 && Pow2(1) == 2 && Pow2(2) == 4 && Pow2(3) == 8 && Pow2(4) == 16;
  }

  lemma Pow2Positive(a: nat)
    requires IsPow2(a)
    ensures a > 0
  {
    var n: nat :| a == Pow2(n);
  }

  /** An alignment capped at the maximum still divides the size. */
  lemma CappedAlign(s: Sizes, size: nat, a: nat)
    requires Valid(s) && IsPow2(a) && a > 0 && size % a == 0
    ensures var c := if a > s.maxAlign then s.maxAlign else a; c > 0 && IsPow2(c) && size % c == 0
  {
    Pow2Positive(s.maxAlign);
    if a > s.maxAlign {
      Pow2Divides(s.maxAlign, a);
      MultipleOfMultiple(size, a, s.maxAlign);
    }
  }

  lemma OneIsPow2()
    ensures IsPow2(1)
  {
    assert Pow2(0) == 1;
  }

  /** A size that is a power of two, or a complex number's two halves. */
  lemma SizedAligned(s: Sizes, size: nat, complex: bool)
    requires Valid(s) && size > 0
    requires if complex then size % 2 == 0 && IsPow2(size / 2) && size / 2 > 0 else IsPow2(size)
    ensures var a := SizedAlign(s, size, complex); a > 0 && IsPow2(a) && size % a == 0
  {
    var a := if complex then size / 2 else size;
    MulMod(if complex then 2 else 1, a);
    CappedAlign(s, size, a);
  }

  lemma BasicAligned(s: Sizes, k: Kind)
    requires Valid(s)
    ensures Aligned(s, Basic(k))
  {
    Pow2Positive(s.ptrSize);
    Pow2Positive(s.intSize);
    OneIsPow2();
    if k == String {
      MulMod(2, s.ptrSize);
    } else if FixedSize(k) > 0 {
      FixedSizeIsPow2(k);
      SizedAligned(s, FixedSize(k), k == Complex64 || k == Complex128);
    } else if BasicSize(s, k) > 0 {
      SizedAligned(s, BasicSize(s, k), false);
    }
  }

  lemma WordAligned(s: Sizes, t: Type)
    requires Valid(s) && (t.Slice? || t.Interface? || t.Reference? || t.Signature?)
    ensures Aligned(s, t)
  {
    Pow2Positive(s.ptrSize);
    MulMod(1, s.ptrSize);
    MulMod(2, s.ptrSize);
    MulMod(3, s.ptrSize);
    CappedAlign(s, s.ptrSize, s.ptrSize);
  }

  lemma {:induction false} MaxAlignOf(s: Sizes, fields: seq<Type>, n: nat)
    requires n <= |fields| && forall i :: 0 <= i < n ==> IsPow2(Alignof(s, fields[i]))
    ensures var m := MaxAlign(s, fields[..n]); IsPow2(m) && forall i :: 0 <= i < n ==> m % Alignof(s, fields[i]) == 0
  {
    OneIsPow2();
    if n > 0 {
      MaxAlignOf(s, fields, n - 1);
      assert fields[..n][..n - 1] == fields[..n - 1];
      var m, m', a := MaxAlign(s, fields[..n]), MaxAlign(s, fields[..n - 1]), Alignof(s, fields[n - 1]);
      Pow2Divides(m', m);
      Pow2Divides(a, m);
      forall i | 0 <= i < n ensures m % Alignof(s, fields[i]) == 0 {
        if i < n - 1 {
          MultipleOfMultiple(m, m', Alignof(s, fields[i]));
        }
      }
    }
  }

  /** Alignments are powers of two and divide the sizes, for every type. */
  lemma {:induction false} AllAligned(s: Sizes, t: Type)
    requires Valid(s)
    ensures Aligned(s, t)
    decreases t
  {
    hide Aligned, Sizeof, Alignof;
    match t
    case Basic(k) => BasicAligned(s, k);
    case Array(n, elem) =>
      AllAligned(s, elem);
      ArrayAligned(s, n, elem);
    case Struct(fields) =>
      forall i | 0 <= i < |fields| ensures Aligned(s, fields[i]) {
        AllAligned(s, fields[i]);
      }
      StructAligned(s, fields);
    case _ => WordAligned(s, t);
  }

  lemma ArrayAligned(s: Sizes, n: int, elem: Type)
    requires Aligned(s, elem)
    ensures Aligned(s, Array(n, elem))
  {
    hide IsPow2;
    ArraySize(s, n, elem);
    if n > 0 {
      ProductOfMultiple(n, Sizeof(s, elem), Alignof(s, elem));
    }
  }

  lemma StructAligned(s: Sizes, fields: seq<Type>)
    requires Valid(s) && forall i :: 0 <= i < |fields| ==> Aligned(s, fields[i])
    ensures Aligned(s, Struct(fields))
  {
    MaxAlignOf(s, fields, |fields|);
    assert fields[..|fields|] == fields;
  }

  lemma ArraySize(s: Sizes, n: int, elem: Type)
    requires Aligned(s, elem)
    ensures AlignUp(Sizeof(s, elem), Alignof(s, elem)) == Sizeof(s, elem)
    ensures Sizeof(s, Array(n, elem)) == if n <= 0 then 0 else n * Sizeof(s, elem)
  {
    hide IsPow2, AlignUp, ArrayBytes;
    AlignUpOfMultiple(Sizeof(s, elem), Alignof(s, elem));
    if n > 0 {
      EqualStrides(Sizeof(s, elem), n);
    }
  }

  lemma EqualStrides(z: nat, n: nat)
    requires n > 0
    ensures ArrayBytes(z, n - 1, z) == n * z
  {
  }

  // ---------------------------------------------------------------------------
  // Placement

  lemma {:induction false} CopiesPlaced(ls: seq<Leaf>, size: nat, a: nat, n: nat)
    requires a > 0 && Placed(ls, 0, size, a) && size % a == 0
    ensures Placed(Copies(ls, size, n), 0, n * size, a)
  {
    hide Placed, Shift;
    if n == 0 {
      PlacedEmpty(n * size, a);
    } else {
      CopiesPlaced(ls, size, a, n - 1);
      ProductOfMultiple(n - 1, size, a);
      PlacedShift(ls, 0, size, a, (n - 1) * size);
      assert (n - 1) * size + size == n * size;
      PlacedConcat(Copies(ls, size, n - 1), Shift(ls, (n - 1) * size), 0, (n - 1) * size, (n - 1) * size, n * size, a);
    }
  }

  lemma {:induction false} FieldsPlaced(s: Sizes, fields: seq<Type>, n: nat, a: nat)
    requires n <= |fields| && a > 0
    requires forall i :: 0 <= i < n ==> Placed(Leaves(s, fields[i]), 0, Sizeof(s, fields[i]), Alignof(s, fields[i]))
    requires forall i :: 0 <= i < n ==> a % Alignof(s, fields[i]) == 0
    ensures Placed(FieldLeaves(s, fields, n), 0, End(s, fields[..n]), a)
  {
    hide Placed, Shift, Sizeof, Alignof, Leaves;
    if n == 0 {
      PlacedEmpty(End(s, fields[..n]), a);
    } else {
      FieldsPlaced(s, fields, n - 1, a);
      var f, o := fields[n - 1], Offset(s, fields, n - 1);
      assert fields[..n][..n - 1] == fields[..n - 1];
      PlacedShift(Leaves(s, f), 0, Sizeof(s, f), Alignof(s, f), o);
      PlacedWeaken(Shift(Leaves(s, f), o), o, Sizeof(s, f) + o, Alignof(s, f), a);
      PlacedConcat(FieldLeaves(s, fields, n - 1), Shift(Leaves(s, f), o), 0, End(s, fields[..n - 1]), o,
        End(s, fields[..n]), a);
    }
  }

  ghost predicate WellPlaced(s: Sizes, t: Type) {
    Aligned(s, t) && Placed(Leaves(s, t), 0, Sizeof(s, t), Alignof(s, t))
  }

  lemma ArrayPlaced(s: Sizes, n: int, elem: Type)
    requires WellPlaced(s, elem)
    ensures Placed(Leaves(s, Array(n, elem)), 0, Sizeof(s, Array(n, elem)), Alignof(s, Array(n, elem)))
  {
    ArraySize(s, n, elem);
    if n > 0 {
      CopiesPlaced(Leaves(s, elem), Sizeof(s, elem), Alignof(s, elem), n);
    }
  }

  lemma StructPlaced(s: Sizes, fields: seq<Type>)
    requires forall i :: 0 <= i < |fields| ==> WellPlaced(s, fields[i])
    ensures Placed(Leaves(s, Struct(fields)), 0, Sizeof(s, Struct(fields)), Alignof(s, Struct(fields)))
  {
    assert fields[..|fields|] == fields;
    MaxAlignOf(s, fields, |fields|);
    FieldsPlaced(s, fields, |fields|, MaxAlign(s, fields));
    if fields != [] {
      PlacedGrow(FieldLeaves(s, fields, |fields|), End(s, fields), Sizeof(s, Struct(fields)), MaxAlign(s, fields));
    }
  }

  lemma PlacedGrow(ls: seq<Leaf>, hi: nat, hi': nat, a: nat)
    requires Placed(ls, 0, hi, a) && hi <= hi'
    ensures Placed(ls, 0, hi', a)
  {
  }

  /** For every nested type: each leaf lies inside the value at a multiple of its own alignment,
      and leaves come in order without overlap. */
  lemma {:induction false} LeavesPlaced(s: Sizes, t: Type)
    requires Valid(s)
    ensures WellPlaced(s, t)
    decreases t
  {
    AllAligned(s, t);
    match t
    case Array(n, elem) =>
      LeavesPlaced(s, elem);
      ArrayPlaced(s, n, elem);
    case Struct(fields) =>
      forall i | 0 <= i < |fields| ensures WellPlaced(s, fields[i]) {
        LeavesPlaced(s, fields[i]);
      }
      StructPlaced(s, fields);
    case _ => LeafPlaced(s, t);
  }

  lemma LeafPlaced(s: Sizes, t: Type)
    requires !t.Array? && !t.Struct?
    ensures Placed(Leaves(s, t), 0, Sizeof(s, t), Alignof(s, t))
  {
    OneLeafPlaced(Sizeof(s, t), Alignof(s, t));
  }

  lemma OneLeafPlaced(size: nat, align: nat)
    requires align > 0
    ensures Placed([Leaf(0, size, align)], 0, size, align)
  {
    MulMod(0, align);
    MulMod(1, align);
  }
}
