/** `getPointerBitmap`: which words of a type hold a pointer. A word is as long as the
    preferred alignment of a pointer. */
module PointerBitmap {
  import opened Arithmetic
  import opened Bits
  import opened LlvmTypes

  /** A pointer starts at byte `off` of a value of type `t`. */
  ghost predicate PointerAt(d: Target, t: Type, off: nat)
    decreases t, 0
  {
    match t
    case Scalar(_, _) => false
    case Pointer => off == 0
    case Struct(fields) => exists i :: 0 <= i < |fields| && PointerInField(d, fields, i, off)
    case Array(length, elem) => exists j :: 0 <= j < length && PointerInElement(d, elem, j, off)
    case FuncValue => off == 0 || off == Size(d, Pointer)
  }

  ghost predicate PointerInField(d: Target, fields: seq<Type>, i: nat, off: nat)
    requires i < |fields|
    decreases fields, 0
  {
    Offset(d, fields, i) <= off && PointerAt(d, fields[i], off - Offset(d, fields, i))
  }

  ghost predicate PointerInElement(d: Target, elem: Type, j: nat, off: nat)
    decreases elem, 1
  {
    j * Size(d, elem) <= off && PointerAt(d, elem, off - j * Size(d, elem))
  }

  /** The bitmap and whether every pointer was found at a whole word. */
  datatype Result = Result(bits: nat, ok: bool)

  function Bitmap(d: Target, t: Type): Result
    requires ValidTarget(d)
    decreases t, 1
  {
    match t
    case Scalar(_, _) => Result(0, true)
    case Pointer => Result(1, true)
    case Struct(fields) => FieldBits(d, fields, |fields|)
    case Array(length, elem) =>
      var sub := Bitmap(d, elem);
      if sub.bits == 0 then Result(0, sub.ok)
      else if Size(d, elem) % d.pref != 0 then Result(0, false)
      else Result(Repeated(sub.bits, Size(d, elem) / d.pref, length), sub.ok)
    case FuncValue =>
      // Scanned as a struct of two pointers.
      AddField(d, AddField(d, Result(0, true), Result(1, true), 0), Result(1, true), Size(d, Pointer))
  }

  /** Adds the bits of a field at byte `offset`. */
  function AddField(d: Target, acc: Result, sub: Result, offset: nat): Result
    requires d.pref > 0
  {
    if sub.bits == 0 then Result(acc.bits, acc.ok && sub.ok)
    else if offset % d.pref != 0 then Result(acc.bits, false)
    else Result(Or(acc.bits, Shl(sub.bits, offset / d.pref)), acc.ok && sub.ok)
  }

  function FieldBits(d: Target, fields: seq<Type>, n: nat): Result
    requires ValidTarget(d) && n <= |fields|
    decreases fields, n
  {
    if n == 0 then Result(0, true)
    else AddField(d, FieldBits(d, fields, n - 1), Bitmap(d, fields[n - 1]), Offset(d, fields, n - 1))
  }

  /** The shift-or loop over the elements of an array. */
  function Repeated(bits: nat, words: nat, n: nat): nat {
    if n == 0 then 0 else Or(Shl(Repeated(bits, words, n - 1), words), bits)
  }

  /** The scan with its loops. */
  method GetPointerBitmap(d: Target, t: Type) returns (r: Result)
    requires ValidTarget(d)
    ensures r == Bitmap(d, t)
    decreases t
  {
    match t {
      case Scalar(_, _) => r := Result(0, true);
      case Pointer => r := Result(1, true);
      case FuncValue => r := AddField(d, AddField(d, Result(0, true), Result(1, true), 0), Result(1, true),
        Size(d, Pointer));
      case Struct(fields) =>
        r := Result(0, true);
        var i := 0;
        while i < |fields|
          invariant 0 <= i <= |fields| && r == FieldBits(d, fields, i)
        {
          var sub := GetPointerBitmap(d, fields[i]);
          r := AddField(d, r, sub, Offset(d, fields, i));
          i := i + 1;
        }
      case Array(length, elem) =>
        var sub := GetPointerBitmap(d, elem);
        if sub.bits == 0 {
          return Result(0, sub.ok);
        }
        if Size(d, elem) % d.pref != 0 {
          return Result(0, false);
        }
        var ptrs := 0;
        var i := 0;
        while i < length
          invariant 0 <= i <= length && ptrs == Repeated(sub.bits, Size(d, elem) / d.pref, i)
        {
          ptrs := Shl(ptrs, Size(d, elem) / d.pref);
          ptrs := Or(ptrs, sub.bits);
          i := i + 1;
        }
        r := Result(ptrs, sub.ok);
    }
  }

  // ---------------------------------------------------------------------------
  // The bitmap marks exactly the words where a pointer starts

  ghost predicate Marks(d: Target, t: Type, bits: nat)
    requires d.pref > 0
  {
    && (forall k: nat :: Bit(bits, k) <==> PointerAt(d, t, k * d.pref))
    && (forall off: nat :: PointerAt(d, t, off) ==> off % d.pref == 0)
  }

  ghost predicate ShiftedBit(bits: nat, words: nat, j: nat, k: nat) {
    j * words <= k && Bit(bits, k - j * words)
  }

  lemma ShiftOnce(bits: nat, words: nat, j: nat, k: nat)
    ensures ShiftedBit(bits, words, j + 1, k) <==> k >= words && ShiftedBit(bits, words, j, k - words)
  {
    assert (j + 1) * words == j * words + words && j * words >= 0;
  }

  /** The loop collects the element's bits shifted to every element. */
  lemma {:induction false} RepeatedBit(bits: nat, words: nat, n: nat, k: nat)
    ensures Bit(Repeated(bits, words, n), k) <==> exists j: nat :: j < n && ShiftedBit(bits, words, j, k)
  {
    if n == 0 {
      ZeroBit(k);
    } else {
      var rest := Repeated(bits, words, n - 1);
      OrBit(Shl(rest, words), bits, k);
      ShlBit(rest, words, k);
      assert ShiftedBit(bits, words, 0, k) <==> Bit(bits, k);
      if k >= words {
        var k' := k - words;
        RepeatedBit(bits, words, n - 1, k');
        if exists j: nat :: j < n - 1 && ShiftedBit(bits, words, j, k') {
          var j: nat :| j < n - 1 && ShiftedBit(bits, words, j, k');
          ShiftOnce(bits, words, j, k);
          assert ShiftedBit(bits, words, j + 1, k);
        }
      }
      if exists j: nat :: j < n && ShiftedBit(bits, words, j, k) {
        var j: nat :| j < n && ShiftedBit(bits, words, j, k);
        if j > 0 {
          ShiftOnce(bits, words, j - 1, k);
        }
      }
    }
  }

  /** No pointer bit means no pointer. */
  lemma NoBitsNoPointers(d: Target, t: Type, off: nat)
    requires d.pref > 0 && Marks(d, t, 0)
    ensures !PointerAt(d, t, off)
  {
    if off % d.pref == 0 {
      ZeroBit(off / d.pref);
      assert off == (off / d.pref) * d.pref;
    }
  }

  /** A pointer in a part that starts at a whole word is itself at a whole word. */
  lemma PartAligned(d: Target, t: Type, bits: nat, offset: nat, off: nat)
    requires d.pref > 0 && Marks(d, t, bits) && (bits != 0 ==> offset % d.pref == 0)
    requires offset <= off && PointerAt(d, t, off - offset)
    ensures off % d.pref == 0
  {
    if bits == 0 {
      NoBitsNoPointers(d, t, off - offset);
    } else {
      SumOfMultiples(off - offset, offset, d.pref);
    }
  }

  lemma ShiftedField(d: Target, t: Type, bits: nat, offset: nat, k: nat)
    requires d.pref > 0 && Marks(d, t, bits) && offset % d.pref == 0
    ensures Bit(Shl(bits, offset / d.pref), k) <==> offset <= k * d.pref && PointerAt(d, t, k * d.pref - offset)
  {
    hide PointerAt, Bit, Shl;
    var w := offset / d.pref;
    assert offset == w * d.pref;
    ShlBit(bits, w, k);
    WordDistance(k, w, d.pref);
  }

  lemma WordDistance(k: nat, w: nat, p: nat)
    requires p > 0
    ensures k >= w ==> (k - w) * p == k * p - w * p && w * p <= k * p
    ensures k < w ==> k * p < w * p
  {
    if k < w {
      assert w * p == k * p + (w - k) * p;
    } else {
      assert k * p == w * p + (k - w) * p;
    }
  }

  ghost predicate InFirst(d: Target, fields: seq<Type>, n: nat, off: nat)
    requires n <= |fields|
  {
    exists i :: 0 <= i < n && PointerInField(d, fields, i, off)
  }

  /** The fields scanned so far. */
  ghost predicate MarksFields(d: Target, fields: seq<Type>, n: nat, bits: nat)
    requires d.pref > 0 && n <= |fields|
  {
    && (forall k: nat :: Bit(bits, k) <==> InFirst(d, fields, n, k * d.pref))
    && (forall off: nat :: InFirst(d, fields, n, off) ==> off % d.pref == 0)
  }

  lemma InFirstNext(d: Target, fields: seq<Type>, n: nat, off: nat)
    requires n < |fields|
    ensures InFirst(d, fields, n + 1, off) <==> InFirst(d, fields, n, off) || PointerInField(d, fields, n, off)
  {
  }

  lemma NextFieldBit(d: Target, fields: seq<Type>, n: nat, acc: Result, sub: Result, k: nat)
    requires ValidTarget(d) && n < |fields|
    requires MarksFields(d, fields, n, acc.bits) && Marks(d, fields[n], sub.bits)
    requires AddField(d, acc, sub, Offset(d, fields, n)).ok
    ensures Bit(AddField(d, acc, sub, Offset(d, fields, n)).bits, k) <==> InFirst(d, fields, n + 1, k * d.pref)
  {
    hide Bit, Shl, Or, Offset, PointerAt, InFirst, Marks;
    var o := Offset(d, fields, n);
    InFirstNext(d, fields, n, k * d.pref);
    if sub.bits != 0 {
      ShiftedField(d, fields[n], sub.bits, o, k);
      OrBit(acc.bits, Shl(sub.bits, o / d.pref), k);
    } else if o <= k * d.pref {
      NoBitsNoPointers(d, fields[n], k * d.pref - o);
    }
  }

  lemma NextFieldOffset(d: Target, fields: seq<Type>, n: nat, acc: Result, sub: Result, off: nat)
    requires ValidTarget(d) && n < |fields|
    requires MarksFields(d, fields, n, acc.bits) && Marks(d, fields[n], sub.bits)
    requires AddField(d, acc, sub, Offset(d, fields, n)).ok && InFirst(d, fields, n + 1, off)
    ensures off % d.pref == 0
  {
    InFirstNext(d, fields, n, off);
    if PointerInField(d, fields, n, off) {
      PartAligned(d, fields[n], sub.bits, Offset(d, fields, n), off);
    }
  }

  lemma NoFieldsMark(d: Target, fields: seq<Type>)
    requires ValidTarget(d)
    ensures MarksFields(d, fields, 0, 0)
  {
    forall k: nat ensures !Bit(0, k) {
      ZeroBit(k);
    }
  }

  lemma {:induction false} FieldBitsMark(d: Target, fields: seq<Type>, n: nat)
    requires ValidTarget(d) && n <= |fields| && FieldBits(d, fields, n).ok
    requires forall i :: 0 <= i < n && Bitmap(d, fields[i]).ok ==> Marks(d, fields[i], Bitmap(d, fields[i]).bits)
    ensures MarksFields(d, fields, n, FieldBits(d, fields, n).bits)
  {
    hide Marks, Bitmap, PointerInField, InFirst, Shl, Or;
    if n == 0 {
      NoFieldsMark(d, fields);
    } else {
      var acc, sub := FieldBits(d, fields, n - 1), Bitmap(d, fields[n - 1]);
      FieldBitsMark(d, fields, n - 1);
      forall k: nat ensures Bit(FieldBits(d, fields, n).bits, k) <==> InFirst(d, fields, n, k * d.pref) {
        NextFieldBit(d, fields, n - 1, acc, sub, k);
      }
      forall off: nat | InFirst(d, fields, n, off) ensures off % d.pref == 0 {
        NextFieldOffset(d, fields, n - 1, acc, sub, off);
      }
    }
  }

  lemma ElementBit(d: Target, elem: Type, bits: nat, j: nat, k: nat)
    requires d.pref > 0 && Marks(d, elem, bits) && Size(d, elem) % d.pref == 0
    ensures ShiftedBit(bits, Size(d, elem) / d.pref, j, k) <==> PointerInElement(d, elem, j, k * d.pref)
  {
    var w := Size(d, elem) / d.pref;
    ProductOfMultiple(j, Size(d, elem), d.pref);
    var o := j * Size(d, elem);
    assert o / d.pref == j * w;
    ShiftedField(d, elem, bits, o, k);
    ShlBit(bits, j * w, k);
  }

  lemma ArrayMarks(d: Target, length: nat, elem: Type)
    requires ValidTarget(d) && Bitmap(d, Array(length, elem)).ok
    requires Bitmap(d, elem).ok ==> Marks(d, elem, Bitmap(d, elem).bits)
    ensures Marks(d, Array(length, elem), Bitmap(d, Array(length, elem)).bits)
  {
    var t := Array(length, elem);
    forall k: nat ensures Bit(Bitmap(d, t).bits, k) <==> PointerAt(d, t, k * d.pref) {
      ArrayBit(d, length, elem, k);
    }
    forall off: nat | PointerAt(d, t, off) ensures off % d.pref == 0 {
      ArrayOffset(d, length, elem, off);
    }
  }

  lemma ArrayOffset(d: Target, length: nat, elem: Type, off: nat)
    requires ValidTarget(d) && Bitmap(d, Array(length, elem)).ok
    requires Marks(d, elem, Bitmap(d, elem).bits) && PointerAt(d, Array(length, elem), off)
    ensures off % d.pref == 0
  {
    hide Size, Marks, Bit, Repeated;
    var j: nat :| j < length && PointerInElement(d, elem, j, off);
    ElementOffset(d, elem, Bitmap(d, elem).bits, j, off);
  }

  lemma ElementOffset(d: Target, elem: Type, bits: nat, j: nat, off: nat)
    requires d.pref > 0 && Marks(d, elem, bits) && (bits != 0 ==> Size(d, elem) % d.pref == 0)
    requires PointerInElement(d, elem, j, off)
    ensures off % d.pref == 0
  {
    hide Size, Marks, PointerAt;
    if bits != 0 {
      ProductOfMultiple(j, Size(d, elem), d.pref);
    }
    PartAligned(d, elem, bits, j * Size(d, elem), off);
  }

  lemma ArrayBit(d: Target, length: nat, elem: Type, k: nat)
    requires ValidTarget(d) && Bitmap(d, Array(length, elem)).ok
    requires Marks(d, elem, Bitmap(d, elem).bits)
    ensures Bit(Bitmap(d, Array(length, elem)).bits, k) <==> PointerAt(d, Array(length, elem), k * d.pref)
  {
    var sub, off := Bitmap(d, elem), k * d.pref;
    if sub.bits == 0 {
      ZeroBit(k);
      forall j: nat | j < length && PointerInElement(d, elem, j, off) ensures false {
        NoBitsNoPointers(d, elem, off - j * Size(d, elem));
      }
    } else {
      var w := Size(d, elem) / d.pref;
      RepeatedBit(sub.bits, w, length, k);
      forall j: nat | j < length ensures ShiftedBit(sub.bits, w, j, k) <==> PointerInElement(d, elem, j, off) {
        ElementBit(d, elem, sub.bits, j, k);
      }
    }
  }

  lemma PointerMarks(d: Target)
    requires ValidTarget(d)
    ensures Marks(d, Pointer, 1)
  {
    forall k: nat ensures Bit(1, k) <==> PointerAt(d, Pointer, k * d.pref) {
      if k > 0 {
        ZeroBit(k - 1);
        assert k * d.pref > 0;
      }
    }
  }

  lemma FuncValueMarks(d: Target)
    requires ValidTarget(d) && Bitmap(d, FuncValue).ok
    ensures Marks(d, FuncValue, Bitmap(d, FuncValue).bits)
  {
    var p := Size(d, Pointer);
    PointerMarks(d);
    assert 0 % d.pref == 0 && 0 / d.pref == 0;
    forall k: nat ensures Bit(Bitmap(d, FuncValue).bits, k) <==> PointerAt(d, FuncValue, k * d.pref) {
      ShiftedField(d, Pointer, 1, 0, k);
      ShiftedField(d, Pointer, 1, p, k);
      OrBit(0, Shl(1, 0), k);
      ZeroBit(k);
      OrBit(Or(0, Shl(1, 0)), Shl(1, p / d.pref), k);
    }
  }

  /** For every type in which the scan finds all pointers at whole words, bit k is set exactly
      when a pointer starts at word k. */
  lemma {:induction false} BitmapMarks(d: Target, t: Type)
    requires ValidTarget(d) && Bitmap(d, t).ok
    ensures Marks(d, t, Bitmap(d, t).bits)
    decreases t
  {
    match t
    case Scalar(_, _) =>
      forall k: nat ensures !Bit(0, k) {
        ZeroBit(k);
      }
    case Pointer => PointerMarks(d);
    case FuncValue => FuncValueMarks(d);
    case Struct(fields) =>
      forall i | 0 <= i < |fields| && Bitmap(d, fields[i]).ok ensures Marks(d, fields[i], Bitmap(d, fields[i]).bits) {
        BitmapMarks(d, fields[i]);
      }
      FieldBitsMark(d, fields, |fields|);
      assert forall off: nat :: PointerAt(d, t, off) <==> InFirst(d, fields, |fields|, off);
    case Array(length, elem) =>
      if Bitmap(d, elem).ok {
        BitmapMarks(d, elem);
      }
      ArrayMarks(d, length, elem);
  }

  /** A pointer lies inside the value. */
  lemma {:induction false} PointerInside(d: Target, t: Type, off: nat)
    requires ValidTarget(d) && PointerAt(d, t, off)
    ensures off + Size(d, Pointer) <= Size(d, t)
    decreases t
  {
    match t
    case Pointer =>
    case FuncValue =>
    case Struct(fields) =>
      var i: nat :| i < |fields| && PointerInField(d, fields, i, off);
      PointerInside(d, fields[i], off - Offset(d, fields, i));
      FieldInside(d, fields, i);
    case Array(length, elem) =>
      var j: nat :| j < length && PointerInElement(d, elem, j, off);
      PointerInside(d, elem, off - j * Size(d, elem));
      ElementInside(length, Size(d, elem), j);
  }

  lemma ElementInside(length: nat, size: nat, j: nat)
    requires j < length
    ensures j * size + size <= length * size
  {
    assert (j + 1) * size == j * size + size;
    assert (j + 1) * size <= length * size;
  }

  function WholeWords(size: nat, word: nat): nat
    requires word > 0
  {
    size / word
  }

  /** No bit is set at or beyond the number of words of the value. */
  lemma BitmapFits(d: Target, t: Type)
    requires ValidTarget(d) && Bitmap(d, t).ok
    ensures forall k: nat :: Bit(Bitmap(d, t).bits, k) ==> k < WholeWords(Size(d, t), d.pref)
    ensures Bitmap(d, t).bits < Pow2(WholeWords(Size(d, t), d.pref))
  {
    hide Bitmap, PointerAt, Bit;
    BitmapMarks(d, t);
    PointerIsWord(d);
    hide Size;
    forall k: nat | Bit(Bitmap(d, t).bits, k) ensures k < WholeWords(Size(d, t), d.pref) {
      PointerInside(d, t, k * d.pref);
      WordInside(k, d.pref, Size(d, t));
    }
    BoundedByBits(Bitmap(d, t).bits, WholeWords(Size(d, t), d.pref));
  }

  lemma PointerIsWord(d: Target)
    requires ValidTarget(d)
    ensures Size(d, Pointer) >= d.pref
  {
  }

  lemma WordInside(k: nat, w: nat, size: nat)
    requires w > 0 && k * w + w <= size
    ensures k < WholeWords(size, w)
  {
    var q := size / w;
    assert size == q * w + size % w;
    assert k >= q ==> k * w >= q * w;
  }

  // ---------------------------------------------------------------------------
  // On targets that align pointers to whole words the scan always succeeds

  ghost predicate Pow2Aligned(t: Type)
    decreases t
  {
    match t
    case Scalar(_, align) => IsPow2(align)
    case Struct(fields) => forall i :: 0 <= i < |fields| ==> Pow2Aligned(fields[i])
    case Array(_, elem) => Pow2Aligned(elem)
    case _ => true
  }

  lemma {:induction false} AlignIsPow2(d: Target, t: Type)
    requires ValidTarget(d) && IsPow2(d.abi) && Pow2Aligned(t)
    ensures IsPow2(Align(d, t))
    decreases t
  {
    match t
    case Scalar(_, align) =>
      var n: nat :| align == Pow2(n);
    case Struct(fields) =>
      MaxAlignIsPow2(d, fields, |fields|);
      assert fields[..|fields|] == fields;
    case Array(_, elem) => AlignIsPow2(d, elem);
    case _ =>
  }

  lemma {:induction false} MaxAlignIsPow2(d: Target, fields: seq<Type>, n: nat)
    requires ValidTarget(d) && IsPow2(d.abi) && n <= |fields|
      && forall i :: 0 <= i < |fields| ==> Pow2Aligned(fields[i])
    ensures IsPow2(MaxAlign(d, fields[..n]))
    decreases fields, n
  {
    if n == 0 {
      assert Pow2(0) == 1;
    } else {
      MaxAlignIsPow2(d, fields, n - 1);
      assert fields[..n][..n - 1] == fields[..n - 1];
      AlignIsPow2(d, fields[n - 1]);
    }
  }

  lemma {:induction false} FieldAlignDivides(d: Target, fields: seq<Type>, n: nat, i: nat)
    requires ValidTarget(d) && IsPow2(d.abi) && i < n <= |fields|
      && forall k :: 0 <= k < |fields| ==> Pow2Aligned(fields[k])
    ensures MaxAlign(d, fields[..n]) % Align(d, fields[i]) == 0
  {
    assert fields[..n][..n - 1] == fields[..n - 1];
    MaxAlignIsPow2(d, fields, n);
    AlignIsPow2(d, fields[i]);
    MaxAtLeast(d, fields, n, i);
    Pow2Divides(Align(d, fields[i]), MaxAlign(d, fields[..n]));
  }

  lemma {:induction false} MaxAtLeast(d: Target, fields: seq<Type>, n: nat, i: nat)
    requires i < n <= |fields|
    ensures Align(d, fields[i]) <= MaxAlign(d, fields[..n])
  {
    assert fields[..n][..n - 1] == fields[..n - 1];
    if i < n - 1 {
      MaxAtLeast(d, fields, n - 1, i);
    }
  }

  /** A type with pointers is aligned at least like a pointer. */
  ghost predicate AlignedLikePointer(d: Target, t: Type)
    requires ValidTarget(d)
  {
    Bitmap(d, t).ok && (Bitmap(d, t).bits != 0 ==> Align(d, t) % d.abi == 0)
  }

  lemma {:induction false} FieldsScan(d: Target, fields: seq<Type>, n: nat)
    requires ValidTarget(d) && IsPow2(d.abi) && d.abi % d.pref == 0 && n <= |fields|
    requires forall k :: 0 <= k < |fields| ==> Pow2Aligned(fields[k]) && AlignedLikePointer(d, fields[k])
    ensures FieldBits(d, fields, n).ok
    ensures FieldBits(d, fields, n).bits != 0 ==> exists i :: 0 <= i < n && Align(d, fields[i]) % d.abi == 0
  {
    if n > 0 {
      FieldsScan(d, fields, n - 1);
      var f := fields[n - 1];
      if Bitmap(d, f).bits != 0 {
        MultipleOfMultiple(Align(d, f), d.abi, d.pref);
        MultipleOfMultiple(Offset(d, fields, n - 1), Align(d, f), d.pref);
      }
    }
  }

  /** If the ABI aligns pointers to whole words and all alignments are powers of two, no type
      is reported to have an unaligned pointer. */
  lemma {:induction false} ScanSucceeds(d: Target, t: Type)
    requires ValidTarget(d) && IsPow2(d.abi) && d.abi % d.pref == 0 && Pow2Aligned(t)
    ensures AlignedLikePointer(d, t)
    decreases t
  {
    match t
    case Scalar(_, _) =>
    case Pointer => MulMod(1, d.abi);
    case FuncValue =>
      MulMod(1, d.abi);
      MultipleOfMultiple(Size(d, Pointer), d.abi, d.pref);
    case Struct(fields) =>
      forall k | 0 <= k < |fields| ensures AlignedLikePointer(d, fields[k]) {
        assert Pow2Aligned(fields[k]);
        ScanSucceeds(d, fields[k]);
      }
      FieldsScan(d, fields, |fields|);
      if Bitmap(d, t).bits != 0 {
        var i: nat :| i < |fields| && Align(d, fields[i]) % d.abi == 0;
        FieldAlignDivides(d, fields, |fields|, i);
        assert fields[..|fields|] == fields;
        MultipleOfMultiple(MaxAlign(d, fields), Align(d, fields[i]), d.abi);
      }
    case Array(length, elem) =>
      ScanSucceeds(d, elem);
      SizeIsAligned(d, elem);
      if Bitmap(d, elem).bits != 0 {
        MultipleOfMultiple(Size(d, elem), Align(d, elem), d.abi);
        MultipleOfMultiple(Size(d, elem), d.abi, d.pref);
      }
  }
}
