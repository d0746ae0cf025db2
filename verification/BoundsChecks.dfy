/** The unsigned comparisons emitted for slicing and for `make`, on operands of mixed width and
    signedness. */
module BoundsChecks {
  import opened Arithmetic
  import opened Bits

  /** An integer type and an operand of it as the machine holds it. */
  datatype IntType = IntType(width: nat, signed: bool)
  datatype Operand = Operand(t: IntType, raw: nat)

  ghost predicate ValidType(t: IntType) {
    t.width > 0
  }

  ghost predicate Valid(x: Operand) {
    ValidType(x.t) && x.raw < Pow2(x.t.width)
  }

  predicate Negative(x: Operand)
    requires x.t.width > 0
  {
    x.t.signed && x.raw >= Pow2(x.t.width - 1)
  }

  /** The integer an operand stands for. */
  function IntValue(x: Operand): int
    requires x.t.width > 0
  {
    if Negative(x) then x.raw - Pow2(x.t.width) else x.raw
  }

  /** `extendInteger`: zero or sign extension to at least `w` bits. */
  function Extend(x: Operand, w: nat): nat
    requires x.t.width > 0
  {
    if x.t.width >= w then x.raw
    else if Negative(x) then SignExtended(x, w)
    else x.raw
  }

  function SignExtended(x: Operand, w: nat): nat
    requires 0 < x.t.width < w
  {
    Pow2Monotone(x.t.width, w);
    x.raw + (Pow2(w) - Pow2(x.t.width))
  }

  /** The width in which everything is compared. */
  function Width(capWidth: nat, low: IntType, high: IntType, max: IntType): nat {
    MaxNat(MaxNat(MaxNat(capWidth, low.width), high.width), max.width)
  }

  /** `createSliceBoundsCheck`: whether execution continues. */
  predicate Passes(capWidth: nat, cap: nat, low: Operand, high: Operand, max: Operand)
    requires low.t.width > 0 && high.t.width > 0 && max.t.width > 0
  {
    var w := Width(capWidth, low.t, high.t, max.t);
    var outOfBounds1 := Extend(low, w) > Extend(high, w);
    var outOfBounds2 := Extend(high, w) > Extend(max, w);
    var outOfBounds3 := Extend(max, w) > cap;
    !(outOfBounds1 || outOfBounds2 || outOfBounds3)
  }

  predicate InBounds(cap: nat, low: Operand, high: Operand, max: Operand)
    requires low.t.width > 0 && high.t.width > 0 && max.t.width > 0
  {
    0 <= IntValue(low) <= IntValue(high) <= IntValue(max) <= cap
  }

  /** Negative operands become at least 2^w minus half their own range; others keep their value. */
  lemma ExtendRange(x: Operand, w: nat)
    requires Valid(x) && x.t.width <= w
    ensures Negative(x) ==> Extend(x, w) >= Pow2(w) - Pow2(x.t.width - 1) >= Pow2(w - 1)
    ensures !Negative(x) ==> Extend(x, w) == IntValue(x)
    ensures !Negative(x) && x.t.signed ==> Extend(x, w) < Pow2(w - 1)
    ensures !Negative(x) && x.t.width < w ==> Extend(x, w) < Pow2(w - 1)
  {
    Pow2Monotone(x.t.width - 1, w - 1);
    if x.t.width < w {
      Pow2Monotone(x.t.width, w - 1);
    }
  }

  /** In range, the check lets everything through that is in bounds. */
  lemma InBoundsPasses(capWidth: nat, cap: nat, low: Operand, high: Operand, max: Operand)
    requires Valid(low) && Valid(high) && Valid(max) && InBounds(cap, low, high, max)
    ensures Passes(capWidth, cap, low, high, max)
  {
    var w := Width(capWidth, low.t, high.t, max.t);
    ExtendRange(low, w);
    ExtendRange(high, w);
    ExtendRange(max, w);
  }

  /** With a capacity below half the range of the widest operand, the check passes exactly when
      0 <= low <= high <= max <= capacity. */
  lemma PassesIffInBounds(capWidth: nat, cap: nat, low: Operand, high: Operand, max: Operand)
    requires Valid(low) && Valid(high) && Valid(max)
    requires cap < Pow2(Width(capWidth, low.t, high.t, max.t) - 1)
    ensures Passes(capWidth, cap, low, high, max) <==> InBounds(cap, low, high, max)
  {
    var w := Width(capWidth, low.t, high.t, max.t);
    ExtendRange(low, w);
    ExtendRange(high, w);
    ExtendRange(max, w);
  }

  // ---------------------------------------------------------------------------
  // The exact condition

  /** The least unsigned value a negative operand of type `t` can take. */
  function LeastNegative(t: IntType, w: nat): nat
    requires 0 < t.width <= w
  {
    Pow2Monotone(t.width - 1, w);
    Pow2(w) - Pow2(t.width - 1)
  }

  /** A negative operand of type `t` can be below the capacity. */
  predicate CanSlip(t: IntType, w: nat, cap: nat)
    requires 0 < t.width <= w
  {
    t.signed && LeastNegative(t, w) <= cap
  }

  predicate FullUnsigned(t: IntType, w: nat) {
    !t.signed && t.width == w
  }

  /** Some operand type can slip through while every later operand spans the full unsigned
      range. */
  predicate Unsound(capWidth: nat, cap: nat, low: IntType, high: IntType, max: IntType)
    requires low.width > 0 && high.width > 0 && max.width > 0
  {
    var w := Width(capWidth, low, high, max);
    || CanSlip(max, w, cap)
    || (CanSlip(high, w, cap) && FullUnsigned(max, w))
    || (CanSlip(low, w, cap) && FullUnsigned(high, w) && FullUnsigned(max, w))
  }

  lemma SlipNeedsUnsound(capWidth: nat, cap: nat, low: Operand, high: Operand, max: Operand)
    requires Valid(low) && Valid(high) && Valid(max)
    requires Passes(capWidth, cap, low, high, max) && !InBounds(cap, low, high, max)
    ensures Unsound(capWidth, cap, low.t, high.t, max.t)
  {
    var w := Width(capWidth, low.t, high.t, max.t);
    ExtendRange(low, w);
    ExtendRange(high, w);
    ExtendRange(max, w);
  }

  /** The operand of type `t` whose extension is `u`, for the values a witness needs. */
  lemma NegativeWitness(t: IntType, w: nat) returns (x: Operand)
    requires 0 < t.width <= w && t.signed
    ensures x.t == t && Valid(x) && Negative(x) && Extend(x, w) == LeastNegative(t, w)
  {
    x := Operand(t, Pow2(t.width - 1));
  }

  lemma UnsoundSlips(capWidth: nat, cap: nat, low: IntType, high: IntType, max: IntType)
    returns (l: Operand, h: Operand, m: Operand)
    requires ValidType(low) && ValidType(high) && ValidType(max) && Unsound(capWidth, cap, low, high, max)
    ensures l.t == low && h.t == high && m.t == max && Valid(l) && Valid(h) && Valid(m)
    ensures Passes(capWidth, cap, l, h, m) && !InBounds(cap, l, h, m)
  {
    var w := Width(capWidth, low, high, max);
    if CanSlip(max, w, cap) {
      m := NegativeWitness(max, w);
      l, h := Operand(low, 0), Operand(high, 0);
    } else if CanSlip(high, w, cap) && FullUnsigned(max, w) {
      h := NegativeWitness(high, w);
      l, m := Operand(low, 0), Operand(max, LeastNegative(high, w));
    } else {
      l := NegativeWitness(low, w);
      h, m := Operand(high, LeastNegative(low, w)), Operand(max, LeastNegative(low, w));
    }
  }

  /** For given operand types and capacity, the emitted check is right for all operands if and
      only if those types are not unsound. */
  lemma CheckExact(capWidth: nat, cap: nat, low: IntType, high: IntType, max: IntType)
    requires ValidType(low) && ValidType(high) && ValidType(max)
    ensures Unsound(capWidth, cap, low, high, max) <==>
      exists l, h, m :: Slips(capWidth, cap, low, high, max, l, h, m)
  {
    if Unsound(capWidth, cap, low, high, max) {
      var l, h, m := UnsoundSlips(capWidth, cap, low, high, max);
      assert Slips(capWidth, cap, low, high, max, l, h, m);
    }
    if l, h, m :| Slips(capWidth, cap, low, high, max, l, h, m) {
      if InBounds(cap, l, h, m) {
        InBoundsPasses(capWidth, cap, l, h, m);
      }
      SlipNeedsUnsound(capWidth, cap, l, h, m);
    }
  }

  /** Operands of the given types for which the check gives the wrong answer. */
  ghost predicate Slips(capWidth: nat, cap: nat, low: IntType, high: IntType, max: IntType, l: Operand, h: Operand,
                        m: Operand)
  {
    && l.t == low && h.t == high && m.t == max && Valid(l) && Valid(h) && Valid(m)
    && (Passes(capWidth, cap, l, h, m) != InBounds(cap, l, h, m))
  }

  // ---------------------------------------------------------------------------
  // make([]T, len, cap)

  /** `maxSliceSize` for pointers of `ptrBits` and ints of `intBits` bits. */
  function MaxSliceSize(ptrBits: nat, intBits: nat, elemSize: nat): nat
    requires ptrBits > 0 && intBits > 0
  {
    var maxPointerValue, maxIntegerValue := Pow2(ptrBits) - 1, (Pow2(intBits) - 1) / 2;
    var maxSize := maxPointerValue / (if elemSize == 0 then 1 else elemSize);
    if maxSize > maxIntegerValue then maxIntegerValue else maxSize
  }

  /** The check of `make`: `len` and `cap` against the largest possible slice. */
  predicate MakePasses(ptrBits: nat, intBits: nat, elemSize: nat, len: Operand, cap: Operand)
    requires ptrBits > 0 && intBits > 0 && len.t.width > 0 && cap.t.width > 0
  {
    Passes(ptrBits, MaxSliceSize(ptrBits, intBits, elemSize), len, cap, cap)
  }

  /** The conversion of an operand to uintptr. */
  function ToUintptr(x: Operand, ptrBits: nat): nat
    requires x.t.width > 0
  {
    if x.t.width > ptrBits then x.raw % Pow2(ptrBits) else Extend(x, ptrBits)
  }

  lemma SmallerProduct(a: nat, b: nat, c: nat)
    requires b <= c
    ensures a * b <= a * c
  {
  }

  lemma QuotientFits(p: nat, e: nat, q: nat, m: nat)
    requires p > 0 && e > 0 && q == (p - 1) / e && m <= q
    ensures m < p && e * m < p
  {
    assert e * q <= p - 1;
    SmallerProduct(e, m, q);
    SmallerProduct(m, 1, e);
  }

  lemma MaxSliceBounds(ptrBits: nat, intBits: nat, elemSize: nat)
    requires ptrBits > 0 && intBits > 0
    ensures var m := MaxSliceSize(ptrBits, intBits, elemSize);
      m < Pow2(ptrBits) && m < Pow2(intBits - 1) && elemSize * m < Pow2(ptrBits)
  {
    var e := if elemSize == 0 then 1 else elemSize;
    QuotientFits(Pow2(ptrBits), e, (Pow2(ptrBits) - 1) / e, MaxSliceSize(ptrBits, intBits, elemSize));
    assert Pow2(intBits) == 2 * Pow2(intBits - 1);
  }

  /** A slice of `m` elements fits in memory, and its length in an int. */
  predicate SliceFits(ptrBits: nat, intBits: nat, elemSize: nat, m: nat)
    requires intBits > 0
  {
    m * MaxNat(elemSize, 1) < Pow2(ptrBits) && m < Pow2(intBits - 1)
  }

  /** The largest slice is the largest that fits: nothing that fits is too long for `make`. */
  lemma MaxSliceIsLargest(ptrBits: nat, intBits: nat, elemSize: nat, m: nat)
    requires ptrBits > 0 && intBits > 0
    ensures m <= MaxSliceSize(ptrBits, intBits, elemSize) <==> SliceFits(ptrBits, intBits, elemSize, m)
  {
    hide Pow2;
    var e := MaxNat(elemSize, 1);
    QuotientIs(Pow2(ptrBits) - 1, e, m);
    HalfIs(intBits);
  }

  lemma QuotientIs(p: nat, e: nat, m: nat)
    requires e > 0
    ensures m <= p / e <==> m * e <= p
  {
    var q := p / e;
    assert p == q * e + p % e;
    if m <= q {
      SmallerProduct(e, m, q);
    } else {
      SmallerProduct(e, q + 1, m);
    }
  }

  lemma HalfIs(n: nat)
    requires n > 0
    ensures (Pow2(n) - 1) / 2 == Pow2(n - 1) - 1
  {
    assert Pow2(n) == 2 * Pow2(n - 1);
  }

  /** The types for which the check of `make` can go wrong: a negative capacity, or a negative
      length below a capacity that spans the full unsigned range, can be below the largest
      slice. */
  predicate MakeUnsound(ptrBits: nat, intBits: nat, elemSize: nat, len: IntType, cap: IntType)
    requires ptrBits > 0 && intBits > 0 && len.width > 0 && cap.width > 0
  {
    var m, w := MaxSliceSize(ptrBits, intBits, elemSize), MaxNat(MaxNat(ptrBits, len.width), cap.width);
    CanSlip(cap, w, m) || (CanSlip(len, w, m) && FullUnsigned(cap, w))
  }

  /** Operands on which the check of `make` gives the wrong answer. */
  ghost predicate MakeSlips(ptrBits: nat, intBits: nat, elemSize: nat, len: IntType, cap: IntType, l: Operand,
                            c: Operand)
    requires ptrBits > 0 && intBits > 0
  {
    && l.t == len && c.t == cap && Valid(l) && Valid(c)
    && MakePasses(ptrBits, intBits, elemSize, l, c) !=
         (0 <= IntValue(l) <= IntValue(c) <= MaxSliceSize(ptrBits, intBits, elemSize))
  }

  lemma MakeUnsoundSlips(ptrBits: nat, intBits: nat, elemSize: nat, len: IntType, cap: IntType)
    returns (l: Operand, c: Operand)
    requires ptrBits > 0 && intBits > 0 && ValidType(len) && ValidType(cap)
    requires MakeUnsound(ptrBits, intBits, elemSize, len, cap)
    ensures MakeSlips(ptrBits, intBits, elemSize, len, cap, l, c)
  {
    hide MaxSliceSize, Pow2;
    var m, w := MaxSliceSize(ptrBits, intBits, elemSize), Width(ptrBits, len, cap, cap);
    if CanSlip(cap, w, m) {
      c := NegativeWitness(cap, w);
      l := Operand(len, 0);
      ZeroIsValid(len);
      NegativeIsOut(c);
    } else {
      l := NegativeWitness(len, w);
      c := Operand(cap, LeastNegative(len, w));
      FullIsValid(c, len, w);
      NegativeIsOut(l);
    }
  }

  lemma ZeroIsValid(t: IntType)
    requires ValidType(t)
    ensures Valid(Operand(t, 0)) && forall w: nat :: Extend(Operand(t, 0), w) == 0
  {
  }

  lemma NegativeIsOut(x: Operand)
    requires Valid(x) && Negative(x)
    ensures IntValue(x) < 0
  {
  }

  lemma FullIsValid(x: Operand, t: IntType, w: nat)
    requires 0 < t.width <= w && FullUnsigned(x.t, w) && x.raw == LeastNegative(t, w)
    ensures Valid(x) && Extend(x, w) == LeastNegative(t, w)
  {
  }

  /** For given types of length and capacity, `make` accepts or rejects some operands wrongly if
      and only if those types are unsound. */
  lemma MakeExact(ptrBits: nat, intBits: nat, elemSize: nat, len: IntType, cap: IntType)
    requires ptrBits > 0 && intBits > 0 && ValidType(len) && ValidType(cap)
    ensures MakeUnsound(ptrBits, intBits, elemSize, len, cap) <==>
      exists l, c :: MakeSlips(ptrBits, intBits, elemSize, len, cap, l, c)
  {
    if MakeUnsound(ptrBits, intBits, elemSize, len, cap) {
      var l, c := MakeUnsoundSlips(ptrBits, intBits, elemSize, len, cap);
    }
    if l, c :| MakeSlips(ptrBits, intBits, elemSize, len, cap, l, c) {
      MakeSlipIsUnsound(ptrBits, intBits, elemSize, l, c);
    }
  }

  lemma MakeSlipIsUnsound(ptrBits: nat, intBits: nat, elemSize: nat, l: Operand, c: Operand)
    requires ptrBits > 0 && intBits > 0 && l.t.width > 0 && c.t.width > 0
    requires MakeSlips(ptrBits, intBits, elemSize, l.t, c.t, l, c)
    ensures MakeUnsound(ptrBits, intBits, elemSize, l.t, c.t)
  {
    hide MaxSliceSize, Pow2, Passes, LeastNegative;
    var m := MaxSliceSize(ptrBits, intBits, elemSize);
    if InBounds(m, l, c, c) {
      InBoundsPasses(ptrBits, m, l, c, c);
    }
    SlipNeedsUnsound(ptrBits, m, l, c, c);
  }

  /** With sound types a passing check means the operands are in bounds, the byte size does not
      wrap and no conversion loses anything. */
  lemma MakeIsSafe(ptrBits: nat, intBits: nat, elemSize: nat, len: Operand, cap: Operand)
    requires ptrBits > 0 && intBits > 0 && Valid(len) && Valid(cap)
    requires !MakeUnsound(ptrBits, intBits, elemSize, len.t, cap.t)
    ensures var m := MaxSliceSize(ptrBits, intBits, elemSize);
      MakePasses(ptrBits, intBits, elemSize, len, cap) <==> 0 <= IntValue(len) <= IntValue(cap) <= m
    ensures MakePasses(ptrBits, intBits, elemSize, len, cap) ==>
      && ToUintptr(len, ptrBits) == IntValue(len) && ToUintptr(cap, ptrBits) == IntValue(cap)
      && elemSize * ToUintptr(cap, ptrBits) < Pow2(ptrBits)
  {
    hide Pow2, Passes, MaxSliceSize, Extend, IntValue, ToUintptr, MakeUnsound;
    var m := MaxSliceSize(ptrBits, intBits, elemSize);
    MaxSliceBounds(ptrBits, intBits, elemSize);
    assert MakePasses(ptrBits, intBits, elemSize, len, cap) <==> 0 <= IntValue(len) <= IntValue(cap) <= m by {
      if !(MakePasses(ptrBits, intBits, elemSize, len, cap) <==> 0 <= IntValue(len) <= IntValue(cap) <= m) {
        MakeSlipIsUnsound(ptrBits, intBits, elemSize, len, cap);
      }
    }
    if MakePasses(ptrBits, intBits, elemSize, len, cap) {
      KeptByConversion(len, ptrBits);
      KeptByConversion(cap, ptrBits);
      SmallerProduct(elemSize, IntValue(cap), m);
    }
  }

  /** Types of int width, or pointers of int width, are sound. */
  lemma WideIsSound(ptrBits: nat, intBits: nat, elemSize: nat, len: IntType, cap: IntType)
    requires ptrBits > 0 && intBits > 0 && ValidType(len) && ValidType(cap)
    requires ptrBits >= intBits || len.width >= intBits || cap.width >= intBits
    ensures !MakeUnsound(ptrBits, intBits, elemSize, len, cap)
  {
    hide MaxSliceSize, Pow2, CanSlip;
    var m, w := MaxSliceSize(ptrBits, intBits, elemSize), MaxNat(MaxNat(ptrBits, len.width), cap.width);
    MaxSliceBounds(ptrBits, intBits, elemSize);
    Pow2Monotone(intBits - 1, w - 1);
    SmallCapacity(len, w, m);
    SmallCapacity(cap, w, m);
  }

  lemma SmallCapacity(t: IntType, w: nat, cap: nat)
    requires 0 < t.width <= w && cap < Pow2(w - 1)
    ensures !CanSlip(t, w, cap)
  {
    Pow2Monotone(t.width - 1, w - 1);
  }

  lemma KeptByConversion(x: Operand, ptrBits: nat)
    requires Valid(x) && ptrBits > 0 && 0 <= IntValue(x) < Pow2(ptrBits)
    ensures ToUintptr(x, ptrBits) == IntValue(x)
  {
    assert !Negative(x);
    SmallMod(x.raw, Pow2(ptrBits));
  }

  /** With 16-bit pointers and 32-bit ints, a negative 8-bit length is accepted. */
  lemma NarrowLengthSlips()
    ensures var x := Operand(IntType(8, true), 255);
      Valid(x) && IntValue(x) == -1 && MakePasses(16, 32, 1, x, x)
  {
    Powers();
    var x := Operand(IntType(8, true), 255);
    assert MaxSliceSize(16, 32, 1) == 65535;
    assert Extend(x, 16) == 65535;
  }

  lemma Powers()
    ensures Pow2(7) == 128 && Pow2(8) == 256 && Pow2(16) == 65536 && Pow2(32) == 4294967296
  {
    assert Pow2(0) == 1 && Pow2(1) == 2 && Pow2(2) == 4 && Pow2(3) == 8 && Pow2(4) == 16;
    Pow2Add(3, 4);
    Pow2Add(4, 4);
    Pow2Add(8, 8);
    Pow2Add(16, 16);
  }
}
