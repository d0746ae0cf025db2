/** The accessors generated for C bitfields: the expressions that are built, their meaning on a
    base field of W bits, unsigned or in two's complement, and the lens laws. */
module Bitfields {
  import opened Arithmetic
  import Bits

  /** A bitfield; an end of 0 means up to the end of the base field. */
  datatype Bitfield = Bitfield(startBit: nat, endBit: nat)

  /** The expressions the generator builds, over the base field and the new value. */
  datatype Ast =
    | Field
    | Value
    | Shr(x: Ast, count: nat)
    | Shl(x: Ast, count: nat)
    | And(x: Ast, mask: nat)
    | AndNot(x: Ast, mask: nat)
    | Or(x: Ast, y: Ast)

  /** The low `n` bits of a number, that is, the number modulo 2^n. */
  function Low(a: nat, n: nat): nat {
    if n == 0 then 0 else 2 * Low(a / 2, n - 1) + a % 2
  }

  lemma HalfMod(a: nat, m: nat)
    requires m > 0
    ensures a % (2 * m) == 2 * (a / 2 % m) + a % 2
  {
    var q, r := a / 2 / m, a / 2 % m;
    assert a / 2 == q * m + r;
    assert a == q * (2 * m) + (2 * r + a % 2);
    ModUnique(a, 2 * m, q, 2 * r + a % 2);
  }

  lemma {:induction false} LowIsMod(a: nat, n: nat)
    ensures Low(a, n) == a % Bits.Pow2(n)
    decreases n
  {
    if n > 0 {
      LowIsMod(a / 2, n - 1);
      HalfMod(a, Bits.Pow2(n - 1));
    }
  }

  lemma {:induction false} LowBit(a: nat, n: nat, k: nat)
    ensures Bits.Bit(Low(a, n), k) <==> k < n && Bits.Bit(a, k)
    decreases n
  {
    if n == 0 {
      Bits.ZeroBit(k);
    } else {
      var half := Low(a / 2, n - 1);
      assert Low(a, n) == 2 * half + a % 2;
      assert Low(a, n) / 2 == half && Low(a, n) % 2 == a % 2;
      if k > 0 {
        LowBit(a / 2, n - 1, k - 1);
      }
    }
  }

  /** The W-bit pattern of the two's complement number whose `n`-bit pattern is `x`. */
  function SignExtend(x: nat, n: nat, w: nat): nat
    requires n <= w
  {
    Bits.Pow2Monotone(n, w);
    if n > 0 && x >= Bits.Pow2(n - 1) then x + (Bits.Pow2(w) - Bits.Pow2(n)) else x
  }

  /** The shift right of a W-bit pattern, which copies the sign of a signed one. */
  function ShiftRight(x: nat, count: nat, w: nat, signed: bool): nat {
    if signed && count < w then SignExtend(Bits.Shr(x, count), w - count, w)
    else if signed && w > 0 && x >= Bits.Pow2(w - 1) then Bits.Mask(w)
    else Bits.Shr(x, count)
  }

  /** Evaluation with operands of W bits. */
  function Eval(e: Ast, w: nat, signed: bool, field: nat, value: nat): nat {
    match e
    case Field => field
    case Value => value
    case Shr(x, n) => ShiftRight(Eval(x, w, signed, field, value), n, w, signed)
    case Shl(x, n) => Low(Bits.Shl(Eval(x, w, signed, field, value), n), w)
    case And(x, m) => Bits.And(Eval(x, w, signed, field, value), m)
    case AndNot(x, m) => Bits.AndNot(Eval(x, w, signed, field, value), m)
    case Or(x, y) => Bits.Or(Eval(x, w, signed, field, value), Eval(y, w, signed, field, value))
  }

  /** The bitfield lies in a base field of W bits. */
  ghost predicate Fits(b: Bitfield, w: nat) {
    b.startBit < w && (b.endBit != 0 ==> b.startBit < b.endBit <= w)
  }

  /** The first bit after the bitfield. */
  function End(b: Bitfield, w: nat): nat {
    if b.endBit != 0 then b.endBit else w
  }

  function Width(b: Bitfield, w: nat): nat
    requires b.startBit <= End(b, w)
  {
    End(b, w) - b.startBit
  }

  /** What reading the bitfield must give. */
  function Get(b: Bitfield, w: nat, field: nat): nat
    requires b.startBit <= End(b, w)
  {
    Low(Bits.Shr(field, b.startBit), Width(b, w))
  }

  lemma GetIsArithmetic(b: Bitfield, w: nat, field: nat)
    requires b.startBit <= End(b, w)
    ensures Get(b, w, field) == field / Bits.Pow2(b.startBit) % Bits.Pow2(Width(b, w))
  {
    LowIsMod(Bits.Shr(field, b.startBit), Width(b, w));
    Bits.ShrIsDiv(field, b.startBit);
  }

  /** How a field is shown: the last field of a signed base has no mask and keeps its sign. */
  function Shown(b: Bitfield, w: nat, signed: bool, x: nat): nat
    requires b.startBit <= End(b, w)
  {
    if signed && b.endBit == 0 then SignExtend(x, Width(b, w), w) else x
  }

  /** `r` is the base field with the bitfield replaced by the low bits of the value. */
  ghost predicate Replaced(b: Bitfield, w: nat, field: nat, value: nat, r: nat) {
    && r < Bits.Pow2(w)
    && forall k: nat :: Bits.Bit(r, k) == ReplacedBit(b, w, field, value, k)
  }

  predicate ReplacedBit(b: Bitfield, w: nat, field: nat, value: nat, k: nat) {
    if b.startBit <= k < End(b, w) then Bits.Bit(value, k - b.startBit) else Bits.Bit(field, k)
  }

  ghost predicate Reads(e: Ast, b: Bitfield, w: nat, signed: bool, field: nat)
    requires Fits(b, w)
  {
    Eval(e, w, signed, field, 0) == Shown(b, w, signed, Get(b, w, field))
  }

  ghost predicate IsGetter(e: Ast, b: Bitfield) {
    forall w: nat, signed: bool, field: nat :: Fits(b, w) && field < Bits.Pow2(w) ==> Reads(e, b, w, signed, field)
  }

  ghost predicate IsSetter(e: Ast, b: Bitfield) {
    forall w: nat, signed: bool, field: nat, value: nat ::
      Fits(b, w) && field < Bits.Pow2(w) && value < Bits.Pow2(w) ==>
        Replaced(b, w, field, value, Eval(e, w, signed, field, value))
  }

  // The bits below the sign are those of the number.
  lemma {:induction false} SignKeepsLow(x: nat, n: nat, w: nat, k: nat)
    requires k < n <= w
    ensures Bits.Pow2(n) <= Bits.Pow2(w) && Bits.Bit(x + (Bits.Pow2(w) - Bits.Pow2(n)), k) == Bits.Bit(x, k)
    decreases k
  {
    Bits.Pow2Monotone(n, w);
    Bits.Pow2Monotone(n - 1, w - 1);
    var high := Bits.Pow2(w - 1) - Bits.Pow2(n - 1);
    assert x + (Bits.Pow2(w) - Bits.Pow2(n)) == x + 2 * high;
    if k > 0 {
      SignKeepsLow(x / 2, n - 1, w - 1, k - 1);
      assert (x + 2 * high) / 2 == x / 2 + high;
    }
  }

  lemma ShownBit(b: Bitfield, w: nat, signed: bool, x: nat, k: nat)
    requires Fits(b, w) && k < Width(b, w)
    ensures Bits.Bit(Shown(b, w, signed, x), k) == Bits.Bit(x, k)
  {
    SignKeepsLow(x, Width(b, w), w, k);
  }

  lemma GetBit(b: Bitfield, w: nat, field: nat, k: nat)
    requires b.startBit <= End(b, w)
    ensures Bits.Bit(Get(b, w, field), k) <==> k < Width(b, w) && Bits.Bit(field, k + b.startBit)
  {
    LowBit(Bits.Shr(field, b.startBit), Width(b, w), k);
    Bits.ShrBit(field, b.startBit, k);
  }

  // ---------------------------------------------------------------------------
  // The generators

  method CreateGetter(b: Bitfield) returns (result: Ast)
    requires b.startBit < 64 && b.endBit <= 64 && (b.endBit != 0 ==> b.startBit < b.endBit)
    ensures IsGetter(result, b)
  {
    result := Field;
    if b.startBit != 0 {
      result := Shr(result, b.startBit);
    }
    if b.endBit != 0 {
      var mask := Bits.Pow2(b.endBit - b.startBit) - 1;
      result := And(result, mask);
    }
    forall w: nat, signed: bool, field: nat | Fits(b, w) && field < Bits.Pow2(w)
      ensures Reads(result, b, w, signed, field)
    {
      ghost var shifted := if b.startBit != 0 then Shr(Field, b.startBit) else Field;
      GetterShifts(b, w, signed, field);
      if b.endBit != 0 {
        assert result == And(shifted, Bits.Mask(b.endBit - b.startBit));
        MaskedReads(b, w, signed, field);
      } else {
        LastReads(b, w, signed, field);
      }
    }
  }

  /** The value before the mask, for a start of 0 as well. */
  lemma GetterShifts(b: Bitfield, w: nat, signed: bool, field: nat)
    requires Fits(b, w) && field < Bits.Pow2(w)
    ensures Eval(if b.startBit != 0 then Shr(Field, b.startBit) else Field, w, signed, field, 0) ==
      ShiftRight(field, b.startBit, w, signed)
  {
    assert Eval(Field, w, signed, field, 0) == field == Bits.Shr(field, 0);
  }

  lemma MaskedReads(b: Bitfield, w: nat, signed: bool, field: nat)
    requires Fits(b, w) && b.endBit != 0
    ensures Bits.And(ShiftRight(field, b.startBit, w, signed), Bits.Mask(b.endBit - b.startBit)) == Get(b, w, field)
  {
    var shifted, n := ShiftRight(field, b.startBit, w, signed), b.endBit - b.startBit;
    forall k: nat ensures Bits.Bit(Bits.And(shifted, Bits.Mask(n)), k) == Bits.Bit(Get(b, w, field), k) {
      Bits.AndBit(shifted, Bits.Mask(n), k);
      Bits.MaskBit(n, k);
      GetBit(b, w, field, k);
      if k < n {
        SignKeepsLow(Bits.Shr(field, b.startBit), w - b.startBit, w, k);
        Bits.ShrBit(field, b.startBit, k);
      }
    }
    Bits.SameBits(Bits.And(shifted, Bits.Mask(n)), Get(b, w, field));
  }

  lemma LastReads(b: Bitfield, w: nat, signed: bool, field: nat)
    requires Fits(b, w) && b.endBit == 0 && field < Bits.Pow2(w)
    ensures ShiftRight(field, b.startBit, w, signed) == Shown(b, w, signed, Get(b, w, field))
  {
    var shifted := Bits.Shr(field, b.startBit);
    forall k: nat ensures Bits.Bit(shifted, k) == Bits.Bit(Get(b, w, field), k) {
      GetBit(b, w, field, k);
      Bits.ShrBit(field, b.startBit, k);
      if k + b.startBit >= w {
        Bits.HighBitsZero(field, w, k + b.startBit);
      }
    }
    Bits.SameBits(shifted, Get(b, w, field));
  }

  method CreateSetter(b: Bitfield) returns (result: Ast)
    requires b.startBit < 64 && b.endBit <= 64 && (b.endBit != 0 ==> b.startBit < b.endBit)
    ensures IsSetter(result, b)
  {
    var field, valueToInsert := Field, Value;
    if b.endBit != 0 {
      valueToInsert := And(valueToInsert, Bits.Pow2(b.endBit - b.startBit) - 1);
      var mask := Bits.Shl(Bits.Pow2(b.endBit - b.startBit) - 1, b.startBit);
      field := AndNot(field, mask);
    } else {
      var mask := Bits.Pow2(b.startBit) - 1;
      field := And(field, mask);
    }
    field := Or(field, Shl(valueToInsert, b.startBit));
    forall w: nat, signed: bool, f: nat, v: nat | Fits(b, w) && f < Bits.Pow2(w) && v < Bits.Pow2(w)
      ensures Replaced(b, w, f, v, Eval(field, w, signed, f, v))
    {
      if b.endBit != 0 {
        ghost var low := Bits.Mask(b.endBit - b.startBit);
        EvalMasked(Bits.Shl(low, b.startBit), low, b.startBit, w, signed, f, v);
        MaskedSet(b, w, f, v);
      } else {
        EvalLast(Bits.Mask(b.startBit), b.startBit, w, signed, f, v);
        LastSet(b, w, f, v);
      }
    }
    return field;
  }

  lemma EvalMasked(keep: nat, low: nat, count: nat, w: nat, signed: bool, f: nat, v: nat)
    ensures Eval(Or(AndNot(Field, keep), Shl(And(Value, low), count)), w, signed, f, v) ==
      Bits.Or(Bits.AndNot(f, keep), Low(Bits.Shl(Bits.And(v, low), count), w))
  {
    assert Eval(AndNot(Field, keep), w, signed, f, v) == Bits.AndNot(f, keep);
    assert Eval(And(Value, low), w, signed, f, v) == Bits.And(v, low);
    assert Eval(Shl(And(Value, low), count), w, signed, f, v) == Low(Bits.Shl(Bits.And(v, low), count), w);
  }

  lemma EvalLast(keep: nat, count: nat, w: nat, signed: bool, f: nat, v: nat)
    ensures Eval(Or(And(Field, keep), Shl(Value, count)), w, signed, f, v) ==
      Bits.Or(Bits.And(f, keep), Low(Bits.Shl(v, count), w))
  {
    assert Eval(And(Field, keep), w, signed, f, v) == Bits.And(f, keep);
    assert Eval(Shl(Value, count), w, signed, f, v) == Low(Bits.Shl(v, count), w);
  }

  /** The setter of a field with a known end. */
  lemma MaskedSet(b: Bitfield, w: nat, f: nat, v: nat)
    requires Fits(b, w) && b.endBit != 0 && f < Bits.Pow2(w)
    ensures var n := b.endBit - b.startBit;
      Replaced(b, w, f, v, Bits.Or(Bits.AndNot(f, Bits.Shl(Bits.Mask(n), b.startBit)),
                                   Low(Bits.Shl(Bits.And(v, Bits.Mask(n)), b.startBit), w)))
  {
    var n, s := b.endBit - b.startBit, b.startBit;
    var low, shifted := Bits.AndNot(f, Bits.Shl(Bits.Mask(n), s)), Bits.Shl(Bits.And(v, Bits.Mask(n)), s);
    var high := Low(shifted, w);
    forall k: nat
      ensures Bits.Bit(Bits.Or(low, high), k) == ReplacedBit(b, w, f, v, k)
    {
      Bits.OrBit(low, high, k);
      Bits.AndNotBit(f, Bits.Shl(Bits.Mask(n), s), k);
      Bits.ShlBit(Bits.Mask(n), s, k);
      LowBit(shifted, w, k);
      Bits.ShlBit(Bits.And(v, Bits.Mask(n)), s, k);
      if k >= s {
        Bits.MaskBit(n, k - s);
        Bits.AndBit(v, Bits.Mask(n), k - s);
      }
    }
    StaysInside(b, w, f, v, Bits.Or(low, high));
  }

  /** The setter of the last field. */
  lemma LastSet(b: Bitfield, w: nat, f: nat, v: nat)
    requires Fits(b, w) && b.endBit == 0 && f < Bits.Pow2(w)
    ensures Replaced(b, w, f, v, Bits.Or(Bits.And(f, Bits.Mask(b.startBit)), Low(Bits.Shl(v, b.startBit), w)))
  {
    var s := b.startBit;
    var low, shifted := Bits.And(f, Bits.Mask(s)), Bits.Shl(v, s);
    var high := Low(shifted, w);
    forall k: nat
      ensures Bits.Bit(Bits.Or(low, high), k) == ReplacedBit(b, w, f, v, k)
    {
      Bits.OrBit(low, high, k);
      Bits.AndBit(f, Bits.Mask(s), k);
      Bits.MaskBit(s, k);
      LowBit(shifted, w, k);
      Bits.ShlBit(v, s, k);
      if k >= w {
        Bits.HighBitsZero(f, w, k);
      }
    }
    StaysInside(b, w, f, v, Bits.Or(low, high));
  }

  lemma StaysInside(b: Bitfield, w: nat, f: nat, v: nat, r: nat)
    requires Fits(b, w) && f < Bits.Pow2(w)
    requires forall k: nat :: Bits.Bit(r, k) == ReplacedBit(b, w, f, v, k)
    ensures r < Bits.Pow2(w)
  {
    forall k: nat | Bits.Bit(r, k) ensures k < w {
      if k >= w {
        Bits.HighBitsZero(f, w, k);
      }
    }
    Bits.BoundedByBits(r, w);
  }

  // ---------------------------------------------------------------------------
  // Lens laws

  /** Reading after writing gives the value modulo the width of the field. */
  lemma PutGet(g: Ast, s: Ast, b: Bitfield, w: nat, signed: bool, field: nat, value: nat)
    requires IsGetter(g, b) && IsSetter(s, b) && Fits(b, w) && field < Bits.Pow2(w) && value < Bits.Pow2(w)
    ensures Eval(g, w, signed, Eval(s, w, signed, field, value), 0) ==
      Shown(b, w, signed, value % Bits.Pow2(Width(b, w)))
  {
    var r := Eval(s, w, signed, field, value);
    assert Replaced(b, w, field, value, r);
    LowIsMod(value, Width(b, w));
    forall k: nat ensures Bits.Bit(Get(b, w, r), k) == Bits.Bit(Low(value, Width(b, w)), k) {
      GetBit(b, w, r, k);
      LowBit(value, Width(b, w), k);
      assert Bits.Bit(r, k + b.startBit) == ReplacedBit(b, w, field, value, k + b.startBit);
    }
    Bits.SameBits(Get(b, w, r), Low(value, Width(b, w)));
    assert Reads(g, b, w, signed, r);
  }

  /** Writing back what was read changes nothing. */
  lemma GetPut(g: Ast, s: Ast, b: Bitfield, w: nat, signed: bool, field: nat)
    requires IsGetter(g, b) && IsSetter(s, b) && Fits(b, w) && field < Bits.Pow2(w)
    ensures Eval(s, w, signed, field, Eval(g, w, signed, field, 0)) == field
  {
    var v := Shown(b, w, signed, Get(b, w, field));
    assert Reads(g, b, w, signed, field);
    ShownInside(b, w, signed, field);
    var r := Eval(s, w, signed, field, v);
    assert Replaced(b, w, field, v, r);
    forall k: nat ensures Bits.Bit(r, k) == Bits.Bit(field, k) {
      assert Bits.Bit(r, k) == ReplacedBit(b, w, field, v, k);
      if b.startBit <= k < End(b, w) {
        ShownBit(b, w, signed, Get(b, w, field), k - b.startBit);
        GetBit(b, w, field, k - b.startBit);
      }
    }
    Bits.SameBits(r, field);
  }

  lemma ShownInside(b: Bitfield, w: nat, signed: bool, field: nat)
    requires Fits(b, w)
    ensures Shown(b, w, signed, Get(b, w, field)) < Bits.Pow2(w)
  {
    var n := Width(b, w);
    Bits.Pow2Monotone(n, w);
    forall k: nat | Bits.Bit(Get(b, w, field), k) ensures k < n {
      GetBit(b, w, field, k);
    }
    Bits.BoundedByBits(Get(b, w, field), n);
  }

  /** Only the last of several writes counts. */
  lemma PutPut(s: Ast, b: Bitfield, w: nat, signed: bool, field: nat, first: nat, second: nat)
    requires IsSetter(s, b) && Fits(b, w)
    requires field < Bits.Pow2(w) && first < Bits.Pow2(w) && second < Bits.Pow2(w)
    ensures Eval(s, w, signed, Eval(s, w, signed, field, first), second) == Eval(s, w, signed, field, second)
  {
    var mid := Eval(s, w, signed, field, first);
    assert Replaced(b, w, field, first, mid);
    var twice, once := Eval(s, w, signed, mid, second), Eval(s, w, signed, field, second);
    assert Replaced(b, w, mid, second, twice) && Replaced(b, w, field, second, once);
    forall k: nat ensures Bits.Bit(twice, k) == Bits.Bit(once, k) {
      assert Bits.Bit(twice, k) == ReplacedBit(b, w, mid, second, k);
      assert Bits.Bit(once, k) == ReplacedBit(b, w, field, second, k);
      assert Bits.Bit(mid, k) == ReplacedBit(b, w, field, first, k);
    }
    Bits.SameBits(twice, once);
  }

  /** The fields of one base field, in order: each begins after the one before, ends where the
      next one begins, and the last one has no recorded end. */
  ghost predicate Group(bs: seq<Bitfield>, w: nat) {
    && (forall i :: 0 <= i < |bs| ==> Fits(bs[i], w))
    && (forall i, j :: 0 <= i < j < |bs| ==> bs[i].startBit < bs[j].startBit)
    && (forall i, j :: 0 <= i && j == i + 1 && j < |bs| ==> bs[i].endBit == bs[j].startBit)
    && (bs != [] ==> bs[|bs| - 1].endBit == 0)
  }

  lemma GroupDisjoint(bs: seq<Bitfield>, w: nat, i: nat, j: nat)
    requires Group(bs, w) && i < j < |bs|
    ensures End(bs[i], w) <= bs[j].startBit
  {
    var n := i + 1;
    assert bs[i].endBit == bs[n].startBit && bs[i].startBit < bs[n].startBit;
    assert n == j || bs[n].startBit < bs[j].startBit;
  }

  /** Writing one field of a group leaves every other field's reading unchanged. */
  lemma OthersUnchanged(bs: seq<Bitfield>, w: nat, signed: bool, i: nat, j: nat, s: Ast, g: Ast, field: nat, value: nat)
    requires Group(bs, w) && i < |bs| && j < |bs| && i != j
    requires IsSetter(s, bs[i]) && IsGetter(g, bs[j]) && field < Bits.Pow2(w) && value < Bits.Pow2(w)
    ensures Eval(g, w, signed, Eval(s, w, signed, field, value), 0) == Eval(g, w, signed, field, 0)
  {
    var r := Eval(s, w, signed, field, value);
    assert Replaced(bs[i], w, field, value, r);
    if i < j {
      GroupDisjoint(bs, w, i, j);
    } else {
      GroupDisjoint(bs, w, j, i);
    }
    forall k: nat ensures Bits.Bit(Get(bs[j], w, r), k) == Bits.Bit(Get(bs[j], w, field), k) {
      GetBit(bs[j], w, r, k);
      GetBit(bs[j], w, field, k);
      assert Bits.Bit(r, k + bs[j].startBit) == ReplacedBit(bs[i], w, field, value, k + bs[j].startBit);
    }
    Bits.SameBits(Get(bs[j], w, r), Get(bs[j], w, field));
    assert Reads(g, bs[j], w, signed, r) && Reads(g, bs[j], w, signed, field);
  }
}
