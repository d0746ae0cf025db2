/** `createObjectLayout` and its reader: a type's pointer words as one machine word or as a
    constant global, with nested arrays and one-field structs stripped. */
module ObjectLayout {
  import opened Arithmetic
  import opened Bits
  import opened LlvmTypes
  import opened PointerBitmap

  datatype Layout =
    | Inline(word: nat)
    | Global(words: nat, bytes: seq<nat>)
    | SizeError
    | UnknownPointerSize

  /** The element described by the layout of `t`. */
  function Strip(t: Type): Type {
    match t
    case Array(_, elem) => Strip(elem)
    case Struct(fields) => if |fields| == 1 then Strip(fields[0]) else t
    case _ => t
  }

  /** Nothing is left to strip. */
  lemma {:induction false} StripIsBare(t: Type)
    ensures !Strip(t).Array? && !(Strip(t).Struct? && |Strip(t).fields| == 1)
    decreases t
  {
    match t
    case Array(_, elem) => StripIsBare(elem);
    case Struct(fields) =>
      if |fields| == 1 {
        StripIsBare(fields[0]);
      }
    case _ =>
  }

  method StripLoop(t0: Type) returns (t: Type)
    ensures t == Strip(t0)
  {
    t := t0;
    while t.Array? || (t.Struct? && |t.fields| == 1)
      invariant Strip(t) == Strip(t0)
      decreases t
    {
      if t.Array? {
        t := t.elem;
      } else {
        t := t.fields[0];
      }
    }
  }

  predicate KnownWidth(pointerBits: nat) {
    pointerBits == 16 || pointerBits == 32 || pointerBits == 64
  }

  /** Width of the size field for a pointer width in bits; 0 if the width is unknown. */
  function SizeFieldBits(pointerBits: nat): nat {
    if pointerBits == 16 then 4 else if pointerBits == 32 then 5 else if pointerBits == 64 then 6 else 0
  }

  function FillBytes(b: nat, n: nat): seq<nat> {
    if n == 0 then [] else FillBytes(b / 256, n - 1) + [b % 256]
  }

  function SetBytes(bytes: seq<nat>): nat {
    if bytes == [] then 0 else SetBytes(bytes[..|bytes| - 1]) * 256 + bytes[|bytes| - 1]
  }

  const NO_POINTERS := Inline(3)

  function PackWord(bits: nat, words: nat, sizeBits: nat): nat {
    Or(Or(Shl(bits, sizeBits + 1), Shl(words, 1)), 1)
  }

  /** `words` words with pointer bits `bits`: inline if they fit, computed in 64 bits and stored
      in a pointer-sized constant; otherwise in a global. */
  function Encode(bits: nat, words: nat, pointerBits: nat): Layout {
    var sizeBits := SizeFieldBits(pointerBits);
    if sizeBits == 0 then UnknownPointerSize
    else if words < pointerBits - 1 - sizeBits then
      Inline((PackWord(bits % TWO64, words, sizeBits) % TWO64) % Pow2(pointerBits))
    else Global(words, FillBytes(bits, (words + 7) / 8))
  }

  function Create(d: Target, t0: Type): Layout
    requires ValidTarget(d)
  {
    var t := Strip(t0);
    Describe(Size(d, t), Size(d, Pointer), d.pref, Bitmap(d, t).bits)
  }

  /** The layout of an element of `size` bytes with pointer bits `bits`. */
  function Describe(size: nat, pointerSize: nat, alignment: nat, bits: nat): Layout
    requires alignment > 0
  {
    if size < pointerSize || bits == 0 then NO_POINTERS
    else if size % alignment != 0 then SizeError
    else Encode(bits, size / alignment, pointerSize * 8)
  }

  /** The number of words described and their pointer bits. */
  datatype Decoded = Decoded(words: nat, bits: nat)

  /** The switch of the reader. */
  function ReadFieldBits(pointerBits: nat): nat
    requires KnownWidth(pointerBits)
  {
    match pointerBits
    case 16 => 4
    case 32 => 5
    case _ => 6
  }

  /** `readObjectLayout`. */
  function Read(pointerBits: nat, l: Layout): Decoded
    requires KnownWidth(pointerBits) && (l.Inline? || l.Global?)
  {
    match l
    case Inline(w) =>
      var sizeBits := ReadFieldBits(pointerBits);
      Decoded(And(Shr(w, 1), Mask(sizeBits)), Shr(w, 1 + sizeBits))
    case Global(words, bytes) => Decoded(words, SetBytes(bytes))
  }

  // ---------------------------------------------------------------------------
  // The inline form

  lemma OneBit(k: nat)
    ensures Bit(1, k) <==> k == 0
  {
    if k > 0 {
      ZeroBit(k - 1);
    }
  }

  lemma PackBit(bits: nat, words: nat, s: nat, k: nat)
    ensures Bit(PackWord(bits, words, s), k) <==>
      (k >= s + 1 && Bit(bits, k - s - 1)) || (k >= 1 && Bit(words, k - 1)) || k == 0
  {
    OrBit(Or(Shl(bits, s + 1), Shl(words, 1)), 1, k);
    OrBit(Shl(bits, s + 1), Shl(words, 1), k);
    ShlBit(bits, s + 1, k);
    ShlBit(words, 1, k);
    OneBit(k);
  }

  /** The three fields do not overlap: both read back. */
  lemma PackReadsBack(bits: nat, words: nat, s: nat)
    requires words < Pow2(s)
    ensures And(Shr(PackWord(bits, words, s), 1), Mask(s)) == words
    ensures Shr(PackWord(bits, words, s), 1 + s) == bits
  {
    var w := PackWord(bits, words, s);
    forall k: nat ensures Bit(And(Shr(w, 1), Mask(s)), k) == Bit(words, k) {
      AndBit(Shr(w, 1), Mask(s), k);
      ShrBit(w, 1, k);
      MaskBit(s, k);
      PackBit(bits, words, s, k + 1);
      if k >= s {
        HighBitsZero(words, s, k);
      }
    }
    SameBits(And(Shr(w, 1), Mask(s)), words);
    forall k: nat ensures Bit(Shr(w, 1 + s), k) == Bit(bits, k) {
      ShrBit(w, 1 + s, k);
      PackBit(bits, words, s, k + 1 + s);
      HighBitsZero(words, s, k + s);
    }
    SameBits(Shr(w, 1 + s), bits);
  }

  /** The word is the sum of its fields. */
  lemma PackIsSum(bits: nat, words: nat, s: nat)
    requires words < Pow2(s)
    ensures PackWord(bits, words, s) == bits * Pow2(s + 1) + 2 * words + 1
  {
    var high := bits * Pow2(s) + words;
    Doubles(bits, words, s);
    hide Or, Shl, Pow2;
    OrBelow(bits, s + 1, 2 * words);
    OrBelow(high, 1, 1);
  }

  lemma Doubles(bits: nat, words: nat, s: nat)
    requires words < Pow2(s)
    ensures Pow2(1) == 2 && Shl(words, 1) == 2 * words && 2 * words < Pow2(s + 1)
    ensures var high := bits * Pow2(s) + words;
      Shl(high, 1) == 2 * high == bits * Pow2(s + 1) + 2 * words
  {
    ShlIsMul(words, 1);
    ShlIsMul(bits * Pow2(s) + words, 1);
    assert Pow2(s + 1) == 2 * Pow2(s);
  }

  /** The packed word fits the pointer. */
  lemma PackFits(bits: nat, words: nat, s: nat, n: nat, pointerBits: nat)
    requires words < Pow2(s) && bits < Pow2(n) && n + s + 1 <= pointerBits
    ensures PackWord(bits, words, s) < Pow2(pointerBits)
  {
    var w := PackWord(bits, words, s);
    forall k: nat | Bit(w, k) ensures k < pointerBits {
      PackBit(bits, words, s, k);
      if k >= pointerBits {
        HighBitsZero(bits, n, k - s - 1);
        HighBitsZero(words, s, k - 1);
      }
    }
    BoundedByBits(w, pointerBits);
  }

  lemma SmallPowers()
    ensures Pow2(4) == 16 && Pow2(5) == 32 && Pow2(6) == 64 && Pow2(7) == 128
  {
    assert Pow2(0) == 1 && Pow2(1) == 2 && Pow2(2) == 4 && Pow2(3) == 8 && Pow2(4) == 16 && Pow2(5) == 32;
    assert Pow2(6) == 64;
  }

  /** Truncating to `m` and then to `p` bits loses nothing. */
  lemma PackSurvives(bits: nat, words: nat, s: nat, p: nat, m: nat)
    requires words < Pow2(s) && bits < Pow2(words) && words + s + 1 <= p && Pow2(p) <= m
    ensures var w := (PackWord(bits % m, words, s) % m) % Pow2(p);
      w < Pow2(p) && And(Shr(w, 1), Mask(s)) == words && Shr(w, 1 + s) == bits
  {
    Pow2Monotone(words, p);
    SmallMod(bits, m);
    PackFits(bits, words, s, words, p);
    SmallMod(PackWord(bits, words, s), m);
    SmallMod(PackWord(bits, words, s), Pow2(p));
    PackReadsBack(bits, words, s);
  }

  lemma SquareBound(n: nat, v: nat)
    requires Pow2(n) <= v
    ensures Pow2(n + n) <= v * v
  {
    Pow2Add(n, n);
    assert Pow2(n) * Pow2(n) <= v * v;
  }

  lemma WidestBound(q: nat)
    requires Pow2(q) <= 16
    ensures Pow2(16 * q) <= TWO64
  {
    hide Pow2;
    SquareBound(q, 16);
    SquareBound(q + q, 256);
    SquareBound(4 * q, 65536);
    SquareBound(8 * q, 0x1_0000_0000);
  }

  lemma PowerBound(p: nat)
    requires p == 16 || p == 32 || p == 64
    ensures Pow2(p) <= TWO64
  {
    SmallPowers();
    var q: nat :| q == 4; // a name, so that the power is not evaluated
    WidestBound(q);
    Pow2Monotone(p, 16 * q);
  }

  // ---------------------------------------------------------------------------
  // The global form

  lemma {:induction false} BytesReadBack(b: nat, n: nat)
    requires b < Pow2(8 * n)
    ensures SetBytes(FillBytes(b, n)) == b && |FillBytes(b, n)| == n
  {
    if n > 0 {
      ByteStep(n - 1);
      BytesReadBack(b / 256, n - 1);
      var bytes := FillBytes(b, n);
      assert bytes[..|bytes| - 1] == FillBytes(b / 256, n - 1);
    }
  }

  lemma ByteStep(m: nat)
    ensures Pow2(8 * (m + 1)) == 256 * Pow2(8 * m)
  {
    SmallPowers();
    Pow2Add(8, 8 * m);
    Pow2Add(4, 4);
  }

  /** Reading undoes encoding. */
  lemma EncodeReadsBack(bits: nat, words: nat, pointerBits: nat)
    requires KnownWidth(pointerBits) && bits < Pow2(words)
    ensures var l := Encode(bits, words, pointerBits);
      && (l.Inline? || l.Global?) && Read(pointerBits, l) == Decoded(words, bits)
      && (l.Inline? ==> l.word < Pow2(pointerBits))
  {
    var s := SizeFieldBits(pointerBits);
    if words < pointerBits - 1 - s {
      SmallPowers();
      PowerBound(pointerBits);
      PackSurvives(bits, words, s, pointerBits, TWO64);
    } else {
      Pow2Monotone(words, 8 * ((words + 7) / 8));
      BytesReadBack(bits, (words + 7) / 8);
    }
  }

  /** The layout as numbers: inline below 11, 26 or 57 words, and then the bitmap above a size field
      of 4, 5 or 6 bits and the low bit; otherwise the fewest bytes that hold the bits. */
  lemma LayoutIs(bits: nat, words: nat, pointerBits: nat)
    requires bits < Pow2(words)
    ensures var l := Encode(bits, words, pointerBits);
      match pointerBits
      case 16 => if words < 11 then l == Inline(bits * 32 + 2 * words + 1) else InBytes(l, words, bits)
      case 32 => if words < 26 then l == Inline(bits * 64 + 2 * words + 1) else InBytes(l, words, bits)
      case 64 => if words < 57 then l == Inline(bits * 128 + 2 * words + 1) else InBytes(l, words, bits)
      case _ => l == UnknownPointerSize
  {
    hide FillBytes, SetBytes, PackWord;
    if KnownWidth(pointerBits) {
      var s := SizeFieldBits(pointerBits);
      if words < pointerBits - 1 - s {
        SmallPowers();
        PowerBound(pointerBits);
        PackStored(bits, words, s, pointerBits, TWO64);
      } else {
        Pow2Monotone(words, 8 * ((words + 7) / 8));
        BytesReadBack(bits, (words + 7) / 8);
      }
    }
  }

  /** The bits in the fewest bytes that hold one bit per word, most significant byte first. */
  ghost predicate InBytes(l: Layout, words: nat, bits: nat) {
    && l.Global? && l.words == words
    && 8 * |l.bytes| - 8 < words <= 8 * |l.bytes| && SetBytes(l.bytes) == bits
  }

  lemma PackStored(bits: nat, words: nat, s: nat, p: nat, m: nat)
    requires words < Pow2(s) && bits < Pow2(words) && words + s + 1 <= p && Pow2(p) <= m
    ensures (PackWord(bits % m, words, s) % m) % Pow2(p) == bits * Pow2(s + 1) + 2 * words + 1
  {
    Pow2Monotone(words, p);
    SmallMod(bits, m);
    PackFits(bits, words, s, words, p);
    SmallMod(PackWord(bits, words, s), m);
    SmallMod(PackWord(bits, words, s), Pow2(p));
    PackIsSum(bits, words, s);
  }

  // ---------------------------------------------------------------------------
  // Stripping

  lemma OneField(d: Target, f: Type)
    ensures Offset(d, [f], 0) == 0 && Size(d, Struct([f])) == Size(d, f)
  {
    var fields := [f];
    assert fields[..0] == [] && fields[..|fields| - 1] == [];
    AlignUpOfMultiple(0, Align(d, f));
    SizeIsAligned(d, f);
    assert End(d, fields) == Size(d, f);
    assert MaxAlign(d, fields) == Max(MaxAlign(d, []), Align(d, f)) == Align(d, f);
    AlignUpOfMultiple(Size(d, f), Align(d, f));
  }

  /** A value is a whole number of copies of what remains after stripping, and its pointers are
      the pointers of every copy. */
  ghost predicate Repeats(d: Target, t: Type, off: nat) {
    var s := Size(d, Strip(t));
    PointerAt(d, t, off) <==> s > 0 && off < Size(d, t) && PointerAt(d, Strip(t), off % s)
  }

  lemma {:induction false} StripSize(d: Target, t: Type)
    ensures var s := Size(d, Strip(t)); if s == 0 then Size(d, t) == 0 else Size(d, t) % s == 0
  {
    match t
    case Array(length, elem) =>
      StripSize(d, elem);
      var s := Size(d, Strip(elem));
      if s > 0 {
        ProductOfMultiple(length, Size(d, elem), s);
      }
    case Struct(fields) =>
      if |fields| == 1 {
        assert fields == [fields[0]];
        OneField(d, fields[0]);
        StripSize(d, fields[0]);
      } else if Size(d, t) > 0 {
        MulMod(1, Size(d, t));
      }
    case _ =>
      if Size(d, t) > 0 {
        MulMod(1, Size(d, t));
      }
  }

  lemma {:induction false} StripRepeats(d: Target, t: Type, off: nat)
    requires ValidTarget(d)
    ensures Repeats(d, t, off)
    decreases t, 0
  {
    match t
    case Array(length, elem) => ArrayRepeats(d, length, elem, off);
    case Struct(fields) =>
      if |fields| == 1 {
        assert fields == [fields[0]];
        OneField(d, fields[0]);
        StripRepeats(d, fields[0], off);
        assert PointerAt(d, t, off) <==> PointerInField(d, fields, 0, off);
      } else {
        SelfRepeats(d, t, off);
      }
    case _ => SelfRepeats(d, t, off);
  }

  lemma SelfRepeats(d: Target, t: Type, off: nat)
    requires ValidTarget(d) && Strip(t) == t
    ensures Repeats(d, t, off)
  {
    if PointerAt(d, t, off) {
      PointerInside(d, t, off);
    }
    if off < Size(d, t) {
      SmallMod(off, Size(d, t));
    }
  }

  lemma SameRemainder(off: nat, j: nat, e: nat, s: nat)
    requires s > 0 && e % s == 0 && j * e <= off
    ensures (off - j * e) % s == off % s
  {
    ProductOfMultiple(j, e, s);
    var q := (j * e) / s;
    assert j * e == q * s;
    AddMultiple(off - j * e, q, s);
  }

  lemma ArrayShape(d: Target, length: nat, elem: Type)
    ensures Size(d, Array(length, elem)) == length * Size(d, elem) && Strip(Array(length, elem)) == Strip(elem)
  {
  }

  lemma ArrayRepeats(d: Target, length: nat, elem: Type, off: nat)
    requires ValidTarget(d)
    ensures Repeats(d, Array(length, elem), off)
    decreases elem, 1
  {
    hide PointerAt, Size, Strip;
    var e, s := Size(d, elem), Size(d, Strip(elem));
    ArrayShape(d, length, elem);
    StripSize(d, elem);
    if PointerAt(d, Array(length, elem), off) {
      var j := PointerElement(d, length, elem, off);
      StripRepeats(d, elem, off - j * e);
      ElementInside(length, e, j);
      SameRemainder(off, j, e, s);
    } else if s > 0 && off < length * e && PointerAt(d, Strip(elem), off % s) {
      var j := ElementOf(length, e, off);
      SameRemainder(off, j, e, s);
      StripRepeats(d, elem, off - j * e);
      ElementPointer(d, length, elem, j, off);
    }
  }

  lemma ElementPointer(d: Target, length: nat, elem: Type, j: nat, off: nat)
    requires j < length && PointerInElement(d, elem, j, off)
    ensures PointerAt(d, Array(length, elem), off)
  {
  }

  lemma PointerElement(d: Target, length: nat, elem: Type, off: nat) returns (j: nat)
    requires PointerAt(d, Array(length, elem), off)
    ensures j < length && PointerInElement(d, elem, j, off)
  {
    j :| 0 <= j < length && PointerInElement(d, elem, j, off);
  }

  lemma ElementOf(length: nat, e: nat, off: nat) returns (j: nat)
    requires off < length * e
    ensures j < length && j * e <= off < j * e + e
  {
    j := off / e;
    assert off == j * e + off % e;
    assert j >= length ==> j * e >= length * e;
  }

  // ---------------------------------------------------------------------------
  // The whole layout

  /** Word `k` of an object is a pointer, as the collector sees it: the described words are
      repeated over the object. */
  predicate Marked(x: Decoded, k: nat) {
    x.words > 0 && Bit(x.bits, k % x.words)
  }

  lemma NoPointersReads(pointerBits: nat)
    requires KnownWidth(pointerBits)
    ensures Read(pointerBits, NO_POINTERS) == Decoded(1, 0)
  {
    var s := SizeFieldBits(pointerBits);
    forall k: nat ensures Bit(3, k) == Bit(PackWord(0, 1, s), k) {
      PackBit(0, 1, s, k);
      if k >= s + 1 {
        ZeroBit(k - s - 1);
      }
      if k >= 1 {
        OneBit(k - 1);
      }
      assert Bit(3, k) <==> k == 0 || k == 1 by {
        if k >= 2 {
          ZeroBit(k - 2);
        }
      }
    }
    SameBits(3, PackWord(0, 1, s));
    Pow2Monotone(1, s);
    PackReadsBack(0, 1, s);
  }

  ghost predicate HasLayout(d: Target, t: Type) {
    && ValidTarget(d) && KnownWidth(Size(d, Pointer) * 8) && Bitmap(d, Strip(t)).ok
    && (Create(d, t).Inline? || Create(d, t).Global?)
  }

  function ReadLayout(d: Target, t: Type): Decoded
    requires ValidTarget(d) && KnownWidth(Size(d, Pointer) * 8) && (Create(d, t).Inline? || Create(d, t).Global?)
  {
    Read(Size(d, Pointer) * 8, Create(d, t))
  }

  /** What a decoded layout says: the pointer words of a size, or one word without pointers. */
  ghost predicate Describes(x: Decoded, size: nat, word: nat, bits: nat)
    requires word > 0
  {
    if bits == 0 then x == Decoded(1, 0)
    else size % word == 0 && x == Decoded(WholeWords(size, word), bits)
  }

  lemma DescribeReadsBack(size: nat, pointerSize: nat, alignment: nat, bits: nat)
    requires alignment > 0 && KnownWidth(pointerSize * 8)
    requires bits < Pow2(WholeWords(size, alignment)) && (bits != 0 ==> size >= pointerSize)
    ensures var l := Describe(size, pointerSize, alignment, bits);
      l.Inline? || l.Global? ==>
        Describes(Read(pointerSize * 8, l), size, alignment, bits)
  {
    if bits == 0 {
      NoPointersReads(pointerSize * 8);
    } else {
      EncodeReadsBack(bits, size / alignment, pointerSize * 8);
    }
  }

  lemma CreateReadsBack(d: Target, t: Type)
    requires HasLayout(d, t)
    ensures Describes(ReadLayout(d, t), Size(d, Strip(t)), d.pref, Bitmap(d, Strip(t)).bits)
  {
    hide Bitmap, Size, Describes;
    var e := Strip(t);
    BitmapFits(d, e);
    if Size(d, e) < Size(d, Pointer) {
      TooSmall(d, e);
    }
    DescribeReadsBack(Size(d, e), Size(d, Pointer), d.pref, Bitmap(d, e).bits);
  }

  /** A type smaller than a pointer holds none. */
  lemma TooSmall(d: Target, t: Type)
    requires ValidTarget(d) && Bitmap(d, t).ok && Size(d, t) < Size(d, Pointer)
    ensures Bitmap(d, t).bits == 0
  {
    hide Bitmap, Size, PointerAt, Bit;
    BitmapMarks(d, t);
    if Bitmap(d, t).bits > 0 {
      var k := SomeBit(Bitmap(d, t).bits);
      PointerInside(d, t, k * d.pref);
    }
  }

  lemma WordOfCopy(k: nat, words: nat, w: nat)
    requires words > 0 && w > 0
    ensures (k * w) % (words * w) == (k % words) * w
  {
    var q, r := k / words, k % words;
    assert k == q * words + r;
    assert k * w == q * (words * w) + r * w;
    assert r * w < words * w;
    ModUnique(k * w, words * w, q, r * w);
  }

  lemma CopyMarked(d: Target, e: Type, bits: nat, s: nat, k: nat)
    requires ValidTarget(d) && Marks(d, e, bits) && s > 0 && s % d.pref == 0
    ensures Marked(Decoded(WholeWords(s, d.pref), bits), k) <==> PointerAt(d, e, (k * d.pref) % s)
  {
    var words := s / d.pref;
    assert s == words * d.pref;
    WordOfCopy(k, words, d.pref);
  }

  function ByteOfWord(k: nat, word: nat): nat {
    k * word
  }

  /** Decoding the layout of any type and repeating it over the whole object marks exactly the
      words where a pointer of the type starts. */
  lemma LayoutMarksPointers(d: Target, t: Type, k: nat)
    requires HasLayout(d, t) && ByteOfWord(k, d.pref) < Size(d, t)
    ensures Marked(ReadLayout(d, t), k) <==> PointerAt(d, t, ByteOfWord(k, d.pref))
  {
    hide Bitmap, Size, PointerAt, ReadLayout, Strip;
    var e := Strip(t);
    CreateReadsBack(d, t);
    BitmapMarks(d, e);
    StripRepeats(d, t, k * d.pref);
    StripSize(d, t);
    if Bitmap(d, e).bits == 0 {
      ZeroBit(k % 1);
      NoBitsNoPointers(d, e, (k * d.pref) % Size(d, e));
    } else {
      CopyMarked(d, e, Bitmap(d, e).bits, Size(d, e), k);
    }
  }

  /** No pointer starts between words. */
  lemma PointersOnWords(d: Target, t: Type, off: nat)
    requires HasLayout(d, t) && PointerAt(d, t, off)
    ensures off % d.pref == 0
  {
    var e := Strip(t);
    CreateReadsBack(d, t);
    BitmapMarks(d, e);
    StripRepeats(d, t, off);
    CopyAligned(d, e, Bitmap(d, e).bits, Size(d, e), off);
  }

  lemma CopyStart(q: nat, r: nat, s: nat, p: nat)
    requires p > 0 && s % p == 0 && r % p == 0
    ensures (q * s + r) % p == 0
  {
    ProductOfMultiple(q, s, p);
    SumOfMultiples(r, q * s, p);
  }

  lemma CopyAligned(d: Target, e: Type, bits: nat, s: nat, off: nat)
    requires ValidTarget(d) && Marks(d, e, bits) && s > 0 && PointerAt(d, e, off % s) && (bits != 0 ==> s % d.pref == 0)
    ensures off % d.pref == 0
  {
    hide PointerAt, Bit;
    if bits == 0 {
      NoBitsNoPointers(d, e, off % s);
    } else {
      CopyStart(off / s, off % s, s, d.pref);
      assert off == (off / s) * s + off % s;
    }
  }

  /** On a target whose ABI aligns pointers to whole words, every type gets a layout. */
  lemma EveryTypeHasLayout(d: Target, t: Type)
    requires ValidTarget(d) && KnownWidth(Size(d, Pointer) * 8)
    requires IsPow2(d.abi) && d.abi % d.pref == 0 && Pow2Aligned(Strip(t))
    ensures HasLayout(d, t)
  {
    var e := Strip(t);
    ScanSucceeds(d, e);
    SizeIsAligned(d, e);
    if Bitmap(d, e).bits != 0 {
      MultipleOfMultiple(Size(d, e), Align(d, e), d.abi);
      MultipleOfMultiple(Size(d, e), d.abi, d.pref);
    }
  }
}
