/** From an ELF file to a device: the extracted image is written as UF2 blocks, and a device
    stores each payload at its address. */
module Firmware {
  import opened Arithmetic
  import opened Options
  import opened RomImage
  import opened Uf2

  // ---------------------------------------------------------------------------
  // The device

  /** What is stored at address `a` after the first `n` blocks, in memory that was zero. */
  function Stored(output: seq<Byte>, n: nat, a: nat): Byte {
    if n == 0 then 0
    else
      match BlockAt(output, n - 1)
      case None => Stored(output, n - 1, a)
      case Some(b) =>
        if b.targetAddr <= a < b.targetAddr + |b.payload| then b.payload[a - b.targetAddr] else Stored(output, n - 1, a)
  }

  /** The memory of the device, which has addresses of 32 bits. */
  function Flash(output: seq<Byte>, n: nat, a: nat): Byte {
    if a < TWO32 then Stored(output, n, a) else 0
  }

  function ImageAt(base: nat, image: seq<Byte>, a: nat): Byte {
    if base <= a < base + |image| then image[a - base] else 0
  }

  /** The device holds the image at its address and nothing else. */
  ghost predicate HoldsImage(output: seq<Byte>, n: nat, base: nat, image: seq<Byte>) {
    forall a: nat :: Flash(output, n, a) == ImageAt(base, image, a)
  }

  /** The output is a conversion of the image, with the address cut to 32 bits. */
  ghost predicate ConversionOf(output: seq<Byte>, n: nat, base: nat, image: seq<Byte>) {
    exists flags, familyID :: Decodes(output, n, image, base % TWO32, flags, familyID)
  }

  // ---------------------------------------------------------------------------
  // Images that fit

  /** Blocks at consecutive addresses store their payloads one after the other. */
  lemma {:induction false} StoredInOrder(output: seq<Byte>, n: nat, base: nat, a: nat)
    requires forall k: nat :: k < n ==> InOrderAt(output, base, k)
    ensures |Payloads(output, n)| == PAYLOAD * n
    ensures Stored(output, n, a) == ImageAt(base, Payloads(output, n), a)
  {
    hide BlockAt, Payloads, Stored, ImageAt, InOrderAt;
    if n == 0 {
      NothingStored(output, base, a);
    } else {
      StoredInOrder(output, n - 1, base, a);
      assert InOrderAt(output, base, n - 1);
      StoredStep(output, n, base, a);
    }
  }

  lemma NothingStored(output: seq<Byte>, base: nat, a: nat)
    ensures Payloads(output, 0) == [] && Stored(output, 0, a) == ImageAt(base, [], a)
  {
  }

  lemma StoredStep(output: seq<Byte>, n: nat, base: nat, a: nat)
    requires n > 0 && InOrderAt(output, base, n - 1) && |Payloads(output, n - 1)| == PAYLOAD * (n - 1)
    requires Stored(output, n - 1, a) == ImageAt(base, Payloads(output, n - 1), a)
    ensures |Payloads(output, n)| == PAYLOAD * n
    ensures Stored(output, n, a) == ImageAt(base, Payloads(output, n), a)
  {
    hide BlockAt, ImageAt;
    StoredNext(Payloads(output, n - 1), BlockAt(output, n - 1).value.payload, n - 1, base, a);
  }

  lemma StoredNext(before: seq<Byte>, payload: seq<Byte>, n: nat, base: nat, a: nat)
    requires |before| == PAYLOAD * n && |payload| == PAYLOAD
    ensures ImageAt(base, before + payload, a) ==
      if base + PAYLOAD * n <= a < base + PAYLOAD * n + PAYLOAD then payload[a - (base + PAYLOAD * n)]
      else ImageAt(base, before, a)
  {
  }

  ghost predicate InOrderAt(output: seq<Byte>, base: nat, k: nat) {
    && BlockAt(output, k).Some?
    && BlockAt(output, k).value.targetAddr == base + PAYLOAD * k && |BlockAt(output, k).value.payload| == PAYLOAD
  }

  lemma AddressFits(base: nat, k: nat)
    requires base + PAYLOAD * k < TWO32
    ensures AddressOf(base % TWO32, k) == base + PAYLOAD * k
  {
    SmallMod(base, TWO32);
    SmallMod(base + PAYLOAD * k, TWO32);
  }

  lemma PaddedImage(base: nat, image: seq<Byte>, size: nat, a: nat)
    requires |image| <= size
    ensures ImageAt(base, Pad(image, size), a) == ImageAt(base, image, a)
  {
  }

  /** An image that ends below 2^32 is stored as it is. */
  lemma FittingIsHeld(output: seq<Byte>, n: nat, base: nat, image: seq<Byte>, flags: nat, familyID: nat)
    requires Decodes(output, n, image, base % TWO32, flags, familyID) && (base + |image| <= TWO32 || image == [])
    ensures HoldsImage(output, n, base, image)
  {
    hide BlockAt, AddressOf;
    forall k: nat | k < n ensures InOrderAt(output, base, k) {
      assert HeaderOk(BlockAt(output, k).value, k, n, base % TWO32, flags, familyID);
      assert PAYLOAD * k <= PAYLOAD * (n - 1) < |image|;
      AddressFits(base, k);
    }
    hide Payloads, Stored;
    forall a: nat ensures Flash(output, n, a) == ImageAt(base, image, a) {
      StoredInOrder(output, n, base, a);
      PaddedImage(base, image, PAYLOAD * n, a);
    }
  }

  // ---------------------------------------------------------------------------
  // Images that do not fit

  function Ones(n: nat): seq<Byte> {
    seq(n, _ => 1)
  }

  /** The parts of an image of `n` ones. */
  function OnesCut(n: nat): (blocks: seq<seq<Byte>>)
    ensures Cut(blocks, PAYLOAD)
  {
    var full := seq(n / PAYLOAD, _ => Ones(PAYLOAD));
    if n % PAYLOAD == 0 then full else full + [Ones(n % PAYLOAD)]
  }

  lemma {:induction false} OnesFlatten(k: nat)
    ensures Flatten(seq(k, _ => Ones(PAYLOAD))) == Ones(PAYLOAD * k)
  {
    var full := seq(k, _ => Ones(PAYLOAD));
    if k > 0 {
      OnesFlatten(k - 1);
      assert full[..k - 1] == seq(k - 1, _ => Ones(PAYLOAD));
    }
  }

  lemma OnesCutFlatten(n: nat)
    ensures Flatten(OnesCut(n)) == Ones(n)
  {
    var k, rest := n / PAYLOAD, n % PAYLOAD;
    var full := seq(k, _ => Ones(PAYLOAD));
    OnesFlatten(k);
    if rest != 0 {
      assert (full + [Ones(rest)])[..k] == full;
    }
  }

  /** Every cut image has a file the reader decodes. */
  lemma {:induction false} FileExists(blocks: seq<seq<Byte>>, n: nat, targetAddr: nat) returns (output: seq<Byte>)
    requires n <= |blocks| && Cut(blocks, PAYLOAD)
    ensures Written(output, blocks, n, targetAddr, 0, 0)
  {
    if n == 0 {
      output := [];
    } else {
      output := FileExists(blocks, n - 1, targetAddr);
      var b := BlockExists(BlockOf(blocks[n - 1], targetAddr, 0, 0, n - 1, |blocks|));
      WrittenNext(output, b, blocks, n - 1, targetAddr, 0, 0);
      output := output + b;
    }
  }

  lemma BlockExists(block: Block) returns (b: seq<Byte>)
    requires block.flags < TWO32 && block.targetAddr < TWO32 && block.blockNo < TWO32 && block.numBlocks < TWO32
    requires block.familyID < TWO32 && |block.payload| == PAYLOAD
    ensures |b| == BLOCK && ReadBlock(b) == Some(block)
  {
    var ws := [MAGIC_START_0, MAGIC_START_1, block.flags, block.targetAddr, PAYLOAD, block.blockNo, block.numBlocks,
               block.familyID];
    var data := Pad(block.payload, DATA);
    BlockReadsBack(ws, data);
    assert data[..PAYLOAD] == block.payload;
    b := Words(ws) + data + U32(MAGIC_END);
  }

  /** An image of ones that ends above 2^32 is not held: its last byte is nowhere. */
  lemma TooHighIsLost(base: nat, len: nat) returns (output: seq<Byte>, n: nat)
    requires len > 0 && base + len > TWO32
    ensures ConversionOf(output, n, base, Ones(len)) && !HoldsImage(output, n, base, Ones(len))
  {
    hide Written, Decodes, Flash;
    var blocks := OnesCut(len);
    OnesCutFlatten(len);
    n := |blocks|;
    output := FileExists(blocks, n, base % TWO32);
    WrittenDecodes(output, blocks, base % TWO32, 0, 0);
    LastIsLost(output, n, base, len);
  }

  lemma LastIsLost(output: seq<Byte>, n: nat, base: nat, len: nat)
    requires len > 0 && base + len > TWO32
    ensures !HoldsImage(output, n, base, Ones(len))
  {
    var a := base + len - 1;
    assert Flash(output, n, a) == 0 && ImageAt(base, Ones(len), a) == 1;
  }

  /** For an image of given address and length, every conversion of every contents is held by the
      device as it should be if and only if the image ends at or below 2^32. */
  lemma HeldIffFits(base: nat, len: nat)
    ensures (forall output, n, image ::
               |image| == len && ConversionOf(output, n, base, image) ==> HoldsImage(output, n, base, image))
      <==> base + len <= TWO32 || len == 0
  {
    hide HoldsImage, Decodes;
    if base + len <= TWO32 || len == 0 {
      forall output, n, image | |image| == len && ConversionOf(output, n, base, image)
        ensures HoldsImage(output, n, base, image)
      {
        var flags, familyID :| Decodes(output, n, image, base % TWO32, flags, familyID);
        FittingIsHeld(output, n, base, image, flags, familyID);
      }
    } else {
      var output, n := TooHighIsLost(base, len);
      assert |Ones(len)| == len;
    }
  }

  // ---------------------------------------------------------------------------
  // The whole conversion

  /** The device holds what the segments load from `base` on. */
  ghost predicate HoldsSegments(output: seq<Byte>, n: nat, segments: seq<Prog>, base: nat) {
    forall a: nat :: Flash(output, n, a) == if a < base then 0 else Load(segments, |segments|, a)
  }

  lemma HeldSegments(output: seq<Byte>, n: nat, segments: seq<Prog>, startAddr: nat, base: nat, image: seq<Byte>)
    requires segments != [] && Contiguous(segments, |segments|) && Extracted(segments, startAddr, base, image)
    requires HoldsImage(output, n, base, image)
    ensures HoldsSegments(output, n, segments, base)
  {
    hide Flash, Load, Contiguous;
    forall a: nat ensures Flash(output, n, a) == if a < base then 0 else Load(segments, |segments|, a) {
      assert Flash(output, n, a) == ImageAt(base, image, a);
      if base <= a < base + |image| {
        assert image[a - base] == Load(segments, |segments|, base + (a - base));
      } else if a >= base {
        LoadBeyond(segments, |segments|, a);
      }
    }
  }

  datatype ElfResult = NotExtracted(error: RomResult) | NotConverted | File(output: seq<Byte>, numBlocks: nat)

  /** `convertELFFileToUF2File`, up to reading and writing the files. */
  method ConvertElfToUf2(sections: seq<Section>, all: seq<Prog>, uf2FamilyID: string, parseUint: string -> Option<nat>)
    returns (r: ElfResult)
    requires forall i :: 0 <= i < |sections| ==> sections[i].addr < TWO64
    requires Representable(Sort(RomSegments(all)))
    requires forall s :: parseUint(s).Some? ==> parseUint(s).value < TWO32
    ensures var segments, startAddr := Sort(RomSegments(all)), Lowest(sections);
      match r
      case NotExtracted(error) => !error.Rom? && Outcome(segments, startAddr, error)
      case NotConverted =>
        && Family(uf2FamilyID, parseUint).None? && segments != [] && Contiguous(segments, |segments|)
        && startAddr <= RomEnd(segments, |segments|)
      case File(output, n) =>
        && Family(uf2FamilyID, parseUint).Some? && segments != [] && Contiguous(segments, |segments|)
        && startAddr <= RomEnd(segments, |segments|)
        && (RomEnd(segments, |segments|) <= TWO32 ==>
              HoldsSegments(output, n, segments, MaxNat(segments[0].paddr, startAddr)))
  {
    hide HoldsSegments, Extracted, Decodes, Contiguous;
    var rom := ExtractRom(sections, all);
    if !rom.Rom? {
      return NotExtracted(rom);
    }
    var converted := ConvertBinToUf2(rom.image, rom.base % TWO32, uf2FamilyID, parseUint);
    match converted
    case BadFamilyID => return NotConverted;
    case Converted(output, n) =>
      ghost var segments, startAddr := Sort(RomSegments(all)), Lowest(sections);
      if RomEnd(segments, |segments|) <= TWO32 {
        ghost var (flags, familyID) := Family(uf2FamilyID, parseUint).value;
        ExtractedBase(segments, startAddr, rom.base, rom.image);
        FittingIsHeld(output, n, rom.base, rom.image, flags, familyID);
        HeldSegments(output, n, segments, startAddr, rom.base, rom.image);
      }
      return File(output, n);
  }

  lemma ExtractedBase(segments: seq<Prog>, startAddr: nat, base: nat, image: seq<Byte>)
    requires segments != [] && Extracted(segments, startAddr, base, image)
    ensures base == MaxNat(segments[0].paddr, startAddr) && base + |image| == RomEnd(segments, |segments|)
  {
  }
}
