/** Conversion of a firmware image to the UF2 format, and an independent reader of that format. */
module Uf2 {
  import opened Arithmetic
  import opened Options
  import opened RomImage

  const MAGIC_START_0: nat := 0x0A324655
  const MAGIC_START_1: nat := 0x9E5D5157
  const MAGIC_END: nat := 0x0AB16F30
  const FLAG_FAMILY_ID_PRESENT: nat := 0x2000
  const PAYLOAD: nat := 256
  const DATA: nat := 476
  const BLOCK: nat := 512

  // ---------------------------------------------------------------------------
  // Little-endian words

  function U32(x: nat): seq<Byte>
    requires x < TWO32
  {
    [x % 256, x / 256 % 256, x / 65536 % 256, x / 16777216]
  }

  /** The word stored at offset `off`. */
  function ReadU32(s: seq<Byte>, off: nat): nat
    requires off + 4 <= |s|
  {
    (s[off] as int) + 256 * (s[off + 1] as int) + 65536 * (s[off + 2] as int) + 16777216 * (s[off + 3] as int)
  }

  lemma WordReadsBack(x: nat)
    requires x < TWO32
    ensures ReadU32(U32(x), 0) == x
  {
    var a, b, c := x / 256, x / 65536, x / 16777216;
    assert a == x / 256 && b == a / 256 && c == b / 256;
    assert x == 256 * a + x % 256;
    assert a == 256 * b + a % 256;
    assert b == 256 * c + b % 256;
  }

  // ---------------------------------------------------------------------------
  // A reader of UF2 blocks

  /** The fields of a block as the format defines them, with the payload cut to its size. */
  datatype Block = Block(flags: nat, targetAddr: nat, blockNo: nat, numBlocks: nat, familyID: nat, payload: seq<Byte>)

  /** Reads a 512-byte block; None unless the three magic words and the payload size are as the
      format demands. */
  function ReadBlock(b: seq<Byte>): Option<Block>
    requires |b| == 512
  {
    var size := ReadU32(b, 16);
    if ReadU32(b, 0) != 0x0A324655 || ReadU32(b, 4) != 0x9E5D5157 || ReadU32(b, 508) != 0x0AB16F30 || size > 476
    then None
    else Some(Block(ReadU32(b, 8), ReadU32(b, 12), ReadU32(b, 20), ReadU32(b, 24), ReadU32(b, 28), b[32..32 + size]))
  }

  /** Block `i` of a file. */
  function BlockAt(s: seq<Byte>, i: nat): Option<Block> {
    if 512 * i + 512 <= |s| then ReadBlock(s[512 * i..512 * i + 512]) else None
  }

  /** The payloads of the first `n` blocks one after the other. */
  function Payloads(s: seq<Byte>, n: nat): seq<Byte> {
    if n == 0 then []
    else Payloads(s, n - 1) + (match BlockAt(s, n - 1) case Some(b) => b.payload case None => [])
  }

  lemma WordAfter(a: seq<Byte>, b: seq<Byte>, off: nat)
    requires off + 4 <= |b|
    ensures ReadU32(a + b, |a| + off) == ReadU32(b, off)
  {
  }

  lemma WordBefore(a: seq<Byte>, b: seq<Byte>, off: nat)
    requires off + 4 <= |a|
    ensures ReadU32(a + b, off) == ReadU32(a, off)
  {
  }

  lemma BlockBefore(a: seq<Byte>, b: seq<Byte>, i: nat)
    requires BLOCK * i + BLOCK <= |a|
    ensures BlockAt(a + b, i) == BlockAt(a, i)
  {
    var off := BLOCK * i;
    assert (a + b)[off..off + BLOCK] == a[off..off + BLOCK];
  }

  lemma BlockAfter(a: seq<Byte>, b: seq<Byte>, i: nat)
    requires |a| == BLOCK * i && |b| == BLOCK
    ensures BlockAt(a + b, i) == ReadBlock(b)
  {
    assert (a + b)[|a|..|a| + BLOCK] == b;
  }

  // ---------------------------------------------------------------------------
  // Writing one block

  /** A sequence of words reads back word by word. */
  function Words(ws: seq<nat>): seq<Byte>
    requires forall i :: 0 <= i < |ws| ==> ws[i] < TWO32
  {
    if ws == [] then [] else Words(ws[..|ws| - 1]) + U32(ws[|ws| - 1])
  }

  lemma {:induction false} WordsReadBack(ws: seq<nat>, k: nat)
    requires forall i :: 0 <= i < |ws| ==> ws[i] < TWO32
    requires k < |ws|
    ensures |Words(ws)| == 4 * |ws| && ReadU32(Words(ws), 4 * k) == ws[k]
    decreases |ws|
  {
    var front, last := ws[..|ws| - 1], ws[|ws| - 1];
    if front != [] {
      WordsReadBack(front, 0);
    }
    if k < |front| {
      WordsReadBack(front, k);
      WordBefore(Words(front), U32(last), 4 * k);
    } else {
      WordReadsBack(last);
      WordAfter(Words(front), U32(last), 0);
    }
  }

  lemma BlockReadsBack(ws: seq<nat>, data: seq<Byte>)
    requires |ws| == 8 && (forall i :: 0 <= i < |ws| ==> ws[i] < TWO32) && |data| == DATA
    requires ws[0] == MAGIC_START_0 && ws[1] == MAGIC_START_1 && ws[4] == PAYLOAD
    ensures |Words(ws) + data + U32(MAGIC_END)| == BLOCK
    ensures ReadBlock(Words(ws) + data + U32(MAGIC_END)) ==
      Some(Block(ws[2], ws[3], ws[5], ws[6], ws[7], data[..PAYLOAD]))
  {
    var header, tail := Words(ws), data + U32(MAGIC_END);
    WordsReadBack(ws, 0);
    var b := Words(ws) + data + U32(MAGIC_END);
    assert b == header + tail;
    forall k: nat | k < 8 ensures ReadU32(b, 4 * k) == ws[k] {
      WordsReadBack(ws, k);
      WordBefore(header, tail, 4 * k);
    }
    assert ReadU32(b, 4 * 0) == ws[0] && ReadU32(b, 4 * 1) == ws[1] && ReadU32(b, 4 * 2) == ws[2]
      && ReadU32(b, 4 * 3) == ws[3];
    assert ReadU32(b, 4 * 4) == ws[4] && ReadU32(b, 4 * 5) == ws[5] && ReadU32(b, 4 * 6) == ws[6]
      && ReadU32(b, 4 * 7) == ws[7];
    WordReadsBack(MAGIC_END);
    WordAfter(header + data, U32(MAGIC_END), 0);
    assert b[32..32 + PAYLOAD] == data[..PAYLOAD];
  }

  // ---------------------------------------------------------------------------
  // Splitting the image

  function Flatten(blocks: seq<seq<Byte>>): seq<Byte> {
    if blocks == [] then [] else Flatten(blocks[..|blocks| - 1]) + blocks[|blocks| - 1]
  }

  /** All blocks but the last are full, and the last is not empty. */
  ghost predicate Cut(blocks: seq<seq<Byte>>, limit: nat) {
    forall k :: 0 <= k < |blocks| ==> 0 < |blocks[k]| <= limit && (k < |blocks| - 1 ==> |blocks[k]| == limit)
  }

  method Split(input: seq<Byte>, limit: nat) returns (output: seq<seq<Byte>>)
    requires limit > 0
    ensures Flatten(output) == input && Cut(output, limit)
  {
    output := [];
    var rest := input;
    while |rest| >= limit
      invariant Flatten(output) + rest == input
      invariant forall k :: 0 <= k < |output| ==> |output[k]| == limit
      decreases |rest|
    {
      var block;
      block, rest := rest[..limit], rest[limit..];
      assert (output + [block])[..|output|] == output;
      assert Flatten(output) + (block + rest) == (Flatten(output) + block) + rest;
      output := output + [block];
    }
    if |rest| > 0 {
      assert (output + [rest])[..|output|] == output;
      output := output + [rest];
    }
  }

  function Pad(block: seq<Byte>, size: nat): seq<Byte>
    requires |block| <= size
  {
    block + Zeros(size - |block|)
  }

  // ---------------------------------------------------------------------------
  // The converter

  function AddressOf(targetAddr: nat, k: nat): nat {
    (targetAddr + 256 * k) % TWO32
  }

  lemma NextAddress(targetAddr: nat, k: nat)
    ensures targetAddr < TWO32 ==> AddressOf(targetAddr, 0) == targetAddr
    ensures (AddressOf(targetAddr, k) + PAYLOAD) % TWO32 == AddressOf(targetAddr, k + 1)
  {
  }

  /** What the reader must find as block `k` of `n`. */
  function BlockOf(chunk: seq<Byte>, targetAddr: nat, flags: nat, familyID: nat, k: nat, n: nat): Block
    requires |chunk| <= PAYLOAD
  {
    Block(flags, AddressOf(targetAddr, k), k % TWO32, n % TWO32, familyID, Pad(chunk, PAYLOAD))
  }

  /** The block that is filled in and written again for every part of the image. */
  class BlockWriter {
    const flags: nat
    const familyID: nat
    const payloadSize: nat
    var targetAddr: nat
    var blockNo: nat
    var numBlocks: nat
    var data: seq<Byte>

    ghost predicate Valid()
      reads this
    {
      && flags < TWO32 && familyID < TWO32 && payloadSize == PAYLOAD
      && targetAddr < TWO32 && blockNo < TWO32 && numBlocks < TWO32 && |data| == DATA
    }

    constructor (targetAddr: nat, flags: nat, familyID: nat)
      requires targetAddr < TWO32 && flags < TWO32 && familyID < TWO32
      ensures Valid() && this.targetAddr == targetAddr && this.flags == flags && this.familyID == familyID
    {
      this.targetAddr, this.flags, this.familyID := targetAddr, flags, familyID;
      payloadSize, blockNo, numBlocks := PAYLOAD, 0, 0;
      data := Zeros(DATA);
    }

    /** The bytes read back as the fields of this block. */
    method Bytes() returns (buf: seq<Byte>)
      requires Valid()
      ensures |buf| == BLOCK
      ensures ReadBlock(buf) == Some(Block(flags, targetAddr, blockNo, numBlocks, familyID, data[..PAYLOAD]))
    {
      var ws := [MAGIC_START_0, MAGIC_START_1, flags, targetAddr, payloadSize, blockNo, numBlocks, familyID];
      buf := [];
      for i := 0 to |ws|
        invariant buf == Words(ws[..i])
      {
        assert ws[..i + 1][..i] == ws[..i];
        buf := buf + U32(ws[i]);
      }
      assert ws[..|ws|] == ws;
      BlockReadsBack(ws, data);
      buf := buf + data;
      buf := buf + U32(MAGIC_END);
    }

    method IncrementAddress(count: nat)
      requires Valid()
      modifies this`targetAddr
      ensures Valid() && targetAddr == (old(targetAddr) + PAYLOAD) % TWO32
    {
      targetAddr := (targetAddr + payloadSize) % TWO32;
    }

    method SetData(d: seq<Byte>)
      requires Valid()
      modifies this`data
      ensures Valid() && data == if |d| <= DATA then Pad(d, DATA) else d[..DATA]
      ensures |d| <= PAYLOAD ==> data[..PAYLOAD] == Pad(d, PAYLOAD)
    {
      data := if |d| <= DATA then d + Zeros(DATA - |d|) else d[..DATA];
    }

    method SetBlockNo(bn: nat)
      requires Valid()
      modifies this`blockNo
      ensures Valid() && blockNo == bn % TWO32
    {
      blockNo := bn % TWO32;
    }

    method SetNumBlocks(total: nat)
      requires Valid()
      modifies this`numBlocks
      ensures Valid() && numBlocks == total % TWO32
    {
      numBlocks := total % TWO32;
    }
  }

  /** The first `n` blocks of the file, as the reader sees them. */
  ghost predicate Written(output: seq<Byte>, blocks: seq<seq<Byte>>, n: nat, targetAddr: nat, flags: nat, familyID: nat)
    requires n <= |blocks|
  {
    && Cut(blocks, PAYLOAD) && |output| == BLOCK * n
    && forall k: nat :: k < n ==>
      BlockAt(output, k) == Some(BlockOf(blocks[k], targetAddr, flags, familyID, k, |blocks|))
  }

  lemma WrittenNext(output: seq<Byte>, b: seq<Byte>, blocks: seq<seq<Byte>>, n: nat, targetAddr: nat, flags: nat,
                    familyID: nat)
    requires n < |blocks| && Written(output, blocks, n, targetAddr, flags, familyID)
    requires |b| == BLOCK && ReadBlock(b) == Some(BlockOf(blocks[n], targetAddr, flags, familyID, n, |blocks|))
    ensures Written(output + b, blocks, n + 1, targetAddr, flags, familyID)
  {
    forall k: nat | k < n + 1
      ensures BlockAt(output + b, k) == Some(BlockOf(blocks[k], targetAddr, flags, familyID, k, |blocks|))
    {
      if k < n {
        BlockBefore(output, b, k);
      } else {
        BlockAfter(output, b, n);
      }
    }
  }

  /** The loop over the parts of the image. */
  method WriteBlocks(blocks: seq<seq<Byte>>, targetAddr: nat, flags: nat, familyID: nat) returns (output: seq<Byte>)
    requires Cut(blocks, PAYLOAD) && targetAddr < TWO32 && flags < TWO32 && familyID < TWO32
    ensures Written(output, blocks, |blocks|, targetAddr, flags, familyID)
  {
    hide ReadBlock, BlockAt, AddressOf;
    output := [];
    var bl := new BlockWriter(targetAddr, flags, familyID);
    bl.SetNumBlocks(|blocks|);
    NextAddress(targetAddr, 0);
    for i := 0 to |blocks|
      invariant bl.Valid() && bl.numBlocks == |blocks| % TWO32 && bl.targetAddr == AddressOf(targetAddr, i)
      invariant Written(output, blocks, i, targetAddr, flags, familyID)
    {
      bl.SetBlockNo(i);
      bl.SetData(blocks[i]);
      var b := bl.Bytes();
      WrittenNext(output, b, blocks, i, targetAddr, flags, familyID);
      output := output + b;
      bl.IncrementAddress(bl.payloadSize);
      NextAddress(targetAddr, i);
    }
  }

  datatype Uf2Result = Converted(output: seq<Byte>, numBlocks: nat) | BadFamilyID

  /** The flags and family a file must carry; None when the family is not a number. */
  function Family(uf2FamilyID: string, parseUint: string -> Option<nat>): Option<(nat, nat)> {
    if uf2FamilyID == "" then Some((0, 0))
    else
      match parseUint(uf2FamilyID)
      case Some(v) => Some((0x2000, v))
      case None => None
  }

  /** The reader finds the blocks of the image, padded with zeros to whole blocks, and numbered and
      addressed in order. */
  ghost predicate Decodes(output: seq<Byte>, n: nat, input: seq<Byte>, targetAddr: nat, flags: nat, familyID: nat) {
    && |output| == 512 * n
    && 256 * n < |input| + 256 && |input| <= 256 * n
    && Payloads(output, n) == Pad(input, 256 * n)
    && forall k: nat :: k < n ==>
      BlockAt(output, k).Some? && HeaderOk(BlockAt(output, k).value, k, n, targetAddr, flags, familyID)
  }

  ghost predicate HeaderOk(b: Block, k: nat, n: nat, targetAddr: nat, flags: nat, familyID: nat) {
    && b.flags == flags && b.familyID == familyID && |b.payload| == 256
    && b.targetAddr == AddressOf(targetAddr, k) && b.blockNo == k % TWO32 && b.numBlocks == n % TWO32
  }

  /** `convertBinToUF2`. */
  method ConvertBinToUf2(input: seq<Byte>, targetAddr: nat, uf2FamilyID: string, parseUint: string -> Option<nat>)
    returns (r: Uf2Result)
    requires targetAddr < TWO32
    requires forall s :: parseUint(s).Some? ==> parseUint(s).value < TWO32
    ensures r.BadFamilyID? <==> Family(uf2FamilyID, parseUint).None?
    ensures r.Converted? ==>
      var (flags, familyID) := Family(uf2FamilyID, parseUint).value;
      Decodes(r.output, r.numBlocks, input, targetAddr, flags, familyID)
  {
    var blocks := Split(input, PAYLOAD);
    var flags, familyID := 0, 0;
    if uf2FamilyID != "" {
      flags := FLAG_FAMILY_ID_PRESENT;
      match parseUint(uf2FamilyID)
      case None => return BadFamilyID;
      case Some(v) => familyID := v;
    }
    var output := WriteBlocks(blocks, targetAddr, flags, familyID);
    WrittenDecodes(output, blocks, targetAddr, flags, familyID);
    return Converted(output, |blocks|);
  }

  lemma {:induction false} FullPayloads(output: seq<Byte>, blocks: seq<seq<Byte>>, n: nat, targetAddr: nat,
                                        flags: nat, familyID: nat)
    requires n < |blocks| && Written(output, blocks, |blocks|, targetAddr, flags, familyID)
    ensures Payloads(output, n) == Flatten(blocks[..n]) && |Flatten(blocks[..n])| == PAYLOAD * n
    decreases n
  {
    if n > 0 {
      FullPayloads(output, blocks, n - 1, targetAddr, flags, familyID);
      assert blocks[..n][..n - 1] == blocks[..n - 1];
      assert BlockAt(output, n - 1).value.payload == blocks[n - 1];
    }
  }

  lemma PadLast(front: seq<Byte>, last: seq<Byte>, n: nat)
    requires n > 0 && |front| == PAYLOAD * (n - 1) && |last| <= PAYLOAD
    ensures |front + last| <= PAYLOAD * n && front + Pad(last, PAYLOAD) == Pad(front + last, PAYLOAD * n)
  {
  }

  lemma PayloadsDecode(output: seq<Byte>, blocks: seq<seq<Byte>>, targetAddr: nat, flags: nat, familyID: nat)
    requires Written(output, blocks, |blocks|, targetAddr, flags, familyID)
    ensures PAYLOAD * |blocks| < |Flatten(blocks)| + PAYLOAD && |Flatten(blocks)| <= PAYLOAD * |blocks|
    ensures Payloads(output, |blocks|) == Pad(Flatten(blocks), PAYLOAD * |blocks|)
  {
    hide BlockAt;
    var n := |blocks|;
    if n > 0 {
      FullPayloads(output, blocks, n - 1, targetAddr, flags, familyID);
      var front, last := Flatten(blocks[..n - 1]), blocks[n - 1];
      assert BlockAt(output, n - 1).value.payload == Pad(last, PAYLOAD);
      PadLast(front, last, n);
    }
  }

  lemma WrittenDecodes(output: seq<Byte>, blocks: seq<seq<Byte>>, targetAddr: nat, flags: nat, familyID: nat)
    requires Written(output, blocks, |blocks|, targetAddr, flags, familyID)
    ensures Decodes(output, |blocks|, Flatten(blocks), targetAddr, flags, familyID)
  {
    PayloadsDecode(output, blocks, targetAddr, flags, familyID);
    forall k: nat | k < |blocks|
      ensures BlockAt(output, k).Some? && HeaderOk(BlockAt(output, k).value, k, |blocks|, targetAddr, flags, familyID)
    {
      assert BlockAt(output, k) == Some(BlockOf(blocks[k], targetAddr, flags, familyID, k, |blocks|));
    }
  }
}
