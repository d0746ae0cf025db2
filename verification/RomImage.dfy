/** Extraction of a firmware image from the loadable segments of an ELF file. */
module RomImage {
  import opened Arithmetic

  type Byte = x: int | 0 <= x < 256

  const MAX_PAD_BYTES: nat := 4095

  datatype Prog = Prog(load: bool, off: nat, paddr: nat, data: seq<Byte>)
  datatype Section = Section(allocProgbits: bool, addr: nat)

  datatype RomResult = Rom(base: nat, image: seq<Byte>) | NoSegments | NonContiguous | SliceOutOfRange

  /** Addition and subtraction of unsigned 64-bit numbers. */
  function Add64(a: nat, b: nat): nat
    requires a < TWO64 && b < TWO64
  {
    if a + b < TWO64 then a + b else a + b - TWO64
  }

  function Sub64(a: nat, b: nat): nat
    requires a < TWO64 && b < TWO64
  {
    if a >= b then a - b else a + TWO64 - b
  }

  // ---------------------------------------------------------------------------
  // Segments as memory

  /** Memory at address `a` after loading the first `n` segments into zeroed memory. */
  function Load(progs: seq<Prog>, n: nat, a: nat): Byte
    requires n <= |progs|
  {
    if n == 0 then 0
    else
      var p := progs[n - 1];
      if p.paddr <= a < p.paddr + |p.data| then p.data[a - p.paddr] else Load(progs, n - 1, a)
  }

  /** The first address after the first `n` segments. */
  function RomEnd(progs: seq<Prog>, n: nat): nat
    requires n <= |progs| && progs != []
  {
    if n == 0 then progs[0].paddr else progs[n - 1].paddr + |progs[n - 1].data|
  }

  ghost predicate GapOk(progs: seq<Prog>, k: nat)
    requires k < |progs|
  {
    0 <= progs[k].paddr - RomEnd(progs, k) <= 4095
  }

  /** Each segment begins where the previous one ends, or at most the padding limit after it. */
  ghost predicate Contiguous(progs: seq<Prog>, n: nat)
    requires n <= |progs| && progs != []
  {
    forall k: nat :: k < n ==> GapOk(progs, k)
  }

  ghost predicate SortedByPaddr(progs: seq<Prog>) {
    forall i, j :: 0 <= i < j < |progs| ==> progs[i].paddr <= progs[j].paddr
  }

  /** Addresses are 64 bits, and an image that is built fits in a slice. */
  ghost predicate Representable(progs: seq<Prog>) {
    && (forall i :: 0 <= i < |progs| ==> progs[i].paddr < TWO64)
    && (progs != [] ==> forall n: nat :: n <= |progs| && Contiguous(progs, n) ==>
      RomEnd(progs, n) - progs[0].paddr < TWO63)
  }

  lemma {:induction false} EndsGrow(progs: seq<Prog>, m: nat, n: nat)
    requires progs != [] && m <= n <= |progs| && Contiguous(progs, n)
    ensures RomEnd(progs, m) <= RomEnd(progs, n)
    decreases n - m
  {
    if m < n {
      EndsGrow(progs, m, n - 1);
      assert GapOk(progs, n - 1);
    }
  }

  /** Nothing is loaded at or beyond the end. */
  lemma {:induction false} LoadBeyond(progs: seq<Prog>, n: nat, a: nat)
    requires progs != [] && n <= |progs| && Contiguous(progs, n) && (a >= RomEnd(progs, n) || a < progs[0].paddr)
    ensures Load(progs, n, a) == 0
    decreases n
  {
    if n > 0 {
      EndsGrow(progs, n - 1, n);
      EndsGrow(progs, 0, n - 1);
      assert GapOk(progs, n - 1);
      LoadBeyond(progs, n - 1, a);
    }
  }

  /** Every byte of every segment is at its address. */
  lemma {:induction false} LoadSegment(progs: seq<Prog>, n: nat, k: nat, j: nat)
    requires progs != [] && k < n <= |progs| && Contiguous(progs, n) && j < |progs[k].data|
    ensures Load(progs, n, progs[k].paddr + j) == progs[k].data[j]
    ensures progs[0].paddr <= progs[k].paddr + j < RomEnd(progs, n)
    decreases n
  {
    EndsGrow(progs, 0, k);
    EndsGrow(progs, k + 1, n);
    assert GapOk(progs, k);
    if k < n - 1 {
      EndsGrow(progs, k + 1, n - 1);
      assert GapOk(progs, n - 1);
      LoadSegment(progs, n - 1, k, j);
    }
  }

  /** Segments that share an address are never contiguous. */
  lemma OverlapIsRejected(progs: seq<Prog>, i: nat, j: nat, a: nat)
    requires i < j < |progs|
    requires progs[i].paddr <= a < progs[i].paddr + |progs[i].data|
    requires progs[j].paddr <= a < progs[j].paddr + |progs[j].data|
    ensures !Contiguous(progs, |progs|)
  {
    assert Contiguous(progs, |progs|) ==> Contiguous(progs, j) && GapOk(progs, j);
    if Contiguous(progs, j) {
      EndsGrow(progs, i + 1, j);
    }
  }

  // ---------------------------------------------------------------------------
  // Building the image

  ghost predicate IsImage(progs: seq<Prog>, n: nat, rom: seq<Byte>)
    requires n <= |progs| && progs != []
  {
    && |rom| == RomEnd(progs, n) - progs[0].paddr
    && forall i :: 0 <= i < |rom| ==> rom[i] == Load(progs, n, progs[0].paddr + i)
  }

  function Zeros(n: nat): seq<Byte> {
    seq(n, _ => 0)
  }

  lemma ImageNext(progs: seq<Prog>, n: nat, rom: seq<Byte>, gap: nat)
    requires progs != [] && n < |progs| && Contiguous(progs, n + 1) && IsImage(progs, n, rom)
    requires gap == progs[n].paddr - RomEnd(progs, n)
    ensures IsImage(progs, n + 1, rom + Zeros(gap) + progs[n].data)
  {
    var next, base, len := rom + Zeros(gap) + progs[n].data, progs[0].paddr, |rom|;
    EndsGrow(progs, 0, n);
    assert GapOk(progs, n);
    forall i | 0 <= i < |next| ensures next[i] == Load(progs, n + 1, base + i) {
      if len <= i < len + gap {
        LoadBeyond(progs, n, base + i);
      }
    }
  }

  /** The wrapped difference is within the padding limit exactly when the segment really begins
      at most that far after the image. */
  lemma WrappedGap(base: nat, len: nat, paddr: nat)
    requires base <= paddr < TWO64 && len < TWO63
    ensures var diff := Sub64(paddr, Add64(base, len));
      && (diff <= MAX_PAD_BYTES <==> 0 <= paddr - (base + len) <= 4095)
      && (diff <= MAX_PAD_BYTES ==> diff == paddr - (base + len))
  {
  }

  /** The loop that appends the segments, with both kinds of padding. */
  method BuildRom(progs: seq<Prog>) returns (ok: bool, rom: seq<Byte>)
    requires progs != [] && SortedByPaddr(progs) && Representable(progs)
    ensures ok <==> Contiguous(progs, |progs|)
    ensures ok ==> IsImage(progs, |progs|, rom)
  {
    rom := [];
    for n := 0 to |progs|
      invariant Contiguous(progs, n) && IsImage(progs, n, rom)
    {
      var prog, base := progs[n], progs[0].paddr;
      ghost var before := rom;
      EndsGrow(progs, 0, n);
      assert |rom| < TWO63;
      WrappedGap(base, |rom|, prog.paddr);
      var romEnd := Add64(base, |rom|);
      if prog.paddr > romEnd && prog.paddr < Add64(romEnd, 16) {
        rom := rom + Zeros(prog.paddr - romEnd);
      }
      if prog.paddr != Add64(base, |rom|) {
        var diff := Sub64(prog.paddr, Add64(base, |rom|));
        if diff > MAX_PAD_BYTES {
          assert !GapOk(progs, n);
          return false, rom;
        }
        rom := rom + Zeros(diff);
      }
      Padded(progs, n, before, rom);
      rom := rom + prog.data;
    }
    ok := true;
  }

  lemma Padded(progs: seq<Prog>, n: nat, before: seq<Byte>, rom: seq<Byte>)
    requires progs != [] && n < |progs| && Contiguous(progs, n) && IsImage(progs, n, before)
    requires GapOk(progs, n)
    requires rom == before + Zeros(progs[n].paddr - RomEnd(progs, n))
    ensures Contiguous(progs, n + 1) && IsImage(progs, n + 1, rom + progs[n].data)
  {
    ImageNext(progs, n, before, progs[n].paddr - RomEnd(progs, n));
  }

  // ---------------------------------------------------------------------------
  // The whole extraction

  /** The lowest address of an allocated section with contents; all ones if there is none. */
  method LowestSection(sections: seq<Section>) returns (startAddr: nat)
    requires forall i :: 0 <= i < |sections| ==> sections[i].addr < TWO64
    ensures startAddr == Lowest(sections)
  {
    startAddr := TWO64 - 1;
    for i := 0 to |sections|
      invariant startAddr == Lowest(sections[..i])
    {
      assert sections[..i + 1][..i] == sections[..i];
      if !sections[i].allocProgbits {
        continue;
      }
      if sections[i].addr < startAddr {
        startAddr := sections[i].addr;
      }
    }
    assert sections[..|sections|] == sections;
  }

  function Lowest(sections: seq<Section>): nat {
    if sections == [] then TWO64 - 1
    else
      var last, rest := sections[|sections| - 1], Lowest(sections[..|sections| - 1]);
      if last.allocProgbits && last.addr < rest then last.addr else rest
  }

  lemma {:induction false} LowestIsMinimum(sections: seq<Section>)
    ensures forall i :: 0 <= i < |sections| && sections[i].allocProgbits ==> Lowest(sections) <= sections[i].addr
    ensures Lowest(sections) == TWO64 - 1
      || exists i :: 0 <= i < |sections| && sections[i].allocProgbits && sections[i].addr == Lowest(sections)
    decreases |sections|
  {
    if sections != [] {
      var front := sections[..|sections| - 1];
      LowestIsMinimum(front);
      forall i | 0 <= i < |front| ensures front[i] == sections[i] {
      }
    }
  }

  predicate IsRomSegment(p: Prog) {
    p.load && |p.data| != 0 && p.off != 0
  }

  function RomSegments(progs: seq<Prog>): seq<Prog> {
    if progs == [] then []
    else
      var last := progs[|progs| - 1];
      RomSegments(progs[..|progs| - 1]) + (if IsRomSegment(last) then [last] else [])
  }

  /** Which segments those are: the load segments with data and a non-zero offset, all of them, each
      once and in the order of the file. */
  ghost predicate Selected(all: seq<Prog>, progs: seq<Prog>, indices: seq<nat>) {
    && |indices| == |progs|
    && (forall k :: 0 <= k < |progs| ==> indices[k] < |all| && progs[k] == all[indices[k]])
    && (forall j, k :: 0 <= j < k < |indices| ==> indices[j] < indices[k])
    && (forall i: nat :: i < |all| ==> (i in indices <==> all[i].load && all[i].data != [] && all[i].off > 0))
  }

  lemma {:induction false} SelectsExactly(all: seq<Prog>) returns (indices: seq<nat>)
    ensures Selected(all, RomSegments(all), indices)
    decreases |all|
  {
    hide Selected;
    if all == [] {
      indices := [];
      NoneSelected();
    } else {
      var n := |all| - 1;
      indices := SelectsExactly(all[..n]);
      SelectedNext(all, RomSegments(all[..n]), indices);
      if all[n].load && all[n].data != [] && all[n].off > 0 {
        indices := indices + [n];
      } else {
        assert RomSegments(all[..n]) + [] == RomSegments(all[..n]);
      }
    }
  }

  lemma NoneSelected()
    ensures Selected([], [], [])
  {
  }

  lemma SelectedNext(all: seq<Prog>, progs: seq<Prog>, indices: seq<nat>)
    requires all != [] && Selected(all[..|all| - 1], progs, indices)
    ensures var n := |all| - 1;
      if all[n].load && all[n].data != [] && all[n].off > 0 then Selected(all, progs + [all[n]], indices + [n])
      else Selected(all, progs, indices)
  {
    var n := |all| - 1;
    var front := all[..n];
    assert forall k :: 0 <= k < |indices| ==> indices[k] < n;
    assert n !in indices;
    forall i: nat | i < |all|
      ensures i in indices + [n] <==> i in indices || i == n
      ensures i < n ==> front[i] == all[i]
    {
    }
  }

  /** Insertion into a list sorted by physical address. */
  function Insert(p: Prog, progs: seq<Prog>): seq<Prog> {
    if progs == [] || progs[|progs| - 1].paddr <= p.paddr then progs + [p]
    else Insert(p, progs[..|progs| - 1]) + [progs[|progs| - 1]]
  }

  function Sort(progs: seq<Prog>): seq<Prog> {
    if progs == [] then [] else Insert(progs[|progs| - 1], Sort(progs[..|progs| - 1]))
  }

  lemma {:induction false} InsertBounded(p: Prog, progs: seq<Prog>, bound: nat)
    requires p.paddr <= bound && forall i :: 0 <= i < |progs| ==> progs[i].paddr <= bound
    ensures forall i :: 0 <= i < |Insert(p, progs)| ==> Insert(p, progs)[i].paddr <= bound
    decreases |progs|
  {
    if progs != [] && p.paddr < progs[|progs| - 1].paddr {
      InsertBounded(p, progs[..|progs| - 1], bound);
    }
  }

  lemma {:induction false} InsertKeepsOrder(p: Prog, progs: seq<Prog>)
    requires SortedByPaddr(progs)
    ensures SortedByPaddr(Insert(p, progs))
    decreases |progs|
  {
    if progs != [] && p.paddr < progs[|progs| - 1].paddr {
      var front, last := progs[..|progs| - 1], progs[|progs| - 1];
      InsertKeepsOrder(p, front);
      InsertBounded(p, front, last.paddr);
    }
  }

  lemma {:induction false} InsertAdds(p: Prog, progs: seq<Prog>)
    ensures multiset(Insert(p, progs)) == multiset(progs) + multiset{p}
    decreases |progs|
  {
    if progs != [] && p.paddr < progs[|progs| - 1].paddr {
      var front, last := progs[..|progs| - 1], progs[|progs| - 1];
      InsertAdds(p, front);
      assert progs == front + [last];
    }
  }

  lemma {:induction false} SortSorts(progs: seq<Prog>)
    ensures SortedByPaddr(Sort(progs)) && multiset(Sort(progs)) == multiset(progs)
    decreases |progs|
  {
    if progs != [] {
      var front, last := progs[..|progs| - 1], progs[|progs| - 1];
      SortSorts(front);
      InsertKeepsOrder(last, Sort(front));
      InsertAdds(last, Sort(front));
      assert progs == front + [last];
    }
  }

  /** What a successful extraction returns: the memory the segments load, from the first allocated
      section or the first segment, whichever is higher, up to the end of the last segment. */
  ghost predicate Extracted(segments: seq<Prog>, startAddr: nat, base: nat, image: seq<Byte>)
    requires segments != []
  {
    && base == (if segments[0].paddr < startAddr then startAddr else segments[0].paddr)
    && base + |image| == RomEnd(segments, |segments|)
    && forall i :: 0 <= i < |image| ==> image[i] == Load(segments, |segments|, base + i)
  }

  /** The four outcomes and when each happens. */
  ghost predicate Outcome(segments: seq<Prog>, startAddr: nat, r: RomResult) {
    match r
    case NoSegments => segments == []
    case NonContiguous => segments != [] && !Contiguous(segments, |segments|)
    case SliceOutOfRange =>
      segments != [] && Contiguous(segments, |segments|) && startAddr > RomEnd(segments, |segments|)
    case Rom(base, image) =>
      && segments != [] && Contiguous(segments, |segments|) && startAddr <= RomEnd(segments, |segments|)
      && Extracted(segments, startAddr, base, image)
  }

  method SelectSegments(all: seq<Prog>) returns (progs: seq<Prog>)
    ensures progs == RomSegments(all) && exists indices :: Selected(all, progs, indices)
  {
    hide Selected;
    ghost var indices := SelectsExactly(all);
    progs := [];
    for i := 0 to |all|
      invariant progs == RomSegments(all[..i])
    {
      assert all[..i + 1][..i] == all[..i];
      if !all[i].load || |all[i].data| == 0 || all[i].off == 0 {
        continue;
      }
      progs := progs + [all[i]];
    }
    assert all[..|all|] == all;
  }

  /** Discards what lies before the first section; a start beyond the image is out of range. */
  method Trim(segments: seq<Prog>, rom: seq<Byte>, startAddr: nat) returns (r: RomResult)
    requires segments != [] && Contiguous(segments, |segments|) && IsImage(segments, |segments|, rom)
    ensures Outcome(segments, startAddr, r)
  {
    var base := segments[0].paddr;
    EndsGrow(segments, 0, |segments|);
    if base < startAddr {
      if startAddr - base > |rom| {
        return SliceOutOfRange;
      }
      return Rom(startAddr, rom[startAddr - base..]);
    } else {
      return Rom(base, rom);
    }
  }

  method ExtractRom(sections: seq<Section>, all: seq<Prog>) returns (r: RomResult)
    requires forall i :: 0 <= i < |sections| ==> sections[i].addr < TWO64
    requires Representable(Sort(RomSegments(all)))
    ensures Outcome(Sort(RomSegments(all)), Lowest(sections), r)
  {
    var startAddr := LowestSection(sections);
    var progs := SelectSegments(all);
    SortSorts(progs);
    SortLength(progs);
    if |progs| == 0 {
      return NoSegments;
    }
    progs := Sort(progs);
    var ok, rom := BuildRom(progs);
    if !ok {
      return NonContiguous;
    }
    r := Trim(progs, rom, startAddr);
  }

  lemma SortLength(progs: seq<Prog>)
    ensures |Sort(progs)| == |progs|
  {
    SortSorts(progs);
    assert |multiset(Sort(progs))| == |Sort(progs)| && |multiset(progs)| == |progs|;
  }
}
