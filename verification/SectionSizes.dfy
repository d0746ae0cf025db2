/** Attribution of the bytes of a binary to packages: the sweep over one section and the tiling
    of wasm linear memory. */
module SectionSizes {
  import opened Arithmetic

  /** A chunk of addresses attributed to a file by the debug information. */
  datatype Line = Line(address: nat, length: nat, file: string, isVariable: bool)
  datatype Kind = Code | ROData | Data | BSS | Stack
  datatype Section = Section(address: nat, size: nat, kind: Kind)

  /** One call of the callback that collects sizes. */
  datatype Label = Label(path: string, isVariable: bool)
  datatype Report = Report(tag: Label, size: nat)

  const UNKNOWN := Label("(unknown)", false)

  function End(line: Line): nat {
    line.address + line.length
  }

  function SectionEnd(s: Section): nat {
    s.address + s.size
  }

  predicate Inside(line: Line, s: Section) {
    s.address <= line.address && End(line) <= SectionEnd(s)
  }

  predicate Covers(line: Line, x: nat) {
    line.address <= x < End(line)
  }

  ghost predicate SortedByAddress(lines: seq<Line>) {
    forall i, j :: 0 <= i < j < |lines| ==> lines[i].address <= lines[j].address
  }

  /** No address computation wraps at 64 bits. */
  ghost predicate NoWrap(lines: seq<Line>, s: Section) {
    SectionEnd(s) < TWO64 && forall i :: 0 <= i < |lines| ==> End(lines[i]) < TWO64
  }

  // ---------------------------------------------------------------------------
  // Who owns a byte

  ghost predicate Claims(line: Line, s: Section, x: nat) {
    Inside(line, s) && Covers(line, x)
  }

  /** Chunk `i` is the first one inside the section that covers `x`. */
  ghost predicate FirstClaim(lines: seq<Line>, s: Section, x: nat, i: nat) {
    && i < |lines| && Claims(lines[i], s, x)
    && forall j :: 0 <= j < i ==> !Claims(lines[j], s, x)
  }

  ghost predicate Unclaimed(lines: seq<Line>, s: Section, x: nat) {
    forall j :: 0 <= j < |lines| ==> !Claims(lines[j], s, x)
  }

  lemma FirstClaimUnique(lines: seq<Line>, s: Section, x: nat, i: nat, j: nat)
    requires FirstClaim(lines, s, x, i) && FirstClaim(lines, s, x, j)
    ensures i == j
  {
  }

  /** The label a byte must be reported under. */
  ghost function OwnerLabel(lines: seq<Line>, pathOf: Line -> string, s: Section, x: nat): Label {
    if i: nat :| FirstClaim(lines, s, x, i) then Label(pathOf(lines[i]), lines[i].isVariable)
    else Label("(unknown)", false)
  }

  lemma OwnerOfClaimed(lines: seq<Line>, pathOf: Line -> string, s: Section, x: nat, i: nat)
    requires FirstClaim(lines, s, x, i)
    ensures OwnerLabel(lines, pathOf, s, x) == Label(pathOf(lines[i]), lines[i].isVariable)
  {
    forall j: nat | FirstClaim(lines, s, x, j) ensures j == i {
      FirstClaimUnique(lines, s, x, i, j);
    }
  }

  /** "(unknown)" is the default exactly where no chunk claims the byte. */
  lemma OwnerOfUnclaimed(lines: seq<Line>, pathOf: Line -> string, s: Section, x: nat)
    requires Unclaimed(lines, s, x)
    ensures OwnerLabel(lines, pathOf, s, x) == Label("(unknown)", false)
  {
  }

  lemma {:induction false} ClaimedHasFirst(lines: seq<Line>, s: Section, x: nat, n: nat) returns (i: nat)
    requires n < |lines| && Claims(lines[n], s, x)
    ensures i <= n && FirstClaim(lines, s, x, i)
    decreases n
  {
    if j: nat :| j < n && Claims(lines[j], s, x) {
      i := ClaimedHasFirst(lines, s, x, j);
    } else {
      i := n;
    }
  }

  /** The number of bytes in [lo, hi) with the given label. */
  ghost function Count(lines: seq<Line>, pathOf: Line -> string, s: Section, key: Label, lo: nat, hi: nat): nat
    decreases hi
  {
    if hi <= lo then 0
    else Count(lines, pathOf, s, key, lo, hi - 1) + (if OwnerLabel(lines, pathOf, s, hi - 1) == key then 1 else 0)
  }

  function Total(reports: seq<Report>, key: Label): nat {
    if reports == [] then 0
    else
      var r := reports[|reports| - 1];
      Total(reports[..|reports| - 1], key) + (if r.tag == key then r.size else 0)
  }

  function GrandTotal(reports: seq<Report>): nat {
    if reports == [] then 0
    else GrandTotal(reports[..|reports| - 1]) + reports[|reports| - 1].size
  }

  ghost predicate AllLabelled(lines: seq<Line>, pathOf: Line -> string, s: Section, l: Label, lo: nat, hi: nat) {
    forall x: nat :: lo <= x < hi ==> OwnerLabel(lines, pathOf, s, x) == l
  }

  lemma {:induction false} CountRange(lines: seq<Line>, pathOf: Line -> string, s: Section, key: Label, l: Label,
                                      start: nat, lo: nat, hi: nat)
    requires start <= lo <= hi && AllLabelled(lines, pathOf, s, l, lo, hi)
    ensures Count(lines, pathOf, s, key, start, hi) ==
      Count(lines, pathOf, s, key, start, lo) + (if l == key then hi - lo else 0)
    decreases hi
  {
    if lo < hi {
      CountRange(lines, pathOf, s, key, l, start, lo, hi - 1);
    }
  }

  /** Everything reported so far is the attribution of the bytes up to `addr`. */
  ghost predicate Accounted(lines: seq<Line>, pathOf: Line -> string, s: Section, reports: seq<Report>, addr: nat) {
    && s.address <= addr
    && GrandTotal(reports) == addr - s.address
    && forall key :: Total(reports, key) == Count(lines, pathOf, s, key, s.address, addr)
  }

  lemma AddReport(lines: seq<Line>, pathOf: Line -> string, s: Section, reports: seq<Report>, addr: nat, l: Label,
                  hi: nat)
    requires Accounted(lines, pathOf, s, reports, addr) && addr <= hi
    requires AllLabelled(lines, pathOf, s, l, addr, hi)
    ensures Accounted(lines, pathOf, s, reports + [Report(l, hi - addr)], hi)
  {
    var after := reports + [Report(l, hi - addr)];
    assert after[..|after| - 1] == reports;
    forall key ensures Total(after, key) == Count(lines, pathOf, s, key, s.address, hi) {
      CountRange(lines, pathOf, s, key, l, s.address, addr, hi);
    }
  }

  // ---------------------------------------------------------------------------
  // The sweep

  /** `addr` is how far the first `n` chunks reach: no chunk of them that counts ends later, and
      one of them ends there unless nothing has been swept. */
  ghost predicate Reach(lines: seq<Line>, s: Section, n: nat, addr: nat) {
    && n <= |lines| && s.address <= addr <= SectionEnd(s)
    && (forall j :: 0 <= j < n && Inside(lines[j], s) ==> End(lines[j]) <= addr)
    && (addr == s.address || exists j :: 0 <= j < n && Inside(lines[j], s) && End(lines[j]) == addr)
  }

  lemma GapIsUnclaimed(lines: seq<Line>, pathOf: Line -> string, s: Section, n: nat, addr: nat, hi: nat)
    requires SortedByAddress(lines) && Reach(lines, s, n, addr)
    requires n < |lines| ==> hi <= lines[n].address
    ensures AllLabelled(lines, pathOf, s, UNKNOWN, addr, hi)
  {
    forall x: nat | addr <= x < hi ensures OwnerLabel(lines, pathOf, s, x) == UNKNOWN {
      forall j | 0 <= j < |lines| ensures !Claims(lines[j], s, x) {
        assert j >= n ==> lines[n].address <= lines[j].address;
      }
      OwnerOfUnclaimed(lines, pathOf, s, x);
    }
  }

  lemma RestIsClaimed(lines: seq<Line>, pathOf: Line -> string, s: Section, n: nat, addr: nat)
    requires SortedByAddress(lines) && Reach(lines, s, n, addr)
    requires n < |lines| && Inside(lines[n], s)
    ensures var from := if addr < lines[n].address then lines[n].address else addr;
      AllLabelled(lines, pathOf, s, Label(pathOf(lines[n]), lines[n].isVariable), from, End(lines[n]))
  {
    var from := if addr < lines[n].address then lines[n].address else addr;
    forall x: nat | from <= x < End(lines[n])
      ensures OwnerLabel(lines, pathOf, s, x) == Label(pathOf(lines[n]), lines[n].isVariable)
    {
      assert FirstClaim(lines, s, x, n);
      OwnerOfClaimed(lines, pathOf, s, x, n);
    }
  }

  /** `readSection`: every byte of the section is reported exactly once, under the first chunk
      inside the section that covers it, or as unknown when there is none. */
  method ReadSection(s: Section, lines: seq<Line>, pathOf: Line -> string) returns (reports: seq<Report>)
    requires SortedByAddress(lines) && NoWrap(lines, s)
    ensures forall key :: Total(reports, key) == Count(lines, pathOf, s, key, s.address, SectionEnd(s))
    ensures GrandTotal(reports) == s.size
  {
    hide Reach, Accounted, AllLabelled, Total, GrandTotal, Count;
    reports := [];
    var addr: nat, sectionEnd: nat := s.address, s.address + s.size;
    SweepStarts(lines, pathOf, s);
    for n := 0 to |lines|
      invariant s.address <= addr <= sectionEnd
      invariant Reach(lines, s, n, addr)
      invariant Accounted(lines, pathOf, s, reports, addr)
    {
      var line := lines[n];
      ReachNext(lines, s, n, addr);
      if line.address < s.address || line.address + line.length > sectionEnd {
        continue;
      }
      GapIsUnclaimed(lines, pathOf, s, n, addr, line.address);
      RestIsClaimed(lines, pathOf, s, n, addr);
      if addr < line.address {
        AddReport(lines, pathOf, s, reports, addr, UNKNOWN, line.address);
        reports := reports + [Report(UNKNOWN, line.address - addr)];
      }
      if addr > line.address + line.length {
        continue;
      }
      var length := line.length;
      if addr > line.address {
        length := line.length - (addr - line.address);
      }
      var tag := Label(pathOf(line), line.isVariable);
      AddReport(lines, pathOf, s, reports, if addr < line.address then line.address else addr, tag, End(line));
      reports := reports + [Report(tag, length)];
      addr := line.address + line.length;
    }
    if addr < sectionEnd {
      GapIsUnclaimed(lines, pathOf, s, |lines|, addr, sectionEnd);
      AddReport(lines, pathOf, s, reports, addr, UNKNOWN, sectionEnd);
      reports := reports + [Report(UNKNOWN, sectionEnd - addr)];
    }
    SweepEnds(lines, pathOf, s, reports);
  }

  lemma SweepStarts(lines: seq<Line>, pathOf: Line -> string, s: Section)
    ensures Reach(lines, s, 0, s.address) && Accounted(lines, pathOf, s, [], s.address)
  {
  }

  lemma SweepEnds(lines: seq<Line>, pathOf: Line -> string, s: Section, reports: seq<Report>)
    requires Accounted(lines, pathOf, s, reports, SectionEnd(s))
    ensures forall key :: Total(reports, key) == Count(lines, pathOf, s, key, s.address, SectionEnd(s))
    ensures GrandTotal(reports) == s.size
  {
  }

  /** How far the sweep reaches after one more chunk. */
  lemma ReachNext(lines: seq<Line>, s: Section, n: nat, addr: nat)
    requires n < |lines| && Reach(lines, s, n, addr)
    ensures Reach(lines, s, n + 1, if Inside(lines[n], s) && addr <= End(lines[n]) then End(lines[n]) else addr)
  {
    var line := lines[n];
    if Inside(line, s) && addr <= End(line) {
      assert Inside(lines[n], s) && End(lines[n]) == End(line);
    } else if addr != s.address {
      var j :| 0 <= j < n && Inside(lines[j], s) && End(lines[j]) == addr;
      assert 0 <= j < n + 1;
    }
  }

  // ---------------------------------------------------------------------------
  // Tiling of linear memory

  /** The sections follow each other without gap or overlap from 0 to `end`. */
  ghost predicate Tiles(sections: seq<Section>, end: nat) {
    if sections == [] then end == 0
    else
      var last := sections[|sections| - 1];
      SectionEnd(last) == end && Tiles(sections[..|sections| - 1], last.address)
  }

  function DataOf(sections: seq<Section>): seq<Section> {
    if sections == [] then []
    else
      var last := sections[|sections| - 1];
      DataOf(sections[..|sections| - 1]) + (if last.kind == Data then [last] else [])
  }

  ghost predicate OnlyDataAndBss(sections: seq<Section>) {
    forall i :: 0 <= i < |sections| ==> sections[i].kind == Data || sections[i].kind == BSS
  }

  /** Where the data sections before the `n`th end. */
  function DataEnd(data: seq<Section>, n: nat): nat
    requires n <= |data|
  {
    if n == 0 then 0 else SectionEnd(data[n - 1])
  }

  /** No data section begins before its predecessor ends. */
  ghost predicate Apart(data: seq<Section>, n: nat)
    requires n <= |data|
  {
    forall i: nat :: i < n ==> DataEnd(data, i) <= data[i].address
  }

  ghost predicate DataSections(data: seq<Section>) {
    && (forall i :: 0 <= i < |data| ==> data[i].kind == Data && SectionEnd(data[i]) < TWO64)
    && (forall i, j :: 0 <= i < j < |data| ==> data[i].address <= data[j].address)
  }

  datatype TileResult = Tiled(sections: seq<Section>) | OverlappingData

  lemma Append(sections: seq<Section>, end: nat, s: Section)
    requires Tiles(sections, end) && s.address == end
    ensures Tiles(sections + [s], SectionEnd(s))
    ensures DataOf(sections + [s]) == DataOf(sections) + (if s.kind == Data then [s] else [])
    ensures OnlyDataAndBss(sections) && (s.kind == Data || s.kind == BSS) ==> OnlyDataAndBss(sections + [s])
  {
    var after := sections + [s];
    assert after[..|after| - 1] == sections;
  }

  /** The sections made from the first `n` data sections. */
  ghost predicate Laid(data: seq<Section>, n: nat, sections: seq<Section>)
    requires n <= |data|
  {
    Tiles(sections, DataEnd(data, n)) && DataOf(sections) == data[..n] && OnlyDataAndBss(sections)
  }

  function WithGap(sections: seq<Section>, from: nat, to: nat): seq<Section>
    requires from <= to
  {
    if from < to then sections + [Section(from, to - from, BSS)] else sections
  }

  lemma GapTiles(sections: seq<Section>, from: nat, to: nat)
    requires Tiles(sections, from) && OnlyDataAndBss(sections) && from <= to
    ensures Tiles(WithGap(sections, from, to), to)
    ensures DataOf(WithGap(sections, from, to)) == DataOf(sections) && OnlyDataAndBss(WithGap(sections, from, to))
  {
    hide Tiles, DataOf, OnlyDataAndBss;
    if from < to {
      Append(sections, from, Section(from, to - from, BSS));
    }
  }

  lemma LaidStart(data: seq<Section>)
    ensures Laid(data, 0, [])
  {
  }

  lemma LaidNext(data: seq<Section>, n: nat, sections: seq<Section>)
    requires n < |data| && data[n].kind == Data && DataEnd(data, n) <= data[n].address && Laid(data, n, sections)
    ensures Laid(data, n + 1, WithGap(sections, DataEnd(data, n), data[n].address) + [data[n]])
  {
    hide Tiles, DataOf, OnlyDataAndBss, WithGap;
    var next := WithGap(sections, DataEnd(data, n), data[n].address);
    GapTiles(sections, DataEnd(data, n), data[n].address);
    Append(next, data[n].address, data[n]);
    assert data[..n + 1] == data[..n] + [data[n]];
  }

  /** The loop over the data segments of a wasm file: either two of them overlap, or the data
      sections given and the gaps between them tile the whole linear memory. */
  method TileLinearMemory(data: seq<Section>, linearMemorySize: nat) returns (r: TileResult)
    requires DataSections(data) && linearMemorySize < TWO64
    ensures r.Tiled? <==> Apart(data, |data|)
    ensures r.Tiled? ==>
      && Tiles(r.sections, if DataEnd(data, |data|) < linearMemorySize then linearMemorySize else DataEnd(data, |data|))
      && DataOf(r.sections) == data && OnlyDataAndBss(r.sections)
  {
    hide Tiles, DataOf, OnlyDataAndBss;
    var sections: seq<Section> := [];
    var addr: nat := 0;
    LaidStart(data);
    for n := 0 to |data|
      invariant addr == DataEnd(data, n)
      invariant Laid(data, n, sections) && Apart(data, n)
    {
      var section := data[n];
      ghost var before := sections;
      if addr < section.address {
        sections := sections + [Section(addr, section.address - addr, BSS)];
      }
      if addr > section.address {
        return OverlappingData;
      }
      LaidNext(data, n, before);
      sections := sections + [section];
      addr := section.address + section.size;
    }
    assert data[..|data|] == data;
    if addr < linearMemorySize {
      GapTiles(sections, addr, linearMemorySize);
      sections := sections + [Section(addr, linearMemorySize - addr, BSS)];
    }
    return Tiled(sections);
  }

  ghost predicate Contains(s: Section, x: nat) {
    s.address <= x < SectionEnd(s)
  }

  lemma {:induction false} TileBelow(sections: seq<Section>, end: nat, i: nat)
    requires Tiles(sections, end) && i < |sections|
    ensures SectionEnd(sections[i]) <= end
    decreases |sections|
  {
    if i < |sections| - 1 {
      TileBelow(sections[..|sections| - 1], sections[|sections| - 1].address, i);
    }
  }

  /** Every address below the end is in exactly one section of a tiling, and none above. */
  lemma {:induction false} TiledOnce(sections: seq<Section>, end: nat, x: nat) returns (k: nat)
    requires Tiles(sections, end)
    ensures x < end ==> k < |sections|
    ensures forall i :: 0 <= i < |sections| ==> (Contains(sections[i], x) <==> x < end && i == k)
    decreases |sections|
  {
    k := 0;
    if sections != [] {
      var front, last := sections[..|sections| - 1], sections[|sections| - 1];
      k := TiledOnce(front, last.address, x);
      if last.address <= x {
        k := |sections| - 1;
      }
      forall i | 0 <= i < |sections| ensures Contains(sections[i], x) <==> x < end && i == k {
        if i < |front| {
          assert front[i] == sections[i];
          TileBelow(front, last.address, i);
        }
      }
    }
  }
}
