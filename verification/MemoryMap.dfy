/** The boot memory map (sys/mem/mm.c): the reserved ranges are sorted, every
    available entry is swept around them, and the pieces feed the frame
    allocator. */
module MemoryMap {
  import opened FrameBitmap

  const MAX_MEM_REGIONS: int := 64
  const MAX_RESERVED: int := 64
  const PTR32_MAX_ADDRESSABLE: int := 0xFFFF_FFFF
  const REGION_AVAILABLE: int := 1
  const REGION_ACPI_RECLAIMABLE: int := 3

  /** A range of addresses [start, end). */
  datatype Range = Range(start: int, end: int)

  /** An entry of the multiboot memory map. */
  datatype MapEntry = MapEntry(addr: int, len: int, kind: int)
  {
    predicate Usable() { kind == REGION_AVAILABLE || kind == REGION_ACPI_RECLAIMABLE }
  }

  function AlignDown(x: int): int { x / 4096 * 4096 }
  function PageAlign(x: int): int { (x + 4095) / 4096 * 4096 }

  /** A reserved range rounded out to whole pages. */
  function RoundOut(r: Range): Range { Range(AlignDown(r.start), PageAlign(r.end)) }

  // ---------------------------------------------------------------------
  // SortReservedChunks
  // ---------------------------------------------------------------------

  ghost predicate Sorted(rs: seq<Range>)
  {
    forall i, j :: 0 <= i < j < |rs| ==> rs[i].start <= rs[j].start
  }

  /** The first `m` elements are in their final places. */
  ghost predicate Settled(a: array<Range>, n: int, m: int)
    requires 0 <= m <= n <= a.Length
    reads a
  {
    forall i, j :: 0 <= i < m && i < j < n ==> a[i].start <= a[j].start
  }

  /** Bubble sort by start address, from the back. */
  method SortReservedChunks(a: array<Range>, n: int)
    requires 0 <= n <= a.Length
    modifies a
    ensures Sorted(a[..n]) && multiset(a[..n]) == multiset(old(a[..n])) && a[n..] == old(a[n..])
  {
    var i := 1;
    while i < n
      invariant 1 <= i && (n >= 1 ==> i <= n)
      invariant n >= 1 ==> Settled(a, n, i - 1)
      invariant multiset(a[..n]) == multiset(old(a[..n])) && a[n..] == old(a[n..])
    {
      BubbleDown(a, n, i);
      i := i + 1;
    }
  }

  /** The inner loop: the smallest of a[i-1..n] moves to index i - 1. */
  method BubbleDown(a: array<Range>, n: int, i: int)
    requires 1 <= i < n <= a.Length && Settled(a, n, i - 1)
    modifies a
    ensures Settled(a, n, i) && multiset(a[..n]) == multiset(old(a[..n])) && a[n..] == old(a[n..])
  {
    var j := n - 1;
    while j >= i
      invariant i - 1 <= j <= n - 1
      invariant Settled(a, n, i - 1)
      invariant forall k :: j < k < n ==> a[j].start <= a[k].start
      invariant multiset(a[..n]) == multiset(old(a[..n])) && a[n..] == old(a[n..])
    {
      if a[j].start < a[j - 1].start { SwapAdjacent(a, n, j); }
      j := j - 1;
    }
  }

  method SwapAdjacent(a: array<Range>, n: int, j: int)
    requires 1 <= j < n <= a.Length
    modifies a
    ensures a[j] == old(a[j - 1]) && a[j - 1] == old(a[j])
    ensures forall k :: 0 <= k < a.Length && k != j && k != j - 1 ==> a[k] == old(a[k])
    ensures multiset(a[..n]) == multiset(old(a[..n])) && a[n..] == old(a[n..])
  {
    ghost var s := a[..n];
    a[j], a[j - 1] := a[j - 1], a[j];
    assert a[..n] == s[j := s[j - 1]][j - 1 := s[j]];
  }

  // ---------------------------------------------------------------------
  // The sweep
  // ---------------------------------------------------------------------

  /** What is left of [cur, end) around the reserved ranges. */
  function Sweep(cur: int, end: int, rs: seq<Range>): seq<Range>
    decreases |rs|
  {
    if rs == [] || (rs[0].end > cur && rs[0].start >= end) then
      if cur < end then [Range(cur, end)] else []
    else if rs[0].end <= cur then Sweep(cur, end, rs[1..])
    else (if cur < rs[0].start then [Range(cur, rs[0].start)] else []) + Sweep(rs[0].end, end, rs[1..])
  }

  predicate Within(r: Range, x: int) { r.start <= x < r.end }

  ghost predicate Covered(rs: seq<Range>, x: int) { exists i :: 0 <= i < |rs| && Within(rs[i], x) }

  lemma CoveredConcat(rs: seq<Range>, ts: seq<Range>, x: int)
    ensures Covered(rs + ts, x) <==> Covered(rs, x) || Covered(ts, x)
  {
    if Covered(rs, x) { var i :| 0 <= i < |rs| && Within(rs[i], x); assert Within((rs + ts)[i], x); }
    if Covered(ts, x) { var i :| 0 <= i < |ts| && Within(ts[i], x); assert Within((rs + ts)[|rs| + i], x); }
  }

  lemma CoveredFirst(rs: seq<Range>, x: int)
    requires rs != []
    ensures Covered(rs, x) <==> Within(rs[0], x) || Covered(rs[1..], x)
  {
    assert rs == [rs[0]] + rs[1..];
    CoveredConcat([rs[0]], rs[1..], x);
    assert Covered([rs[0]], x) <==> Within(rs[0], x) by { assert Within([rs[0]][0], x) <==> Within(rs[0], x); }
  }

  /** The sweep over sorted, possibly overlapping ranges is exact subtraction. */
  lemma {:induction false} SweepExact(cur: int, end: int, rs: seq<Range>, x: int)
    requires Sorted(rs)
    ensures Covered(Sweep(cur, end, rs), x) <==> cur <= x < end && !Covered(rs, x)
    decreases |rs|
  {
    if rs == [] || (rs[0].end > cur && rs[0].start >= end) {
      LastPiece(cur, end, x);
      if x < end { NothingBelow(rs, end, x); }
    } else if rs[0].end <= cur {
      CoveredFirst(rs, x);
      SweepExact(cur, end, rs[1..], x);
    } else {
      CoveredFirst(rs, x);
      SweepExact(rs[0].end, end, rs[1..], x);
      var first := if cur < rs[0].start then [Range(cur, rs[0].start)] else [];
      CoveredConcat(first, Sweep(rs[0].end, end, rs[1..]), x);
      assert Covered(first, x) <==> cur <= x < rs[0].start by {
        if cur < rs[0].start { assert Within(first[0], x) <==> cur <= x < rs[0].start; }
      }
      if x < rs[0].start { NothingBelow(rs[1..], rs[0].start, x); }
    }
  }

  lemma LastPiece(cur: int, end: int, x: int)
    ensures var t := if cur < end then [Range(cur, end)] else [];
            Covered(t, x) <==> cur <= x < end
  {
    var t := if cur < end then [Range(cur, end)] else [];
    if cur < end { assert Within(t[0], x) <==> cur <= x < end; }
  }

  /** Sorted ranges starting at or above `b` hold nothing below it. */
  lemma NothingBelow(rs: seq<Range>, b: int, x: int)
    requires Sorted(rs) && x < b && (rs != [] ==> rs[0].start >= b)
    ensures !Covered(rs, x)
  {}

  // ---------------------------------------------------------------------
  // AddMemoryRegions
  // ---------------------------------------------------------------------

  /** At most 64 regions are kept; the rest is silently dropped. */
  function Kept(rs: seq<Range>): seq<Range>
  {
    if |rs| <= MAX_MEM_REGIONS then rs else rs[..MAX_MEM_REGIONS]
  }

  function Add(regions: seq<Range>, r: Range): seq<Range>
  {
    if |regions| < MAX_MEM_REGIONS then regions + [r] else regions
  }

  lemma AddKept(rs: seq<Range>, r: Range)
    ensures Add(Kept(rs), r) == Kept(rs + [r])
  {}

  lemma KeptConcat(rs: seq<Range>, ts: seq<Range>)
    requires |Kept(rs)| >= MAX_MEM_REGIONS
    ensures Kept(rs + ts) == Kept(rs)
  {}

  /** The last byte of an entry, cut off below the top of a 32-bit space; the
      sweep treats it as an exclusive end. */
  function LastByte(e: MapEntry): int
  {
    var end := e.addr + e.len - 1;
    if end >= PTR32_MAX_ADDRESSABLE then PTR32_MAX_ADDRESSABLE - 1 else end
  }

  function PiecesOf(e: MapEntry, rs: seq<Range>): seq<Range>
  {
    if e.addr >= PTR32_MAX_ADDRESSABLE || !e.Usable() then [] else Sweep(e.addr, LastByte(e), rs)
  }

  function AllPieces(entries: seq<MapEntry>, rs: seq<Range>): seq<Range>
  {
    if entries == [] then []
    else AllPieces(entries[..|entries| - 1], rs) + PiecesOf(entries[|entries| - 1], rs)
  }

  /** The kernel and as many modules as fit, rounded out to pages. */
  function Reserved(kernel: Range, modules: seq<Range>): (rs: seq<Range>)
    ensures |rs| == if |modules| < MAX_RESERVED then |modules| + 1 else MAX_RESERVED
    ensures forall i :: 0 <= i < |rs| ==> rs[i] == if i == 0 then RoundOut(kernel) else RoundOut(modules[i - 1])
  {
    var n := if |modules| < MAX_RESERVED then |modules| + 1 else MAX_RESERVED;
    seq(n, i requires 0 <= i < n => if i == 0 then RoundOut(kernel) else RoundOut(modules[i - 1]))
  }

  /** mm.c:88-107: the table of reserved ranges. */
  method CollectReserved(kernel: Range, modules: seq<Range>, reserved: array<Range>) returns (n: int)
    requires reserved.Length == MAX_RESERVED
    modifies reserved
    ensures 0 <= n <= MAX_RESERVED && reserved[..n] == Reserved(kernel, modules)
  {
    hide RoundOut;
    reserved[0] := RoundOut(kernel);
    n := 1;
    var j := 0;
    while j < |modules|
      invariant 0 <= j <= |modules| && n == j + 1 && n <= MAX_RESERVED
      invariant forall i :: 0 <= i < n ==> reserved[i] == if i == 0 then RoundOut(kernel) else RoundOut(modules[i - 1])
    {
      if n >= MAX_RESERVED { break; }
      reserved[n] := RoundOut(modules[j]);
      n := n + 1;
      j := j + 1;
    }
  }

  /** mm.c:167-190: the pieces of one entry, appended to the regions. */
  method SweepEntry(start: int, end: int, reserved: array<Range>, n: int, regions: seq<Range>, ghost before: seq<Range>)
    returns (r: seq<Range>)
    requires 0 <= n <= reserved.Length && regions == Kept(before)
    ensures r == Kept(before + Sweep(start, end, reserved[..n]))
  {
    hide Kept, Add, Sweep;
    r := regions;
    var cur := start;
    ghost var out := [];
    ghost var all := Sweep(start, end, reserved[..n]);
    var i := 0;
    assert reserved[0..n] == reserved[..n];
    assert before + out == before && out + all == all;
    while i < n
      invariant 0 <= i <= n && r == Kept(before + out)
      invariant all == out + Sweep(cur, end, reserved[i..n])
    {
      assert reserved[i..n][0] == reserved[i] && reserved[i..n][1..] == reserved[i + 1..n];
      SweepStep(cur, end, reserved[i..n]);
      var x := reserved[i];
      if x.end <= cur {
        i := i + 1;
        continue;
      }
      if x.start >= end { break; }
      if cur < x.start {
        r := AddPiece(r, before, out, Range(cur, x.start));
        out := out + [Range(cur, x.start)];
      }
      if x.end > cur { cur := x.end; }
      i := i + 1;
    }
    assert i < n ==> reserved[i..n][0] == reserved[i];
    SweepStep(cur, end, reserved[i..n]);
    if cur < end {
      r := AddPiece(r, before, out, Range(cur, end));
    } else {
      assert out + [] == out;
    }
  }

  method AddPiece(regions: seq<Range>, ghost before: seq<Range>, ghost out: seq<Range>, piece: Range)
    returns (r: seq<Range>)
    requires regions == Kept(before + out)
    ensures r == Kept(before + (out + [piece]))
  {
    hide Kept, Add;
    AddKept(before + out, piece);
    r := Add(regions, piece);
    assert before + out + [piece] == before + (out + [piece]);
  }

  /** One turn of the sweep, or its end. */
  lemma SweepStep(cur: int, end: int, rs: seq<Range>)
    ensures rs == [] || (rs[0].end > cur && rs[0].start >= end) ==>
            Sweep(cur, end, rs) == if cur < end then [Range(cur, end)] else []
    ensures rs != [] && rs[0].end <= cur ==> Sweep(cur, end, rs) == Sweep(cur, end, rs[1..])
    ensures rs != [] && rs[0].end > cur && rs[0].start < end ==>
              Sweep(cur, end, rs) == (if cur < rs[0].start then [Range(cur, rs[0].start)] else []) +
                Sweep(rs[0].end, end, rs[1..])
  {}

  /** AddMemoryRegions: the pieces of all usable entries around the reserved
      ranges, up to the limit of the table. */
  method AddMemoryRegions(kernel: Range, modules: seq<Range>, entries: seq<MapEntry>)
    returns (regions: seq<Range>, rs: seq<Range>)
    requires forall i :: 0 <= i < |entries| ==> entries[i].addr >= 0 && entries[i].len >= 1
    ensures Sorted(rs) && multiset(rs) == multiset(Reserved(kernel, modules))
    ensures regions == Kept(AllPieces(entries, rs))
  {
    hide Kept, Sweep, RoundOut, Reserved;
    var reserved := new Range[MAX_RESERVED](_ => Range(0, 0));
    var n := CollectReserved(kernel, modules, reserved);
    SortReservedChunks(reserved, n);
    rs := reserved[..n];
    regions := [];
    var k := 0;
    assert Kept([]) == [] by { KeptEmpty(); }
    while k < |entries|
      invariant 0 <= k <= |entries| && rs == reserved[..n]
      invariant regions == Kept(AllPieces(entries[..k], rs))
    {
      var e := entries[k];
      ghost var done := AllPieces(entries[..k], rs);
      assert entries[..k + 1][..k] == entries[..k];
      assert AllPieces(entries[..k + 1], rs) == done + PiecesOf(e, rs);
      k := k + 1;
      if e.addr >= PTR32_MAX_ADDRESSABLE {
        assert done + [] == done;
        continue;
      }
      var end := e.addr + e.len - 1;
      if end >= PTR32_MAX_ADDRESSABLE { end := PTR32_MAX_ADDRESSABLE - 1; }
      if e.kind == REGION_AVAILABLE || e.kind == REGION_ACPI_RECLAIMABLE {
        regions := SweepEntry(e.addr, end, reserved, n, regions, done);
      } else {
        assert done + [] == done;
      }
      if |regions| >= MAX_MEM_REGIONS {
        FullTable(entries, k, rs);
        break;
      }
    }
    assert entries[..|entries|] == entries;
  }

  lemma KeptEmpty()
    ensures Kept([]) == []
  {}

  /** Once the table is full later entries make no difference. */
  lemma {:induction false} FullTable(entries: seq<MapEntry>, k: int, rs: seq<Range>)
    requires 0 <= k <= |entries| && |Kept(AllPieces(entries[..k], rs))| >= MAX_MEM_REGIONS
    ensures Kept(AllPieces(entries, rs)) == Kept(AllPieces(entries[..k], rs))
    decreases |entries|
  {
    hide Kept, Sweep;
    if k == |entries| {
      assert entries[..k] == entries;
    } else {
      var shorter := entries[..|entries| - 1];
      assert shorter[..k] == entries[..k];
      FullTable(shorter, k, rs);
      KeptConcat(AllPieces(shorter, rs), PiecesOf(entries[|entries| - 1], rs));
    }
  }

  // ---------------------------------------------------------------------
  // What is free after boot
  // ---------------------------------------------------------------------

  /** Page aligned, not empty, and ending where 32-bit counters cannot wrap. */
  predicate EntryOk(e: MapEntry)
  {
    e.addr >= 0 && e.addr % 4096 == 0 && e.len >= 4096 && e.len % 4096 == 0 && e.addr + e.len <= 0xFFFF_F000
  }

  /** The whole frame lies in the entry. */
  predicate FrameIn(e: MapEntry, f: int) { e.addr <= f * 4096 && (f + 1) * 4096 <= e.addr + e.len }

  /** Rounding out reserves the frames a range touches; an empty range reserves
      the page it points into, unless it points at a page boundary. */
  predicate Blocks(r: Range, f: int)
  {
    if r.start < r.end then r.start < (f + 1) * 4096 && f * 4096 < r.end
    else r.start % 4096 != 0 && f == r.start / 4096
  }

  lemma RoundOutBlocks(r: Range, f: int)
    requires r.start <= r.end
    ensures Within(RoundOut(r), f * 4096) <==> Blocks(r, f)
  {}

  lemma RoundOutAligned(r: Range)
    ensures RoundOut(r).start % 4096 == 0 && RoundOut(r).end % 4096 == 0
  {}

  /** The pieces of a sweep start at page boundaries, are not empty, and stay in
      bounds. */
  lemma {:induction false} SweepShape(cur: int, end: int, rs: seq<Range>, i: int)
    requires cur % 4096 == 0 && (forall k :: 0 <= k < |rs| ==> rs[k].end % 4096 == 0)
    requires 0 <= i < |Sweep(cur, end, rs)|
    ensures var p := Sweep(cur, end, rs)[i];
            p.start % 4096 == 0 && cur <= p.start < p.end <= end
    decreases |rs|
  {
    if rs == [] || (rs[0].end > cur && rs[0].start >= end) {
    } else if rs[0].end <= cur {
      SweepShape(cur, end, rs[1..], i);
    } else {
      var n := if cur < rs[0].start then 1 else 0;
      if i >= n { SweepShape(rs[0].end, end, rs[1..], i - n); }
    }
  }

  ghost predicate RegionsOk(ps: seq<Range>)
  {
    forall i :: 0 <= i < |ps| ==> ps[i].start % 4096 == 0 && 0 <= ps[i].start < ps[i].end <= 0xFFFF_F000
  }

  lemma {:induction false} PiecesShape(entries: seq<MapEntry>, rs: seq<Range>)
    requires forall k :: 0 <= k < |rs| ==> rs[k].end % 4096 == 0
    requires forall k :: 0 <= k < |entries| ==> EntryOk(entries[k])
    ensures RegionsOk(AllPieces(entries, rs))
  {
    hide Sweep;
    if entries != [] {
      var n := |entries| - 1;
      PiecesShape(entries[..n], rs);
      var ps := PiecesOf(entries[n], rs);
      forall i | 0 <= i < |ps|
        ensures ps[i].start % 4096 == 0 && 0 <= ps[i].start < ps[i].end <= 0xFFFF_F000
      {
        SweepShape(entries[n].addr, LastByte(entries[n]), rs, i);
      }
    }
  }

  /** An address is in some piece exactly when some usable entry has it below its
      last byte and no reserved range has it. */
  lemma {:induction false} PiecesExact(entries: seq<MapEntry>, rs: seq<Range>, x: int)
    requires Sorted(rs) && forall k :: 0 <= k < |entries| ==> EntryOk(entries[k])
    ensures Covered(AllPieces(entries, rs), x) <==>
              !Covered(rs, x) && exists k :: 0 <= k < |entries| && Offers(entries[k], x)
  {
    hide Sweep, Covered;
    if entries == [] {
      assert !Covered([], x) by { CoveredNone(x); }
    } else {
      var n := |entries| - 1;
      PiecesExact(entries[..n], rs, x);
      CoveredConcat(AllPieces(entries[..n], rs), PiecesOf(entries[n], rs), x);
      CoveredNone(x);
      SweepExact(entries[n].addr, LastByte(entries[n]), rs, x);
      assert Covered(PiecesOf(entries[n], rs), x) <==> !Covered(rs, x) && Offers(entries[n], x);
    }
  }

  predicate Offers(e: MapEntry, x: int) { e.Usable() && e.addr <= x < LastByte(e) }

  lemma CoveredNone(x: int)
    ensures !Covered([], x)
  {}

  lemma OffersFrame(e: MapEntry, f: int)
    requires EntryOk(e)
    ensures Offers(e, f * 4096) <==> e.Usable() && FrameIn(e, f)
  {}

  /** Covering does not depend on the order of the ranges. */
  lemma CoveredPermuted(rs: seq<Range>, ts: seq<Range>, x: int)
    requires multiset(rs) == multiset(ts)
    ensures Covered(rs, x) <==> Covered(ts, x)
  {
    if Covered(rs, x) {
      var i :| 0 <= i < |rs| && Within(rs[i], x);
      assert rs[i] in multiset(ts);
      var j :| 0 <= j < |ts| && ts[j] == rs[i];
    }
    if Covered(ts, x) {
      var j :| 0 <= j < |ts| && Within(ts[j], x);
      assert ts[j] in multiset(rs);
      var i :| 0 <= i < |rs| && rs[i] == ts[j];
    }
  }

  /** Frame `f` is ordinary memory that nothing boot left behind occupies. */
  ghost predicate FreeAfterBoot(kernel: Range, modules: seq<Range>, entries: seq<MapEntry>, f: int)
  {
    && f >= 2
    && (exists k :: 0 <= k < |entries| && entries[k].Usable() && FrameIn(entries[k], f))
    && !Blocks(kernel, f)
    && !(exists k :: 0 <= k < |modules| && Blocks(modules[k], f))
  }

  lemma ReservedBlocks(kernel: Range, modules: seq<Range>, f: int)
    requires kernel.start <= kernel.end && |modules| < MAX_RESERVED
    requires forall k :: 0 <= k < |modules| ==> modules[k].start <= modules[k].end
    ensures Covered(Reserved(kernel, modules), f * 4096) <==>
              Blocks(kernel, f) || exists k :: 0 <= k < |modules| && Blocks(modules[k], f)
  {
    hide RoundOut, Blocks;
    var rs := Reserved(kernel, modules);
    forall i | 0 <= i < |rs|
      ensures Within(rs[i], f * 4096) <==> if i == 0 then Blocks(kernel, f) else Blocks(modules[i - 1], f)
    {
      if i == 0 { RoundOutBlocks(kernel, f); } else { RoundOutBlocks(modules[i - 1], f); }
    }
    if Blocks(kernel, f) { assert Within(rs[0], f * 4096); }
    forall k | 0 <= k < |modules| && Blocks(modules[k], f) ensures Covered(rs, f * 4096) {
      assert Within(rs[k + 1], f * 4096);
    }
  }

  /** The pieces hold a frame's first byte exactly when the frame is free. */
  lemma PiecesAreFree(kernel: Range, modules: seq<Range>, entries: seq<MapEntry>, rs: seq<Range>, f: int)
    requires kernel.start <= kernel.end && |modules| < MAX_RESERVED && f >= 2
    requires forall k :: 0 <= k < |modules| ==> modules[k].start <= modules[k].end
    requires forall k :: 0 <= k < |entries| ==> EntryOk(entries[k])
    requires Sorted(rs) && multiset(rs) == multiset(Reserved(kernel, modules))
    ensures Covered(AllPieces(entries, rs), f * 4096) <==> FreeAfterBoot(kernel, modules, entries, f)
  {
    hide Covered, AllPieces, Sorted, Blocks, Reserved, Offers, FrameIn;
    PiecesExact(entries, rs, f * 4096);
    CoveredPermuted(rs, Reserved(kernel, modules), f * 4096);
    ReservedBlocks(kernel, modules, f);
    forall k | 0 <= k < |entries|
      ensures Offers(entries[k], f * 4096) <==> entries[k].Usable() && FrameIn(entries[k], f)
    {
      OffersFrame(entries[k], f);
    }
  }

  lemma ReservedAligned(kernel: Range, modules: seq<Range>, rs: seq<Range>)
    requires multiset(rs) == multiset(Reserved(kernel, modules))
    ensures forall k :: 0 <= k < |rs| ==> rs[k].end % 4096 == 0
  {
    hide RoundOut;
    var ts := Reserved(kernel, modules);
    forall k | 0 <= k < |rs| ensures rs[k].end % 4096 == 0 {
      assert rs[k] in multiset(ts);
      var i :| 0 <= i < |ts| && ts[i] == rs[k];
      RoundOutAligned(if i == 0 then kernel else modules[i - 1]);
    }
  }

  /** The modules the table of reserved ranges has room for. */
  function Heeded(modules: seq<Range>): seq<Range>
  {
    if |modules| < MAX_RESERVED then modules else modules[..MAX_RESERVED - 1]
  }

  lemma ReservedHeeded(kernel: Range, modules: seq<Range>)
    ensures Reserved(kernel, modules) == Reserved(kernel, Heeded(modules))
  {
    hide RoundOut;
  }

  /** From boot information to frame allocator: when the region table suffices, the free
      frames are exactly the usable ones outside the kernel and the first 63 modules; any
      further module is not protected.  An empty result is the panic of
      InitFrameManager. */
  method Boot(kernel: Range, modules: seq<Range>, entries: seq<MapEntry>, fm: FrameManager)
    returns (panic: bool, rs: seq<Range>)
    requires fm.bitmap.Length == WORDS && fm.highest == 0
    requires kernel.start <= kernel.end
    requires forall k :: 0 <= k < |modules| ==> modules[k].start <= modules[k].end
    requires forall k :: 0 <= k < |entries| ==> EntryOk(entries[k])
    modifies fm, fm.bitmap
    ensures Sorted(rs) && multiset(rs) == multiset(Reserved(kernel, modules))
    ensures panic <==> AllPieces(entries, rs) == []
    ensures !panic && |AllPieces(entries, rs)| <= MAX_MEM_REGIONS ==>
              && fm.Valid() && fm.live == {}
              && forall f :: fm.IsFree(f) <==> FreeAfterBoot(kernel, Heeded(modules), entries, f)
  {
    hide Covered, AllPieces, Sorted, FreeAfterBoot, Reserved, RoundOut;
    var regions;
    regions, rs := AddMemoryRegions(kernel, modules, entries);
    ReservedAligned(kernel, modules, rs);
    PiecesShape(entries, rs);
    var list := seq(|regions|,
      i requires 0 <= i < |regions| => Region(regions[i].start, regions[i].end - regions[i].start));
    panic := fm.InitFrameManager(list);
    if !panic && |AllPieces(entries, rs)| <= MAX_MEM_REGIONS {
      ReservedHeeded(kernel, modules);
      var heeded := Heeded(modules);
      forall f ensures fm.IsFree(f) <==> FreeAfterBoot(kernel, heeded, entries, f) {
        RegionsCover(regions, list, f);
        if f >= 2 { PiecesAreFree(kernel, heeded, entries, rs, f); } else { NotBelowTwo(kernel, heeded, entries, f); }
      }
    }
  }

  lemma NotBelowTwo(kernel: Range, modules: seq<Range>, entries: seq<MapEntry>, f: int)
    requires f < 2
    ensures !FreeAfterBoot(kernel, modules, entries, f)
  {}

  lemma RegionsCover(regions: seq<Range>, list: seq<Region>, f: int)
    requires |list| == |regions|
    requires forall i :: 0 <= i < |list| ==> list[i] == Region(regions[i].start, regions[i].end - regions[i].start)
    ensures (exists i :: 0 <= i < |list| && list[i].Covers(f)) <==> Covered(regions, f * 4096)
  {
    forall i | 0 <= i < |list| ensures list[i].Covers(f) <==> Within(regions[i], f * 4096) {}
  }
}
