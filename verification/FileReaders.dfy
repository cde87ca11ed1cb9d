/** The boot manager's file readers: FAT32 (bootmanager/core/fs/fat32/fat32.c), ISO 9660
    (bootmanager/core/fs/iso9660/iso9660.c) and the chunked disk read under them
    (bootmanager/core/storage/diskread.c). */
module FileReaders {
  import Arith64

  /** A file as a stream: which byte positions exist, what they hold, and which sector
      must be read to get them. */
  datatype Stream = Stream(present: int -> bool, byte: int -> int)

  /** `out` is what reading `n` bytes at `c` gives: the bytes of the stream, as many as
      asked for or up to the first that does not exist. */
  ghost predicate Reads(s: Stream, c: nat, n: nat, out: seq<int>)
  {
    && |out| <= n
    && (forall i :: 0 <= i < |out| ==> Matches(s, c + i, out[i]))
    && (|out| < n ==> !s.present(c + |out|))
  }

  predicate Matches(s: Stream, k: int, b: int) { s.present(k) && s.byte(k) == b }

  /** The result of a read is determined. */
  lemma ReadsUnique(s: Stream, c: nat, n: nat, a: seq<int>, b: seq<int>)
    requires Reads(s, c, n, a) && Reads(s, c, n, b)
    ensures a == b
  {
    assert |a| < |b| ==> Matches(s, c + |a|, b[|a|]);
    assert |b| < |a| ==> Matches(s, c + |b|, a[|b|]);
    forall i | 0 <= i < |a| ensures a[i] == b[i] {
      assert Matches(s, c + i, a[i]) && Matches(s, c + i, b[i]);
    }
  }

  /** Reading `n` bytes and then `m` more reads `n + m`. */
  lemma ReadsSplit(s: Stream, c: nat, n: nat, m: nat, a: seq<int>, b: seq<int>)
    requires Reads(s, c, n, a) && Reads(s, c + |a|, m, b)
    ensures Reads(s, c, n + m, a + b)
  {
    assert b != [] ==> Matches(s, c + |a| + 0, b[0]);
    forall i | 0 <= i < |a + b| ensures Matches(s, c + i, (a + b)[i]) {
      if i >= |a| { assert Matches(s, c + |a| + (i - |a|), b[i - |a|]); }
    }
  }

  /** In a stream of `size` bytes a read gives exactly what is left, up to `n`. */
  lemma ReadsLength(s: Stream, c: nat, n: nat, out: seq<int>, size: nat)
    requires Reads(s, c, n, out) && forall k :: 0 <= k ==> (s.present(k) <==> k < size)
    ensures c <= size ==> |out| == if n < size - c then n else size - c
    ensures c >= size ==> out == []
  {
    if out != [] { assert Matches(s, c + (|out| - 1), out[|out| - 1]); }
  }

  /** Appending the next stretch of the stream. */
  ghost predicate Prefix(s: Stream, c: nat, out: seq<int>)
  {
    forall i :: 0 <= i < |out| ==> Matches(s, c + i, out[i])
  }

  lemma PrefixAppend(s: Stream, c: nat, out: seq<int>, more: seq<int>)
    requires Prefix(s, c, out) && forall i :: 0 <= i < |more| ==> Matches(s, c + |out| + i, more[i])
    ensures Prefix(s, c, out + more)
  {
    forall i | 0 <= i < |out + more| ensures Matches(s, c + i, (out + more)[i]) {
      if i >= |out| { assert Matches(s, c + |out| + (i - |out|), more[i - |out|]); }
    }
  }

  // ---------------------------------------------------------------------
  // Disks
  // ---------------------------------------------------------------------

  /** What a one-sector read leaves in the buffer, and the sectors whose read reports
      an error. */
  datatype Disk = Disk(sector: int -> seq<int>, bad: set<int>)

  ghost predicate DiskOk(d: Disk, size: int)
  {
    forall l :: |d.sector(l)| == size
  }

  /** Consecutive sectors. */
  function Sectors(d: Disk, lba: int, n: nat): seq<int>
    decreases n
  {
    if n == 0 then [] else d.sector(lba) + Sectors(d, lba + 1, n - 1)
  }

  lemma {:induction false} SectorsSplit(d: Disk, lba: int, a: nat, b: nat)
    ensures Sectors(d, lba, a + b) == Sectors(d, lba, a) + Sectors(d, lba + a, b)
    decreases a
  {
    if a > 0 {
      SectorsSplit(d, lba + 1, a - 1, b);
      assert a - 1 + b == a + b - 1 && lba + 1 + (a - 1) == lba + a;
    }
  }

  predicate Readable(d: Disk, lba: int, n: int)
  {
    forall l :: lba <= l < lba + n ==> l !in d.bad
  }

  /** The sectors really asked for: below 1 MiB the BIOS packet has 16 bits for the count. */
  function Asked(count: int, addr: int): (n: nat)
  {
    if addr < 0x100000 then count % 0x1_0000 else if count > 0 then count else 0
  }

  /** A read covers what the caller wants if and only if the count fits the packet or is not
      put into one. */
  lemma AskedExactly(count: int, addr: int)
    requires count >= 0
    ensures Asked(count, addr) == count <==> addr >= 0x100000 || count < 0x1_0000
  {}

  /** ReadFromDisk: above 1 MiB the sectors pass through a one-page buffer, a chunk at a
      time, and the result is that of one large read. */
  method ReadFromDisk(d: Disk, sectorSize: int, lba: int, count: int, addr: int) returns (ok: bool, out: seq<int>)
    requires 0 < sectorSize <= 4096
    ensures ok <==> Readable(d, lba, Asked(count, addr))
    ensures ok ==> out == Sectors(d, lba, Asked(count, addr))
  {
    var perChunk := 4096 / sectorSize;
    assert perChunk >= 1 by { AtLeastOne(sectorSize); }
    if addr >= 0x100000 {
      var l, left := lba, count;
      out := [];
      while left > 0
        invariant (count > 0 ==> 0 <= left) && l + left == lba + count && lba <= l
        invariant count <= 0 ==> left == count
        invariant out == Sectors(d, lba, l - lba) && Readable(d, lba, l - lba)
      {
        var chunk := if left > perChunk then perChunk else left;
        var fine := forall k | l <= k < l + chunk :: k !in d.bad;
        if !fine {
          return false, out;
        }
        SectorsSplit(d, lba, l - lba, chunk);
        out := out + Sectors(d, l, chunk);
        l := l + chunk;
        left := left - chunk;
      }
      return true, out;
    } else {
      var sectors := count % 0x1_0000;
      ok := forall k | lba <= k < lba + sectors :: k !in d.bad;
      out := Sectors(d, lba, sectors);
    }
  }

  lemma AtLeastOne(s: int)
    requires 0 < s <= 4096
    ensures 4096 / s >= 1
  {
    Arith64.DivisionUnique(4096, s, 4096 / s, 4096 % s);
  }

  // ---------------------------------------------------------------------
  // FAT32
  // ---------------------------------------------------------------------

  const FAT32_EOF: int := 0x0FFF_FFF8

  datatype Volume = Volume(disk: Disk, lbaStart: int, reserved: int, nFats: int, sectorsPerFat: int, perCluster: int)

  function U32(x: int): int { x % 0x1_0000_0000 }

  function FindFAT(v: Volume): int { U32(v.lbaStart + v.reserved) }
  function FindDataStart(v: Volume): int { U32(FindFAT(v) + v.nFats * v.sectorsPerFat) }
  function ClusterToLBA(v: Volume, c: int): int { U32(FindDataStart(v) + (c - 2) * v.perCluster) }

  function ByteIn(sector: seq<int>, i: int): int { if 0 <= i < |sector| then sector[i] else 0 }

  /** ReadFAT32Entry: the little-endian 28-bit entry of a cluster. */
  function ReadFAT32Entry(v: Volume, cluster: int): int
  {
    var offset := U32(cluster * 4);
    var sector := v.disk.sector(U32(FindFAT(v) + offset / 512));
    var o := offset % 512;
    (ByteIn(sector, o) + 0x100 * ByteIn(sector, o + 1) + 0x1_0000 * ByteIn(sector, o + 2)
     + 0x100_0000 * ByteIn(sector, o + 3)) % 0x1000_0000
  }

  /** The cluster reached after `i` steps along the chain; past the end it stays. */
  function Follow(v: Volume, first: int, i: nat): int
  {
    if i == 0 then first
    else
      var c := Follow(v, first, i - 1);
      if i > 1 && c >= FAT32_EOF then c else ReadFAT32Entry(v, c)
  }

  function BytesPerCluster(v: Volume): int { v.perCluster * 512 }

  /** Which cluster of the chain a file position is in, and where in that cluster. */
  function ClusterIndex(k: nat, bytes: int): nat
    requires bytes > 0
  {
    Arith64.QuotientBound(k, bytes);
    k / bytes
  }

  function ClusterOffset(k: nat, bytes: int): int
    requires bytes > 0
  {
    k % bytes
  }

  function SectorOf(v: Volume, first: int, k: nat): int
    requires v.perCluster > 0
  {
    U32(ClusterToLBA(v, Follow(v, first, ClusterIndex(k, BytesPerCluster(v)))) +
      ClusterOffset(k, BytesPerCluster(v)) / 512)
  }

  /** The file: its clusters one after another, in chain order. */
  function FatStream(v: Volume, first: int): Stream
    requires v.perCluster > 0
  {
    Stream(k => k >= 0 && Follow(v, first, ClusterIndex(k, BytesPerCluster(v))) < FAT32_EOF,
           k => if k < 0 then 0
                else ByteIn(v.disk.sector(SectorOf(v, first, k)), ClusterOffset(k, BytesPerCluster(v)) % 512))
  }

  class File {
    const first: int
    var cursor: nat

    constructor (first: int)
      ensures this.first == first && cursor == 0
    {
      this.first := first;
      cursor := 0;
    }
  }

  /** Byte `o` of sector `s` of the `ci`-th cluster is byte `ci * b + s * 512 + o` of the file. */
  lemma BytePlace(per: int, ci: nat, s: int, o: int)
    requires per > 0 && 0 <= s < per && 0 <= o < 512
    ensures var k := ci * (per * 512) + s * 512 + o;
            && k >= 0 && ClusterIndex(k, per * 512) == ci && ClusterOffset(k, per * 512) == s * 512 + o
            && (s * 512 + o) / 512 == s && (s * 512 + o) % 512 == o
  {
    Arith64.DivisionUnique(ci * (per * 512) + (s * 512 + o), per * 512, ci, s * 512 + o);
    Arith64.MulMono(0, ci, per * 512);
  }

  /** Byte `k` exists, is `b`, and its sector can be read. */
  ghost predicate GoodByte(v: Volume, first: int, k: int, b: int)
    requires v.perCluster > 0
  {
    k >= 0 && Matches(FatStream(v, first), k, b) && SectorOf(v, first, k) !in v.disk.bad
  }

  /** `out` is the file from `c` on, all of it read without error. */
  ghost predicate FatBytes(v: Volume, first: int, c: int, out: seq<int>)
    requires v.perCluster > 0
  {
    forall i :: 0 <= i < |out| ==> GoodByte(v, first, c + i, out[i])
  }

  lemma FatAppend(v: Volume, first: int, c: int, a: seq<int>, b: seq<int>)
    requires v.perCluster > 0 && FatBytes(v, first, c, a) && FatBytes(v, first, c + |a|, b)
    ensures FatBytes(v, first, c, a + b)
  {
    hide GoodByte;
    forall i | 0 <= i < |a + b| ensures GoodByte(v, first, c + i, (a + b)[i]) {
      if i >= |a| { assert GoodByte(v, first, c + |a| + (i - |a|), b[i - |a|]); }
    }
  }

  /** One copy out of one sector. */
  lemma SectorCopy(v: Volume, first: int, ci: nat, s: int, o: int, chunk: seq<int>)
    requires v.perCluster > 0 && DiskOk(v.disk, 512) && Follow(v, first, ci) < FAT32_EOF
    requires 0 <= s < v.perCluster && 0 <= o && o + |chunk| <= 512
    requires var lba := U32(ClusterToLBA(v, Follow(v, first, ci)) + s);
             lba !in v.disk.bad && |v.disk.sector(lba)| == 512 && chunk == v.disk.sector(lba)[o..o + |chunk|]
    ensures FatBytes(v, first, ci * BytesPerCluster(v) + s * 512 + o, chunk)
  {
    hide Follow, ClusterToLBA, U32, ClusterIndex, ClusterOffset;
    var k := ci * BytesPerCluster(v) + s * 512 + o;
    forall i | 0 <= i < |chunk| ensures GoodByte(v, first, k + i, chunk[i]) {
      BytePlace(v.perCluster, ci, s, o + i);
      assert k + i == ci * (v.perCluster * 512) + s * 512 + (o + i);
    }
  }

  /** The next byte wanted exists but its sector cannot be read. */
  ghost predicate Unreadable(v: Volume, first: int, k: int)
    requires v.perCluster > 0
  {
    k >= 0 && FatStream(v, first).present(k) && SectorOf(v, first, k) in v.disk.bad
  }

  /** The loop over the sectors of one cluster. */
  method ReadCluster(v: Volume, first: int, ghost ci: nat, cluster: int, cursor: nat, n: nat)
    returns (ok: bool, out: seq<int>)
    requires v.perCluster > 0 && DiskOk(v.disk, 512)
    requires cluster == Follow(v, first, ci) < FAT32_EOF && ClusterIndex(cursor, BytesPerCluster(v)) == ci
    ensures |out| <= n && FatBytes(v, first, cursor, out)
    ensures !ok ==> |out| < n && Unreadable(v, first, cursor + |out|)
    ensures ok && |out| < n ==> cursor + |out| == (ci + 1) * BytesPerCluster(v)
    ensures ok && n > 0 ==> out != []
  {
    hide Follow, ClusterToLBA, U32, FatStream, GoodByte, Unreadable, FatBytes;
    var lba := ClusterToLBA(v, cluster);
    var inCluster := ClusterOffset(cursor, BytesPerCluster(v));
    SplitPlace(cursor, v.perCluster);
    var s, o := inCluster / 512, inCluster % 512;
    out := [];
    FatEmpty(v, first, cursor);
    while s < v.perCluster && |out| < n
      invariant 0 <= s <= v.perCluster && 0 <= o < 512 && |out| <= n && FatBytes(v, first, cursor, out)
      invariant |out| < n ==> cursor + |out| == ci * BytesPerCluster(v) + s * 512 + o && (s == v.perCluster ==> o == 0)
    {
      var at := U32(lba + s);
      if at in v.disk.bad {
        SectorBad(v, first, ci, s, o);
        return false, out;
      }
      var sector := v.disk.sector(at);
      var toCopy := if n - |out| < 512 - o then n - |out| else 512 - o;
      var chunk := sector[o..o + toCopy];
      SectorCopy(v, first, ci, s, o, chunk);
      FatAppend(v, first, cursor, out, chunk);
      out := out + chunk;
      s, o := s + 1, 0;
    }
    assert |out| < n ==> ci * BytesPerCluster(v) + BytesPerCluster(v) == (ci + 1) * BytesPerCluster(v);
    return true, out;
  }

  lemma FatEmpty(v: Volume, first: int, c: int)
    requires v.perCluster > 0
    ensures FatBytes(v, first, c, [])
  {}

  lemma SplitPlace(cursor: nat, per: int)
    requires per > 0
    ensures var b := per * 512;
            var o := ClusterOffset(cursor, b);
            0 <= o < b && cursor == ClusterIndex(cursor, b) * b + o && 0 <= o / 512 < per &&
              o == o / 512 * 512 + o % 512
  {
    var b := per * 512;
    Arith64.DivisionEquation(cursor, b);
  }

  lemma SectorBad(v: Volume, first: int, ci: nat, s: int, o: int)
    requires v.perCluster > 0 && Follow(v, first, ci) < FAT32_EOF && 0 <= s < v.perCluster && 0 <= o < 512
    requires U32(ClusterToLBA(v, Follow(v, first, ci)) + s) in v.disk.bad
    ensures Unreadable(v, first, ci * BytesPerCluster(v) + s * 512 + o)
  {
    hide Follow, ClusterToLBA, U32, ClusterIndex, ClusterOffset;
    BytePlace(v.perCluster, ci, s, o);
  }

  lemma ExistsIs(v: Volume, first: int, k: nat)
    requires v.perCluster > 0
    ensures FatStream(v, first).present(k) <==> Follow(v, first, ClusterIndex(k, BytesPerCluster(v))) < FAT32_EOF
  {}

  /** Past the end of the chain there is nothing more. */
  lemma {:induction false} ChainStays(v: Volume, first: int, i: nat, j: nat)
    requires 0 < i <= j && Follow(v, first, i) >= FAT32_EOF
    ensures Follow(v, first, j) >= FAT32_EOF
  {
    if i < j { ChainStays(v, first, i, j - 1); }
  }

  lemma FatReads(v: Volume, first: int, c: nat, n: nat, out: seq<int>)
    requires v.perCluster > 0 && FatBytes(v, first, c, out) && |out| <= n
    requires |out| < n ==> !FatStream(v, first).present(c + |out|)
    ensures Reads(FatStream(v, first), c, n, out)
  {
    hide FatStream, SectorOf;
    forall i | 0 <= i < |out| ensures Matches(FatStream(v, first), c + i, out[i]) {
      assert GoodByte(v, first, c + i, out[i]);
    }
  }

  /** ReadFile_FAT32.  A result of -1 means that a sector needed could not be read. */
  method ReadFileFAT32(v: Volume, f: File, n: nat) returns (r: int, out: seq<int>)
    requires v.perCluster > 0 && DiskOk(v.disk, 512)
    modifies f
    ensures f.cursor == old(f.cursor) + |out|
    ensures FatBytes(v, f.first, old(f.cursor), out) && |out| <= n
    ensures r >= 0 ==> r == |out| && Reads(FatStream(v, f.first), old(f.cursor), n, out)
    ensures r < 0 ==>
              r == -1 && (v.lbaStart in v.disk.bad || (|out| < n && Unreadable(v, f.first, f.cursor)))
  {
    hide Follow, FatStream, GoodByte, Unreadable, FatBytes, Reads, ReadFAT32Entry, ClusterIndex;
    var c, first, bytes := f.cursor, f.first, BytesPerCluster(v);
    out := [];
    FatEmpty(v, first, c);
    if v.lbaStart in v.disk.bad {
      return -1, out;
    }
    var cluster, skip := first, ClusterIndex(c, bytes);
    assert cluster == Follow(v, first, 0) by { FollowStart(v, first); }
    var i := 0;
    while i < skip
      invariant 0 <= i <= skip && cluster == Follow(v, first, i) && (i > 0 ==> cluster < FAT32_EOF)
      modifies {}
    {
      FollowNext(v, first, i);
      cluster := ReadFAT32Entry(v, cluster);
      if cluster >= FAT32_EOF {
        ChainStays(v, first, i + 1, skip);
        ExistsIs(v, first, c);
        FatReads(v, first, c, n, out);
        return 0, out;
      }
      i := i + 1;
    }
    ghost var ci := skip;
    while |out| < n && cluster < FAT32_EOF
      invariant |out| <= n && FatBytes(v, first, c, out) && f.cursor == c + |out|
      invariant |out| < n ==> cluster == Follow(v, first, ci) && ClusterIndex(f.cursor, bytes) == ci
      decreases n - |out|
    {
      var ok, more := ReadCluster(v, first, ci, cluster, f.cursor, n - |out|);
      FatAppend(v, first, c, out, more);
      out := out + more;
      f.cursor := f.cursor + |more|;
      if !ok {
        return -1, out;
      }
      FollowNext(v, first, ci);
      BytePlace(v.perCluster, ci + 1, 0, 0);
      cluster := ReadFAT32Entry(v, cluster);
      ci := ci + 1;
    }
    if |out| < n { ExistsIs(v, first, f.cursor); }
    FatReads(v, first, c, n, out);
    return |out|, out;
  }

  lemma FollowStart(v: Volume, first: int)
    ensures Follow(v, first, 0) == first
  {}

  lemma FollowNext(v: Volume, first: int, i: nat)
    requires i > 0 ==> Follow(v, first, i) < FAT32_EOF
    ensures Follow(v, first, i + 1) == ReadFAT32Entry(v, Follow(v, first, i))
  {}

  // ---------------------------------------------------------------------
  // The file as its clusters in a row
  // ---------------------------------------------------------------------

  /** A chain of `n` clusters. */
  ghost predicate Chain(v: Volume, first: int, n: nat)
  {
    n > 0 && Follow(v, first, n) >= FAT32_EOF && forall i: nat :: i < n ==> Follow(v, first, i) < FAT32_EOF
  }

  function ClusterData(v: Volume, cluster: int): (d: seq<int>)
    requires v.perCluster > 0
    ensures |d| == BytesPerCluster(v)
  {
    seq(BytesPerCluster(v), o requires 0 <= o < BytesPerCluster(v) =>
      ByteIn(v.disk.sector(U32(ClusterToLBA(v, cluster) + o / 512)), o % 512))
  }

  function ChainData(v: Volume, first: int, n: nat): (d: seq<int>)
    requires v.perCluster > 0
    ensures |d| == n * BytesPerCluster(v)
  {
    if n == 0 then []
    else
      assert (n - 1) * BytesPerCluster(v) + BytesPerCluster(v) == n * BytesPerCluster(v);
      ChainData(v, first, n - 1) + ClusterData(v, Follow(v, first, n - 1))
  }

  /** The stream of a file is its clusters concatenated, and ends with them. */
  lemma {:induction false} StreamIsChain(v: Volume, first: int, n: nat, k: nat)
    requires v.perCluster > 0 && k < n * BytesPerCluster(v)
    ensures FatStream(v, first).byte(k) == ChainData(v, first, n)[k]
  {
    hide Follow, FatStream, ClusterData, ClusterIndex, ClusterOffset;
    var b := BytesPerCluster(v);
    assert n != 0;
    assert (n - 1) * b + b == n * b;
    if k < (n - 1) * b {
      StreamIsChain(v, first, n - 1, k);
    } else {
      var o := k - (n - 1) * b;
      InCluster(v, first, n - 1, k, o);
    }
  }

  lemma InCluster(v: Volume, first: int, i: nat, k: nat, o: int)
    requires v.perCluster > 0 && k == i * BytesPerCluster(v) + o && 0 <= o < BytesPerCluster(v)
    ensures FatStream(v, first).byte(k) == ClusterData(v, Follow(v, first, i))[o]
  {
    var b := BytesPerCluster(v);
    Arith64.DivisionUnique(k, b, i, o);
    assert ClusterIndex(k, b) == i && ClusterOffset(k, b) == o;
    hide Follow, ClusterToLBA, U32, ByteIn, ClusterIndex, ClusterOffset;
    assert k >= 0;
    assert SectorOf(v, first, k) == U32(ClusterToLBA(v, Follow(v, first, i)) + o / 512);
    assert FatStream(v, first).byte(k) == ByteIn(v.disk.sector(SectorOf(v, first, k)), o % 512);
  }

  lemma ChainExtent(v: Volume, first: int, n: nat, k: nat)
    requires v.perCluster > 0 && Chain(v, first, n)
    ensures FatStream(v, first).present(k) <==> k < n * BytesPerCluster(v)
  {
    hide Follow;
    var b := BytesPerCluster(v);
    var i := ClusterIndex(k, b);
    Arith64.DivisionEquation(k, b);
    ExistsIs(v, first, k);
    if i < n {
      Arith64.MulMono(i + 1, n, b);
    } else {
      Arith64.MulMono(n, i, b);
      ChainStays(v, first, n, i);
    }
  }

  /** A read at `c` in a chain of `count` clusters gives `n` bytes or all that are left:
      that slice of the concatenated clusters. */
  lemma ChainSlice(v: Volume, first: int, count: nat, c: nat, n: nat, out: seq<int>)
    requires v.perCluster > 0 && Chain(v, first, count) && Reads(FatStream(v, first), c, n, out)
    requires c <= count * BytesPerCluster(v)
    ensures var left := count * BytesPerCluster(v) - c;
            && |out| == (if n < left then n else left)
            && out == ChainData(v, first, count)[c..c + |out|]
  {
    hide FatStream, ChainData, Chain;
    var s, size := FatStream(v, first), count * BytesPerCluster(v);
    forall k | 0 <= k ensures s.present(k) <==> k < size { ChainExtent(v, first, count, k); }
    ReadsLength(s, c, n, out, size);
    forall i | 0 <= i < |out| ensures out[i] == ChainData(v, first, count)[c..c + |out|][i] {
      assert Matches(s, c + i, out[i]);
      StreamIsChain(v, first, count, c + i);
    }
  }

  // ---------------------------------------------------------------------
  // Where FAT32 keeps a file
  // ---------------------------------------------------------------------

  /** A volume with `clusters` clusters whose sector numbers fit 32 bits and whose FAT has an
      entry for every cluster. */
  ghost predicate Laid(v: Volume, clusters: nat)
  {
    && DiskOk(v.disk, 512) && v.perCluster > 0 && 0 <= v.lbaStart && 0 <= v.reserved && 1 <= v.nFats
    && 0 <= v.sectorsPerFat && clusters <= 0x0FFF_FFF5 && 4 * (clusters + 2) <= v.sectorsPerFat * 512
    && DataSector(v) + clusters * v.perCluster <= 0x1_0000_0000
  }

  /** The first FAT follows the reserved sectors. */
  function FatArea(v: Volume): seq<int>
    requires v.sectorsPerFat >= 0
  {
    Sectors(v.disk, v.lbaStart + v.reserved, v.sectorsPerFat)
  }

  /** The data area follows the last FAT. */
  function DataSector(v: Volume): int { v.lbaStart + v.reserved + v.nFats * v.sectorsPerFat }

  function DataArea(v: Volume, clusters: nat): seq<int>
    requires v.perCluster >= 0
  {
    Sectors(v.disk, DataSector(v), clusters * v.perCluster)
  }

  function LittleEndian(e: int): seq<int> { [e % 0x100, e / 0x100 % 0x100, e / 0x1_0000 % 0x100, e / 0x100_0000] }

  /** Entry `c` of the FAT is the word `e`. */
  ghost predicate Word(v: Volume, c: int, e: int)
    requires v.sectorsPerFat >= 0
  {
    0 <= e < 0x1_0000_0000 && 0 <= c && 4 * c + 4 <= |FatArea(v)| && FatArea(v)[4 * c..4 * c + 4] == LittleEndian(e)
  }

  /** The top four bits of an entry mean nothing. */
  ghost predicate Links(v: Volume, c: int, next: int)
    requires v.sectorsPerFat >= 0
  {
    exists e :: Word(v, c, e) && next == e % 0x1000_0000
  }

  predicate InVolume(c: int, clusters: nat) { 2 <= c < clusters + 2 }

  ghost predicate LinkedAt(v: Volume, cs: seq<int>, i: int)
    requires v.sectorsPerFat >= 0 && 0 < i < |cs|
  {
    Links(v, cs[i - 1], cs[i])
  }

  ghost predicate LastLink(v: Volume, c: int)
    requires v.sectorsPerFat >= 0
  {
    exists end :: end >= FAT32_EOF && Links(v, c, end)
  }

  /** The clusters of a file, as the FAT links them. */
  ghost predicate FileChain(v: Volume, clusters: nat, cs: seq<int>)
    requires v.sectorsPerFat >= 0
  {
    && cs != [] && (forall i :: 0 <= i < |cs| ==> InVolume(cs[i], clusters))
    && (forall i :: 0 < i < |cs| ==> LinkedAt(v, cs, i))
    && LastLink(v, cs[|cs| - 1])
  }

  /** Cluster 2 comes first in the data area. */
  ghost function Content(v: Volume, clusters: nat, cs: seq<int>): (d: seq<int>)
    requires Laid(v, clusters) && forall i :: 0 <= i < |cs| ==> InVolume(cs[i], clusters)
  {
    if cs == [] then []
    else
      var c, b := cs[|cs| - 1], BytesPerCluster(v);
      AreaSlice(v, clusters, c);
      Content(v, clusters, cs[..|cs| - 1]) + DataArea(v, clusters)[(c - 2) * b..(c - 1) * b]
  }

  lemma {:induction false} SectorsAt(d: Disk, lba: int, n: nat, k: nat)
    requires DiskOk(d, 512)
    ensures |Sectors(d, lba, n)| == n * 512
    ensures k < n * 512 ==> Sectors(d, lba, n)[k] == ByteIn(d.sector(lba + k / 512), k % 512)
    decreases n
  {
    assert |d.sector(lba)| == 512;
    if n > 0 {
      SectorsAt(d, lba + 1, n - 1, if k >= 512 then k - 512 else 0);
    }
  }

  lemma AreaSlice(v: Volume, clusters: nat, c: int)
    requires Laid(v, clusters) && InVolume(c, clusters)
    ensures var b := BytesPerCluster(v);
            0 <= (c - 2) * b && (c - 2) * b + b == (c - 1) * b <= |DataArea(v, clusters)| == clusters * b
  {
    SectorsAt(v.disk, DataSector(v), clusters * v.perCluster, 0);
    Stretch(c, v.perCluster, clusters);
    hide Laid, Sectors;
  }

  lemma Stretch(c: int, per: int, clusters: int)
    requires 2 <= c < clusters + 2 && 0 < per
    ensures 0 <= (c - 2) * per && (c - 2) * per + per == (c - 1) * per <= clusters * per
    ensures 0 <= (c - 2) * (per * 512) && (c - 2) * (per * 512) + per * 512 == (c - 1) * (per * 512)
    ensures (c - 1) * (per * 512) <= clusters * per * 512 == clusters * (per * 512)
  {
    Arith64.MulMono(c - 1, clusters, per);
    Arith64.MulMono(0, c - 2, per);
  }

  lemma Small(x: int)
    requires 0 <= x < 0x1_0000_0000
    ensures U32(x) == x
  {}

  /** The sectors of a cluster in a volume whose numbers do not wrap. */
  lemma ClusterSectors(v: Volume, clusters: nat, c: int, s: int)
    requires Laid(v, clusters) && InVolume(c, clusters) && 0 <= s < v.perCluster
    ensures U32(ClusterToLBA(v, c) + s) == DataSector(v) + (c - 2) * v.perCluster + s
    ensures FindFAT(v) == v.lbaStart + v.reserved
  {
    hide U32;
    var per := v.perCluster;
    Stretch(c, per, clusters);
    Arith64.MulMono(0, v.nFats, v.sectorsPerFat);
    Small(v.lbaStart + v.reserved);
    Small(DataSector(v));
    Small(DataSector(v) + (c - 2) * per);
    Small(DataSector(v) + (c - 2) * per + s);
  }

  /** A cluster is its own stretch of the data area, which starts with cluster 2. */
  lemma ClusterIsSlice(v: Volume, clusters: nat, c: int)
    requires Laid(v, clusters) && InVolume(c, clusters)
    ensures var b := BytesPerCluster(v);
            0 <= (c - 2) * b <= (c - 1) * b <= |DataArea(v, clusters)| &&
              ClusterData(v, c) == DataArea(v, clusters)[(c - 2) * b..(c - 1) * b]
  {
    var b := BytesPerCluster(v);
    var slice;
    AreaSlice(v, clusters, c);
    slice := DataArea(v, clusters)[(c - 2) * b..(c - 1) * b];
    forall o | 0 <= o < b ensures ClusterData(v, c)[o] == slice[o] { ClusterByte(v, clusters, c, o); }
  }

  lemma ClusterByte(v: Volume, clusters: nat, c: int, o: int)
    requires Laid(v, clusters) && InVolume(c, clusters) && 0 <= o < BytesPerCluster(v)
    requires var b := BytesPerCluster(v); 0 <= (c - 2) * b && (c - 2) * b + b <= |DataArea(v, clusters)| == clusters * b
    ensures ClusterData(v, c)[o] == DataArea(v, clusters)[(c - 2) * BytesPerCluster(v) + o]
  {
    hide U32, ClusterToLBA, Sectors, DataSector, ByteIn;
    var a, n := (c - 2) * v.perCluster, clusters * v.perCluster;
    Spot(c, v.perCluster, clusters, o);
    ClusterSectors(v, clusters, c, o / 512);
    SectorsAt(v.disk, DataSector(v), n, a * 512 + o);
    hide Laid;
    assert DataArea(v, clusters)[a * 512 + o] == ByteIn(v.disk.sector(DataSector(v) + (a + o / 512)), o % 512);
    assert ClusterData(v, c)[o] == ByteIn(v.disk.sector(U32(ClusterToLBA(v, c) + o / 512)), o % 512);
  }

  /** Byte `o` of cluster `c`, counted from the start of the data area. */
  lemma Spot(c: int, per: int, clusters: int, o: int)
    requires 2 <= c < clusters + 2 && 0 < per && 0 <= o < per * 512
    ensures var k := (c - 2) * per * 512 + o;
            && k == (c - 2) * (per * 512) + o && 0 <= k < clusters * per * 512
            && k / 512 == (c - 2) * per + o / 512 && k % 512 == o % 512
  {
    InArea((c - 2) * per, o);
    Stretch(c, per, clusters);
  }

  lemma InArea(a: int, o: int)
    ensures (a * 512 + o) / 512 == a + o / 512 && (a * 512 + o) % 512 == o % 512
  {}

  /** A four-byte little-endian word, read back. */
  lemma WordOf(e: int, b: seq<int>)
    requires 0 <= e < 0x1_0000_0000 && b == LittleEndian(e)
    ensures b[0] + 0x100 * b[1] + 0x1_0000 * b[2] + 0x100_0000 * b[3] == e
  {
    var q, r := e / 0x100, e / 0x1_0000;
    TwoBytes(e);
    TwoBytes(r);
    assert r / 0x100 == e / 0x100_0000;
  }

  lemma TwoBytes(e: int)
    requires e >= 0
    ensures e == e % 0x100 + 0x100 * (e / 0x100 % 0x100) + 0x1_0000 * (e / 0x1_0000)
  {
    assert e / 0x100 / 0x100 == e / 0x1_0000;
  }

  /** The entry read for a cluster is the one the FAT holds, without its top four bits. */
  lemma EntryIsLink(v: Volume, clusters: nat, c: int, next: int)
    requires Laid(v, clusters) && InVolume(c, clusters) && Links(v, c, next)
    ensures ReadFAT32Entry(v, c) == next
  {
    var e :| Word(v, c, e) && next == e % 0x1000_0000;
    var b, sector, o := FatArea(v)[4 * c..4 * c + 4], v.disk.sector(v.lbaStart + v.reserved + 4 * c / 512), 4 * c % 512;
    FatSector(v, clusters, c);
    FatByte(v, clusters, c, 0);
    FatByte(v, clusters, c, 1);
    FatByte(v, clusters, c, 2);
    FatByte(v, clusters, c, 3);
    WordOf(e, b);
    hide Laid, FatArea, LittleEndian, U32, FindFAT, ByteIn;
    assert ReadFAT32Entry(v, c) ==
           (ByteIn(sector, o) + 0x100 * ByteIn(sector, o + 1) + 0x1_0000 * ByteIn(sector, o + 2)
            + 0x100_0000 * ByteIn(sector, o + 3)) % 0x1000_0000;
  }

  lemma FatByte(v: Volume, clusters: nat, c: int, j: int)
    requires Laid(v, clusters) && 0 <= c && 4 * c + 4 <= |FatArea(v)| && 0 <= j < 4
    ensures FatArea(v)[4 * c..4 * c + 4][j] ==
            ByteIn(v.disk.sector(v.lbaStart + v.reserved + 4 * c / 512), 4 * c % 512 + j)
  {
    SectorsAt(v.disk, v.lbaStart + v.reserved, v.sectorsPerFat, 4 * c + j);
    InWord(c, j);
    hide Sectors, ByteIn, Laid;
  }

  lemma InWord(c: int, j: int)
    requires 0 <= c && 0 <= j < 4
    ensures (4 * c + j) / 512 == 4 * c / 512 && (4 * c + j) % 512 == 4 * c % 512 + j
  {}

  lemma FatSector(v: Volume, clusters: nat, c: int)
    requires Laid(v, clusters) && InVolume(c, clusters)
    ensures U32(c * 4) == 4 * c && U32(FindFAT(v) + 4 * c / 512) == v.lbaStart + v.reserved + 4 * c / 512
  {
    hide U32;
    ClusterSectors(v, clusters, c, 0);
    Arith64.MulMono(1, v.nFats, v.sectorsPerFat);
    Arith64.MulMono(0, clusters, v.perCluster);
    Small(c * 4);
    Small(v.lbaStart + v.reserved + 4 * c / 512);
  }

  /** Following the chain visits the clusters the FAT links, and stops where it does. */
  lemma {:induction false} FollowsLinks(v: Volume, clusters: nat, cs: seq<int>, i: nat)
    requires Laid(v, clusters) && FileChain(v, clusters, cs) && i <= |cs|
    ensures i < |cs| ==> Follow(v, cs[0], i) == cs[i] && cs[i] < FAT32_EOF
    ensures i == |cs| ==> Follow(v, cs[0], i) >= FAT32_EOF
  {
    hide ReadFAT32Entry, Links;
    if i > 0 {
      FollowsLinks(v, clusters, cs, i - 1);
      assert InVolume(cs[i - 1], clusters);
      if i < |cs| {
        assert LinkedAt(v, cs, i);
        EntryIsLink(v, clusters, cs[i - 1], cs[i]);
        assert InVolume(cs[i], clusters);
      } else {
        var end :| end >= FAT32_EOF && Links(v, cs[i - 1], end);
        EntryIsLink(v, clusters, cs[i - 1], end);
      }
    }
    ChainLimit(v, clusters);
  }

  lemma ChainLimit(v: Volume, clusters: nat)
    requires Laid(v, clusters)
    ensures forall c :: InVolume(c, clusters) ==> c < FAT32_EOF
  {}

  lemma {:induction false} ContentIsChain(v: Volume, clusters: nat, cs: seq<int>, n: nat)
    requires Laid(v, clusters) && FileChain(v, clusters, cs) && n <= |cs|
    ensures ChainData(v, cs[0], n) == Content(v, clusters, cs[..n])
  {
    hide Follow, ClusterData, DataArea, FileChain;
    if n > 0 {
      ContentIsChain(v, clusters, cs, n - 1);
      FollowsLinks(v, clusters, cs, n - 1);
      ChainMember(v, clusters, cs, n - 1);
      ClusterIsSlice(v, clusters, cs[n - 1]);
      assert cs[..n][..n - 1] == cs[..n - 1] && cs[..n][n - 1] == cs[n - 1];
    }
  }

  lemma ChainMember(v: Volume, clusters: nat, cs: seq<int>, i: nat)
    requires v.sectorsPerFat >= 0 && FileChain(v, clusters, cs) && i < |cs|
    ensures InVolume(cs[i], clusters)
  {}

  /** The chain the code follows is the file's. */
  lemma ChainIsFile(v: Volume, clusters: nat, cs: seq<int>)
    requires Laid(v, clusters) && FileChain(v, clusters, cs)
    ensures Chain(v, cs[0], |cs|) && ChainData(v, cs[0], |cs|) == Content(v, clusters, cs)
    ensures |Content(v, clusters, cs)| == |cs| * BytesPerCluster(v)
  {
    hide Follow, Content, ChainData, Links;
    FollowsLinks(v, clusters, cs, |cs|);
    forall i: nat | i < |cs| ensures Follow(v, cs[0], i) < FAT32_EOF { FollowsLinks(v, clusters, cs, i); }
    ContentIsChain(v, clusters, cs, |cs|);
    assert cs[..|cs|] == cs;
  }

  /** A read in a file whose clusters are `cs` gives `n` bytes or all that are left: that slice
      of those clusters, as they lie in the data area. */
  lemma ReadIsSlice(v: Volume, clusters: nat, cs: seq<int>, c: nat, n: nat, out: seq<int>)
    requires Laid(v, clusters) && FileChain(v, clusters, cs) && c <= |cs| * BytesPerCluster(v)
    requires Reads(FatStream(v, cs[0]), c, n, out)
    ensures var left := |cs| * BytesPerCluster(v) - c;
            && |out| == (if n < left then n else left)
            && |Content(v, clusters, cs)| == c + left
            && out == Content(v, clusters, cs)[c..c + |out|]
  {
    assert cs != [];
    hide FileChain, FatStream, Reads, Content, ChainData, Chain;
    ChainIsFile(v, clusters, cs);
    ChainSlice(v, cs[0], |cs|, c, n, out);
  }

  /** Where byte `k` of a file with clusters `cs` lies. */
  function FileSector(v: Volume, cs: seq<int>, k: nat): int
    requires v.perCluster > 0 && ClusterIndex(k, BytesPerCluster(v)) < |cs|
  {
    DataSector(v) + (cs[ClusterIndex(k, BytesPerCluster(v))] - 2) * v.perCluster +
      ClusterOffset(k, BytesPerCluster(v)) / 512
  }

  lemma SectorPlace(v: Volume, clusters: nat, cs: seq<int>, k: nat)
    requires Laid(v, clusters) && FileChain(v, clusters, cs) && k < |cs| * BytesPerCluster(v)
    ensures ClusterIndex(k, BytesPerCluster(v)) < |cs| && SectorOf(v, cs[0], k) == FileSector(v, cs, k)
  {
    hide FileChain, Follow, U32, ClusterToLBA;
    var b := BytesPerCluster(v);
    Arith64.DivisionEquation(k, b);
    Arith64.QuotientBound(k, b);
    var i := k / b;
    if i >= |cs| { Arith64.MulMono(|cs|, i, b); }
    FollowsLinks(v, clusters, cs, i);
    ChainMember(v, clusters, cs, i);
    ClusterSectors(v, clusters, cs[i], k % b / 512);
  }

  /** A read that fails has given the bytes of the file up to the sector that cannot be read. */
  lemma FailsAtSector(v: Volume, clusters: nat, cs: seq<int>, c: nat, out: seq<int>)
    requires Laid(v, clusters) && FileChain(v, clusters, cs)
    requires FatBytes(v, cs[0], c, out) && Unreadable(v, cs[0], c + |out|)
    ensures c + |out| < |Content(v, clusters, cs)| == |cs| * BytesPerCluster(v)
    ensures out == Content(v, clusters, cs)[c..c + |out|]
    ensures ClusterIndex(c + |out|, BytesPerCluster(v)) < |cs| && FileSector(v, cs, c + |out|) in v.disk.bad
  {
    assert cs != [];
    hide FileChain, Content, ChainData, Chain, FatStream, SectorOf, FatBytes, FileSector, ClusterIndex;
    ChainIsFile(v, clusters, cs);
    ChainExtent(v, cs[0], |cs|, c + |out|);
    SectorPlace(v, clusters, cs, c + |out|);
    ChainBytes(v, cs[0], |cs|, c, out);
  }

  lemma ChainBytes(v: Volume, first: int, count: nat, c: nat, out: seq<int>)
    requires v.perCluster > 0 && FatBytes(v, first, c, out) && c + |out| <= count * BytesPerCluster(v)
    ensures out == ChainData(v, first, count)[c..c + |out|]
  {
    hide FatStream, ChainData, SectorOf;
    forall i | 0 <= i < |out| ensures out[i] == ChainData(v, first, count)[c..c + |out|][i] {
      assert GoodByte(v, first, c + i, out[i]);
      StreamIsChain(v, first, count, c + i);
    }
  }

  // ---------------------------------------------------------------------
  // ISO 9660
  // ---------------------------------------------------------------------

  class IsoFile {
    const start: int
    const size: nat
    var cursor: nat
    var ended: bool

    predicate Valid()
      reads this
    {
      cursor <= size && (ended ==> cursor == size)
    }

    constructor (start: int, size: nat)
      ensures Valid() && cursor == 0 && this.start == start && this.size == size
    {
      this.start := start;
      this.size := size;
      cursor := 0;
      ended := false;
    }
  }

  function IsoSector(start: int, k: int): int { U32(start + k / 2048) }

  /** The file: `size` bytes from consecutive sectors. */
  function IsoStream(d: Disk, start: int, size: nat): Stream
  {
    Stream(k => 0 <= k < size, k => ByteIn(d.sector(IsoSector(start, k)), k % 2048))
  }

  lemma IsoCopy(d: Disk, start: int, size: nat, c: nat, chunk: seq<int>)
    requires DiskOk(d, 2048) && c % 2048 + |chunk| <= 2048 && c + |chunk| <= size
    requires |d.sector(IsoSector(start, c))| == 2048
    requires chunk == d.sector(IsoSector(start, c))[c % 2048..c % 2048 + |chunk|]
    ensures forall i :: 0 <= i < |chunk| ==> Matches(IsoStream(d, start, size), c + i, chunk[i])
  {
    hide U32;
    forall i | 0 <= i < |chunk| ensures Matches(IsoStream(d, start, size), c + i, chunk[i]) {
      assert (c + i) / 2048 == c / 2048 && (c + i) % 2048 == c % 2048 + i;
    }
  }

  lemma {:induction false} IsoSectors(d: Disk, lba: int, n: nat, k: nat)
    requires DiskOk(d, 2048)
    ensures |Sectors(d, lba, n)| == n * 2048
    ensures k < n * 2048 ==> Sectors(d, lba, n)[k] == ByteIn(d.sector(lba + k / 2048), k % 2048)
    decreases n
  {
    assert |d.sector(lba)| == 2048;
    if n > 0 {
      IsoSectors(d, lba + 1, n - 1, if k >= 2048 then k - 2048 else 0);
    }
  }

  /** An ISO 9660 file is `n` consecutive sectors cut off at its size: a read gives that slice of
      them, `m` bytes or all that are left. */
  lemma IsoIsExtent(d: Disk, start: int, size: nat, n: nat, c: nat, m: nat, out: seq<int>)
    requires DiskOk(d, 2048) && 0 <= start && start + n <= 0x1_0000_0000 && c <= size <= n * 2048
    requires Reads(IsoStream(d, start, size), c, m, out)
    ensures |out| == (if m < size - c then m else size - c) && |Sectors(d, start, n)| == n * 2048
    ensures out == Sectors(d, start, n)[..size][c..c + |out|]
  {
    var s := IsoStream(d, start, size);
    assert forall k :: 0 <= k ==> (s.present(k) <==> k < size);
    ReadsLength(s, c, m, out, size);
    IsoSectors(d, start, n, 0);
    forall i | 0 <= i < |out| ensures out[i] == Sectors(d, start, n)[..size][c..c + |out|][i] {
      assert Matches(s, c + i, out[i]);
      IsoSectors(d, start, n, c + i);
    }
  }

  /** ReadFile_ISO9660: a read error ends the read early, at the sector in error. */
  method ReadFileISO9660(d: Disk, f: IsoFile, n: nat) returns (out: seq<int>)
    requires DiskOk(d, 2048) && f.Valid()
    modifies f
    ensures f.Valid() && f.cursor == old(f.cursor) + |out|
    ensures Prefix(IsoStream(d, f.start, f.size), old(f.cursor), out) && |out| <= n
    ensures Reads(IsoStream(d, f.start, f.size), old(f.cursor), n, out)
            || (f.cursor < f.size && IsoSector(f.start, f.cursor) in d.bad)
    ensures f.ended <==> f.cursor == f.size
  {
    hide IsoSector;
    out := [];
    if f.ended {
      return;
    }
    var available := f.size - f.cursor;
    var wanted := if n > available then available else n;
    while |out| < wanted
      invariant |out| <= wanted && f.cursor == old(f.cursor) + |out| && !f.ended
      invariant Prefix(IsoStream(d, f.start, f.size), old(f.cursor), out)
      decreases wanted - |out|
    {
      var lba, o := IsoSector(f.start, f.cursor), f.cursor % 2048;
      if lba in d.bad {
        break;
      }
      var sector := d.sector(lba);
      var chunk := if wanted - |out| < 2048 - o then wanted - |out| else 2048 - o;
      IsoCopy(d, f.start, f.size, f.cursor, sector[o..o + chunk]);
      PrefixAppend(IsoStream(d, f.start, f.size), old(f.cursor), out, sector[o..o + chunk]);
      out := out + sector[o..o + chunk];
      f.cursor := f.cursor + chunk;
    }
    if f.cursor >= f.size {
      f.ended := true;
    }
  }
}
