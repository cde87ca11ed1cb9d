/** The kernel's physical frame allocator (sys/mem/frame.c): one bit per frame of
    the four-gigabyte address space, set when the frame is not available.

    A frame is its number; `IsFree` reads the bitmap.  `live` records the frames
    handed out and not yet given back, `usable` all frames that were available
    after boot. */
module FrameBitmap {
  import opened Bits

  const WORDS: int := 32768
  const FRAMES: int := 0x10_0000
  const FIRST_HIGH: int := 256      // frame at one megabyte, word 8 of the bitmap

  /** A region of the boot memory map as mm.c hands it on. */
  datatype Region = Region(start: int, len: int)
  {
    /** Page aligned, and ending where the 32-bit loop counter cannot wrap. */
    predicate Ok() { 0 <= start && start % 4096 == 0 && 0 <= len && start + len <= 0xFFFF_F000 }

    /** The frame starts inside the region. */
    predicate Covers(f: int) { start <= f * 4096 < start + len }
  }

  /** Where a frame's bit is. */
  lemma WordBit(i: int, bit: int, f: int)
    requires 0 <= bit < 32 && f == 32 * i + bit
    ensures f / 32 == i && f % 32 == bit
  {}

  lemma PageNumber(f: int, addr: int)
    requires addr == f * 4096
    ensures addr % 4096 == 0 && addr / 4096 == f
  {}

  class FrameManager {
    const bitmap: array<bv32>
    var highest: int
    ghost var live: set<int>
    ghost var usable: set<int>

    constructor ()
      ensures fresh(bitmap) && bitmap.Length == WORDS && highest == 0
    {
      bitmap := new bv32[WORDS](_ => 0);
      highest := 0;
    }

    /** Bit of frame `f` is clear. */
    predicate IsFree(f: int)
      requires bitmap.Length == WORDS
      reads bitmap
    {
      0 <= f < FRAMES && !Bit(bitmap[f / 32], f % 32)
    }

    /** Free and live frames partition the usable ones, which all lie above the
        first two frames and within the managed range. */
    ghost predicate Valid()
      reads this, bitmap
    {
      && bitmap.Length == WORDS
      && (forall f :: f in usable ==> 2 <= f < FRAMES && f * 4096 <= highest)
      && live <= usable
      && (forall f :: IsFree(f) <==> f in usable && f !in live)
    }

    /** MarkFrameReserved */
    method MarkFrameReserved(addr: int)
      requires bitmap.Length == WORDS && 0 <= addr < FRAMES * 4096
      modifies bitmap
      ensures forall f :: IsFree(f) <==> old(IsFree(f)) && f != addr / 4096
    {
      hide Bit, Set;
      var index, bit := addr / 4096 / 32, addr / 4096 % 32;
      ghost var w := bitmap[index];
      bitmap[index] := Set(bitmap[index], bit);
      forall f | 0 <= f < FRAMES && f / 32 == index
        ensures Bit(bitmap[index], f % 32) <==> f == addr / 4096 || Bit(w, f % 32)
      {
        SetBit(w, bit, f % 32);
      }
    }

    /** MarkFrameAvailable: the first two frames and anything above the managed
        range are left alone. */
    method MarkFrameAvailable(addr: int)
      requires bitmap.Length == WORDS && 0 <= addr < FRAMES * 4096
      modifies bitmap
      ensures forall f :: IsFree(f) <==>
                old(IsFree(f)) || (f == addr / 4096 && addr >= 2 * 4096 && addr <= highest)
    {
      hide Bit, Clear;
      if addr < 2 * 4096 { return; }
      if addr > highest { return; }
      var index, bit := addr / 4096 / 32, addr / 4096 % 32;
      ghost var w := bitmap[index];
      bitmap[index] := Clear(bitmap[index], bit);
      forall f | 0 <= f < FRAMES && f / 32 == index
        ensures Bit(bitmap[index], f % 32) <==> f != addr / 4096 && Bit(w, f % 32)
      {
        ClearBit(w, bit, f % 32);
      }
    }

    lemma FullWord(i: int)
      requires bitmap.Length == WORDS && 0 <= i < WORDS && bitmap[i] == FULL
      ensures forall f :: 32 * i <= f < 32 * (i + 1) ==> !IsFree(f)
    {
      hide Bit;
      LowestClear(bitmap[i]);
      forall f | 32 * i <= f < 32 * (i + 1) ensures !IsFree(f) { WordBit(i, f - 32 * i, f); }
    }

    lemma PartialWord(i: int)
      requires bitmap.Length == WORDS && 0 <= i < WORDS && FreeBit(bitmap[i]) < 32
      ensures var f := i * 32 + FreeBit(bitmap[i]);
              IsFree(f) && f < 32 * (i + 1) && forall g :: 32 * i <= g < f ==> !IsFree(g)
    {
      hide Bit, FreeBit;
      var bit := FreeBit(bitmap[i]);
      var f := i * 32 + bit;
      WordBit(i, bit, f);
      forall g | 32 * i <= g < f ensures !IsFree(g) { WordBit(i, g - 32 * i, g); }
    }

    /** The scan both allocators share: word by word over [from, to), then the
        lowest clear bit of the first word that is not full. */
    method FirstFree(from: int, to: int) returns (addr: int)
      requires bitmap.Length == WORDS && 0 <= from <= to <= WORDS
      requires !IsFree(0)
      ensures addr == 0 <==> forall f :: 32 * from <= f < 32 * to ==> !IsFree(f)
      ensures addr != 0 ==>
                && addr % 4096 == 0 && 32 * from <= addr / 4096 < 32 * to && IsFree(addr / 4096)
                && forall f :: 32 * from <= f < addr / 4096 ==> !IsFree(f)
    {
      hide Bit, Ctz, IsFree, FreeBit;
      var i := from;
      while i < to
        invariant from <= i <= to
        invariant forall f :: 32 * from <= f < 32 * i ==> !IsFree(f)
      {
        if bitmap[i] != FULL {
          PartialFree(bitmap[i]);
          PartialWord(i);
          var bit := Ctz(!bitmap[i]);
          addr := (i * 32 + bit) * 4096;
          PageNumber(i * 32 + bit, addr);
          return;
        }
        FullWord(i);
        i := i + 1;
      }
      addr := 0;
    }

    /** AllocateFrame: the lowest free frame above one megabyte; 0 when there is
        none, and then nothing has changed. */
    method AllocateFrame() returns (addr: int)
      requires Valid()
      modifies this`live, bitmap
      ensures Valid()
      ensures addr == 0 <==> forall f :: FIRST_HIGH <= f < FRAMES ==> !old(IsFree(f))
      ensures addr == 0 ==> live == old(live) && forall f :: IsFree(f) <==> old(IsFree(f))
      ensures addr != 0 ==> Handed(old(live), addr, FIRST_HIGH, FRAMES) && old(Lowest(addr / 4096, FIRST_HIGH))
      ensures addr != 0 ==> forall f :: IsFree(f) <==> old(IsFree(f)) && f != addr / 4096
    {
      addr := FirstFree(8, WORDS);
      MarkFrameReserved(addr);
      live := if addr == 0 then live else live + {addr / 4096};
    }

    /** AllocateLowMemory: the same below one megabyte. */
    method AllocateLowMemory() returns (addr: int)
      requires Valid()
      modifies this`live, bitmap
      ensures Valid()
      ensures addr == 0 <==> forall f :: 0 <= f < FIRST_HIGH ==> !old(IsFree(f))
      ensures addr == 0 ==> live == old(live) && forall f :: IsFree(f) <==> old(IsFree(f))
      ensures addr != 0 ==> Handed(old(live), addr, 0, FIRST_HIGH) && old(Lowest(addr / 4096, 0))
      ensures addr != 0 ==> forall f :: IsFree(f) <==> old(IsFree(f)) && f != addr / 4096
    {
      addr := FirstFree(0, 8);
      MarkFrameReserved(addr);
      live := if addr == 0 then live else live + {addr / 4096};
    }

    /** The frame was free, is in the zone, and is now live. */
    ghost predicate Handed(live0: set<int>, addr: int, lo: int, hi: int)
      reads this
    {
      addr % 4096 == 0 && lo <= addr / 4096 < hi && addr / 4096 !in live0 && live == live0 + {addr / 4096}
    }

    /** No free frame of the zone lies below `f`. */
    ghost predicate Lowest(f: int, lo: int)
      requires bitmap.Length == WORDS
      reads bitmap
    {
      IsFree(f) && forall g :: lo <= g < f ==> !IsFree(g)
    }

    /** FreeFrame makes a reserved frame of the managed range free, whether it was ever
        handed out or not; it leaves every other frame alone. */
    method FreeFrame(addr: int)
      requires Valid() && 0 <= addr < FRAMES * 4096 && addr % 4096 == 0
      modifies this`live, this`usable, bitmap
      ensures Valid() && live == old(live) - {addr / 4096}
      ensures usable == if Managed(addr) then old(usable) + {addr / 4096} else old(usable)
      ensures forall f :: IsFree(f) <==> old(IsFree(f)) || (f == addr / 4096 && Managed(addr))
    {
      if IsFree(addr / 4096) { return; }
      MarkFrameAvailable(addr);
      live := live - {addr / 4096};
      usable := if Managed(addr) then usable + {addr / 4096} else usable;
    }

    predicate Managed(addr: int)
      reads this`highest
    {
      2 * 4096 <= addr <= highest
    }

    /** InitFrameManager: exactly the frames that start inside a region become
        free, except the first two. */
    method InitFrameManager(regions: seq<Region>) returns (panic: bool)
      requires bitmap.Length == WORDS && highest == 0
      requires forall i :: 0 <= i < |regions| ==> regions[i].Ok()
      modifies this, bitmap
      ensures panic <==> |regions| == 0
      ensures !panic ==>
                && Valid() && live == {}
                && forall f :: IsFree(f) <==> f >= 2 && exists i :: 0 <= i < |regions| && regions[i].Covers(f)
    {
      hide Bit;
      forall i | 0 <= i < WORDS { bitmap[i] := FULL; }
      forall f ensures !IsFree(f) { if 0 <= f < FRAMES { FullBit(f % 32); } }
      if |regions| < 1 { return true; }
      var i := 0;
      while i < |regions|
        invariant 0 <= i <= |regions|
        invariant forall k :: 0 <= k < i ==> regions[k].start + regions[k].len <= highest
        invariant forall f :: IsFree(f) <==> f >= 2 && exists k :: 0 <= k < i && regions[k].Covers(f)
      {
        var r := regions[i];
        if r.start + r.len > highest { highest := r.start + r.len; }
        MarkRegion(r);
        i := i + 1;
      }
      usable, live := (set f | 0 <= f < FRAMES && IsFree(f)), {};
      return false;
    }

    /** frame.c:124-125 */
    method MarkRegion(r: Region)
      requires bitmap.Length == WORDS && r.Ok() && r.start + r.len <= highest
      modifies bitmap
      ensures forall f :: IsFree(f) <==> old(IsFree(f)) || (f >= 2 && r.Covers(f))
    {
      var j := r.start;
      while j < r.start + r.len
        invariant r.start <= j && j % 4096 == 0 && (j == r.start || j < r.start + r.len + 4096)
        invariant forall f :: IsFree(f) <==> old(IsFree(f)) || (f >= 2 && r.start <= f * 4096 < j && r.Covers(f))
      {
        MarkFrameAvailable(j);
        j := j + 4096;
      }
    }
  }
}
