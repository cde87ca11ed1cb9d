/** The frame bitmap (FrameBitmap) provides the frame set the virtual memory manager works
    with (VirtualMemory): the same three calls, on the set of clear bits. */
module FrameRefinement {
  import opened FrameBitmap
  import opened VirtualMemory

  ghost function FreeSet(m: FrameManager): (s: set<int>)
    requires m.bitmap.Length == WORDS
    reads m.bitmap
    ensures forall f :: f in s <==> m.IsFree(f)
  {
    set f | 0 <= f < FRAMES && m.IsFree(f)
  }

  method AllocateFrame(m: FrameManager) returns (f: int)
    requires m.Valid()
    modifies m, m.bitmap
    ensures m.Valid()
    ensures f == 0 ==> NoHighFrame(old(FreeSet(m))) && FreeSet(m) == old(FreeSet(m))
    ensures f != 0 ==> LowestHigh(old(FreeSet(m)), f) && FreeSet(m) == old(FreeSet(m)) - {f}
  {
    var addr := m.AllocateFrame();
    f := addr / 4096;
  }

  method AllocateLowMemory(m: FrameManager) returns (f: int)
    requires m.Valid()
    modifies m, m.bitmap
    ensures m.Valid()
    ensures f == 0 ==> FreeSet(m) == old(FreeSet(m)) && NoLowFrame(FreeSet(m))
    ensures f != 0 ==> f in old(FreeSet(m)) && f < 256 && FreeSet(m) == old(FreeSet(m)) - {f}
  {
    var addr := m.AllocateLowMemory();
    f := addr / 4096;
  }

  method FreeFrame(m: FrameManager, f: int)
    requires m.Valid() && 0 <= f < FRAMES
    modifies m, m.bitmap
    ensures m.Valid() && m.highest == old(m.highest)
    ensures FreeSet(m) == if f >= 2 && f * 4096 <= m.highest then old(FreeSet(m)) + {f} else old(FreeSet(m))
  {
    PageNumber(f, f * 4096);
    m.FreeFrame(f * 4096);
  }
}
