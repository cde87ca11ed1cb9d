/** The memory layout of the boot manager's heap: a slab allocator (bootmanager/core/common/kmalloc.c)
    on top of a frame allocator (bootmanager/core/common/frame.c).

    Both allocators keep their free lists inside the memory they manage, so the
    model has one flat memory of 32-bit words and every list node, slab header
    and client block lives in it.  Addresses are byte addresses; `Word(mem, a)`
    is the word the address `a` falls into.  All blocks are 8-aligned and a
    multiple of 8 bytes long, so word granularity loses nothing. */
module HeapLayout {
  import Arith64

  const PAGE: int := 0x1000
  const HEAP_START: int := 0x35000
  const HEAP_END: int := 0x80000
  const MEM_WORDS: int := 0x20000

  /** Offsets of the fields of `Slab`, and its size rounded up to 8. */
  const FREE_LIST: int := 0
  const OBJSTART: int := 4
  const N_OBJECTS: int := 8
  const OBJSIZE: int := 12
  const NEXT: int := 16
  const HEADER: int := 24

  /** `slab_sizes` */
  function SlabSize(c: nat): (n: int)
    requires c < 8
    ensures 8 <= n <= 1024 && n % 8 == 0
  {
    if c == 0 then 8 else if c == 1 then 16 else if c == 2 then 32 else if c == 3 then 64
    else if c == 4 then 128 else if c == 5 then 256 else if c == 6 then 512 else 1024
  }

  /** Number of objects of a slab of class `c`, and the offset just past them. */
  function Objects(c: nat): (n: int)
    requires c < 8
    ensures n >= 1
  {
    if c == 0 then 509 else if c == 1 then 254 else if c == 2 then 127 else if c == 3 then 63
    else if c == 4 then 31 else if c == 5 then 15 else if c == 6 then 7 else 3
  }

  function ObjectsEnd(c: nat): (n: int)
    requires c < 8
    ensures HEADER < n <= 4096
  {
    if c == 0 then 4096 else if c == 1 then 4088 else if c == 2 then 4088 else if c == 3 then 4056
    else if c == 4 then 3992 else if c == 5 then 3864 else if c == 6 then 3608 else 3096
  }

  /** The table above is what CreateSlab computes from the object size. */
  lemma ObjectsTable(c: nat)
    requires c < 8
    ensures Objects(c) == (4096 - HEADER) / SlabSize(c)
    ensures ObjectsEnd(c) == HEADER + Objects(c) * SlabSize(c)
    ensures (ObjectsEnd(c) - HEADER) % SlabSize(c) == 0
  {
    if c < 4 {
      if c < 2 { assert c == 0 || c == 1; } else { assert c == 2 || c == 3; }
    } else {
      if c < 6 { assert c == 4 || c == 5; } else { assert c == 6 || c == 7; }
    }
  }

  // ---------------------------------------------------------------------
  // Concrete state and layout
  // ---------------------------------------------------------------------

  /** The statics of both files together with the memory. */
  datatype Heap = Heap(
    mem: seq<int>,        // all of low memory, word by word
    frameStart: int,      // pool.frame_start
    nFrames: int,         // pool.n_frames
    freeList: int,        // pool.free_list
    caches: seq<int>)     // caches[i].slabs

  /** What a frame taken from the pool is being used for. */
  datatype Kind = FreeFrame | SlabFrame(class_: nat) | BlockFrame

  /** How the memory is meant to be divided. */
  datatype Layout = Layout(
    kind: map<int, Kind>,           // every frame ever taken from the pool
    freeFrames: seq<int>,           // the frame free list, first frame first
    slabs: seq<seq<int>>,           // the slab list of each cache
    freeObjs: map<int, seq<int>>,   // the object free list of each slab
    live: map<int, int>)            // blocks in the hands of clients, with capacity

  function Word(mem: seq<int>, a: int): int
  {
    if 0 <= a / 4 < |mem| then mem[a / 4] else 0
  }

  function First(xs: seq<int>): int { if xs == [] then 0 else xs[0] }

  function After(xs: seq<int>, i: int): int
    requires 0 <= i < |xs|
  {
    if i + 1 < |xs| then xs[i + 1] else 0
  }

  /** `xs` is the linked list starting at `head`, the link being `off` bytes
      into each node. */
  ghost predicate Linked(mem: seq<int>, head: int, off: int, xs: seq<int>)
  {
    && head == First(xs)
    && forall i :: 0 <= i < |xs| ==> LinkAt(mem, off, xs, i)
  }

  ghost predicate LinkAt(mem: seq<int>, off: int, xs: seq<int>, i: int)
    requires 0 <= i < |xs|
  {
    Word(mem, xs[i] + off) == After(xs, i)
  }

  ghost predicate Distinct(xs: seq<int>)
  {
    forall i, j :: 0 <= i < j < |xs| ==> xs[i] != xs[j]
  }

  /** `x` is the address of an object of the slab `s` of class `c`. */
  predicate IsObject(s: int, c: nat, x: int)
    requires c < 8
  {
    s + HEADER <= x < s + ObjectsEnd(c) && OnGrid(c, x - (s + HEADER))
  }

  predicate OnGrid(c: nat, d: int)
    requires c < 8
  {
    d % SlabSize(c) == 0
  }

  ghost predicate PoolOk(h: Heap, g: Layout)
  {
    && |h.mem| == MEM_WORDS
    && HEAP_START <= h.frameStart * 4096 && 0 <= h.nFrames
    && (h.frameStart + h.nFrames) * 4096 == HEAP_END
    && (forall a :: a in g.kind <==> a % 4096 == 0 && HEAP_START <= a < h.frameStart * 4096)
  }

  ghost predicate FramesOk(h: Heap, g: Layout)
  {
    && Linked(h.mem, h.freeList, 0, g.freeFrames)
    && Distinct(g.freeFrames)
    && (forall a :: a in g.freeFrames <==> a in g.kind && g.kind[a] == FreeFrame)
  }

  ghost predicate IsSlab(g: Layout, s: int, c: nat)
  {
    s in g.kind && g.kind[s] == SlabFrame(c)
  }

  ghost predicate CacheOk(h: Heap, g: Layout, c: nat)
    requires c < 8 && |h.caches| == 8 && |g.slabs| == 8
  {
    && Linked(h.mem, h.caches[c], NEXT, g.slabs[c])
    && Distinct(g.slabs[c])
    && (forall s :: s in g.slabs[c] <==> IsSlab(g, s, c))
  }

  ghost predicate HeaderOk(mem: seq<int>, s: int, c: nat)
    requires c < 8
  {
    && Word(mem, s + OBJSTART) == s + HEADER
    && Word(mem, s + N_OBJECTS) == Objects(c)
    && Word(mem, s + OBJSIZE) == SlabSize(c)
  }

  ghost predicate SlabOk(mem: seq<int>, s: int, c: nat, free: seq<int>)
    requires c < 8
  {
    && HeaderOk(mem, s, c)
    && Linked(mem, Word(mem, s + FREE_LIST), 0, free)
    && Distinct(free)
    && (forall x :: x in free ==> IsObject(s, c, x))
  }

  ghost predicate CachesOk(h: Heap, g: Layout)
  {
    && |h.caches| == 8 && |g.slabs| == 8
    && (forall a :: a in g.kind && g.kind[a].SlabFrame? ==> g.kind[a].class_ < 8)
    && (forall c: nat :: c < 8 ==> CacheOk(h, g, c))
    && (forall s :: s in g.freeObjs <==> s in g.kind && g.kind[s].SlabFrame?)
    && (forall s :: s in g.freeObjs ==> SlabOk(h.mem, s, g.kind[s].class_, g.freeObjs[s]))
  }

  function FrameOf(x: int): int { x - x % 4096 }

  /** `p` belongs to a client: it is a whole frame, or an object that is not on
      the free list of its slab. */
  ghost predicate IsLive(g: Layout, p: int, cap: int)
  {
    || (p in g.kind && g.kind[p] == BlockFrame && cap == PAGE)
    || (var s := FrameOf(p);
        && s in g.kind && g.kind[s].SlabFrame? && g.kind[s].class_ < 8 && s in g.freeObjs
        && IsObject(s, g.kind[s].class_, p) && p !in g.freeObjs[s]
        && cap == SlabSize(g.kind[s].class_))
  }

  ghost predicate LiveOk(g: Layout)
  {
    && (forall p :: p in g.live ==> IsLive(g, p, g.live[p]))
    && (forall p, cap :: IsLive(g, p, cap) ==> p in g.live)
  }

  ghost predicate Inv(h: Heap, g: Layout)
  {
    PoolOk(h, g) && FramesOk(h, g) && CachesOk(h, g) && LiveOk(g)
  }

  // ---------------------------------------------------------------------
  // Separation
  // ---------------------------------------------------------------------

  ghost predicate Apart(a: int, n: int, b: int, m: int)
  {
    a + n <= b || b + m <= a
  }

  /** Two different multiples of `size` (from the same origin) are `size` apart. */
  lemma ModGap(x: int, y: int, size: int)
    requires size >= 1 && x < y && x % size == 0 && y % size == 0
    ensures x + size <= y
  {
    var i, j := x / size, y / size;
    assert x == i * size && y == j * size;
    if j <= i { Arith64.MulMono(j, i, size); } else { Arith64.MulMono(i + 1, j, size); }
  }

  lemma ObjectFits(c: nat, d: int)
    requires c < 8 && 0 <= d < ObjectsEnd(c) - HEADER && OnGrid(c, d)
    ensures d + SlabSize(c) <= ObjectsEnd(c) - HEADER && d % 8 == 0
  {
    hide SlabSize, ObjectsEnd;
    ObjectsTable(c);
    ModGap(d, ObjectsEnd(c) - HEADER, SlabSize(c));
    MultipleOfEight(d, SlabSize(c));
  }

  /** An object lies inside the object area of its slab, and is 8-aligned. */
  lemma ObjectBounds(s: int, c: nat, x: int)
    requires c < 8 && s % 4096 == 0 && IsObject(s, c, x)
    ensures s + HEADER <= x && x + SlabSize(c) <= s + ObjectsEnd(c) <= s + PAGE
    ensures x % 8 == 0 && x % 4 == 0 && FrameOf(x) == s
  {
    hide SlabSize, ObjectsEnd, OnGrid;
    var d := x - (s + HEADER);
    ObjectFits(c, d);
    AlignedSum(s, d);
    SameFrame(s, x);
  }

  lemma AlignedSum(s: int, d: int)
    requires s % 4096 == 0 && d % 8 == 0
    ensures (s + HEADER + d) % 8 == 0 && (s + HEADER + d) % 4 == 0
  {
    EightFold(512 * (s / 4096) + 3 + d / 8, s + HEADER + d);
  }

  lemma EightFold(k: int, x: int)
    requires x == 8 * k
    ensures x % 8 == 0 && x % 4 == 0
  {}

  lemma FourFold(k: int, x: int)
    requires x == 4 * k
    ensures x % 4 == 0 && x / 4 == k
  {}

  lemma FourSum(a: int, b: int)
    requires a % 4 == 0 && b % 4 == 0
    ensures (a + b) % 4 == 0
  {
    FourFold(a / 4 + b / 4, a + b);
  }

  lemma SameFrame(s: int, x: int)
    requires s % 4096 == 0 && s <= x < s + 4096
    ensures FrameOf(x) == s
  {}

  lemma MultipleOfEight(x: int, size: int)
    requires size >= 8 && size % 8 == 0 && x % size == 0
    ensures x % 8 == 0
  {
    var k, t := x / size, size / 8;
    assert x == k * size && size == t * 8;
    assert x == (k * t) * 8;
  }

  lemma ObjectsApart(s: int, c: nat, x: int, y: int)
    requires c < 8 && IsObject(s, c, x) && IsObject(s, c, y) && x != y
    ensures Apart(x, SlabSize(c), y, SlabSize(c))
  {
    hide SlabSize, ObjectsEnd;
    if x < y { ModGap(x - (s + HEADER), y - (s + HEADER), SlabSize(c)); }
    else { ModGap(y - (s + HEADER), x - (s + HEADER), SlabSize(c)); }
  }

  /** A live block keeps to the object area of its slab or is a whole frame. */
  lemma LiveBounds(h: Heap, g: Layout, p: int)
    requires Inv(h, g) && p in g.live
    ensures p % 8 == 0 && 8 <= g.live[p] <= PAGE && g.live[p] % 8 == 0
    ensures var f := FrameOf(p);
            f in g.kind && g.kind[f] != FreeFrame && f <= p && p + g.live[p] <= f + PAGE
    ensures HEAP_START <= p && p + g.live[p] <= HEAP_END
  {
    hide SlabSize, ObjectsEnd, OnGrid;
    hide Linked, Distinct, CacheOk, SlabOk, FramesOk;
    var f := FrameOf(p);
    if p in g.kind && g.kind[p] == BlockFrame {
      PageAligned(p);
    } else {
      ObjectBounds(f, g.kind[f].class_, p);
    }
    hide FrameOf;
    FrameBelow(f, h.frameStart);
  }

  lemma PageAligned(p: int)
    requires p % 4096 == 0
    ensures p % 8 == 0 && p % 4 == 0 && FrameOf(p) == p
  {}

  lemma FrameBelow(f: int, e: int)
    requires f % 4096 == 0 && f < e * 4096
    ensures f + 4096 <= e * 4096
  {}

  lemma FramesApart(a: int, b: int)
    requires a % 4096 == 0 && b % 4096 == 0 && a != b
    ensures Apart(a, PAGE, b, PAGE)
  {}

  /** Live blocks never overlap each other. */
  lemma LiveApart(h: Heap, g: Layout, p: int, q: int)
    requires Inv(h, g) && p in g.live && q in g.live && p != q
    ensures Apart(p, g.live[p], q, g.live[q])
  {
    hide Linked, Distinct, CacheOk, SlabOk, FramesOk, OnGrid, SlabSize, ObjectsEnd;
    LiveBounds(h, g, p);
    LiveBounds(h, g, q);
    var f, e := FrameOf(p), FrameOf(q);
    if f != e {
      FramesApart(f, e);
    } else if g.kind[f].SlabFrame? {
      if p in g.kind { PageAligned(p); }
      if q in g.kind { PageAligned(q); }
      ObjectsApart(f, g.kind[f].class_, p, q);
    } else {
      PageAligned(f);
    }
  }

  /** A live block does not overlap a slab header. */
  lemma HeaderApart(h: Heap, g: Layout, p: int, s: int)
    requires Inv(h, g) && p in g.live && s in g.freeObjs
    ensures Apart(p, g.live[p], s, HEADER)
  {
    hide Linked, Distinct, CacheOk, SlabOk, FramesOk, OnGrid, SlabSize, ObjectsEnd;
    LiveBounds(h, g, p);
    var f := FrameOf(p);
    if f != s {
      FramesApart(f, s);
    } else {
      if p in g.kind { PageAligned(p); }
      ObjectBounds(f, g.kind[f].class_, p);
    }
  }

  /** An object waiting on a free list keeps to the object area of its slab. */
  lemma FreeObjectBounds(h: Heap, g: Layout, s: int, x: int)
    requires Inv(h, g) && s in g.freeObjs && x in g.freeObjs[s]
    ensures s in g.kind && g.kind[s].SlabFrame? && g.kind[s].class_ < 8 && s % 4096 == 0 &&
            IsObject(s, g.kind[s].class_, x)
    ensures x % 8 == 0 && x % 4 == 0 && FrameOf(x) == s && s + HEADER <= x && x + SlabSize(g.kind[s].class_) <= s + PAGE
  {
    hide Linked, Distinct, CacheOk, FramesOk, HeaderOk, OnGrid, SlabSize, ObjectsEnd;
    assert SlabOk(h.mem, s, g.kind[s].class_, g.freeObjs[s]);
    ObjectBounds(s, g.kind[s].class_, x);
  }

  /** A live block does not overlap an object waiting on a free list. */
  lemma FreeObjectApart(h: Heap, g: Layout, p: int, s: int, x: int)
    requires Inv(h, g) && p in g.live && s in g.freeObjs && x in g.freeObjs[s]
    ensures s in g.kind && g.kind[s].SlabFrame? && g.kind[s].class_ < 8
    ensures Apart(p, g.live[p], x, SlabSize(g.kind[s].class_))
    ensures x % 8 == 0 && x % 4 == 0 && FrameOf(x) == s && s + HEADER <= x && x + SlabSize(g.kind[s].class_) <= s + PAGE
  {
    hide Linked, Distinct, CacheOk, FramesOk, HeaderOk, OnGrid, SlabSize, ObjectsEnd;
    var c := g.kind[s].class_;
    assert SlabOk(h.mem, s, c, g.freeObjs[s]);
    FreeObjectBounds(h, g, s, x);
    LiveBounds(h, g, p);
    var f := FrameOf(p);
    if f != s {
      FramesApart(f, s);
    } else {
      if p in g.kind { PageAligned(p); }
      ObjectsApart(s, c, p, x);
    }
  }

  /** Free objects of one slab or of two never overlap. */
  lemma FreeObjectsApart(h: Heap, g: Layout, s: int, x: int, t: int, y: int)
    requires Inv(h, g) && s in g.freeObjs && x in g.freeObjs[s] && t in g.freeObjs && y in g.freeObjs[t] && x != y
    ensures s in g.kind && g.kind[s].SlabFrame? && g.kind[s].class_ < 8
    ensures t in g.kind && g.kind[t].SlabFrame? && g.kind[t].class_ < 8
    ensures Apart(x, SlabSize(g.kind[s].class_), y, SlabSize(g.kind[t].class_))
  {
    FreeObjectBounds(h, g, s, x);
    FreeObjectBounds(h, g, t, y);
    hide Inv, OnGrid, SlabSize, ObjectsEnd, FrameOf;
    if s != t {
      FramesApart(s, t);
    } else {
      ObjectsApart(s, g.kind[s].class_, x, y);
    }
  }

  /** A free object overlaps no slab header, its own slab's included. */
  lemma FreeObjectHeader(h: Heap, g: Layout, s: int, t: int, x: int)
    requires Inv(h, g) && s in g.freeObjs && t in g.freeObjs && x in g.freeObjs[t]
    ensures t in g.kind && g.kind[t].SlabFrame? && g.kind[t].class_ < 8
    ensures Apart(s, HEADER, x, SlabSize(g.kind[t].class_))
  {
    FreeObjectBounds(h, g, t, x);
    SlabFrames(h, g, s);
    hide Inv, IsObject, SlabSize, FrameOf;
    if s != t { FramesApart(s, t); }
  }

  lemma SlabFrames(h: Heap, g: Layout, s: int)
    requires Inv(h, g) && s in g.freeObjs
    ensures s in g.kind && g.kind[s].SlabFrame? && g.kind[s].class_ < 8 && s % 4096 == 0
  {
    hide Linked, Distinct, CacheOk, FramesOk, SlabOk, SlabSize, ObjectsEnd;
  }

  /** Slab frames and free frames are different frames. */
  lemma SlabFrameApart(h: Heap, g: Layout, s: int, f: int)
    requires Inv(h, g) && s in g.freeObjs && f in g.freeFrames
    ensures Apart(s, PAGE, f, PAGE)
  {
    SlabFrames(h, g, s);
    hide Linked, Distinct, CacheOk, CachesOk, LiveOk, SlabSize, ObjectsEnd;
    FramesApart(s, f);
  }

  /** A live block does not overlap a free frame. */
  lemma FreeFrameApart(h: Heap, g: Layout, p: int, f: int)
    requires Inv(h, g) && p in g.live && f in g.freeFrames
    ensures f % 4096 == 0 && Apart(p, g.live[p], f, PAGE)
  {
    hide Linked, Distinct, CacheOk, SlabOk, CachesOk, OnGrid, SlabSize, ObjectsEnd;
    LiveBounds(h, g, p);
    FramesApart(FrameOf(p), f);
  }

  // ---------------------------------------------------------------------
  // Local changes
  // ---------------------------------------------------------------------

  /** Only words of the block [p, p + n) differ. */
  ghost predicate SameOutside(mem: seq<int>, mem': seq<int>, p: int, n: int)
  {
    && |mem'| == |mem|
    && forall i :: 0 <= i < |mem| && !(p <= 4 * i < p + n) ==> mem'[i] == mem[i]
  }

  lemma WordSame(mem: seq<int>, mem': seq<int>, p: int, n: int, a: int)
    requires SameOutside(mem, mem', p, n) && a % 4 == 0 && Apart(p, n, a, 4)
    ensures Word(mem', a) == Word(mem, a)
  {
    assert a == 4 * (a / 4);
  }

  lemma FramesSurvive(h: Heap, g: Layout, mem': seq<int>, p: int)
    requires Inv(h, g) && p in g.live && SameOutside(h.mem, mem', p, g.live[p])
    ensures FramesOk(h.(mem := mem'), g)
  {
    hide CachesOk, LiveOk, PoolOk, SameOutside, Word, Distinct;
    forall i | 0 <= i < |g.freeFrames|
      ensures LinkAt(mem', 0, g.freeFrames, i)
    {
      assert LinkAt(h.mem, 0, g.freeFrames, i);
      FreeFrameApart(h, g, p, g.freeFrames[i]);
      WordSame(h.mem, mem', p, g.live[p], g.freeFrames[i]);
    }
  }

  lemma FreeListSurvives(h: Heap, g: Layout, mem': seq<int>, p: int, s: int, i: int)
    requires Inv(h, g) && p in g.live && SameOutside(h.mem, mem', p, g.live[p])
    requires s in g.freeObjs && 0 <= i < |g.freeObjs[s]|
    ensures Word(mem', g.freeObjs[s][i]) == Word(h.mem, g.freeObjs[s][i])
  {
    hide Inv, SameOutside, Word, SlabSize;
    FreeObjectApart(h, g, p, s, g.freeObjs[s][i]);
    WordSame(h.mem, mem', p, g.live[p], g.freeObjs[s][i]);
  }

  lemma HeaderSurvives(h: Heap, g: Layout, mem': seq<int>, p: int, s: int, off: int)
    requires Inv(h, g) && p in g.live && SameOutside(h.mem, mem', p, g.live[p])
    requires s in g.freeObjs && 0 <= off < HEADER && off % 4 == 0
    ensures Word(mem', s + off) == Word(h.mem, s + off)
  {
    hide FramesOk, CacheOk, SlabOk, LiveOk, SameOutside, Word;
    HeaderApart(h, g, p, s);
    assert (s + off) % 4 == 0;
    WordSame(h.mem, mem', p, g.live[p], s + off);
  }

  lemma SlabSurvives(h: Heap, g: Layout, mem': seq<int>, p: int, s: int)
    requires Inv(h, g) && p in g.live && SameOutside(h.mem, mem', p, g.live[p])
    requires s in g.freeObjs
    ensures g.kind[s].SlabFrame? && g.kind[s].class_ < 8
    ensures SlabOk(mem', s, g.kind[s].class_, g.freeObjs[s])
    ensures Word(mem', s + NEXT) == Word(h.mem, s + NEXT)
  {
    hide PoolOk, FramesOk, CacheOk, IsObject, LiveOk, SameOutside, Word, Distinct, SlabSize, Objects;
    var c, free := g.kind[s].class_, g.freeObjs[s];
    assert SlabOk(h.mem, s, c, free);
    HeaderSurvives(h, g, mem', p, s, FREE_LIST);
    HeaderSurvives(h, g, mem', p, s, OBJSTART);
    HeaderSurvives(h, g, mem', p, s, N_OBJECTS);
    HeaderSurvives(h, g, mem', p, s, OBJSIZE);
    HeaderSurvives(h, g, mem', p, s, NEXT);
    forall i | 0 <= i < |free| ensures LinkAt(mem', 0, free, i) {
      assert LinkAt(h.mem, 0, free, i);
      FreeListSurvives(h, g, mem', p, s, i);
    }
  }

  /** Whatever happens inside a live block, the allocator's own structures stay
      intact: this is what the separation is for. */
  lemma LocalChange(h: Heap, g: Layout, mem': seq<int>, p: int)
    requires Inv(h, g) && p in g.live && SameOutside(h.mem, mem', p, g.live[p])
    ensures Inv(h.(mem := mem'), g)
  {
    hide SlabOk, LiveOk, Linked, Word;
    FramesSurvive(h, g, mem', p);
    forall s | s in g.freeObjs ensures SlabOk(mem', s, g.kind[s].class_, g.freeObjs[s]) {
      SlabSurvives(h, g, mem', p, s);
    }
    forall c: nat | c < 8 ensures CacheOk(h.(mem := mem'), g, c) {
      CacheSurvives(h, g, mem', p, c);
    }
  }

  lemma CacheSurvives(h: Heap, g: Layout, mem': seq<int>, p: int, c: nat)
    requires Inv(h, g) && p in g.live && SameOutside(h.mem, mem', p, g.live[p]) && c < 8
    ensures CacheOk(h.(mem := mem'), g, c)
  {
    hide SlabOk, LiveOk, FramesOk, SameOutside, Word, Distinct;
    assert CacheOk(h, g, c);
    forall i | 0 <= i < |g.slabs[c]|
      ensures LinkAt(mem', NEXT, g.slabs[c], i)
    {
      assert LinkAt(h.mem, NEXT, g.slabs[c], i);
      assert IsSlab(g, g.slabs[c][i], c);
      SlabSurvives(h, g, mem', p, g.slabs[c][i]);
    }
  }

  // ---------------------------------------------------------------------
  // Changes of layout
  // ---------------------------------------------------------------------

  /** A frame leaves the free list and becomes a client block. */
  function PopFrame(g: Layout): Layout
    requires g.freeFrames != []
  {
    var f := g.freeFrames[0];
    g.(freeFrames := g.freeFrames[1..], kind := g.kind[f := BlockFrame], live := g.live[f := PAGE])
  }

  lemma LinkedTail(mem: seq<int>, xs: seq<int>)
    requires xs != [] && Linked(mem, xs[0], 0, xs) && Distinct(xs)
    ensures Linked(mem, Word(mem, xs[0]), 0, xs[1..]) && Distinct(xs[1..]) && xs[0] !in xs[1..]
  {
    hide Word;
    assert LinkAt(mem, 0, xs, 0);
    forall i | 0 <= i < |xs[1..]| ensures LinkAt(mem, 0, xs[1..], i) {
      assert LinkAt(mem, 0, xs, i + 1);
    }
  }

  lemma LinkedCons(mem: seq<int>, off: int, x: int, xs: seq<int>)
    requires Linked(mem, Word(mem, x + off), off, xs) && Distinct(xs) && x !in xs
    ensures Linked(mem, x, off, [x] + xs) && Distinct([x] + xs)
  {
    hide Word;
    var ys := [x] + xs;
    forall i | 0 <= i < |ys| ensures LinkAt(mem, off, ys, i) {
      if i > 0 { assert LinkAt(mem, off, xs, i - 1); }
    }
  }

  lemma PopFrameOk(h: Heap, g: Layout)
    requires Inv(h, g) && g.freeFrames != []
    ensures h.freeList == g.freeFrames[0] && h.freeList !in g.live && h.freeList % 4096 == 0
    ensures Inv(h.(freeList := Word(h.mem, h.freeList)), PopFrame(g))
  {
    hide Word, SlabOk;
    var f, xs := g.freeFrames[0], g.freeFrames;
    var h', g' := h.(freeList := Word(h.mem, h.freeList)), PopFrame(g);
    assert LinkAt(h.mem, 0, xs, 0);
    assert f in xs;
    PageAligned(f);
    LinkedTail(h.mem, xs);
    hide Linked;
    CachesKeep(h, g, h', g', f);
    LiveGainsFrame(h, g, g', f);
  }

  /** Retagging a frame that is not a slab leaves the caches alone. */
  lemma CachesKeep(h: Heap, g: Layout, h': Heap, g': Layout, f: int)
    requires CachesOk(h, g) && h'.mem == h.mem && h'.caches == h.caches
    requires g'.slabs == g.slabs && g'.freeObjs == g.freeObjs
    requires f in g'.kind && (f in g.kind ==> !g.kind[f].SlabFrame?) && !g'.kind[f].SlabFrame?
    requires forall a :: a != f ==> (a in g.kind <==> a in g'.kind)
    requires forall a :: a != f && a in g.kind ==> g'.kind[a] == g.kind[a]
    ensures CachesOk(h', g')
  {
    hide Linked, SlabOk, Distinct;
    forall c: nat | c < 8 ensures CacheOk(h', g', c) {
      assert CacheOk(h, g, c);
      forall s ensures s in g'.slabs[c] <==> IsSlab(g', s, c) {
        assert s in g.slabs[c] <==> IsSlab(g, s, c);
      }
    }
  }

  lemma LiveGainsFrame(h: Heap, g: Layout, g': Layout, f: int)
    requires PoolOk(h, g) && LiveOk(g) && f % 4096 == 0 && (f in g.kind ==> g.kind[f] == FreeFrame)
    requires g'.kind == g.kind[f := BlockFrame] && g'.live == g.live[f := PAGE]
    requires g'.freeObjs == g.freeObjs
    requires forall s :: s in g.freeObjs ==> s in g.kind && g.kind[s].SlabFrame?
    ensures LiveOk(g') && f !in g.live
  {
    hide IsObject, SlabSize;
    PageAligned(f);
    assert f in g.live ==> IsLive(g, f, g.live[f]);
    forall p | p in g'.live ensures IsLive(g', p, g'.live[p]) {
      if p != f { assert IsLive(g, p, g.live[p]); }
    }
    forall p, cap | IsLive(g', p, cap) ensures p in g'.live {
      if p != f { assert IsLive(g, p, cap); }
    }
  }

  /** The next frame of the pool becomes a client block. */
  function BumpFrame(h: Heap, g: Layout): Layout
  {
    var f := h.frameStart * 4096;
    g.(kind := g.kind[f := BlockFrame], live := g.live[f := PAGE])
  }

  lemma BumpFrameOk(h: Heap, g: Layout)
    requires Inv(h, g) && h.nFrames > 0
    ensures var f := h.frameStart * 4096;
            && f !in g.live && f % 4096 == 0
            && Inv(h.(frameStart := h.frameStart + 1, nFrames := h.nFrames - 1), BumpFrame(h, g))
  {
    hide Linked, SlabOk;
    var f := h.frameStart * 4096;
    var h', g' := h.(frameStart := h.frameStart + 1, nFrames := h.nFrames - 1), BumpFrame(h, g);
    assert f !in g.kind;
    CachesKeep(h, g, h', g', f);
    LiveGainsFrame(h, g, g', f);
  }

  /** A client block that is a whole frame goes back on the free list. */
  function PushFrame(g: Layout, p: int): Layout
    requires p in g.kind
  {
    g.(freeFrames := [p] + g.freeFrames, kind := g.kind[p := FreeFrame], live := g.live - {p})
  }

  lemma PushFrameOk(h: Heap, g: Layout, p: int)
    requires Inv(h, g) && p in g.kind && g.kind[p] == BlockFrame
    requires Word(h.mem, p) == h.freeList
    ensures Inv(h.(freeList := p), PushFrame(g, p))
  {
    hide SlabOk, Word;
    var h', g' := h.(freeList := p), PushFrame(g, p);
    var xs, xs' := g.freeFrames, g'.freeFrames;
    PageAligned(p);
    LinkedCons(h.mem, 0, p, xs);
    hide Linked;
    CachesKeep(h, g, h', g', p);
    LiveLosesFrame(h, g, g', p);
  }

  lemma LiveLosesFrame(h: Heap, g: Layout, g': Layout, p: int)
    requires Inv(h, g) && p in g.kind && g.kind[p] == BlockFrame
    requires g'.kind == g.kind[p := FreeFrame] && g'.live == g.live - {p}
    requires g'.freeObjs == g.freeObjs
    ensures LiveOk(g')
  {
    hide IsObject, SlabSize, FramesOk, CacheOk, SlabOk;
    PageAligned(p);
    forall q | q in g'.live ensures IsLive(g', q, g'.live[q]) {
      assert IsLive(g, q, g.live[q]);
    }
    forall q, cap | IsLive(g', q, cap) ensures q in g'.live {
      assert IsLive(g, q, cap);
    }
  }

  /** Every object address of a slab, in the order CreateSlab links them. */
  function AllObjects(s: int, c: nat): (xs: seq<int>)
    requires c < 8
    ensures |xs| == Objects(c)
    ensures forall i :: 0 <= i < |xs| ==> xs[i] == s + HEADER + i * SlabSize(c)
  {
    seq(Objects(c), i => s + HEADER + i * SlabSize(c))
  }

  lemma ObjectIndex(s: int, c: nat, i: int)
    requires c < 8 && 0 <= i < Objects(c)
    ensures IsObject(s, c, s + HEADER + i * SlabSize(c))
  {
    ObjectsTable(c);
    hide SlabSize, Objects, ObjectsEnd;
    Arith64.MulMono(i + 1, Objects(c), SlabSize(c));
    Arith64.MulMono(0, i, SlabSize(c));
    MultipleMod(i, SlabSize(c));
  }

  lemma MultipleMod(i: int, size: int)
    requires size >= 1
    ensures (i * size) % size == 0
  {
    var q, r := (i * size) / size, (i * size) % size;
    assert (i - q) * size == r;
    if i - q >= 1 { Arith64.MulMono(1, i - q, size); }
    if i - q <= -1 { Arith64.MulMono(i - q, -1, size); }
  }

  /** The list holds exactly the objects, each once. */
  lemma AllObjectsExact(s: int, c: nat)
    requires c < 8
    ensures Distinct(AllObjects(s, c))
    ensures forall x :: x in AllObjects(s, c) <==> IsObject(s, c, x)
  {
    hide SlabSize, Objects, ObjectsEnd, OnGrid;
    var xs := AllObjects(s, c);
    forall i, j | 0 <= i < j < |xs| ensures xs[i] != xs[j] {
      Arith64.MulMono(i + 1, j, SlabSize(c));
    }
    forall x | x in xs ensures IsObject(s, c, x) {
      var i :| 0 <= i < |xs| && xs[i] == x;
      ObjectIndex(s, c, i);
    }
    forall x | IsObject(s, c, x) ensures x in xs {
      var i := IndexOfObject(s, c, x);
      assert xs[i] == x;
    }
  }

  lemma IndexOfObject(s: int, c: nat, x: int) returns (i: int)
    requires c < 8 && IsObject(s, c, x)
    ensures 0 <= i < Objects(c) && x == s + HEADER + i * SlabSize(c)
  {
    ObjectsTable(c);
    hide SlabSize, Objects, ObjectsEnd;
    var d := x - (s + HEADER);
    i := d / SlabSize(c);
    assert d == i * SlabSize(c);
    if i < 0 { Arith64.MulMono(i, -1, SlabSize(c)); }
    if i >= Objects(c) { Arith64.MulMono(Objects(c), i, SlabSize(c)); }
  }

  /** A client block holding a freshly built slab joins its cache. */
  function Install(g: Layout, s: int, c: nat): Layout
    requires c < 8 && |g.slabs| == 8
  {
    g.(kind := g.kind[s := SlabFrame(c)],
       slabs := g.slabs[c := [s] + g.slabs[c]],
       freeObjs := g.freeObjs[s := AllObjects(s, c)],
       live := g.live - {s})
  }

  lemma InstallOk(h: Heap, g: Layout, s: int, c: nat)
    requires Inv(h, g) && c < 8 && s in g.kind && g.kind[s] == BlockFrame
    requires SlabOk(h.mem, s, c, AllObjects(s, c)) && Word(h.mem, s + NEXT) == h.caches[c]
    ensures Inv(h.(caches := h.caches[c := s]), Install(g, s, c))
  {
    hide SlabOk, Word, AllObjects, Linked, Distinct;
    var h', g' := h.(caches := h.caches[c := s]), Install(g, s, c);
    forall d: nat | d < 8 ensures CacheOk(h', g', d) {
      InstallCache(h, g, s, c, d);
    }
    InstallLive(h, g, s, c);
  }

  lemma InstallCache(h: Heap, g: Layout, s: int, c: nat, d: nat)
    requires Inv(h, g) && c < 8 && d < 8 && s in g.kind && g.kind[s] == BlockFrame
    requires Word(h.mem, s + NEXT) == h.caches[c]
    ensures CacheOk(h.(caches := h.caches[c := s]), Install(g, s, c), d)
  {
    hide SlabOk, Word, AllObjects, PoolOk, FramesOk, LiveOk, Linked, Distinct;
    var h', g' := h.(caches := h.caches[c := s]), Install(g, s, c);
    assert CacheOk(h, g, d);
    assert !IsSlab(g, s, d);
    forall x ensures x in g'.slabs[d] <==> IsSlab(g', x, d) {
      assert x in g.slabs[d] <==> IsSlab(g, x, d);
    }
    if d == c { LinkedCons(h.mem, NEXT, s, g.slabs[d]); }
  }

  lemma InstallLive(h: Heap, g: Layout, s: int, c: nat)
    requires Inv(h, g) && c < 8 && s in g.kind && g.kind[s] == BlockFrame
    ensures LiveOk(Install(g, s, c))
  {
    hide SlabOk, CacheOk, FramesOk, OnGrid, SlabSize, ObjectsEnd, AllObjects;
    var g' := Install(g, s, c);
    AllObjectsExact(s, c);
    PageAligned(s);
    assert IsLive(g, s, PAGE);
    forall p | p in g'.live ensures IsLive(g', p, g'.live[p]) {
      assert IsLive(g, p, g.live[p]);
    }
    forall p, cap | IsLive(g', p, cap) ensures p in g'.live {
      if FrameOf(p) != s { assert IsLive(g, p, cap); }
      if p in g'.kind { PageAligned(p); }
    }
  }

  // ---------------------------------------------------------------------
  // Popping and pushing objects
  // ---------------------------------------------------------------------

  lemma OtherWord(mem: seq<int>, mem': seq<int>, s: int, a: int)
    requires SameOutside(mem, mem', s, 4) && s % 4 == 0 && a % 4 == 0 && a != s
    ensures Word(mem', a) == Word(mem, a)
  {
    hide SameOutside, Word;
    assert a == 4 * (a / 4) && s == 4 * (s / 4);
    WordSame(mem, mem', s, 4, a);
  }

  lemma SlabIsFrame(h: Heap, g: Layout, s: int)
    requires Inv(h, g) && s in g.freeObjs
    ensures s in g.kind && g.kind[s].SlabFrame? && g.kind[s].class_ < 8 && s % 4096 == 0
    ensures SlabOk(h.mem, s, g.kind[s].class_, g.freeObjs[s])
    ensures s in g.slabs[g.kind[s].class_]
  {
    hide SlabOk, FramesOk, LiveOk, Linked, Distinct;
    var c := g.kind[s].class_;
    assert CacheOk(h, g, c) && IsSlab(g, s, c);
  }

  lemma SlabFree(h: Heap, g: Layout, s: int, i: int)
    requires Inv(h, g) && s in g.freeObjs && 0 <= i < |g.freeObjs[s]|
    ensures s in g.kind && g.kind[s].SlabFrame? && g.kind[s].class_ < 8
    ensures var x := g.freeObjs[s][i];
            IsObject(s, g.kind[s].class_, x) && s + HEADER <= x && x % 4 == 0 && FrameOf(x) == s
            && LinkAt(h.mem, 0, g.freeObjs[s], i)
  {
    hide Inv, Distinct, HeaderOk, OnGrid, SlabSize, ObjectsEnd, IsObject, Word, LinkAt, FrameOf;
    SlabIsFrame(h, g, s);
    var x := g.freeObjs[s][i];
    assert x in g.freeObjs[s];
    ObjectBounds(s, g.kind[s].class_, x);
  }

  /** Writing the `free_list` word of slab `s` disturbs no other structure: not
      the frame free list, ... */
  lemma HeadWordFrames(h: Heap, g: Layout, s: int, mem': seq<int>)
    requires Inv(h, g) && s in g.freeObjs && SameOutside(h.mem, mem', s, 4)
    ensures FramesOk(h.(mem := mem'), g)
  {
    hide CachesOk, LiveOk, SameOutside, Word, Distinct;
    SlabIsFrame(h, g, s);
    PageAligned(s);
    forall i | 0 <= i < |g.freeFrames| ensures LinkAt(mem', 0, g.freeFrames, i) {
      assert LinkAt(h.mem, 0, g.freeFrames, i);
      var f := g.freeFrames[i];
      assert f in g.freeFrames;
      PageAligned(f);
      OtherWord(h.mem, mem', s, f);
    }
  }

  /** ... not the rest of any slab header, ... */
  lemma HeadWordHeader(h: Heap, g: Layout, s: int, mem': seq<int>, t: int, off: int)
    requires Inv(h, g) && s in g.freeObjs && SameOutside(h.mem, mem', s, 4)
    requires t in g.freeObjs && 0 <= off < HEADER && off % 4 == 0 && (t != s || off != 0)
    ensures Word(mem', t + off) == Word(h.mem, t + off)
  {
    hide Inv, SlabOk, SameOutside, Word;
    SlabIsFrame(h, g, s);
    SlabIsFrame(h, g, t);
    PageAligned(s);
    PageAligned(t);
    if t != s { FramesApart(s, t); }
    FourSum(t, off);
    OtherWord(h.mem, mem', s, t + off);
  }

  /** ... not a link between free objects, ... */
  lemma HeadWordLink(h: Heap, g: Layout, s: int, mem': seq<int>, t: int, i: int)
    requires Inv(h, g) && s in g.freeObjs && SameOutside(h.mem, mem', s, 4)
    requires t in g.freeObjs && 0 <= i < |g.freeObjs[t]|
    ensures LinkAt(mem', 0, g.freeObjs[t], i)
  {
    hide Inv, SlabOk, SameOutside, Word, IsObject;
    SlabIsFrame(h, g, s);
    PageAligned(s);
    SlabFree(h, g, t, i);
    OtherWord(h.mem, mem', s, g.freeObjs[t][i]);
  }

  /** ... not another slab, ... */
  lemma HeadWordSlab(h: Heap, g: Layout, s: int, mem': seq<int>, t: int)
    requires Inv(h, g) && s in g.freeObjs && SameOutside(h.mem, mem', s, 4) && t in g.freeObjs
    ensures t in g.kind && g.kind[t].SlabFrame? && g.kind[t].class_ < 8
    ensures HeaderOk(mem', t, g.kind[t].class_)
    ensures t != s ==> SlabOk(mem', t, g.kind[t].class_, g.freeObjs[t])
  {
    hide Inv, SameOutside, Word, IsObject, LinkAt, Distinct, SlabSize, Objects;
    SlabIsFrame(h, g, t);
    HeadWordHeader(h, g, s, mem', t, OBJSTART);
    HeadWordHeader(h, g, s, mem', t, N_OBJECTS);
    HeadWordHeader(h, g, s, mem', t, OBJSIZE);
    if t != s {
      HeadWordHeader(h, g, s, mem', t, FREE_LIST);
      forall i | 0 <= i < |g.freeObjs[t]| ensures LinkAt(mem', 0, g.freeObjs[t], i) {
        HeadWordLink(h, g, s, mem', t, i);
      }
    }
  }

  /** ... and not a list of slabs. */
  lemma HeadWordCache(h: Heap, g: Layout, s: int, mem': seq<int>, c: nat)
    requires Inv(h, g) && s in g.freeObjs && SameOutside(h.mem, mem', s, 4) && c < 8
    ensures CacheOk(h.(mem := mem'), g, c)
  {
    hide SlabOk, LiveOk, FramesOk, PoolOk, SameOutside, Word, Distinct;
    assert CacheOk(h, g, c);
    forall i | 0 <= i < |g.slabs[c]| ensures LinkAt(mem', NEXT, g.slabs[c], i) {
      assert LinkAt(h.mem, NEXT, g.slabs[c], i);
      assert IsSlab(g, g.slabs[c][i], c);
      HeadWordHeader(h, g, s, mem', g.slabs[c][i], NEXT);
    }
  }

  /** Replacing the free list of one slab, in memory and in the layout. */
  function SetFree(g: Layout, s: int, free: seq<int>, live: map<int, int>): Layout
  {
    g.(freeObjs := g.freeObjs[s := free], live := live)
  }

  lemma SetFreeOk(h: Heap, g: Layout, s: int, mem': seq<int>, free: seq<int>, live: map<int, int>)
    requires Inv(h, g) && s in g.freeObjs && SameOutside(h.mem, mem', s, 4)
    requires s in g.kind && g.kind[s].SlabFrame? && g.kind[s].class_ < 8
    requires Linked(mem', Word(mem', s), 0, free) && Distinct(free)
    requires forall x :: x in free ==> IsObject(s, g.kind[s].class_, x)
    requires LiveOk(SetFree(g, s, free, live))
    ensures Inv(h.(mem := mem'), SetFree(g, s, free, live))
  {
    hide Word, Linked, Distinct, IsObject, LiveOk;
    var h', g' := h.(mem := mem'), SetFree(g, s, free, live);
    HeadWordFrames(h, g, s, mem');
    forall c: nat | c < 8 ensures CacheOk(h', g', c) {
      HeadWordCache(h, g, s, mem', c);
      assert forall t :: IsSlab(g', t, c) <==> IsSlab(g, t, c);
    }
    forall t | t in g'.freeObjs ensures SlabOk(mem', t, g'.kind[t].class_, g'.freeObjs[t]) {
      HeadWordSlab(h, g, s, mem', t);
    }
  }

  /** The first free object of a slab goes to a client. */
  lemma PopObjectOk(h: Heap, g: Layout, s: int, mem': seq<int>)
    requires Inv(h, g) && s in g.freeObjs && g.freeObjs[s] != []
    requires SameOutside(h.mem, mem', s, 4) && Word(mem', s) == Word(h.mem, g.freeObjs[s][0])
    ensures s in g.kind && g.kind[s].SlabFrame? && g.kind[s].class_ < 8
    ensures var x := g.freeObjs[s][0];
            var size := SlabSize(g.kind[s].class_);
            && x !in g.live && x % 8 == 0
            && Inv(h.(mem := mem'), SetFree(g, s, g.freeObjs[s][1..], g.live[x := size]))
  {
    hide Inv, Word, IsObject, LiveOk, SameOutside, Linked, Distinct, HeaderOk, SlabSize;
    SlabIsFrame(h, g, s);
    var free, c := g.freeObjs[s], g.kind[s].class_;
    var x := free[0];
    assert x in free;
    ObjectBounds(s, c, x);
    PopObjectList(h, g, s, mem');
    PopObjectLive(h, g, s);
    SetFreeOk(h, g, s, mem', free[1..], g.live[x := SlabSize(c)]);
  }

  lemma PopObjectList(h: Heap, g: Layout, s: int, mem': seq<int>)
    requires Inv(h, g) && s in g.freeObjs && g.freeObjs[s] != []
    requires SameOutside(h.mem, mem', s, 4) && Word(mem', s) == Word(h.mem, g.freeObjs[s][0])
    ensures Linked(mem', Word(mem', s), 0, g.freeObjs[s][1..]) && Distinct(g.freeObjs[s][1..])
  {
    hide Inv, Word, SameOutside, LinkAt;
    SlabIsFrame(h, g, s);
    var free := g.freeObjs[s];
    LinkedTail(h.mem, free);
    forall i | 0 <= i < |free[1..]| ensures LinkAt(mem', 0, free[1..], i) {
      HeadWordLink(h, g, s, mem', s, i + 1);
      LinkTail(mem', free, i);
    }
  }

  lemma LinkTail(mem: seq<int>, xs: seq<int>, i: int)
    requires 0 <= i && i + 1 < |xs| && LinkAt(mem, 0, xs, i + 1)
    ensures LinkAt(mem, 0, xs[1..], i)
  {}

  lemma PopObjectLive(h: Heap, g: Layout, s: int)
    requires Inv(h, g) && s in g.freeObjs && g.freeObjs[s] != []
    ensures s in g.kind && g.kind[s].SlabFrame? && g.kind[s].class_ < 8
    ensures g.freeObjs[s][0] !in g.live
    ensures LiveOk(SetFree(g, s, g.freeObjs[s][1..],
                           g.live[g.freeObjs[s][0] := SlabSize(g.kind[s].class_)]))
  {
    hide FramesOk, CacheOk, IsObject, SlabSize, SlabOk, FrameOf;
    SlabIsFrame(h, g, s);
    SlabFree(h, g, s, 0);
    var free := g.freeObjs[s];
    var x := free[0];
    var g' := SetFree(g, s, free[1..], g.live[x := SlabSize(g.kind[s].class_)]);
    assert x !in g.kind by { if x in g.kind { PageAligned(x); } }
    assert x !in free[1..] by { assert SlabOk(h.mem, s, g.kind[s].class_, free);
           DistinctHead(h.mem, s, g.kind[s].class_, free); }
    assert x in g.live ==> IsLive(g, x, g.live[x]);
    forall p | p in g'.live ensures IsLive(g', p, g'.live[p]) {
      if p != x { assert IsLive(g, p, g.live[p]); }
    }
    forall p, cap | IsLive(g', p, cap) ensures p in g'.live {
      if p != x { assert IsLive(g, p, cap); }
    }
  }

  lemma DistinctHead(mem: seq<int>, s: int, c: nat, free: seq<int>)
    requires c < 8 && SlabOk(mem, s, c, free) && free != []
    ensures free[0] !in free[1..]
  {}

  /** A client block that is a slab object goes back on its slab's free list. */
  lemma PushObjectOk(h: Heap, g: Layout, s: int, x: int, mem': seq<int>)
    requires Inv(h, g) && s in g.freeObjs && x in g.live && FrameOf(x) == s && x != s
    requires SameOutside(h.mem, mem', s, 4) && Word(mem', s) == x && Word(h.mem, x) == Word(h.mem, s)
    ensures Inv(h.(mem := mem'), SetFree(g, s, [x] + g.freeObjs[s], g.live - {x}))
  {
    hide Inv, Word, IsObject, LiveOk, SameOutside, Linked, Distinct, HeaderOk, SlabSize;
    SlabIsFrame(h, g, s);
    LiveObject(h, g, s, x);
    var free, c := g.freeObjs[s], g.kind[s].class_;
    PushObjectList(h, g, s, x, mem');
    PushObjectLive(h, g, s, x);
    SetFreeOk(h, g, s, mem', [x] + free, g.live - {x});
  }

  /** A live block inside a slab frame is an object not on the free list. */
  lemma LiveObject(h: Heap, g: Layout, s: int, x: int)
    requires Inv(h, g) && s in g.freeObjs && x in g.live && FrameOf(x) == s
    ensures s in g.kind && g.kind[s].SlabFrame? && g.kind[s].class_ < 8 && s % 4096 == 0
    ensures IsObject(s, g.kind[s].class_, x) && x !in g.freeObjs[s] && x !in g.kind
    ensures g.live[x] == SlabSize(g.kind[s].class_) && x % 4 == 0 && x >= s + HEADER
  {
    hide FramesOk, CacheOk, OnGrid, SlabSize, ObjectsEnd, SlabOk;
    assert IsLive(g, x, g.live[x]);
    if x in g.kind { PageAligned(x); }
    ObjectBounds(s, g.kind[s].class_, x);
    SlabIsFrame(h, g, s);
  }

  lemma PushObjectList(h: Heap, g: Layout, s: int, x: int, mem': seq<int>)
    requires Inv(h, g) && s in g.freeObjs && x in g.live && FrameOf(x) == s
    requires SameOutside(h.mem, mem', s, 4) && Word(mem', s) == x && Word(h.mem, x) == Word(h.mem, s)
    ensures Linked(mem', Word(mem', s), 0, [x] + g.freeObjs[s]) && Distinct([x] + g.freeObjs[s])
  {
    hide Inv, Word, SameOutside, LinkAt, IsObject, HeaderOk, SlabSize;
    SlabIsFrame(h, g, s);
    LiveObject(h, g, s, x);
    var free := g.freeObjs[s];
    PageAligned(s);
    OtherWord(h.mem, mem', s, x);
    forall i | 0 <= i < |free| ensures LinkAt(mem', 0, free, i) {
      HeadWordLink(h, g, s, mem', s, i);
    }
    LinkedCons(mem', 0, x, free);
  }

  lemma PushObjectLive(h: Heap, g: Layout, s: int, x: int)
    requires Inv(h, g) && s in g.freeObjs && x in g.live && FrameOf(x) == s
    ensures LiveOk(SetFree(g, s, [x] + g.freeObjs[s], g.live - {x}))
  {
    hide FramesOk, CacheOk, IsObject, SlabSize, SlabOk;
    LiveObject(h, g, s, x);
    var g' := SetFree(g, s, [x] + g.freeObjs[s], g.live - {x});
    forall p | p in g'.live ensures IsLive(g', p, g'.live[p]) {
      assert IsLive(g, p, g.live[p]);
    }
    forall p, cap | IsLive(g', p, cap) ensures p in g'.live {
      assert IsLive(g, p, cap);
    }
  }
}
