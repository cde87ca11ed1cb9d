/** The operations of the boot manager's heap, over the layout and invariant of
    HeapLayout: kmalloc, kzalloc, kfree (bootmanager/core/common/kmalloc.c) and
    AllocateFrame, FreeFrame (bootmanager/core/common/frame.c). */
module BootHeap {
  import Arith64
  import opened HeapLayout
  import opened HeapCount

  // ---------------------------------------------------------------------
  // Memory contents
  // ---------------------------------------------------------------------

  /** What a client sees in its block, word by word. */
  function Contents(mem: seq<int>, p: int, n: int): seq<int>
  {
    if 0 <= p / 4 <= (p + n) / 4 <= |mem| then mem[p / 4..(p + n) / 4] else []
  }

  function Overwrite(s: seq<int>, i: int, v: int): seq<int>
  {
    if 0 <= i < |s| then s[i := v] else s
  }

  /** No block in `live` has lost a word. */
  ghost predicate Untouched(live: map<int, int>, mem: seq<int>, mem': seq<int>)
  {
    forall p :: p in live ==> Contents(mem', p, live[p]) == Contents(mem, p, live[p])
  }

  /** kzeromem */
  function ZeroRange(mem: seq<int>, p: int, n: int): (m: seq<int>)
    ensures SameOutside(mem, m, p, n)
    ensures forall i :: 0 <= i < |m| && p <= 4 * i < p + n ==> m[i] == 0
  {
    seq(|mem|, i requires 0 <= i < |mem| => if p <= 4 * i < p + n then 0 else mem[i])
  }

  /** A store of one word. */
  function Store(mem: seq<int>, a: int, v: int): (m: seq<int>)
    requires 0 <= a < 4 * |mem| && a % 4 == 0
    ensures Word(m, a) == v && SameOutside(mem, m, a, 4) && |m| == |mem|
  {
    mem[a / 4 := v]
  }

  lemma NotInside(q: int, n: int, p: int, m: int, x: int)
    requires Apart(q, n, p, m) && p <= x < p + m
    ensures !(q <= x < q + n)
  {}

  lemma WordBounds(p: int, m: int)
    requires p % 8 == 0 && m % 8 == 0 && 0 <= p && 0 <= m
    ensures p == 4 * (p / 4) && p + m == 4 * ((p + m) / 4) && 0 <= p / 4 <= (p + m) / 4
  {
    var k, l := p / 8, m / 8;
    FourFold(2 * k, p);
    FourFold(2 * k + 2 * l, p + m);
  }

  lemma WordKept(mem: seq<int>, mem': seq<int>, q: int, n: int, i: int)
    requires SameOutside(mem, mem', q, n) && 0 <= i < |mem| && !(q <= 4 * i < q + n)
    ensures |mem'| == |mem| && mem'[i] == mem[i]
  {}

  lemma WordsSame(mem: seq<int>, mem': seq<int>, q: int, n: int, p: int, m: int, a: int, b: int)
    requires SameOutside(mem, mem', q, n) && Apart(q, n, p, m)
    requires p == 4 * a && p + m == 4 * b && 0 <= a <= b <= |mem|
    ensures |mem'| == |mem| && mem'[a..b] == mem[a..b]
  {
    hide Apart;
    forall i | a <= i < b ensures mem'[i] == mem[i] {
      NotInside(q, n, p, m, 4 * i);
      WordKept(mem, mem', q, n, i);
    }
  }

  lemma ContentsAt(mem: seq<int>, p: int, m: int, a: int, b: int)
    requires p == 4 * a && p + m == 4 * b && 0 <= a <= b
    ensures Contents(mem, p, m) == if b <= |mem| then mem[a..b] else []
  {
    FourFold(a, p);
    FourFold(b, p + m);
  }

  lemma ContentsSame(mem: seq<int>, mem': seq<int>, q: int, n: int, p: int, m: int)
    requires SameOutside(mem, mem', q, n) && Apart(q, n, p, m)
    requires p % 8 == 0 && m % 8 == 0 && 0 <= p && 0 <= m
    ensures Contents(mem', p, m) == Contents(mem, p, m)
  {
    hide Apart, Contents;
    var a, b := p / 4, (p + m) / 4;
    WordBounds(p, m);
    ContentsAt(mem, p, m, a, b);
    ContentsAt(mem', p, m, a, b);
    if b <= |mem| { WordsSame(mem, mem', q, n, p, m, a, b); }
  }

  /** A change inside one live block is invisible in all the others. */
  lemma OthersUntouched(h: Heap, g: Layout, mem': seq<int>, q: int, live: map<int, int>)
    requires Inv(h, g) && q in g.live && SameOutside(h.mem, mem', q, g.live[q])
    requires forall p :: p in live ==> p in g.live && g.live[p] == live[p] && p != q
    ensures Untouched(live, h.mem, mem')
  {
    hide Inv, SameOutside, Contents, Apart;
    forall p | p in live ensures Contents(mem', p, live[p]) == Contents(h.mem, p, live[p]) {
      LiveApart(h, g, q, p);
      LiveBounds(h, g, p);
      ContentsSame(h.mem, mem', q, g.live[q], p, g.live[p]);
    }
  }

  /** A change of a slab's `free_list` word is invisible in every live block. */
  lemma HeadWordUntouched(h: Heap, g: Layout, mem': seq<int>, s: int, live: map<int, int>)
    requires Inv(h, g) && s in g.freeObjs && SameOutside(h.mem, mem', s, 4)
    requires forall p :: p in live ==> p in g.live && g.live[p] == live[p]
    ensures Untouched(live, h.mem, mem')
  {
    hide Inv, SameOutside, Contents;
    forall p | p in live ensures Contents(mem', p, live[p]) == Contents(h.mem, p, live[p]) {
      HeaderApart(h, g, p, s);
      LiveBounds(h, g, p);
      ContentsSame(h.mem, mem', s, 4, p, g.live[p]);
    }
  }

  lemma UntouchedTrans(live: map<int, int>, m0: seq<int>, m1: seq<int>, m2: seq<int>)
    requires Untouched(live, m0, m1) && Untouched(live, m1, m2)
    ensures Untouched(live, m0, m2)
  {}

  lemma SameOutsideTrans(m0: seq<int>, m1: seq<int>, m2: seq<int>, a: int, n: int, p: int, m: int)
    requires SameOutside(m0, m1, p, m) && SameOutside(m1, m2, a, n) && p <= a && a + n <= p + m
    ensures SameOutside(m0, m2, p, m)
  {}

  // ---------------------------------------------------------------------
  // Building a slab
  // ---------------------------------------------------------------------

  lemma StoreWord(mem: seq<int>, a: int, v: int, b: int)
    requires 0 <= a < 4 * |mem| && a % 4 == 0 && b % 4 == 0 && a != b
    ensures Word(Store(mem, a, v), b) == Word(mem, b)
  {
    hide Word, SameOutside, Store;
    OtherWord(mem, Store(mem, a, v), a, b);
  }

  lemma StoreInside(mem0: seq<int>, mem: seq<int>, a: int, v: int, p: int, m: int)
    requires 0 <= a < 4 * |mem| && a % 4 == 0
    requires SameOutside(mem0, mem, p, m) && p <= a && a + 4 <= p + m
    ensures SameOutside(mem0, Store(mem, a, v), p, m)
  {
    hide Word, SameOutside, Store;
    SameOutsideTrans(mem0, mem, Store(mem, a, v), a, 4, p, m);
  }

  /** The header stores of CreateSlab (kmalloc.c:81-89,97). */
  function FormatHeader(mem: seq<int>, s: int, size: int, n: int): (m: seq<int>)
    requires |mem| == MEM_WORDS && s % 4096 == 0 && HEAP_START <= s && s + PAGE <= HEAP_END
    ensures |m| == MEM_WORDS
  {
    PageAligned(s);
    var m := Store(mem, s + OBJSIZE, size);
    var m := Store(m, s + NEXT, 0);
    var m := Store(m, s + OBJSTART, s + HEADER);
    var m := Store(m, s + N_OBJECTS, n);
    Store(m, s + FREE_LIST, s + HEADER)
  }

  lemma FormatHeaderOk(mem: seq<int>, s: int, c: nat)
    requires |mem| == MEM_WORDS && c < 8 && s % 4096 == 0 && HEAP_START <= s && s + PAGE <= HEAP_END
    ensures var m := FormatHeader(mem, s, SlabSize(c), Objects(c));
            SameOutside(mem, m, s, PAGE) && HeaderOk(m, s, c) && Word(m, s) == s + HEADER
  {
    hide Store, Word, SlabSize, Objects, ObjectsEnd;
    PageAligned(s);
    var m1 := Store(mem, s + OBJSIZE, SlabSize(c));
    var m2 := Store(m1, s + NEXT, 0);
    var m3 := Store(m2, s + OBJSTART, s + HEADER);
    var m4 := Store(m3, s + N_OBJECTS, Objects(c));
    StoreWord(m1, s + NEXT, 0, s + OBJSIZE);
    StoreWord(m2, s + OBJSTART, s + HEADER, s + OBJSIZE);
    StoreWord(m3, s + N_OBJECTS, Objects(c), s + OBJSIZE);
    StoreWord(m4, s + FREE_LIST, s + HEADER, s + OBJSIZE);
    StoreWord(m3, s + N_OBJECTS, Objects(c), s + OBJSTART);
    StoreWord(m4, s + FREE_LIST, s + HEADER, s + OBJSTART);
    StoreWord(m4, s + FREE_LIST, s + HEADER, s + N_OBJECTS);
  }

  /** The threading loop of CreateSlab (kmalloc.c:96-103). */
  method ThreadObjects(mem: seq<int>, s: int, size: int, n: int, ghost c: nat) returns (m: seq<int>)
    requires c < 8 && size == SlabSize(c) && n == Objects(c)
    requires |mem| == MEM_WORDS && s % 4096 == 0 && HEAP_START <= s && s + PAGE <= HEAP_END
    ensures SameOutside(mem, m, s + HEADER, PAGE - HEADER)
    ensures Linked(m, s + HEADER, 0, AllObjects(s, c))
  {
    hide SameOutside, Word, SlabSize, Objects, ObjectsEnd, IsObject;
    ghost var xs := AllObjects(s, c);
    m := mem;
    var ptr := s + HEADER;
    var i := 0;
    assert SameOutside(mem, m, s + HEADER, PAGE - HEADER) by { SameOutsideRefl(mem, s + HEADER, PAGE - HEADER); }
    while i < n - 1
      invariant 0 <= i <= n - 1 && ptr == xs[i] && |m| == MEM_WORDS
      invariant SameOutside(mem, m, s + HEADER, PAGE - HEADER)
      invariant forall k :: 0 <= k < i ==> LinkAt(m, 0, xs, k)
    {
      ObjectRoom(s, c, i);
      ghost var before := m;
      assert ptr + size == xs[i + 1];
      m := Store(m, ptr, ptr + size);
      StoreInside(mem, before, ptr, ptr + size, s + HEADER, PAGE - HEADER);
      forall k | 0 <= k < i ensures LinkAt(m, 0, xs, k) {
        assert LinkAt(before, 0, xs, k);
        ObjectRoom(s, c, k);
        ObjectOrder(s, c, k, i);
        StoreWord(before, ptr, ptr + size, xs[k]);
      }
      ptr := ptr + size;
      i := i + 1;
    }
    ObjectRoom(s, c, i);
    ghost var before := m;
    m := Store(m, ptr, 0);
    StoreInside(mem, before, ptr, 0, s + HEADER, PAGE - HEADER);
    forall k | 0 <= k < |xs| ensures LinkAt(m, 0, xs, k) {
      if k < i {
        assert LinkAt(before, 0, xs, k);
        ObjectRoom(s, c, k);
        ObjectOrder(s, c, k, i);
        StoreWord(before, ptr, 0, xs[k]);
      }
    }
  }

  lemma SameOutsideRefl(mem: seq<int>, p: int, n: int)
    ensures SameOutside(mem, mem, p, n)
  {}

  lemma ObjectRoom(s: int, c: nat, i: int)
    requires c < 8 && s % 4096 == 0 && 0 <= i < Objects(c)
    ensures var x := AllObjects(s, c)[i];
            x % 4 == 0 && s + HEADER <= x && x + 4 <= s + PAGE
  {
    hide SlabSize, Objects, ObjectsEnd, OnGrid, IsObject, FrameOf;
    ObjectIndex(s, c, i);
    ObjectBounds(s, c, AllObjects(s, c)[i]);
  }

  lemma ObjectOrder(s: int, c: nat, k: int, i: int)
    requires c < 8 && 0 <= k < i < Objects(c)
    ensures AllObjects(s, c)[k] < AllObjects(s, c)[i]
  {
    hide SlabSize, Objects;
    Arith64.MulMono(k + 1, i, SlabSize(c));
  }

  lemma BelowObjects(mem: seq<int>, m: seq<int>, s: int, off: int)
    requires s % 4 == 0 && 0 <= off < HEADER && off % 4 == 0
    requires SameOutside(mem, m, s + HEADER, PAGE - HEADER)
    ensures Word(m, s + off) == Word(mem, s + off)
  {
    hide SameOutside, Word;
    assert (s + off) % 4 == 0;
    WordSame(mem, m, s + HEADER, PAGE - HEADER, s + off);
  }

  /** The two parts together make a slab with every object free. */
  lemma SlabBuilt(mem: seq<int>, m: seq<int>, s: int, c: nat)
    requires c < 8 && s % 4096 == 0 && HeaderOk(mem, s, c) && Word(mem, s) == s + HEADER
    requires SameOutside(mem, m, s + HEADER, PAGE - HEADER)
    requires Linked(m, s + HEADER, 0, AllObjects(s, c))
    ensures SlabOk(m, s, c, AllObjects(s, c))
  {
    hide SameOutside, Word, SlabSize, Objects, ObjectsEnd, AllObjects, Linked, IsObject, Distinct;
    PageAligned(s);
    AllObjectsExact(s, c);
    BelowObjects(mem, m, s, FREE_LIST);
    BelowObjects(mem, m, s, OBJSTART);
    BelowObjects(mem, m, s, N_OBJECTS);
    BelowObjects(mem, m, s, OBJSIZE);
  }

  /** All of CreateSlab's stores. */
  method FormatSlab(mem: seq<int>, s: int, size: int, n: int, ghost c: nat) returns (m: seq<int>)
    requires c < 8 && size == SlabSize(c) && n == Objects(c)
    requires |mem| == MEM_WORDS && s % 4096 == 0 && HEAP_START <= s && s + PAGE <= HEAP_END
    ensures SameOutside(mem, m, s, PAGE) && SlabOk(m, s, c, AllObjects(s, c))
  {
    hide SameOutside, Word, SlabSize, Objects, AllObjects, Linked, HeaderOk, FormatHeader, SlabOk;
    FormatHeaderOk(mem, s, c);
    var m1 := FormatHeader(mem, s, size, n);
    m := ThreadObjects(m1, s, size, n, c);
    SlabBuilt(m1, m, s, c);
    SameOutsideTrans(mem, m1, m, s + HEADER, PAGE - HEADER, s, PAGE);
  }

  /** Dividing the space after the header by an object size. */
  lemma SlabCapacity(size: int, n: int)
    requires size >= 1 && n == (PAGE - HEADER) / size
    ensures size > PAGE - HEADER <==> n == 0
    ensures forall c: nat :: c < 8 && size == SlabSize(c) ==> n == Objects(c)
  {
    forall c: nat | c < 8 && size == SlabSize(c) ensures n == Objects(c) { ObjectsTable(c); }
    if size > PAGE - HEADER { DivSmall(PAGE - HEADER, size); } else { DivLarge(PAGE - HEADER, size); }
  }

  lemma DivSmall(x: int, y: int)
    requires 0 <= x < y
    ensures x / y == 0
  {}

  lemma DivLarge(x: int, y: int)
    requires 1 <= y <= x
    ensures x / y >= 1
  {
    var q := x / y;
    if q <= 0 { Arith64.MulMono(q, 0, y); }
  }

  lemma BlockFrameLive(h: Heap, g: Layout, p: int)
    requires Inv(h, g) && p in g.kind && g.kind[p] == BlockFrame
    ensures p in g.live && g.live[p] == PAGE && p % 4096 == 0 && p % 4 == 0
    ensures |h.mem| == MEM_WORDS && HEAP_START <= p && p + PAGE <= HEAP_END
  {
    hide FramesOk, CacheOk, SlabOk, IsObject;
    PageAligned(p);
    assert IsLive(g, p, PAGE);
    assert IsLive(g, p, g.live[p]);
    FrameBelow(p, h.frameStart);
  }

  // ---------------------------------------------------------------------
  // The allocator
  // ---------------------------------------------------------------------

  class Allocator {
    var mem: seq<int>
    var frameStart: int
    var nFrames: int
    var freeList: int
    var initialized: bool
    var caches: seq<int>        // caches[i].slabs
    var objsizes: seq<int>      // caches[i].objsize

    /** How the memory is divided; see HeapLayout. */
    ghost var g: Layout

    ghost function State(): Heap
      reads this
    {
      Heap(mem, frameStart, nFrames, freeList, caches)
    }

    ghost predicate Valid()
      reads this
    {
      && Inv(State(), g)
      && |objsizes| == 8
      && (initialized ==> forall c: nat :: c < 8 ==> objsizes[c] == SlabSize(c))
      && (!initialized ==> forall c: nat :: c < 8 ==> g.slabs[c] == [])
    }

    /** The statics as the boot manager starts, over memory holding anything. */
    constructor (contents: seq<int>)
      requires |contents| == MEM_WORDS
      ensures Valid() && g.live == map[] && mem == contents && g.slabs == [[], [], [], [], [], [], [], []]
    {
      mem := contents;
      frameStart := HEAP_START / 4096;
      nFrames := (HEAP_END - HEAP_START) / 4096;
      freeList := 0;
      initialized := false;
      caches := [0, 0, 0, 0, 0, 0, 0, 0];
      objsizes := [0, 0, 0, 0, 0, 0, 0, 0];
      g := Layout(map[], [], [[], [], [], [], [], [], [], []], map[], map[]);
    }

    /** No frame is left, neither freed nor untouched. */
    ghost predicate NoFrames()
      reads this
    {
      g.freeFrames == [] && nFrames == 0
    }

    /** AllocateFrame: a zeroed frame that belonged to nobody, or 0. */
    method AllocateFrame() returns (ptr: int)
      requires Valid()
      modifies this`mem, this`frameStart, this`nFrames, this`freeList, this`g
      ensures Valid()
      ensures ptr == 0 <==> old(NoFrames())
      ensures ptr == 0 ==> State() == old(State()) && g == old(g)
      ensures ptr != 0 ==>
                && ptr !in old(g.live) && ptr % 4096 == 0 && ptr >= HEAP_START
                && g.live == old(g.live)[ptr := PAGE] && g.kind == old(g.kind)[ptr := BlockFrame]
                && g.slabs == old(g.slabs) && g.freeObjs == old(g.freeObjs)
                && (forall i :: 0 <= i < |mem| && ptr <= 4 * i < ptr + PAGE ==> mem[i] == 0)
      ensures Untouched(old(g.live), old(mem), mem)
    {
      hide Inv, ZeroRange, Word, SameOutside, Untouched;
      ghost var before := State();
      ghost var g0 := g;
      ptr := 0;
      FreeListHead(State(), g);
      if freeList != 0 {
        PopFrameOk(State(), g);
        ptr := freeList;
        freeList := Word(mem, ptr);
        g := PopFrame(g);
      } else if nFrames > 0 {
        BumpFrameOk(State(), g);
        ptr := frameStart * 4096;
        g := BumpFrame(State(), g);
        frameStart := frameStart + 1;
        nFrames := nFrames - 1;
      }
      assert Untouched(g0.live, before.mem, mem) by { UntouchedRefl(g0.live, mem); }
      if ptr != 0 {
        ghost var h1 := State();
        var zeroed := ZeroRange(mem, ptr, PAGE);
        LocalChange(h1, g, zeroed, ptr);
        OthersUntouched(h1, g, zeroed, ptr, g0.live);
        mem := zeroed;
        assert State() == h1.(mem := zeroed);
      }
    }

    /** FreeFrame: a client's frame goes to the front of the free list; its first
        word becomes the link. */
    method FreeFrame(p: int)
      requires Valid() && (p == 0 || (p in g.kind && g.kind[p] == BlockFrame))
      modifies this`mem, this`freeList, this`g
      ensures Valid()
      ensures p == 0 ==> State() == old(State()) && g == old(g)
      ensures p != 0 ==> g == PushFrame(old(g), p)
      ensures Untouched(g.live, old(mem), mem)
    {
      hide Inv, Store, Word, SameOutside, Untouched;
      if p == 0 {
        UntouchedRefl(g.live, mem);
        return;
      }
      BlockFrameLive(State(), g, p);
      ghost var h0 := State();
      var m := Store(mem, p, freeList);
      SameOutsideRefl(mem, p, PAGE);
      StoreInside(mem, mem, p, freeList, p, PAGE);
      LocalChange(h0, g, m, p);
      OthersUntouched(h0, g, m, p, g.live - {p});
      mem := m;
      PushFrameOk(State(), g, p);
      freeList := p;
      g := PushFrame(g, p);
    }

    /** CreateSlab: a new slab in a frame of its own, still in the caller's hands.
        An object size that does not fit a frame gives the frame back. */
    method CreateSlab(objsize: int, ghost c: nat) returns (s: int)
      requires Valid() && ((c < 8 && objsize == SlabSize(c)) || objsize > PAGE - HEADER)
      modifies this`mem, this`frameStart, this`nFrames, this`freeList, this`g
      ensures Valid()
      ensures g.slabs == old(g.slabs) && g.freeObjs == old(g.freeObjs)
      ensures s == 0 <==> old(NoFrames()) || objsize > PAGE - HEADER
      ensures s == 0 ==> g.live == old(g.live) && (objsize <= PAGE - HEADER ==> g == old(g))
      ensures s != 0 ==>
                && s !in old(g.live) && s in g.kind && g.kind[s] == BlockFrame
                && g.live == old(g.live)[s := PAGE]
                && SlabOk(mem, s, c, AllObjects(s, c))
      ensures Untouched(old(g.live), old(mem), mem)
    {
      hide Inv, SameOutside, Untouched, SlabOk, Linked, HeaderOk, AllObjects, Objects, SlabSize;
      var size := objsize;
      if size < 4 { size := 4; }
      s := AllocateFrame();
      if s == 0 { return; }
      var usable := PAGE - HEADER;
      var n := usable / size;
      SlabCapacity(size, n);
      if n == 0 {
        ghost var m := mem;
        FreeFrame(s);
        assert g.live == old(g.live);
        UntouchedTrans(g.live, old(mem), m, mem);
        s := 0;
        return;
      }
      assert size == SlabSize(c) && c < 8;
      BlockFrameLive(State(), g, s);
      ghost var h1 := State();
      var m := FormatSlab(mem, s, size, n, c);
      LocalChange(h1, g, m, s);
      OthersUntouched(h1, g, m, s, old(g.live));
      UntouchedTrans(old(g.live), old(mem), h1.mem, m);
      mem := m;
      assert State() == h1.(mem := m);
    }

    /** kmalloc.c:125-126: the new slab becomes the first of its cache. */
    method LinkSlab(s: int, c: nat)
      requires Valid() && initialized && c < 8 && s in g.kind && g.kind[s] == BlockFrame
      requires SlabOk(mem, s, c, AllObjects(s, c))
      modifies this`mem, this`caches, this`g
      ensures Valid() && g == Install(old(g), s, c)
      ensures Untouched(old(g.live) - {s}, old(mem), mem)
    {
      hide Inv, SameOutside, Untouched, SlabOk, AllObjects, Store, Word, SlabSize;
      BlockFrameLive(State(), g, s);
      CachesLength(State(), g);
      ghost var h0 := State();
      var m := Store(mem, s + NEXT, caches[c]);
      SameOutsideRefl(mem, s, PAGE);
      StoreInside(mem, mem, s + NEXT, caches[c], s, PAGE);
      NextWordSlab(mem, m, s, c);
      LocalChange(h0, g, m, s);
      OthersUntouched(h0, g, m, s, g.live - {s});
      mem := m;
      InstallOk(State(), g, s, c);
      caches := caches[c := s];
      g := Install(g, s, c);
    }

    /** kmalloc.c:129-131: the first free object of `s` goes to the caller. */
    method PopObject(s: int, c: nat) returns (x: int)
      requires Valid() && c < 8 && s in g.freeObjs && g.freeObjs[s] != [] && g.kind[s] == SlabFrame(c)
      modifies this`mem, this`g
      ensures Valid() && x != 0
      ensures x == old(g.freeObjs[s][0]) && x !in old(g.live) && x % 8 == 0
      ensures g == SetFree(old(g), s, old(g.freeObjs[s][1..]), old(g.live)[x := SlabSize(c)])
      ensures Untouched(old(g.live), old(mem), mem)
    {
      hide Inv, SameOutside, Untouched, SlabOk, Store, Word, SlabSize;
      SlabHead(State(), g, s);
      x := Word(mem, s + FREE_LIST);
      var m := Store(mem, s + FREE_LIST, Word(mem, x));
      PopObjectOk(State(), g, s, m);
      HeadWordUntouched(State(), g, m, s, g.live);
      g := SetFree(g, s, g.freeObjs[s][1..], g.live[x := SlabSize(c)]);
      mem := m;
    }

    /** A request that cannot be met: no free object of its class and no frame. */
    ghost predicate Exhausted(size: nat)
      requires Valid()
      reads this
    {
      CachesLength(State(), g);
      && NoFrames()
      && (size <= 1024 ==> NoneLeft(g, ClassOf(size)))
    }

    /** kmalloc for every size the boot manager may ask for.  A successful call
        hands out a block that nobody holds; no call disturbs a block in use; and
        it fails only when there is nothing left. */
    method Kmalloc(size: nat) returns (p: int)
      requires Valid() && size <= PAGE
      modifies this
      ensures Valid()
      ensures p == 0 <==> size == 0 || old(Exhausted(size))
      ensures p == 0 ==> g == old(g)
      ensures p != 0 ==>
                && p !in old(g.live) && p % 8 == 0
                && g.live == old(g.live)[p := Capacity(size)] && SlabCounts(g) == CountsAfter(old(g), size)
      ensures Untouched(old(g.live), old(mem), mem)
    {
      hide Inv, SameOutside, Untouched, SlabOk, AllObjects, Store, Word, SlabSize;
      UntouchedRefl(g.live, mem);
      if size == 0 { return 0; }
      CachesLength(State(), g);
      if size > 1024 && size <= PAGE {
        p := AllocateFrame();
        if p != 0 { PageAligned(p); }
        return;
      }
      if !initialized {
        objsizes := [8, 16, 32, 64, 128, 256, 512, 1024];
        CachesEmpty(State(), g);
        caches := [0, 0, 0, 0, 0, 0, 0, 0];
        initialized := true;
        SlabSizes();
      }
      p := AllocateObject(size);
    }

    /** kmalloc.c:117-131: a slab object, from a new slab if the cache is full. */
    method AllocateObject(size: nat) returns (p: int)
      requires Valid() && initialized && 1 <= size <= 1024
      modifies this`mem, this`frameStart, this`nFrames, this`freeList, this`caches, this`g
      ensures Valid()
      ensures p == 0 <==> old(Exhausted(size))
      ensures p == 0 ==> g == old(g)
      ensures p != 0 ==>
                && p !in old(g.live) && p % 8 == 0
                && g.live == old(g.live)[p := Capacity(size)] && SlabCounts(g) == CountsAfter(old(g), size)
      ensures Untouched(old(g.live), old(mem), mem)
    {
      hide Inv, SameOutside, Untouched, SlabOk, AllObjects, Store, Word, SlabSize, PopFrame, BumpFrame;
      ghost var live0, mem0 := g.live, mem;
      UntouchedRefl(live0, mem0);
      CachesLength(State(), g);
      var c := SlabCacheForSize(size);
      var s := FindSlab(c);
      if s == 0 {
        s := CreateSlab(objsizes[c], c);
        if s == 0 { return 0; }
        ghost var m1 := mem;
        LinkSlab(s, c);
        assert Untouched(live0, m1, mem) by { UntouchedLess(g.live, live0, m1, mem); }
        UntouchedTrans(live0, mem0, m1, mem);
        AllObjectsSome(s, c);
      }
      ghost var m2 := mem;
      assert g.live == live0;
      p := PopObject(s, c);
      UntouchedTrans(live0, mem0, m2, mem);
    }

    /** kmalloc.c:118-119: the first slab of the cache with a free object, or 0. */
    method FindSlab(c: nat) returns (s: int)
      requires Valid() && c < 8
      ensures s != 0 ==> s in g.slabs[c] && s in g.freeObjs && g.kind[s] == SlabFrame(c) && g.freeObjs[s] != []
      ensures s == 0 <==> NoneLeft(g, c)
    {
      hide Inv, Word;
      CachesLength(State(), g);
      CacheWalk(State(), g, c, 0);
      s := caches[c];
      ghost var i := 0;
      while s != 0 && Word(mem, s + FREE_LIST) == 0
        invariant 0 <= i <= |g.slabs[c]|
        invariant s == if i < |g.slabs[c]| then g.slabs[c][i] else 0
        invariant forall k :: 0 <= k < i ==> g.slabs[c][k] in g.freeObjs && g.freeObjs[g.slabs[c][k]] == []
        decreases |g.slabs[c]| - i
      {
        CacheWalk(State(), g, c, i);
        s := Word(mem, s + NEXT);
        i := i + 1;
      }
      CacheWalk(State(), g, c, i);
    }

    /** kzalloc: as kmalloc, and every word of the block is zero, so nothing an
        earlier owner left there can be read. */
    method Kzalloc(size: nat) returns (p: int)
      requires Valid() && size <= PAGE
      modifies this
      ensures Valid()
      ensures p == 0 <==> size == 0 || old(Exhausted(size))
      ensures p == 0 ==> g == old(g)
      ensures p != 0 ==>
                && p !in old(g.live) && p % 8 == 0
                && g.live == old(g.live)[p := Capacity(size)] && SlabCounts(g) == CountsAfter(old(g), size)
                && (forall i :: 0 <= i < |mem| && p <= 4 * i < p + Capacity(size) ==> mem[i] == 0)
      ensures Untouched(old(g.live), old(mem), mem)
    {
      hide Inv, ZeroRange, SameOutside, Untouched, SlabSize;
      p := Kmalloc(size);
      if p == 0 { return; }
      ghost var h1 := State();
      var n;
      if size > 1024 {
        n := PAGE;
      } else {
        var c := SlabCacheForSize(size);
        n := SlabSize(c);
      }
      var zeroed := ZeroRange(mem, p, n);
      LocalChange(h1, g, zeroed, p);
      OthersUntouched(h1, g, zeroed, p, old(g.live));
      UntouchedTrans(old(g.live), old(mem), h1.mem, zeroed);
      mem := zeroed;
      assert State() == h1.(mem := zeroed);
    }

    /** `p` points into the object area of a slab, but not at an object. */
    ghost predicate Misaligned(p: int)
      requires Valid()
      reads this
    {
      exists s :: s in g.freeObjs && InArea(g, s, p) && !IsObject(s, g.kind[s].class_, p)
    }

    /** kfree of a block the caller holds takes exactly that block away and leaves
        the contents of every other block alone.  Null, low addresses and pointers
        between objects are ignored. */
    method Kfree(p: int)
      requires Valid() && (p < PAGE || p in g.live || Misaligned(p))
      modifies this`mem, this`freeList, this`g
      ensures Valid()
      ensures g.live == if old(p < PAGE || p !in g.live) then old(g.live) else old(g.live) - {p}
      ensures p < PAGE || p !in old(g.live) ==> State() == old(State()) && g == old(g)
      ensures g.slabs == old(g.slabs)
      ensures Untouched(g.live, old(mem), mem)
    {
      hide Inv, SameOutside, Untouched, SlabOk, Store, Word, SlabSize, OnGrid, ObjectsEnd;
      UntouchedRefl(g.live, mem);
      if p == 0 || p < PAGE {
        LowNotLive(State(), g, p);
        return;
      }
      var s := FindOwner(p);
      if s != 0 {
        AreaFrame(State(), g, s, p);
        SlabHead(State(), g, s);
        var start := Word(mem, s + OBJSTART);
        ghost var c := g.kind[s].class_;
        if (p - start) % Word(mem, s + OBJSIZE) != 0 {
          assert !OnGrid(c, p - (s + HEADER)) by { GridTest(c, p - (s + HEADER)); }
          if p in g.live { LiveObject(State(), g, s, p); }
          return;
        }
        assert OnGrid(c, p - (s + HEADER)) by { GridTest(c, p - (s + HEADER)); }
        MisalignedUnique(State(), g, s, p);
        PushObject(s, p);
      } else {
        WholeFrame(State(), g, p);
        FreeFrame(p);
      }
    }

    /** kmalloc.c:156-175: the slab whose object area holds `p`, or 0. */
    method FindOwner(p: int) returns (s: int)
      requires Valid()
      ensures s != 0 ==> s in g.freeObjs && InArea(g, s, p)
      ensures s == 0 ==> forall t :: t in g.freeObjs ==> !InArea(g, t, p)
    {
      hide Inv, Word, InArea, SlabSize, ObjectsEnd, Objects;
      CachesLength(State(), g);
      for i := 0 to 8
        invariant forall c: nat, k :: c < i && 0 <= k < |g.slabs[c]| ==> !InArea(g, g.slabs[c][k], p)
      {
        CacheWalk(State(), g, i, 0);
        s := caches[i];
        ghost var k := 0;
        while s != 0
          invariant 0 <= k <= |g.slabs[i]|
          invariant s == if k < |g.slabs[i]| then g.slabs[i][k] else 0
          invariant forall j :: 0 <= j < k ==> !InArea(g, g.slabs[i][j], p)
          decreases |g.slabs[i]| - k
        {
          CacheWalk(State(), g, i, k);
          var start := Word(mem, s + OBJSTART);
          var end := start + Word(mem, s + N_OBJECTS) * Word(mem, s + OBJSIZE);
          AreaTest(g, s, i, p);
          if start <= p < end { return; }
          s := Word(mem, s + NEXT);
          k := k + 1;
        }
        CacheWalk(State(), g, i, k);
      }
      s := 0;
      forall t | t in g.freeObjs ensures !InArea(g, t, p) {
        SlabIsFrame(State(), g, t);
        var c := g.kind[t].class_;
        var k :| 0 <= k < |g.slabs[c]| && g.slabs[c][k] == t;
      }
    }

    /** kmalloc.c:169-170: `p` goes to the front of the free list of `s`. */
    method PushObject(s: int, p: int)
      requires Valid() && s in g.freeObjs && p in g.live && FrameOf(p) == s
      modifies this`mem, this`g
      ensures Valid() && g == SetFree(old(g), s, [p] + old(g.freeObjs[s]), old(g.live) - {p})
      ensures Untouched(old(g.live) - {p}, old(mem), mem)
    {
      hide Inv, SameOutside, Untouched, SlabOk, Store, Word, SlabSize, OnGrid, ObjectsEnd;
      ghost var h0, live1 := State(), g.live - {p};
      SlabHead(h0, g, s);
      LiveObject(h0, g, s, p);
      LiveBounds(h0, g, p);
      var m := Store(mem, p, Word(mem, s + FREE_LIST));
      SameOutsideRefl(mem, p, g.live[p]);
      StoreInside(mem, mem, p, Word(mem, s + FREE_LIST), p, g.live[p]);
      LocalChange(h0, g, m, p);
      OthersUntouched(h0, g, m, p, live1);
      StoreWord(mem, p, Word(mem, s + FREE_LIST), s + FREE_LIST);
      mem := m;
      ghost var h1 := State();
      var m' := Store(mem, s + FREE_LIST, p);
      PushObjectOk(h1, g, s, p, m');
      HeadWordUntouched(h1, g, m', s, live1);
      UntouchedTrans(live1, h0.mem, m, m');
      g := SetFree(g, s, [p] + g.freeObjs[s], g.live - {p});
      mem := m';
    }

    /** A client stores one word into a block it holds. */
    method ClientWrite(p: int, off: int, v: int)
      requires Valid() && p in g.live && 0 <= off < g.live[p] && off % 4 == 0
      modifies this`mem
      ensures Valid()
      ensures Contents(mem, p, g.live[p]) == Overwrite(old(Contents(mem, p, g.live[p])), off / 4, v)
      ensures Untouched(g.live - {p}, old(mem), mem)
    {
      hide Inv, SameOutside, Untouched, Contents, Store, Overwrite, Word, FrameOf;
      ghost var h0 := State();
      LiveBounds(h0, g, p);
      MemLength(h0, g);
      WordInside(p, g.live[p], off);
      var m := Store(mem, p + off, v);
      SameOutsideRefl(mem, p, g.live[p]);
      StoreInside(mem, mem, p + off, v, p, g.live[p]);
      LocalChange(h0, g, m, p);
      OthersUntouched(h0, g, m, p, g.live - {p});
      StoreContents(mem, p, g.live[p], off, v);
      mem := m;
    }
  }

  lemma UntouchedRefl(live: map<int, int>, mem: seq<int>)
    ensures Untouched(live, mem, mem)
  {}

  lemma FreeListHead(h: Heap, g: Layout)
    requires Inv(h, g)
    ensures h.freeList == 0 <==> g.freeFrames == []
    ensures g.freeFrames != [] ==> h.freeList == g.freeFrames[0] && h.freeList >= HEAP_START
    ensures h.frameStart * 4096 >= HEAP_START && h.nFrames >= 0
  {
    hide CachesOk, LiveOk, LinkAt;
    if g.freeFrames != [] { assert g.freeFrames[0] in g.freeFrames; }
  }

  /** The class kmalloc serves a request from, and what the caller gets. */
  function ClassOf(size: nat): (c: nat)
    requires size <= 1024
    ensures c < 8 && size <= SlabSize(c) && (c == 0 || SlabSize(c - 1) < size)
  {
    if size <= 8 then 0 else if size <= 16 then 1 else if size <= 32 then 2 else if size <= 64 then 3
    else if size <= 128 then 4 else if size <= 256 then 5 else if size <= 512 then 6 else 7
  }

  /** The capacity of the block covers the request. */
  function Capacity(size: nat): (n: int)
    requires size <= PAGE
    ensures size <= n && n % 8 == 0
  {
    if size > 1024 then PAGE else SlabSize(ClassOf(size))
  }

  /** No object of class `c` is free. */
  ghost predicate NoneLeft(g: Layout, c: nat)
    requires c < |g.slabs|
  {
    forall s :: s in g.slabs[c] && s in g.freeObjs ==> g.freeObjs[s] == []
  }

  /** A request of a class with no free object takes a new slab. */
  ghost function CountsAfter(g: Layout, size: nat): seq<int>
  {
    if |g.slabs| == 8 && size <= 1024 && NoneLeft(g, ClassOf(size))
    then SlabCounts(g)[ClassOf(size) := |g.slabs[ClassOf(size)]| + 1]
    else SlabCounts(g)
  }

  /** GetSlabCacheForSize for a size that has a cache. */
  method SlabCacheForSize(size: nat) returns (c: nat)
    requires size <= 1024
    ensures c == ClassOf(size)
  {
    c := 0;
    while size > SlabSize(c)
      invariant c < 8 && (c == 0 || SlabSize(c - 1) < size)
      decreases 8 - c
    {
      c := c + 1;
    }
  }

  lemma SlabSizes()
    ensures var t := [8, 16, 32, 64, 128, 256, 512, 1024];
            forall c: nat :: c < 8 ==> t[c] == SlabSize(c)
  {}

  lemma UntouchedLess(live: map<int, int>, less: map<int, int>, m0: seq<int>, m1: seq<int>)
    requires Untouched(live, m0, m1)
    requires forall p :: p in less ==> p in live && live[p] == less[p]
    ensures Untouched(less, m0, m1)
  {}

  lemma CachesLength(h: Heap, g: Layout)
    requires Inv(h, g)
    ensures |h.caches| == 8 && |g.slabs| == 8
  {}

  lemma CachesEmpty(h: Heap, g: Layout)
    requires Inv(h, g) && forall c: nat :: c < 8 ==> g.slabs[c] == []
    ensures h.caches == [0, 0, 0, 0, 0, 0, 0, 0]
  {
    hide FramesOk, SlabOk, LiveOk;
    forall c: nat | c < 8 ensures h.caches[c] == 0 { assert CacheOk(h, g, c); }
  }

  lemma AllObjectsSome(s: int, c: nat)
    requires c < 8
    ensures AllObjects(s, c) != []
  {}

  /** Node `i` of a cache's slab list, as the walk sees it. */
  lemma CacheWalk(h: Heap, g: Layout, c: nat, i: int)
    requires Inv(h, g) && c < 8 && 0 <= i
    ensures |h.caches| == 8 && |g.slabs| == 8 && h.caches[c] == First(g.slabs[c])
    ensures i < |g.slabs[c]| ==>
              var s := g.slabs[c][i];
              && s >= HEAP_START && s in g.kind && g.kind[s] == SlabFrame(c) && s in g.freeObjs
              && Word(h.mem, s + NEXT) == After(g.slabs[c], i)
              && (Word(h.mem, s + FREE_LIST) == 0 <==> g.freeObjs[s] == [])
              && HeaderOk(h.mem, s, c)
    ensures i + 1 < |g.slabs[c]| ==> g.slabs[c][i + 1] >= HEAP_START
  {
    hide Distinct, LiveOk, FramesOk, Word, IsObject;
    assert CacheOk(h, g, c);
    if i < |g.slabs[c]| {
      assert LinkAt(h.mem, NEXT, g.slabs[c], i);
      assert IsSlab(g, g.slabs[c][i], c);
      SlabHead(h, g, g.slabs[c][i]);
    }
    if i + 1 < |g.slabs[c]| { assert IsSlab(g, g.slabs[c][i + 1], c); }
  }

  /** The `free_list` word of a slab names its first free object. */
  lemma SlabHead(h: Heap, g: Layout, s: int)
    requires Inv(h, g) && s in g.freeObjs
    ensures Word(h.mem, s + FREE_LIST) == First(g.freeObjs[s])
    ensures g.freeObjs[s] != [] ==> g.freeObjs[s][0] >= HEAP_START
    ensures |h.mem| == MEM_WORDS && HEAP_START <= s < HEAP_END && s % 4 == 0
    ensures s in g.kind && g.kind[s].SlabFrame? && g.kind[s].class_ < 8
    ensures HeaderOk(h.mem, s, g.kind[s].class_)
  {
    hide FramesOk, CacheOk, LiveOk, Word, Distinct, IsObject, LinkAt;
    SlabIsFrame(h, g, s);
    PageAligned(s);
    if g.freeObjs[s] != [] { SlabFree(h, g, s, 0); }
  }

  /** The `next` field is no part of what makes a slab well formed. */
  lemma NextWordSlab(mem: seq<int>, m: seq<int>, s: int, c: nat)
    requires c < 8 && s % 4096 == 0
    requires SlabOk(mem, s, c, AllObjects(s, c)) && SameOutside(mem, m, s + NEXT, 4)
    ensures SlabOk(m, s, c, AllObjects(s, c))
  {
    hide Word, SameOutside, Distinct, IsObject, SlabSize, Objects, AllObjects, LinkAt;
    PageAligned(s);
    NextWordHeader(mem, m, s, c);
    var xs := AllObjects(s, c);
    forall i | 0 <= i < |xs| ensures LinkAt(m, 0, xs, i) {
      NextWordLink(mem, m, s, c, i);
    }
  }

  lemma NextWordHeader(mem: seq<int>, m: seq<int>, s: int, c: nat)
    requires c < 8 && s % 4 == 0 && HeaderOk(mem, s, c) && SameOutside(mem, m, s + NEXT, 4)
    ensures HeaderOk(m, s, c) && Word(m, s + FREE_LIST) == Word(mem, s + FREE_LIST)
  {
    hide Word, SameOutside, SlabSize, Objects;
    NextWordOther(mem, m, s, FREE_LIST);
    NextWordOther(mem, m, s, OBJSTART);
    NextWordOther(mem, m, s, N_OBJECTS);
    NextWordOther(mem, m, s, OBJSIZE);
  }

  lemma NextWordLink(mem: seq<int>, m: seq<int>, s: int, c: nat, i: int)
    requires c < 8 && s % 4096 == 0 && SameOutside(mem, m, s + NEXT, 4)
    requires 0 <= i < |AllObjects(s, c)| && LinkAt(mem, 0, AllObjects(s, c), i)
    ensures LinkAt(m, 0, AllObjects(s, c), i)
  {
    hide Word, SameOutside, SlabSize, Objects, AllObjects;
    ObjectRoom(s, c, i);
    PageAligned(s);
    FourSum(s, NEXT);
    OtherWord(mem, m, s + NEXT, AllObjects(s, c)[i]);
  }

  lemma NextWordOther(mem: seq<int>, m: seq<int>, s: int, off: int)
    requires SameOutside(mem, m, s + NEXT, 4) && s % 4 == 0 && off % 4 == 0 && off != NEXT
    ensures Word(m, s + off) == Word(mem, s + off)
  {
    hide Word, SameOutside;
    assert (s + off) % 4 == 0 && (s + NEXT) % 4 == 0;
    OtherWord(mem, m, s + NEXT, s + off);
  }

  /** `p` lies in the object area of the slab `s`. */
  ghost predicate InArea(g: Layout, s: int, p: int)
  {
    && s in g.kind && g.kind[s].SlabFrame? && g.kind[s].class_ < 8
    && s + HEADER <= p < s + ObjectsEnd(g.kind[s].class_)
  }

  /** The bounds kfree computes from the header are those of the object area. */
  lemma AreaTest(g: Layout, s: int, c: nat, p: int)
    requires c < 8 && s in g.kind && g.kind[s] == SlabFrame(c)
    ensures InArea(g, s, p) <==> s + HEADER <= p < s + HEADER + Objects(c) * SlabSize(c)
  {
    hide SlabSize, Objects, ObjectsEnd;
    ObjectsTable(c);
  }

  lemma GridTest(c: nat, d: int)
    requires c < 8
    ensures OnGrid(c, d) <==> d % SlabSize(c) == 0
  {}

  lemma AreaFrame(h: Heap, g: Layout, s: int, p: int)
    requires Inv(h, g) && s in g.freeObjs && InArea(g, s, p)
    ensures FrameOf(p) == s
  {
    hide Inv, SlabOk, ObjectsEnd;
    SlabIsFrame(h, g, s);
    SameFrame(s, p);
  }

  /** At most one slab contains `p`, so a pointer that is aligned in one is not
      misaligned in another. */
  lemma MisalignedUnique(h: Heap, g: Layout, s: int, p: int)
    requires Inv(h, g) && s in g.freeObjs && InArea(g, s, p) && IsObject(s, g.kind[s].class_, p)
    ensures forall t :: t in g.freeObjs && InArea(g, t, p) ==> IsObject(t, g.kind[t].class_, p)
  {
    hide Inv, InArea, IsObject;
    AreaFrame(h, g, s, p);
    forall t | t in g.freeObjs && InArea(g, t, p) ensures t == s { AreaFrame(h, g, t, p); }
  }

  /** A block in no slab's object area is a whole frame. */
  lemma WholeFrame(h: Heap, g: Layout, p: int)
    requires Inv(h, g) && forall t :: t in g.freeObjs ==> !InArea(g, t, p)
    ensures p in g.live ==> p in g.kind && g.kind[p] == BlockFrame
  {
    hide PoolOk, FramesOk, CachesOk, OnGrid, ObjectsEnd, SlabSize;
    if p in g.live { assert IsLive(g, p, g.live[p]); }
  }

  lemma LowNotLive(h: Heap, g: Layout, p: int)
    requires Inv(h, g) && p < PAGE
    ensures p !in g.live
  {
    hide Inv;
    if p in g.live { LiveBounds(h, g, p); }
  }

  lemma MemLength(h: Heap, g: Layout)
    requires Inv(h, g)
    ensures |h.mem| == MEM_WORDS
  {}

  lemma WordInside(p: int, n: int, off: int)
    requires p % 8 == 0 && n % 8 == 0 && 0 <= off < n && off % 4 == 0
    ensures (p + off) % 4 == 0 && off + 4 <= n
  {}

  lemma StoreContents(mem: seq<int>, p: int, n: int, off: int, v: int)
    requires 0 <= p && p + n <= 4 * |mem| && p % 8 == 0 && n % 8 == 0
    requires 0 <= off < n && off % 4 == 0
    ensures (p + off) % 4 == 0
    ensures |Contents(mem, p, n)| == n / 4 && off / 4 < n / 4
    ensures Contents(Store(mem, p + off, v), p, n) == Overwrite(Contents(mem, p, n), off / 4, v)
  {
    var a, k, b := p / 4, off / 4, n / 4;
    assert p == 4 * a && off == 4 * k && n == 4 * b;
    assert (p + off) / 4 == a + k && (p + n) / 4 == a + b;
    assert mem[a + k := v][a..a + b] == mem[a..a + b][k := v];
  }

  // ---------------------------------------------------------------------
  // The separation theorem
  // ---------------------------------------------------------------------

  /** In every state the allocator can reach, blocks in use are aligned, inside
      the heap, pairwise disjoint, and clear of everything the allocator stores:
      slab headers, free objects with their links, free frames with theirs.  What the
      allocator stores does not overlap either. */
  lemma Separation(h: Heap, g: Layout)
    requires Inv(h, g)
    ensures forall p :: p in g.live ==>
              p % 8 == 0 && HEAP_START <= p && p + g.live[p] <= HEAP_END
    ensures forall p, q :: p in g.live && q in g.live && p != q ==>
              Apart(p, g.live[p], q, g.live[q])
    ensures forall p, s :: p in g.live && s in g.freeObjs ==> Apart(p, g.live[p], s, HEADER)
    ensures forall p, s, x :: p in g.live && s in g.freeObjs && x in g.freeObjs[s] ==>
              Apart(p, g.live[p], x, 8)
    ensures forall p, f :: p in g.live && f in g.freeFrames ==> Apart(p, g.live[p], f, PAGE)
    ensures forall s, t :: s in g.freeObjs && t in g.freeObjs && s != t ==> Apart(s, PAGE, t, PAGE)
    ensures forall s, t, x :: s in g.freeObjs && t in g.freeObjs && x in g.freeObjs[t] ==> Apart(s, HEADER, x, 8)
    ensures forall s, x, t, y ::
              s in g.freeObjs && x in g.freeObjs[s] && t in g.freeObjs && y in g.freeObjs[t] && x != y ==>
                Apart(x, 8, y, 8)
    ensures forall s, f :: s in g.freeObjs && f in g.freeFrames ==> Apart(s, PAGE, f, PAGE)
  {
    hide Inv, Apart, SlabSize;
    StoredApart(h, g);
    forall p | p in g.live
      ensures p % 8 == 0 && HEAP_START <= p && p + g.live[p] <= HEAP_END
    {
      LiveBounds(h, g, p);
    }
    forall p, q | p in g.live && q in g.live && p != q ensures Apart(p, g.live[p], q, g.live[q]) {
      LiveApart(h, g, p, q);
    }
    forall p, s | p in g.live && s in g.freeObjs ensures Apart(p, g.live[p], s, HEADER) {
      HeaderApart(h, g, p, s);
    }
    forall p, s, x | p in g.live && s in g.freeObjs && x in g.freeObjs[s]
      ensures Apart(p, g.live[p], x, 8)
    {
      FreeObjectApart(h, g, p, s, x);
      ApartShorter(p, g.live[p], x, SlabSize(g.kind[s].class_), 8);
    }
    forall p, f | p in g.live && f in g.freeFrames ensures Apart(p, g.live[p], f, PAGE) {
      FreeFrameApart(h, g, p, f);
    }
  }

  lemma StoredApart(h: Heap, g: Layout)
    requires Inv(h, g)
    ensures forall s, t :: s in g.freeObjs && t in g.freeObjs && s != t ==> Apart(s, PAGE, t, PAGE)
    ensures forall s, t, x :: s in g.freeObjs && t in g.freeObjs && x in g.freeObjs[t] ==> Apart(s, HEADER, x, 8)
    ensures forall s, x, t, y ::
              s in g.freeObjs && x in g.freeObjs[s] && t in g.freeObjs && y in g.freeObjs[t] && x != y ==>
                Apart(x, 8, y, 8)
    ensures forall s, f :: s in g.freeObjs && f in g.freeFrames ==> Apart(s, PAGE, f, PAGE)
  {
    hide Inv, Apart, SlabSize;
    forall s, t | s in g.freeObjs && t in g.freeObjs && s != t ensures Apart(s, PAGE, t, PAGE) {
      SlabFrames(h, g, s);
      SlabFrames(h, g, t);
      FramesApart(s, t);
    }
    forall s, t, x | s in g.freeObjs && t in g.freeObjs && x in g.freeObjs[t] ensures Apart(s, HEADER, x, 8) {
      FreeObjectHeader(h, g, s, t, x);
      ApartShorter(s, HEADER, x, SlabSize(g.kind[t].class_), 8);
    }
    forall s, x, t, y | s in g.freeObjs && x in g.freeObjs[s] && t in g.freeObjs && y in g.freeObjs[t] && x != y
      ensures Apart(x, 8, y, 8)
    {
      FreeObjectsApart(h, g, s, x, t, y);
      BothShorter(x, SlabSize(g.kind[s].class_), y, SlabSize(g.kind[t].class_));
    }
    forall s, f | s in g.freeObjs && f in g.freeFrames ensures Apart(s, PAGE, f, PAGE) {
      SlabFrameApart(h, g, s, f);
    }
  }

  lemma BothShorter(x: int, n: int, y: int, m: int)
    requires Apart(x, n, y, m) && 8 <= n && 8 <= m
    ensures Apart(x, 8, y, 8)
  {}

  lemma ApartShorter(p: int, n: int, x: int, m: int, k: int)
    requires Apart(p, n, x, m) && k <= m
    ensures Apart(p, n, x, k)
  {}

  // ---------------------------------------------------------------------
  // Whole runs
  // ---------------------------------------------------------------------

  datatype Op =
    | Malloc(size: nat)
    | Zalloc(size: nat)
    | Free(p: int)
    | Write(p: int, off: int, v: int)

  /** What someone who sees only requests and replies knows: the capacity and the words
      of each block in the clients' hands, and how many slabs each class must have. */
  datatype Client = Client(caps: map<int, int>, data: map<int, seq<int>>, slabs: seq<int>)

  function NoBlocks(): Client { Client(map[], map[], [0, 0, 0, 0, 0, 0, 0, 0]) }

  /** The heap agrees with that record. */
  ghost predicate Agrees(a: Allocator, k: Client)
    reads a
  {
    && a.Valid()
    && k.caps == a.g.live && k.data.Keys == k.caps.Keys
    && (forall p :: p in k.data ==> Contents(a.mem, p, k.caps[p]) == k.data[p])
    && k.slabs == SlabCounts(a.g) && |k.slabs| == 8
  }

  /** What an allocation handed out (0 for nothing) and the words found there. */
  datatype Reply = Reply(p: int, words: seq<int>)

  /** A client holds the block and may store at the offset. */
  predicate MayWrite(k: Client, p: int, off: int)
  {
    p in k.caps && 0 <= off < k.caps[p] && off % 4 == 0
  }

  /** A class whose blocks outnumber its objects has got another slab; slabs stay. */
  function Grown(slabs: seq<int>, caps: map<int, int>): (r: seq<int>)
    requires |slabs| == 8
    ensures |r| == 8
  {
    seq(8, c requires 0 <= c < 8 =>
      if |Blocks(caps, SlabSize(c))| > slabs[c] * Objects(c) then slabs[c] + 1 else slabs[c])
  }

  /** The blocks after an operation: one on a block nobody holds, and a request the heap
      cannot serve, change nothing. */
  function Held(k: Client, op: Op, r: Reply): Client
  {
    match op
    case Malloc(size) =>
      if size > PAGE || r.p == 0 then k
      else k.(caps := k.caps[r.p := Capacity(size)], data := k.data[r.p := r.words])
    case Zalloc(size) =>
      if size > PAGE || r.p == 0 then k
      else k.(caps := k.caps[r.p := Capacity(size)], data := k.data[r.p := seq(Capacity(size) / 4, i => 0)])
    case Free(p) => if p in k.caps then k.(caps := k.caps - {p}, data := k.data - {p}) else k
    case Write(p, off, v) =>
      if MayWrite(k, p, off) && p in k.data
      then k.(data := k.data[p := Overwrite(k.data[p], off / 4, v)]) else k
  }

  function Believe(k: Client, op: Op, r: Reply): (k': Client)
    requires |k.slabs| == 8
    ensures |k'.slabs| == 8
  {
    Held(k, op, r).(slabs := Grown(k.slabs, Held(k, op, r).caps))
  }

  function Beliefs(ops: seq<Op>, log: seq<Reply>): (k: Client)
    requires |ops| == |log|
    ensures |k.slabs| == 8
  {
    var n := |ops| - 1;
    if ops == [] then NoBlocks() else Believe(Beliefs(ops[..n], log[..n]), ops[n], log[n])
  }

  /** All frames are slabs or blocks, and the class of the request has no object left. */
  predicate Full(k: Client, size: nat)
    requires |k.slabs| == 8
  {
    && Total(k.slabs) + |Blocks(k.caps, PAGE)| == ALL_FRAMES
    && (size <= 1024 ==>
          |Blocks(k.caps, SlabSize(ClassOf(size)))| == k.slabs[ClassOf(size)] * Objects(ClassOf(size)))
  }

  /** No request is for more than a page: kmalloc would go on with a null cache. */
  predicate Served(op: Op) { op.Malloc? || op.Zalloc? ==> op.size <= PAGE }

  /** A request is refused exactly when it is for nothing or the heap is full; otherwise the
      reply is an aligned block nobody holds. */
  predicate Answers(k: Client, op: Op, r: Reply)
    requires |k.slabs| == 8
  {
    (op.Malloc? || op.Zalloc?) ==>
      && (r.p == 0 <==> op.size == 0 || Full(k, op.size))
      && (r.p != 0 ==> r.p !in k.caps && r.p % 8 == 0)
  }

  /** Any sequence of allocations, frees and stores: every request is answered as the history
      demands, and at the end the blocks held are disjoint and each reads back exactly what
      its holder last put into it. */
  method Run(contents: seq<int>, ops: seq<Op>) returns (a: Allocator, log: seq<Reply>)
    requires |contents| == MEM_WORDS && forall i :: 0 <= i < |ops| ==> Served(ops[i])
    ensures fresh(a) && |log| == |ops| && Agrees(a, Beliefs(ops, log))
    ensures forall i :: 0 <= i < |ops| ==> Answers(Beliefs(ops[..i], log[..i]), ops[i], log[i])
    ensures var caps := Beliefs(ops, log).caps;
            forall p, q :: p in caps && q in caps && p != q ==> Apart(p, caps[p], q, caps[q])
  {
    hide Believe, Agrees, Answers, Inv;
    a := new Allocator(contents);
    var k := NoBlocks();
    log := [];
    assert Agrees(a, k) by { AgreesAtFirst(a); }
    for i := 0 to |ops|
      invariant fresh(a) && |log| == i && Agrees(a, k) && k == Beliefs(ops[..i], log)
      invariant forall j :: 0 <= j < i ==> Answers(Beliefs(ops[..j], log[..j]), ops[j], log[j])
    {
      AgreesShape(a, k);
      var r := RunOne(a, k, ops[i]);
      ghost var before := log;
      k := Believe(k, ops[i], r);
      log := log + [r];
      assert ops[..i + 1][..i] == ops[..i] && log[..i] == before;
      forall j | 0 <= j <= i ensures Answers(Beliefs(ops[..j], log[..j]), ops[j], log[j]) {
        assert log[..j] == before[..j];
        assert before[..i] == before;
      }
    }
    assert ops[..|ops|] == ops;
    AgreesShape(a, k);
    Separation(a.State(), a.g);
  }

  lemma AgreesShape(a: Allocator, k: Client)
    requires Agrees(a, k)
    ensures |k.slabs| == 8 && a.Valid() && k.caps == a.g.live
  {
    hide Inv, Contents;
  }

  lemma AgreesAtFirst(a: Allocator)
    requires a.Valid() && a.g.live == map[] && a.g.slabs == [[], [], [], [], [], [], [], []]
    ensures Agrees(a, NoBlocks())
  {
    hide Inv;
  }

  // ---------------------------------------------------------------------
  // The record is right
  // ---------------------------------------------------------------------

  /** As long as no slab is added the count stands. */
  lemma SameSlabs(h: Heap, g: Layout, slabs: seq<int>)
    requires Inv(h, g) && |slabs| == 8 && slabs == SlabCounts(g)
    ensures Grown(slabs, g.live) == slabs
  {
    hide Inv, Objects, SlabSize, Blocks;
    forall c: nat | c < 8 ensures Grown(slabs, g.live)[c] == slabs[c] {
      ObjectCount(h, g, c);
    }
  }

  /** A new slab is added exactly when the class is full. */
  lemma MoreSlabs(h: Heap, g: Layout, h': Heap, g': Layout, size: nat, p: int)
    requires Inv(h, g) && Inv(h', g') && size <= PAGE && |g.slabs| == 8
    requires p !in g.live && g'.live == g.live[p := Capacity(size)] && SlabCounts(g') == CountsAfter(g, size)
    ensures Grown(SlabCounts(g), g'.live) == SlabCounts(g')
  {
    hide Inv, Objects, SlabSize, Blocks, NoneLeft;
    var slabs := SlabCounts(g);
    forall c: nat | c < 8 ensures Grown(slabs, g'.live)[c] == SlabCounts(g')[c] {
      ObjectCount(h', g', c);
      assert |g'.slabs[c]| == SlabCounts(g')[c];
      if size <= 1024 && c == ClassOf(size) && NoneLeft(g, c) {
        ClassIsFull(h, g, c);
        OneMore(g.live, p, SlabSize(c));
      }
    }
  }

  lemma OneMore(live: map<int, int>, p: int, n: int)
    requires p !in live
    ensures |Blocks(live[p := n], n)| == |Blocks(live, n)| + 1
  {
    assert Blocks(live[p := n], n) == Blocks(live, n) + {p};
  }

  lemma ClassIsFull(h: Heap, g: Layout, c: nat)
    requires Inv(h, g) && c < 8 && |g.slabs| == 8
    ensures NoneLeft(g, c) <==> |Blocks(g.live, SlabSize(c))| == SlabCounts(g)[c] * Objects(c)
  {
    hide Inv, Objects, SlabSize, Blocks;
    ObjectCount(h, g, c);
  }

  /** The allocator has nothing left exactly when the record says so. */
  lemma FullExactly(a: Allocator, k: Client, size: nat)
    requires Agrees(a, k) && size <= PAGE
    ensures |k.slabs| == 8 && (a.Exhausted(size) <==> Full(k, size))
  {
    hide Inv, Objects, SlabSize, Blocks, NoneLeft, Total, Contents;
    FrameCount(a.State(), a.g);
    FreeListHead(a.State(), a.g);
    if size <= 1024 { ClassIsFull(a.State(), a.g, ClassOf(size)); }
  }

  method RunOne(a: Allocator, k: Client, op: Op) returns (r: Reply)
    requires Agrees(a, k) && |k.slabs| == 8 && Served(op)
    modifies a
    ensures Agrees(a, Believe(k, op, r)) && Answers(k, op, r)
  {
    hide Agrees, Full;
    r := Reply(0, []);
    match op
    case Malloc(size) => r := RunMalloc(a, k, size);
    case Zalloc(size) => r := RunZalloc(a, k, size);
    case Free(p) =>
      if p in k.caps { RunFree(a, k, p); } else { Unchanged(a, k, op, r); }
    case Write(p, off, v) =>
      if MayWrite(k, p, off) { RunWrite(a, k, p, off, v); } else { Unchanged(a, k, op, r); }
  }

  lemma Unchanged(a: Allocator, k: Client, op: Op, r: Reply)
    requires Agrees(a, k) && |k.slabs| == 8 && Held(k, op, r) == k
    ensures Agrees(a, Believe(k, op, r))
  {
    hide Inv, Contents, Grown;
    SameSlabs(a.State(), a.g, k.slabs);
  }

  method RunMalloc(a: Allocator, k: Client, size: nat) returns (r: Reply)
    requires Agrees(a, k) && size <= PAGE && |k.slabs| == 8
    modifies a
    ensures Agrees(a, Believe(k, Malloc(size), r)) && Answers(k, Malloc(size), r)
  {
    hide Inv, Contents, Full, Grown, CountsAfter, SlabCounts;
    FullExactly(a, k, size);
    ghost var h0, g0 := a.State(), a.g;
    CachesLength(h0, g0);
    var p := a.Kmalloc(size);
    r := Reply(p, if p != 0 then Contents(a.mem, p, Capacity(size)) else []);
    if p == 0 {
      SameSlabs(a.State(), a.g, k.slabs);
    } else {
      MoreSlabs(h0, g0, a.State(), a.g, size, p);
    }
  }

  method RunZalloc(a: Allocator, k: Client, size: nat) returns (r: Reply)
    requires Agrees(a, k) && size <= PAGE && |k.slabs| == 8
    modifies a
    ensures Agrees(a, Believe(k, Zalloc(size), r)) && Answers(k, Zalloc(size), r)
  {
    hide Inv, Contents, Full, Grown, CountsAfter, SlabCounts;
    FullExactly(a, k, size);
    ghost var h0, g0 := a.State(), a.g;
    CachesLength(h0, g0);
    var p := a.Kzalloc(size);
    r := Reply(p, []);
    if p == 0 {
      SameSlabs(a.State(), a.g, k.slabs);
    } else {
      ZeroContents(a.State(), a.g, p);
      MoreSlabs(h0, g0, a.State(), a.g, size, p);
    }
  }

  method RunFree(a: Allocator, k: Client, p: int)
    requires Agrees(a, k) && p in k.caps && |k.slabs| == 8
    modifies a
    ensures forall r :: Agrees(a, Believe(k, Free(p), r))
  {
    hide Inv, Contents, Grown;
    NotLow(a.State(), a.g, p);
    a.Kfree(p);
    SameSlabs(a.State(), a.g, k.slabs);
    assert Agrees(a, k.(caps := k.caps - {p}, data := k.data - {p}));
  }

  method RunWrite(a: Allocator, k: Client, p: int, off: int, v: int)
    requires Agrees(a, k) && MayWrite(k, p, off) && |k.slabs| == 8
    modifies a
    ensures forall r :: Agrees(a, Believe(k, Write(p, off, v), r))
  {
    hide Inv, Contents, Grown;
    ghost var m0 := a.mem;
    a.ClientWrite(p, off, v);
    SameSlabs(a.State(), a.g, k.slabs);
    forall q | q in k.data && q != p ensures Contents(a.mem, q, k.caps[q]) == k.data[q] {
      assert q in a.g.live - {p} && Contents(m0, q, k.caps[q]) == k.data[q];
    }
    assert Agrees(a, k.(data := k.data[p := Overwrite(k.data[p], off / 4, v)]));
  }

  lemma NotLow(h: Heap, g: Layout, p: int)
    requires Inv(h, g) && p in g.live
    ensures p >= PAGE
  {
    hide Inv;
    LiveBounds(h, g, p);
  }

  lemma ZeroContents(h: Heap, g: Layout, p: int)
    requires Inv(h, g) && p in g.live
    requires forall i :: 0 <= i < |h.mem| && p <= 4 * i < p + g.live[p] ==> h.mem[i] == 0
    ensures Contents(h.mem, p, g.live[p]) == seq(g.live[p] / 4, i => 0)
  {
    hide Inv, Contents;
    LiveBounds(h, g, p);
    MemLength(h, g);
    var n := g.live[p];
    WordBounds(p, n);
    WordBounds(0, n);
    var a, b := p / 4, n / 4;
    ContentsAt(h.mem, p, n, a, a + b);
    var z := h.mem[a..a + b];
    forall i | 0 <= i < b ensures z[i] == 0 { assert z[i] == h.mem[a + i]; }
  }
}
