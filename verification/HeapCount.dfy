/** How many frames, slabs and objects a heap has: counting laws that follow from the layout
    invariant alone (bootmanager/core/common/kmalloc.c, bootmanager/core/common/frame.c). */
module HeapCount {
  import opened HeapLayout

  /** The frames between the ends of the heap. */
  const ALL_FRAMES: int := 75

  /** The blocks of capacity `n` clients hold. */
  function Blocks(live: map<int, int>, n: int): set<int> { set p | p in live && live[p] == n }

  lemma {:induction false} SeqCard(xs: seq<int>, s: set<int>)
    requires Distinct(xs) && forall x :: x in xs <==> x in s
    ensures |s| == |xs|
  {
    if xs == [] {
      assert s == {} by { assert forall x :: x in s ==> x in xs; }
    } else {
      var ys, t := xs[1..], s - {xs[0]};
      assert xs == [xs[0]] + ys;
      forall x ensures x in ys <==> x in t {
        if x in ys { var i :| 0 <= i < |ys| && ys[i] == x; assert xs[i + 1] == x; }
      }
      SeqCard(ys, t);
    }
  }

  // ---------------------------------------------------------------------
  // Frames
  // ---------------------------------------------------------------------

  /** The frames taken from the pool so far, in order. */
  function Taken(n: nat): (xs: seq<int>)
    ensures |xs| == n
  {
    seq(n, i => HEAP_START + 4096 * i)
  }

  lemma TakenExact(h: Heap, g: Layout)
    requires PoolOk(h, g)
    ensures h.frameStart - 53 >= 0 && |g.kind.Keys| == h.frameStart - 53 && h.frameStart - 53 + h.nFrames == ALL_FRAMES
  {
    var n := h.frameStart - 53;
    var xs := Taken(n);
    forall a ensures a in xs <==> a in g.kind.Keys {
      if a in g.kind {
        var i := a / 4096 - 53;
        assert a == 4096 * (a / 4096);
        assert 0 <= i < n && xs[i] == a;
      }
      if a in xs { var i :| 0 <= i < |xs| && xs[i] == a; Multiple(53 + i, a); }
    }
    SeqCard(xs, g.kind.Keys);
  }

  lemma Multiple(k: int, a: int)
    requires a == 4096 * k
    ensures a % 4096 == 0
  {}

  /** The frames in use as slabs of the first `n` classes. */
  ghost function SlabFramesBelow(g: Layout, n: nat): set<int>
  {
    set a | a in g.kind && g.kind[a].SlabFrame? && g.kind[a].class_ < n
  }

  function Total(counts: seq<int>): int
  {
    if counts == [] then 0 else Total(counts[..|counts| - 1]) + counts[|counts| - 1]
  }

  /** The number of slabs of each class. */
  function SlabCounts(g: Layout): (r: seq<int>)
    ensures |r| == |g.slabs|
  {
    seq(|g.slabs|, c requires 0 <= c < |g.slabs| => |g.slabs[c]|)
  }

  lemma {:induction false} SlabFrameCount(h: Heap, g: Layout, n: nat)
    requires Inv(h, g) && n <= 8 && |g.slabs| == 8
    ensures |SlabFramesBelow(g, n)| == Total(SlabCounts(g)[..n])
  {
    hide SlabOk, FramesOk, LiveOk, Linked;
    if n == 0 {
      assert SlabFramesBelow(g, 0) == {};
    } else {
      var c: nat := n - 1;
      SlabFrameCount(h, g, c);
      var own := set a | a in g.kind && g.kind[a] == SlabFrame(c);
      assert CacheOk(h, g, c);
      assert forall a :: a in g.slabs[c] <==> a in own by { assert forall a :: a in own <==> IsSlab(g, a, c); }
      SeqCard(g.slabs[c], own);
      assert SlabFramesBelow(g, n) == SlabFramesBelow(g, c) + own && SlabFramesBelow(g, c) !! own;
      assert SlabCounts(g)[..n][..c] == SlabCounts(g)[..c];
    }
  }

  ghost function OfKind(g: Layout, k: Kind): set<int> { set a | a in g.kind && g.kind[a] == k }

  lemma KindCount(g: Layout)
    requires forall a :: a in g.kind && g.kind[a].SlabFrame? ==> g.kind[a].class_ < 8
    ensures |g.kind.Keys| == |OfKind(g, FreeFrame)| + |SlabFramesBelow(g, 8)| + |OfKind(g, BlockFrame)|
  {
    var frees, slabs, blocks := OfKind(g, FreeFrame), SlabFramesBelow(g, 8), OfKind(g, BlockFrame);
    forall a ensures a in g.kind.Keys <==> a in frees + slabs + blocks {
      if a in g.kind { assert g.kind[a] == FreeFrame || g.kind[a].SlabFrame? || g.kind[a] == BlockFrame; }
    }
    assert g.kind.Keys == frees + slabs + blocks;
    assert frees !! slabs && frees + slabs !! blocks;
  }

  lemma FreeFrameCount(h: Heap, g: Layout)
    requires FramesOk(h, g)
    ensures |OfKind(g, FreeFrame)| == |g.freeFrames|
  {
    hide Linked;
    SeqCard(g.freeFrames, OfKind(g, FreeFrame));
  }

  /** Every frame is untouched, free, a slab or a block of its own. */
  lemma FrameCount(h: Heap, g: Layout)
    requires Inv(h, g)
    ensures |g.slabs| == 8
    ensures |g.freeFrames| + h.nFrames + Total(SlabCounts(g)) + |Blocks(g.live, PAGE)| == ALL_FRAMES
  {
    hide PoolOk, FramesOk, SlabOk, LiveOk, CacheOk, Total;
    TakenExact(h, g);
    FreeFrameCount(h, g);
    SlabFrameCount(h, g, 8);
    BlockFrames(h, g);
    KindCount(g);
    assert SlabCounts(g)[..8] == SlabCounts(g);
    assert Blocks(g.live, PAGE) == OfKind(g, BlockFrame) by {
      forall a ensures a in Blocks(g.live, PAGE) <==> a in OfKind(g, BlockFrame) {}
    }
  }

  /** The page-sized blocks are the frames handed out whole. */
  lemma BlockFrames(h: Heap, g: Layout)
    requires Inv(h, g)
    ensures forall a :: a in Blocks(g.live, PAGE) <==> a in g.kind && g.kind[a] == BlockFrame
  {
    hide SlabOk, CacheOk, FramesOk, Linked, SlabSize, IsObject;
    forall a ensures a in Blocks(g.live, PAGE) <==> a in g.kind && g.kind[a] == BlockFrame {
      if a in g.kind && g.kind[a] == BlockFrame {
        PageAligned(a);
        assert IsLive(g, a, PAGE);
      }
    }
  }

  // ---------------------------------------------------------------------
  // Objects
  // ---------------------------------------------------------------------

  /** The client blocks inside one slab. */
  ghost function LiveIn(g: Layout, s: int): set<int> { set p | p in g.live && FrameOf(p) == s }

  /** A slab's objects are free or live. */
  lemma SlabObjects(h: Heap, g: Layout, s: int, c: nat)
    requires Inv(h, g) && c < 8 && IsSlab(g, s, c)
    ensures s in g.freeObjs && |LiveIn(g, s)| + |g.freeObjs[s]| == Objects(c)
    ensures forall p :: p in LiveIn(g, s) ==> g.live[p] == SlabSize(c)
  {
    hide CacheOk, FramesOk, Linked, SlabSize, Objects, OnGrid, ObjectsEnd, HeaderOk;
    var xs, free := AllObjects(s, c), g.freeObjs[s];
    AllObjectsExact(s, c);
    assert SlabOk(h.mem, s, c, free);
    var all, frees, live := (set x | x in xs), (set x | x in free), LiveIn(g, s);
    SeqCard(xs, all);
    SeqCard(free, frees);
    forall p | p in live ensures p in all && p !in frees && g.live[p] == SlabSize(c) { InSlab(h, g, s, c, p); }
    forall x | x in all && x !in frees ensures x in live { FreeOrLive(h, g, s, c, x); }
    hide AllObjects, FrameOf, IsObject, LiveOk;
    assert all == live + frees && live !! frees;
  }

  /** A live block in a slab's frame is one of its objects. */
  lemma InSlab(h: Heap, g: Layout, s: int, c: nat, p: int)
    requires Inv(h, g) && c < 8 && IsSlab(g, s, c) && p in g.live && FrameOf(p) == s && s in g.freeObjs
    ensures IsObject(s, c, p) && p !in g.freeObjs[s] && g.live[p] == SlabSize(c)
  {
    hide CacheOk, SlabOk, FramesOk, Linked, SlabSize, IsObject;
    if p in g.kind { PageAligned(p); }
  }

  lemma FreeOrLive(h: Heap, g: Layout, s: int, c: nat, x: int)
    requires Inv(h, g) && c < 8 && IsSlab(g, s, c) && IsObject(s, c, x) && s in g.freeObjs && x !in g.freeObjs[s]
    ensures x in LiveIn(g, s)
  {
    hide CacheOk, SlabOk, FramesOk, Linked, SlabSize, OnGrid, ObjectsEnd;
    ObjectBounds(s, c, x);
    assert IsLive(g, x, SlabSize(c));
  }

  /** The free objects of the first `n` slabs of a cache. */
  ghost function FreeTotal(g: Layout, c: nat, n: nat): nat
    requires c < |g.slabs| && n <= |g.slabs[c]| && forall s :: s in g.slabs[c] ==> s in g.freeObjs
  {
    if n == 0 then 0 else FreeTotal(g, c, n - 1) + |g.freeObjs[g.slabs[c][n - 1]]|
  }

  ghost function LiveInFirst(g: Layout, c: nat, n: nat): set<int>
    requires c < |g.slabs| && n <= |g.slabs[c]|
  {
    set p | p in g.live && FrameOf(p) in g.slabs[c][..n]
  }

  lemma CacheSlabs(h: Heap, g: Layout, c: nat)
    requires Inv(h, g) && c < 8
    ensures |g.slabs| == 8 && Distinct(g.slabs[c])
    ensures forall s :: s in g.slabs[c] <==> IsSlab(g, s, c)
    ensures forall s :: s in g.slabs[c] ==> s in g.freeObjs
  {
    hide SlabOk, FramesOk, LiveOk, Linked;
    assert CacheOk(h, g, c);
  }

  lemma {:induction false} FirstSlabs(h: Heap, g: Layout, c: nat, n: nat)
    requires Inv(h, g) && c < 8 && |g.slabs| == 8 && n <= |g.slabs[c]|
    requires forall s :: s in g.slabs[c] ==> s in g.freeObjs
    ensures |LiveInFirst(g, c, n)| + FreeTotal(g, c, n) == n * Objects(c)
  {
    hide Inv, Objects, FrameOf;
    if n == 0 {
      assert LiveInFirst(g, c, 0) == {};
    } else {
      FirstSlabs(h, g, c, n - 1);
      CacheSlabs(h, g, c);
      var s := g.slabs[c][n - 1];
      assert s in g.slabs[c];
      SlabObjects(h, g, s, c);
      assert g.slabs[c][..n] == g.slabs[c][..n - 1] + [s] && s !in g.slabs[c][..n - 1];
      assert LiveInFirst(g, c, n) == LiveInFirst(g, c, n - 1) + LiveIn(g, s);
      assert LiveInFirst(g, c, n - 1) !! LiveIn(g, s);
      assert n * Objects(c) == (n - 1) * Objects(c) + Objects(c);
    }
  }

  /** The blocks of a class live in its slabs. */
  lemma ClassBlocks(h: Heap, g: Layout, c: nat)
    requires Inv(h, g) && c < 8 && |g.slabs| == 8
    ensures Blocks(g.live, SlabSize(c)) == LiveInFirst(g, c, |g.slabs[c]|)
  {
    CacheSlabs(h, g, c);
    assert g.slabs[c][..|g.slabs[c]|] == g.slabs[c];
    forall p ensures p in Blocks(g.live, SlabSize(c)) <==> p in LiveInFirst(g, c, |g.slabs[c]|) {
      if p in LiveInFirst(g, c, |g.slabs[c]|) {
        SlabObjects(h, g, FrameOf(p), c);
        assert p in LiveIn(g, FrameOf(p));
      }
      if p in Blocks(g.live, SlabSize(c)) { BlockInSlab(h, g, p, c); }
    }
  }

  lemma BlockInSlab(h: Heap, g: Layout, p: int, c: nat)
    requires Inv(h, g) && c < 8 && p in g.live && g.live[p] == SlabSize(c)
    ensures IsSlab(g, FrameOf(p), c)
  {
    hide CacheOk, SlabOk, FramesOk, Linked, IsObject;
    SizesDiffer(c, g.kind[FrameOf(p)].class_);
  }

  lemma SizesDiffer(c: nat, d: nat)
    requires c < 8 && d < 8 && SlabSize(c) == SlabSize(d)
    ensures c == d
  {}

  /** The blocks of a class and its free objects fill its slabs; it is full exactly when the
      clients hold every object. */
  lemma ObjectCount(h: Heap, g: Layout, c: nat)
    requires Inv(h, g) && c < 8
    ensures |g.slabs| == 8 && |Blocks(g.live, SlabSize(c))| <= |g.slabs[c]| * Objects(c)
    ensures |Blocks(g.live, SlabSize(c))| == |g.slabs[c]| * Objects(c) <==>
            forall s :: s in g.slabs[c] && s in g.freeObjs ==> g.freeObjs[s] == []
  {
    hide Inv, Objects, SlabSize, FreeTotal;
    CacheSlabs(h, g, c);
    ClassBlocks(h, g, c);
    FirstSlabs(h, g, c, |g.slabs[c]|);
    NoneFree(g, c, |g.slabs[c]|);
    assert g.slabs[c][..|g.slabs[c]|] == g.slabs[c];
  }

  lemma {:induction false} NoneFree(g: Layout, c: nat, n: nat)
    requires c < |g.slabs| && n <= |g.slabs[c]| && forall s :: s in g.slabs[c] ==> s in g.freeObjs
    ensures FreeTotal(g, c, n) == 0 <==> forall s :: s in g.slabs[c][..n] ==> g.freeObjs[s] == []
  {
    if n > 0 {
      NoneFree(g, c, n - 1);
      var s := g.slabs[c][n - 1];
      assert g.slabs[c][..n] == g.slabs[c][..n - 1] + [s];
      assert s in g.slabs[c][..n] && (|g.freeObjs[s]| == 0 <==> g.freeObjs[s] == []);
      assert FreeTotal(g, c, n) == FreeTotal(g, c, n - 1) + |g.freeObjs[s]|;
    }
  }
}
