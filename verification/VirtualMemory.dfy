/** The virtual memory manager (sys/ddk/ia32/vmm.c), as it runs: every access to
    a page table is a load or store at a virtual address, resolved by the hardware
    walk through the tables being edited.  The TLB is not modelled. */
module VirtualMemory {
  import opened PageTables
  import opened Wrappers

  const ADDRESSES: int := 0x1_0000_0000

  datatype Status = Ok | BadArgument | OutOfMemory | Retry

  /** `f` is the lowest free frame above the first megabyte. */
  ghost predicate LowestHigh(free: set<int>, f: int)
  {
    f in free && f >= 256 && forall g :: g in free && g >= 256 ==> f <= g
  }

  ghost predicate NoHighFrame(free: set<int>) { forall g :: g in free ==> g < 256 }

  ghost predicate NoLowFrame(free: set<int>) { forall g :: g in free ==> g >= 256 }

  lemma LowestExists(free: set<int>)
    requires !NoHighFrame(free)
    ensures exists f :: LowestHigh(free, f)
  {
    var h :| h in free && h >= 256;
    var smaller := set g | g in free && 256 <= g < h;
    if smaller == {} {
      assert forall g :: g in free && g >= 256 && g < h ==> g in smaller;
      assert LowestHigh(free, h);
    } else {
      var rest := free - {h};
      var w :| w in smaller;
      assert w in rest;
      LowestExists(rest);
      var f :| LowestHigh(rest, f);
      assert f <= w < h;
      assert forall g :: g in free ==> g in rest || g == h;
      assert LowestHigh(free, f);
    }
  }

  /** The kernel image as the linker script describes it: where it is loaded, how
      many pages it has, and which of them are read-only (text, rodata). */
  datatype Image = Image(frame: int, pages: int, flags: int, roFlags: int, text: (int, int), rodata: (int, int))
  {
    predicate Ok()
    {
      && 0 <= pages <= ENTRIES && 0 <= text.0 <= text.1 <= ENTRIES && 0 <= rodata.0 <= rodata.1 <= ENTRIES
      && 0 <= flags < 4096 && flags % 2 == 1 && 0 <= roFlags < 4096 && roFlags % 2 == 1
    }

    function Page(j: int): Option<int>
      requires Ok()
    {
      if text.0 <= j < text.1 || rodata.0 <= j < rodata.1 then Some(Entry(frame + j, roFlags))
      else if 0 <= j < pages then Some(Entry(frame + j, flags))
      else None
    }
  }

  ghost predicate TablesDistinct(pd: int, pt: int, tab: map<int, int>)
  {
    && (forall k :: k in tab ==> tab[k] != pd && tab[k] != pt)
    && (forall k, l :: k in tab && l in tab && k != l ==> tab[k] != tab[l])
  }

  ghost predicate KernelTablesBuilt(ram: Ram, pd: int, pt: int, tab: map<int, int>, n: int)
  {
    && (forall k :: k in tab <==> 768 <= k < n)
    && TablesDistinct(pd, pt, tab)
    && (forall k :: Get(ram, pd, k) == if k in tab then Entry(tab[k], KERNEL_PDE_FLAGS) else 0)
    && (forall k, j :: k in tab ==> Get(ram, tab[k], j) == 0)
  }

  /** The paging structures InitVirtualMemoryManager leaves behind. */
  ghost function FirstSpace(pd: int, pt: int, tab: map<int, int>): (sp: Spaces)
    requires TablesDistinct(pd, pt, tab) && pd != pt
    ensures sp.ktab == tab[768 := pt] && sp.Live(pd)
    ensures forall k :: k in sp.ktab ==> sp.ktab[k] in sp.roles && sp.roles[sp.ktab[k]] == KernelTable(k)
    ensures forall f :: f in sp.roles && f != pd ==>
              sp.roles[f].KernelTable? && sp.roles[f].index in sp.ktab && sp.ktab[sp.roles[f].index] == f
  {
    var ktab := tab[768 := pt];
    Spaces((map k | k in ktab :: ktab[k] := KernelTable(k))[pd := Directory], ktab)
  }

  /** Everything InitVirtualMemoryManager has written amounts to one well-formed
      address space ... */
  lemma InitSpace(ram: Ram, free: set<int>, pd: int, pt: int, tab: map<int, int>)
    requires TablesDistinct(pd, pt, tab) && pd != pt && (forall k :: k in tab <==> KernelSlot(k))
    requires forall j :: Get(ram, pd, j) == InitEntry(pd, pt, tab, j)
    requires forall f :: f in free ==> f > 0
    requires pd !in free && pt !in free && pd > 0 && pt > 0
    requires forall k :: k in tab ==> tab[k] !in free && tab[k] > 0
    ensures var sp := FirstSpace(pd, pt, tab);
            && Inv(ram, free, sp) && KernelView(ram, sp, pd)
            && (forall d :: sp.Live(d) <==> d == pd)
            && tab[768] !in sp.roles
  {
    var sp := FirstSpace(pd, pt, tab);
    InitSpaceOk(ram, pd, pt, tab);
    hide Get, InitEntry, FirstSpace;
    assert KernelTables(sp);
  }

  lemma InitSpaceOk(ram: Ram, pd: int, pt: int, tab: map<int, int>)
    requires TablesDistinct(pd, pt, tab) && pd != pt && (forall k :: k in tab <==> KernelSlot(k))
    requires forall j :: Get(ram, pd, j) == InitEntry(pd, pt, tab, j)
    ensures SpaceOk(ram, FirstSpace(pd, pt, tab), pd)
  {
    var sp := FirstSpace(pd, pt, tab);
    hide Get, FirstSpace, Entry, FrameOf;
    assert RecursiveSlot(ram, pd);
    forall i | KernelSlot(i) ensures Get(ram, pd, i) == Entry(sp.ktab[i], KERNEL_PDE_FLAGS) {
      assert i in tab && i != 1023;
    }
    forall i | UserSlot(i) ensures !Present(Get(ram, pd, i)) {
      assert i !in tab && Get(ram, pd, i) == 0;
    }
    hide InitEntry;
  }

  /** The frames of the tables. */
  ghost function Frames(tab: map<int, int>): set<int> { set k | k in tab :: tab[k] }

  lemma ValuesAdd(tab: map<int, int>, i: int, f: int)
    requires i !in tab
    ensures Frames(tab[i := f]) == Frames(tab) + {f}
  {
    var t := tab[i := f];
    assert t[i] == f && forall k :: k in tab ==> t[k] == tab[k];
  }

  /** Every frame the manager took is a paging structure now, except the one first put
      into slot 768. */
  lemma Accounted(free0: set<int>, free: set<int>, pd: int, pt: int, tab: map<int, int>)
    requires TablesDistinct(pd, pt, tab) && pd != pt && 768 in tab && pd in free0 && pt in free0
    requires free == free0 - {pd} - {pt} - Frames(tab) && Frames(tab) <= free0
    ensures var sp := FirstSpace(pd, pt, tab);
            && tab[768] !in free && tab[768] !in sp.roles && free !! sp.roles.Keys
            && free0 == free + sp.roles.Keys + {tab[768]}
  {
    var sp := FirstSpace(pd, pt, tab);
    assert tab[768] in Frames(tab);
    forall f ensures f in sp.roles <==> f == pd || f == pt || (f in Frames(tab) && f != tab[768]) {
      if f in sp.roles && f != pd && f != pt {
        var k := sp.roles[f].index;
        assert sp.ktab[k] == f && k != 768 && tab[k] == f;
      }
      if f in Frames(tab) && f != tab[768] {
        var k :| k in tab && tab[k] == f;
        assert sp.ktab[k] == f;
      }
      assert sp.ktab[768] == pt;
    }
  }

  function InitEntry(pd: int, pt: int, tab: map<int, int>, j: int): int
  {
    if j == 768 then Entry(pt, KERNEL_PDE_FLAGS)
    else if j == 1023 then Entry(pd, KERNEL_PDE_FLAGS)
    else if j in tab then Entry(tab[j], KERNEL_PDE_FLAGS) else 0
  }

  /** ... that maps the kernel image and nothing else. */
  lemma InitMap(ram: Ram, pd: int, pt: int, tab: map<int, int>, img: Image, v: int)
    requires img.Ok() && (forall k :: k in tab <==> KernelSlot(k)) && Ordinary(v)
    requires forall j :: Get(ram, pd, j) == InitEntry(pd, pt, tab, j)
    requires forall j :: 0 <= j < 1024 ==> OptionOf(Get(ram, pt, j)) == img.Page(j)
    requires forall k, j :: k in tab && k != 768 ==> Get(ram, tab[k], j) == 0
    ensures Lookup(ram, pd, v) == if v / 1024 == 768 then img.Page(v % 1024) else None
  {
    hide Get, Entry;
    var i := v / 1024;
    if i in tab && i != 768 { assert Get(ram, tab[i], v % 1024) == 0; }
  }

  /** What the walk makes of a table entry. */
  function OptionOf(w: int): Option<int> { if Present(w) then Some(w) else None }

  class Vmm {
    var ram: Ram
    var cr3: int            // frame of the directory in use
    var free: set<int>      // frames the frame allocator would hand out
    var highest: int        // highest address the frame allocator manages
    ghost var sp: Spaces

    ghost predicate Valid()
      reads this
    {
      Inv(ram, free, sp) && KernelView(ram, sp, cr3)
    }

    /** The flat page map: the entry for page `v` in the space in use. */
    ghost function PageMap(v: int): Option<int>
      reads this
    {
      Lookup(ram, cr3, v)
    }

    /** AllocateFrame as sys/mem/frame.c provides it. */
    method AllocateFrame() returns (f: int)
      requires forall g :: g in free ==> g > 0
      modifies this`free
      ensures f == 0 ==> NoHighFrame(old(free)) && free == old(free)
      ensures f != 0 ==> LowestHigh(old(free), f) && free == old(free) - {f}
    {
      if g :| g in free && g >= 256 {
        LowestExists(free);
        f :| f in free && f >= 256 && forall g :: g in free && g >= 256 ==> f <= g;
        free := free - {f};
      } else {
        f := 0;
      }
    }

    predicate Managed(f: int)
      reads this`highest
    {
      f >= 2 && f * 4096 <= highest
    }

    /** FreeFrame as sys/mem/frame.c provides it: a frame outside the managed range
        is ignored, a frame that is already free stays free. */
    method FreeFrame(f: int)
      modifies this`free
      ensures free == if Managed(f) then old(free) + {f} else old(free)
    {
      if Managed(f) { free := free + {f}; }
    }

    /** AllocateLowMemory: a frame of the first megabyte. */
    method AllocateLowMemory() returns (f: int)
      requires forall g :: g in free ==> g > 0
      modifies this`free
      ensures f == 0 ==> free == old(free) && NoLowFrame(free)
      ensures f != 0 ==> f in old(free) && f < 256 && free == old(free) - {f}
    {
      if g :| g in free && g < 256 {
        f := g;
        free := free - {f};
      } else {
        f := 0;
      }
    }

    /** InitVirtualMemoryManager: one address space with the kernel image and all
        kernel tables in place.  The frame allocated for slot 768 inside the loop
        is then replaced by the image's own table: it ends up neither free nor in
        use. */
    method InitVirtualMemoryManager(img: Image) returns (ok: bool)
      requires (forall g :: g in free ==> g > 0) && img.Ok()
      modifies this
      ensures ok ==>
                && Valid() && sp.Live(cr3) && (forall d :: sp.Live(d) ==> d == cr3)
                && (forall v :: Ordinary(v) ==>
                      PageMap(v) == if v / 1024 == 768 then img.Page(v % 1024) else None)
                && free !! sp.roles.Keys && (forall f :: f in sp.roles ==> f == cr3 || sp.roles[f].KernelTable?)
                && exists lost :: lost !in free && lost !in sp.roles && old(free) == free + sp.roles.Keys + {lost}
      ensures highest == old(highest)
      ensures !ok ==> NoLowFrame(free) || NoHighFrame(free)
    {
      hide Inv, KernelView, Get, Put, ZeroFrame, Entry, Lookup;
      var pd := AllocateLowMemory();
      var pt := AllocateLowMemory();
      if pd == 0 || pt == 0 { return false; }
      var tab := FillTables(img, pd, pt);
      if tab == map[] { return false; }
      cr3 := pd;
      sp := FirstSpace(pd, pt, tab);
      assert forall k :: k in tab ==> tab[k] in Frames(tab);
      InitSpace(ram, free, pd, pt, tab);
      forall v | Ordinary(v)
        ensures PageMap(v) == if v / 1024 == 768 then img.Page(v % 1024) else None
      {
        InitMap(ram, pd, pt, tab, img, v);
      }
      Accounted(old(free), free, pd, pt, tab);
      ok := true;
    }

    /** vmm.c:68-136: the stores.  `map[]` means the memory ran out. */
    method FillTables(img: Image, pd: int, pt: int) returns (tab: map<int, int>)
      requires (forall g :: g in free ==> g > 0) && img.Ok() && pd !in free && pt !in free && pd != pt
      modifies this`ram, this`free
      ensures tab != map[] ==> free == old(free) - Frames(tab) && Frames(tab) <= old(free)
      ensures tab == map[] ==> NoHighFrame(free)
      ensures tab != map[] ==>
                && TablesDistinct(pd, pt, tab) && (forall k :: k in tab <==> KernelSlot(k))
                && (forall j :: Get(ram, pd, j) == InitEntry(pd, pt, tab, j))
                && (forall j :: 0 <= j < 1024 ==> OptionOf(Get(ram, pt, j)) == img.Page(j))
                && (forall k, j :: k in tab && k != 768 ==> Get(ram, tab[k], j) == 0)
    {
      hide Get, Put, ZeroFrame, Entry, Present;
      ram := ZeroFrame(ram, pd);
      ram := ZeroFrame(ram, pt);
      MapImage(img.frame, pt, 0, img.pages, img.flags);
      tab := AllocateKernelTables(pd, pt);
      if tab == map[] { return; }
      ghost var ram1 := ram;
      MapImage(img.frame, pt, img.text.0, img.text.1, img.roFlags);
      MapImage(img.frame, pt, img.rodata.0, img.rodata.1, img.roFlags);
      ghost var ram2 := ram;
      ram := Put(ram, pd, KERNEL_PD_INDEX, Entry(pt, KERNEL_PDE_FLAGS));
      ghost var ram3 := ram;
      ram := Put(ram, pd, RECURSIVE, Entry(pd, KERNEL_PDE_FLAGS));
      forall e, j ensures Get(ram, e, j) ==
        if e == pd && j == 1023 then Entry(pd, KERNEL_PDE_FLAGS)
        else if e == pd && j == 768 then Entry(pt, KERNEL_PDE_FLAGS) else Get(ram2, e, j) {
        GetPut(ram2, pd, KERNEL_PD_INDEX, Entry(pt, KERNEL_PDE_FLAGS), e, j);
        GetPut(ram3, pd, RECURSIVE, Entry(pd, KERNEL_PDE_FLAGS), e, j);
      }
      assert !Present(0) by { ZeroNotPresent(); }
    }

    /** Entries [a, b) of the table in frame `pt` map consecutive frames. */
    method MapImage(frame: int, pt: int, a: int, b: int, flags: int)
      requires 0 <= a <= b <= ENTRIES && 0 <= flags < 4096
      modifies this`ram
      ensures forall e, j :: Get(ram, e, j) ==
                if e == pt && a <= j < b then Entry(frame + j, flags) else Get(old(ram), e, j)
    {
      hide Get, Put, Entry;
      var j := a;
      while j < b
        invariant a <= j <= b
        invariant forall e, k :: Get(ram, e, k) ==
                    if e == pt && a <= k < j then Entry(frame + k, flags) else Get(old(ram), e, k)
      {
        ghost var before := ram;
        ram := Put(ram, pt, j, Entry(frame + j, flags));
        forall e, k ensures Get(ram, e, k) ==
                    if e == pt && a <= k < j + 1 then Entry(frame + k, flags) else Get(old(ram), e, k) {
          GetPut(before, pt, j, Entry(frame + j, flags), e, k);
        }
        j := j + 1;
      }
    }

    /** vmm.c:96-107: a zeroed table for every kernel slot; `map[]` means the
        memory ran out. */
    method AllocateKernelTables(pd: int, pt: int) returns (tab: map<int, int>)
      requires (forall g :: g in free ==> g > 0) && pd !in free && pt !in free && pd != pt
      requires forall j :: Get(ram, pd, j) == 0
      modifies this`ram, this`free
      ensures if tab == map[] then NoHighFrame(free) else KernelTablesBuilt(ram, pd, pt, tab, 1023)
      ensures tab != map[] ==> free == old(free) - Frames(tab) && Frames(tab) <= old(free)
      ensures forall j :: Get(ram, pt, j) == Get(old(ram), pt, j)
    {
      hide Get, Put, ZeroFrame, Entry;
      tab := map[];
      var i := 768;
      while i < 1023
        invariant 768 <= i <= 1023 && free == old(free) - Frames(tab) && Frames(tab) <= old(free)
        invariant KernelTablesBuilt(ram, pd, pt, tab, i)
        invariant forall j :: Get(ram, pt, j) == Get(old(ram), pt, j)
      {
        if !Present(Get(ram, pd, i)) {
          var f := AllocateFrame();
          if f == 0 { return map[]; }
          ghost var ram0 := ram;
          ram := ZeroFrame(ram, f);
          ghost var ram1 := ram;
          ram := Put(ram, pd, i, Entry(f, KERNEL_PDE_FLAGS));
          forall e, j ensures Get(ram, e, j) ==
            if e == pd && j == i then Entry(f, KERNEL_PDE_FLAGS) else if e == f then 0 else Get(ram0, e, j) {
            GetPut(ram1, pd, i, Entry(f, KERNEL_PDE_FLAGS), e, j);
          }
          assert Frames(tab[i := f]) == Frames(tab) + {f} by { ValuesAdd(tab, i, f); }
          tab := tab[i := f];
        }
        i := i + 1;
      }
      assert 768 in tab;
    }

    /** MapSinglePage: either exactly one page appears in the page map (in every
        space at once if it is a kernel page), or nothing changes at all. */
    method MapSinglePage(phys: int, virt: int, flags: int) returns (status: Status)
      requires Valid() && 0 <= phys && 0 <= virt < PAGE_TABLE_BASE && 0 <= flags < 4096
      requires sp.Live(cr3) || KernelPage(virt / 4096)
      modifies this`ram, this`free, this`sp
      ensures Valid() && cr3 == old(cr3)
      ensures status == BadArgument <==> virt == 0 || phys % 4096 != 0 || virt % 4096 != 0
      ensures status == Retry ==> old(PageMap(virt / 4096)).Some?
      ensures status == OutOfMemory <==>
                && virt != 0 && phys % 4096 == 0 && virt % 4096 == 0
                && NoHighFrame(old(free)) && !Present(old(Get(ram, cr3, virt / 4096 / 1024)))
      ensures status != Ok ==> ram == old(ram) && free == old(free) && sp == old(sp)
      ensures status == Ok ==>
                && old(PageMap(virt / 4096)).None?
                && OnlyPage(old(ram), ram, old(sp), cr3, virt / 4096,
                            if flags % 2 == 1 then Some(Entry(phys / 4096, flags)) else None)
      ensures SameSystem(old(sp), sp)
      ensures free <= old(free) && forall g :: g in sp.roles ==> g in old(sp.roles) || g in old(free)
      ensures status == Ok && Present(old(Get(ram, cr3, virt / 4096 / 1024))) ==>
                && ram == Put(old(ram), TableOf(old(ram), cr3, virt / 4096), virt / 4096 % 1024,
                  Entry(phys / 4096, flags))
                && free == old(free) && sp == old(sp)
      ensures status == Ok ==> Granted(old(ram), ram, old(sp), cr3, virt / 4096, flags)
    {
      hide Inv, KernelView, Put, Get, Lookup, Mapped, Load, Store, ZeroPage, OnlyPage, RecursiveSlot, Entry, Present,
           FrameOf, ZeroFrame, Granted, SameSlots;
      if virt == 0 || phys % 4096 != 0 || virt % 4096 != 0 { return BadArgument; }
      var pdindex := virt / 0x40_0000 % 1024;
      var ptindex := virt / 4096 % 1024;
      ghost var v := virt / 4096;
      SplitAddress(virt);
      var pdflags := KERNEL_PDE_FLAGS;
      if flags / 4 % 2 == 1 { pdflags := pdflags + PAGE_USER; }
      ghost var frame := 0;
      ViewRecursive(ram, free, sp, cr3);
      DirectoryWindow(ram, cr3, pdindex);
      LookupAbsent(ram, cr3, v);
      if !Present(Load(ram, cr3, CURRENT_PAGE_DIRECTORY + 4 * pdindex)) {
        AbsentIsUser(ram, free, sp, cr3, pdindex);
        var f := AllocateFrame();
        if f == 0 { return OutOfMemory; }
        frame := f;
        AddTable(ram, old(free), sp, cr3, pdindex, f, pdflags);
        ram := Store(ram, cr3, CURRENT_PAGE_DIRECTORY + 4 * pdindex, Entry(f, pdflags));
        WindowAddress(pdindex, 0);
        FreshWindow(ram, old(ram), cr3, pdindex, Entry(f, pdflags));
        RecursiveWindow(ram, cr3, pdindex, 0, PAGE_TABLE_BASE + 4096 * pdindex);
        ram := ZeroPage(ram, cr3, PAGE_TABLE_BASE + 4096 * pdindex);
        sp := sp.(roles := sp.roles[f := UserTable(cr3, pdindex)]);
        LiveView(ram, free, sp, cr3);
      }
      ViewRecursive(ram, free, sp, cr3);
      WindowAddress(pdindex, ptindex);
      RecursiveWindow(ram, cr3, pdindex, ptindex, PAGE_TABLE_BASE + 4096 * pdindex + 4 * ptindex);
      var pt := PAGE_TABLE_BASE + 4096 * pdindex;
      LookupPresent(ram, cr3, v);
      if Present(Load(ram, cr3, pt + 4 * ptindex)) { return Retry; }
      PutEntry(ram, free, sp, cr3, v, Entry(phys / 4096, flags));
      ghost var ram1, sp1 := ram, sp;
      ram := Store(ram, cr3, pt + 4 * ptindex, Entry(phys / 4096, flags));
      OnlyPageFrom(old(ram), ram1, ram, old(sp), sp1, cr3, v, if flags % 2 == 1 then Some(Entry(phys / 4096, flags))
        else None);
      SlotsWritten(old(ram), ram1, ram, old(sp), sp1, cr3, v / 1024);
      MapRights(old(ram), ram, old(free), old(sp), cr3, v, phys / 4096, flags, frame, pdflags);
      return Ok;
    }

    /** Two pages of one empty slot, the first for the kernel and the second for user code: the
        second is mapped and yet closed to user code. */
    method KernelThenUser(phys: int, virt: int, phys': int, virt': int) returns (first: Status, second: Status)
      requires Valid() && sp.Live(cr3) && 0 <= phys && 0 <= phys'
      requires 0 < virt < PAGE_TABLE_BASE && 0 < virt' < PAGE_TABLE_BASE && virt != virt'
      requires phys % 4096 == 0 && virt % 4096 == 0 && phys' % 4096 == 0 && virt' % 4096 == 0
      requires virt / 0x40_0000 == virt' / 0x40_0000 && !Present(Get(ram, cr3, virt / 4096 / 1024))
      modifies this`ram, this`free, this`sp
      ensures Valid() && (first == Ok || NoHighFrame(old(free))) && (first == Ok ==> second == Ok)
      ensures first == Ok ==>
                PageMap(virt' / 4096) == Some(Entry(phys' / 4096, 7)) && !Grants(ram, cr3, virt' / 4096, PAGE_USER)
    {
      hide Inv, KernelView, Get, Lookup, Entry, Present, RightIs;
      SplitAddress(virt);
      SplitAddress(virt');
      ghost var v, v' := virt / 4096, virt' / 4096;
      LookupAbsent(ram, cr3, v);
      LookupAbsent(ram, cr3, v');
      first := MapSinglePage(phys, virt, KERNEL_PDE_FLAGS);
      second := Retry;
      if first == Ok {
        assert v / 1024 == v' / 1024 && PageMap(v').None?;
        ghost var ram1, sp1 := ram, sp;
        assert !Has(Get(ram, cr3, v' / 1024), PAGE_USER);
        second := MapSinglePage(phys', virt', KERNEL_PDE_FLAGS + PAGE_USER);
        StaysClosed(ram1, ram, sp1, cr3, v');
      }
    }

    /** IsVirtualPageMapped answers the hardware walk's question. */
    method IsVirtualPageMapped(addr: int) returns (b: bool)
      requires Valid() && 0 <= addr < ADDRESSES && addr % 4096 == 0
      ensures b <==> PageMap(addr / 4096).Some?
    {
      hide Inv, KernelView, Get, Lookup, Mapped, Load, RecursiveSlot, Entry, Present, FrameOf;
      var pdindex := addr / 0x40_0000 % 1024;
      var ptindex := addr / 4096 % 1024;
      SplitAny(addr);
      ViewRecursive(ram, free, sp, cr3);
      DirectoryWindow(ram, cr3, pdindex);
      LookupAbsent(ram, cr3, addr / 4096);
      LookupPresent(ram, cr3, addr / 4096);
      if !Present(Load(ram, cr3, CURRENT_PAGE_DIRECTORY + 4 * pdindex)) { return false; }
      WindowAddress(pdindex, ptindex);
      RecursiveWindow(ram, cr3, pdindex, ptindex, PAGE_TABLE_BASE + 4096 * pdindex + 4 * ptindex);
      var pt := PAGE_TABLE_BASE + 4096 * pdindex;
      return Present(Load(ram, cr3, pt + 4 * ptindex));
    }

    /** UnmapSinglePage: exactly one page disappears from the page map. */
    method UnmapSinglePage(virt: int)
      requires Valid() && 0 <= virt < PAGE_TABLE_BASE && virt % 4096 == 0
      requires sp.Live(cr3) || KernelPage(virt / 4096)
      modifies this`ram
      ensures Valid()
      ensures OnlyPage(old(ram), ram, sp, cr3, virt / 4096, None)
      ensures ram == if old(PageMap(virt / 4096)).None? then old(ram)
                     else Put(old(ram), TableOf(old(ram), cr3, virt / 4096), virt / 4096 % 1024, 0)
      ensures Revoked(old(ram), ram, sp, cr3, virt / 4096)
    {
      hide Inv, KernelView, Put, Get, Lookup, Mapped, Load, Store, OnlyPage, RecursiveSlot, Entry, Present, FrameOf,
           Revoked;
      SplitAddress(virt);
      ghost var v := virt / 4096;
      var b := IsVirtualPageMapped(virt);
      if !b {
        OnlyPageSame(ram, free, sp, cr3, v);
        UnmapRights(ram, ram, free, sp, cr3, v);
        return;
      }
      var pdindex := virt / 0x40_0000 % 1024;
      var ptindex := virt / 4096 % 1024;
      ViewRecursive(ram, free, sp, cr3);
      DirectoryWindow(ram, cr3, pdindex);
      LookupAbsent(ram, cr3, v);
      LookupPresent(ram, cr3, v);
      WindowAddress(pdindex, ptindex);
      RecursiveWindow(ram, cr3, pdindex, ptindex, PAGE_TABLE_BASE + 4096 * pdindex + 4 * ptindex);
      var pt := PAGE_TABLE_BASE + 4096 * pdindex;
      PutEntry(ram, free, sp, cr3, v, 0);
      assert !Present(0) by { ZeroNotPresent(); }
      ram := Store(ram, cr3, pt + 4 * ptindex, 0);
      UnmapRights(old(ram), ram, free, sp, cr3, v);
    }

    /** The number of pages that start below an address. */
    static function PagesBelow(stop: int): int { (stop + 4095) / 4096 }

    /** Pages [s, s + n) are all unmapped and start below page `stop`. */
    ghost predicate FreeRun(s: int, n: int, stop: int)
      reads this
    {
      s + n <= stop && forall v :: s <= v < s + n ==> PageMap(v).None?
    }

    /** FindFreePageRange: the lowest run of `n` unmapped pages in the scanned
        range, or 0 exactly when there is none. */
    method FindFreePageRange(start_scan: int, stop_scan: int, n: int) returns (r: int)
      requires Valid() && 0 <= start_scan && start_scan % 4096 == 0 && n >= 0
      requires 0 <= stop_scan <= 0xFFFF_F000
      ensures r == 0 <==> (start_scan == 0 || n == 0 ||
                (forall s :: start_scan / 4096 <= s ==> !FreeRun(s, n, PagesBelow(stop_scan))))
      ensures r != 0 ==>
                && r % 4096 == 0 && start_scan <= r
                && FreeRun(r / 4096, n, PagesBelow(stop_scan))
                && forall s :: start_scan / 4096 <= s < r / 4096 ==> !FreeRun(s, n, PagesBelow(stop_scan))
    {
      hide Inv, KernelView, Lookup;
      if start_scan == 0 || n == 0 { return 0; }
      var start, count, addr := 0, 0, start_scan;
      ghost var lo := start_scan / 4096;
      ghost var hi := PagesBelow(stop_scan);
      while addr < stop_scan
        invariant addr % 4096 == 0 && lo <= addr / 4096 && (addr == start_scan || addr / 4096 <= hi)
        invariant 0 <= count < n && start_scan <= addr - 4096 * count
        invariant count > 0 ==> start == addr - 4096 * count
        invariant forall v :: addr / 4096 - count <= v < addr / 4096 ==> PageMap(v).None?
        invariant forall s :: lo <= s < addr / 4096 - count ==> !FreeRun(s, n, hi)
      {
        var b := IsVirtualPageMapped(addr);
        ghost var page := addr / 4096;
        if !b {
          if count == 0 { start := addr; }
          count := count + 1;
          if count == n {
            assert start / 4096 == page + 1 - n;
            assert FreeRun(start / 4096, n, hi);
            return start;
          }
        } else {
          forall s | lo <= s < page + 1 ensures !FreeRun(s, n, hi) {
            if s >= page - count { assert s <= page < s + n; }
          }
          count := 0;
        }
        addr := addr + 4096;
        assert addr / 4096 == page + 1;
      }
      r := 0;
      forall s | lo <= s ensures !FreeRun(s, n, hi) {
        if s >= addr / 4096 - count { assert s + n > hi; }
      }
    }
  }

  lemma ZeroNotPresent()
    ensures !Present(0)
  {}

  lemma SplitAny(addr: int)
    requires 0 <= addr < ADDRESSES
    ensures addr / 0x40_0000 % 1024 == addr / 4096 / 1024 && 0 <= addr / 4096 / 1024 < 1024
  {}

  /** Unmapping a page that is not mapped anywhere is no change. */
  lemma OnlyPageSame(ram: Ram, free: set<int>, sp: Spaces, d: int, v: int)
    requires Inv(ram, free, sp) && KernelView(ram, sp, d) && Ordinary(v) && Lookup(ram, d, v) == None
    ensures OnlyPage(ram, ram, sp, d, v, None)
  {
    hide Inv;
    forall e | sp.Live(e) && KernelPage(v) ensures Lookup(ram, e, v) == None {
      LiveView(ram, free, sp, e);
      SharedEntry(ram, free, sp, e, v / 1024);
      SharedEntry(ram, free, sp, d, v / 1024);
    }
  }

  lemma SplitAddress(virt: int)
    requires 0 <= virt < PAGE_TABLE_BASE
    ensures virt / 0x40_0000 % 1024 == virt / 4096 / 1024 && 0 <= virt / 4096 / 1024 < 1023
    ensures Ordinary(virt / 4096)
  {}

  lemma ViewRecursive(ram: Ram, free: set<int>, sp: Spaces, d: int)
    requires Inv(ram, free, sp) && KernelView(ram, sp, d)
    ensures RecursiveSlot(ram, d) && forall f :: f in free ==> f > 0 && f !in sp.roles
  {}

  /** Kernel slots always have their table (vmm.c:155-156). */
  lemma AbsentIsUser(ram: Ram, free: set<int>, sp: Spaces, d: int, i: int)
    requires Inv(ram, free, sp) && KernelView(ram, sp, d) && 0 <= i < 1023 && !Present(Get(ram, d, i))
    ensures UserSlot(i)
  {
    hide Inv;
    if KernelSlot(i) { SharedEntry(ram, free, sp, d, i); }
  }

  lemma LookupAbsent(ram: Ram, d: int, v: int)
    ensures !Present(Get(ram, d, v / 1024)) ==> Lookup(ram, d, v) == None
  {}

  lemma LookupPresent(ram: Ram, d: int, v: int)
    ensures Present(Get(ram, d, v / 1024)) ==>
              var pte := Get(ram, FrameOf(Get(ram, d, v / 1024)), v % 1024);
              Lookup(ram, d, v) == if Present(pte) then Some(pte) else None
  {}

  /** Right after a directory entry is written the table it names shows up in the
      window, so zeroing through the window zeroes the new frame. */
  lemma FreshWindow(ram': Ram, ram: Ram, d: int, i: int, w: int)
    requires RecursiveSlot(ram, d) && 0 <= i < 1023 && ram' == Put(ram, d, i, w)
    ensures RecursiveSlot(ram', d) && Get(ram', d, i) == w
  {
    hide Put, Get;
    GetPut(ram, d, i, w, d, i);
    GetPut(ram, d, i, w, d, RECURSIVE);
  }

  lemma OnlyPageFrom(ram0: Ram, ram1: Ram, ram2: Ram, sp0: Spaces, sp1: Spaces, d: int, v: int, w: Option<int>)
    requires OnlyPage(ram1, ram2, sp1, d, v, w) && SameSystem(sp0, sp1) && Ordinary(v)
    requires forall e, u :: sp0.Live(e) && Ordinary(u) ==> Lookup(ram1, e, u) == Lookup(ram0, e, u)
    requires sp0.Live(d) || ram1 == ram0
    ensures OnlyPage(ram0, ram2, sp0, d, v, w)
  {
    hide Lookup;
    assert forall e :: sp0.Live(e) ==> sp1.Live(e);
  }

  /** The directory entries after a mapping. */
  lemma SlotsWritten(ram0: Ram, ram1: Ram, ram2: Ram, sp0: Spaces, sp1: Spaces, d: int, i: int)
    requires SameSystem(sp0, sp1) && KernelView(ram2, sp1, d)
    requires forall e, j :: sp0.Live(e) && (e != d || j != i) ==> Get(ram1, e, j) == Get(ram0, e, j)
    requires Present(Get(ram0, d, i)) ==> ram1 == ram0
    requires forall e, j :: sp1.Live(e) || e == d ==> Get(ram2, e, j) == Get(ram1, e, j)
    ensures SameSlots(ram0, ram2, sp0, d, i) && Get(ram2, d, i) == Get(ram1, d, i) && KernelView(ram2, sp0, d)
  {
    hide Get, Present, Entry;
    assert forall e :: sp0.Live(e) ==> sp1.Live(e);
  }

  /** The rights of a page just mapped. */
  lemma MapRights(ram: Ram, ram': Ram, free: set<int>, sp: Spaces, d: int, v: int, p: int, flags: int, f: int,
                  pdflags: int)
    requires Inv(ram, free, sp) && KernelView(ram, sp, d) && KernelView(ram', sp, d) && Ordinary(v)
    requires 0 <= flags < 4096 && pdflags == if Has(flags, PAGE_USER) then KERNEL_PDE_FLAGS + PAGE_USER
                                             else KERNEL_PDE_FLAGS
    requires OnlyPage(ram, ram', sp, d, v, if flags % 2 == 1 then Some(Entry(p, flags)) else None)
    requires SameSlots(ram, ram', sp, d, v / 1024) && (sp.Live(d) || KernelPage(v))
    requires !Present(Get(ram, d, v / 1024)) ==> Get(ram', d, v / 1024) == Entry(f, pdflags)
    ensures Granted(ram, ram', sp, d, v, flags)
  {
    hide Inv, KernelView, OnlyPage, RightIs, Get, Entry;
    var w, pde := if flags % 2 == 1 then Some(Entry(p, flags)) else None, Get(ram, d, v / 1024);
    EntryHas(f, pdflags, PAGE_USER);
    EntryHas(f, pdflags, PAGE_RW);
    assert Present(Entry(f, pdflags));
    forall b | RightBit(b)
      ensures RightIs(ram, ram', sp, d, v, b, flags % 2 == 1 && Has(flags, b) && (!Present(pde) || Has(pde, b)))
    {
      RightsFollow(ram, ram', free, sp, d, v, b, w);
      EntryHas(p, flags, b);
      EntryHas(f, pdflags, b);
      assert Has(3, PAGE_RW) && Has(7, PAGE_RW) && Has(7, PAGE_USER) && !Has(3, PAGE_USER);
    }
  }

  lemma UnmapRights(ram: Ram, ram': Ram, free: set<int>, sp: Spaces, d: int, v: int)
    requires Inv(ram, free, sp) && KernelView(ram, sp, d) && KernelView(ram', sp, d) && Ordinary(v)
    requires OnlyPage(ram, ram', sp, d, v, None) && (sp.Live(d) || KernelPage(v))
    requires forall e, j :: sp.Live(e) || e == d ==> Get(ram', e, j) == Get(ram, e, j)
    ensures Revoked(ram, ram', sp, d, v)
  {
    hide Inv, KernelView, OnlyPage, RightIs, Get;
    forall b | RightBit(b) ensures RightIs(ram, ram', sp, d, v, b, false) {
      RightsFollow(ram, ram', free, sp, d, v, b, None);
    }
  }

  lemma StaysClosed(ram: Ram, ram': Ram, sp: Spaces, d: int, v: int)
    requires Granted(ram, ram', sp, d, v, 7) && Present(Get(ram, d, v / 1024)) && !Has(Get(ram, d, v / 1024), PAGE_USER)
    ensures !Grants(ram', d, v, PAGE_USER)
  {
    hide Get, Present, Grants, OnlyRight;
    assert RightBit(PAGE_USER);
  }

  /** Page `j` of the image that is not text or read-only data. */
  predicate Writable(img: Image, j: int)
  {
    0 <= j < img.pages && !(img.text.0 <= j < img.text.1) && !(img.rodata.0 <= j < img.rodata.1)
  }

  /** After boot writes are permitted to the kernel's data and to neither its text nor its
      constants, and user code reaches nothing. */
  lemma BootRights(ram: Ram, free: set<int>, sp: Spaces, d: int, img: Image, v: int)
    requires Inv(ram, free, sp) && KernelView(ram, sp, d) && Ordinary(v) && img.Ok()
    requires Lookup(ram, d, v) == if v / 1024 == 768 then img.Page(v % 1024) else None
    requires Has(img.flags, PAGE_RW) && !Has(img.roFlags, PAGE_RW)
    ensures Grants(ram, d, v, PAGE_RW) <==> v / 1024 == 768 && Writable(img, v % 1024)
    ensures !Grants(ram, d, v, PAGE_USER)
  {
    hide Inv, KernelView, Get, Entry, Has, Grants;
    GrantsIs(ram, d, v, PAGE_RW);
    GrantsIs(ram, d, v, PAGE_USER);
    hide Lookup;
    if v / 1024 == 768 {
      KernelClosed(ram, free, sp, d, v);
      SharedEntry(ram, free, sp, d, 768);
      EntryHas(sp.ktab[768], KERNEL_PDE_FLAGS, PAGE_RW);
      EntryHas(img.frame + v % 1024, img.flags, PAGE_RW);
      EntryHas(img.frame + v % 1024, img.roFlags, PAGE_RW);
      assert Has(KERNEL_PDE_FLAGS, PAGE_RW) by { KernelFlags(); }
    }
  }

  lemma KernelFlags()
    ensures Has(KERNEL_PDE_FLAGS, PAGE_RW) && !Has(KERNEL_PDE_FLAGS, PAGE_USER)
  {}
}
