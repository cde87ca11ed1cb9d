/** Creating and deleting address spaces (sys/task/process.c): the temporary
    mapping slots, CreateProcess and DeleteProcess.  All page tables are written
    through temporary kernel mappings, resolved by the hardware walk. */
module Processes {
  import opened PageTables
  import opened VirtualMemory
  import opened Wrappers

  const TMPMAP_MAX_PAGES: int := 1024
  const TEMPORARY_PAGE: int := 0xF2000        // TEMPORARY_VIRT_MAPADDR
  const KERNEL_STACK_FIRST: int := 0xE0000    // KERNEL_STACK_BASE
  const KERNEL_STACK_LAST: int := 0xEFFF0     // KERNEL_STACK_END
  const USER_STACK_PAGE: int := 0xBFFF0       // DEFAULT_USER_STACK_ADDR
  const USER_STACK_SIZE_PAGES: int := 4
  const CODE_PAGE: int := 0x100               // FLAT_BINARY_DEFAULT_ENTRY
  const KERNEL_STACK_SIZE_PAGES: int := 2
  const TEMP_FLAGS: int := 3                  // PAGE_PRESENT | PAGE_RW
  const STACK_FLAGS: int := 0x103             // PAGE_PRESENT | PAGE_RW | PAGE_GLOBAL
  const USER_FLAGS: int := 7                  // PAGE_PRESENT | PAGE_RW | PAGE_USER

  /** A temporary mapping: a frame, the kernel page it is visible at, its slot. */
  datatype TempMap = TempMap(phys: int, page: int, slot: int)

  /** Page of slot `k`: slots grow downwards. */
  function TempPage(k: int): (v: int)
    requires 0 <= k < TMPMAP_MAX_PAGES
    ensures KernelPage(v) && Ordinary(v)
  {
    TEMPORARY_PAGE - k
  }

  /** Only frame `f` and the entry of kernel page `v` may differ. */
  ghost predicate OnlyFrameAndPage(ram: Ram, ram': Ram, sp: Spaces, f: int, v: int)
    requires v / 1024 in sp.ktab
  {
    forall e, i :: e != f && !(e == sp.ktab[v / 1024] && i == v % 1024) ==> Get(ram', e, i) == Get(ram, e, i)
  }

  /** The same system, page by page, except for kernel page `v`. */
  ghost predicate SamePagesBut(ram: Ram, ram': Ram, sp: Spaces, d: int, v: int)
  {
    && (forall e, u :: sp.Live(e) && Ordinary(u) && u != v ==> Lookup(ram', e, u) == Lookup(ram, e, u))
    && (forall u :: KernelPage(u) && u != v ==> Lookup(ram', d, u) == Lookup(ram, d, u))
  }

  /** A process as far as its address space goes: its directory, the frames of its
      kernel stack and the page that stack starts at. */
  datatype Process = Process(cr3: int, kstack: seq<int>, kpage: int)

  /** How CreateProcess ends.  `Failed` and `Leaked` both return null: the first before
      anything was done, the second when the new directory could not be mapped, with
      the kernel stack in place and lost. */
  datatype Outcome = Panic | Failed | Leaked(kstack: seq<int>, kpage: int) | Done(p: Process)

  /** The frames CreateProcess obtains beside the directory. */
  datatype SpaceFrames = SpaceFrames(ct: int, st: int, stack: seq<int>, code: seq<int>, kstack: seq<int>)
  {
    /** All frames of the process, in the order DeleteProcess frees them. */
    ghost function InOrder(d: int): seq<int>
    {
      code + [ct] + Reversed(stack) + [st] + kstack + [d]
    }

    ghost function All(d: int): set<int> { Elems(InOrder(d)) }

    ghost predicate Distinct(free: set<int>, d: int)
    {
      |stack| == 4 && NoDuplicates(InOrder(d)) && All(d) <= free
    }

    /** `x` came off the free list and is none of the paging structures. */
    ghost predicate Own(free: set<int>, d: int, x: int)
    {
      x in free && x != d && x != ct && x != st
    }

    /** The paging structures with the new space among them. */
    ghost function Register(sp: Spaces, d: int): Spaces
    {
      sp.(roles := sp.roles[d := Directory][ct := UserTable(d, 0)][st := UserTable(d, 767)])
    }

    /** The directory and the two user tables hold what CreateProcess put there. */
    ghost predicate Built(ram: Ram, sp: Spaces, d: int)
    {
      && (forall i :: UserSlot(i) ==>
            Get(ram, d, i) == if i == 0 then Entry(ct, USER_FLAGS) else if i == 767 then Entry(st, USER_FLAGS) else 0)
      && CodeTable(ram, ct, code) && StackTable(ram, st, stack)
    }
  }

  class ProcessTable {
    const vm: Vmm
    var tmpmap: seq<bool>      // tmpmap_bitmap, one bit a slot

    constructor (vm: Vmm)
      ensures this.vm == vm && tmpmap == seq(TMPMAP_MAX_PAGES, _ => false)
    {
      this.vm := vm;
      tmpmap := seq(TMPMAP_MAX_PAGES, _ => false);
    }

    ghost predicate Valid()
      reads this, vm
    {
      && vm.Valid()
      && |tmpmap| == TMPMAP_MAX_PAGES
      && forall f :: f in vm.free ==> vm.Managed(f) && f != vm.cr3
    }

    /** The same, but the directory in use may be a free frame. */
    ghost predicate Base()
      reads this, vm
    {
      && vm.Valid()
      && |tmpmap| == TMPMAP_MAX_PAGES
      && forall f :: f in vm.free ==> vm.Managed(f)
    }

    /** A free slot always means an unmapped temporary page. */
    ghost predicate SlotsOk()
      requires |tmpmap| == TMPMAP_MAX_PAGES
      reads this, vm
    {
      forall k :: 0 <= k < TMPMAP_MAX_PAGES && !tmpmap[k] ==> vm.PageMap(TempPage(k)).None?
    }

    /** FindFreeTmpMapSlot: the lowest clear bit, scanning word by word. */
    method FindFreeTmpMapSlot() returns (r: int)
      requires |tmpmap| == TMPMAP_MAX_PAGES
      ensures r == -1 <==> forall k :: 0 <= k < TMPMAP_MAX_PAGES ==> tmpmap[k]
      ensures r != -1 ==> 0 <= r < TMPMAP_MAX_PAGES && !tmpmap[r] && forall k :: 0 <= k < r ==> tmpmap[k]
    {
      for w := 0 to 32
        invariant forall k :: 0 <= k < 32 * w ==> tmpmap[k]
      {
        if false in tmpmap[32 * w..32 * w + 32] {
          for b := 0 to 32
            invariant forall k :: 0 <= k < 32 * w + b ==> tmpmap[k]
          {
            if !tmpmap[32 * w + b] { return 32 * w + b; }
          }
        }
        forall k | 32 * w <= k < 32 * w + 32 ensures tmpmap[k] {
          assert tmpmap[k] == tmpmap[32 * w..32 * w + 32][k - 32 * w];
        }
      }
      return -1;
    }

    /** CreateTempVirtualMap: a zeroed frame nobody else has, visible at the page
        of the lowest free slot.  On failure nothing has changed. */
    method CreateTempVirtualMap() returns (m: Option<TempMap>)
      requires Valid()
      modifies this`tmpmap, vm`ram, vm`free, vm`sp
      ensures Valid() && vm.sp == old(vm.sp)
      ensures m.None? ==> vm.ram == old(vm.ram) && vm.free == old(vm.free) && tmpmap == old(tmpmap)
      ensures m.None? && old(SlotsOk()) ==>
                NoHighFrame(old(vm.free)) || forall k :: 0 <= k < TMPMAP_MAX_PAGES ==> tmpmap[k]
      ensures m.Some? ==> CreatedTemp(old(vm.ram), old(vm.free), old(tmpmap), m.value)
      ensures old(SlotsOk()) ==> SlotsOk()
    {
      hide Inv, KernelView, Get, Put, ZeroFrame, Lookup, Entry, Mapped, ZeroPage;
      var slot := FindFreeTmpMapSlot();
      if slot < 0 { return None; }
      var page := TempPage(slot);
      ViewRecursive(vm.ram, vm.free, vm.sp, vm.cr3);
      var phys := vm.AllocateFrame();
      if phys == 0 { return None; }
      FewerFree(vm.ram, old(vm.free), vm.free, vm.sp);
      KernelPte(vm.ram, vm.free, vm.sp, vm.cr3, page);
      var status := vm.MapSinglePage(phys * 4096, page * 4096, TEMP_FLAGS);
      if status != Ok {
        vm.FreeFrame(phys);
        assert vm.free == old(vm.free);
        return None;
      }
      tmpmap := tmpmap[slot := true];
      ghost var ram1 := vm.ram;
      PageAccess(vm.ram, vm.cr3, page, 0, 0);
      vm.ram := ZeroPage(vm.ram, vm.cr3, page * 4096);
      TempCreated(old(vm.ram), ram1, vm.ram, vm.free, vm.sp, vm.cr3, phys, page);
      return Some(TempMap(phys, page, slot));
    }

    /** DeleteTempVirtualMap: the page and the slot are free again; the frame is
        still the caller's. */
    method DeleteTempVirtualMap(m: TempMap)
      requires Valid() && 0 <= m.slot < TMPMAP_MAX_PAGES && tmpmap[m.slot] && m.page == TempPage(m.slot)
      modifies this`tmpmap, vm`ram
      ensures Valid()
      ensures tmpmap == old(tmpmap)[m.slot := false] && vm.PageMap(m.page).None?
      ensures m.page / 1024 in vm.sp.ktab
      ensures forall e, i :: !(e == vm.sp.ktab[m.page / 1024] && i == m.page % 1024) ==>
                Get(vm.ram, e, i) == Get(old(vm.ram), e, i)
      ensures SamePagesBut(old(vm.ram), vm.ram, vm.sp, vm.cr3, m.page)
      ensures old(SlotsOk()) ==> SlotsOk()
    {
      hide Inv, KernelView, Get, Put, Lookup, Entry;
      KernelPte(vm.ram, vm.free, vm.sp, vm.cr3, m.page);
      ghost var ram0 := vm.ram;
      vm.UnmapSinglePage(m.page * 4096);
      forall e, i | !(e == vm.sp.ktab[m.page / 1024] && i == m.page % 1024)
        ensures Get(vm.ram, e, i) == Get(ram0, e, i)
      {
        GetPut(ram0, vm.sp.ktab[m.page / 1024], m.page % 1024, 0, e, i);
      }
      tmpmap := tmpmap[m.slot := false];
    }

    /** A store into a page reached through a temporary mapping. */
    method StoreTemp(m: TempMap, i: int, w: int)
      requires Valid() && 0 <= i < 1024 && KernelPage(m.page)
      requires vm.PageMap(m.page) == Some(Entry(m.phys, TEMP_FLAGS))
      requires m.phys !in vm.sp.roles && m.phys != vm.cr3
      modifies vm`ram
      ensures Valid() && vm.ram == Put(old(vm.ram), m.phys, i, w)
      ensures forall e, u :: vm.sp.Live(e) && Ordinary(u) ==> Lookup(vm.ram, e, u) == Lookup(old(vm.ram), e, u)
      ensures forall u :: KernelPage(u) ==> vm.PageMap(u) == old(vm.PageMap(u))
    {
      hide Inv, KernelView, Get, Put, Lookup, Entry, Store, Mapped, Load;
      PageAccess(vm.ram, vm.cr3, m.page, i, w);
      ghost var ram0 := vm.ram;
      vm.ram := Store(vm.ram, vm.cr3, m.page * 4096 + 4 * i, w);
      forall e, j | e != m.phys ensures Get(vm.ram, e, j) == Get(ram0, e, j) {
        GetPut(ram0, m.phys, i, w, e, j);
      }
      DataWrite(ram0, vm.ram, vm.free, vm.sp, vm.cr3, m.phys);
    }

    ghost predicate CreatedTemp(ram: Ram, free: set<int>, tmp: seq<bool>, m: TempMap)
      reads this, vm
    {
      && 0 <= m.slot < TMPMAP_MAX_PAGES && |tmp| == TMPMAP_MAX_PAGES && !tmp[m.slot]
      && m.page == TempPage(m.slot) && tmpmap == tmp[m.slot := true]
      && LowestHigh(free, m.phys) && vm.free == free - {m.phys}
      && vm.PageMap(m.page) == Some(Entry(m.phys, TEMP_FLAGS))
      && (forall i :: Get(vm.ram, m.phys, i) == 0)
      && m.page / 1024 in vm.sp.ktab && OnlyFrameAndPage(ram, vm.ram, vm.sp, m.phys, m.page)
      && SamePagesBut(ram, vm.ram, vm.sp, vm.cr3, m.page)
    }

    // -------------------------------------------------------------------
    // Building a new space
    // -------------------------------------------------------------------

    /** Since `ram0` and `free0` the frames `taken` have been allocated and only
        they, the temporary pages and the kernel stack pages at `k` have been
        written. */
    ghost predicate Work(ram0: Ram, free0: set<int>, taken: set<int>, k: int)
      reads this, vm
    {
      && Valid() && SlotsOk()
      && taken <= free0 && vm.free == free0 - taken
      && (forall f :: f in taken ==> f !in vm.sp.roles && f != vm.cr3 && f > 0)
      && Building(ram0, vm.ram, vm.sp, taken, k)
    }

    /** Enough frames and slots are left for `n` more temporary mappings. */
    predicate Room(frames: int, slots: int)
      reads this, vm
    {
      |High(vm.free)| >= frames && |FreeSlots(tmpmap)| >= slots
    }

    /** A temporary mapping during the construction of a space, if there is a frame and
        a slot for it. */
    method TryTemp(ghost ram0: Ram, ghost free0: set<int>, ghost taken: set<int>, ghost k: int,
                   ghost frames: int, ghost slots: int)
      returns (r: Option<TempMap>)
      requires Work(ram0, free0, taken, k) && Room(frames, slots)
      modifies this`tmpmap, vm`ram, vm`free, vm`sp
      ensures vm.sp == old(vm.sp)
      ensures r.None? <==> !old(Room(1, 1))
      ensures r.None? ==> vm.ram == old(vm.ram) && vm.free == old(vm.free) && tmpmap == old(tmpmap)
      ensures r.Some? ==>
                NewTempOk(r.value, old(vm.ram), old(tmpmap), ram0, free0, taken, k) && Room(frames - 1, slots - 1)
    {
      hide Inv, KernelView, Get, Lookup, Entry, High, FreeSlots, Building;
      ViewRecursive(vm.ram, vm.free, vm.sp, vm.cr3);
      r := CreateTempVirtualMap();
      if r.None? {
        NoRoom(old(vm.free), old(tmpmap));
        return;
      }
      var m := r.value;
      LessRoom(old(vm.free), m.phys, old(tmpmap), m.slot);
      assert vm.free == free0 - (taken + {m.phys});
      KernelPte(vm.ram, vm.free, vm.sp, vm.cr3, m.page);
      BuildingStep(ram0, old(vm.ram), vm.ram, vm.sp, taken, k, m.phys, m.page);
    }

    /** What a new temporary mapping is, and what it leaves alone. */
    ghost predicate NewTempOk(m: TempMap, ram: Ram, tmp: seq<bool>, ram0: Ram, free0: set<int>, taken: set<int>, k: int)
      reads this, vm
    {
      && m.phys in free0 && m.phys >= 256 && m.phys !in taken && Work(ram0, free0, taken + {m.phys}, k)
      && Holds(m) && |tmp| == TMPMAP_MAX_PAGES && !tmp[m.slot] && tmpmap == tmp[m.slot := true]
      && (forall i :: Get(vm.ram, m.phys, i) == 0)
      && KeepsFrames(ram, vm.ram, taken)
      && (forall u :: KernelPage(u) && u != m.page ==> vm.PageMap(u) == Lookup(ram, vm.cr3, u))
    }

    /** The same where the source relies on its success. */
    method NewTemp(ghost ram0: Ram, ghost free0: set<int>, ghost taken: set<int>, ghost k: int,
                   ghost frames: int, ghost slots: int)
      returns (m: TempMap)
      requires Work(ram0, free0, taken, k) && Room(frames, slots) && frames >= 1 && slots >= 1
      modifies this`tmpmap, vm`ram, vm`free, vm`sp
      ensures vm.sp == old(vm.sp) && Room(frames - 1, slots - 1)
      ensures NewTempOk(m, old(vm.ram), old(tmpmap), ram0, free0, taken, k)
    {
      hide Inv, KernelView, Get, Lookup, Entry, High, FreeSlots, Building;
      var r := TryTemp(ram0, free0, taken, k, frames, slots);
      m := r.value;
    }

    /** `m` is a slot in use showing its frame. */
    ghost predicate Holds(m: TempMap)
      reads this, vm
    {
      && |tmpmap| == TMPMAP_MAX_PAGES && 0 <= m.slot < TMPMAP_MAX_PAGES && tmpmap[m.slot]
      && m.page == TempPage(m.slot) && vm.PageMap(m.page) == Some(Entry(m.phys, TEMP_FLAGS))
    }

    /** The end of a temporary mapping during the construction of a space. */
    method DropTemp(m: TempMap, ghost ram0: Ram, ghost free0: set<int>, ghost taken: set<int>, ghost k: int,
                    ghost frames: int, ghost slots: int)
      requires Work(ram0, free0, taken, k) && Room(frames, slots) && Holds(m)
      modifies this`tmpmap, vm`ram
      ensures Work(ram0, free0, taken, k) && Room(frames, slots + 1)
      ensures tmpmap == old(tmpmap)[m.slot := false]
      ensures KeepsFrames(old(vm.ram), vm.ram, taken)
      ensures forall u :: KernelPage(u) && u != m.page ==> vm.PageMap(u) == old(vm.PageMap(u))
    {
      hide Inv, KernelView, Get, Lookup, Entry, High, FreeSlots, Building;
      KernelPte(vm.ram, vm.free, vm.sp, vm.cr3, m.page);
      DeleteTempVirtualMap(m);
      MoreRoom(old(tmpmap), m.slot);
      BuildingPage(ram0, old(vm.ram), vm.ram, vm.sp, taken, k, m.page);
    }

    /** A store into a frame of the new space. */
    method PutTemp(m: TempMap, i: int, w: int, ghost ram0: Ram, ghost free0: set<int>, ghost taken: set<int>,
                   ghost k: int)
      requires Work(ram0, free0, taken, k) && Holds(m) && m.phys in taken && 0 <= i < 1024
      modifies vm`ram
      ensures Work(ram0, free0, taken, k) && vm.ram == Put(old(vm.ram), m.phys, i, w)
      ensures forall u :: KernelPage(u) ==> vm.PageMap(u) == old(vm.PageMap(u))
    {
      hide Inv, KernelView, Get, Put, Lookup, Entry, Building;
      StoreTemp(m, i, w);
      BuildingPut(ram0, old(vm.ram), vm.sp, taken, k, m.phys, i, w);
    }

    /** The kernel half of the page map is what it was. */
    ghost predicate SameKernelPages(ram: Ram)
      reads this, vm
    {
      forall u :: KernelPage(u) ==> vm.PageMap(u) == Lookup(ram, vm.cr3, u)
    }

    /** process.c:221-222: the new directory gets the kernel half of the current one. */
    method CopyKernelHalf(pd: TempMap, ghost ram0: Ram, ghost free0: set<int>, ghost taken: set<int>, ghost k: int)
      requires Work(ram0, free0, taken, k) && Holds(pd) && pd.phys in taken
      requires forall j :: Get(vm.ram, pd.phys, j) == 0
      modifies vm`ram
      ensures Work(ram0, free0, taken, k) && SameKernelPages(old(vm.ram))
      ensures forall j :: Get(vm.ram, pd.phys, j) == if KernelSlot(j) then Get(old(vm.ram), vm.cr3, j) else 0
      ensures KeepsFrames(old(vm.ram), vm.ram, taken - {pd.phys})
    {
      hide Inv, KernelView, Get, Put, Lookup, Entry, Building, Mapped, Load, RecursiveSlot, Store;
      ghost var before := vm.ram;
      var i := KERNEL_PD_INDEX;
      while i < RECURSIVE
        invariant KERNEL_PD_INDEX <= i <= RECURSIVE
        invariant Work(ram0, free0, taken, k) && SameKernelPages(before)
        invariant forall j :: Get(vm.ram, pd.phys, j) == if KERNEL_PD_INDEX <= j < i then Get(before, vm.cr3, j) else 0
        invariant forall e, j :: e != pd.phys ==> Get(vm.ram, e, j) == Get(before, e, j)
      {
        ViewRecursive(vm.ram, vm.free, vm.sp, vm.cr3);
        DirectoryWindow(vm.ram, vm.cr3, i);
        var w := Load(vm.ram, vm.cr3, CURRENT_PAGE_DIRECTORY + 4 * i);
        ghost var ram1 := vm.ram;
        PutTemp(pd, i, w, ram0, free0, taken, k);
        forall e, j ensures Get(vm.ram, e, j) == if e == pd.phys && j == i then w else Get(ram1, e, j) {
          GetPut(ram1, pd.phys, i, w, e, j);
        }
        i := i + 1;
      }
    }

    /** One more page for the table in `table`: a zeroed frame, entered at index
        `i` with user rights (process.c:234-237, 245-255). */
    method AddUserPage(table: TempMap, i: int, words: seq<int>, ghost ram0: Ram, ghost free0: set<int>,
                       ghost taken: set<int>, ghost k: int, ghost frames: int, ghost slots: int)
      returns (f: int)
      requires Work(ram0, free0, taken, k) && Holds(table) && table.phys in taken && 0 <= i < 1024
      requires Room(frames, slots) && frames >= 1 && slots >= 1 && |words| <= 1024
      modifies this`tmpmap, vm`ram, vm`free, vm`sp
      ensures vm.sp == old(vm.sp) && f in free0 && f !in taken && tmpmap == old(tmpmap)
      ensures Work(ram0, free0, taken + {f}, k) && Room(frames - 1, slots) && SameKernelPages(old(vm.ram))
      ensures forall j :: Get(vm.ram, table.phys, j) ==
                if j == i then Entry(f, USER_FLAGS) else Get(old(vm.ram), table.phys, j)
      ensures forall j :: Get(vm.ram, f, j) == if 0 <= j < |words| then words[j] else 0
      ensures KeepsFrames(old(vm.ram), vm.ram, taken - {table.phys})
    {
      hide Inv, KernelView, Get, Put, Lookup, Entry, Building, High, FreeSlots;
      ghost var before := vm.ram;
      var m := NewTemp(ram0, free0, taken, k, frames, slots);
      f := m.phys;
      ghost var taken1 := taken + {f};
      ghost var ram1 := vm.ram;
      PutTemp(table, i, Entry(f, USER_FLAGS), ram0, free0, taken1, k);
      forall e, j
        ensures Get(vm.ram, e, j) == if e == table.phys && j == i then Entry(f, USER_FLAGS) else Get(ram1, e, j)
      {
        GetPut(ram1, table.phys, i, Entry(f, USER_FLAGS), e, j);
      }
      ghost var ram2 := vm.ram;
      CopyWords(m, words, ram0, free0, taken1, k);
      ghost var ram3 := vm.ram;
      DropTemp(m, ram0, free0, taken1, k, frames - 1, slots - 1);
      assert tmpmap == old(tmpmap);
    }

    /** memcpy of an executable page through its temporary mapping. */
    method CopyWords(m: TempMap, words: seq<int>, ghost ram0: Ram, ghost free0: set<int>, ghost taken: set<int>,
                     ghost k: int)
      requires Work(ram0, free0, taken, k) && Holds(m) && m.phys in taken && |words| <= 1024
      requires forall j :: Get(vm.ram, m.phys, j) == 0
      modifies vm`ram
      ensures Work(ram0, free0, taken, k) && SameKernelPages(old(vm.ram))
      ensures forall j :: Get(vm.ram, m.phys, j) == if 0 <= j < |words| then words[j] else 0
      ensures forall e, j :: e != m.phys ==> Get(vm.ram, e, j) == Get(old(vm.ram), e, j)
    {
      hide Inv, KernelView, Get, Put, Lookup, Entry, Building;
      ghost var before := vm.ram;
      var i := 0;
      while i < |words|
        invariant 0 <= i <= |words|
        invariant Work(ram0, free0, taken, k) && SameKernelPages(before)
        invariant forall j :: Get(vm.ram, m.phys, j) == if 0 <= j < i then words[j] else 0
        invariant forall e, j :: e != m.phys ==> Get(vm.ram, e, j) == Get(before, e, j)
      {
        ghost var ram1 := vm.ram;
        PutTemp(m, i, words[i], ram0, free0, taken, k);
        forall e, j ensures Get(vm.ram, e, j) == if e == m.phys && j == i then words[i] else Get(ram1, e, j) {
          GetPut(ram1, m.phys, i, words[i], e, j);
        }
        i := i + 1;
      }
    }

    /** process.c:229-241: a table with four zeroed pages below the top of the
        user half, entered into the new directory. */
    method UserStack(pd: TempMap, ghost ram0: Ram, ghost free0: set<int>, ghost taken: set<int>, ghost k: int,
                     ghost frames: int, ghost slots: int)
      returns (st: int, stack: seq<int>)
      requires Work(ram0, free0, taken, k) && Holds(pd) && pd.phys in taken
      requires Room(frames, slots) && frames >= 5 && slots >= 2
      modifies this`tmpmap, vm`ram, vm`free, vm`sp
      ensures vm.sp == old(vm.sp) && tmpmap == old(tmpmap) && |stack| == 4
      ensures st in free0 && st !in taken && Fresh(stack, free0, taken + {st})
      ensures Work(ram0, free0, taken + {st} + Elems(stack), k) && Room(frames - 5, slots)
      ensures SameKernelPages(old(vm.ram))
      ensures StackTable(vm.ram, st, stack) && Zeroed(vm.ram, Elems(stack))
      ensures forall j :: Get(vm.ram, pd.phys, j) ==
                if j == 767 then Entry(st, USER_FLAGS) else Get(old(vm.ram), pd.phys, j)
      ensures KeepsFrames(old(vm.ram), vm.ram, taken - {pd.phys})
    {
      hide Inv, KernelView, Get, Put, Lookup, Entry, Building, High, FreeSlots, Zeroed;
      ghost var before := vm.ram;
      var m := NewTemp(ram0, free0, taken, k, frames, slots);
      st := m.phys;
      ghost var ram1, taken1 := vm.ram, taken + {st};
      stack := [];
      var i := 0;
      assert taken1 + Elems(stack) == taken1;
      ZeroedNone(vm.ram);
      while i < USER_STACK_SIZE_PAGES
        invariant 0 <= i <= 4 && |stack| == i && Fresh(stack, free0, taken1)
        invariant vm.sp == old(vm.sp) && tmpmap == old(tmpmap)[m.slot := true]
        invariant Work(ram0, free0, taken1 + Elems(stack), k) && Room(frames - 1 - i, slots - 1)
        invariant SameKernelPages(ram1)
        invariant StackTable(vm.ram, st, stack) && Zeroed(vm.ram, Elems(stack))
        invariant KeepsFrames(ram1, vm.ram, taken)
      {
        ghost var was := vm.ram;
        var f := AddUserPage(m, 1008 - i, [], ram0, free0, taken1 + Elems(stack), k, frames - 1 - i, slots - 1);
        ElemsAppend(stack, f);
        assert taken1 + Elems(stack) + {f} == taken1 + Elems(stack + [f]);
        StackGrows(was, vm.ram, st, stack, f);
        ZeroedGrows(was, vm.ram, stack, f, free0, taken1, st);
        stack := stack + [f];
        i := i + 1;
      }
      ghost var ram2, taken2 := vm.ram, taken1 + Elems(stack);
      PutTemp(pd, 767, Entry(st, USER_FLAGS), ram0, free0, taken2, k);
      forall e, j
        ensures Get(vm.ram, e, j) == if e == pd.phys && j == 767 then Entry(st, USER_FLAGS) else Get(ram2, e, j)
      {
        GetPut(ram2, pd.phys, 767, Entry(st, USER_FLAGS), e, j);
      }
      FreshElems(stack, free0, taken1);
      ZeroedKept(ram2, vm.ram, Elems(stack), taken2 - {pd.phys});
      ghost var ram3 := vm.ram;
      DropTemp(m, ram0, free0, taken2, k, frames - 5, slots - 1);
      ZeroedKept(ram3, vm.ram, Elems(stack), taken2);
      assert tmpmap == old(tmpmap);
    }

    /** process.c:244-256: the pages of the executable, from index 256 of `pt`. */
    method UserCode(pt: TempMap, pages: seq<seq<int>>, ghost ram0: Ram, ghost free0: set<int>, ghost taken: set<int>,
                    ghost k: int, ghost frames: int, ghost slots: int)
      returns (code: seq<int>)
      requires Work(ram0, free0, taken, k) && Holds(pt) && pt.phys in taken
      requires |pages| <= 768 && (forall i :: 0 <= i < |pages| ==> |pages[i]| <= 1024)
      requires Room(frames, slots) && frames >= |pages| && slots >= 1
      requires forall j :: Get(vm.ram, pt.phys, j) == 0
      modifies this`tmpmap, vm`ram, vm`free, vm`sp
      ensures vm.sp == old(vm.sp) && tmpmap == old(tmpmap) && |code| == |pages|
      ensures Fresh(code, free0, taken)
      ensures Work(ram0, free0, taken + Elems(code), k) && Room(frames - |pages|, slots)
      ensures SameKernelPages(old(vm.ram))
      ensures CodeTable(vm.ram, pt.phys, code) && CodeLoaded(vm.ram, code, pages)
      ensures KeepsFrames(old(vm.ram), vm.ram, taken - {pt.phys})
    {
      hide Inv, KernelView, Get, Put, Lookup, Entry, Building, High, FreeSlots;
      ghost var before := vm.ram;
      code := [];
      var i := 0;
      assert taken + Elems(code) == taken;
      while i < |pages|
        invariant 0 <= i <= |pages| && |code| == i && Fresh(code, free0, taken)
        invariant vm.sp == old(vm.sp) && tmpmap == old(tmpmap)
        invariant Work(ram0, free0, taken + Elems(code), k) && Room(frames - i, slots)
        invariant SameKernelPages(before)
        invariant CodeTable(vm.ram, pt.phys, code) && CodeLoaded(vm.ram, code, pages)
        invariant KeepsFrames(before, vm.ram, taken - {pt.phys})
      {
        ghost var was := vm.ram;
        var f := AddUserPage(pt, 256 + i, pages[i], ram0, free0, taken + Elems(code), k, frames - i, slots);
        ElemsAppend(code, f);
        assert taken + Elems(code) + {f} == taken + Elems(code + [f]);
        CodeGrows(was, vm.ram, pt.phys, code, pages, f, taken + Elems(code));
        code := code + [f];
        i := i + 1;
      }
    }

    // -------------------------------------------------------------------
    // CreateProcess
    // -------------------------------------------------------------------

    /** GetNextKernelStackAddress: the lowest pair of unmapped pages in the stack
        area; None is the panic of the source. */
    method GetNextKernelStackAddress() returns (r: Option<int>)
      requires Valid()
      ensures r.Some? ==>
                && KERNEL_STACK_FIRST <= r.value && r.value + KERNEL_STACK_SIZE_PAGES <= KERNEL_STACK_LAST
                && StackFree(r.value)
                && forall j :: 0 <= j && KERNEL_STACK_FIRST + 2 * j < r.value ==> !StackFree(KERNEL_STACK_FIRST + 2 * j)
      ensures r.None? <==> NoStackAddress()
    {
      hide Inv, KernelView, Lookup;
      var cur := KERNEL_STACK_FIRST;
      ghost var n := 0;
      while cur + KERNEL_STACK_SIZE_PAGES <= KERNEL_STACK_LAST
        invariant n >= 0 && cur == KERNEL_STACK_FIRST + 2 * n && cur <= KERNEL_STACK_LAST
        invariant forall j :: 0 <= j < n ==> !StackFree(KERNEL_STACK_FIRST + 2 * j)
        decreases KERNEL_STACK_LAST - cur
      {
        var conflict := false;
        var i := 0;
        while i < KERNEL_STACK_SIZE_PAGES && !conflict
          invariant 0 <= i <= KERNEL_STACK_SIZE_PAGES
          invariant !conflict ==> forall v :: cur <= v < cur + i ==> vm.PageMap(v).None?
          invariant conflict ==> !StackFree(cur)
        {
          conflict := vm.IsVirtualPageMapped((cur + i) * 4096);
          i := i + 1;
        }
        if !conflict {
          assert StackFree(KERNEL_STACK_FIRST + 2 * n);
          return Some(cur);
        }
        cur := cur + KERNEL_STACK_SIZE_PAGES;
        n := n + 1;
      }
      return None;
    }

    ghost predicate StackFree(k: int)
      reads this, vm
    {
      forall v :: k <= v < k + KERNEL_STACK_SIZE_PAGES ==> vm.PageMap(v).None?
    }

    /** One kernel stack page (process.c:196-202). */
    method MapStackPage(v: int, ghost ram0: Ram, ghost free0: set<int>, ghost taken: set<int>, ghost k: int,
                        ghost frames: int, ghost slots: int)
      returns (f: int)
      requires Work(ram0, free0, taken, k) && Room(frames, slots) && frames >= 1
      requires k <= v < k + 2 && KERNEL_STACK_FIRST <= v < KERNEL_STACK_LAST && vm.PageMap(v).None?
      modifies vm`ram, vm`free, vm`sp
      ensures vm.sp == old(vm.sp) && f in free0 && f !in taken
      ensures Work(ram0, free0, taken + {f}, k) && Room(frames - 1, slots)
      ensures |High(vm.free)| == old(|High(vm.free)|) - 1
      ensures vm.PageMap(v) == Some(Entry(f, STACK_FLAGS))
      ensures forall u :: KernelPage(u) && u != v ==> vm.PageMap(u) == old(vm.PageMap(u))
    {
      hide Inv, KernelView, Get, Put, Lookup, Entry, Building, High, FreeSlots;
      ViewRecursive(vm.ram, vm.free, vm.sp, vm.cr3);
      f := vm.AllocateFrame();
      if f == 0 {
        NoHigh(old(vm.free));
        assert false;
      }
      HighLess(old(vm.free), f);
      FewerFree(vm.ram, old(vm.free), vm.free, vm.sp);
      KernelPte(vm.ram, vm.free, vm.sp, vm.cr3, v);
      ghost var was := vm.ram;
      var status := vm.MapSinglePage(f * 4096, v * 4096, STACK_FLAGS);
      forall e, i | !(e == vm.sp.ktab[v / 1024] && i == v % 1024) ensures Get(vm.ram, e, i) == Get(was, e, i) {
        GetPut(was, vm.sp.ktab[v / 1024], v % 1024, Entry(f, STACK_FLAGS), e, i);
      }
      BuildingPage(ram0, was, vm.ram, vm.sp, taken, k, v);
      BuildingMore(ram0, vm.ram, vm.sp, taken, f, k);
      assert vm.free == free0 - (taken + {f});
    }

    /** No pair of pages of the stack area is free. */
    ghost predicate NoStackAddress()
      reads this, vm
    {
      forall j :: 0 <= j && KERNEL_STACK_FIRST + 2 * j + 2 <= KERNEL_STACK_LAST ==>
        !StackFree(KERNEL_STACK_FIRST + 2 * j)
    }

    /** The allocations CreateProcess does not check, for `n` pages of code: the two
        stack frames, and everything after the first temporary mapping if that one
        succeeds. */
    predicate Unchecked(n: int)
      reads this, vm
    {
      Room(2, 0) && (Room(3, 1) ==> Room(9 + n, 4))
    }

    /** CreateProcess, for an executable given as its pages.  The kernel heap and the
        thread are not part of the model. */
    method CreateProcess(pages: seq<seq<int>>) returns (r: Outcome, ghost sf: SpaceFrames)
      requires Valid() && SlotsOk() && vm.sp.Live(vm.cr3)
      requires |pages| <= 768 && (forall i :: 0 <= i < |pages| ==> |pages[i]| <= 1024)
      requires pages != [] && !NoStackAddress() ==> Unchecked(|pages|)
      modifies this`tmpmap, vm`ram, vm`free, vm`sp
      ensures r == Failed <==> pages == []
      ensures r == Panic <==> pages != [] && old(NoStackAddress())
      ensures r.Leaked? <==> pages != [] && old(!NoStackAddress() && !Room(3, 1))
      ensures r == Failed || r == Panic ==> vm.ram == old(vm.ram) && vm.sp == old(vm.sp)
      ensures !r.Done? ==> (vm.free == old(vm.free) <==> pages == [] || old(NoStackAddress()))
      ensures r.Leaked? ==> Lost(old(vm.ram), old(vm.free), old(vm.sp), r.kstack, r.kpage)
      ensures tmpmap == old(tmpmap)
      ensures r.Done? ==> Created(old(vm.ram), old(vm.free), old(vm.sp), pages, r.p, sf)
      ensures r.Done? ==>
                forall u :: 0 <= u < 1024 * 1024 ==> (Grants(vm.ram, r.p.cr3, u, PAGE_USER) <==> InImage(sf, u))
    {
      hide Inv, KernelView, Lookup, High, FreeSlots, Grants, InImage;
      sf := SpaceFrames(0, 0, [], [], []);
      if pages == [] { return Failed, sf; }
      var kaddr := GetNextKernelStackAddress();
      if kaddr.None? { return Panic, sf; }
      r, sf := Launch(kaddr.value, pages);
      if r.Done? {
        FramesOfSpace(sf, old(vm.free), r.p.cr3);
        NewSpaceRights(vm.ram, vm.free, vm.sp, sf, r.p.cr3);
      }
    }

    /** CreateProcess once it has an address for the kernel stack. */
    method Launch(k: int, pages: seq<seq<int>>) returns (r: Outcome, ghost sf: SpaceFrames)
      requires Valid() && SlotsOk() && vm.sp.Live(vm.cr3) && StackFree(k)
      requires KERNEL_STACK_FIRST <= k && k + 2 <= KERNEL_STACK_LAST
      requires |pages| <= 768 && (forall i :: 0 <= i < |pages| ==> |pages[i]| <= 1024)
      requires Unchecked(|pages|)
      modifies this`tmpmap, vm`ram, vm`free, vm`sp
      ensures r.Leaked? || r.Done?
      ensures r.Leaked? <==> old(!Room(3, 1))
      ensures r.Leaked? ==> Lost(old(vm.ram), old(vm.free), old(vm.sp), r.kstack, r.kpage)
      ensures tmpmap == old(tmpmap)
      ensures r.Done? ==> Created(old(vm.ram), old(vm.free), old(vm.sp), pages, r.p, sf)
    {
      hide Inv, KernelView, Get, Put, Lookup, Entry, Building, High, FreeSlots, Fresh, SamePagesButStack, CodeTable,
           StackTable, CodeLoaded, NewEntry, Work, Zeroed;
      sf := SpaceFrames(0, 0, [], [], []);
      ghost var ram0, free0, tmp0 := vm.ram, vm.free, tmpmap;
      var kstack, pd, ram1 := StartProcess(k, 9 + |pages|);
      if pd.None? {
        return Leaked(kstack, k), sf;
      }
      var p;
      p, sf := Construct(k, kstack, pd.value, pages, ram0, free0, ram1, tmp0);
      Launched(ram0, free0, ram1, pages, p, sf);
      vm.sp := sf.Register(vm.sp, p.cr3);
      return Done(p), sf;
    }

    /** The kernel stack, and the new directory if it can be mapped (process.c:195-214). */
    method StartProcess(k: int, ghost n: int) returns (kstack: seq<int>, pd: Option<TempMap>, ghost ram1: Ram)
      requires Valid() && SlotsOk() && vm.sp.Live(vm.cr3) && StackFree(k)
      requires KERNEL_STACK_FIRST <= k && k + 2 <= KERNEL_STACK_LAST
      requires Room(2, 0) && (Room(3, 1) ==> Room(n, 4))
      modifies this`tmpmap, vm`ram, vm`free, vm`sp
      ensures vm.sp == old(vm.sp) && |kstack| == 2
      ensures pd.None? <==> old(!Room(3, 1))
      ensures pd.None? ==> Lost(old(vm.ram), old(vm.free), old(vm.sp), kstack, k) && tmpmap == old(tmpmap)
      ensures pd.Some? ==>
                && StackReady(old(vm.ram), old(vm.free), k, kstack, ram1)
                && NewTempOk(pd.value, ram1, old(tmpmap), old(vm.ram), old(vm.free), {} + {kstack[0]} + {kstack[1]}, k)
                && Lookup(ram1, vm.cr3, pd.value.page).None? && Room(n - 3, 3)
    {
      hide Inv, KernelView, Get, Put, Lookup, Entry, Building, High, FreeSlots, SamePagesButStack;
      ghost var ram0, free0, sp0 := vm.ram, vm.free, vm.sp;
      ghost var frames, slots := |High(free0)|, |FreeSlots(tmpmap)|;
      kstack := MapStack(k, frames, slots);
      ghost var taken := {} + {kstack[0]} + {kstack[1]};
      ram1 := vm.ram;
      assert forall s :: 0 <= s < TMPMAP_MAX_PAGES && !tmpmap[s] ==> Lookup(ram1, vm.cr3, TempPage(s)).None?;
      pd := TryTemp(ram0, free0, taken, k, frames - 2, slots);
      if pd.None? {
        PagesKept(ram0, vm.ram, free0, vm.free, sp0, vm.cr3, taken, Process(0, kstack, k));
      }
    }

    /** The kernel stack is in place in `ram1`. */
    ghost predicate StackReady(ram0: Ram, free0: set<int>, k: int, kstack: seq<int>, ram1: Ram)
      reads this, vm
    {
      && |kstack| == 2 && kstack[0] != kstack[1] && kstack[0] in free0 && kstack[1] in free0
      && forall u :: KernelPage(u) ==>
           Lookup(ram1, vm.cr3, u) ==
             if k <= u < k + 2 then Some(Entry(kstack[u - k], STACK_FLAGS)) else Lookup(ram0, vm.cr3, u)
    }

    /** Registering the finished space makes the system well formed. */
    lemma Launched(ram0: Ram, free0: set<int>, ram1: Ram, pages: seq<seq<int>>, p: Process, sf: SpaceFrames)
      requires Inv(ram0, free0, vm.sp) && KernelView(ram0, vm.sp, vm.cr3) && vm.sp.Live(vm.cr3) && vm.cr3 !in free0
      requires p.kstack == sf.kstack && |sf.code| == |pages| && StackReady(ram0, free0, p.kpage, p.kstack, ram1)
      requires KERNEL_STACK_FIRST <= p.kpage && p.kpage + 2 <= KERNEL_STACK_LAST
      requires sf.Distinct(free0, p.cr3) && Work(ram0, free0, sf.All(p.cr3), p.kpage)
      requires SameKernelPages(ram1)
      requires StackTable(vm.ram, sf.st, sf.stack) && CodeTable(vm.ram, sf.ct, sf.code) &&
               CodeLoaded(vm.ram, sf.code, pages)
      requires forall j :: Get(vm.ram, p.cr3, j) == NewEntry(ram0, vm.cr3, p.cr3, sf.ct, sf.st, j)
      ensures SamePagesButStack(ram0, vm.ram, vm.sp, p) && Valid() && SlotsOk() && vm.free == free0 - sf.All(p.cr3)
      ensures var sp' := sf.Register(vm.sp, p.cr3);
              Inv(vm.ram, vm.free, sp') && KernelView(vm.ram, sp', vm.cr3) && sf.Built(vm.ram, sp', p.cr3)
    {
      hide Inv, KernelView, Get, Lookup, Entry, Building, StackTable, CodeTable, CodeLoaded, NewEntry, Zeroed;
      PagesKept(ram0, vm.ram, free0, vm.free, vm.sp, vm.cr3, sf.All(p.cr3), p);
      Registered(ram0, vm.ram, free0, vm.free, vm.sp, vm.cr3, sf, p.cr3, p.kpage);
    }

    /** What CreateProcess has achieved when it succeeds. */
    ghost predicate Created(ram: Ram, free: set<int>, sp: Spaces, pages: seq<seq<int>>, p: Process, sf: SpaceFrames)
      reads this, vm
    {
      && Valid() && SlotsOk() && p.kstack == sf.kstack && |sf.code| == |pages|
      && KERNEL_STACK_FIRST <= p.kpage && p.kpage + 2 <= KERNEL_STACK_LAST
      && vm.sp == sf.Register(sp, p.cr3)
      && sf.Distinct(free, p.cr3) && vm.free == free - sf.All(p.cr3)
      && sf.Built(vm.ram, vm.sp, p.cr3) && CodeLoaded(vm.ram, sf.code, pages) && Zeroed(vm.ram, Elems(sf.stack))
      && SamePagesButStack(ram, vm.ram, sp, p) && p.cr3 >= 256
    }

    /** What a call that could not map the new directory leaves behind: two frames are
        gone from the free ones and stay mapped as a kernel stack of nobody. */
    ghost predicate Lost(ram: Ram, free: set<int>, sp: Spaces, kstack: seq<int>, k: int)
      reads this, vm
    {
      && Valid() && SlotsOk() && vm.sp == sp
      && |kstack| == 2 && kstack[0] != kstack[1] && kstack[0] in free && kstack[1] in free
      && vm.free == free - {kstack[0], kstack[1]}
      && KERNEL_STACK_FIRST <= k && k + 2 <= KERNEL_STACK_LAST
      && SamePagesButStack(ram, vm.ram, sp, Process(0, kstack, k))
    }

    /** The two kernel stack pages (process.c:195-203). */
    method MapStack(k: int, ghost frames: int, ghost slots: int) returns (kstack: seq<int>)
      requires Valid() && SlotsOk() && Room(frames, slots) && frames >= 2 && StackFree(k)
      requires KERNEL_STACK_FIRST <= k && k + 2 <= KERNEL_STACK_LAST
      modifies vm`ram, vm`free, vm`sp
      ensures vm.sp == old(vm.sp) && |kstack| == 2 && kstack[0] != kstack[1]
      ensures kstack[0] in old(vm.free) && kstack[1] in old(vm.free)
      ensures Work(old(vm.ram), old(vm.free), {} + {kstack[0]} + {kstack[1]}, k) && Room(frames - 2, slots)
      ensures StackPages(old(vm.ram), Process(0, kstack, k))
      ensures |High(vm.free)| == old(|High(vm.free)|) - 2
    {
      hide Inv, KernelView, Get, Put, Lookup, Entry, Building, High, FreeSlots;
      ghost var ram0, free0 := vm.ram, vm.free;
      assert Work(ram0, free0, {}, k) by { BuildingRefl(ram0, vm.sp, k); assert free0 - {} == free0; }
      var f0 := MapStackPage(k, ram0, free0, {}, k, frames, slots);
      var f1 := MapStackPage(k + 1, ram0, free0, {} + {f0}, k, frames - 1, slots);
      kstack := [f0, f1];
    }

    /** The new space, not yet registered. */
    method Construct(k: int, kstack: seq<int>, pd: TempMap, pages: seq<seq<int>>,
                     ghost ram0: Ram, ghost free0: set<int>, ghost ram1: Ram, ghost tmp: seq<bool>)
      returns (p: Process, ghost sf: SpaceFrames)
      requires |kstack| == 2 && kstack[0] != kstack[1] && kstack[0] in free0 && kstack[1] in free0
      requires NewTempOk(pd, ram1, tmp, ram0, free0, {} + {kstack[0]} + {kstack[1]}, k) && Room(6 + |pages|, 3)
      requires KERNEL_STACK_FIRST <= k && k + 2 <= KERNEL_STACK_LAST
      requires |pages| <= 768 && (forall i :: 0 <= i < |pages| ==> |pages[i]| <= 1024)
      requires Lookup(ram1, vm.cr3, pd.page).None?
      modifies this`tmpmap, vm`ram, vm`free, vm`sp
      ensures vm.sp == old(vm.sp) && tmpmap == tmp
      ensures p == Process(pd.phys, kstack, k) && sf.kstack == kstack && |sf.code| == |pages|
      ensures sf.Distinct(free0, p.cr3) && Work(ram0, free0, sf.All(p.cr3), k)
      ensures SameKernelPages(ram1)
      ensures StackTable(vm.ram, sf.st, sf.stack) && CodeTable(vm.ram, sf.ct, sf.code) &&
              CodeLoaded(vm.ram, sf.code, pages) && Zeroed(vm.ram, Elems(sf.stack))
      ensures forall j :: Get(vm.ram, p.cr3, j) == NewEntry(ram0, vm.cr3, p.cr3, sf.ct, sf.st, j)
    {
      hide Inv, KernelView, Get, Put, Lookup, Entry, Building, High, FreeSlots, Fresh, StackTable, CodeTable,
           CodeLoaded, NewEntry, Zeroed;
      var ct, st, stack, code := BuildSpace(pd, pages, ram0, free0, {} + {kstack[0]} + {kstack[1]} + {pd.phys}, k,
        ram1);
      sf := SpaceFrames(ct, st, stack, code, kstack);
      p := Process(pd.phys, kstack, k);
      AllFrames(sf, pd.phys, kstack[0], kstack[1]);
      DistinctFrames(sf, free0, pd.phys, kstack[0], kstack[1]);
    }

    /** The kernel pages after the two stack pages were added. */
    ghost predicate StackPages(ram: Ram, p: Process)
      requires |p.kstack| == 2
      reads this, vm
    {
      forall u :: KernelPage(u) ==>
        vm.PageMap(u) ==
          if p.kpage <= u < p.kpage + 2 then Some(Entry(p.kstack[u - p.kpage], STACK_FLAGS)) else Lookup(ram, vm.cr3, u)
    }

    /** process.c:216-278: the kernel half, code table, stack table. */
    method BuildSpace(pd: TempMap, pages: seq<seq<int>>, ghost ram0: Ram, ghost free0: set<int>, ghost taken: set<int>,
                      ghost k: int, ghost ram1: Ram)
      returns (ct: int, st: int, stack: seq<int>, code: seq<int>)
      requires Work(ram0, free0, taken, k) && Room(6 + |pages|, 3) && Holds(pd) && pd.phys in taken
      requires forall i :: Get(vm.ram, pd.phys, i) == 0
      requires |pages| <= 768 && (forall i :: 0 <= i < |pages| ==> |pages[i]| <= 1024)
      requires forall u :: KernelPage(u) && u != pd.page ==> vm.PageMap(u) == Lookup(ram1, vm.cr3, u)
      requires Lookup(ram1, vm.cr3, pd.page).None?
      modifies this`tmpmap, vm`ram, vm`free, vm`sp
      ensures vm.sp == old(vm.sp) && tmpmap == old(tmpmap)[pd.slot := false] && |stack| == 4 && |code| == |pages|
      ensures ct in free0 && ct !in taken
      ensures st in free0 && st !in taken + {ct} && Fresh(stack, free0, taken + {ct} + {st})
      ensures Fresh(code, free0, taken + {ct} + {st} + Elems(stack))
      ensures Work(ram0, free0, taken + {ct} + {st} + Elems(stack) + Elems(code), k)
      ensures SameKernelPages(ram1)
      ensures StackTable(vm.ram, st, stack) && CodeTable(vm.ram, ct, code) && CodeLoaded(vm.ram, code, pages)
      ensures Zeroed(vm.ram, Elems(stack))
      ensures forall j :: Get(vm.ram, pd.phys, j) == NewEntry(ram0, vm.cr3, pd.phys, ct, st, j)
    {
      hide Inv, KernelView, Get, Put, Lookup, Entry, Building, High, FreeSlots, Fresh, StackTable, CodeTable,
           CodeLoaded, Zeroed;
      var pt := StartSpace(pd, ram0, free0, taken, k, 6 + |pages|);
      ct := pt.phys;
      st, stack, code := FillSpace(pd, pt, pages, ram0, free0, taken + {ct}, k);
      ghost var all := taken + {ct} + {st} + Elems(stack) + Elems(code);
      ghost var ramE := vm.ram;
      FinishSpace(pd, ct, ram0, free0, all, k);
      ghost var ramF := vm.ram;
      DropTemp(pt, ram0, free0, all, k, 0, 0);
      FreshElems(stack, free0, taken + {ct} + {st});
      ZeroedKept(ramE, ramF, Elems(stack), all - {pd.phys});
      ZeroedKept(ramF, vm.ram, Elems(stack), all);
      FreshMembers(code, free0, taken + {ct} + {st} + Elems(stack));
      StackKept(ramE, vm.ram, st, stack);
      CodeKept(ramE, vm.ram, ct, code, pages);
    }

    /** The stack and the code of the new space. */
    method FillSpace(pd: TempMap, pt: TempMap, pages: seq<seq<int>>, ghost ram0: Ram, ghost free0: set<int>,
                     ghost taken: set<int>, ghost k: int)
      returns (st: int, stack: seq<int>, code: seq<int>)
      requires Work(ram0, free0, taken, k) && Room(5 + |pages|, 2) && Holds(pd) && Holds(pt)
      requires pd.phys in taken && pt.phys in taken && pd.phys != pt.phys
      requires forall i :: Get(vm.ram, pt.phys, i) == 0
      requires |pages| <= 768 && (forall i :: 0 <= i < |pages| ==> |pages[i]| <= 1024)
      modifies this`tmpmap, vm`ram, vm`free, vm`sp
      ensures vm.sp == old(vm.sp) && tmpmap == old(tmpmap) && |stack| == 4 && |code| == |pages|
      ensures st in free0 && st !in taken && Fresh(stack, free0, taken + {st})
      ensures Fresh(code, free0, taken + {st} + Elems(stack))
      ensures Work(ram0, free0, taken + {st} + Elems(stack) + Elems(code), k) && SameKernelPages(old(vm.ram))
      ensures StackTable(vm.ram, st, stack) && CodeTable(vm.ram, pt.phys, code) && CodeLoaded(vm.ram, code, pages)
      ensures Zeroed(vm.ram, Elems(stack))
      ensures forall j :: Get(vm.ram, pd.phys, j) ==
                if j == 767 then Entry(st, USER_FLAGS) else Get(old(vm.ram), pd.phys, j)
    {
      hide Inv, KernelView, Get, Put, Lookup, Entry, Building, High, FreeSlots, Fresh, StackTable, CodeTable,
           CodeLoaded, Zeroed;
      st, stack := UserStack(pd, ram0, free0, taken, k, 5 + |pages|, 2);
      ghost var ramS := vm.ram;
      code := UserCode(pt, pages, ram0, free0, taken + {st} + Elems(stack), k, |pages|, 2);
      StackKept(ramS, vm.ram, st, stack);
      FreshElems(stack, free0, taken + {st});
      ZeroedKept(ramS, vm.ram, Elems(stack), taken + {st} + Elems(stack) - {pt.phys});
    }

    /** The kernel half of the new directory, and an empty code table. */
    method StartSpace(pd: TempMap, ghost ram0: Ram, ghost free0: set<int>, ghost taken: set<int>, ghost k: int,
                      ghost n: int)
      returns (pt: TempMap)
      requires Work(ram0, free0, taken, k) && Room(n, 3) && n >= 1 && Holds(pd) && pd.phys in taken
      requires forall i :: Get(vm.ram, pd.phys, i) == 0
      modifies this`tmpmap, vm`ram, vm`free, vm`sp
      ensures vm.sp == old(vm.sp) && pt.phys in free0 && pt.phys !in taken
      ensures Work(ram0, free0, taken + {pt.phys}, k) && Room(n - 1, 2)
      ensures Holds(pd) && Holds(pt) && !old(tmpmap)[pt.slot] && tmpmap == old(tmpmap)[pt.slot := true]
      ensures forall j :: Get(vm.ram, pd.phys, j) == if KernelSlot(j) then Get(ram0, vm.cr3, j) else 0
      ensures forall j :: Get(vm.ram, pt.phys, j) == 0
      ensures forall u :: KernelPage(u) && u != pt.page ==> vm.PageMap(u) == old(vm.PageMap(u))
    {
      hide Inv, KernelView, Get, Lookup, Entry, Building, High, FreeSlots;
      assert vm.cr3 in vm.sp.roles ==> vm.sp.roles[vm.cr3] == Directory by { ViewRole(vm.ram, vm.sp, vm.cr3); }
      DirectoryKept(ram0, vm.ram, vm.sp, vm.cr3, taken, k);
      CopyKernelHalf(pd, ram0, free0, taken, k);
      pt := NewTemp(ram0, free0, taken, k, n, 3);
    }

    /** process.c:258-278: the last two directory entries; the directory's mapping ends. */
    method FinishSpace(pd: TempMap, ct: int, ghost ram0: Ram, ghost free0: set<int>, ghost taken: set<int>,
                       ghost k: int)
      requires Work(ram0, free0, taken, k) && Holds(pd) && pd.phys in taken
      modifies this`tmpmap, vm`ram
      ensures Work(ram0, free0, taken, k) && tmpmap == old(tmpmap)[pd.slot := false]
      ensures forall j :: Get(vm.ram, pd.phys, j) ==
                if j == 0 then Entry(ct, USER_FLAGS)
                else if j == RECURSIVE then Entry(pd.phys, KERNEL_PDE_FLAGS) else Get(old(vm.ram), pd.phys, j)
      ensures KeepsFrames(old(vm.ram), vm.ram, taken - {pd.phys})
      ensures forall u :: KernelPage(u) && u != pd.page ==> vm.PageMap(u) == old(vm.PageMap(u))
    {
      hide Inv, KernelView, Get, Put, Lookup, Entry, Building, High, FreeSlots;
      ghost var ramE := vm.ram;
      PutTemp(pd, 0, Entry(ct, USER_FLAGS), ram0, free0, taken, k);
      ghost var ramF := vm.ram;
      PutTemp(pd, RECURSIVE, Entry(pd.phys, KERNEL_PDE_FLAGS), ram0, free0, taken, k);
      ghost var ramG := vm.ram;
      forall e, j ensures Get(ramG, e, j) ==
        if e == pd.phys && j == 0 then Entry(ct, USER_FLAGS)
        else if e == pd.phys && j == RECURSIVE then Entry(pd.phys, KERNEL_PDE_FLAGS) else Get(ramE, e, j) {
        GetPut(ramE, pd.phys, 0, Entry(ct, USER_FLAGS), e, j);
        GetPut(ramF, pd.phys, RECURSIVE, Entry(pd.phys, KERNEL_PDE_FLAGS), e, j);
      }
      DropTemp(pd, ram0, free0, taken, k, 0, 0);
    }

    // -------------------------------------------------------------------
    // DeleteProcess
    // -------------------------------------------------------------------

    /** Since `ram0` only temporary pages have been touched, and the frames in
        `freed` have been given back; the directory in use is not among them, unless it was
        free before. */
    ghost predicate Tearing(ram0: Ram, free0: set<int>, freed: seq<int>)
      reads this, vm
    {
      && Base() && Building(ram0, vm.ram, vm.sp, {}, TEMPORARY_PAGE - 1)
      && (vm.cr3 in vm.free ==> vm.cr3 in free0)
      && vm.free == free0 + set f | f in freed && vm.Managed(f)
    }

    /** FreeFrame of something that is no paging structure any more. */
    method Release(f: int, ghost ram0: Ram, ghost free0: set<int>, ghost freed: seq<int>)
      requires Tearing(ram0, free0, freed) && f !in vm.sp.roles && (f == vm.cr3 ==> f in free0)
      modifies vm`free
      ensures Tearing(ram0, free0, freed + [f])
    {
      hide KernelTables, SpaceOk, KernelView, Building;
      vm.FreeFrame(f);
    }

    /** Map `f` at temporary page `v` (process.c:321, 327). */
    method ShowFrame(f: int, v: int, ghost ram0: Ram, ghost free0: set<int>, ghost freed: seq<int>)
      requires Tearing(ram0, free0, freed) && f >= 0
      requires TEMPORARY_PAGE - TMPMAP_MAX_PAGES < v <= TEMPORARY_PAGE && vm.PageMap(v).None?
      modifies vm`ram, vm`free, vm`sp
      ensures vm.sp == old(vm.sp) && vm.free == old(vm.free) && Tearing(ram0, free0, freed)
      ensures vm.PageMap(v) == Some(Entry(f, TEMP_FLAGS))
      ensures forall u :: KernelPage(u) && u != v ==> vm.PageMap(u) == old(vm.PageMap(u))
    {
      hide Inv, KernelView, Get, Put, Lookup, Entry, Building;
      KernelPte(vm.ram, vm.free, vm.sp, vm.cr3, v);
      ghost var was := vm.ram;
      var status := vm.MapSinglePage(f * 4096, v * 4096, TEMP_FLAGS);
      forall e, i | !(e == vm.sp.ktab[v / 1024] && i == v % 1024) ensures Get(vm.ram, e, i) == Get(was, e, i) {
        GetPut(was, vm.sp.ktab[v / 1024], v % 1024, Entry(f, TEMP_FLAGS), e, i);
      }
      BuildingPage(ram0, was, vm.ram, vm.sp, {}, TEMPORARY_PAGE - 1, v);
    }

    method HideFrame(v: int, ghost ram0: Ram, ghost free0: set<int>, ghost freed: seq<int>)
      requires Tearing(ram0, free0, freed)
      requires TEMPORARY_PAGE - TMPMAP_MAX_PAGES < v <= TEMPORARY_PAGE
      modifies vm`ram
      ensures Tearing(ram0, free0, freed) && vm.PageMap(v).None?
      ensures forall u :: KernelPage(u) && u != v ==> vm.PageMap(u) == old(vm.PageMap(u))
    {
      hide Inv, KernelView, Get, Put, Lookup, Entry, Building;
      KernelPte(vm.ram, vm.free, vm.sp, vm.cr3, v);
      ghost var was := vm.ram;
      vm.UnmapSinglePage(v * 4096);
      forall e, i | !(e == vm.sp.ktab[v / 1024] && i == v % 1024) ensures Get(vm.ram, e, i) == Get(was, e, i) {
        GetPut(was, vm.sp.ktab[v / 1024], v % 1024, 0, e, i);
      }
      BuildingPage(ram0, was, vm.ram, vm.sp, {}, TEMPORARY_PAGE - 1, v);
    }

    /** process.c:327-341: free the pages of one user table, then the table. */
    method FreeTable(t: int, v: int, ghost ram0: Ram, ghost free0: set<int>, ghost freed: seq<int>)
      returns (ghost freed': seq<int>)
      requires Tearing(ram0, free0, freed) && t !in vm.sp.roles && t >= 0 && (t == vm.cr3 ==> t in free0)
      requires TEMPORARY_PAGE - TMPMAP_MAX_PAGES < v <= TEMPORARY_PAGE && vm.PageMap(v).None?
      requires Releasable(ram0, free0, vm.sp, vm.cr3, t)
      modifies vm`ram, vm`free, vm`sp
      ensures vm.sp == old(vm.sp) && freed' == freed + PresentFrames(ram0, t, 1024) + [t]
      ensures Tearing(ram0, free0, freed')
      ensures forall u :: KernelPage(u) ==> vm.PageMap(u) == old(vm.PageMap(u))
    {
      hide Inv, KernelView, Get, Lookup, Entry, Building, Load, Mapped, PresentFrames;
      ShowFrame(t, v, ram0, free0, freed);
      freed' := freed;
      var j := 0;
      PresentFramesStart(ram0, t);
      while j < 1024
        invariant 0 <= j <= 1024 && vm.sp == old(vm.sp)
        invariant freed' == freed + PresentFrames(ram0, t, j) && Tearing(ram0, free0, freed')
        invariant vm.PageMap(v) == Some(Entry(t, TEMP_FLAGS))
        invariant forall u :: KernelPage(u) && u != v ==> vm.PageMap(u) == old(vm.PageMap(u))
      {
        PageAccess(vm.ram, vm.cr3, v, j, 0);
        FrameUntouched(ram0, vm.ram, vm.sp, t, j);
        PresentFramesStep(ram0, t, j);
        var pte := Load(vm.ram, vm.cr3, v * 4096 + 4 * j);
        if Present(pte) {
          Release(FrameOf(pte), ram0, free0, freed');
          freed' := freed' + [FrameOf(pte)];
        }
        j := j + 1;
      }
      HideFrame(v, ram0, free0, freed');
      Release(t, ram0, free0, freed');
      freed' := freed' + [t];
    }

    /** DeleteProcess, after the objects are gone.  It works on the directory of
        any live process, including the one in use: the kernel keeps running on that
        directory although its frame is free.  Every frame of the user half is
        freed, then the kernel stack frames and the directory; no translation of
        any other space changes.  In particular the kernel stack pages stay
        mapped. */
    method DeleteProcess(p: Process) returns (panic: bool, ghost freed: seq<int>)
      requires Base() && SlotsOk() && vm.sp.Live(p.cr3) && (vm.sp.Live(vm.cr3) || vm.cr3 in vm.free)
      requires Private(vm.ram, vm.sp, p)
      modifies this`tmpmap, vm`ram, vm`free, vm`sp
      ensures panic ==> |FreeSlots(old(tmpmap))| < 2
      ensures !panic ==>
                && tmpmap == old(tmpmap) && SlotsOk() && vm.cr3 == old(vm.cr3)
                && vm.sp == Unregister(old(vm.sp), p.cr3) && Inv(vm.ram, vm.free, vm.sp)
                && Base() && (vm.cr3 != p.cr3 && old(vm.cr3 !in vm.free) ==> Valid())
                && freed == SlotFrames(old(vm.ram), p.cr3, 768) + p.kstack + [p.cr3]
                && vm.free == old(vm.free) + (set f | f in freed && vm.Managed(f))
                && SameOthers(old(vm.ram), vm.ram, vm.sp)
    {
      hide Inv, KernelView, Get, Lookup, Entry, Building, Load, Mapped, SlotFrames, PresentFrames, FreeSlots, Private,
           Unregister;
      ghost var tmp0, sp0 := tmpmap, vm.sp;
      panic, freed := false, [];
      var pdSlot := FindFreeTmpMapSlot();
      if pdSlot < 0 {
        NoSlots(tmp0);
        return true, freed;
      }
      tmpmap := tmpmap[pdSlot := true];
      var ptSlot := FindFreeTmpMapSlot();
      if ptSlot < 0 {
        NoSlots(tmpmap);
        LessSlots(tmp0, pdSlot);
        return true, freed;
      }
      freed := TearDown(p, TempPage(pdSlot), TempPage(ptSlot));
      tmpmap := tmpmap[pdSlot := false];
      tmpmap := tmpmap[ptSlot := false];
      assert tmpmap == tmp0;
      ghost var free1 := vm.free;
      vm.FreeFrame(p.cr3);
      UnregisterLess(sp0, p.cr3);
      MoreFree(vm.ram, free1, vm.free, vm.sp, p.cr3);
      freed := freed + [p.cr3];
    }

    /** DeleteProcess from the first temporary mapping to the kernel stack. */
    method TearDown(p: Process, pdPage: int, ptPage: int) returns (ghost freed: seq<int>)
      requires Base() && vm.sp.Live(p.cr3) && (vm.sp.Live(vm.cr3) || vm.cr3 in vm.free) && Private(vm.ram, vm.sp, p)
      requires TEMPORARY_PAGE - TMPMAP_MAX_PAGES < pdPage <= TEMPORARY_PAGE && vm.PageMap(pdPage).None?
      requires TEMPORARY_PAGE - TMPMAP_MAX_PAGES < ptPage <= TEMPORARY_PAGE && vm.PageMap(ptPage).None?
      requires pdPage != ptPage
      modifies vm`ram, vm`free, vm`sp
      ensures Base() && vm.sp == Unregister(old(vm.sp), p.cr3) && p.cr3 > 0 && |p.kstack| == 2
      ensures vm.cr3 in vm.free ==> vm.cr3 in old(vm.free)
      ensures freed == SlotFrames(old(vm.ram), p.cr3, 768) + p.kstack
      ensures vm.free == old(vm.free) + (set f | f in freed && vm.Managed(f))
      ensures SameOthers(old(vm.ram), vm.ram, vm.sp)
      ensures forall u :: KernelPage(u) ==> vm.PageMap(u) == old(vm.PageMap(u))
    {
      hide Inv, KernelView, Get, Lookup, Entry, Building, SlotFrames, Private, Unregister;
      ghost var ram0, free0, sp0 := vm.ram, vm.free, vm.sp;
      freed := [];
      Unregistered(vm.ram, vm.free, vm.sp, p.cr3, vm.cr3);
      PrivateStack(ram0, sp0, p);
      UnregisterLess(sp0, p.cr3);
      vm.sp := Unregister(vm.sp, p.cr3);
      BuildingRefl(ram0, vm.sp, TEMPORARY_PAGE - 1);
      ShowFrame(p.cr3, pdPage, ram0, free0, freed);
      freed := FreeUserHalf(p, pdPage, ptPage, ram0, free0, sp0);
      HideFrame(pdPage, ram0, free0, freed);
      SpacesUntouched(ram0, vm.ram, free0, vm.free, vm.sp, vm.cr3);
      var k0, k1 := p.kstack[0], p.kstack[1];
      ReleaseStack(k0, k1, ram0, free0, freed);
      assert p.kstack == [k0, k1];
      freed := freed + p.kstack;
    }

    /** The two kernel stack frames (process.c:349). */
    method ReleaseStack(k0: int, k1: int, ghost ram0: Ram, ghost free0: set<int>, ghost freed: seq<int>)
      requires Tearing(ram0, free0, freed)
      requires k0 !in vm.sp.roles && k1 !in vm.sp.roles && (vm.cr3 in {k0, k1} ==> vm.cr3 in free0)
      modifies vm`free
      ensures Tearing(ram0, free0, freed + [k0, k1])
    {
      hide Tearing;
      Release(k0, ram0, free0, freed);
      Release(k1, ram0, free0, freed + [k0]);
      assert freed + [k0] + [k1] == freed + [k0, k1];
    }

    /** The loop of DeleteProcess over the user half (process.c:325-343). */
    method FreeUserHalf(p: Process, pdPage: int, ptPage: int, ghost ram0: Ram, ghost free0: set<int>, ghost sp0: Spaces)
      returns (ghost freed: seq<int>)
      requires Tearing(ram0, free0, []) && vm.sp == Unregister(sp0, p.cr3) && Inv(ram0, free0, sp0)
      requires sp0.Live(p.cr3) && (sp0.Live(vm.cr3) || vm.cr3 in free0) && Private(ram0, sp0, p)
      requires TEMPORARY_PAGE - TMPMAP_MAX_PAGES < pdPage <= TEMPORARY_PAGE && pdPage != ptPage
      requires TEMPORARY_PAGE - TMPMAP_MAX_PAGES < ptPage <= TEMPORARY_PAGE && vm.PageMap(ptPage).None?
      requires vm.PageMap(pdPage) == Some(Entry(p.cr3, TEMP_FLAGS))
      modifies vm`ram, vm`free, vm`sp
      ensures vm.sp == old(vm.sp) && freed == SlotFrames(ram0, p.cr3, 768) && Tearing(ram0, free0, freed)
      ensures forall u :: KernelPage(u) ==> vm.PageMap(u) == old(vm.PageMap(u))
    {
      hide Inv, KernelView, Get, Lookup, Entry, Building, Load, Mapped, SlotFrames, PresentFrames, Private, Unregister;
      freed := [];
      var i := 0;
      SlotFramesStart(ram0, p.cr3);
      while i < KERNEL_PD_INDEX
        invariant 0 <= i <= KERNEL_PD_INDEX && vm.sp == old(vm.sp)
        invariant freed == SlotFrames(ram0, p.cr3, i) && Tearing(ram0, free0, freed)
        invariant forall u :: KernelPage(u) ==> vm.PageMap(u) == old(vm.PageMap(u))
      {
        PageAccess(vm.ram, vm.cr3, pdPage, i, 0);
        UnregisterLess(sp0, p.cr3);
        FrameUntouched(ram0, vm.ram, vm.sp, p.cr3, i);
        SlotFramesStep(ram0, p.cr3, i);
        var pde := Load(vm.ram, vm.cr3, pdPage * 4096 + 4 * i);
        if Present(pde) {
          PrivateTable(ram0, free0, sp0, p, i, vm.cr3);
          freed := FreeTable(FrameOf(pde), ptPage, ram0, free0, freed);
        }
        i := i + 1;
      }
    }

    /** SwapProcess: load another live directory into cr3. */
    method SwapProcess(d: int)
      requires Inv(vm.ram, vm.free, vm.sp) && vm.sp.Live(d) && |tmpmap| == TMPMAP_MAX_PAGES
      requires forall f :: f in vm.free ==> vm.Managed(f)
      modifies vm`cr3
      ensures Valid() && vm.cr3 == d
    {
      hide SpaceOk;
      LiveView(vm.ram, vm.free, vm.sp, d);
      vm.cr3 := d;
    }

    /** A process created and deleted again, its user half unchanged: every frame
        it obtained is freed exactly once, the free frames and the slot bitmap are
        what they were, and every other space sees what it saw before.  The one
        thing left behind is the mapping of the two kernel stack pages, which now
        name free frames. */
    method CreateThenDelete(pages: seq<seq<int>>) returns (r: Outcome, ghost freed: seq<int>)
      requires Valid() && SlotsOk() && vm.sp.Live(vm.cr3)
      requires |pages| <= 768 && (forall i :: 0 <= i < |pages| ==> |pages[i]| <= 1024)
      requires Unchecked(|pages|)
      modifies this`tmpmap, vm`ram, vm`free, vm`sp
      ensures r.Done? ==>
                && Valid() && SlotsOk() && tmpmap == old(tmpmap) && vm.free == old(vm.free)
                && (forall e :: vm.sp.Live(e) <==> old(vm.sp.Live(e))) && vm.sp.ktab == old(vm.sp.ktab)
                && NoDuplicates(freed) && |freed| == 9 + |pages|
                && SamePagesButStack(old(vm.ram), vm.ram, vm.sp, r.p)
                && r.p.kstack[0] in vm.free && r.p.kstack[1] in vm.free
    {
      hide Inv, KernelView, Get, Lookup, Entry, SlotFrames, Private, Unregister, Building, High, FreeSlots;
      ghost var sf;
      ghost var ram0, free0, sp0 := vm.ram, vm.free, vm.sp;
      FreeNoRole(ram0, free0, sp0);
      r, sf := CreateProcess(pages);
      freed := [];
      if !r.Done? { return; }
      var p := r.p;
      ghost var ram1, sp1 := vm.ram, vm.sp;
      BuiltPrivate(ram0, ram1, free0, sp0, sp1, p, sf, vm.cr3);
      BuiltFreed(ram1, sp1, p, sf);
      var panic;
      panic, freed := DeleteProcess(p);
      if panic { assert false; }
      InOrderLength(sf, p.cr3);
      GivenBack(free0, sf.All(p.cr3), vm.highest);
      assert (set f | f in freed && vm.Managed(f)) == (set f | f in sf.All(p.cr3) && f >= 2 && f * 4096 <= vm.highest);
      FramesOfSpace(sf, free0, p.cr3);
      OwnFrames(sf, free0, p.cr3);
      assert p.kstack[0] in sf.kstack && p.kstack[1] in sf.kstack;
      RoundTripSpaces(sp0, sf, p.cr3);
    }
  }

  lemma FewerFree(ram: Ram, free: set<int>, less: set<int>, sp: Spaces)
    requires Inv(ram, free, sp) && less <= free
    ensures Inv(ram, less, sp)
  {
    hide KernelTables, SpaceOk;
  }

  /** Where the entry of a kernel page is. */
  lemma KernelPte(ram: Ram, free: set<int>, sp: Spaces, d: int, v: int)
    requires Inv(ram, free, sp) && KernelView(ram, sp, d) && KernelPage(v)
    ensures v / 1024 in sp.ktab && TableOf(ram, d, v) == sp.ktab[v / 1024]
    ensures Present(Get(ram, d, v / 1024))
    ensures sp.ktab[v / 1024] in sp.roles && sp.roles[sp.ktab[v / 1024]] == KernelTable(v / 1024)
  {
    hide Inv, KernelView;
    SharedEntry(ram, free, sp, d, v / 1024);
  }

  /** Mapping a free frame at kernel page `v` and zeroing it through the mapping. */
  lemma TempCreated(ram0: Ram, ram1: Ram, ram2: Ram, free: set<int>, sp: Spaces, d: int, f: int, v: int)
    requires Inv(ram1, free, sp) && KernelView(ram1, sp, d) && KernelPage(v) && f !in sp.roles && f != d
    requires v / 1024 in sp.ktab && ram1 == Put(ram0, sp.ktab[v / 1024], v % 1024, Entry(f, TEMP_FLAGS))
    requires OnlyPage(ram0, ram1, sp, d, v, Some(Entry(f, TEMP_FLAGS)))
    requires ram2 == ZeroFrame(ram1, f)
    ensures Inv(ram2, free, sp) && KernelView(ram2, sp, d)
    ensures Lookup(ram2, d, v) == Some(Entry(f, TEMP_FLAGS)) && (forall i :: Get(ram2, f, i) == 0)
    ensures OnlyFrameAndPage(ram0, ram2, sp, f, v) && SamePagesBut(ram0, ram2, sp, d, v)
  {
    hide Inv, KernelView, Get, Put, Lookup, Entry, ZeroFrame;
    DataWrite(ram1, ram2, free, sp, d, f);
    forall e, i | e != f && !(e == sp.ktab[v / 1024] && i == v % 1024)
      ensures Get(ram2, e, i) == Get(ram0, e, i)
    {
      GetPut(ram0, sp.ktab[v / 1024], v % 1024, Entry(f, TEMP_FLAGS), e, i);
    }
  }

  // ---------------------------------------------------------------------
  // What construction may touch
  // ---------------------------------------------------------------------

  /** Pages the construction of a process uses: the temporary window and the two
      kernel stack pages at `k`. */
  predicate Scratch(v: int, k: int)
  {
    TEMPORARY_PAGE - TMPMAP_MAX_PAGES < v <= TEMPORARY_PAGE || k <= v < k + KERNEL_STACK_SIZE_PAGES
  }

  /** Word `i` of frame `e` is the kernel-table entry of a scratch page. */
  ghost predicate ScratchEntry(sp: Spaces, e: int, i: int, k: int)
  {
    e in sp.roles && sp.roles[e].KernelTable? && 0 <= i < 1024 && Scratch(sp.roles[e].index * 1024 + i, k)
  }

  ghost predicate Building(ram0: Ram, ram: Ram, sp: Spaces, taken: set<int>, k: int)
  {
    forall e, i :: e !in taken && !ScratchEntry(sp, e, i, k) ==> Get(ram, e, i) == Get(ram0, e, i)
  }

  ghost predicate KeepsFrames(ram: Ram, ram': Ram, frames: set<int>)
  {
    forall e, i :: e in frames ==> Get(ram', e, i) == Get(ram, e, i)
  }

  ghost predicate Zeroed(ram: Ram, frames: set<int>)
  {
    forall e, i :: e in frames ==> Get(ram, e, i) == 0
  }

  lemma ZeroedNone(ram: Ram)
    ensures Zeroed(ram, Elems([]))
  {}

  lemma ZeroedKept(ram: Ram, ram': Ram, frames: set<int>, kept: set<int>)
    requires Zeroed(ram, frames) && KeepsFrames(ram, ram', kept) && frames <= kept
    ensures Zeroed(ram', frames)
  {
    hide Get;
  }

  /** Another zeroed page of the stack. */
  lemma ZeroedGrows(ram: Ram, ram': Ram, stack: seq<int>, f: int, free: set<int>, taken: set<int>, st: int)
    requires Zeroed(ram, Elems(stack)) && KeepsFrames(ram, ram', taken + Elems(stack) - {st}) && st in taken
    requires Fresh(stack, free, taken) && forall j :: Get(ram', f, j) == 0
    ensures Zeroed(ram', Elems(stack + [f]))
  {
    hide Get;
    FreshElems(stack, free, taken);
    ElemsAppend(stack, f);
    assert Elems(stack) <= taken + Elems(stack) - {st};
    ZeroedKept(ram, ram', Elems(stack), taken + Elems(stack) - {st});
  }

  function High(free: set<int>): set<int> { set f | f in free && f >= 256 }

  function FreeSlots(tmp: seq<bool>): set<int> { set k | 0 <= k < |tmp| && !tmp[k] }

  lemma NoHigh(free: set<int>)
    requires NoHighFrame(free)
    ensures |High(free)| == 0
  {
    assert High(free) == {};
  }

  lemma NoRoom(free: set<int>, tmp: seq<bool>)
    requires NoHighFrame(free) || (forall k :: 0 <= k < |tmp| ==> tmp[k])
    ensures |High(free)| == 0 || |FreeSlots(tmp)| == 0
  {
    if NoHighFrame(free) { NoHigh(free); } else { assert FreeSlots(tmp) == {}; }
  }

  lemma LessRoom(free: set<int>, f: int, tmp: seq<bool>, slot: int)
    requires f in free && f >= 256 && 0 <= slot < |tmp| && !tmp[slot]
    ensures |High(free - {f})| == |High(free)| - 1
    ensures |FreeSlots(tmp[slot := true])| == |FreeSlots(tmp)| - 1
  {
    assert High(free - {f}) == High(free) - {f};
    assert FreeSlots(tmp[slot := true]) == FreeSlots(tmp) - {slot};
  }

  lemma MoreRoom(tmp: seq<bool>, slot: int)
    requires 0 <= slot < |tmp| && tmp[slot]
    ensures |FreeSlots(tmp[slot := false])| == |FreeSlots(tmp)| + 1
  {
    assert FreeSlots(tmp[slot := false]) == FreeSlots(tmp) + {slot};
  }

  /** Page `v` has its entry in the kernel table of its slot. */
  ghost predicate KernelEntry(sp: Spaces, v: int)
  {
    v / 1024 in sp.ktab && sp.ktab[v / 1024] in sp.roles && sp.roles[sp.ktab[v / 1024]] == KernelTable(v / 1024)
  }

  /** The entry of a temporary page is a scratch entry. */
  lemma TempIsScratch(sp: Spaces, v: int, k: int)
    requires KernelEntry(sp, v) && Scratch(v, k)
    ensures ScratchEntry(sp, sp.ktab[v / 1024], v % 1024, k)
  {}

  lemma BuildingStep(ram0: Ram, ram: Ram, ram': Ram, sp: Spaces, taken: set<int>, k: int, f: int, v: int)
    requires Building(ram0, ram, sp, taken, k) && Scratch(v, k) && KernelEntry(sp, v)
    requires OnlyFrameAndPage(ram, ram', sp, f, v)
    ensures Building(ram0, ram', sp, taken + {f}, k)
  {
    hide Get;
    TempIsScratch(sp, v, k);
  }

  lemma BuildingPage(ram0: Ram, ram: Ram, ram': Ram, sp: Spaces, taken: set<int>, k: int, v: int)
    requires Building(ram0, ram, sp, taken, k) && Scratch(v, k) && KernelEntry(sp, v)
    requires forall e, i :: !(e == sp.ktab[v / 1024] && i == v % 1024) ==> Get(ram', e, i) == Get(ram, e, i)
    ensures Building(ram0, ram', sp, taken, k)
  {
    hide Get;
    TempIsScratch(sp, v, k);
  }

  lemma BuildingPut(ram0: Ram, ram: Ram, sp: Spaces, taken: set<int>, k: int, f: int, i: int, w: int)
    requires Building(ram0, ram, sp, taken, k) && f in taken
    ensures Building(ram0, Put(ram, f, i, w), sp, taken, k)
  {
    hide Get, Put;
    forall e, j | e !in taken && !ScratchEntry(sp, e, j, k) ensures Get(Put(ram, f, i, w), e, j) == Get(ram0, e, j) {
      GetPut(ram, f, i, w, e, j);
    }
  }

  // ---------------------------------------------------------------------
  // What a new address space contains
  // ---------------------------------------------------------------------

  ghost function Elems(xs: seq<int>): set<int> { set x | x in xs }

  lemma ElemsAppend(xs: seq<int>, x: int)
    ensures Elems(xs + [x]) == Elems(xs) + {x}
  {}

  /** Distinct frames of `free`, none of them in `taken`. */
  ghost predicate Fresh(xs: seq<int>, free: set<int>, taken: set<int>)
  {
    && (forall i :: 0 <= i < |xs| ==> xs[i] in free && xs[i] !in taken)
    && (forall i, j :: 0 <= i < j < |xs| ==> xs[i] != xs[j])
  }

  /** The stack table: page `i` counted down from the top of the stack. */
  ghost predicate StackTable(ram: Ram, st: int, stack: seq<int>)
  {
    forall j :: Get(ram, st, j) == if 1008 - |stack| < j <= 1008 then Entry(stack[1008 - j], USER_FLAGS) else 0
  }

  ghost predicate CodeTable(ram: Ram, pt: int, code: seq<int>)
  {
    forall j :: Get(ram, pt, j) == if 256 <= j < 256 + |code| then Entry(code[j - 256], USER_FLAGS) else 0
  }

  /** Each code frame holds its page of the executable, padded with zeros. */
  ghost predicate CodeLoaded(ram: Ram, code: seq<int>, pages: seq<seq<int>>)
    requires |code| <= |pages|
  {
    forall i, j :: 0 <= i < |code| ==>
      Get(ram, code[i], j) == if 0 <= j < |pages[i]| then pages[i][j] else 0
  }

  lemma StackGrows(ram: Ram, ram': Ram, st: int, stack: seq<int>, f: int)
    requires StackTable(ram, st, stack)
    requires forall j :: Get(ram', st, j) == if j == 1008 - |stack| then Entry(f, USER_FLAGS) else Get(ram, st, j)
    ensures StackTable(ram', st, stack + [f])
  {
    hide Get, Entry;
  }

  lemma CodeGrows(ram: Ram, ram': Ram, pt: int, code: seq<int>, pages: seq<seq<int>>, f: int, taken: set<int>)
    requires |code| < |pages| && CodeTable(ram, pt, code) && CodeLoaded(ram, code, pages)
    requires forall j :: Get(ram', pt, j) == if j == 256 + |code| then Entry(f, USER_FLAGS) else Get(ram, pt, j)
    requires forall j :: Get(ram', f, j) == if 0 <= j < |pages[|code|]| then pages[|code|][j] else 0
    requires KeepsFrames(ram, ram', taken - {pt})
    requires forall i :: 0 <= i < |code| ==> code[i] in taken && code[i] != pt
    ensures CodeTable(ram', pt, code + [f]) && CodeLoaded(ram', code + [f], pages)
  {
    hide Get, Entry;
    var code' := code + [f];
    forall i, j | 0 <= i < |code'|
      ensures Get(ram', code'[i], j) == if 0 <= j < |pages[i]| then pages[i][j] else 0
    {
      if i < |code| { assert Get(ram', code[i], j) == Get(ram, code[i], j); }
    }
  }

  lemma HighLess(free: set<int>, f: int)
    requires f in free && f >= 256
    ensures |High(free - {f})| == |High(free)| - 1
  {
    assert High(free - {f}) == High(free) - {f};
  }

  lemma BuildingMore(ram0: Ram, ram: Ram, sp: Spaces, taken: set<int>, f: int, k: int)
    requires Building(ram0, ram, sp, taken, k)
    ensures Building(ram0, ram, sp, taken + {f}, k)
  {}

  ghost function Reversed(xs: seq<int>): seq<int>
  {
    if xs == [] then [] else Reversed(xs[1..]) + [xs[0]]
  }

  ghost predicate NoDuplicates(xs: seq<int>)
  {
    forall i, j :: 0 <= i < j < |xs| ==> xs[i] != xs[j]
  }

  /** What CreateProcess writes at index `j` of the new directory `d`. */
  ghost function NewEntry(ram: Ram, cr3: int, d: int, ct: int, st: int, j: int): int
  {
    if j == 0 then Entry(ct, USER_FLAGS)
    else if j == 767 then Entry(st, USER_FLAGS)
    else if KernelSlot(j) then Get(ram, cr3, j)
    else if j == RECURSIVE then Entry(d, KERNEL_PDE_FLAGS)
    else 0
  }

  /** Every live space sees the two stack pages and is otherwise as before. */
  ghost predicate SamePagesButStack(ram: Ram, ram': Ram, sp: Spaces, p: Process)
  {
    |p.kstack| == 2 &&
    forall e, u :: sp.Live(e) && Ordinary(u) ==>
      Lookup(ram', e, u) ==
        if p.kpage <= u < p.kpage + 2 then Some(Entry(p.kstack[u - p.kpage], STACK_FLAGS)) else Lookup(ram, e, u)
  }

  lemma BuildingRefl(ram: Ram, sp: Spaces, k: int)
    ensures Building(ram, ram, sp, {}, k)
  {}

  lemma DirectoryKept(ram0: Ram, ram: Ram, sp: Spaces, d: int, taken: set<int>, k: int)
    requires Building(ram0, ram, sp, taken, k) && d !in taken && (d in sp.roles ==> sp.roles[d] == Directory)
    ensures forall j :: Get(ram, d, j) == Get(ram0, d, j)
  {
    hide Get;
  }

  lemma ViewRole(ram: Ram, sp: Spaces, d: int)
    requires KernelView(ram, sp, d)
    ensures d in sp.roles ==> sp.roles[d] == Directory
  {}

  lemma StackKept(ram: Ram, ram': Ram, st: int, stack: seq<int>)
    requires StackTable(ram, st, stack) && forall j :: Get(ram', st, j) == Get(ram, st, j)
    ensures StackTable(ram', st, stack)
  {
    hide Get, Entry;
  }

  lemma CodeKept(ram: Ram, ram': Ram, ct: int, code: seq<int>, pages: seq<seq<int>>)
    requires |code| <= |pages| && CodeTable(ram, ct, code) && CodeLoaded(ram, code, pages)
    requires forall j :: Get(ram', ct, j) == Get(ram, ct, j)
    requires forall i, j :: 0 <= i < |code| ==> Get(ram', code[i], j) == Get(ram, code[i], j)
    ensures CodeTable(ram', ct, code) && CodeLoaded(ram', code, pages)
  {
    hide Get, Entry;
  }

  lemma {:induction false} ReversedElems(xs: seq<int>)
    ensures Elems(Reversed(xs)) == Elems(xs) && |Reversed(xs)| == |xs|
  {
    if xs != [] {
      ReversedElems(xs[1..]);
      ElemsConcat(Reversed(xs[1..]), [xs[0]]);
      ElemsConcat([xs[0]], xs[1..]);
      assert xs == [xs[0]] + xs[1..];
    }
  }

  lemma {:induction false} ReversedDistinct(xs: seq<int>)
    requires NoDuplicates(xs)
    ensures NoDuplicates(Reversed(xs))
  {
    if xs != [] {
      ReversedDistinct(xs[1..]);
      ReversedElems(xs[1..]);
      assert xs[0] !in Elems(xs[1..]);
      NoDuplicatesConcat(Reversed(xs[1..]), [xs[0]]);
    }
  }

  lemma NoDuplicatesConcat(xs: seq<int>, ys: seq<int>)
    requires NoDuplicates(xs) && NoDuplicates(ys) && Elems(xs) !! Elems(ys)
    ensures NoDuplicates(xs + ys) && Elems(xs + ys) == Elems(xs) + Elems(ys)
  {
    var zs := xs + ys;
    forall i, j | 0 <= i < j < |zs| ensures zs[i] != zs[j] {
      if i < |xs| && j >= |xs| { assert zs[i] in Elems(xs) && zs[j] in Elems(ys); }
    }
  }

  lemma ElemsConcat(xs: seq<int>, ys: seq<int>)
    ensures Elems(xs + ys) == Elems(xs) + Elems(ys)
  {}

  lemma AllFrames(sf: SpaceFrames, d: int, f0: int, f1: int)
    requires sf.kstack == [f0, f1]
    ensures sf.All(d) == {} + {f0} + {f1} + {d} + {sf.ct} + {sf.st} + Elems(sf.stack) + Elems(sf.code)
  {
    ElemsSmall(f0, f1);
    ElemsSmall(sf.ct, sf.st);
    ElemsSmall(d, d);
    hide Elems, Reversed;
    ReversedElems(sf.stack);
    ElemsConcat(sf.code, [sf.ct]);
    ElemsConcat(sf.code + [sf.ct], Reversed(sf.stack));
    ElemsConcat(sf.code + [sf.ct] + Reversed(sf.stack), [sf.st]);
    ElemsConcat(sf.code + [sf.ct] + Reversed(sf.stack) + [sf.st], sf.kstack);
    ElemsConcat(sf.code + [sf.ct] + Reversed(sf.stack) + [sf.st] + sf.kstack, [d]);
  }

  lemma ElemsSmall(x: int, y: int)
    ensures Elems([x]) == {x} && Elems([y]) == {y} && Elems([x, y]) == {x, y}
    ensures NoDuplicates([x]) && NoDuplicates([y]) && (x != y ==> NoDuplicates([x, y]))
  {}

  lemma FreshElems(xs: seq<int>, free: set<int>, taken: set<int>)
    requires Fresh(xs, free, taken)
    ensures NoDuplicates(xs) && Elems(xs) <= free && Elems(xs) !! taken
  {}

  /** The frames are pairwise different because each came off the free list. */
  lemma DistinctFrames(sf: SpaceFrames, free: set<int>, d: int, f0: int, f1: int)
    requires sf.kstack == [f0, f1] && |sf.stack| == 4
    requires f0 in free && f1 in free && f1 != f0 && d in free && d !in {} + {f0} + {f1}
    requires sf.ct in free && sf.ct !in {} + {f0} + {f1} + {d}
    requires sf.st in free && sf.st !in {} + {f0} + {f1} + {d} + {sf.ct}
    requires Fresh(sf.stack, free, {} + {f0} + {f1} + {d} + {sf.ct} + {sf.st})
    requires Fresh(sf.code, free, {} + {f0} + {f1} + {d} + {sf.ct} + {sf.st} + Elems(sf.stack))
    ensures sf.Distinct(free, d)
  {
    ElemsSmall(f0, f1);
    ElemsSmall(sf.ct, sf.st);
    ElemsSmall(d, d);
    FreshElems(sf.stack, free, {} + {f0} + {f1} + {d} + {sf.ct} + {sf.st});
    FreshElems(sf.code, free, {} + {f0} + {f1} + {d} + {sf.ct} + {sf.st} + Elems(sf.stack));
    hide Elems, Reversed, NoDuplicates, Fresh;
    ReversedElems(sf.stack);
    ReversedDistinct(sf.stack);
    var a := sf.code + [sf.ct];
    NoDuplicatesConcat(sf.code, [sf.ct]);
    NoDuplicatesConcat(a, Reversed(sf.stack));
    var b := a + Reversed(sf.stack);
    NoDuplicatesConcat(b, [sf.st]);
    NoDuplicatesConcat(b + [sf.st], sf.kstack);
    NoDuplicatesConcat(b + [sf.st] + sf.kstack, [d]);
  }

  /** A page that is not scratch translates as before in every live space. */
  lemma BuildingLookup(ram0: Ram, ram: Ram, free0: set<int>, sp: Spaces, taken: set<int>, k: int, e: int, u: int)
    requires Inv(ram0, free0, sp) && Building(ram0, ram, sp, taken, k) && taken <= free0
    requires sp.Live(e) && Ordinary(u) && !Scratch(u, k)
    ensures Lookup(ram, e, u) == Lookup(ram0, e, u)
  {
    hide Get;
    assert e !in taken && !ScratchEntry(sp, e, u / 1024, k);
    if Present(Get(ram0, e, u / 1024)) { SlotTable(ram0, free0, sp, e, u / 1024); }
  }

  lemma PagesKept(ram0: Ram, ram: Ram, free0: set<int>, free: set<int>, sp: Spaces, d: int, taken: set<int>, p: Process)
    requires Inv(ram0, free0, sp) && Inv(ram, free, sp) && KernelView(ram0, sp, d) && KernelView(ram, sp, d)
    requires taken <= free0 && Building(ram0, ram, sp, taken, p.kpage) && |p.kstack| == 2
    requires KERNEL_STACK_FIRST <= p.kpage && p.kpage + 2 <= KERNEL_STACK_LAST
    requires forall u :: KernelPage(u) ==>
               Lookup(ram, d, u) ==
                 if p.kpage <= u < p.kpage + 2 then Some(Entry(p.kstack[u - p.kpage], STACK_FLAGS))
                   else Lookup(ram0, d, u)
    ensures SamePagesButStack(ram0, ram, sp, p)
  {
    hide Inv, KernelView, Lookup, Entry, Building;
    forall e, u | sp.Live(e) && Ordinary(u)
      ensures Lookup(ram, e, u) ==
                if p.kpage <= u < p.kpage + 2 then Some(Entry(p.kstack[u - p.kpage], STACK_FLAGS))
                  else Lookup(ram0, e, u)
    {
      if KernelPage(u) {
        LiveView(ram0, free0, sp, e);
        LiveView(ram, free, sp, e);
        KernelPagesShared(ram0, free0, sp, d, e, u);
        KernelPagesShared(ram, free, sp, d, e, u);
      } else {
        BuildingLookup(ram0, ram, free0, sp, taken, p.kpage, e, u);
      }
    }
  }

  /** With the new space registered the system is well formed again. */
  lemma Registered(ram0: Ram, ram: Ram, free0: set<int>, free: set<int>, sp: Spaces, cr3: int, sf: SpaceFrames, d: int,
                   k: int)
    requires Inv(ram0, free0, sp) && Inv(ram, free, sp) && KernelView(ram0, sp, cr3) && KernelView(ram, sp, cr3)
    requires sf.Distinct(free0, d) && free == free0 - sf.All(d) && cr3 !in free0 && sp.Live(cr3)
    requires forall j :: Get(ram, d, j) == NewEntry(ram0, cr3, d, sf.ct, sf.st, j)
    requires CodeTable(ram, sf.ct, sf.code) && StackTable(ram, sf.st, sf.stack)
    ensures var sp' := sf.Register(sp, d);
            Inv(ram, free, sp') && KernelView(ram, sp', cr3) && sf.Built(ram, sp', d)
  {
    hide Get, Building, CodeTable, StackTable;
    var sp' := sf.Register(sp, d);
    FramesOfSpace(sf, free0, d);
    assert KernelTables(sp');
    forall e | sp'.Live(e) ensures SpaceOk(ram, sp', e) {
      if e != d { assert SpaceOk(ram, sp, e); } else { NewSpaceOk(ram0, ram, free0, sp, cr3, sf, d); }
    }
  }

  lemma FramesOfSpace(sf: SpaceFrames, free: set<int>, d: int)
    requires sf.Distinct(free, d)
    ensures d in sf.All(d) && sf.ct in sf.All(d) && sf.st in sf.All(d)
    ensures d != sf.ct && d != sf.st && sf.ct != sf.st
  {
    var xs := sf.InOrder(d);
    var n := |sf.code|;
    ReversedElems(sf.stack);
    assert xs[n] == sf.ct && xs[n + 5] == sf.st && xs[|xs| - 1] == d;
  }

  lemma NewSpaceOk(ram0: Ram, ram: Ram, free0: set<int>, sp: Spaces, cr3: int, sf: SpaceFrames, d: int)
    requires Inv(ram0, free0, sp) && KernelView(ram0, sp, cr3)
    requires d != sf.ct && d != sf.st && sf.ct != sf.st
    requires forall j :: Get(ram, d, j) == NewEntry(ram0, cr3, d, sf.ct, sf.st, j)
    ensures SpaceOk(ram, sf.Register(sp, d), d)
  {
    hide Get, Inv;
  }

  lemma FreshMembers(xs: seq<int>, free: set<int>, taken: set<int>)
    requires Fresh(xs, free, taken)
    ensures forall i :: 0 <= i < |xs| ==> xs[i] in Elems(xs) && xs[i] !in taken
  {}

  // ---------------------------------------------------------------------
  // What DeleteProcess gives back
  // ---------------------------------------------------------------------

  /** The frames of the present entries among the first `n` of table `t`. */
  ghost function PresentFrames(ram: Ram, t: int, n: nat): seq<int>
  {
    if n == 0 then []
    else PresentFrames(ram, t, n - 1) +
         (if Present(Get(ram, t, n - 1)) then [FrameOf(Get(ram, t, n - 1))] else [])
  }

  /** The frames behind the first `n` directory slots of `d`: the pages of each
      table, then the table. */
  ghost function SlotFrames(ram: Ram, d: int, n: nat): seq<int>
  {
    if n == 0 then []
    else SlotFrames(ram, d, n - 1) +
         (if Present(Get(ram, d, n - 1))
          then var t := FrameOf(Get(ram, d, n - 1)); PresentFrames(ram, t, 1024) + [t]
          else [])
  }

  lemma PresentFramesStart(ram: Ram, t: int)
    ensures PresentFrames(ram, t, 0) == []
  {}

  lemma PresentFramesStep(ram: Ram, t: int, n: nat)
    ensures PresentFrames(ram, t, n + 1) == PresentFrames(ram, t, n) +
              if Present(Get(ram, t, n)) then [FrameOf(Get(ram, t, n))] else []
  {}

  /** No page of table `t` maps a paging structure. */
  ghost predicate Releasable(ram: Ram, free: set<int>, sp: Spaces, cr3: int, t: int)
  {
    forall j :: 0 <= j < 1024 && Present(Get(ram, t, j)) ==>
      FrameOf(Get(ram, t, j)) !in sp.roles && (FrameOf(Get(ram, t, j)) == cr3 ==> cr3 in free)
  }

  lemma FrameUntouched(ram0: Ram, ram: Ram, sp: Spaces, t: int, j: int)
    requires Building(ram0, ram, sp, {}, TEMPORARY_PAGE - 1) && t !in sp.roles
    ensures Get(ram, t, j) == Get(ram0, t, j)
  {}

  lemma SlotFramesStart(ram: Ram, d: int)
    ensures SlotFrames(ram, d, 0) == []
  {}

  lemma SlotFramesStep(ram: Ram, d: int, n: nat)
    ensures SlotFrames(ram, d, n + 1) ==
              if Present(Get(ram, d, n))
              then SlotFrames(ram, d, n) + PresentFrames(ram, FrameOf(Get(ram, d, n)), 1024) + [FrameOf(Get(ram, d, n))]
              else SlotFrames(ram, d, n)
  {}

  /** The paging structures without the space `d`. */
  ghost function Unregister(sp: Spaces, d: int): Spaces
  {
    sp.(roles := map f | f in sp.roles && f != d && !(sp.roles[f].UserTable? && sp.roles[f].dir == d) :: sp.roles[f])
  }

  /** The process maps no paging structure in its user half or as its stack. */
  ghost predicate Private(ram: Ram, sp: Spaces, p: Process)
  {
    && |p.kstack| == 2 && p.kstack[0] !in sp.roles && p.kstack[1] !in sp.roles
    && forall i :: UserSlot(i) && Present(Get(ram, p.cr3, i)) ==>
         MapsNoStructure(ram, sp, FrameOf(Get(ram, p.cr3, i)))
  }

  ghost predicate MapsNoStructure(ram: Ram, sp: Spaces, t: int)
  {
    forall j :: 0 <= j < 1024 && Present(Get(ram, t, j)) ==> FrameOf(Get(ram, t, j)) !in sp.roles
  }

  /** Every remaining space translates every page as before. */
  ghost predicate SameOthers(ram: Ram, ram': Ram, sp: Spaces)
  {
    forall e, u :: sp.Live(e) && Ordinary(u) ==> Lookup(ram', e, u) == Lookup(ram, e, u)
  }

  lemma NoSlots(tmp: seq<bool>)
    requires forall k :: 0 <= k < |tmp| ==> tmp[k]
    ensures |FreeSlots(tmp)| == 0
  {
    assert FreeSlots(tmp) == {};
  }

  lemma LessSlots(tmp: seq<bool>, slot: int)
    requires 0 <= slot < |tmp| && !tmp[slot]
    ensures |FreeSlots(tmp[slot := true])| == |FreeSlots(tmp)| - 1
  {
    assert FreeSlots(tmp[slot := true]) == FreeSlots(tmp) - {slot};
  }

  lemma Unregistered(ram: Ram, free: set<int>, sp: Spaces, d: int, cr3: int)
    requires Inv(ram, free, sp) && sp.Live(d) && KernelView(ram, sp, cr3)
    ensures Inv(ram, free, Unregister(sp, d)) && KernelView(ram, Unregister(sp, d), cr3) && d > 0
  {
    hide Get;
    var sp' := Unregister(sp, d);
    forall e | sp'.Live(e) ensures SpaceOk(ram, sp', e) { assert SpaceOk(ram, sp, e); }
  }

  lemma UnregisterLess(sp: Spaces, d: int)
    ensures d !in Unregister(sp, d).roles && Unregister(sp, d).ktab == sp.ktab
    ensures forall f :: f in Unregister(sp, d).roles ==> f in sp.roles
    ensures forall e :: Unregister(sp, d).Live(e) <==> sp.Live(e) && e != d
  {}

  lemma PrivateStack(ram: Ram, sp: Spaces, p: Process)
    requires Private(ram, sp, p)
    ensures |p.kstack| == 2 && p.kstack[0] !in sp.roles && p.kstack[1] !in sp.roles
  {}

  lemma PrivateTable(ram: Ram, free: set<int>, sp: Spaces, p: Process, i: int, cr3: int)
    requires Inv(ram, free, sp) && Private(ram, sp, p) && sp.Live(p.cr3) && (sp.Live(cr3) || cr3 in free)
    requires UserSlot(i) && Present(Get(ram, p.cr3, i))
    ensures var t := FrameOf(Get(ram, p.cr3, i));
            && t !in Unregister(sp, p.cr3).roles && t != cr3 && t >= 0
            && Releasable(ram, free, Unregister(sp, p.cr3), cr3, t)
  {
    hide Get;
    SlotTable(ram, free, sp, p.cr3, i);
  }

  lemma MoreFree(ram: Ram, free: set<int>, free': set<int>, sp: Spaces, f: int)
    requires Inv(ram, free, sp) && f !in sp.roles && f > 0 && free <= free' <= free + {f}
    ensures Inv(ram, free', sp)
  {
    hide KernelTables, SpaceOk;
  }

  /** Touching only temporary pages, and leaving them unmapped, changes nothing. */
  lemma SpacesUntouched(ram0: Ram, ram: Ram, free0: set<int>, free: set<int>, sp: Spaces, d: int)
    requires Inv(ram0, free0, sp) && Inv(ram, free, sp) && KernelView(ram0, sp, d) && KernelView(ram, sp, d)
    requires Building(ram0, ram, sp, {}, TEMPORARY_PAGE - 1)
    requires forall u :: KernelPage(u) ==> Lookup(ram, d, u) == Lookup(ram0, d, u)
    ensures SameOthers(ram0, ram, sp)
  {
    hide Inv, KernelView, Lookup, Building;
    forall e, u | sp.Live(e) && Ordinary(u) ensures Lookup(ram, e, u) == Lookup(ram0, e, u) {
      if KernelPage(u) {
        LiveView(ram0, free0, sp, e);
        LiveView(ram, free, sp, e);
        KernelPagesShared(ram0, free0, sp, d, e, u);
        KernelPagesShared(ram, free, sp, d, e, u);
      } else {
        BuildingLookup(ram0, ram, free0, sp, {}, TEMPORARY_PAGE - 1, e, u);
      }
    }
  }

  // ---------------------------------------------------------------------
  // Create, then delete
  // ---------------------------------------------------------------------

  lemma {:induction false} CodeFrames(ram: Ram, ct: int, code: seq<int>, n: nat)
    requires CodeTable(ram, ct, code) && |code| <= 768 && n <= 1024
    ensures PresentFrames(ram, ct, n) == if n <= 256 then [] else if n - 256 <= |code| then code[..n - 256] else code
  {
    hide Get, Entry, PresentFrames;
    if n == 0 {
      PresentFramesStart(ram, ct);
    } else {
      CodeFrames(ram, ct, code, n - 1);
      PresentFramesStep(ram, ct, n - 1);
      assert Get(ram, ct, n - 1) == if 256 <= n - 1 < 256 + |code| then Entry(code[n - 1 - 256], USER_FLAGS) else 0;
      var k := n - 256;
      if 1 <= k <= |code| { assert code[..k] == code[..k - 1] + [code[k - 1]]; }
      if k == |code| + 1 { assert code[..k - 1] == code; }
    }
  }

  /** The entries just above index `1008 - |stack|` list the stack upside down. */
  lemma {:induction false} StackFrames(ram: Ram, st: int, stack: seq<int>, n: nat)
    requires StackTable(ram, st, stack) && |stack| == 4 && n <= 1024
    ensures PresentFrames(ram, st, n) ==
              if n <= 1005 then [] else if n >= 1009 then Reversed(stack) else Reversed(stack[1009 - n..])
  {
    hide Get, Entry, PresentFrames;
    if n == 0 {
      PresentFramesStart(ram, st);
    } else {
      StackFrames(ram, st, stack, n - 1);
      PresentFramesStep(ram, st, n - 1);
      assert Get(ram, st, n - 1) == if 1005 <= n - 1 <= 1008 then Entry(stack[1008 - (n - 1)], USER_FLAGS) else 0;
      if 1005 <= n - 1 <= 1008 {
        var k := 1009 - n;
        assert stack[k..][0] == stack[k] && stack[k..][1..] == stack[k + 1..];
        assert n == 1009 ==> stack[0..] == stack;
        assert n == 1006 ==> stack[4..] == [];
      }
    }
  }

  lemma {:induction false} BuiltSlots(ram: Ram, sp: Spaces, d: int, sf: SpaceFrames, n: nat)
    requires sf.Built(ram, sp, d) && |sf.stack| == 4 && |sf.code| <= 768 && 1 <= n <= 768
    ensures SlotFrames(ram, d, n) ==
              if n <= 767 then sf.code + [sf.ct] else sf.code + [sf.ct] + Reversed(sf.stack) + [sf.st]
  {
    hide Get, Entry, CodeTable, StackTable, PresentFrames;
    assert UserSlot(n - 1);
    SlotFramesStep(ram, d, n - 1);
    if n == 1 {
      SlotFramesStart(ram, d);
      CodeFrames(ram, sf.ct, sf.code, 1024);
      assert sf.code[..|sf.code|] == sf.code;
    } else {
      BuiltSlots(ram, sp, d, sf, n - 1);
      if n == 768 { StackFrames(ram, sf.st, sf.stack, 1024); }
    }
  }

  /** DeleteProcess on a fresh space frees exactly what CreateProcess obtained. */
  lemma BuiltFreed(ram: Ram, sp: Spaces, p: Process, sf: SpaceFrames)
    requires sf.Built(ram, sp, p.cr3) && |sf.stack| == 4 && |sf.code| <= 768 && p.kstack == sf.kstack
    ensures SlotFrames(ram, p.cr3, 768) + p.kstack + [p.cr3] == sf.InOrder(p.cr3)
  {
    hide SlotFrames, Reversed;
    BuiltSlots(ram, sp, p.cr3, sf, 768);
  }

  /** A fresh space maps only its own frames. */
  lemma BuiltPrivate(ram0: Ram, ram: Ram, free0: set<int>, sp0: Spaces, sp: Spaces, p: Process,
                     sf: SpaceFrames, cr3: int)
    requires Inv(ram0, free0, sp0) && sf.Distinct(free0, p.cr3) && sp == sf.Register(sp0, p.cr3)
    requires sf.Built(ram, sp, p.cr3) && p.kstack == sf.kstack && |sf.kstack| == 2 && sp0.Live(cr3)
    ensures Private(ram, sp, p) && sp.Live(p.cr3) && sp.Live(cr3)
  {
    hide Get, Entry, Inv, Reversed;
    FreeNoRole(ram0, free0, sp0);
    FramesOfSpace(sf, free0, p.cr3);
    OwnFrames(sf, free0, p.cr3);
    forall x | sf.Own(free0, p.cr3, x) ensures x !in sp.roles {}
    assert sf.Own(free0, p.cr3, p.kstack[0]) && sf.Own(free0, p.cr3, p.kstack[1]);
    forall i | UserSlot(i) && Present(Get(ram, p.cr3, i))
      ensures MapsNoStructure(ram, sp, FrameOf(Get(ram, p.cr3, i)))
    {
      if i == 0 {
        MapsCode(ram, sp, sf);
      } else {
        assert i == 767;
        MapsStack(ram, sp, sf);
      }
    }
  }

  lemma MapsCode(ram: Ram, sp: Spaces, sf: SpaceFrames)
    requires CodeTable(ram, sf.ct, sf.code)
    requires forall x :: x in sf.code ==> x !in sp.roles
    ensures MapsNoStructure(ram, sp, sf.ct)
  {
    hide Get, Entry;
  }

  lemma MapsStack(ram: Ram, sp: Spaces, sf: SpaceFrames)
    requires StackTable(ram, sf.st, sf.stack) && |sf.stack| == 4
    requires forall x :: x in sf.stack ==> x !in sp.roles
    ensures MapsNoStructure(ram, sp, sf.st)
  {
    hide Get, Entry;
  }

  lemma FreeNoRole(ram: Ram, free: set<int>, sp: Spaces)
    requires Inv(ram, free, sp)
    ensures forall f :: f in free ==> f !in sp.roles
  {}

  /** The pages of the process are none of its tables. */
  lemma OwnFrames(sf: SpaceFrames, free: set<int>, d: int)
    requires sf.Distinct(free, d)
    ensures forall x :: x in sf.code ==> sf.Own(free, d, x)
    ensures forall x :: x in sf.stack ==> sf.Own(free, d, x)
    ensures forall x :: x in sf.kstack ==> sf.Own(free, d, x)
  {
    ReversedElems(sf.stack);
    var xs, n := sf.InOrder(d), |sf.code|;
    assert xs[n] == sf.ct && xs[n + 5] == sf.st && xs[|xs| - 1] == d;
    forall x | x in sf.code || x in sf.stack || x in sf.kstack ensures sf.Own(free, d, x) {
      if x in sf.code {
        var i :| 0 <= i < n && sf.code[i] == x;
        assert xs[i] == x;
      } else if x in sf.stack {
        assert x in Elems(Reversed(sf.stack));
        var i :| 0 <= i < 4 && Reversed(sf.stack)[i] == x;
        assert xs[n + 1 + i] == x;
      } else {
        var i :| 0 <= i < |sf.kstack| && sf.kstack[i] == x;
        assert xs[n + 6 + i] == x;
      }
      assert x in Elems(xs);
    }
  }

  lemma InOrderLength(sf: SpaceFrames, d: int)
    requires |sf.stack| == 4 && |sf.kstack| == 2
    ensures |sf.InOrder(d)| == |sf.code| + 9
  {
    ReversedElems(sf.stack);
  }

  lemma GivenBack(free: set<int>, all: set<int>, highest: int)
    requires all <= free && forall f :: f in free ==> f >= 2 && f * 4096 <= highest
    ensures (free - all) + (set f | f in all && f >= 2 && f * 4096 <= highest) == free
  {}

  lemma RoundTripSpaces(sp: Spaces, sf: SpaceFrames, d: int)
    requires d !in sp.roles && sf.ct !in sp.roles && sf.st !in sp.roles && d != sf.ct && d != sf.st
    ensures var sp' := Unregister(sf.Register(sp, d), d);
            sp'.ktab == sp.ktab && forall e :: sp'.Live(e) <==> sp.Live(e)
  {}

  /** The user half of a process right after CreateProcess. */
  lemma UserPages(ram: Ram, sp: Spaces, sf: SpaceFrames, d: int, u: int)
    requires sf.Built(ram, sp, d) && |sf.stack| == 4 && |sf.code| <= 768 && 0 <= u < 768 * 1024
    ensures Lookup(ram, d, u) ==
              if CODE_PAGE <= u < CODE_PAGE + |sf.code| then Some(Entry(sf.code[u - CODE_PAGE], USER_FLAGS))
              else if USER_STACK_PAGE - 4 < u <= USER_STACK_PAGE then
                Some(Entry(sf.stack[USER_STACK_PAGE - u], USER_FLAGS))
              else None
  {
    hide Get, Entry;
    assert UserSlot(u / 1024);
    assert !Present(0);
  }

  /** The page map of a process right after CreateProcess: the executable from
      page 0x100, four stack pages, the kernel half every other space has, and
      nothing else. */
  lemma NewSpacePages(ram: Ram, free: set<int>, sp: Spaces, sf: SpaceFrames, d: int, e: int, u: int)
    requires Inv(ram, free, sp) && sp.Live(d) && sp.Live(e) && sf.Built(ram, sp, d)
    requires |sf.stack| == 4 && |sf.code| <= 768 && Ordinary(u)
    ensures Lookup(ram, d, u) ==
              if KernelPage(u) then Lookup(ram, e, u)
              else if CODE_PAGE <= u < CODE_PAGE + |sf.code| then Some(Entry(sf.code[u - CODE_PAGE], USER_FLAGS))
              else if USER_STACK_PAGE - 4 < u <= USER_STACK_PAGE then
                Some(Entry(sf.stack[USER_STACK_PAGE - u], USER_FLAGS))
              else None
  {
    hide Inv, Get, Entry, Lookup;
    if KernelPage(u) {
      LiveView(ram, free, sp, d);
      LiveView(ram, free, sp, e);
      KernelPagesShared(ram, free, sp, d, e, u);
    } else {
      UserPages(ram, sp, sf, d, u);
    }
  }

  predicate InImage(sf: SpaceFrames, u: int)
  {
    CODE_PAGE <= u < CODE_PAGE + |sf.code| || USER_STACK_PAGE - 4 < u <= USER_STACK_PAGE
  }

  /** Right after CreateProcess user code reaches, of all 4 GiB, exactly the executable and the
      stack. */
  lemma NewSpaceRights(ram: Ram, free: set<int>, sp: Spaces, sf: SpaceFrames, d: int)
    requires Inv(ram, free, sp) && sp.Live(d) && sf.Built(ram, sp, d) && |sf.stack| == 4 && |sf.code| <= 768
    ensures forall u :: 0 <= u < 1024 * 1024 ==> (Grants(ram, d, u, PAGE_USER) <==> InImage(sf, u))
  {
    LiveView(ram, free, sp, d);
    hide Inv, KernelView, Grants, Lookup, Entry, Has, SpaceFrames.Built;
    forall u | 0 <= u < 1024 * 1024 ensures Grants(ram, d, u, PAGE_USER) <==> InImage(sf, u) {
      if u >= 768 * 1024 {
        KernelClosed(ram, free, sp, d, u);
      } else {
        UserPages(ram, sp, sf, d, u);
        GrantsIs(ram, d, u, PAGE_USER);
        if InImage(sf, u) {
          BuiltSlot(ram, sp, sf, d, u);
          EntryHas(FrameAt(sf, u), USER_FLAGS, PAGE_USER);
          FlagBits();
        }
      }
    }
  }

  /** The frame behind a page of the image. */
  function FrameAt(sf: SpaceFrames, u: int): int
    requires InImage(sf, u) && |sf.stack| == 4
  {
    if CODE_PAGE <= u < CODE_PAGE + |sf.code| then sf.code[u - CODE_PAGE] else sf.stack[USER_STACK_PAGE - u]
  }

  lemma FlagBits()
    ensures Has(USER_FLAGS, PAGE_USER) && Has(USER_FLAGS, PAGE_RW)
  {}

  /** The two directory entries CreateProcess writes give user code every right. */
  lemma BuiltSlot(ram: Ram, sp: Spaces, sf: SpaceFrames, d: int, u: int)
    requires sf.Built(ram, sp, d) && |sf.code| <= 768 && InImage(sf, u)
    ensures Has(Get(ram, d, u / 1024), PAGE_USER) && Has(Get(ram, d, u / 1024), PAGE_RW)
  {
    hide Get, Entry, Has, CodeTable, StackTable;
    assert UserSlot(u / 1024) && (u / 1024 == 0 || u / 1024 == 767);
    var t := if u / 1024 == 0 then sf.ct else sf.st;
    assert Get(ram, d, u / 1024) == Entry(t, USER_FLAGS);
    EntryHas(t, USER_FLAGS, PAGE_USER);
    EntryHas(t, USER_FLAGS, PAGE_RW);
    FlagBits();
  }

  /** Wherever the invariant holds, all live directories hold the same entries in the
      kernel slots, every kernel page translates identically in every space, and
      no kernel table is free. */
  lemma SharedKernelHalf(ram: Ram, free: set<int>, sp: Spaces)
    requires Inv(ram, free, sp)
    ensures forall d, e, i :: sp.Live(d) && sp.Live(e) && KernelSlot(i) ==> Get(ram, d, i) == Get(ram, e, i)
    ensures forall d, e, u :: sp.Live(d) && sp.Live(e) && KernelPage(u) ==> Lookup(ram, d, u) == Lookup(ram, e, u)
    ensures forall i :: KernelSlot(i) ==> i in sp.ktab && sp.ktab[i] !in free
  {
    hide Get, Lookup, SpaceOk;
    forall d, e, i | sp.Live(d) && sp.Live(e) && KernelSlot(i) ensures Get(ram, d, i) == Get(ram, e, i) {
      LiveView(ram, free, sp, d);
      LiveView(ram, free, sp, e);
      SharedEntry(ram, free, sp, d, i);
      SharedEntry(ram, free, sp, e, i);
    }
    forall d, e, u | sp.Live(d) && sp.Live(e) && KernelPage(u) ensures Lookup(ram, d, u) == Lookup(ram, e, u) {
      LiveView(ram, free, sp, d);
      LiveView(ram, free, sp, e);
      KernelPagesShared(ram, free, sp, d, e, u);
    }
    forall i | KernelSlot(i) ensures i in sp.ktab && sp.ktab[i] !in free { TableNotFree(ram, free, sp, i); }
  }

  lemma TableNotFree(ram: Ram, free: set<int>, sp: Spaces, i: int)
    requires Inv(ram, free, sp) && KernelSlot(i)
    ensures i in sp.ktab && sp.ktab[i] !in free
  {
    hide SpaceOk;
    var t := sp.ktab[i];
    assert t in free ==> t !in sp.roles;
  }
}
