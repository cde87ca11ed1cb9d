/** Whole runs of the memory system: from InitVirtualMemoryManager through any sequence
    of mappings, unmappings, process creations, deletions and switches
    (sys/ddk/ia32/vmm.c, sys/task/process.c). */
module SystemRuns {
  import opened PageTables
  import opened VirtualMemory
  import opened Processes
  import opened Wrappers

  predicate UserPage(v: int) { 0 <= v < 768 * 1024 }

  /** A page of the window CreateTempVirtualMap uses. */
  predicate TempWindow(v: int) { TEMPORARY_PAGE - TMPMAP_MAX_PAGES < v <= TEMPORARY_PAGE }

  /** User page `v` of space `d` shows frame `f`. */
  ghost predicate Shows(ram: Ram, d: int, v: int, f: int)
  {
    UserPage(v) && Lookup(ram, d, v).Some? && FrameOf(Lookup(ram, d, v).value) == f
  }

  /** The owner of a device frame, which any space may show. */
  const DEVICE: int := -1

  /** Every frame in the user half of a live space belongs to that space alone or to a
      device, and is neither free nor a paging structure. */
  ghost predicate Owned(ram: Ram, free: set<int>, sp: Spaces, owner: map<int, int>)
  {
    && (forall d, v, f :: sp.Live(d) && Shows(ram, d, v, f) ==> f in owner && (owner[f] == d || owner[f] == DEVICE))
    && (forall f :: f in owner ==> f !in free && f !in sp.roles)
  }

  /** Whatever may become free was free after boot: `pool`. */
  ghost predicate Pooled(free: set<int>, sp: Spaces, owner: map<int, int>, pool: set<int>, boot: int)
  {
    && free <= pool
    && (forall f :: f in owner && owner[f] != DEVICE ==> f in pool)
    && (forall f :: f in sp.roles ==> f in pool || f == boot || sp.roles[f].KernelTable?)
  }

  /** A step that leaves the user pages alone. */
  lemma OwnedKeeps(ram: Ram, ram': Ram, free: set<int>, free': set<int>, sp: Spaces, sp': Spaces, owner: map<int, int>)
    requires Owned(ram, free, sp, owner)
    requires forall e, u :: sp'.Live(e) && UserPage(u) ==>
               sp.Live(e) && (Lookup(ram', e, u) == Lookup(ram, e, u) || Lookup(ram', e, u) == None)
    requires free' <= free && forall g :: g in sp'.roles ==> g in sp.roles || g in free
    ensures Owned(ram', free', sp', owner)
  {
    hide Lookup;
    forall d, v, f | sp'.Live(d) && Shows(ram', d, v, f) ensures f in owner && (owner[f] == d || owner[f] == DEVICE) {
      assert Shows(ram, d, v, f);
    }
  }

  /** Frame `f`, which nobody owns or a device does, becomes user page `v` of space `d`. */
  lemma OwnedMap(ram: Ram, ram': Ram, free: set<int>, free': set<int>, sp: Spaces, sp': Spaces, owner: map<int, int>,
                 d: int, v: int, f: int, o: int)
    requires Owned(ram, free, sp, owner) && f !in free' && free' <= free && f !in sp'.roles
    requires o == d || o == DEVICE
    requires f in owner ==> owner[f] == DEVICE == o
    requires forall e, u :: sp'.Live(e) && UserPage(u) && !(e == d && u == v) ==>
               sp.Live(e) && Lookup(ram', e, u) == Lookup(ram, e, u)
    requires forall w :: Shows(ram', d, v, w) ==> w == f
    requires forall g :: g in sp'.roles ==> g in sp.roles || g in free
    ensures Owned(ram', free', sp', owner[f := o])
  {
    hide Lookup;
    var o' := owner[f := o];
    forall e, u, g | sp'.Live(e) && Shows(ram', e, u, g) ensures g in o' && (o'[g] == e || o'[g] == DEVICE) {
      if e != d || u != v { assert Shows(ram, e, u, g); }
    }
  }

  lemma UserOnly(ram: Ram, ram': Ram, sp: Spaces, d: int, v: int, w: Option<int>)
    requires OnlyPage(ram, ram', sp, d, v, w) && UserPage(v)
    ensures forall e, u :: sp.Live(e) && UserPage(u) && !(e == d && u == v) ==> Lookup(ram', e, u) == Lookup(ram, e, u)
    ensures Lookup(ram', d, v) == w
    ensures forall u :: KernelPage(u) ==> Lookup(ram', d, u) == Lookup(ram, d, u)
  {
    hide Lookup;
    assert forall u :: UserPage(u) ==> Ordinary(u) && !KernelPage(u);
  }

  /** Another kernel page changes no user page. */
  lemma KernelOnly(ram: Ram, ram': Ram, sp: Spaces, d: int, v: int, w: Option<int>)
    requires OnlyPage(ram, ram', sp, d, v, w) && KernelPage(v)
    ensures forall e, u :: sp.Live(e) && UserPage(u) ==> Lookup(ram', e, u) == Lookup(ram, e, u)
    ensures Lookup(ram', d, v) == w
    ensures forall u :: KernelPage(u) && u != v ==> Lookup(ram', d, u) == Lookup(ram, d, u)
  {
    hide Lookup;
    assert forall u :: UserPage(u) ==> Ordinary(u) && u != v;
  }

  /** What SelectNextThread found: nothing ready, a thread without a process, or a thread of
      the process whose directory is `d`. */
  datatype Next = Nobody | KernelThread | ThreadOf(d: int)

  datatype Op =
    | MapUser(v: int, flags: int)
    | MapDevice(v: int, f: int, flags: int)
    | MapKernel(v: int, f: int, flags: int)
    | AllocatePage(v: int, flags: int)
    | Unmap(v: int)
    | Create(pages: seq<seq<int>>)
    | Delete(d: int)
    | Exit(next: Next)
    | Schedule(next: Next)

  /** The live spaces are the boot space and those of the processes, each with its two stack
      frames. */
  ghost predicate Listing(sp: Spaces, procs: map<int, Process>, owner: map<int, int>, boot: int)
  {
    && sp.Live(boot) && boot !in procs
    && (forall d :: sp.Live(d) ==> d == boot || d in procs)
    && (forall d :: d in procs ==>
          && sp.Live(d) && procs[d].cr3 == d && d >= 256 && |procs[d].kstack| == 2
          && forall i :: 0 <= i < 2 ==> procs[d].kstack[i] in owner && owner[procs[d].kstack[i]] == d)
  }

  lemma ListingCreate(sp: Spaces, sp': Spaces, procs: map<int, Process>, owner: map<int, int>, owner': map<int, int>,
                      boot: int, p: Process)
    requires Listing(sp, procs, owner, boot) && p.cr3 !in sp.roles && p.cr3 >= 256 && |p.kstack| == 2
    requires forall i :: 0 <= i < 2 ==> p.kstack[i] in owner' && owner'[p.kstack[i]] == p.cr3
    requires forall f :: f in owner ==> f in owner' && owner'[f] == owner[f]
    requires forall x :: sp'.Live(x) <==> sp.Live(x) || x == p.cr3
    ensures Listing(sp', procs[p.cr3 := p], owner', boot) && p.cr3 !in procs
  {
    var procs' := procs[p.cr3 := p];
    forall d, i | d in procs' && 0 <= i < 2 && |procs'[d].kstack| == 2
      ensures procs'[d].kstack[i] in owner' && owner'[procs'[d].kstack[i]] == d
    {
      if d != p.cr3 {
        var x := procs[d].kstack[i];
        assert x in owner;
      }
    }
  }

  lemma ListingKeeps(sp: Spaces, sp': Spaces, procs: map<int, Process>, owner: map<int, int>, owner': map<int, int>,
                     boot: int)
    requires Listing(sp, procs, owner, boot) && SameSystem(sp, sp')
    requires forall f :: f in owner && owner[f] != DEVICE ==> f in owner' && owner'[f] == owner[f]
    ensures Listing(sp', procs, owner', boot)
  {
    forall d, i | d in procs && 0 <= i < 2 ensures procs[d].kstack[i] in owner' && owner'[procs[d].kstack[i]] == d {
      var x := procs[d].kstack[i];
      assert x in owner;
    }
  }

  // ---------------------------------------------------------------------
  // What one operation does
  // ---------------------------------------------------------------------

  /** Everything an operation may change, and the device frames mapped so far. */
  datatype State = State(ram: Ram, free: set<int>, sp: Spaces, cr3: int, highest: int, tmpmap: seq<bool>,
                         procs: map<int, Process>, running: Option<int>, devices: set<int>)

  /** What an operation did to the process list. */
  datatype Reply = Made(p: Process) | Gone(d: int) | Same

  predicate InUse(s: State) { s.cr3 !in s.free }

  predicate CanPick(s: State, next: Next) { next.ThreadOf? ==> next.d in s.procs || s.running == Some(next.d) }

  predicate CanExit(s: State, next: Next)
  {
    s.running.Some? && s.running.value in s.procs && CanPick(s, next)
  }

  predicate RoomIn(s: State, frames: int, slots: int)
  {
    |High(s.free)| >= frames && |FreeSlots(s.tmpmap)| >= slots
  }

  /** The source can be run: what it does not check succeeds. */
  predicate CanCreate(s: State, pages: seq<seq<int>>)
  {
    && InUse(s) && |pages| <= 768 && (forall i :: 0 <= i < |pages| ==> |pages[i]| <= 1024)
    && (pages == [] || (RoomIn(s, 2, 0) && (RoomIn(s, 3, 1) ==> RoomIn(s, 9 + |pages|, 4))))
  }

  /** Some pair of pages of the stack area is free. */
  ghost predicate StackAddress(s: State)
  {
    exists j :: 0 <= j && KERNEL_STACK_FIRST + 2 * j + 2 <= KERNEL_STACK_LAST && PairFree(s, KERNEL_STACK_FIRST + 2 * j)
  }

  ghost predicate PairFree(s: State, k: int) { Lookup(s.ram, s.cr3, k).None? && Lookup(s.ram, s.cr3, k + 1).None? }

  /** The source can be run on the operation. */
  predicate Applies(s: State, op: Op)
  {
    match op
    case MapUser(v, flags) => InUse(s) && 0 < v < 768 * 1024 && 0 <= flags < 4096
    case MapDevice(v, f, flags) =>
      InUse(s) && 0 < v < 768 * 1024 && 0 <= flags < 4096 && f >= 0 && !Given(f, s.highest)
    case MapKernel(v, f, flags) => KernelPage(v) && !TempWindow(v) && f >= 0 && 0 <= flags < 4096
    case AllocatePage(v, flags) =>
      KernelPage(v) && !TempWindow(v) && 0 <= flags < 4096 && (InUse(s) || Below(s.free, s.cr3) != {})
    case Unmap(v) => 0 <= v < 1023 * 1024 && !TempWindow(v) && (InUse(s) || KernelPage(v))
    case Create(pages) => CanCreate(s, pages)
    case Delete(d) => d in s.procs
    case Exit(next) => CanExit(s, next)
    case Schedule(next) => CanPick(s, next)
  }

  ghost predicate SameRest(s: State, s': State)
  {
    s'.cr3 == s.cr3 && s'.procs == s.procs && s'.running == s.running && s'.free <= s.free && SameSystem(s.sp, s'.sp)
  }

  /** Page `v` of the space in use was unmapped and now shows frame `f`, with the rights `flags`
      give it; nothing else changed. */
  ghost predicate Appears(s: State, v: int, f: int, flags: int, s': State)
  {
    && f >= 0 && 0 <= flags < 4096 && Lookup(s.ram, s.cr3, v).None? && SameRest(s, s')
    && OnlyPage(s.ram, s'.ram, s.sp, s.cr3, v, if flags % 2 == 1 then Some(Entry(f, flags)) else None)
    && Granted(s.ram, s'.ram, s.sp, s.cr3, v, flags)
  }

  /** Operation `op` takes the system from `s` to `s'` with reply `r`. */
  ghost predicate Stepped(s: State, op: Op, r: Reply, s': State)
  {
    if !Applies(s, op) then s' == s && r == Same
    else
      match op
      case MapUser(v, flags) =>
        && r == Same
        && ((s' == s && (Lookup(s.ram, s.cr3, v).Some? || |High(s.free)| <= 1))
            || exists f :: f in s.free - s'.free && Appears(s, v, f, flags, s'))
      case MapDevice(v, f, flags) =>
        && r == Same
        && ((s' == s && (Lookup(s.ram, s.cr3, v).Some? || |High(s.free)| == 0)) || Appears(s, v, f, flags, s'))
      case MapKernel(v, f, flags) =>
        r == Same && ((s' == s && Lookup(s.ram, s.cr3, v).Some?) || (s'.free == s.free && Appears(s, v, f, flags, s')))
      case AllocatePage(v, flags) =>
        && r == Same && (InUse(s') <==> InUse(s))
        && ((s' == s && (NoHighFrame(s.free) || Lookup(s.ram, s.cr3, v).Some?))
            || exists f :: LowestHigh(s.free, f) && s'.free == s.free - {f} && Appears(s, v, f, flags, s'))
      case Unmap(v) =>
        && r == Same && s' == s.(ram := s'.ram)
        && OnlyPage(s.ram, s'.ram, s.sp, s.cr3, v, None) && Revoked(s.ram, s'.ram, s.sp, s.cr3, v)
      case Create(pages) =>
        && s'.cr3 == s.cr3 && s'.running == s.running
        && (if pages != [] && StackAddress(s) && RoomIn(s, 3, 1)
            then r.Made? && r.p.cr3 !in s.procs && s'.procs == s.procs[r.p.cr3 := r.p]
            else r == Same && s'.procs == s.procs)
      case Delete(d) =>
        && r == Gone(d) && s'.procs == s.procs - {d} && s'.cr3 == s.cr3 && s'.running == s.running
        && s.free < s'.free && (InUse(s') <==> InUse(s) && s.cr3 != d)
      case Exit(next) =>
        && r == Gone(s.running.value) && s'.procs == s.procs - {s.running.value} && s.free < s'.free
        && s'.cr3 == Loads(s, next) && s'.running == Runs(s, next)
        && (InUse(s') <==> next.ThreadOf? && next.d != s.running.value)
      case Schedule(next) => r == Same && s' == s.(cr3 := Loads(s, next), running := Runs(s, next))
  }

  /** The directory in use once `next` is picked. */
  function Loads(s: State, next: Next): int { if next.ThreadOf? then next.d else s.cr3 }

  function Runs(s: State, next: Next): Option<int>
  {
    match next case Nobody => s.running case KernelThread => None case ThreadOf(d) => Some(d)
  }

  class Kernel {
    const vm: Vmm
    const table: ProcessTable
    const boot: int                   // the directory InitVirtualMemoryManager built
    var procs: map<int, Process>      // the process list, by directory
    var running: Option<int>          // the process of the current thread, if it has one
    ghost var owner: map<int, int>
    ghost const ktab: map<int, int>   // the kernel tables since boot
    ghost const pool: set<int>        // the frames free after boot

    /** What holds of the processes. */
    ghost predicate ProcsOk()
      reads this, vm
    {
      Listing(vm.sp, procs, owner, boot)
    }

    ghost predicate FramesOk()
      reads this, vm
    {
      && (forall f :: f in vm.free || f in vm.sp.roles ==> vm.Managed(f))
      && (forall f :: f in owner ==> (owner[f] == DEVICE <==> !vm.Managed(f)))
    }

    /** The directory in use is that of a live space, or it has been freed and not been
        written since: the kernel half is still in it.  A thread with a process runs on
        that process's directory. */
    ghost predicate LoadedOk()
      reads this, vm
    {
      && (vm.sp.Live(vm.cr3) || (vm.cr3 in vm.free && vm.cr3 >= 256))
      && (running.Some? ==> vm.cr3 == running.value)
    }

    ghost predicate Valid()
      reads this, table, vm
    {
      && table.vm == vm && vm.Valid() && |table.tmpmap| == TMPMAP_MAX_PAGES && table.SlotsOk() && vm.sp.ktab == ktab
      && (forall k :: 0 <= k < TMPMAP_MAX_PAGES ==> !table.tmpmap[k])
      && Owned(vm.ram, vm.free, vm.sp, owner) && Pooled(vm.free, vm.sp, owner, pool, boot)
      && ProcsOk() && FramesOk() && LoadedOk()
    }

    ghost function Shot(): State
      reads this, table, table.vm, vm
    {
      State(vm.ram, vm.free, vm.sp, vm.cr3, vm.highest, table.tmpmap, procs, running, DeviceFrames(owner))
    }

    /** The system right after InitVirtualMemoryManager. */
    constructor (vm: Vmm, table: ProcessTable)
      requires vm.Valid() && vm.sp.Live(vm.cr3) && (forall d :: vm.sp.Live(d) ==> d == vm.cr3)
      requires forall v :: Ordinary(v) && v / 1024 != 768 ==> vm.PageMap(v).None?
      requires forall f :: f in vm.free || f in vm.sp.roles ==> vm.Managed(f)
      requires forall f :: f in vm.sp.roles ==> f == vm.cr3 || vm.sp.roles[f].KernelTable?
      requires table.vm == vm && table.tmpmap == seq(TMPMAP_MAX_PAGES, _ => false)
      ensures Valid() && this.vm == vm && this.table == table && procs == map[] && running == None
      ensures pool == vm.free && DeviceFrames(owner) == {}
    {
      hide Lookup, SpaceOk;
      this.vm := vm;
      this.table := table;
      boot := vm.cr3;
      procs := map[];
      running := None;
      owner := map[];
      ktab := vm.sp.ktab;
      pool := vm.free;
      new;
      assert forall v :: UserPage(v) ==> Ordinary(v) && v / 1024 != 768;
      forall k | 0 <= k < TMPMAP_MAX_PAGES ensures vm.PageMap(TempPage(k)).None? {
        assert TempPage(k) / 1024 != 768;
      }
    }

    /** In a live space the process code may be used. */
    lemma TableValid()
      requires Valid() && vm.sp.Live(vm.cr3)
      ensures table.Valid() && vm.cr3 !in vm.free && vm.sp.Live(boot)
    {
      hide KernelTables, SpaceOk, KernelView, Owned, Pooled;
    }

    /** On any directory a process may be deleted. */
    lemma TableBase()
      requires Valid()
      ensures table.Base() && vm.sp.Live(boot) && (vm.sp.Live(vm.cr3) ==> vm.cr3 !in vm.free)
    {
      hide KernelTables, SpaceOk, KernelView, Owned, Pooled;
    }

    /** AllocateFrame and MapSinglePage at a user page, as MapSection does for a frame it
        does not have yet (sys/iomgr/section.c). */
    method MapUser(v: int, flags: int) returns (f: int)
      requires Valid() && vm.sp.Live(vm.cr3) && 0 < v < 768 * 1024 && 0 <= flags < 4096
      modifies vm`ram, vm`free, vm`sp, this`owner
      ensures Valid()
      ensures f == 0 ==> Shot() == old(Shot()) && (Lookup(vm.ram, vm.cr3, v).Some? || |High(vm.free)| <= 1)
      ensures f != 0 ==> f in old(vm.free) && f !in vm.free && Appears(old(Shot()), v, f, flags, Shot())
    {
      hide Inv, KernelView, Lookup, Get, Entry, FrameOf, Present, OnlyPage, Granted, Revoked, Owned, Pooled, Listing,
           High;
      ghost var ram0, free0, sp0 := vm.ram, vm.free, vm.sp;
      TableValid();
      ViewRecursive(vm.ram, vm.free, vm.sp, vm.cr3);
      f := vm.AllocateFrame();
      if f == 0 {
        NoHigh(free0);
        return;
      }
      FewerFree(vm.ram, free0, vm.free, vm.sp);
      var status := vm.MapSinglePage(f * 4096, v * 4096, flags);
      if status != Ok {
        if status == OutOfMemory { LastHigh(free0, f); }
        vm.FreeFrame(f);
        assert vm.free == free0;
        return 0;
      }
      UserOnly(ram0, vm.ram, sp0, vm.cr3, v, if flags % 2 == 1 then Some(Entry(f, flags)) else None);
      MappedFresh(ram0, free0, sp0, owner, f);
      ShowsOnly(vm.ram, vm.cr3, v, f, flags);
      OwnedMap(ram0, vm.ram, free0, vm.free, sp0, vm.sp, owner, vm.cr3, v, f, vm.cr3);
      PooledMap(free0, vm.free, sp0, vm.sp, owner, pool, boot, f, vm.cr3);
      ListingKeeps(sp0, vm.sp, procs, owner, owner[f := vm.cr3], boot);
      owner := owner[f := vm.cr3];
    }

    /** DEVICE_MAP of a frame outside the memory the frame allocator manages. */
    method MapDevice(v: int, f: int, flags: int) returns (ok: bool)
      requires Valid() && vm.sp.Live(vm.cr3) && 0 < v < 768 * 1024 && 0 <= flags < 4096 && f >= 0 && !vm.Managed(f)
      modifies vm`ram, vm`free, vm`sp, this`owner
      ensures Valid()
      ensures !ok ==> Shot() == old(Shot()) && (Lookup(vm.ram, vm.cr3, v).Some? || |High(vm.free)| == 0)
      ensures ok ==> Appears(old(Shot()), v, f, flags, Shot())
    {
      hide Inv, KernelView, Lookup, Get, Entry, FrameOf, Present, OnlyPage, Granted, Revoked, Owned, Pooled, Listing,
           High;
      ghost var ram0, free0, sp0 := vm.ram, vm.free, vm.sp;
      TableValid();
      var status := vm.MapSinglePage(f * 4096, v * 4096, flags);
      ok := status == Ok;
      if !ok {
        if status == OutOfMemory { NoHigh(free0); }
        return;
      }
      UserOnly(ram0, vm.ram, sp0, vm.cr3, v, if flags % 2 == 1 then Some(Entry(f, flags)) else None);
      ShowsOnly(vm.ram, vm.cr3, v, f, flags);
      OwnedMap(ram0, vm.ram, free0, vm.free, sp0, vm.sp, owner, vm.cr3, v, f, DEVICE);
      PooledMap(free0, vm.free, sp0, vm.sp, owner, pool, boot, f, DEVICE);
      ListingKeeps(sp0, vm.sp, procs, owner, owner[f := DEVICE], boot);
      owner := owner[f := DEVICE];
    }

    /** MapSinglePage at a kernel page outside the temporary window, of any frame.  It works
        on a freed directory too: the kernel's tables are always there. */
    method MapKernel(v: int, f: int, flags: int) returns (ok: bool)
      requires Valid() && KernelPage(v) && !TempWindow(v) && f >= 0 && 0 <= flags < 4096
      modifies vm`ram, vm`free, vm`sp
      ensures Valid() && vm.free == old(vm.free)
      ensures !ok ==> Shot() == old(Shot()) && Lookup(vm.ram, vm.cr3, v).Some?
      ensures ok ==> Appears(old(Shot()), v, f, flags, Shot())
    {
      hide Inv, KernelView, Lookup, Get, Entry, FrameOf, Present, OnlyPage, Granted, Revoked, Pooled, Listing;
      ghost var ram0, free0, sp0 := vm.ram, vm.free, vm.sp;
      KernelPte(vm.ram, vm.free, vm.sp, vm.cr3, v);
      var status := vm.MapSinglePage(f * 4096, v * 4096, flags);
      ok := status == Ok;
      if !ok { return; }
      KernelOnly(ram0, vm.ram, sp0, vm.cr3, v, if flags % 2 == 1 then Some(Entry(f, flags)) else None);
      OwnedKeeps(ram0, vm.ram, free0, vm.free, sp0, vm.sp, owner);
    }

    /** AllocateVirtualPage at a kernel page `v` outside the temporary window, as the kernel heap
        does it.  On a freed directory it does no harm exactly as long as a free frame lies
        below that directory. */
    method AllocatePage(v: int, flags: int) returns (f: int)
      requires Valid() && KernelPage(v) && !TempWindow(v) && 0 <= flags < 4096
      requires vm.cr3 in vm.free ==> Below(vm.free, vm.cr3) != {}
      modifies vm`ram, vm`free, vm`sp
      ensures Valid() && (vm.cr3 in vm.free <==> old(vm.cr3 in vm.free))
      ensures f == 0 ==> Shot() == old(Shot()) && (NoHighFrame(vm.free) || Lookup(vm.ram, vm.cr3, v).Some?)
      ensures f != 0 ==>
                LowestHigh(old(vm.free), f) && vm.free == old(vm.free) - {f} &&
                  Appears(old(Shot()), v, f, flags, Shot())
    {
      hide Inv, KernelView, Lookup, Get, Entry, FrameOf, Present, OnlyPage, Granted, Revoked, Pooled, Below, Listing;
      ghost var ram0, free0, sp0 := vm.ram, vm.free, vm.sp;
      TableBase();
      FreePositive(vm.ram, vm.free, vm.sp);
      f := vm.AllocateFrame();
      if f == 0 { return; }
      if vm.cr3 in free0 { BelowStep(free0, vm.cr3, f); }
      FewerFree(vm.ram, free0, vm.free, vm.sp);
      KernelPte(vm.ram, vm.free, vm.sp, vm.cr3, v);
      var status := vm.MapSinglePage(f * 4096, v * 4096, flags);
      if status != Ok {
        vm.FreeFrame(f);
        assert vm.free == free0;
        return 0;
      }
      KernelOnly(ram0, vm.ram, sp0, vm.cr3, v, if flags % 2 == 1 then Some(Entry(f, flags)) else None);
      OwnedKeeps(ram0, vm.ram, free0, vm.free, sp0, vm.sp, owner);
      PooledLess(free0, vm.free, vm.sp, owner, pool, boot);
    }

    /** UnmapSinglePage, in the user half of a live space or outside the temporary window. */
    method Unmap(v: int)
      requires Valid() && 0 <= v < 1023 * 1024 && !TempWindow(v) && (vm.sp.Live(vm.cr3) || KernelPage(v))
      modifies vm`ram
      ensures Valid() && OnlyPage(old(vm.ram), vm.ram, vm.sp, vm.cr3, v, None)
      ensures Revoked(old(vm.ram), vm.ram, vm.sp, vm.cr3, v)
    {
      hide Inv, KernelView, Lookup, Get, Entry, FrameOf, Present, OnlyPage, Granted, Revoked, Pooled, Listing;
      ghost var ram0 := vm.ram;
      vm.UnmapSinglePage(v * 4096);
      if KernelPage(v) {
        KernelOnly(ram0, vm.ram, vm.sp, vm.cr3, v, None);
      } else {
        UserOnly(ram0, vm.ram, vm.sp, vm.cr3, v, None);
      }
      OwnedKeeps(ram0, vm.ram, vm.free, vm.free, vm.sp, vm.sp, owner);
    }

    /** The thread picked has no process, or one on the list, or the one that runs now, even
        if that has just been deleted. */
    predicate MayPick(next: Next)
      reads this
    {
      next.ThreadOf? ==> next.d in procs || running == Some(next.d)
    }

    /** ScheduleNext, having picked `next`: a directory is loaded only for a thread that has a
        process, and only if that is not the process of the previous thread
        (schedule.c:142-145). */
    method ScheduleNext(next: Next)
      requires Valid() && MayPick(next)
      modifies vm`cr3, this`running
      ensures Valid()
      ensures vm.cr3 == if next.ThreadOf? then next.d else old(vm.cr3)
      ensures running == match next case Nobody => old(running) case KernelThread => None case ThreadOf(d) => Some(d)
    {
      hide Inv, KernelView, Lookup, Owned, Pooled;
      match next
      case Nobody =>
      case KernelThread => running := None;
      case ThreadOf(d) =>
        if running != Some(d) {
          SlotsAnywhere(vm.ram, vm.free, vm.sp, vm.cr3, d);
          table.SwapProcess(d);
        }
        running := Some(d);
    }

    /** CreateProcess, wherever the source can be run: its unchecked allocations succeed. */
    method Create(pages: seq<seq<int>>) returns (r: Outcome)
      requires Valid() && vm.sp.Live(vm.cr3)
      requires pages != [] && !table.NoStackAddress() ==> table.Unchecked(|pages|)
      requires |pages| <= 768 && forall i :: 0 <= i < |pages| ==> |pages[i]| <= 1024
      modifies table`tmpmap, vm`ram, vm`free, vm`sp, this`procs, this`owner
      ensures Valid() && running == old(running)
      ensures r.Done? <==> pages != [] && old(!table.NoStackAddress() && table.Room(3, 1))
      ensures r.Done? ==> procs == old(procs)[r.p.cr3 := r.p] && r.p.cr3 !in old(procs)
      ensures !r.Done? ==> procs == old(procs)
    {
      hide Inv, KernelView, Lookup, Get, Entry, SamePagesButStack, CodeTable, StackTable, Owned, Elems, High,
           FreeSlots, Pooled,
           Listing;
      ghost var ram0, free0, sp0 := vm.ram, vm.free, vm.sp;
      TableValid();
      ghost var sf;
      r, sf := table.CreateProcess(pages);
      if r.Leaked? {
        StackOnly(ram0, vm.ram, sp0, Process(0, r.kstack, r.kpage));
        OwnedKeeps(ram0, vm.ram, free0, vm.free, sp0, vm.sp, owner);
        PooledLess(free0, vm.free, vm.sp, owner, pool, boot);
      } else if r.Done? {
        var p := r.p;
        OwnedCreate(ram0, vm.ram, free0, vm.free, sp0, owner, sf, p, boot);
        PooledCreate(free0, vm.free, sp0, owner, pool, boot, sf, p.cr3);
        ListingCreate(sp0, vm.sp, procs, owner, Settled(owner, sf, p.cr3), boot, p);
        owner := Settled(owner, sf, p.cr3);
        procs := procs[p.cr3 := p];
      }
    }

    /** DeleteProcess.  Whoever is deleted, no directory is loaded: if it was the one in use,
        the kernel goes on running on a free frame. */
    method Delete(d: int)
      requires Valid() && d in procs
      modifies table`tmpmap, vm`ram, vm`free, vm`sp, this`procs, this`owner
      ensures Valid() && procs == old(procs) - {d} && running == old(running)
      ensures vm.cr3 in vm.free <==> vm.cr3 == d || old(vm.cr3 in vm.free)
      ensures old(vm.free) < vm.free <= pool
    {
      hide Inv, KernelView, Lookup, Get, Entry, Owned, SlotFrames, FreeSlots, Private, Unregister, Pooled;
      ghost var ram0, free0, sp0 := vm.ram, vm.free, vm.sp;
      var p := procs[d];
      TableBase();
      OwnedPrivate(ram0, free0, sp0, owner, p);
      SpareSlots(table.tmpmap);
      var panic, freed := table.DeleteProcess(p);
      if panic { assert false; }
      UnregisterLess(sp0, d);
      OwnedDelete(ram0, vm.ram, free0, vm.free, sp0, owner, p, vm.highest);
      PooledDelete(ram0, free0, vm.free, sp0, owner, pool, boot, p, vm.highest);
      procs := procs - {d};
      owner := Evicted(owner, d);
    }

    /** SYSCALL_EXIT, or a fault in user code: the process of the current thread is deleted
        and another thread is picked.  The directory in use is not a free frame afterwards if
        and only if the thread picked belongs to another process. */
    method Exit(next: Next)
      requires Valid() && running.Some? && running.value in procs && MayPick(next)
      modifies table`tmpmap, vm`ram, vm`free, vm`sp, vm`cr3, this`procs, this`owner, this`running
      ensures Valid() && procs == old(procs) - {old(running.value)} && old(vm.free) < vm.free
      ensures vm.cr3 !in vm.free <==> next.ThreadOf? && next.d != old(running.value)
      ensures vm.cr3 == if next.ThreadOf? then next.d else old(vm.cr3)
      ensures running == match next case Nobody => old(running) case KernelThread => None case ThreadOf(d) => Some(d)
    {
      hide Inv, KernelView, Lookup, Owned, Pooled;
      Delete(running.value);
      ScheduleNext(next);
      if vm.sp.Live(vm.cr3) { TableValid(); }
    }

    /** The directory in use is not a free frame. */
    predicate Loaded()
      reads vm
    {
      vm.cr3 !in vm.free
    }

    /** A creation the source can be run on. */
    predicate Creatable(pages: seq<seq<int>>)
      reads table, table.vm, vm
    {
      && Loaded() && |pages| <= 768 && (forall i :: 0 <= i < |pages| ==> |pages[i]| <= 1024)
      && (pages == [] || table.Unchecked(|pages|))
    }

    /** The current thread can exit with its process, and `next` be picked. */
    predicate Exits(next: Next)
      reads this
    {
      running.Some? && running.value in procs && MayPick(next)
    }

    lemma ValidSound()
      requires Valid()
      ensures Sound(Shot(), ktab, pool)
    {
      hide Inv, KernelView, Lookup, Owned, Isolated;
      ValidIsolated(vm.ram, vm.free, vm.sp, owner, vm.cr3);
      if running.Some? && running.value in procs { TableBase(); }
    }

    /** The stack area has a free pair of pages. */
    lemma HasAddress()
      ensures StackAddress(Shot()) <==> !table.NoStackAddress()
      requires table.vm == vm
    {
      hide Lookup;
      forall k ensures PairFree(Shot(), k) <==> table.StackFree(k) {
        assert table.StackFree(k) ==> vm.PageMap(k).None? && vm.PageMap(k + 1).None?;
        if PairFree(Shot(), k) { forall v | k <= v < k + 2 ensures vm.PageMap(v).None? { assert v in {k, k + 1}; } }
      }
    }

    /** One operation of a run, left out where the source could not be run. */
    method Do(op: Op) returns (r: Reply)
      requires Valid()
      modifies this, table, vm
      ensures Valid() && Stepped(old(Shot()), op, r, Shot())
    {
      hide Inv, KernelView, Lookup, Owned, Pooled, ProcsOk, FramesOk, OnlyPage, Granted, Revoked, Entry, High, Below;
      r := Same;
      match op
      case MapUser(v, flags) =>
        if Loaded() && 0 < v < 768 * 1024 && 0 <= flags < 4096 { var f := MapUser(v, flags); }
      case MapDevice(v, f, flags) =>
        if Loaded() && 0 < v < 768 * 1024 && 0 <= flags < 4096 && f >= 0 && !vm.Managed(f) {
          var ok := MapDevice(v, f, flags);
        }
      case MapKernel(v, f, flags) =>
        if KernelPage(v) && !TempWindow(v) && f >= 0 && 0 <= flags < 4096 { var ok := MapKernel(v, f, flags); }
      case AllocatePage(v, flags) =>
        if KernelPage(v) && !TempWindow(v) && 0 <= flags < 4096 && (Loaded() || Below(vm.free, vm.cr3) != {}) {
          var f := AllocatePage(v, flags);
        }
      case Unmap(v) =>
        if 0 <= v < 1023 * 1024 && !TempWindow(v) && (Loaded() || KernelPage(v)) { Unmap(v); }
      case Create(pages) =>
        if Creatable(pages) {
          HasAddress();
          var out := Create(pages);
          if out.Done? { r := Made(out.p); }
        }
      case Delete(d) =>
        if d in procs {
          Delete(d);
          r := Gone(d);
        }
      case Exit(next) =>
        if Exits(next) {
          r := Gone(running.value);
          Exit(next);
        }
      case Schedule(next) =>
        if MayPick(next) { ScheduleNext(next); }
    }
  }

  /** With one free high frame taken and none left there was only that one. */
  lemma LastHigh(free: set<int>, f: int)
    requires NoHighFrame(free - {f})
    ensures |High(free)| <= 1
  {
    forall g | g in High(free) ensures g == f {
      assert g == f || g in free - {f};
    }
    if f in High(free) { assert High(free) == {f}; } else { assert High(free) == {}; }
  }

  lemma FreePositive(ram: Ram, free: set<int>, sp: Spaces)
    requires Inv(ram, free, sp)
    ensures forall f :: f in free ==> f > 0
  {
    hide KernelTables, SpaceOk;
  }

  lemma MappedFresh(ram: Ram, free: set<int>, sp: Spaces, owner: map<int, int>, f: int)
    requires Owned(ram, free, sp, owner) && f in free
    ensures f !in owner
  {
    hide Lookup;
  }

  /** A page mapped to frame `f` shows that frame or nothing. */
  lemma ShowsOnly(ram: Ram, d: int, v: int, f: int, flags: int)
    requires 0 <= f && 0 <= flags < 4096
    requires Lookup(ram, d, v) == if flags % 2 == 1 then Some(Entry(f, flags)) else None
    ensures forall w :: Shows(ram, d, v, w) ==> w == f
  {
    hide Lookup;
  }

  lemma PooledMap(free: set<int>, free': set<int>, sp: Spaces, sp': Spaces, owner: map<int, int>, pool: set<int>,
                  boot: int,
                  f: int, o: int)
    requires Pooled(free, sp, owner, pool, boot) && free' <= free && (o != DEVICE ==> f in free) && SameSystem(sp, sp')
    requires forall g :: g in sp'.roles ==> g in sp.roles || g in free
    ensures Pooled(free', sp', owner[f := o], pool, boot) && Pooled(free', sp', owner, pool, boot)
  {}

  /** Temporary pages are kernel pages, the same in every space. */
  lemma SlotsAnywhere(ram: Ram, free: set<int>, sp: Spaces, d: int, e: int)
    requires Inv(ram, free, sp) && KernelView(ram, sp, d) && sp.Live(e)
    ensures forall k :: 0 <= k < TMPMAP_MAX_PAGES ==> Lookup(ram, e, TempPage(k)) == Lookup(ram, d, TempPage(k))
  {
    hide Inv, KernelView, Lookup;
    LiveView(ram, free, sp, e);
    forall k | 0 <= k < TMPMAP_MAX_PAGES ensures Lookup(ram, e, TempPage(k)) == Lookup(ram, d, TempPage(k)) {
      KernelPagesShared(ram, free, sp, d, e, TempPage(k));
    }
  }

  lemma PooledLess(free: set<int>, free': set<int>, sp: Spaces, owner: map<int, int>, pool: set<int>, boot: int)
    requires Pooled(free, sp, owner, pool, boot) && free' <= free
    ensures Pooled(free', sp, owner, pool, boot)
  {}

  lemma PooledCreate(free: set<int>, free': set<int>, sp: Spaces, owner: map<int, int>, pool: set<int>, boot: int,
                     sf: SpaceFrames, d: int)
    requires Pooled(free, sp, owner, pool, boot) && sf.Distinct(free, d) && free' <= free && |sf.kstack| == 2
    ensures Pooled(free', sf.Register(sp, d), Settled(owner, sf, d), pool, boot)
    ensures forall f :: f in Settled(owner, sf, d) ==>
              (f in owner && Settled(owner, sf, d)[f] == owner[f]) || (f in free && Settled(owner, sf, d)[f] == d)
    ensures forall f :: f in sf.Register(sp, d).roles ==> f in sp.roles || f in free
  {
    hide Elems, Reversed;
    FramesOfSpace(sf, free, d);
  }

  lemma PooledDelete(ram: Ram, free: set<int>, free': set<int>, sp: Spaces, owner: map<int, int>, pool: set<int>,
                     boot: int,
                     p: Process, highest: int)
    requires Pooled(free, sp, owner, pool, boot) && Owned(ram, free, sp, owner) && Inv(ram, free, sp) && sp.Live(p.cr3)
    requires p.cr3 != boot && sp.Live(boot) && |p.kstack| == 2
    requires forall i :: 0 <= i < 2 ==> p.kstack[i] in owner && owner[p.kstack[i]] != DEVICE
    requires forall f :: f in owner && owner[f] == DEVICE ==> !Given(f, highest)
    requires free' == free + set f | f in SlotFrames(ram, p.cr3, 768) + p.kstack + [p.cr3] && Given(f, highest)
    ensures Pooled(free', Unregister(sp, p.cr3), Evicted(owner, p.cr3), pool, boot) && free' <= pool
    ensures p.cr3 !in free && (p.cr3 in free' <==> Given(p.cr3, highest))
  {
    hide Inv, Lookup, SlotFrames;
    UnregisterLess(sp, p.cr3);
    assert p.cr3 !in free by { LivePositive(ram, free, sp, p.cr3); }
    var x, y := p.kstack[0], p.kstack[1];
    assert x in owner && y in owner && p.kstack == [x, y];
    forall f | f in free' ensures f in pool {
      if f in SlotFrames(ram, p.cr3, 768) {
        UserHalfFrames(ram, free, sp, p.cr3, f);
        assert (exists v :: Shows(ram, p.cr3, v, f)) ==> f in owner;
      }
    }
  }

  /** At least two slots are free when all are. */
  lemma SpareSlots(tmp: seq<bool>)
    requires |tmp| == TMPMAP_MAX_PAGES && forall k :: 0 <= k < TMPMAP_MAX_PAGES ==> !tmp[k]
    ensures |FreeSlots(tmp)| >= 2
  {
    var s := FreeSlots(tmp);
    assert 0 in s && 1 in s;
    LessSlots(tmp, 0);
    assert 1 in FreeSlots(tmp[0 := true]);
  }

  /** The owners after process `d` is gone. */
  ghost function Evicted(owner: map<int, int>, d: int): map<int, int>
  {
    map f | f in owner && owner[f] != d :: owner[f]
  }

  /** A process that owns its frames maps no paging structure. */
  lemma OwnedPrivate(ram: Ram, free: set<int>, sp: Spaces, owner: map<int, int>, p: Process)
    requires Owned(ram, free, sp, owner) && sp.Live(p.cr3) && |p.kstack| == 2
    requires forall i :: 0 <= i < 2 ==> p.kstack[i] in owner
    ensures Private(ram, sp, p)
  {
    hide Get;
    var x, y := p.kstack[0], p.kstack[1];
    assert x in owner && y in owner && x !in sp.roles && y !in sp.roles;
    ShownPrivate(ram, sp, p);
  }

  lemma ShownPrivate(ram: Ram, sp: Spaces, p: Process)
    requires |p.kstack| == 2 && p.kstack[0] !in sp.roles && p.kstack[1] !in sp.roles
    requires forall v, f :: Shows(ram, p.cr3, v, f) ==> f !in sp.roles
    ensures Private(ram, sp, p)
  {
    hide Get;
    forall i | UserSlot(i) && Present(Get(ram, p.cr3, i))
      ensures MapsNoStructure(ram, sp, FrameOf(Get(ram, p.cr3, i)))
    {
      var t := FrameOf(Get(ram, p.cr3, i));
      forall j | 0 <= j < 1024 && Present(Get(ram, t, j)) ensures FrameOf(Get(ram, t, j)) !in sp.roles {
        TableShows(ram, p.cr3, i, j);
      }
    }
  }

  /** A present entry of a present table is a user page. */
  lemma TableShows(ram: Ram, d: int, i: int, j: int)
    requires UserSlot(i) && Present(Get(ram, d, i)) && 0 <= j < 1024
    requires Present(Get(ram, FrameOf(Get(ram, d, i)), j))
    ensures Shows(ram, d, i * 1024 + j, FrameOf(Get(ram, FrameOf(Get(ram, d, i)), j)))
  {
    hide Get;
    var v := i * 1024 + j;
    assert v / 1024 == i && v % 1024 == j;
  }

  /** The frames DeleteProcess gives back from the user half: those its pages show, and
      its tables. */
  lemma {:induction false} PresentMember(ram: Ram, t: int, n: nat, f: int)
    ensures f in PresentFrames(ram, t, n) <==> exists j :: 0 <= j < n && EntryOf(ram, t, j, f)
  {
    hide Get;
    if n > 0 {
      PresentMember(ram, t, n - 1, f);
      if EntryOf(ram, t, n - 1, f) { assert f in PresentFrames(ram, t, n); }
    }
  }

  /** Entry `j` of table `t` is present and names frame `f`. */
  ghost predicate EntryOf(ram: Ram, t: int, j: int, f: int)
  {
    Present(Get(ram, t, j)) && FrameOf(Get(ram, t, j)) == f
  }

  lemma {:induction false} SlotMember(ram: Ram, d: int, n: nat, f: int)
    requires n <= 768
    ensures f in SlotFrames(ram, d, n) <==>
              exists i :: 0 <= i < n && Present(Get(ram, d, i)) &&
                (FrameOf(Get(ram, d, i)) == f || f in PresentFrames(ram, FrameOf(Get(ram, d, i)), 1024))
  {
    hide Get, PresentFrames;
    if n > 0 { SlotMember(ram, d, n - 1, f); }
  }

  /** The frames DeleteProcess takes from the user half are those its pages show and its
      tables. */
  lemma UserHalfFrames(ram: Ram, free: set<int>, sp: Spaces, d: int, f: int)
    requires Inv(ram, free, sp) && sp.Live(d)
    ensures f in SlotFrames(ram, d, 768) ==>
              (f in sp.roles && sp.roles[f].UserTable? && sp.roles[f].dir == d) || exists v :: Shows(ram, d, v, f)
    ensures (exists v :: Shows(ram, d, v, f)) ==> f in SlotFrames(ram, d, 768)
  {
    hide Get, SlotFrames, PresentFrames, Inv;
    SlotMember(ram, d, 768, f);
    if f in SlotFrames(ram, d, 768) {
      var i :| 0 <= i < 768 && Present(Get(ram, d, i)) &&
        (FrameOf(Get(ram, d, i)) == f || f in PresentFrames(ram, FrameOf(Get(ram, d, i)), 1024));
      if FrameOf(Get(ram, d, i)) == f {
        SlotTable(ram, free, sp, d, i);
      } else {
        PresentMember(ram, FrameOf(Get(ram, d, i)), 1024, f);
        var j :| 0 <= j < 1024 && EntryOf(ram, FrameOf(Get(ram, d, i)), j, f);
        TableShows(ram, d, i, j);
      }
    }
    if exists v :: Shows(ram, d, v, f) {
      var v :| Shows(ram, d, v, f);
      var t := FrameOf(Get(ram, d, v / 1024));
      PresentMember(ram, t, 1024, f);
      assert EntryOf(ram, t, v % 1024, f);
    }
  }

  lemma OwnedDelete(ram: Ram, ram': Ram, free: set<int>, free': set<int>, sp: Spaces, owner: map<int, int>,
                    p: Process, highest: int)
    requires Owned(ram, free, sp, owner) && Inv(ram, free, sp) && sp.Live(p.cr3) && |p.kstack| == 2
    requires forall i :: 0 <= i < 2 ==> p.kstack[i] in owner && owner[p.kstack[i]] == p.cr3
    requires forall f :: f in owner && owner[f] == DEVICE ==> !Given(f, highest)
    requires free' == free + set f | f in SlotFrames(ram, p.cr3, 768) + p.kstack + [p.cr3] && Given(f, highest)
    requires SameOthers(ram, ram', Unregister(sp, p.cr3))
    ensures Owned(ram', free', Unregister(sp, p.cr3), Evicted(owner, p.cr3))
    ensures forall f :: f in owner && owner[f] != p.cr3 ==>
              f in Evicted(owner, p.cr3) && Evicted(owner, p.cr3)[f] == owner[f]
  {
    hide Get, Inv, Lookup, SlotFrames;
    var d, sp', o' := p.cr3, Unregister(sp, p.cr3), Evicted(owner, p.cr3);
    UnregisterLess(sp, d);
    assert d > 0 by { LivePositive(ram, free, sp, d); }
    forall x, v, f | sp'.Live(x) && Shows(ram', x, v, f) ensures f in o' && (o'[f] == x || o'[f] == DEVICE) {
      assert Ordinary(v) && Shows(ram, x, v, f);
    }
    forall f | f in o' ensures f !in free' {
      UserHalfFrames(ram, free, sp, d, f);
    }
  }

  lemma LivePositive(ram: Ram, free: set<int>, sp: Spaces, d: int)
    requires Inv(ram, free, sp) && sp.Live(d)
    ensures d > 0 && d !in free
  {
    hide KernelTables, SpaceOk;
  }

  predicate Given(f: int, highest: int) { f >= 2 && f * 4096 <= highest }

  /** The two kernel stack pages are no user pages. */
  lemma StackOnly(ram: Ram, ram': Ram, sp: Spaces, p: Process)
    requires SamePagesButStack(ram, ram', sp, p) && KERNEL_STACK_FIRST <= p.kpage
    ensures forall e, u :: sp.Live(e) && UserPage(u) ==> Lookup(ram', e, u) == Lookup(ram, e, u)
  {
    hide Lookup;
    assert forall u :: UserPage(u) ==> Ordinary(u) && u < p.kpage;
  }

  /** The owners after process `d` has taken the frames of `sf`. */
  ghost function Settled(owner: map<int, int>, sf: SpaceFrames, d: int): map<int, int>
  {
    owner + map f | f in sf.All(d) && f != d && f != sf.ct && f != sf.st :: d
  }

  lemma StackCount(ram: Ram, ram': Ram, sp: Spaces, p: Process)
    requires SamePagesButStack(ram, ram', sp, p)
    ensures |p.kstack| == 2
  {}

  lemma OwnInAll(sf: SpaceFrames, d: int)
    requires |sf.kstack| == 2
    ensures forall x :: x in sf.code || x in sf.stack || x in sf.kstack ==> x in sf.All(d)
  {
    assert sf.kstack == [sf.kstack[0], sf.kstack[1]];
    AllFrames(sf, d, sf.kstack[0], sf.kstack[1]);
  }

  lemma OwnedCreate(ram: Ram, ram': Ram, free: set<int>, free': set<int>, sp: Spaces, owner: map<int, int>,
                    sf: SpaceFrames, p: Process, e: int)
    requires Owned(ram, free, sp, owner) && Inv(ram, free, sp) && sp.Live(e)
    requires sf.Distinct(free, p.cr3) && free' == free - sf.All(p.cr3) && p.kstack == sf.kstack
    requires Inv(ram', free', sf.Register(sp, p.cr3)) && sf.Built(ram', sf.Register(sp, p.cr3), p.cr3)
    requires SamePagesButStack(ram, ram', sp, p) && KERNEL_STACK_FIRST <= p.kpage && |sf.code| <= 768
    ensures Owned(ram', free', sf.Register(sp, p.cr3), Settled(owner, sf, p.cr3)) && |p.kstack| == 2
    ensures forall i :: 0 <= i < 2 ==>
            p.kstack[i] in Settled(owner, sf, p.cr3) && Settled(owner, sf, p.cr3)[p.kstack[i]] == p.cr3
    ensures forall f :: f in owner ==> f in Settled(owner, sf, p.cr3) && Settled(owner, sf, p.cr3)[f] == owner[f]
    ensures p.cr3 !in sp.roles && p.cr3 != sf.ct && p.cr3 != sf.st
    ensures forall x :: sf.Register(sp, p.cr3).Live(x) <==> sp.Live(x) || x == p.cr3
  {
    hide Inv, Lookup, Get, Entry, SamePagesButStack, CodeTable, StackTable, Settled;
    var d, sp', o' := p.cr3, sf.Register(sp, p.cr3), Settled(owner, sf, p.cr3);
    assert |p.kstack| == 2 by { StackCount(ram, ram', sp, p); }
    NewOwners(ram, free, sp, owner, sf, d);
    forall i | 0 <= i < 2 ensures p.kstack[i] in o' && o'[p.kstack[i]] == d {
      var x := p.kstack[i];
      assert x in sf.kstack;
    }
    hide Elems, Reversed;
    StackOnly(ram, ram', sp, p);
    forall x, v, f | sp'.Live(x) && Shows(ram', x, v, f) ensures f in o' && (o'[f] == x || o'[f] == DEVICE) {
      if x == d {
        NewShown(ram', free', sp', sf, d, e, v, f);
      } else {
        assert Shows(ram, x, v, f);
      }
    }
    forall f | f in o' ensures f !in free' && f !in sp'.roles {}
  }

  /** The frames of a process are new to the owners, and none is a paging structure. */
  lemma NewOwners(ram: Ram, free: set<int>, sp: Spaces, owner: map<int, int>, sf: SpaceFrames, d: int)
    requires Inv(ram, free, sp) && sf.Distinct(free, d) && |sf.kstack| == 2
    requires forall f :: f in owner ==> f !in free && f !in sp.roles
    ensures var o' := Settled(owner, sf, d);
            && (forall f :: f in owner ==> f in o' && o'[f] == owner[f])
            && (forall x :: x in sf.code || x in sf.stack || x in sf.kstack ==> x in o' && o'[x] == d)
            && (forall f :: f in o' ==> f !in free - sf.All(d) && f !in sf.Register(sp, d).roles)
    ensures d !in sp.roles && d != sf.ct && d != sf.st && sf.ct != sf.st && sf.ct !in sp.roles && sf.st !in sp.roles
  {
    hide Inv, Elems, Reversed;
    FreeNoRole(ram, free, sp);
    FramesOfSpace(sf, free, d);
    OwnFrames(sf, free, d);
    OwnInAll(sf, d);
  }

  lemma NewShown(ram: Ram, free: set<int>, sp: Spaces, sf: SpaceFrames, d: int, e: int, v: int, f: int)
    requires Inv(ram, free, sp) && sp.Live(d) && sp.Live(e) && sf.Built(ram, sp, d)
    requires |sf.stack| == 4 && |sf.code| <= 768 && Shows(ram, d, v, f)
    ensures f in sf.code || f in sf.stack
  {
    hide Inv, Lookup, Get, CodeTable, StackTable;
    NewSpacePages(ram, free, sp, sf, d, e, v);
  }

  // ---------------------------------------------------------------------
  // Whole runs
  // ---------------------------------------------------------------------

  ghost function DeviceFrames(owner: map<int, int>): set<int>
  {
    set f | f in owner && owner[f] == DEVICE
  }

  /** What every reachable state guarantees: all spaces share the kernel half and its
      tables, which are never free; the directory in use shows it too, even when its own
      frame is free; nothing from 3 GiB up is open to user code; the user half of a space shows
      no frame that is free, that is a paging structure, or that another space shows, device
      frames excepted. */
  ghost predicate Isolated(ram: Ram, free: set<int>, sp: Spaces, ktab: map<int, int>, cr3: int, devices: set<int>)
  {
    && (forall d, e, i :: sp.Live(d) && sp.Live(e) && KernelSlot(i) ==> Get(ram, d, i) == Get(ram, e, i))
    && (forall d, e, u :: sp.Live(d) && sp.Live(e) && KernelPage(u) ==> Lookup(ram, d, u) == Lookup(ram, e, u))
    && (forall d, u :: sp.Live(d) && KernelPage(u) ==> Lookup(ram, cr3, u) == Lookup(ram, d, u))
    && (forall d, v :: (sp.Live(d) || d == cr3) && 768 * 1024 <= v < 1024 * 1024 ==> !Grants(ram, d, v, PAGE_USER))
    && (forall i :: KernelSlot(i) ==> i in ktab && ktab[i] !in free && ktab[i] in sp.roles)
    && (forall d, v, f :: sp.Live(d) && Shows(ram, d, v, f) ==> f !in free && f !in sp.roles)
    && (forall d, e, u, v, f :: sp.Live(d) && sp.Live(e) && Shows(ram, d, u, f) && Shows(ram, e, v, f) ==>
          d == e || f in devices)
  }

  lemma ValidIsolated(ram: Ram, free: set<int>, sp: Spaces, owner: map<int, int>, cr3: int)
    requires Inv(ram, free, sp) && Owned(ram, free, sp, owner) && KernelView(ram, sp, cr3)
    ensures Isolated(ram, free, sp, sp.ktab, cr3, DeviceFrames(owner))
  {
    hide Get, Lookup, SpaceOk, KernelView, Grants;
    SharedKernelHalf(ram, free, sp);
    forall d, v | (sp.Live(d) || d == cr3) && 768 * 1024 <= v < 1024 * 1024 ensures !Grants(ram, d, v, PAGE_USER) {
      if sp.Live(d) { LiveView(ram, free, sp, d); }
      KernelClosed(ram, free, sp, d, v);
    }
    forall d, u | sp.Live(d) && KernelPage(u) ensures Lookup(ram, cr3, u) == Lookup(ram, d, u) {
      LiveView(ram, free, sp, d);
      KernelPagesShared(ram, free, sp, cr3, d, u);
    }
  }

  /** What holds in every state of a run; `pool` are the frames free after boot. */
  ghost predicate Sound(s: State, ktab: map<int, int>, pool: set<int>)
  {
    && Isolated(s.ram, s.free, s.sp, ktab, s.cr3, s.devices) && s.free <= pool
    && (forall f :: f in s.devices ==> !Given(f, s.highest))
    && (s.running.Some? ==> s.cr3 == s.running.value && (s.running.value in s.procs ==> InUse(s)))
  }

  /** The states of a run, before each operation and at the end. */
  ghost predicate Traced(states: seq<State>, ops: seq<Op>, log: seq<Reply>)
  {
    && |log| == |ops| && |states| == |ops| + 1
    && forall i :: 0 <= i < |ops| ==> Stepped(states[i], ops[i], log[i], states[i + 1])
  }

  /** The state after boot: one space that maps the kernel image and nothing else. */
  ghost predicate Booted(s: State, img: Image)
  {
    && img.Ok() && s.procs == map[] && s.running == None && s.devices == {} && InUse(s)
    && (forall v :: Ordinary(v) ==> Lookup(s.ram, s.cr3, v) == if v / 1024 == 768 then img.Page(v % 1024) else None)
  }

  /** Boot, then any sequence of operations.  Null means that memory ran out at boot. */
  method Run(vm: Vmm, img: Image, ops: seq<Op>) returns (k: Kernel?, log: seq<Reply>, ghost states: seq<State>)
    requires img.Ok() && forall f :: f in vm.free ==> vm.Managed(f)
    modifies vm
    ensures k == null ==> NoLowFrame(vm.free) || NoHighFrame(vm.free)
    ensures k != null ==>
              && k.vm == vm && k.Valid() && k.pool <= old(vm.free)
              && Traced(states, ops, log) && k.Shot() == states[|ops|]
              && Booted(states[0], img) && states[0].free == k.pool
              && (forall i :: 0 <= i <= |ops| ==> Sound(states[i], k.ktab, k.pool))
  {
    hide Inv, KernelView, Lookup, Owned, Isolated, Stepped, Sound;
    log, states := [], [];
    var ok := vm.InitVirtualMemoryManager(img);
    if !ok {
      return null, log, states;
    }
    var table := new ProcessTable(vm);
    k := new Kernel(vm, table);
    states := [k.Shot()];
    assert Booted(k.Shot(), img) by { k.TableBase(); }
    k.ValidSound();
    hide Booted;
    for i := 0 to |ops|
      invariant k.vm == vm && k.table == table && fresh(k) && fresh(table) && k.Valid() && k.pool <= old(vm.free)
      invariant Traced(states, ops[..i], log) && states[i] == k.Shot()
      invariant Booted(states[0], img) && states[0].free == k.pool
      invariant forall j :: 0 <= j <= i ==> Sound(states[j], k.ktab, k.pool)
    {
      ghost var s := k.Shot();
      var r := k.Do(ops[i]);
      k.ValidSound();
      TracedStep(states, ops, log, r, k.Shot());
      log, states := log + [r], states + [k.Shot()];
    }
    assert ops[..|ops|] == ops;
  }

  lemma TracedStep(states: seq<State>, ops: seq<Op>, log: seq<Reply>, r: Reply, s: State)
    requires |log| < |ops| && Traced(states, ops[..|log|], log) && Stepped(states[|log|], ops[|log|], r, s)
    ensures Traced(states + [s], ops[..|log| + 1], log + [r])
  {
    hide Stepped;
    var n, states', log' := |log|, states + [s], log + [r];
    forall i | 0 <= i < n + 1 ensures Stepped(states'[i], ops[..n + 1][i], log'[i], states'[i + 1]) {
      if i < n { assert Stepped(states[i], ops[..n][i], log[i], states[i + 1]); }
    }
  }

  // ---------------------------------------------------------------------
  // A freed directory in use
  // ---------------------------------------------------------------------

  function Below(free: set<int>, d: int): set<int> { set f | f in free && 256 <= f < d }

  lemma BelowStep(free: set<int>, d: int, f: int)
    requires LowestHigh(free, f) && d in free && d >= 256
    ensures f == d <==> Below(free, d) == {}
    ensures f == d ==> |Below(free, d)| == 0
    ensures f != d ==> f in Below(free, d) && |Below(free - {f}, d)| == |Below(free, d)| - 1
    ensures forall g :: g in Below(free - {f}, d) ==> g in Below(free, d)
  {
    if f == d {
      assert Below(free, d) == {};
    } else {
      assert f in Below(free, d) && Below(free - {f}, d) == Below(free, d) - {f};
    }
  }

  /** While the directory in use is a free frame, the frame allocator gives it away as soon
      as the free frames below it are gone. */
  method ReuseDirectory(vm: Vmm) returns (taken: seq<int>)
    requires vm.cr3 in vm.free && vm.cr3 >= 256 && forall g :: g in vm.free ==> g > 0
    modifies vm`free
    ensures |taken| == |Below(old(vm.free), vm.cr3)| + 1 && taken[|taken| - 1] == vm.cr3
    ensures forall i :: 0 <= i < |taken| - 1 ==> taken[i] in Below(old(vm.free), vm.cr3)
    ensures vm.cr3 !in vm.free
  {
    hide Below;
    taken := [];
    while true
      invariant vm.free <= old(vm.free) && vm.cr3 in vm.free
      invariant |taken| + |Below(vm.free, vm.cr3)| == |Below(old(vm.free), vm.cr3)|
      invariant forall g :: g in Below(vm.free, vm.cr3) ==> g in Below(old(vm.free), vm.cr3)
      invariant forall i :: 0 <= i < |taken| ==> taken[i] in Below(old(vm.free), vm.cr3)
      decreases vm.free
    {
      ghost var free1 := vm.free;
      var f := vm.AllocateFrame();
      BelowStep(free1, vm.cr3, f);
      taken := taken + [f];
      if f == vm.cr3 {
        return;
      }
    }
  }

  /** Whoever gets the frame clears it, and then nothing is mapped any more, the kernel
      included. */
  lemma ClearedDirectory(ram: Ram, d: int, v: int)
    requires forall i :: Get(ram, d, i) == 0
    ensures Lookup(ram, d, v) == None
  {
    hide Get;
  }

  /** A process that exits while no other process has a thread ready: the kernel goes on in
      the directory it has just freed, and the allocator then hands that frame out. */
  method ExitToKernelThread(k: Kernel, pages: seq<seq<int>>) returns (p: Process, taken: seq<int>)
    requires k.Valid() && k.Creatable(pages) && pages != [] && !k.table.NoStackAddress() && k.table.Room(3, 1)
    modifies k, k.table, k.vm
    ensures k.vm.cr3 == p.cr3 && |taken| > 0 && taken[|taken| - 1] == p.cr3
    ensures k.procs == old(k.procs) && k.running == None
  {
    hide Inv, KernelView, Lookup, Owned, Pooled, Processes.ProcessTable.NoStackAddress;
    var out := k.Create(pages);
    p := out.p;
    k.ScheduleNext(ThreadOf(p.cr3));
    k.Exit(KernelThread);
    taken := ReuseDirectory(k.vm);
  }

  // ---------------------------------------------------------------------
  // Shared frames and devices
  // ---------------------------------------------------------------------

  /** DeleteProcess frees no frame another live space shows if and only if that space
      shows none of the managed frames the process itself shows.  A section mapped into
      two processes breaks it (sys/iomgr/section.c:72). */
  lemma DeleteIsolationExactly(ram: Ram, ram': Ram, free: set<int>, free': set<int>, sp: Spaces, p: Process, e: int,
                               highest: int)
    requires Inv(ram, free, sp) && sp.Live(p.cr3) && sp.Live(e) && e != p.cr3
    requires forall v, f :: Shows(ram, e, v, f) ==> f !in free && f !in sp.roles && f !in p.kstack
    requires SameOthers(ram, ram', Unregister(sp, p.cr3))
    requires free' == free + set f | f in SlotFrames(ram, p.cr3, 768) + p.kstack + [p.cr3] && Given(f, highest)
    ensures (forall v, f :: Shows(ram', e, v, f) ==> f !in free') <==>
            (forall u, v, f :: Given(f, highest) && Shows(ram, p.cr3, u, f) ==> !Shows(ram, e, v, f))
  {
    hide Inv, Lookup, SlotFrames;
    UnregisterLess(sp, p.cr3);
    assert forall v, f :: Shows(ram', e, v, f) <==> Shows(ram, e, v, f) by {
      assert forall v :: UserPage(v) ==> Ordinary(v);
    }
    forall v, f | Shows(ram, e, v, f)
      ensures f in free' <==> Given(f, highest) && exists u :: Shows(ram, p.cr3, u, f)
    {
      UserHalfFrames(ram, free, sp, p.cr3, f);
    }
  }

  /** DeleteProcess returns only frames of the pool if and only if every managed frame the
      process shows is one of them.  DEVICE_MAP of a device inside the managed range breaks it
      (sys/syscall/object.c:127). */
  lemma DeletePoolExactly(ram: Ram, free: set<int>, free': set<int>, sp: Spaces, pool: set<int>, p: Process,
                          highest: int)
    requires Inv(ram, free, sp) && sp.Live(p.cr3) && free <= pool && p.cr3 in pool
    requires forall f :: f in p.kstack ==> f in pool
    requires forall f :: f in sp.roles && sp.roles[f].UserTable? ==> f in pool
    requires free' == free + set f | f in SlotFrames(ram, p.cr3, 768) + p.kstack + [p.cr3] && Given(f, highest)
    ensures free' <= pool <==> forall v, f :: Given(f, highest) && Shows(ram, p.cr3, v, f) ==> f in pool
  {
    hide Inv, Lookup, SlotFrames;
    forall f | Given(f, highest) && f in SlotFrames(ram, p.cr3, 768) && f !in pool
      ensures exists v :: Shows(ram, p.cr3, v, f)
    {
      UserHalfFrames(ram, free, sp, p.cr3, f);
    }
    forall v, f | Given(f, highest) && Shows(ram, p.cr3, v, f) ensures f in free' {
      UserHalfFrames(ram, free, sp, p.cr3, f);
    }
  }

  /** Mapping one of its frames elsewhere does not change what process `p` may be asked. */
  lemma SharedPrivate(ram: Ram, ram': Ram, free: set<int>, sp: Spaces, sp': Spaces, owner: map<int, int>, p: Process)
    requires Owned(ram, free, sp, owner) && sp.Live(p.cr3) && |p.kstack| == 2
    requires forall i :: 0 <= i < 2 ==> p.kstack[i] in owner
    requires forall u :: UserPage(u) ==> Lookup(ram', p.cr3, u) == Lookup(ram, p.cr3, u)
    requires forall g :: g in sp'.roles ==> g in sp.roles || g in free
    ensures Private(ram', sp', p)
  {
    hide Lookup;
    var x, y := p.kstack[0], p.kstack[1];
    assert x in owner && y in owner;
    forall v, f | Shows(ram', p.cr3, v, f) ensures f !in sp'.roles { assert Shows(ram, p.cr3, v, f); }
    ShownPrivate(ram', sp', p);
  }

  /** What the deletion of `p` makes of a frame space `e` shows too. */
  lemma SharedFreed(ram: Ram, ram': Ram, free: set<int>, free': set<int>, sp: Spaces, p: Process, e: int, highest: int,
                    u: int, v: int, f: int)
    requires Inv(ram, free, sp) && sp.Live(p.cr3) && sp.Live(e) && e != p.cr3
    requires SameOthers(ram, ram', Unregister(sp, p.cr3))
    requires free' == free + set g | g in SlotFrames(ram, p.cr3, 768) + p.kstack + [p.cr3] && Given(g, highest)
    requires Shows(ram, p.cr3, u, f) && Shows(ram, e, v, f) && Given(f, highest)
    ensures Shows(ram', e, v, f) && f in free'
  {
    hide Inv, Lookup, SlotFrames;
    UnregisterLess(sp, p.cr3);
    UserHalfFrames(ram, free, sp, p.cr3, f);
    assert Ordinary(v);
  }

  /** A frame of process `d` mapped into the space in use as well, as MapSection does for a
      frame the section already has; then `d` goes away and the frame is free although it is
      still mapped. */
  method ShareThenDelete(k: Kernel, d: int, u: int, v: int, f: int)
    requires k.Valid() && d in k.procs && k.vm.cr3 != d && k.Loaded()
    requires Shows(k.vm.ram, d, u, f) && k.vm.Managed(f) && 0 < v < 768 * 1024 && k.vm.PageMap(v).None?
    requires !NoHighFrame(k.vm.free)
    modifies k.table, k.vm
    ensures Inv(k.vm.ram, k.vm.free, k.vm.sp) && k.vm.sp.Live(k.vm.cr3) && k.vm.cr3 == old(k.vm.cr3)
    ensures Shows(k.vm.ram, k.vm.cr3, v, f) && f in k.vm.free
  {
    hide Inv, KernelView, Lookup, Get, Entry, FrameOf, Present, OnlyPage, Granted, Revoked, Owned, Pooled, SlotFrames,
         Private,
         Unregister, FreeSlots;
    var vm, table, p := k.vm, k.table, k.procs[d];
    ghost var ram0, free0, sp0 := vm.ram, vm.free, vm.sp;
    k.TableValid();
    SpareSlots(table.tmpmap);
    var status := vm.MapSinglePage(f * 4096, v * 4096, USER_FLAGS);
    UserOnly(ram0, vm.ram, sp0, vm.cr3, v, Some(Entry(f, USER_FLAGS)));
    SharedPrivate(ram0, vm.ram, free0, sp0, vm.sp, k.owner, p);
    MappedShows(vm.ram, vm.cr3, v, f);
    ghost var ram1, free1, sp1 := vm.ram, vm.free, vm.sp;
    assert Shows(ram1, d, u, f) by { assert Lookup(ram1, d, u) == Lookup(ram0, d, u); }
    var panic, freed := table.DeleteProcess(p);
    if panic { assert false; }
    UnregisterLess(sp1, d);
    SharedFreed(ram1, vm.ram, free1, vm.free, sp1, p, vm.cr3, vm.highest, u, v, f);
  }

  lemma MappedShows(ram: Ram, d: int, v: int, f: int)
    requires UserPage(v) && f >= 0 && Lookup(ram, d, v) == Some(Entry(f, USER_FLAGS))
    ensures Shows(ram, d, v, f)
  {
    hide Lookup;
  }
}
