/** Two-level IA-32 page tables ("32-Bit Paging" in Intel SDM volume 3A) as
    DragonWare lays them out (sys/ddk/ia32/vmm.c, vmm.h): the last entry of every
    page directory names the directory itself, and the entries from 768 up to it
    are shared by all address spaces.

    A frame or page is its number (address / 4096); a word of physical memory is
    addressed by frame and index. */
module PageTables {
  import opened Wrappers

  const ENTRIES: int := 1024
  const KERNEL_PD_INDEX: int := 768
  const RECURSIVE: int := 1023
  const PAGE_TABLE_BASE: int := 0xFFC0_0000
  const CURRENT_PAGE_DIRECTORY: int := 0xFFFF_F000

  const PAGE_RW: int := 2
  const PAGE_USER: int := 4
  const KERNEL_PDE_FLAGS: int := 3   // PAGE_PRESENT | PAGE_RW

  // ---------------------------------------------------------------------
  // Physical memory
  // ---------------------------------------------------------------------

  type Ram = map<(int, int), int>

  function Get(ram: Ram, f: int, i: int): int
  {
    if (f, i) in ram then ram[(f, i)] else 0
  }

  function Put(ram: Ram, f: int, i: int, w: int): Ram { ram[(f, i) := w] }

  /** kzeromem of one whole frame. */
  function ZeroFrame(ram: Ram, f: int): (r: Ram)
    ensures forall e, i :: Get(r, e, i) == if e == f then 0 else Get(ram, e, i)
  {
    map k | k in ram && k.0 != f :: ram[k]
  }

  // ---------------------------------------------------------------------
  // Entries and the hardware walk
  // ---------------------------------------------------------------------

  predicate Present(w: int) { w % 2 == 1 }

  function FrameOf(w: int): int { w / 4096 }

  /** `phys | flags` for a frame and twelve attribute bits. */
  function Entry(f: int, flags: int): (w: int)
    requires 0 <= flags < 4096
    ensures FrameOf(w) == f && (Present(w) <==> flags % 2 == 1)
  {
    f * 4096 + flags
  }

  /** The page-table entry the processor finds for page `v` from directory `d`. */
  function Lookup(ram: Ram, d: int, v: int): Option<int>
  {
    var pde := Get(ram, d, v / 1024);
    if !Present(pde) then None
    else
      var pte := Get(ram, FrameOf(pde), v % 1024);
      if Present(pte) then Some(pte) else None
  }

  /** The frame and index behind a virtual address. */
  predicate Mapped(ram: Ram, d: int, va: int) { Lookup(ram, d, va / 4096).Some? }

  function Load(ram: Ram, d: int, va: int): int
    requires Mapped(ram, d, va)
  {
    Get(ram, FrameOf(Lookup(ram, d, va / 4096).value), va % 4096 / 4)
  }

  function Store(ram: Ram, d: int, va: int, w: int): Ram
    requires Mapped(ram, d, va)
  {
    Put(ram, FrameOf(Lookup(ram, d, va / 4096).value), va % 4096 / 4, w)
  }

  function ZeroPage(ram: Ram, d: int, va: int): Ram
    requires Mapped(ram, d, va)
  {
    ZeroFrame(ram, FrameOf(Lookup(ram, d, va / 4096).value))
  }

  // ---------------------------------------------------------------------
  // Address spaces
  // ---------------------------------------------------------------------

  /** What a frame holding paging structures is. */
  datatype Role = Directory | KernelTable(index: int) | UserTable(dir: int, slot: int)

  /** The paging structures of a system: every frame that is one, and the table
      behind each shared directory slot. */
  datatype Spaces = Spaces(roles: map<int, Role>, ktab: map<int, int>)
  {
    ghost predicate Live(d: int) { d in roles && roles[d] == Directory }
  }

  /** `sp'` has the same address spaces and kernel tables, and may have more
      user tables. */
  ghost predicate SameSystem(sp: Spaces, sp': Spaces)
  {
    && sp'.ktab == sp.ktab
    && (forall f :: f in sp.roles ==> f in sp'.roles && sp'.roles[f] == sp.roles[f])
    && (forall d :: sp'.Live(d) ==> sp.Live(d))
  }

  predicate KernelSlot(i: int) { KERNEL_PD_INDEX <= i < RECURSIVE }
  predicate UserSlot(i: int) { 0 <= i < KERNEL_PD_INDEX }

  ghost predicate KernelTables(sp: Spaces)
  {
    forall i :: KernelSlot(i) ==>
      i in sp.ktab && sp.ktab[i] in sp.roles && sp.roles[sp.ktab[i]] == KernelTable(i)
  }

  ghost predicate RecursiveSlot(ram: Ram, d: int)
  {
    Get(ram, d, RECURSIVE) == Entry(d, KERNEL_PDE_FLAGS)
  }

  ghost predicate SharedSlots(ram: Ram, sp: Spaces, d: int)
  {
    forall i :: KernelSlot(i) && i in sp.ktab ==> Get(ram, d, i) == Entry(sp.ktab[i], KERNEL_PDE_FLAGS)
  }

  ghost predicate OwnTables(ram: Ram, sp: Spaces, d: int)
  {
    forall i :: UserSlot(i) && Present(Get(ram, d, i)) ==>
      var t := FrameOf(Get(ram, d, i));
      t in sp.roles && sp.roles[t] == UserTable(d, i)
  }

  /** An address space as InitVirtualMemoryManager and CreateProcess build it. */
  ghost predicate SpaceOk(ram: Ram, sp: Spaces, d: int)
  {
    RecursiveSlot(ram, d) && SharedSlots(ram, sp, d) && OwnTables(ram, sp, d)
  }

  /** The kernel half as seen from `d`.  A directory keeps it even while its
      process is being torn down, which is what lets the kernel keep running on
      the directory of an exiting process. */
  ghost predicate KernelView(ram: Ram, sp: Spaces, d: int)
  {
    RecursiveSlot(ram, d) && SharedSlots(ram, sp, d) && (d in sp.roles ==> sp.roles[d] == Directory)
  }

  ghost predicate Inv(ram: Ram, free: set<int>, sp: Spaces)
  {
    && KernelTables(sp)
    && (forall d :: sp.Live(d) ==> SpaceOk(ram, sp, d))
    && (forall f :: f in free ==> f !in sp.roles && f > 0)
    && (forall f :: f in sp.roles ==> f > 0)
  }

  // ---------------------------------------------------------------------
  // The recursive slot
  // ---------------------------------------------------------------------

  /** Address `va` is word `j` of page `i` of the window at the top. */
  predicate InWindow(va: int, i: int, j: int)
  {
    && 0 <= i < ENTRIES && 0 <= j < ENTRIES
    && va / 4096 / 1024 == 1023 && va / 4096 % 1024 == i && va % 4096 / 4 == j
  }

  /** The address of GetPageTableAt(i)[j]. */
  lemma WindowAddress(i: int, j: int)
    requires 0 <= i < ENTRIES && 0 <= j < ENTRIES
    ensures InWindow(PAGE_TABLE_BASE + 4096 * i + 4 * j, i, j)
  {}

  /** That address reaches word `j` of the table that directory entry `i` names: the
      window shows every page table, and its last page the directory itself. */
  lemma RecursiveWindow(ram: Ram, d: int, i: int, j: int, va: int)
    requires RecursiveSlot(ram, d) && InWindow(va, i, j)
    ensures Mapped(ram, d, va) <==> Present(Get(ram, d, i))
    ensures Present(Get(ram, d, i)) ==>
              && Load(ram, d, va) == Get(ram, FrameOf(Get(ram, d, i)), j)
              && ZeroPage(ram, d, va) == ZeroFrame(ram, FrameOf(Get(ram, d, i)))
              && forall w :: Store(ram, d, va, w) == Put(ram, FrameOf(Get(ram, d, i)), j, w)
  {}

  /** CURRENT_PAGE_DIRECTORY[j] is entry `j` of the directory in use. */
  lemma DirectoryWindow(ram: Ram, d: int, j: int)
    requires RecursiveSlot(ram, d) && 0 <= j < ENTRIES
    ensures var va := CURRENT_PAGE_DIRECTORY + 4 * j;
            && Mapped(ram, d, va)
            && Load(ram, d, va) == Get(ram, d, j)
            && forall w :: Store(ram, d, va, w) == Put(ram, d, j, w)
  {
    WindowAddress(RECURSIVE, j);
    RecursiveWindow(ram, d, RECURSIVE, j, CURRENT_PAGE_DIRECTORY + 4 * j);
  }

  // ---------------------------------------------------------------------
  // Edits of a table seen as edits of a flat page map
  // ---------------------------------------------------------------------

  /** The table frame behind page `v`, when its directory slot is in use. */
  function TableOf(ram: Ram, d: int, v: int): int { FrameOf(Get(ram, d, v / 1024)) }

  /** Pages outside the recursive window. */
  predicate Ordinary(v: int) { 0 <= v < 1023 * 1024 }

  predicate KernelPage(v: int) { 768 * 1024 <= v < 1023 * 1024 }

  /** Between `ram` and `ram'` page `v` got entry `w` in space `d`, and in every
      space if it is a kernel page; no other translation changed. */
  ghost predicate OnlyPage(ram: Ram, ram': Ram, sp: Spaces, d: int, v: int, w: Option<int>)
  {
    && (forall e, u :: sp.Live(e) && Ordinary(u) && u != v ==> Lookup(ram', e, u) == Lookup(ram, e, u))
    && (forall e :: e == d || (sp.Live(e) && KernelPage(v)) ==> Lookup(ram', e, v) == w)
    && (forall e :: sp.Live(e) && e != d && !KernelPage(v) ==> Lookup(ram', e, v) == Lookup(ram, e, v))
    && (forall u :: KernelPage(u) && u != v ==> Lookup(ram', d, u) == Lookup(ram, d, u))
  }

  lemma GetPut(ram: Ram, f: int, i: int, w: int, e: int, j: int)
    ensures Get(Put(ram, f, i, w), e, j) == if e == f && j == i then w else Get(ram, e, j)
  {}

  /** `t` is the table behind slot `i` of space `d`. */
  ghost predicate IsTable(sp: Spaces, t: int, d: int, i: int)
  {
    && t in sp.roles
    && sp.roles[t] == (if KernelSlot(i) then KernelTable(i) else UserTable(d, i))
    && (KernelSlot(i) ==> i in sp.ktab && sp.ktab[i] == t)
  }

  /** Changing frames that are no directory keeps every address space. */
  lemma SpacesKeep(ram: Ram, ram': Ram, free: set<int>, sp: Spaces)
    requires Inv(ram, free, sp)
    requires forall e, i :: sp.Live(e) ==> Get(ram', e, i) == Get(ram, e, i)
    ensures Inv(ram', free, sp)
  {
    hide Get;
    forall d | sp.Live(d) ensures SpaceOk(ram', sp, d) { assert SpaceOk(ram, sp, d); }
  }

  lemma LiveView(ram: Ram, free: set<int>, sp: Spaces, d: int)
    requires Inv(ram, free, sp) && sp.Live(d)
    ensures KernelView(ram, sp, d)
  {
    assert SpaceOk(ram, sp, d);
  }

  /** Kernel directory entries are the same wherever the kernel half is seen. */
  lemma SharedEntry(ram: Ram, free: set<int>, sp: Spaces, d: int, i: int)
    requires Inv(ram, free, sp) && KernelView(ram, sp, d) && KernelSlot(i)
    ensures i in sp.ktab && Get(ram, d, i) == Entry(sp.ktab[i], KERNEL_PDE_FLAGS)
    ensures Present(Get(ram, d, i)) && FrameOf(Get(ram, d, i)) == sp.ktab[i]
    ensures IsTable(sp, sp.ktab[i], d, i)
  {
    hide Get;
    assert i in sp.ktab;
  }

  /** A present slot of a live space names a table of that space. */
  lemma SlotTable(ram: Ram, free: set<int>, sp: Spaces, e: int, i: int)
    requires Inv(ram, free, sp) && sp.Live(e) && 0 <= i < RECURSIVE && Present(Get(ram, e, i))
    ensures IsTable(sp, FrameOf(Get(ram, e, i)), e, i)
  {
    hide Get, Present, FrameOf;
    assert SpaceOk(ram, sp, e);
    if KernelSlot(i) { LiveView(ram, free, sp, e); SharedEntry(ram, free, sp, e, i); } else { assert UserSlot(i); }
  }

  /** Writing one entry of a table changes one page: of its own space when it is
      a user table, of every space alike when it is a kernel table. */
  lemma PutEntry(ram: Ram, free: set<int>, sp: Spaces, d: int, v: int, w: int)
    requires Inv(ram, free, sp) && KernelView(ram, sp, d) && Ordinary(v)
    requires sp.Live(d) || KernelPage(v)
    requires Present(Get(ram, d, v / 1024))
    ensures var ram' := Put(ram, TableOf(ram, d, v), v % 1024, w);
            && Inv(ram', free, sp) && KernelView(ram', sp, d)
            && OnlyPage(ram, ram', sp, d, v, if Present(w) then Some(w) else None)
            && forall e, j :: sp.Live(e) || e == d ==> Get(ram', e, j) == Get(ram, e, j)
  {
    hide Inv;
    var t, ram' := TableOf(ram, d, v), Put(ram, TableOf(ram, d, v), v % 1024, w);
    assert IsTable(sp, t, d, v / 1024) by {
      if KernelPage(v) { SharedEntry(ram, free, sp, d, v / 1024); }
      else { SlotTable(ram, free, sp, d, v / 1024); }
    }
    assert t != d;
    hide KernelView;
    ViewKeeps(ram, ram', sp, d, t);
    SpacesKeep(ram, ram', free, sp);
    forall e, u | sp.Live(e) && Ordinary(u) && (u != v || (e != d && !KernelPage(v)))
      ensures Lookup(ram', e, u) == Lookup(ram, e, u)
    {
      if Present(Get(ram, e, u / 1024)) { SlotTable(ram, free, sp, e, u / 1024); }
    }
    PutEntryAt(ram, free, sp, d, v, w);
    PutEntryKernel(ram, free, sp, d, v, w);
  }

  lemma ViewKeeps(ram: Ram, ram': Ram, sp: Spaces, d: int, t: int)
    requires KernelView(ram, sp, d) && t in sp.roles && sp.roles[t] != Directory
    requires forall e, i :: e != t ==> Get(ram', e, i) == Get(ram, e, i)
    ensures KernelView(ram', sp, d)
  {
    hide Get;
  }

  lemma PutEntryAt(ram: Ram, free: set<int>, sp: Spaces, d: int, v: int, w: int)
    requires Inv(ram, free, sp) && KernelView(ram, sp, d) && Ordinary(v)
    requires sp.Live(d) || KernelPage(v)
    requires Present(Get(ram, d, v / 1024))
    requires IsTable(sp, TableOf(ram, d, v), d, v / 1024)
    ensures var ram' := Put(ram, TableOf(ram, d, v), v % 1024, w);
            forall e :: e == d || (sp.Live(e) && KernelPage(v)) ==>
              Lookup(ram', e, v) == if Present(w) then Some(w) else None
  {
    hide Inv;
    var ram' := Put(ram, TableOf(ram, d, v), v % 1024, w);
    forall e | e == d || (sp.Live(e) && KernelPage(v))
      ensures Lookup(ram', e, v) == if Present(w) then Some(w) else None
    {
      if KernelPage(v) {
        if sp.Live(e) { LiveView(ram, free, sp, e); }
        SharedEntry(ram, free, sp, e, v / 1024);
        SharedEntry(ram, free, sp, d, v / 1024);
      }
    }
  }

  lemma PutEntryKernel(ram: Ram, free: set<int>, sp: Spaces, d: int, v: int, w: int)
    requires Inv(ram, free, sp) && KernelView(ram, sp, d) && Ordinary(v)
    requires IsTable(sp, TableOf(ram, d, v), d, v / 1024)
    ensures var ram' := Put(ram, TableOf(ram, d, v), v % 1024, w);
            forall u :: KernelPage(u) && u != v ==> Lookup(ram', d, u) == Lookup(ram, d, u)
  {
    hide Inv;
    var ram' := Put(ram, TableOf(ram, d, v), v % 1024, w);
    forall u | KernelPage(u) && u != v ensures Lookup(ram', d, u) == Lookup(ram, d, u) {
      SharedEntry(ram, free, sp, d, u / 1024);
    }
  }

  /** A fresh zeroed frame becomes the table of an empty user slot: no
      translation changes. */
  lemma AddTable(ram: Ram, free: set<int>, sp: Spaces, d: int, i: int, f: int, flags: int)
    requires Inv(ram, free, sp) && sp.Live(d) && UserSlot(i) && !Present(Get(ram, d, i))
    requires f in free && 0 <= flags < 4096 && flags % 2 == 1
    ensures var ram' := ZeroFrame(Put(ram, d, i, Entry(f, flags)), f);
            var sp' := sp.(roles := sp.roles[f := UserTable(d, i)]);
            && Inv(ram', free - {f}, sp')
            && (forall e, j :: sp.Live(e) && (e != d || j != i) ==> Get(ram', e, j) == Get(ram, e, j))
            && (forall e, u :: sp.Live(e) && Ordinary(u) ==> Lookup(ram', e, u) == Lookup(ram, e, u))
            && Get(ram', d, i) == Entry(f, flags) && (forall j :: Get(ram', f, j) == 0)
            && (forall e :: sp'.Live(e) <==> sp.Live(e))
  {
    hide Entry;
    var ram1 := Put(ram, d, i, Entry(f, flags));
    var ram' := ZeroFrame(ram1, f);
    var sp' := sp.(roles := sp.roles[f := UserTable(d, i)]);
    assert f !in sp.roles;
    forall e, j
      ensures Get(ram', e, j) == if e == f then 0 else if e == d && j == i then Entry(f, flags) else Get(ram, e, j)
    {
      GetPut(ram, d, i, Entry(f, flags), e, j);
    }
    hide Get, Put, ZeroFrame;
    AddTableInv(ram, ram', free, sp, d, i, f, flags);
    hide Inv;
    forall e, u | sp.Live(e) && Ordinary(u) ensures Lookup(ram', e, u) == Lookup(ram, e, u) {
      if Present(Get(ram, e, u / 1024)) { SlotTable(ram, free, sp, e, u / 1024); }
    }
  }

  lemma AddTableInv(ram: Ram, ram': Ram, free: set<int>, sp: Spaces, d: int, i: int, f: int, flags: int)
    requires Inv(ram, free, sp) && sp.Live(d) && UserSlot(i) && f in free
    requires 0 <= flags < 4096 && flags % 2 == 1
    requires forall e, j :: Get(ram', e, j) ==
               if e == f then 0 else if e == d && j == i then Entry(f, flags) else Get(ram, e, j)
    ensures Inv(ram', free - {f}, sp.(roles := sp.roles[f := UserTable(d, i)]))
  {
    hide Get;
    var sp' := sp.(roles := sp.roles[f := UserTable(d, i)]);
    forall e | sp'.Live(e) ensures SpaceOk(ram', sp', e) {
      assert sp.Live(e) && SpaceOk(ram, sp, e);
    }
  }

  /** Kernel pages translate identically in every address space. */
  lemma KernelPagesShared(ram: Ram, free: set<int>, sp: Spaces, d: int, e: int, u: int)
    requires Inv(ram, free, sp) && KernelView(ram, sp, d) && KernelView(ram, sp, e) && KernelPage(u)
    ensures Lookup(ram, d, u) == Lookup(ram, e, u)
    ensures Get(ram, d, u / 1024) == Get(ram, e, u / 1024)
  {
    hide Inv, KernelView;
    SharedEntry(ram, free, sp, d, u / 1024);
    SharedEntry(ram, free, sp, e, u / 1024);
  }

  /** Writing a frame that is no paging structure changes no translation. */
  lemma DataWrite(ram: Ram, ram': Ram, free: set<int>, sp: Spaces, d: int, f: int)
    requires Inv(ram, free, sp) && KernelView(ram, sp, d)
    requires f !in sp.roles && f != d
    requires forall e, i :: e != f ==> Get(ram', e, i) == Get(ram, e, i)
    ensures Inv(ram', free, sp) && KernelView(ram', sp, d)
    ensures forall e, u :: sp.Live(e) && Ordinary(u) ==> Lookup(ram', e, u) == Lookup(ram, e, u)
    ensures forall u :: KernelPage(u) ==> Lookup(ram', d, u) == Lookup(ram, d, u)
  {
    hide Get, Inv;
    assert KernelView(ram', sp, d);
    SpacesKeep(ram, ram', free, sp);
    forall e, u | sp.Live(e) && Ordinary(u) ensures Lookup(ram', e, u) == Lookup(ram, e, u) {
      if Present(Get(ram, e, u / 1024)) { SlotTable(ram, free, sp, e, u / 1024); }
    }
    forall u | KernelPage(u) ensures Lookup(ram', d, u) == Lookup(ram, d, u) {
      SharedEntry(ram, free, sp, d, u / 1024);
    }
  }

  /** A load or store through page `v` reaches the frame the page maps. */
  lemma PageAccess(ram: Ram, d: int, v: int, i: int, w: int)
    requires Lookup(ram, d, v).Some? && 0 <= i < 1024
    ensures var va := v * 4096 + 4 * i;
            var f := FrameOf(Lookup(ram, d, v).value);
            Mapped(ram, d, va) && Load(ram, d, va) == Get(ram, f, i) && Store(ram, d, va, w) == Put(ram, f, i, w)
            && ZeroPage(ram, d, v * 4096) == ZeroFrame(ram, f)
  {
    var va := v * 4096 + 4 * i;
    assert va / 4096 == v && va % 4096 == 4 * i;
  }

  // ---------------------------------------------------------------------
  // Access rights
  // ---------------------------------------------------------------------

  /** Bit `b` of an entry. */
  predicate Has(w: int, b: int)
    requires b > 0
  {
    w / b % 2 == 1
  }

  predicate RightBit(b: int) { b == PAGE_USER || b == PAGE_RW }

  /** What the walk permits at page `v`: an access by user code (PAGE_USER) or a write (PAGE_RW)
      needs the bit in both entries ("Determination of Access Rights" in Intel SDM volume 3A). */
  predicate Grants(ram: Ram, d: int, v: int, b: int)
    requires b > 0
  {
    var pde := Get(ram, d, v / 1024);
    var pte := Get(ram, FrameOf(pde), v % 1024);
    Present(pde) && Has(pde, b) && Present(pte) && Has(pte, b)
  }

  /** No right changed but, at most, that of page `v` of space `d`, in every space if it is a
      kernel page. */
  ghost predicate OnlyRight(ram: Ram, ram': Ram, sp: Spaces, d: int, v: int, b: int)
    requires b > 0
  {
    && (forall e, u :: sp.Live(e) && Ordinary(u) && (u != v || (e != d && !KernelPage(v))) ==>
          (Grants(ram', e, u, b) <==> Grants(ram, e, u, b)))
    && (forall u :: KernelPage(u) && u != v ==> (Grants(ram', d, u, b) <==> Grants(ram, d, u, b)))
  }

  /** Page `v` is granted the right exactly when `w` is. */
  ghost predicate RightIs(ram: Ram, ram': Ram, sp: Spaces, d: int, v: int, b: int, w: bool)
    requires b > 0
  {
    && OnlyRight(ram, ram', sp, d, v, b)
    && forall e :: e == d || (sp.Live(e) && KernelPage(v)) ==> (Grants(ram', e, v, b) <==> w)
  }

  /** Page `v` has been mapped with `flags`: a right is granted exactly when the flags grant it
      and the directory entry, if there was one already, does too.  An entry that was there stays
      as it was, a new one is open to user code exactly when the flags are. */
  ghost predicate Granted(ram: Ram, ram': Ram, sp: Spaces, d: int, v: int, flags: int)
  {
    var pde, pde' := Get(ram, d, v / 1024), Get(ram', d, v / 1024);
    && (if Present(pde) then pde' == pde
        else Present(pde') && Has(pde', PAGE_RW) && (Has(pde', PAGE_USER) <==> Has(flags, PAGE_USER)))
    && forall b :: RightBit(b) ==>
         RightIs(ram, ram', sp, d, v, b, flags % 2 == 1 && Has(flags, b) && (!Present(pde) || Has(pde, b)))
  }

  /** Page `v` has been unmapped. */
  ghost predicate Revoked(ram: Ram, ram': Ram, sp: Spaces, d: int, v: int)
  {
    forall b :: RightBit(b) ==> RightIs(ram, ram', sp, d, v, b, false)
  }

  lemma EntryHas(f: int, flags: int, b: int)
    requires 0 <= flags < 4096 && RightBit(b)
    ensures Has(Entry(f, flags), b) <==> Has(flags, b)
  {
    hide Has, Entry;
    EntryUser(f, flags);
    EntryWrite(f, flags);
  }

  lemma EntryUser(f: int, flags: int)
    requires 0 <= flags < 4096
    ensures Has(Entry(f, flags), 4) <==> Has(flags, 4)
  {
    assert Entry(f, flags) / 4 == 1024 * f + flags / 4;
  }

  lemma EntryWrite(f: int, flags: int)
    requires 0 <= flags < 4096
    ensures Has(Entry(f, flags), 2) <==> Has(flags, 2)
  {
    assert Entry(f, flags) / 2 == 2048 * f + flags / 2;
  }

  lemma GrantsIs(ram: Ram, d: int, v: int, b: int)
    requires b > 0
    ensures Grants(ram, d, v, b) <==>
            Lookup(ram, d, v).Some? && Has(Get(ram, d, v / 1024), b) && Has(Lookup(ram, d, v).value, b)
  {}

  /** The directory entries are the same, but the one behind page `v` of `d` if it was absent. */
  ghost predicate SameSlots(ram: Ram, ram': Ram, sp: Spaces, d: int, i: int)
  {
    && (forall e, j :: sp.Live(e) && (e != d || j != i) ==> Get(ram', e, j) == Get(ram, e, j))
    && (Present(Get(ram, d, i)) ==> Get(ram', d, i) == Get(ram, d, i))
  }

  /** What happens to the rights when one page gets entry `w`. */
  lemma RightsFollow(ram: Ram, ram': Ram, free: set<int>, sp: Spaces, d: int, v: int, b: int, w: Option<int>)
    requires Inv(ram, free, sp) && KernelView(ram, sp, d) && KernelView(ram', sp, d) && Ordinary(v) && RightBit(b)
    requires OnlyPage(ram, ram', sp, d, v, w) && SameSlots(ram, ram', sp, d, v / 1024) && (sp.Live(d) || KernelPage(v))
    ensures RightIs(ram, ram', sp, d, v, b, w.Some? && Has(w.value, b) && Has(Get(ram', d, v / 1024), b))
  {
    hide Inv, Get, Lookup, Has, Grants;
    forall e, u | sp.Live(e) && Ordinary(u) && (u != v || (e != d && !KernelPage(v)))
      ensures Grants(ram', e, u, b) <==> Grants(ram, e, u, b)
    {
      GrantsIs(ram, e, u, b);
      GrantsIs(ram', e, u, b);
      AbsentSlot(ram, e, u);
    }
    forall u | KernelPage(u) && u != v ensures Grants(ram', d, u, b) <==> Grants(ram, d, u, b) {
      GrantsIs(ram, d, u, b);
      GrantsIs(ram', d, u, b);
      KernelSlotSame(ram, ram', free, sp, d, d, u / 1024);
    }
    forall e | e == d || (sp.Live(e) && KernelPage(v))
      ensures Grants(ram', e, v, b) <==> w.Some? && Has(w.value, b) && Has(Get(ram', d, v / 1024), b)
    {
      GrantsIs(ram', e, v, b);
      if e != d {
        LiveView(ram, free, sp, e);
        KernelSlotSame(ram, ram', free, sp, d, e, v / 1024);
      }
    }
  }

  lemma AbsentSlot(ram: Ram, d: int, v: int)
    ensures Lookup(ram, d, v).Some? ==> Present(Get(ram, d, v / 1024))
  {}

  lemma KernelSlotSame(ram: Ram, ram': Ram, free: set<int>, sp: Spaces, d: int, e: int, i: int)
    requires Inv(ram, free, sp) && KernelView(ram, sp, d) && KernelView(ram', sp, d) && KernelSlot(i)
    requires KernelView(ram, sp, e)
    ensures Get(ram', d, i) == Get(ram, d, i) == Get(ram, e, i)
  {
    hide Get;
    SharedEntry(ram, free, sp, d, i);
    SharedEntry(ram, free, sp, e, i);
  }

  /** The upper gigabyte is closed to user code: no kernel page and no page of the window on the
      tables grants it anything, in any space. */
  lemma KernelClosed(ram: Ram, free: set<int>, sp: Spaces, d: int, v: int)
    requires Inv(ram, free, sp) && KernelView(ram, sp, d) && 768 * 1024 <= v < 1024 * 1024
    ensures !Grants(ram, d, v, PAGE_USER)
  {
    hide Inv;
    if v / 1024 == RECURSIVE {
      EntryHas(d, KERNEL_PDE_FLAGS, PAGE_USER);
    } else {
      SharedEntry(ram, free, sp, d, v / 1024);
      EntryHas(sp.ktab[v / 1024], KERNEL_PDE_FLAGS, PAGE_USER);
    }
  }
}
