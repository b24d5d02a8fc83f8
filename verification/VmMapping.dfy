/** ept_pmap (vms/pm/main.c): the guest page tables and the EPT of a VM, and what an
    address of the VM finally translates to. */
module VmMapping {
  import opened BlockList
  import opened PageAllocator
  import opened PageWalk
  import opened Pmap
  import opened VmLayout

  const PAGE_PCD: Flags := 0x010

  /** The entry flags of the guest tables: uncached below 2MB and from the APIC area on. */
  function GuestFlags(w: nat): Flags {
    if w < 0x200 || w >= 0xF_EC00 then PAGE_PRESENT | PAGE_RW | PAGE_PCD | PAGE_PSE
    else PAGE_PRESENT | PAGE_RW | PAGE_PSE
  }

  /** The guest tables map the lowest 4GB to themselves and nothing else. */
  ghost predicate GuestIdentity(mem: Heap, pml4: nat) {
    forall w: nat | w < 0x10_0000_0000 ::
      Walk(mem, PAGING_PRESENT, pml4, 4, w) ==
      if w < 0x10_0000 then Through(PageAt(PAGING_PRESENT, w, GuestFlags(w)), PAGING_LINK) else Fault
  }

  /** A tree built from nothing, entirely below 4GB, from pages of the level-l size. */
  ghost predicate Built(mem: Heap, mem': Heap, root: nat, at: Tree, link: Flags, blocks: map<nat, Block>,
                        blocks': map<nat, Block>, added: set<nat>, l: nat)
  {
    && IsTree(mem', root, at, link) && OwnsTables(blocks', at) && AllLow(at) && Slot(3, 0) in at
    && NoLargerPage(mem', at, l) && Grew(mem, mem', map[], at, blocks, blocks', added, l)
  }

  /** Three adjacent regions of 2MB pages make up the identity map of the lowest 4GB. */
  lemma GuestRegions(m0: Heap, m1: Heap, m2: Heap, m3: Heap, pml4: nat)
    requires Maps(m0, m1, true, 0, pml4, PAGING_PRESENT, PAGING_LINK, 0, SIZE_2MB, 0, SIZE_2MB,
                  PAGE_PRESENT | PAGE_RW | PAGE_PCD)
    requires Maps(m1, m2, false, pml4, pml4, PAGING_PRESENT, PAGING_LINK, SIZE_2MB, 0xFEC0_0000, SIZE_2MB, SIZE_2MB,
                  PAGE_PRESENT | PAGE_RW)
    requires Maps(m2, m3, false, pml4, pml4, PAGING_PRESENT, PAGING_LINK, 0xFEC0_0000, 0x1_0000_0000, 0xFEC0_0000,
                  SIZE_2MB, PAGE_PRESENT | PAGE_RW | PAGE_PCD)
    ensures GuestIdentity(m3, pml4)
  {
    hide Walk, PageAt, Through, PageCount;
    GuestCounts();
    forall w: nat | w < 0x10_0000_0000
      ensures Walk(m3, PAGING_PRESENT, pml4, 4, w) ==
        if w < 0x10_0000 then Through(PageAt(PAGING_PRESENT, w, GuestFlags(w)), PAGING_LINK) else Fault
    {
      GuestBounds(w);
      if w < 0x10_0000 {
        GuestTarget(w);
      }
    }
  }

  lemma GuestCounts()
    ensures PageCount(SIZE_2MB, SIZE_2MB) == 1 && PageCount(0xFEC0_0000 - SIZE_2MB, SIZE_2MB) == 0x7F5
    ensures PageCount(0x1_0000_0000 - 0xFEC0_0000, SIZE_2MB) == 0xA
    ensures Prefix(0, 1) == 0 && Prefix(0x200, 1) == 1 && Prefix(0xF_EC00, 1) == 0x7F6
  {
  }

  lemma GuestBounds(w: nat)
    ensures Prefix(w, 1) < 1 <==> w < 0x200
    ensures Prefix(w, 1) < 0x7F6 <==> w < 0xF_EC00
    ensures Prefix(w, 1) < 0x800 <==> w < 0x10_0000
  {
    assert Prefix(w, 1) == w / 512;
  }

  /** Each region sends a page to itself with the flags of its region. */
  lemma GuestTarget(w: nat)
    requires w < 0x10_0000
    ensures w < 0x200 ==>
      Target(PAGING_PRESENT, PAGING_LINK, 2, 0, 0, LeafFlags(2, PAGE_PRESENT | PAGE_RW | PAGE_PCD), w)
      == Through(PageAt(PAGING_PRESENT, w, GuestFlags(w)), PAGING_LINK)
    ensures 0x200 <= w < 0xF_EC00 ==>
      Prefix(w, 1) >= 1 &&
      Target(PAGING_PRESENT, PAGING_LINK, 2, 0x200, 1, LeafFlags(2, PAGE_PRESENT | PAGE_RW), w)
      == Through(PageAt(PAGING_PRESENT, w, GuestFlags(w)), PAGING_LINK)
    ensures 0xF_EC00 <= w ==>
      Prefix(w, 1) >= 0x7F6 &&
      Target(PAGING_PRESENT, PAGING_LINK, 2, 0xF_EC00, 0x7F6, LeafFlags(2, PAGE_PRESENT | PAGE_RW | PAGE_PCD), w)
      == Through(PageAt(PAGING_PRESENT, w, GuestFlags(w)), PAGING_LINK)
  {
    hide PageAt, Through;
    GuestBounds(w);
  }

  /** One more region of a tree being built. */
  method Update(pt: PageTables, pml4: nat, ghost at: Tree, start: nat, end: nat, paddr: nat, pageSize: nat,
                protection: Flags, ghost mem0: Heap, ghost blocks0: map<nat, Block>, ghost added0: set<nat>)
    returns (r: MapResult<nat>, ghost at': Tree, ghost added: set<nat>)
    requires pt.alloc.Valid() && LevelOf(pageSize) > 0
    requires Built(mem0, pt.mem, pml4, at, PAGING_LINK, blocks0, pt.alloc.blocks, added0, LevelOf(pageSize))
    requires CheckRegion(start, end, paddr, pageSize).Done? ==> InLow4GB(start, end, pageSize)
    modifies pt, pt.alloc, pt.alloc.nodes
    ensures pt.alloc.Valid()
    ensures r.Stopped? ==> r == CheckRegion(start, end, paddr, pageSize) || (r.why == OutOfMemory && pt.alloc.NoRun(1))
    ensures Frugal(at, at', old(pt.alloc.blocks), pt.alloc.blocks, LevelOf(pageSize))
    ensures r.Done? ==>
      && r.value == pml4 && start < end && CheckRegion(start, end, paddr, pageSize).Done?
      && Built(mem0, pt.mem, pml4, at', PAGING_LINK, blocks0, pt.alloc.blocks, added, LevelOf(pageSize))
      && Maps(old(pt.mem), pt.mem, false, pml4, pml4, PAGING_PRESENT, PAGING_LINK, start, end, paddr, pageSize,
              protection)
  {
    hide Allocator.Valid, Allocator.NoRun, Maps, IsTree, NoLargerPage, Extends, OthersKept, Uniform, Tables, AllLow,
         OwnsTables, Frugal;
    ghost var mem1, blocks1, step := pt.mem, pt.alloc.blocks, {};
    RootEntryIsLink(pt.mem, pml4, at, PAGING_LINK);
    r, at', step := pt.MapMemory(MAP_UPDATE, pml4, at, start, end, paddr, pageSize, protection);
    added := added0 + step;
    if r.Done? {
      GrewTrans(mem0, mem1, pt.mem, map[], at, at', blocks0, blocks1, pt.alloc.blocks, added0, step, LevelOf(pageSize));
    }
  }

  /** How many tables the two trees of ept_pmap can have when all they map lies below 4GB. */
  const GUEST_TABLES: nat := 6
  const EPT_TABLES: nat := 2054

  /** What was taken for a tree begun from nothing. */
  lemma TookForGuest(at: Tree, blocks: map<nat, Block>, blocks': map<nat, Block>, l: nat)
    requires Frugal(map[], at, blocks, blocks', l) && l >= 2
    ensures Took(blocks, blocks', GUEST_TABLES)
  {
    SmallCount(at, l);
    TookMore(blocks, blocks', |at|, GUEST_TABLES);
  }

  lemma TookForEpt(at: Tree, blocks: map<nat, Block>, blocks': map<nat, Block>)
    requires Frugal(map[], at, blocks, blocks', 1)
    ensures Took(blocks, blocks', EPT_TABLES)
  {
    SmallCount(at, 1);
    TookMore(blocks, blocks', |at|, EPT_TABLES);
  }

  lemma TookMore(blocks: map<nat, Block>, blocks': map<nat, Block>, n: int, m: int)
    requires Took(blocks, blocks', n) && n <= m
    ensures Took(blocks, blocks', m)
  {
    var s: set<nat> :| |s| <= n && Extends(blocks, blocks', s);
    assert |s| <= m;
  }

  /** The first tree of ept_pmap. With 1GB pages the second region is not aligned to the
      page size, so that the mapper panics. */
  method MapGuest(pt: PageTables, has1GB: bool) returns (r: MapResult<nat>, ghost at: Tree, ghost added: set<nat>)
    requires pt.alloc.Valid()
    modifies pt, pt.alloc, pt.alloc.nodes
    ensures pt.alloc.Valid()
    ensures has1GB ==> r.Stopped?
    ensures r.Stopped? ==> (has1GB && r.why == BadAlignment) || (r.why == OutOfMemory && pt.alloc.NoRun(1))
    ensures Took(old(pt.alloc.blocks), pt.alloc.blocks, GUEST_TABLES)
    ensures r.Done? ==>
      && Built(old(pt.mem), pt.mem, r.value, at, PAGING_LINK, old(pt.alloc.blocks), pt.alloc.blocks, added, 2)
      && GuestIdentity(pt.mem, r.value)
  {
    hide Allocator.Valid, Allocator.NoRun, Maps, IsTree, Extends, OthersKept, OwnsTables, GuestIdentity, NoLargerPage,
         Frugal, Took;
    var size := if has1GB then SIZE_1GB else SIZE_2MB;
    assert InLow4GB(0, SIZE_2MB, size);
    r, at, added := pt.MapMemory(MAP_NEW, 0, map[], 0, SIZE_2MB, 0, size, PAGE_PRESENT | PAGE_RW | PAGE_PCD);
    TookForGuest(at, old(pt.alloc.blocks), pt.alloc.blocks, LevelOf(size));
    if r.Stopped? {
      return;
    }
    var pml4 := r.value;
    ghost var m1 := pt.mem;
    NoPageYet(old(pt.mem), LevelOf(size));
    assert Built(old(pt.mem), pt.mem, pml4, at, PAGING_LINK, old(pt.alloc.blocks), pt.alloc.blocks, added,
                 LevelOf(size));
    ghost var at1, blocks1 := at, pt.alloc.blocks;
    r, at, added := Update(pt, pml4, at, SIZE_2MB, 0xFEC0_0000, SIZE_2MB, size, PAGE_PRESENT | PAGE_RW,
                           old(pt.mem), old(pt.alloc.blocks), added);
    FrugalTrans(map[], at1, at, old(pt.alloc.blocks), blocks1, pt.alloc.blocks, LevelOf(size));
    TookForGuest(at, old(pt.alloc.blocks), pt.alloc.blocks, LevelOf(size));
    if r.Stopped? {
      return;
    }
    ghost var m2 := pt.mem;
    at1, blocks1 := at, pt.alloc.blocks;
    r, at, added := Update(pt, pml4, at, 0xFEC0_0000, 0x1_0000_0000, 0xFEC0_0000, size,
                           PAGE_PRESENT | PAGE_RW | PAGE_PCD,
                           old(pt.mem), old(pt.alloc.blocks), added);
    FrugalTrans(map[], at1, at, old(pt.alloc.blocks), blocks1, pt.alloc.blocks, LevelOf(size));
    TookForGuest(at, old(pt.alloc.blocks), pt.alloc.blocks, LevelOf(size));
    if r.Done? {
      GuestRegions(old(pt.mem), m1, m2, pt.mem, pml4);
    }
  }

  lemma NoPageYet(mem: Heap, l: nat)
    ensures NoLargerPage(mem, map[], l) && AllLow(map[])
  {
  }

  // --------------------------------------------------------------------- the EPT

  /** The EPT under construction beside the finished guest tables; m0 and b0 are heap
      and blocks before it was begun. */
  ghost predicate EptStage(low: bool, m0: Heap, mem: Heap, b0: map<nat, Block>, blocks: map<nat, Block>, ept: nat,
                           atE: Tree, pml4: nat, atG: Tree, added: set<nat>)
  {
    && Beside(mem, blocks, ept, atE, pml4, atG, PAGING_LINK) && (low ==> AllLow(atE))
    && Grew(m0, mem, map[], atE, b0, blocks, added, 1) && TablesKept(m0, mem, atG)
  }

  /** The page-rounded window lies below 4GB. */
  predicate IsLowWindow(win: Window) { InLow4GB(win.start, win.end, SIZE_4KB) }

  /** The window lies below 2^48 and has no more pages than an int can count. */
  predicate IsWindow(win: Window) {
    && win.start < win.end && PageCount(win.end - win.start, SIZE_4KB) < TWO_31
    && win.start / 0x1000 + PageCount(win.end - win.start, SIZE_4KB) <= 0x10_0000_0000
  }

  lemma LowIsWindow(win: Window)
    requires IsLowWindow(win)
    ensures IsWindow(win)
  {
  }

  /** The windows mapped over mem, in order, give mem'. */
  ghost predicate Overlaid(mem: Heap, mem': Heap, ept: nat, ws: seq<Window>) {
    forall w: nat | w < 0x10_0000_0000 ::
      Walk(mem', EPT_PRESENT, ept, 4, w) == Overlay(Walk(mem, EPT_PRESENT, ept, 4, w), ws, w)
  }

  lemma OverlaidNothing(mem: Heap, ept: nat)
    ensures Overlaid(mem, mem, ept, [])
  {
  }

  lemma OverlaidStep(m0: Heap, m1: Heap, m2: Heap, ept: nat, ws: seq<Window>, win: Window)
    requires Overlaid(m0, m1, ept, ws) && IsWindow(win)
    requires Maps(m1, m2, false, ept, ept, EPT_PRESENT, EPT_LINK, win.start, win.end, win.paddr, SIZE_4KB,
                  EptFlags(win.mtype, win.protection))
    ensures Overlaid(m0, m2, ept, ws + [win])
  {
    hide Walk, Target, ToInt32;
    forall w: nat | w < 0x10_0000_0000
      ensures Walk(m2, EPT_PRESENT, ept, 4, w) == Overlay(Walk(m0, EPT_PRESENT, ept, 4, w), ws + [win], w)
    {
      assert (ws + [win])[..|ws + [win]| - 1] == ws;
      assert Prefix(w, 0) == w;
    }
  }

  /** One more ept_map_memory call of ept_pmap. */
  method MapWindow(pt: PageTables, ept: nat, ghost atE: Tree, win: Window, ghost pml4: nat, ghost atG: Tree,
                   ghost m0: Heap, ghost b0: map<nat, Block>, ghost added0: set<nat>, ghost low: bool)
    returns (r: MapResult<()>, ghost atE': Tree, ghost added: set<nat>)
    requires pt.alloc.Valid() && EptStage(low, m0, pt.mem, b0, pt.alloc.blocks, ept, atE, pml4, atG, added0)
    requires IsWindow(win) && (low ==> IsLowWindow(win))
    modifies pt, pt.alloc, pt.alloc.nodes
    ensures pt.alloc.Valid()
    ensures r.Stopped? ==>
      (r.why == BadAlignment && win.paddr % 0x1000 != 0) || (r.why == OutOfMemory && pt.alloc.NoRun(1))
    ensures low ==> Frugal(atE, atE', old(pt.alloc.blocks), pt.alloc.blocks, 1)
    ensures r.Done? ==>
      && win.start < win.end
      && EptStage(low, m0, pt.mem, b0, pt.alloc.blocks, ept, atE', pml4, atG, added)
      && Maps(old(pt.mem), pt.mem, false, ept, ept, EPT_PRESENT, EPT_LINK, win.start, win.end, win.paddr, SIZE_4KB,
              EptFlags(win.mtype, win.protection))
  {
    hide Allocator.Valid, Allocator.NoRun, Maps, IsTree, NoLargerPage, Extends, OthersKept, Uniform, Tables, AllLow,
         OwnsTables, TablesKept, EptFlags, Frugal;
    ghost var mem1, blocks1, step := pt.mem, pt.alloc.blocks, {};
    RootEntryIsLink(pt.mem, ept, atE, EPT_LINK);
    var m: MapResult<nat>;
    m, atE', step := pt.EptMapMemory(MAP_UPDATE, ept, atE, win.start, win.end, win.paddr, SIZE_4KB, win.mtype,
                                     win.protection);
    added := added0 + step;
    if m.Stopped? {
      return Stopped(m.why), atE', added;
    }
    BesideGrew(mem1, pt.mem, blocks1, pt.alloc.blocks, ept, atE, atE', pml4, atG, PAGING_LINK, step);
    GrewTrans(m0, mem1, pt.mem, map[], atE, atE', b0, blocks1, pt.alloc.blocks, added0, step, 1);
    TablesKeptTrans(m0, mem1, pt.mem, atG);
    r := Done(());
  }

  lemma TablesKeptTrans(m0: Heap, m1: Heap, m2: Heap, at: Tree)
    requires TablesKept(m0, m1, at) && TablesKept(m1, m2, at)
    ensures TablesKept(m0, m2, at)
  {
  }

  /** The rest of ept_pmap's calls, one window after the other. */
  method MapWindows(pt: PageTables, ept: nat, ghost atE: Tree, ws: seq<Window>, ghost pml4: nat, ghost atG: Tree,
                    ghost m0: Heap, ghost b0: map<nat, Block>, ghost added0: set<nat>, ghost low: bool)
    returns (r: MapResult<()>, ghost atE': Tree, ghost added: set<nat>)
    requires pt.alloc.Valid() && EptStage(low, m0, pt.mem, b0, pt.alloc.blocks, ept, atE, pml4, atG, added0)
    requires forall win | win in ws :: IsWindow(win) && (low ==> IsLowWindow(win))
    modifies pt, pt.alloc, pt.alloc.nodes
    ensures pt.alloc.Valid()
    ensures r.Stopped? ==>
      || (r.why == BadAlignment && exists win | win in ws :: win.paddr % 0x1000 != 0)
      || (r.why == OutOfMemory && pt.alloc.NoRun(1))
    ensures low ==> Frugal(atE, atE', old(pt.alloc.blocks), pt.alloc.blocks, 1)
    ensures r.Done? ==>
      && EptStage(low, m0, pt.mem, b0, pt.alloc.blocks, ept, atE', pml4, atG, added)
      && Overlaid(old(pt.mem), pt.mem, ept, ws)
  {
    hide Allocator.Valid, Allocator.NoRun, EptStage, Overlaid, Maps, Frugal;
    atE', added := atE, added0;
    FrugalNothing(atE, pt.alloc.blocks, 1);
    OverlaidNothing(pt.mem, ept);
    var i := 0;
    while i < |ws|
      invariant i <= |ws| && pt.alloc.Valid()
      invariant EptStage(low, m0, pt.mem, b0, pt.alloc.blocks, ept, atE', pml4, atG, added)
      invariant Overlaid(old(pt.mem), pt.mem, ept, ws[..i])
      invariant low ==> Frugal(atE, atE', old(pt.alloc.blocks), pt.alloc.blocks, 1)
    {
      ghost var mem1, at1, blocks1 := pt.mem, atE', pt.alloc.blocks;
      r, atE', added := MapWindow(pt, ept, atE', ws[i], pml4, atG, m0, b0, added, low);
      if low {
        FrugalTrans(atE, at1, atE', old(pt.alloc.blocks), blocks1, pt.alloc.blocks, 1);
      }
      if r.Stopped? {
        return;
      }
      OverlaidStep(old(pt.mem), mem1, pt.mem, ept, ws[..i], ws[i]);
      assert ws[..i] + [ws[i]] == ws[..i + 1];
      i := i + 1;
    }
    assert ws[..|ws|] == ws;
    r := Done(());
  }

  /** The first EPT region makes the tree. */
  method StartEpt(pt: PageTables, ghost pml4: nat, ghost atG: Tree, ghost mG: Heap, ghost bG: map<nat, Block>,
                  ghost addedG: set<nat>, ghost low: bool)
    returns (r: MapResult<nat>, ghost atE: Tree, ghost added: set<nat>)
    requires pt.alloc.Valid() && Built(mG, pt.mem, pml4, atG, PAGING_LINK, bG, pt.alloc.blocks, addedG, 2)
    modifies pt, pt.alloc, pt.alloc.nodes
    ensures pt.alloc.Valid()
    ensures r.Stopped? ==> r.why == OutOfMemory && pt.alloc.NoRun(1)
    ensures Frugal(map[], atE, old(pt.alloc.blocks), pt.alloc.blocks, 1)
    ensures r.Done? ==>
      && EptStage(low, old(pt.mem), pt.mem, old(pt.alloc.blocks), pt.alloc.blocks, r.value, atE, pml4, atG, added)
      && (forall w: nat {:trigger Walk(pt.mem, EPT_PRESENT, r.value, 4, w)} | w < 0x10_0000_0000 ::
            Walk(pt.mem, EPT_PRESENT, r.value, 4, w) == Overlay(Fault, [VGA_WINDOW], w))
  {
    hide Allocator.Valid, Allocator.NoRun, IsTree, NoLargerPage, Maps, EptFlags, Uniform, Frugal;
    var win := VGA_WINDOW;
    assert InLow4GB(win.start, win.end, SIZE_4KB);
    NoPageYet(pt.mem, 1);
    NoPageYet(pt.mem, 2);
    r, atE, added := pt.EptMapMemory(MAP_NEW, 0, map[], win.start, win.end, win.paddr, SIZE_4KB, win.mtype,
                                     win.protection);
    if r.Done? {
      FreshBeside(old(pt.mem), pt.mem, old(pt.alloc.blocks), pt.alloc.blocks, r.value, atE, pml4, atG, added);
      OnlyVga(old(pt.mem), pt.mem, r.value);
    }
  }

  /** A tree made of fresh pages shares none with a tree that was there before. */
  lemma FreshBeside(mem: Heap, mem': Heap, blocks: map<nat, Block>, blocks': map<nat, Block>, ept: nat, atE: Tree,
                    pml4: nat, atG: Tree, added: set<nat>)
    requires IsTree(mem, pml4, atG, PAGING_LINK) && OwnsTables(blocks, atG)
    requires IsTree(mem', ept, atE, EPT_LINK) && OwnsTables(blocks', atE) && NoLargerPage(mem', atE, 1)
      && Slot(3, 0) in atE
    requires Grew(mem, mem', map[], atE, blocks, blocks', added, 1)
    ensures Beside(mem', blocks', ept, atE, pml4, atG, PAGING_LINK) && TablesKept(mem, mem', atG)
  {
    hide NoLargerPage;
    forall k | k in atG
      ensures atG[k] in mem' && mem'[atG[k]] == mem[atG[k]] && atG[k] in blocks' && blocks'[atG[k]] == Block(1, 1)
    {
      assert Placed(mem, atG, k) && atG[k] !in added;
      assert atG[k] !in Tables(map[]);
    }
    TreeFrame(mem, mem', pml4, atG, PAGING_LINK);
    assert Tables(map[]) == {};
  }

  lemma OnlyVga(mem: Heap, mem': Heap, ept: nat)
    requires Maps(mem, mem', true, 0, ept, EPT_PRESENT, EPT_LINK, VGA_WINDOW.start, VGA_WINDOW.end, VGA_WINDOW.paddr,
                  SIZE_4KB, EptFlags(VGA_WINDOW.mtype, VGA_WINDOW.protection))
    ensures forall w: nat {:trigger Walk(mem', EPT_PRESENT, ept, 4, w)} | w < 0x10_0000_0000 ::
              Walk(mem', EPT_PRESENT, ept, 4, w) == Overlay(Fault, [VGA_WINDOW], w)
  {
    hide Walk, Target, EptFlags;
    forall w: nat | w < 0x10_0000_0000
      ensures Walk(mem', EPT_PRESENT, ept, 4, w) == Overlay(Fault, [VGA_WINDOW], w)
    {
      assert Prefix(w, 0) == w;
      assert [VGA_WINDOW][..0] == [];
      assert Overlay(Fault, [], w) == Fault;
    }
  }

  // ------------------------------------------------------------------- ept_pmap

  const TABLE_FLAGS: Flags := 0x033   // write-back, readable, writable

  /** What the EPT of a VM makes of guest page w once ept_pmap is through: the last
      window that contains it decides, then the guest's own table pages map to
      themselves, then the APIC and VGA windows. */
  ghost function EptView(cpu: CpuInfo, atG: Tree, w: nat): Translation {
    Overlay(if w in LowTables(atG) then Identity(TABLE_FLAGS, w)
            else Overlay(Fault, [VGA_WINDOW, APIC_WINDOW], w), Windows(cpu), w)
  }

  ghost predicate EptAsPlanned(mem: Heap, ept: nat, cpu: CpuInfo, atG: Tree) {
    forall w: nat | w < 0x10_0000_0000 :: Walk(mem, EPT_PRESENT, ept, 4, w) == EptView(cpu, atG, w)
  }

  /** The two trees of a VM: separate, complete below 4GB, every table a block of its own. */
  ghost predicate VmTrees(low: bool, mem: Heap, blocks: map<nat, Block>, pml4: nat, atG: Tree, ept: nat, atE: Tree) {
    && IsTree(mem, pml4, atG, PAGING_LINK) && OwnsTables(blocks, atG) && AllLow(atG) && Slot(3, 0) in atG
    && IsTree(mem, ept, atE, EPT_LINK) && OwnsTables(blocks, atE) && (low ==> AllLow(atE)) && Slot(3, 0) in atE
    && Tables(atG) !! Tables(atE)
  }

  lemma TookForBoth(at: Tree, b0: map<nat, Block>, b1: map<nat, Block>, b2: map<nat, Block>)
    requires Took(b0, b1, GUEST_TABLES) && Frugal(map[], at, b1, b2, 1)
    ensures Took(b0, b2, GUEST_TABLES + EPT_TABLES)
  {
    TookForEpt(at, b1, b2);
    TookTrans(b0, b1, b2, GUEST_TABLES, EPT_TABLES);
  }

  /** Memory and windows all lie below 4GB: then so do the tables of the EPT. */
  predicate LowMachine(pt: PageTables, cpu: CpuInfo) {
    pt.alloc.Base() + pt.alloc.total <= 0x10_0000 && forall win | win in Windows(cpu) :: IsLowWindow(win)
  }

  /** ept_pmap. */
  method EptPmap(pt: PageTables, cpu: CpuInfo, has1GB: bool)
    returns (r: MapResult<(nat, nat)>, ghost atG: Tree, ghost atE: Tree, ghost added: set<nat>)
    requires pt.alloc.Valid() && forall win | win in Windows(cpu) :: IsWindow(win)
    modifies pt, pt.alloc, pt.alloc.nodes
    ensures pt.alloc.Valid()
    ensures has1GB ==> r.Stopped?
    ensures r.Stopped? ==>
      || (r.why == BadAlignment && (has1GB || exists win | win in Windows(cpu) :: win.paddr % 0x1000 != 0))
      || (r.why == OutOfMemory && pt.alloc.NoRun(1))
    ensures LowMachine(pt, cpu) ==> Took(old(pt.alloc.blocks), pt.alloc.blocks, GUEST_TABLES + EPT_TABLES)
    ensures r.Done? ==>
      && VmTrees(LowMachine(pt, cpu), pt.mem, pt.alloc.blocks, r.value.0, atG, r.value.1, atE)
      && Extends(old(pt.alloc.blocks), pt.alloc.blocks, added) && added == Tables(atG) + Tables(atE)
      && OthersKept(old(pt.mem), pt.mem, map[], added)
      && GuestIdentity(pt.mem, r.value.0) && EptAsPlanned(pt.mem, r.value.1, cpu, atG)
  {
    hide Allocator.Valid, Allocator.NoRun, EptStage, Overlaid, Built, GuestIdentity, Grew, EptAsPlanned, VmTrees,
         Overlay, IdentityMapped,
         Extends, OthersKept, TablesKept, Frugal, Took;
    var g: MapResult<nat>;
    ghost var addedG, addedE;
    g, atG, addedG := MapGuest(pt, has1GB);
    TookMore(old(pt.alloc.blocks), pt.alloc.blocks, GUEST_TABLES, GUEST_TABLES + EPT_TABLES);
    atE, added := map[], addedG;
    if g.Stopped? {
      return Stopped(g.why), atG, atE, added;
    }
    var pml4 := g.value;
    ghost var m0, b0 := pt.mem, pt.alloc.blocks;
    var e: MapResult<nat>;
    ghost var low := LowMachine(pt, cpu);
    e, atE, addedE := StartEpt(pt, pml4, atG, old(pt.mem), old(pt.alloc.blocks), addedG, low);
    TookForBoth(atE, old(pt.alloc.blocks), b0, pt.alloc.blocks);
    if e.Stopped? {
      return Stopped(e.why), atG, atE, added;
    }
    var ept := e.value;
    ghost var m1 := pt.mem;
    var m: MapResult<()>;
    assert IsLowWindow(APIC_WINDOW);
    LowIsWindow(APIC_WINDOW);
    ghost var at1, b1 := atE, pt.alloc.blocks;
    m, atE, addedE := MapWindow(pt, ept, atE, APIC_WINDOW, pml4, atG, m0, b0, addedE, low);
    if low {
      FrugalTrans(map[], at1, atE, b0, b1, pt.alloc.blocks, 1);
      TookForBoth(atE, old(pt.alloc.blocks), b0, pt.alloc.blocks);
    }
    if m.Stopped? {
      return Stopped(m.why), atG, atE, added;
    }
    ghost var m2 := pt.mem;
    var ok;
    at1, b1 := atE, pt.alloc.blocks;
    ok, atE, addedE := MapTables(pt, ept, atE, pml4, atG, m0, b0, addedE, low);
    if low {
      FrugalTrans(map[], at1, atE, b0, b1, pt.alloc.blocks, 1);
      TookForBoth(atE, old(pt.alloc.blocks), b0, pt.alloc.blocks);
    }
    if !ok {
      return Stopped(OutOfMemory), atG, atE, added;
    }
    ghost var m3 := pt.mem;
    at1, b1 := atE, pt.alloc.blocks;
    m, atE, addedE := MapWindows(pt, ept, atE, Windows(cpu), pml4, atG, m0, b0, addedE, low);
    if low {
      FrugalTrans(map[], at1, atE, b0, b1, pt.alloc.blocks, 1);
      TookForBoth(atE, old(pt.alloc.blocks), b0, pt.alloc.blocks);
    }
    if m.Stopped? {
      return Stopped(m.why), atG, atE, added;
    }
    added := addedG + addedE;
    FinalView(m1, m2, m3, pt.mem, ept, cpu, atG);
    FinalState(low, old(pt.mem), m0, pt.mem, old(pt.alloc.blocks), b0, pt.alloc.blocks, pml4, atG, ept, atE, addedG,
               addedE);
    r := Done((pml4, ept));
  }

  /** The ept_map_page_tables call. */
  method MapTables(pt: PageTables, ept: nat, ghost atE: Tree, pml4: nat, ghost atG: Tree,
                   ghost m0: Heap, ghost b0: map<nat, Block>, ghost added0: set<nat>, ghost low: bool)
    returns (ok: bool, ghost atE': Tree, ghost added: set<nat>)
    requires pt.alloc.Valid() && (low ==> pt.alloc.Base() + pt.alloc.total <= 0x10_0000)
    requires EptStage(low, m0, pt.mem, b0, pt.alloc.blocks, ept, atE, pml4, atG, added0)
    modifies pt, pt.alloc, pt.alloc.nodes
    ensures pt.alloc.Valid() && (!ok ==> pt.alloc.NoRun(1))
    ensures low ==> Frugal(atE, atE', old(pt.alloc.blocks), pt.alloc.blocks, 1)
    ensures ok ==>
      && EptStage(low, m0, pt.mem, b0, pt.alloc.blocks, ept, atE', pml4, atG, added)
      && IdentityMapped(old(pt.mem), pt.mem, ept, LowTables(atG), TABLE_FLAGS)
  {
    hide Allocator.Valid, Allocator.NoRun, Grew, IdentityMapped, Beside, TablesKept, AllLow, IsTree, LowTables,
         Frugal;
    ghost var mem1, blocks1, step := pt.mem, pt.alloc.blocks, {};
    OwnedFramesAreLow(pt, atG, ept, atE, pml4);
    ok, atE', step := pt.EptMapPageTables(ept, atE, pml4, atG, PAGING_LINK, READ | WRITE);
    added := added0 + step;
    if ok {
      assert EptFlags(EPT_MTYPE_WB, READ | WRITE) == TABLE_FLAGS;
      GrewTrans(m0, mem1, pt.mem, map[], atE, atE', b0, blocks1, pt.alloc.blocks, added0, step, 1);
      TablesKeptTrans(m0, mem1, pt.mem, atG);
    }
  }

  lemma OwnedFramesAreLow(pt: PageTables, atG: Tree, ept: nat, atE: Tree, pml4: nat)
    requires pt.alloc.Valid() && Beside(pt.mem, pt.alloc.blocks, ept, atE, pml4, atG, PAGING_LINK)
    ensures LowFrames(atG) && (pt.alloc.Base() + pt.alloc.total <= 0x10_0000 ==> FramesBelow4GB(atG))
  {
    hide Allocator.Valid, IsTree;
    forall k | k in atG ensures atG[k] < TWO_31 && atG[k] < pt.alloc.Base() + pt.alloc.total {
      pt.alloc.LiveBlocksAreDisjoint(atG[k], atG[k]);
    }
  }

  lemma FinalView(m1: Heap, m2: Heap, m3: Heap, m4: Heap, ept: nat, cpu: CpuInfo, atG: Tree)
    requires forall w: nat {:trigger Walk(m1, EPT_PRESENT, ept, 4, w)} | w < 0x10_0000_0000 ::
               Walk(m1, EPT_PRESENT, ept, 4, w) == Overlay(Fault, [VGA_WINDOW], w)
    requires Maps(m1, m2, false, ept, ept, EPT_PRESENT, EPT_LINK, APIC_WINDOW.start, APIC_WINDOW.end,
                  APIC_WINDOW.paddr, SIZE_4KB, EptFlags(APIC_WINDOW.mtype, APIC_WINDOW.protection))
    requires IdentityMapped(m2, m3, ept, LowTables(atG), TABLE_FLAGS)
    requires Overlaid(m3, m4, ept, Windows(cpu))
    ensures EptAsPlanned(m4, ept, cpu, atG)
  {
    hide Walk, Maps, EptFlags, Overlay, LowTables;
    OverlaidNothing(m1, ept);
    OverlaidStep(m1, m1, m2, ept, [], APIC_WINDOW);
    forall w: nat | w < 0x10_0000_0000 ensures Walk(m4, EPT_PRESENT, ept, 4, w) == EptView(cpu, atG, w) {
      assert [] + [APIC_WINDOW] == [APIC_WINDOW] && [VGA_WINDOW] + [APIC_WINDOW] == [VGA_WINDOW, APIC_WINDOW];
      OverlayConcat(Fault, [VGA_WINDOW], [APIC_WINDOW], w);
    }
  }

  lemma FinalState(low: bool, mem: Heap, m0: Heap, mem': Heap, blocks: map<nat, Block>, b0: map<nat, Block>,
                   blocks': map<nat, Block>,
                   pml4: nat, atG: Tree, ept: nat, atE: Tree, addedG: set<nat>, addedE: set<nat>)
    requires Built(mem, m0, pml4, atG, PAGING_LINK, blocks, b0, addedG, 2) && GuestIdentity(m0, pml4)
    requires EptStage(low, m0, mem', b0, blocks', ept, atE, pml4, atG, addedE)
    ensures VmTrees(low, mem', blocks', pml4, atG, ept, atE) && GuestIdentity(mem', pml4)
    ensures Extends(blocks, blocks', addedG + addedE) && addedG + addedE == Tables(atG) + Tables(atE)
    ensures OthersKept(mem, mem', map[], addedG + addedE)
  {
    hide IsTree, NoLargerPage, AllLow, OwnsTables;
    assert Uniform(map[], 1) && Uniform(map[], 2) && Tables(map[]) == {};
    ExtendsTrans(blocks, b0, blocks', addedG, addedE);
    KeptAllPlaced(m0, mem', pml4, atG);
    WalkFrame(m0, mem', pml4, atG, PAGING_LINK, PAGING_PRESENT);
  }

  lemma KeptAllPlaced(mem: Heap, mem': Heap, root: nat, at: Tree)
    requires IsTree(mem, root, at, PAGING_LINK) && TablesKept(mem, mem', at)
    ensures forall k | k in at :: at[k] in mem && at[k] in mem' && mem'[at[k]] == mem[at[k]]
  {
  }
}
