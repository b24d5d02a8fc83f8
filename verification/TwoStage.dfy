/** Two-stage translation: what the processor makes of a VM's address with the guest
    tables and the EPT of ept_pmap, and that it is what virt2phys computes. */
module TwoStage {
  import opened BlockList
  import opened PageAllocator
  import opened PageWalk
  import opened Pmap
  import opened VmLayout
  import opened Prelude
  import opened VmMapping

  // ---------------------------------------------------------------- nested walks

  /** The outcome of a walk under an EPT: the EPT has no translation for a guest frame,
      the guest tables have none for the page, or a frame with the rights of both. */
  datatype Nested = EptViolation(frame: nat) | GuestFault | Reached(frame: nat, guestRights: Flags, eptRights: Flags)

  /** The last stage, from guest frame to frame. */
  function Second(mem: Heap, ept: nat, guest: Translation): Nested {
    match guest
    case Fault => GuestFault
    case Mapped(g, _, rights) =>
      match Walk(mem, EPT_PRESENT, ept, 4, g)
      case Fault => EptViolation(g)
      case Mapped(f, _, eptRights) => Reached(f, rights, eptRights)
  }

  function Narrow(n: Nested, flags: Flags): Nested {
    if n.Reached? then Reached(n.frame, n.guestRights & flags, n.eptRights) else n
  }

  /** The walk the processor does: every guest table it reads is itself found through
      the EPT, and so is the page at the end (section 28.2.1 of volume 3C). */
  function NestedWalk(mem: Heap, ept: nat, t: nat, level: nat, v: nat): Nested
    requires 1 <= level <= 4
    decreases level, 1
  {
    match Walk(mem, EPT_PRESENT, ept, 4, t)
    case Fault => EptViolation(t)
    case Mapped(h, _, _) => ReadTable(mem, ept, h, level, v)
  }

  /** ... and read at the frame it was found in. */
  function ReadTable(mem: Heap, ept: nat, h: nat, level: nat, v: nat): Nested
    requires 1 <= level <= 4
    decreases level, 0
  {
    if h !in mem || |mem[h]| != ENTRIES then GuestFault
    else
      var e := mem[h][Index(v, level)];
      if e.flags & PAGING_PRESENT == 0 then GuestFault
      else if IsLeaf(level, e) then Second(mem, ept, Mapped(LeafFrame(e, level, v), e.flags, e.flags))
      else Narrow(NestedWalk(mem, ept, e.frame, level - 1, v), e.flags)
  }

  /** The EPT maps every table page of the guest to itself. */
  ghost predicate TablesVisible(mem: Heap, ept: nat, at: Tree) {
    forall k {:trigger k in at} | k in at ::
      Walk(mem, EPT_PRESENT, ept, 4, at[k]).Mapped? && Walk(mem, EPT_PRESENT, ept, 4, at[k]).frame == at[k]
  }

  lemma NestedThrough(mem: Heap, ept: nat, t: nat, level: nat, v: nat, next: nat, link: Flags)
    requires 2 <= level <= 4 && t in mem && |mem[t]| == ENTRIES && mem[t][Index(v, level)] == Entry(next, link)
    requires Walk(mem, EPT_PRESENT, ept, 4, t).Mapped? && Walk(mem, EPT_PRESENT, ept, 4, t).frame == t
    requires IsLinkFlags(link) && link & PAGING_PRESENT != 0
    ensures NestedWalk(mem, ept, t, level, v) == Narrow(NestedWalk(mem, ept, next, level - 1, v), link)
  {
  }

  lemma NestedEnds(mem: Heap, ept: nat, t: nat, level: nat, v: nat)
    requires 1 <= level <= 4 && t in mem && |mem[t]| == ENTRIES
    requires Walk(mem, EPT_PRESENT, ept, 4, t).Mapped? && Walk(mem, EPT_PRESENT, ept, 4, t).frame == t
    requires var e := mem[t][Index(v, level)]; e == ZERO || IsLeaf(level, e)
    ensures NestedWalk(mem, ept, t, level, v)
      == Second(mem, ept, AtEntry(PAGING_PRESENT, mem[t][Index(v, level)], level, v))
  {
  }

  lemma SecondThrough(mem: Heap, ept: nat, w: Translation, link: Flags)
    ensures Second(mem, ept, Through(w, link)) == Narrow(Second(mem, ept, w), link)
  {
  }

  /** With the table pages visible, the nested walk is the guest walk followed by the EPT. */
  lemma {:induction false} NestedIsTwoStage(mem: Heap, ept: nat, root: nat, at: Tree, link: Flags, v: nat, l: nat)
    requires IsTree(mem, root, at, link) && link & PAGING_PRESENT != 0 && TablesVisible(mem, ept, at)
    requires 1 <= l <= 4 && OnPath(v, l) in at
    ensures NestedWalk(mem, ept, at[OnPath(v, l)], l, v)
      == Second(mem, ept, Walk(mem, PAGING_PRESENT, at[OnPath(v, l)], l, v))
    decreases l
  {
    hide NestedWalk, Walk, Second;
    var k, c := OnPath(v, l), OnPath(v, l - 1);
    PrefixStep(v, l);
    if l > 1 && c in at {
      assert Hangs(mem, at, link, c) && Parent(c) == k;
      NestedThrough(mem, ept, at[k], l, v, at[c], link);
      WalkThrough(mem, PAGING_PRESENT, at[k], l, v, at[c], link);
      NestedIsTwoStage(mem, ept, root, at, link, v, l - 1);
      SecondThrough(mem, ept, Walk(mem, PAGING_PRESENT, at[c], l - 1, v), link);
    } else {
      assert EntryOk(mem, at, k, Index(v, l)) && Child(k, Index(v, l)) == c;
      NestedEnds(mem, ept, at[k], l, v);
      WalkEnds(mem, PAGING_PRESENT, at[k], l, v);
    }
  }

  // ---------------------------------------------------------- a VM's own sections

  /** Sections follow each other in the address space; non-empty ones are page aligned. */
  predicate Ordered(ss: seq<Section>) {
    && (forall i | 0 <= i < |ss| - 1 :: ss[i].vaddr + ss[i].size <= ss[i + 1].vaddr)
    && (forall i | 0 <= i < |ss| && ss[i].size > 0 :: ss[i].vaddr % 0x1000 == 0 && ss[i].paddr % 0x1000 == 0)
  }

  /** No window mapped after the sections contains a page of one of them. */
  ghost predicate SectionsStay(cpu: CpuInfo) {
    forall x, y, w | x in SectionWindows(cpu.vm) && y in LastWindows(cpu.vm) && InWindow(x, w) :: !InWindow(y, w)
  }

  /** No window contains a table page of the guest. */
  ghost predicate TablesStay(cpu: CpuInfo, at: Tree) {
    forall k, x | k in at && x in Windows(cpu) :: !InWindow(x, at[k])
  }

  /** Or the last one that does maps it to itself. */
  ghost predicate TablesReach(cpu: CpuInfo, at: Tree) {
    forall k {:trigger k in at} | k in at :: TableReach(cpu, at[k])
  }

  predicate TableReach(cpu: CpuInfo, t: nat) {
    match LastHit(Windows(cpu), t)
    case None => true
    case Some(win) => WindowTarget(win, t).Mapped? && WindowTarget(win, t).frame == t
  }

  lemma StayReach(cpu: CpuInfo, at: Tree)
    requires TablesStay(cpu, at)
    ensures TablesReach(cpu, at)
  {
    hide Windows, InWindow, WindowTarget;
  }

  ghost predicate Clear(cpu: CpuInfo, at: Tree) { SectionsStay(cpu) && TablesReach(cpu, at) }

  /** Every managed frame whose number is a page of some window is taken. */
  ghost predicate WindowsTaken(cpu: CpuInfo, blocks: map<nat, Block>, first: nat, total: nat) {
    forall x, w: nat | x in Windows(cpu) && InWindow(x, w) && first <= w < first + total :: Owned(blocks, w)
  }

  lemma {:induction false} OrderedFar(ss: seq<Section>, i: nat, j: nat)
    requires Ordered(ss) && i < j < |ss|
    ensures ss[i].vaddr + ss[i].size <= ss[j].vaddr
    decreases j
  {
    if i < j - 1 {
      OrderedFar(ss, i, j - 1);
    }
  }

  /** A page of one section is in no later section's window. */
  lemma SectionsApart(ss: seq<Section>, i: nat, j: nat, w: nat)
    requires Ordered(ss) && i < j < |ss| && ss[i].size > 0 && InWindow(SectionWindow(ss[i], Protection(i))[0], w)
    ensures forall x | x in SectionWindow(ss[j], Protection(j)) :: !InWindow(x, w)
  {
    OrderedFar(ss, i, j);
  }

  lemma {:induction false} LaterMiss(ss: seq<Section>, i: nat, j: nat, w: nat)
    requires Ordered(ss) && i < j <= |ss| && ss[i].size > 0 && InWindow(SectionWindow(ss[i], Protection(i))[0], w)
    ensures forall x | x in SectionWindowsFrom(ss, j) :: !InWindow(x, w)
    decreases |ss| - j
  {
    if j < |ss| {
      SectionsApart(ss, i, j, w);
      LaterMiss(ss, i, j + 1, w);
    }
  }

  /** The section windows up to section i. */
  lemma {:induction false} SplitSections(ss: seq<Section>, i: nat) returns (before: seq<Window>)
    requires i < |ss|
    ensures SectionWindowsFrom(ss, 0) == before + SectionWindowsFrom(ss, i)
    decreases i
  {
    hide SectionWindow, SectionWindowsFrom, Protection;
    if i == 0 {
      before := [];
    } else {
      var head := SplitSections(ss, i - 1);
      var win := SectionWindow(ss[i - 1], Protection(i - 1));
      before := head + win;
      SectionsStep(ss, i - 1);
      Assoc(head, win, SectionWindowsFrom(ss, i));
    }
  }

  lemma SectionsStep(ss: seq<Section>, i: nat)
    requires i < |ss|
    ensures SectionWindowsFrom(ss, i) == SectionWindow(ss[i], Protection(i)) + SectionWindowsFrom(ss, i + 1)
  {
  }

  /** Inside a section the EPT does what the section's window says. */
  lemma SectionDecides(cpu: CpuInfo, at: Tree, i: nat, w: nat)
    requires Ordered(Sections(cpu.vm)) && Clear(cpu, at) && i < 5 && Sections(cpu.vm)[i].size > 0
    requires InWindow(SectionWindow(Sections(cpu.vm)[i], Protection(i))[0], w)
    ensures EptView(cpu, at, w) == WindowTarget(SectionWindow(Sections(cpu.vm)[i], Protection(i))[0], w)
  {
    hide Overlay, WindowTarget, InWindow, LastWindows, SharedWindows, Ordered;
    var ss := Sections(cpu.vm);
    var win := SectionWindow(ss[i], Protection(i))[0];
    var before := SplitSections(ss, i);
    var later := SectionWindowsFrom(ss, i + 1);
    LaterMiss(ss, i, i + 1, w);
    assert SectionWindowsFrom(ss, i) == [win] + later;
    assert win in SectionWindows(cpu.vm);
    var a, b := SharedWindows(cpu) + before, later + LastWindows(cpu.vm);
    assert Windows(cpu) == a + [win] + b;
    forall x | x in b ensures !InWindow(x, w) { }
    OverlayHit(if w in LowTables(at) then Identity(TABLE_FLAGS, w)
               else Overlay(Fault, [VGA_WINDOW, APIC_WINDOW], w), a, win, b, w);
  }

  /** A window with some right maps each of its pages with exactly that right. */
  lemma SectionTarget(s: Section, i: nat, vaddr: nat)
    requires s.size > 0 && s.vaddr <= vaddr < s.vaddr + s.size && s.vaddr % 0x1000 == 0 && s.paddr % 0x1000 == 0
    ensures var win := SectionWindow(s, Protection(i))[0];
      && InWindow(win, vaddr / 0x1000)
      && var t := WindowTarget(win, vaddr / 0x1000);
      && t.Mapped? && t.rights == Protection(i)
      && t.frame * 0x1000 + vaddr % 0x1000 == s.paddr + (vaddr - s.vaddr)
  {
    var win := SectionWindow(s, Protection(i))[0];
    var w := vaddr / 0x1000;
    InSectionWindow(s.vaddr, s.size, vaddr);
    assert Prefix(w, 0) == w;
    SectionRights(i);
  }

  lemma InSectionWindow(start: nat, size: nat, vaddr: nat)
    requires size > 0 && start <= vaddr < start + size && start % 0x1000 == 0
    ensures start / 0x1000 <= vaddr / 0x1000 < start / 0x1000 + PageCount(size, SIZE_4KB)
  {
  }

  lemma SectionRights(i: nat)
    ensures EptFlags(EPT_MTYPE_WB, Protection(i)) & EPT_PRESENT == Protection(i) != 0
  {
  }

  /** The guest's table pages are where the processor looks for them if and only if no
      window hides one. */
  lemma TablesVisibleIff(mem: Heap, ept: nat, cpu: CpuInfo, at: Tree)
    requires EptAsPlanned(mem, ept, cpu, at) && AllLow(at) && LowFrames(at)
    ensures TablesVisible(mem, ept, at) <==> TablesReach(cpu, at)
  {
    hide Walk, Overlay, Windows, LastHit, WindowTarget;
    forall k | k in at
      ensures TableReach(cpu, at[k]) <==>
        Walk(mem, EPT_PRESENT, ept, 4, at[k]).Mapped? && Walk(mem, EPT_PRESENT, ept, 4, at[k]).frame == at[k]
    {
      TableView(mem, ept, cpu, at, k);
    }
  }

  /** What the EPT makes of a table page. */
  lemma TableView(mem: Heap, ept: nat, cpu: CpuInfo, at: Tree, k: Slot)
    requires EptAsPlanned(mem, ept, cpu, at) && AllLow(at) && LowFrames(at) && k in at
    ensures LastHit(Windows(cpu), at[k]).None? ==>
      Walk(mem, EPT_PRESENT, ept, 4, at[k]) == Mapped(at[k], TABLE_FLAGS, TABLE_FLAGS & EPT_PRESENT)
    ensures LastHit(Windows(cpu), at[k]).Some? ==>
      Walk(mem, EPT_PRESENT, ept, 4, at[k]) == WindowTarget(LastHit(Windows(cpu), at[k]).value, at[k])
    ensures TABLE_FLAGS & EPT_PRESENT != 0
  {
    hide Walk, Overlay, Windows, LastHit, WindowTarget;
    assert IsLow(k) && at[k] in LowTables(at);
    OverlayIsLast(Identity(TABLE_FLAGS, at[k]), Windows(cpu), at[k]);
    IdentityRights(at[k]);
  }

  lemma IdentityRights(t: nat)
    ensures Identity(TABLE_FLAGS, t) == Mapped(t, TABLE_FLAGS, TABLE_FLAGS & EPT_PRESENT)
    ensures TABLE_FLAGS & EPT_PRESENT != 0
  {
  }

  /** When a window hides one, the walk goes on in the window's memory instead, whatever it
      holds, or ends if the window allows nothing. */
  lemma HiddenTable(mem: Heap, ept: nat, cpu: CpuInfo, at: Tree, k: Slot, level: nat, v: nat)
    requires EptAsPlanned(mem, ept, cpu, at) && AllLow(at) && LowFrames(at) && k in at && 1 <= level <= 4
    requires !TableReach(cpu, at[k])
    ensures LastHit(Windows(cpu), at[k]).Some?
    ensures
      var target := WindowTarget(LastHit(Windows(cpu), at[k]).value, at[k]);
      && (target.Fault? ==> NestedWalk(mem, ept, at[k], level, v) == EptViolation(at[k]))
      && (target.Mapped? ==> NestedWalk(mem, ept, at[k], level, v) == ReadTable(mem, ept, target.frame, level, v))
  {
    hide Walk, Windows, LastHit, WindowTarget, ReadTable;
    TableView(mem, ept, cpu, at, k);
  }

  /** The main result of the mapping side: after ept_pmap, an address inside section i
      reaches the byte of the section's memory at the same distance from its start,
      with the rights the section was given. */
  lemma SectionTranslates(mem: Heap, pml4: nat, at: Tree, ept: nat, cpu: CpuInfo, i: nat, vaddr: nat)
    requires IsTree(mem, pml4, at, PAGING_LINK) && AllLow(at) && LowFrames(at)
    requires GuestIdentity(mem, pml4) && EptAsPlanned(mem, ept, cpu, at)
    requires Ordered(Sections(cpu.vm)) && Clear(cpu, at)
    requires i < 5
      && Sections(cpu.vm)[i].vaddr <= vaddr < Sections(cpu.vm)[i].vaddr + Sections(cpu.vm)[i].size <= 0x1_0000_0000
    ensures var n := NestedWalk(mem, ept, pml4, 4, vaddr / 0x1000);
      var s := Sections(cpu.vm)[i];
      && n.Reached? && n.frame * 0x1000 + vaddr % 0x1000 == s.paddr + (vaddr - s.vaddr)
      && n.eptRights == Protection(i) && n.guestRights == PAGING_LINK
  {
    hide NestedWalk, Walk, SectionsStay, TablesReach, TablesVisible, AllLow, LowFrames, IsTree, EptView, WindowTarget,
         InWindow;
    var s, w := Sections(cpu.vm)[i], vaddr / 0x1000;
    TablesVisibleIff(mem, ept, cpu, at);
    PathStartsAtRoot(w);
    RootInTree(mem, pml4, at, PAGING_LINK);
    NestedIsTwoStage(mem, ept, pml4, at, PAGING_LINK, w, 4);
    SectionTarget(s, i, vaddr);
    SectionDecides(cpu, at, i, w);
    GuestRights(w);
  }

  lemma GuestRights(w: nat)
    ensures Through(PageAt(PAGING_PRESENT, w, GuestFlags(w)), PAGING_LINK) == Mapped(w, GuestFlags(w), PAGING_LINK)
  {
  }

  // ------------------------------------------------------------------- virt2phys

  /** virt2phys agrees with the two-stage translation on every address of the first
      four sections, and on a stack address exactly when it is not past vm_end_vaddr;
      beyond, it panics although the address is mapped. */
  lemma Virt2PhysAgrees(vm: VmInfo, i: nat, vaddr: nat)
    requires Ordered(Sections(vm)) && i < 5
    requires Sections(vm)[i].vaddr <= vaddr < Sections(vm)[i].vaddr + Sections(vm)[i].size
    ensures Virt2Phys(vm, vaddr) == Some(Sections(vm)[i].paddr + (vaddr - Sections(vm)[i].vaddr))
            <==> i < 4 || vaddr <= vm.endVaddr
    ensures i == 4 && vaddr > vm.endVaddr ==> Virt2Phys(vm, vaddr) == None
  {
    var ss := Sections(vm);
    assert ss[0].vaddr + ss[0].size <= ss[1].vaddr && ss[1].vaddr + ss[1].size <= ss[2].vaddr
        && ss[2].vaddr + ss[2].size <= ss[3].vaddr && ss[3].vaddr + ss[3].size <= ss[4].vaddr;
  }

  /** Walking the guest's tables through the EPT reaches a page, and virt2phys names the
      very same byte, unless the address is a stack address past vm_end_vaddr. */
  ghost predicate Agrees(mem: Heap, ept: nat, pml4: nat, vm: VmInfo, vaddr: nat) {
    var n := NestedWalk(mem, ept, pml4, 4, vaddr / 0x1000);
    n.Reached?
      && (Virt2Phys(vm, vaddr) == Some(n.frame * 0x1000 + vaddr % 0x1000)
          <==> vaddr < vm.stack.vaddr || vaddr <= vm.endVaddr)
  }

  predicate InSection(vm: VmInfo, i: nat, vaddr: nat) {
    i < 5 && Sections(vm)[i].vaddr <= vaddr < Sections(vm)[i].vaddr + Sections(vm)[i].size <= 0x1_0000_0000
  }

  lemma TranslationIsVirt2Phys(mem: Heap, pml4: nat, at: Tree, ept: nat, cpu: CpuInfo, i: nat, vaddr: nat)
    requires IsTree(mem, pml4, at, PAGING_LINK) && AllLow(at) && LowFrames(at)
    requires GuestIdentity(mem, pml4) && EptAsPlanned(mem, ept, cpu, at)
    requires Ordered(Sections(cpu.vm)) && Clear(cpu, at) && InSection(cpu.vm, i, vaddr)
    ensures Agrees(mem, ept, pml4, cpu.vm, vaddr)
  {
    hide IsTree, AllLow, LowFrames, GuestIdentity, EptAsPlanned, Clear, NestedWalk, Virt2Phys;
    SectionTranslates(mem, pml4, at, ept, cpu, i, vaddr);
    Virt2PhysAgrees(cpu.vm, i, vaddr);
    if i < 4 {
      OrderedFar(Sections(cpu.vm), i, 4);
    }
  }

  /** ept_pmap, and what it is for: on every address of every section the hardware's
      two-stage translation and virt2phys agree, if no window hides a table; and none does
      if no window covers a free frame. */
  method MapForVirt2Phys(pt: PageTables, cpu: CpuInfo)
    returns (r: MapResult<(nat, nat)>, ghost atG: Tree, ghost atE: Tree, ghost added: set<nat>)
    requires pt.alloc.Valid() && forall win | win in Windows(cpu) :: IsWindow(win)
    modifies pt, pt.alloc, pt.alloc.nodes
    ensures pt.alloc.Valid()
    ensures r.Stopped? ==>
      || (r.why == BadAlignment && exists win | win in Windows(cpu) :: win.paddr % 0x1000 != 0)
      || (r.why == OutOfMemory && pt.alloc.NoRun(1))
    ensures r.Done? && WindowsTaken(cpu, old(pt.alloc.blocks), pt.alloc.Base(), pt.alloc.total) ==>
      TablesReach(cpu, atG)
    ensures r.Done? ==> (TablesVisible(pt.mem, r.value.1, atG) <==> TablesReach(cpu, atG))
    ensures r.Done? && Ordered(Sections(cpu.vm)) && SectionsStay(cpu) && TablesReach(cpu, atG) ==>
      forall i: nat, vaddr: nat | InSection(cpu.vm, i, vaddr) :: Agrees(pt.mem, r.value.1, r.value.0, cpu.vm, vaddr)
  {
    hide Allocator.Valid, Allocator.NoRun, IsTree, AllLow, GuestIdentity, EptAsPlanned, Extends, OthersKept,
         NestedWalk, Windows, Tables,
         Agrees, InSection, Ordered, SectionsStay, TablesStay, TablesReach, TablesVisible, WindowsTaken;
    ghost var blocks := pt.alloc.blocks;
    r, atG, atE, added := EptPmap(pt, cpu, false);
    if r.Done? {
      if WindowsTaken(cpu, blocks, pt.alloc.Base(), pt.alloc.total) {
        NewTablesStay(pt, cpu, blocks, atG, added);
        StayReach(cpu, atG);
      }
      TableFramesAreLow(pt, atG);
      TablesVisibleIff(pt.mem, r.value.1, cpu, atG);
      if Ordered(Sections(cpu.vm)) && Clear(cpu, atG) {
        forall i: nat, vaddr: nat | InSection(cpu.vm, i, vaddr)
          ensures Agrees(pt.mem, r.value.1, r.value.0, cpu.vm, vaddr)
        {
          TranslationIsVirt2Phys(pt.mem, r.value.0, atG, r.value.1, cpu, i, vaddr);
        }
      }
    }
  }

  /** Table pages were free before, and windows cover no free frame. */
  lemma NewTablesStay(pt: PageTables, cpu: CpuInfo, blocks: map<nat, Block>, at: Tree, added: set<nat>)
    requires pt.alloc.Valid() && Extends(blocks, pt.alloc.blocks, added) && Tables(at) <= added
    requires WindowsTaken(cpu, blocks, pt.alloc.Base(), pt.alloc.total)
    ensures TablesStay(cpu, at)
  {
    hide Allocator.Valid, Windows, InWindow;
    forall k, x | k in at && x in Windows(cpu) ensures !InWindow(x, at[k]) {
      var f := at[k];
      assert f in Tables(at);
      pt.alloc.LiveBlocksAreDisjoint(f, f);
      if Owned(blocks, f) {
        var g :| g in blocks && g <= f < g + blocks[g].pages;
        pt.alloc.LiveBlocksAreDisjoint(g, f);
      }
    }
  }

  lemma TableFramesAreLow(pt: PageTables, at: Tree)
    requires pt.alloc.Valid() && OwnsTables(pt.alloc.blocks, at)
    ensures LowFrames(at)
  {
    hide Allocator.Valid;
    forall k | k in at ensures at[k] < TWO_31 {
      pt.alloc.LiveBlocksAreDisjoint(at[k], at[k]);
    }
  }

  /** vm_end_vaddr as load_elf computes it, in 64-bit arithmetic, from where the
      allocator put the stack relative to the code. */
  function EndVaddr(code: Section, stack: Section): nat {
    (code.vaddr + (stack.paddr + stack.size - code.paddr)) % 0x1_0000_0000_0000_0000
  }

  lemma EndVaddrValue(code: Section, stack: Section)
    requires code.vaddr <= 0x1_0000_0000 && code.paddr < 0x1_0000_0000 && stack.paddr + stack.size <= 0x1_0000_0000
    ensures
      var end := code.vaddr + (stack.paddr + stack.size - code.paddr);
      EndVaddr(code, stack) == if end >= 0 then end else end + 0x1_0000_0000_0000_0000
  {
  }

  /** With that value virt2phys covers the whole stack, its upper end included, if and
      only if the stack lies at least as far behind the code in physical memory as it
      does in the address space, or so far before it that the sum wraps around. */
  lemma StackCoveredIff(vm: VmInfo)
    requires Ordered(Sections(vm)) && vm.stack.size > 0 && vm.endVaddr == EndVaddr(vm.code, vm.stack)
    requires vm.stack.vaddr + vm.stack.size <= 0x1_0000_0000
    requires vm.code.paddr < 0x1_0000_0000 && vm.stack.paddr + vm.stack.size <= 0x1_0000_0000
    ensures (forall vaddr | vm.stack.vaddr <= vaddr <= vm.stack.vaddr + vm.stack.size :: Virt2Phys(vm, vaddr).Some?)
       <==> || vm.stack.paddr - vm.code.paddr >= vm.stack.vaddr - vm.code.vaddr
            || vm.code.vaddr + vm.stack.paddr + vm.stack.size < vm.code.paddr
  {
    var ss := Sections(vm);
    assert ss[0].vaddr + ss[0].size <= ss[1].vaddr && ss[1].vaddr + ss[1].size <= ss[2].vaddr
        && ss[2].vaddr + ss[2].size <= ss[3].vaddr && ss[3].vaddr + ss[3].size <= ss[4].vaddr;
    hide Ordered, EndVaddr;
    EndVaddrValue(vm.code, vm.stack);
    var top := vm.stack.vaddr + vm.stack.size;
    assert (forall vaddr | vm.stack.vaddr <= vaddr <= top :: Virt2Phys(vm, vaddr).Some?) <==> Virt2Phys(vm, top).Some?;
  }

  /** A VM whose pages are adjacent from a frame on, but whose address space has a gap
      between the code and the rest. */
  function GapVm(frame: nat): VmInfo {
    var code := Section(0x40_0000, frame * 0x1000, 0x1000);
    var stack := Section(0x80_3000, (frame + 4) * 0x1000, 0x20_0000);
    VmInfo(0x40_0000, EndVaddr(code, stack), code, Section(0x80_0000, (frame + 1) * 0x1000, 0x1000),
           Section(0x80_1000, (frame + 2) * 0x1000, 0x1000), Section(0x80_2000, (frame + 3) * 0x1000,
                                                                     0x1000), stack, 0, [], 0)
  }

  /** Every address of its stack makes virt2phys panic, although it is mapped. */
  lemma StackNotCovered(frame: nat)
    requires frame + 516 <= 0x10_0000
    ensures Ordered(Sections(GapVm(frame))) && GapVm(frame).endVaddr == 0x60_4000
    ensures forall vaddr | 0x80_3000 <= vaddr <= 0xA0_3000 :: Virt2Phys(GapVm(frame), vaddr) == None
  {
    hide EndVaddr;
    var vm := GapVm(frame);
    assert vm.code.vaddr + (vm.stack.paddr + vm.stack.size - vm.code.paddr) == 0x60_4000;
    EndVaddrValue(vm.code, vm.stack);
  }
}
