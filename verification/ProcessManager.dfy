/** The memory side of fork, exec and exit (vms/pm/main.c): which VM holds which
    blocks, over every sequence of calls. */
module ProcessManager {
  import opened BlockList
  import opened PageAllocator
  import opened PageWalk
  import opened Pmap
  import opened VmLayout
  import opened Prelude
  import opened VmMapping
  import opened TwoStage
  import opened Ledger
  import opened Room

  /** cpu_info of one core: whether it runs a VM, its VM and the VM's two trees. */
  datatype Proc = Proc(hasVm: bool, cpu: CpuInfo, pml4: nat, ept: nat)

  /** The tables of a VM's guest tree and EPT. */
  datatype Trees = Trees(guest: Tree, ept: Tree)

  const KBD: nat := 3
  const JUNK: nat := 4
  const CONSOLE: nat := 5
  const ALWAYS_BUSY: nat := 3
  const MAX_CPUS: nat := 255
  const STACK_SIZE: nat := 0x20_0000

  predicate IsDriver(id: nat) { id == KBD || id == CONSOLE || id == JUNK }

  // -------------------------------------------------------------- what a VM holds

  /** Holding the five sections of vm on top of h. */
  function PlusSections(h: Held, vm: VmInfo): Held {
    Held(h.shared + Frame(vm.code.paddr) + Frame(vm.rodata.paddr),
         h.own + Frame(vm.data.paddr) + Frame(vm.bss.paddr) + Frame(vm.stack.paddr), h.tables)
  }

  ghost function PlusTables(h: Held, at: Tree): Held {
    h.(tables := h.tables + multiset(Tables(at)))
  }

  ghost function PlusTrees(h: Held, tr: Trees): Held { PlusTables(PlusTables(h, tr.ept), tr.guest) }

  /** Holding the descriptor and channel pages of vm on top of h. */
  function PlusPages(h: Held, vm: VmInfo): Held { Gain(Gain(h, true, vm.channels), true, vm.fds) }

  /** Everything a VM holds. */
  ghost function VmHeld(vm: VmInfo, tr: Trees): Held {
    PlusSections(PlusTrees(PlusPages(NOTHING, vm), tr), vm)
  }

  ghost function AllHeld(procs: seq<Proc>, trees: map<nat, Trees>): map<nat, Held>
    requires forall c | c in trees :: c < |procs|
  {
    map c | c in trees :: VmHeld(procs[c].cpu.vm, trees[c])
  }

  /** VmHeld on top of rest, in the order in which exit gives it back. */
  lemma HeldInOrder(rest: Held, vm: VmInfo, tr: Trees)
    ensures Plus(rest, VmHeld(vm, tr)) == PlusSections(PlusTrees(PlusPages(rest, vm), tr), vm)
  {
    hide Frame, Tables;
    var f, c, g, e := Frame(vm.fds), Frame(vm.channels), multiset(Tables(tr.guest)), multiset(Tables(tr.ept));
    var d, b, k := Frame(vm.data.paddr), Frame(vm.bss.paddr), Frame(vm.stack.paddr);
    var x, r := Frame(vm.code.paddr), Frame(vm.rodata.paddr);
    assert rest.shared + (multiset{} + x + r) == rest.shared + x + r;
    assert rest.own + (multiset{} + c + f + d + b + k) == rest.own + c + f + d + b + k;
    assert rest.tables + (multiset{} + e + g) == rest.tables + e + g;
  }

  // ---------------------------------------------------- steps on the allocator

  /** alloc_mem_pages, in the books. */
  method Take(pt: PageTables, n: nat, own: bool, ghost base: map<nat, Block>, ghost h: Held) returns (paddr: nat)
    requires pt.alloc.Valid() && Books(pt.alloc.blocks, base, h)
    modifies pt.alloc, pt.alloc.nodes
    ensures pt.alloc.Valid() && Books(pt.alloc.blocks, base, Gain(h, own, paddr))
    ensures paddr % 0x1000 == 0 && (n == 0 ==> paddr == 0)
    ensures paddr != 0 ==> paddr / 0x1000 < pt.alloc.Base() + pt.alloc.total
    ensures paddr == 0 && n > 0 ==> pt.alloc.NoRun(n)
    ensures Fitted(old(pt.alloc.blocks), pt.alloc.blocks, pt.alloc.Base(), pt.alloc.total, paddr, n)
  {
    hide Allocator.Valid, Books;
    ghost var blocks := pt.alloc.blocks;
    paddr := pt.alloc.AllocMemPages(n);
    if paddr != 0 {
      BooksTake(blocks, base, h, own, paddr, n);
    } else {
      GainNothing(h, own);
    }
  }

  lemma GainNothing(h: Held, own: bool)
    ensures Gain(h, own, 0) == h
  {
  }

  /** realloc_mem_block of a block that is held. */
  method Share(pt: PageTables, paddr: nat, ghost base: map<nat, Block>, ghost h: Held) returns (r: nat)
    requires pt.alloc.Valid() && Books(pt.alloc.blocks, base, h)
    requires paddr != 0 && paddr % 0x1000 == 0 && Has(h, false, paddr)
    requires RefOf(base, paddr / 0x1000) + h.shared[paddr / 0x1000] + 1 < TWO_32
    modifies pt.alloc, pt.alloc.nodes
    ensures pt.alloc.Valid() && r == paddr && Books(pt.alloc.blocks, base, Gain(h, false, paddr))
    ensures Shrinks(old(pt.alloc.blocks), pt.alloc.blocks)
  {
    hide Allocator.Valid, Books, Has, Gain;
    ghost var f := paddr / 0x1000;
    BooksHeld(pt.alloc.blocks, base, h, false, paddr);
    BooksRetain(pt.alloc.blocks, base, h, paddr);
    pt.alloc.LiveBlocksAreDisjoint(f, f);
    var o := pt.alloc.ReallocMemBlock(paddr);
    r := o.value;
  }

  /** free_mem_pages of a block that is held, skipped for address 0. */
  method Drop(pt: PageTables, paddr: nat, ghost own: bool, ghost base: map<nat, Block>, ghost h: Held)
    requires pt.alloc.Valid() && Books(pt.alloc.blocks, base, Gain(h, own, paddr)) && paddr % 0x1000 == 0
    modifies pt.alloc, pt.alloc.nodes
    ensures pt.alloc.Valid() && Books(pt.alloc.blocks, base, h) && Shrinks(old(pt.alloc.blocks), pt.alloc.blocks)
  {
    hide Allocator.Valid, Books, Has, Gain, Lose;
    GainLose(h, own, paddr);
    if paddr != 0 {
      ghost var f, held := paddr / 0x1000, Gain(h, own, paddr);
      BooksHeld(pt.alloc.blocks, base, held, own, paddr);
      BooksRelease(pt.alloc.blocks, base, held, own, paddr);
      pt.alloc.LiveBlocksAreDisjoint(f, f);
      var o := pt.alloc.FreeMemPages(paddr);
      assert o.Ok?;
    } else {
      GainNothing(h, own);
    }
  }

  lemma GainLose(h: Held, own: bool, paddr: nat)
    ensures Has(Gain(h, own, paddr), own, paddr) && Lose(Gain(h, own, paddr), own, paddr) == h
  {
    var m := if own then h.own else h.shared;
    assert m + Frame(paddr) - Frame(paddr) == m;
  }

  /** free_page_tables of a tree that is held. */
  method DropTables(pt: PageTables, root: nat, ghost at: Tree, ghost link: Flags, ghost base: map<nat, Block>,
                    ghost h: Held)
    requires pt.alloc.Valid() && Books(pt.alloc.blocks, base, PlusTables(h, at))
    requires IsTree(pt.mem, root, at, link) && AllLow(at) && Slot(3, 0) in at
    modifies pt.alloc, pt.alloc.nodes
    ensures pt.alloc.Valid() && Books(pt.alloc.blocks, base, h) && Shrinks(old(pt.alloc.blocks), pt.alloc.blocks)
  {
    hide Allocator.Valid, Books, IsTree;
    TablesInBooks(pt.alloc.blocks, base, h, at);
    assert LowTables(at) == Tables(at);
    BooksRemove(pt.alloc.blocks, base, PlusTables(h, at), Tables(at));
    assert h.tables + multiset(Tables(at)) - multiset(Tables(at)) == h.tables;
    var o := pt.FreePageTables(root, at, link);
    assert o.Ok?;
  }

  lemma TablesInBooks(blocks: map<nat, Block>, base: map<nat, Block>, h: Held, at: Tree)
    requires Books(blocks, base, PlusTables(h, at))
    ensures OwnsTables(blocks, at)
  {
    hide Books;
    forall k | k in at ensures at[k] in blocks && blocks[at[k]] == Block(1, 1) {
      BooksAt(blocks, base, PlusTables(h, at), at[k]);
      assert multiset(Tables(at))[at[k]] == 1;
    }
  }

  // ------------------------------------------------------------------- sections

  /** The section has memory unless it is empty, and the memory is managed. */
  predicate HasMemory(pt: PageTables, sec: Section) {
    && (sec.size > 0 ==> sec.paddr != 0)
    && (sec.paddr != 0 ==> sec.paddr % 0x1000 == 0 && sec.paddr / 0x1000 < pt.alloc.Base() + pt.alloc.total)
  }

  /** Memory for a section of its own. */
  method NewSection(pt: PageTables, vaddr: nat, size: nat, own: bool, ghost base: map<nat, Block>, ghost h: Held)
    returns (ok: bool, r: Section)
    requires pt.alloc.Valid() && Books(pt.alloc.blocks, base, h)
    modifies pt.alloc, pt.alloc.nodes
    ensures pt.alloc.Valid() && Books(pt.alloc.blocks, base, Gain(h, own, r.paddr))
    ensures r.vaddr == vaddr && r.size == size && (size == 0 ==> r.paddr == 0)
    ensures !ok ==> Pages(size) > 0 && pt.alloc.NoRun(Pages(size)) && pt.alloc.blocks == old(pt.alloc.blocks)
    ensures !ok ==> !HasRun(old(pt.alloc.blocks), pt.alloc.Base(), pt.alloc.total, Pages(size))
    ensures ok ==> HasMemory(pt, r)
    ensures Fitted(old(pt.alloc.blocks), pt.alloc.blocks, pt.alloc.Base(), pt.alloc.total, r.paddr, Pages(size))
  {
    hide Allocator.Valid, Books, Allocator.NoRun, Gain;
    var paddr := Take(pt, Pages(size), own, base, h);
    RunIsNoRun(pt.alloc, Pages(size));
    r := Section(vaddr, paddr, size);
    ok := paddr != 0 || size == 0;
  }

  /** Fork may share this section's block. */
  ghost predicate Sharable(pt: PageTables, sec: Section, base: map<nat, Block>, h: Held) {
    pt.alloc.Reallocable(sec.paddr) ==>
      && HasMemory(pt, sec) && Has(h, false, sec.paddr)
      && RefOf(base, sec.paddr / 0x1000) + h.shared[sec.paddr / 0x1000] + 2 < TWO_32
  }

  /** Code and rodata of the child: the parent's block, shared, when it is in the managed
      range; a copy otherwise. */
  method ShareOrCopy(pt: PageTables, sec: Section, ghost base: map<nat, Block>, ghost h: Held)
    returns (ok: bool, r: Section)
    requires pt.alloc.Valid() && Books(pt.alloc.blocks, base, h)
    requires pt.alloc.Reallocable(sec.paddr) ==>
      HasMemory(pt, sec) && Has(h, false, sec.paddr)
        && RefOf(base, sec.paddr / 0x1000) + h.shared[sec.paddr / 0x1000] + 1 < TWO_32
    modifies pt.alloc, pt.alloc.nodes
    ensures pt.alloc.Valid() && Books(pt.alloc.blocks, base, Gain(h, false, r.paddr))
    ensures r.vaddr == sec.vaddr && r.size == sec.size
    ensures pt.alloc.Reallocable(sec.paddr) ==> ok && r.paddr == sec.paddr
    ensures !ok ==> Pages(sec.size) > 0 && pt.alloc.NoRun(Pages(sec.size))
    ensures !ok ==> !HasRun(old(pt.alloc.blocks), pt.alloc.Base(), pt.alloc.total, Pages(sec.size))
    ensures Spends(old(pt.alloc.blocks), pt.alloc.blocks, pt.alloc.Base(), pt.alloc.total, Pages(sec.size))
    ensures ok ==> HasMemory(pt, r)
  {
    hide Allocator.Valid, Books, Allocator.NoRun, Gain, Has, Spends, Shrinks, Fitted, HasRun, Pages;
    ghost var first, total := pt.alloc.Base(), pt.alloc.total;
    if pt.alloc.Reallocable(sec.paddr) {
      var p := Share(pt, sec.paddr, base, h);
      ShrinkSpends(old(pt.alloc.blocks), pt.alloc.blocks, first, total);
      SpendsMore(old(pt.alloc.blocks), pt.alloc.blocks, first, total, 0, Pages(sec.size));
      ok, r := true, sec;
    } else {
      ok, r := NewSection(pt, sec.vaddr, sec.size, false, base, h);
      FitSpends(old(pt.alloc.blocks), pt.alloc.blocks, first, total, r.paddr, Pages(sec.size));
    }
  }

  predicate AllHaveMemory(pt: PageTables, vm: VmInfo) {
    HasMemory(pt, vm.code) && HasMemory(pt, vm.data) && HasMemory(pt, vm.rodata) && HasMemory(pt, vm.bss)
      && HasMemory(pt, vm.stack)
  }

  /** Everything the descriptor refers to is page aligned managed memory, and every
      non-empty section has some. */
  predicate Tidy(pt: PageTables, vm: VmInfo) {
    && AllHaveMemory(pt, vm) && HasMemory(pt, Section(0, vm.fds, 0)) && HasMemory(pt, Section(0, vm.channels, 0))
  }

  predicate SameShape(a: Section, b: Section) { a.vaddr == b.vaddr && a.size == b.size }

  /** Two VMs have the same address space, wherever its memory is. */
  predicate SameLayout(a: VmInfo, b: VmInfo) {
    && a.startVaddr == b.startVaddr && a.endVaddr == b.endVaddr
    && SameShape(a.code, b.code) && SameShape(a.data, b.data) && SameShape(a.rodata, b.rodata)
    && SameShape(a.bss, b.bss) && SameShape(a.stack, b.stack)
  }

  /** The number of pages of some section. */
  predicate IsSectionSize(vm: VmInfo, n: nat) {
    || n == Pages(vm.code.size) || n == Pages(vm.data.size) || n == Pages(vm.rodata.size)
    || n == Pages(vm.bss.size) || n == Pages(vm.stack.size)
  }

  /** The pages of all its sections. */
  function SectionPages(vm: VmInfo): nat {
    Pages(vm.code.size) + Pages(vm.data.size) + Pages(vm.rodata.size) + Pages(vm.bss.size) + Pages(vm.stack.size)
  }

  /** The sections of a forked VM: code and rodata shared where possible, everything else
      private. */
  method ForkSections(pt: PageTables, vm: VmInfo, was: VmInfo, ghost base: map<nat, Block>, ghost h: Held)
    returns (ok: bool, child: VmInfo, ghost need: nat)
    requires pt.alloc.Valid() && Books(pt.alloc.blocks, base, h)
    requires Sharable(pt, vm.code, base, h) && Sharable(pt, vm.rodata, base, h)
    modifies pt.alloc, pt.alloc.nodes
    ensures pt.alloc.Valid()
    ensures !ok ==> need > 0 && IsSectionSize(vm, need) && pt.alloc.NoRun(need)
    ensures !ok ==> !HasRun(old(pt.alloc.blocks), pt.alloc.Base(), pt.alloc.total, SectionPages(vm))
    ensures ok ==> Spends(old(pt.alloc.blocks), pt.alloc.blocks, pt.alloc.Base(), pt.alloc.total, SectionPages(vm))
    ensures ok ==>
      && Books(pt.alloc.blocks, base, PlusSections(h, child))
      && AllHaveMemory(pt, child) && SameLayout(vm, child) && child.fdOffsets == [] && child.fds == was.fds
      && child.channels == was.channels
      && (pt.alloc.Reallocable(vm.code.paddr) ==> child.code.paddr == vm.code.paddr)
      && (pt.alloc.Reallocable(vm.rodata.paddr) ==> child.rodata.paddr == vm.rodata.paddr)
  {
    hide Allocator.Valid, Books, Allocator.NoRun, Frame, Fitted, Pages, Spends, HasRun;
    ghost var b0, first, total, all := pt.alloc.blocks, pt.alloc.Base(), pt.alloc.total, SectionPages(vm);
    SpendsNothing(b0, first, total);
    child, need := was, Pages(vm.code.size);
    var code, data, rodata, bss, stack;
    ok, code := ShareOrCopy(pt, vm.code, base, h);
    if !ok {
      TooShort(b0, b0, first, total, 0, need, all);
      return;
    }
    ghost var b1, spent := pt.alloc.blocks, need;
    ghost var h1 := Gain(h, false, code.paddr);
    need := Pages(vm.data.size);
    ok, data := NewSection(pt, vm.data.vaddr, vm.data.size, true, base, h1);
    if !ok {
      TooShort(b0, b1, first, total, spent, need, all);
      return;
    }
    SpendsFit(b0, b1, pt.alloc.blocks, first, total, spent, data.paddr, need);
    b1, spent := pt.alloc.blocks, spent + need;
    ghost var h2 := Gain(h1, true, data.paddr);
    FrameCount(code.paddr, vm.rodata.paddr / 0x1000);
    need := Pages(vm.rodata.size);
    ok, rodata := ShareOrCopy(pt, vm.rodata, base, h2);
    if !ok {
      TooShort(b0, b1, first, total, spent, need, all);
      return;
    }
    SpendsTrans(b0, b1, pt.alloc.blocks, first, total, spent, need);
    b1, spent := pt.alloc.blocks, spent + need;
    ghost var h3 := Gain(h2, false, rodata.paddr);
    need := Pages(vm.bss.size);
    ok, bss := NewSection(pt, vm.bss.vaddr, vm.bss.size, true, base, h3);
    if !ok {
      TooShort(b0, b1, first, total, spent, need, all);
      return;
    }
    SpendsFit(b0, b1, pt.alloc.blocks, first, total, spent, bss.paddr, need);
    b1, spent := pt.alloc.blocks, spent + need;
    ghost var h4 := Gain(h3, true, bss.paddr);
    need := Pages(vm.stack.size);
    ok, stack := NewSection(pt, vm.stack.vaddr, vm.stack.size, true, base, h4);
    if !ok {
      TooShort(b0, b1, first, total, spent, need, all);
      return;
    }
    SpendsFit(b0, b1, pt.alloc.blocks, first, total, spent, stack.paddr, need);
    child := VmInfo(vm.startVaddr, vm.endVaddr, code, data, rodata, bss, stack, was.fds, [], was.channels);
    assert Gain(h4, true, stack.paddr) == PlusSections(h, child);
  }

  lemma SpendsFit(b0: map<nat, Block>, b1: map<nat, Block>, b2: map<nat, Block>, first: nat, total: nat, spent: nat,
                  paddr: nat, n: nat)
    requires Spends(b0, b1, first, total, spent) && Fitted(b1, b2, first, total, paddr, n)
    ensures Spends(b0, b2, first, total, spent + n)
  {
    hide Fitted, Spends;
    FitSpends(b1, b2, first, total, paddr, n);
    SpendsTrans(b0, b1, b2, first, total, spent, n);
  }

  lemma FrameCount(paddr: nat, f: nat)
    ensures Frame(paddr)[f] <= 1
  {
  }

  /** Giving back the five sections of a VM, as exec and exit do. */
  method DropSections(pt: PageTables, vm: VmInfo, ghost base: map<nat, Block>, ghost h: Held)
    requires pt.alloc.Valid() && Books(pt.alloc.blocks, base, PlusSections(h, vm))
    requires vm.code.paddr % 0x1000 == 0 && vm.data.paddr % 0x1000 == 0 && vm.rodata.paddr % 0x1000 == 0
    requires vm.bss.paddr % 0x1000 == 0 && vm.stack.paddr % 0x1000 == 0
    modifies pt.alloc, pt.alloc.nodes
    ensures pt.alloc.Valid() && Books(pt.alloc.blocks, base, h) && Shrinks(old(pt.alloc.blocks), pt.alloc.blocks)
  {
    hide Allocator.Valid, Books, Gain, PlusSections;
    SectionsInOrder(h, vm);
    ghost var h4 := Gain(h, true, vm.stack.paddr);
    ghost var h3 := Gain(h4, true, vm.bss.paddr);
    ghost var h2 := Gain(h3, false, vm.rodata.paddr);
    ghost var h1 := Gain(h2, true, vm.data.paddr);
    Drop(pt, vm.code.paddr, false, base, h1);
    Drop(pt, vm.data.paddr, true, base, h2);
    Drop(pt, vm.rodata.paddr, false, base, h3);
    Drop(pt, vm.bss.paddr, true, base, h4);
    Drop(pt, vm.stack.paddr, true, base, h);
  }

  lemma SectionsInOrder(h: Held, vm: VmInfo)
    ensures PlusSections(h, vm)
         == Gain(Gain(Gain(Gain(Gain(h, true, vm.stack.paddr), true, vm.bss.paddr), false, vm.rodata.paddr), true,
                      vm.data.paddr), false, vm.code.paddr)
  {
    hide Frame;
    var d, b, k := Frame(vm.data.paddr), Frame(vm.bss.paddr), Frame(vm.stack.paddr);
    var x, r := Frame(vm.code.paddr), Frame(vm.rodata.paddr);
    assert h.shared + x + r == h.shared + r + x;
    assert h.own + d + b + k == h.own + k + b + d;
  }

  // -------------------------------------------------------------- the VM table

  /** The pages ept_pmap shares with every VM are pages below 4GB. */
  predicate SharedPagesLow(cpu: CpuInfo) {
    && PageLow(cpu.self) && PageLow(cpu.msgInput) && PageLow(cpu.msgOutput) && PageLow(cpu.msgReady)
    && PageLow(cpu.msgReadyBitmap)
  }

  predicate PageLow(paddr: nat) { paddr % 0x1000 == 0 && paddr / 0x1000 < 0x10_0000 }

  /** Every section ends below 4GB, rounded up to pages. */
  predicate SectionsLow(vm: VmInfo) {
    SectionLow(vm.code) && SectionLow(vm.data) && SectionLow(vm.rodata) && SectionLow(vm.bss) && SectionLow(vm.stack)
  }

  predicate SectionLow(sec: Section) { sec.vaddr / 0x1000 + Pages(sec.size) <= 0x10_0000 }

  /** The two trees of a VM are what its descriptor says. */
  ghost predicate TreesOf(mem: Heap, p: Proc, tr: Trees) {
    && IsTree(mem, p.pml4, tr.guest, PAGING_LINK) && AllLow(tr.guest) && Slot(3, 0) in tr.guest
    && IsTree(mem, p.ept, tr.ept, EPT_LINK) && AllLow(tr.ept) && Slot(3, 0) in tr.ept
    && Tables(tr.guest) !! Tables(tr.ept)
  }

  /** What holds of the core with id c; the VMs below ALWAYS_BUSY were made at boot,
      outside the managed memory. */
  ghost predicate ProcOk(pt: PageTables, mem: Heap, c: nat, p: Proc, trees: map<nat, Trees>) {
    && SharedPagesLow(p.cpu) && p.cpu.vm.fdOffsets == []
    && (c in trees || c < ALWAYS_BUSY ==> SectionsLow(p.cpu.vm))
    && (c in trees ==> p.hasVm && Tidy(pt, p.cpu.vm) && TreesOf(mem, p, trees[c]))
    && (c < ALWAYS_BUSY ==>
          && c !in trees && !pt.alloc.Reallocable(p.cpu.vm.code.paddr)
          && !pt.alloc.Reallocable(p.cpu.vm.rodata.paddr))
    && (c !in trees && c >= ALWAYS_BUSY ==> p.cpu.vm.fds == 0 && p.cpu.vm.channels == 0)
  }

  ghost predicate AllOk(pt: PageTables, mem: Heap, procs: seq<Proc>, trees: map<nat, Trees>) {
    && (forall c {:trigger c in trees} | c in trees :: c < |procs|)
    && forall c: nat {:trigger ProcOk(pt, mem, c, procs[c], trees)} | c < |procs| :: ProcOk(pt, mem, c, procs[c], trees)
  }

  /** All windows of a tidy VM below 4GB can be mapped. */
  lemma WindowsAreLow(pt: PageTables, cpu: CpuInfo)
    requires SharedPagesLow(cpu) && SectionsLow(cpu.vm) && Tidy(pt, cpu.vm) && cpu.vm.fdOffsets == []
    requires pt.alloc.Base() + pt.alloc.total <= 0x10_0000
    ensures LowMachine(pt, cpu)
    ensures forall win | win in Windows(cpu) :: IsWindow(win) && win.paddr % 0x1000 == 0
  {
    forall win | win in Windows(cpu) ensures IsLowWindow(win) && IsWindow(win) && win.paddr % 0x1000 == 0 {
      if win in SharedWindows(cpu) {
      } else if win in SectionWindows(cpu.vm) {
        SectionWindowsAreLow(pt, cpu.vm, 0, win);
      } else {
        assert win in LastWindows(cpu.vm);
        assert OffsetWindows([]) == [];
      }
    }
  }

  lemma {:induction false} SectionWindowsAreLow(pt: PageTables, vm: VmInfo, i: nat, win: Window)
    requires SectionsLow(vm) && Tidy(pt, vm) && i <= 5 && win in SectionWindowsFrom(Sections(vm), i)
    ensures IsLowWindow(win) && win.paddr % 0x1000 == 0
    decreases 5 - i
  {
    var ss := Sections(vm);
    if i < 5 {
      assert HasMemory(pt, ss[i]) && SectionLow(ss[i]);
      if win !in SectionWindow(ss[i], Protection(i)) {
        SectionWindowsAreLow(pt, vm, i + 1, win);
      }
    }
  }

  /** What everybody but c holds. */
  ghost function HeldByOthers(procs: seq<Proc>, trees: map<nat, Trees>, c: nat): Held
    requires forall d | d in trees :: d < |procs|
  {
    Total(AllHeld(procs, trees) - {c}, |procs|)
  }

  ghost function HeldByAll(procs: seq<Proc>, trees: map<nat, Trees>): Held
    requires forall d | d in trees :: d < |procs|
  {
    Total(AllHeld(procs, trees), |procs|)
  }

  lemma OthersAndOne(procs: seq<Proc>, trees: map<nat, Trees>, c: nat)
    requires (forall d | d in trees :: d < |procs|) && c < |procs|
    ensures c in trees ==>
      HeldByAll(procs, trees) == PlusSections(PlusTrees(PlusPages(HeldByOthers(procs, trees, c), procs[c].cpu.vm),
                                                        trees[c]), procs[c].cpu.vm)
    ensures c !in trees ==> HeldByAll(procs, trees) == HeldByOthers(procs, trees, c)
  {
    hide VmHeld, Plus, PlusSections, PlusTrees, PlusPages;
    var all := AllHeld(procs, trees);
    if c in trees {
      TotalWithout(all, |procs|, c);
      HeldInOrder(HeldByOthers(procs, trees, c), procs[c].cpu.vm, trees[c]);
    } else {
      assert all - {c} == all;
    }
  }

  /** Replacing what c holds. */
  lemma HeldAfter(procs: seq<Proc>, trees: map<nat, Trees>, c: nat, p: Proc, tr: Trees)
    requires (forall d | d in trees :: d < |procs|) && c < |procs|
    ensures HeldByAll(procs[c := p], trees[c := tr])
         == PlusSections(PlusTrees(PlusPages(HeldByOthers(procs, trees, c), p.cpu.vm), tr), p.cpu.vm)
    ensures HeldByAll(procs[c := p], trees - {c}) == HeldByOthers(procs, trees, c)
    ensures HeldByOthers(procs[c := p], trees[c := tr], c) == HeldByOthers(procs, trees, c)
  {
    hide VmHeld, Plus, PlusSections, PlusTrees, PlusPages;
    var others := AllHeld(procs, trees) - {c};
    assert AllHeld(procs[c := p], trees[c := tr]) == others[c := VmHeld(p.cpu.vm, tr)];
    assert AllHeld(procs[c := p], trees - {c}) == others;
    assert AllHeld(procs[c := p], trees[c := tr]) - {c} == others;
    TotalAdd(others, |procs|, c, VmHeld(p.cpu.vm, tr));
    HeldInOrder(HeldByOthers(procs, trees, c), p.cpu.vm, tr);
  }

  /** The tables of another VM are held by others. */
  lemma OtherTables(procs: seq<Proc>, trees: map<nat, Trees>, c: nat, d: nat)
    requires (forall e | e in trees :: e < |procs|) && d in trees && d != c
    ensures multiset(Tables(trees[d].guest)) <= HeldByOthers(procs, trees, c).tables
    ensures multiset(Tables(trees[d].ept)) <= HeldByOthers(procs, trees, c).tables
  {
    hide Total, Tables, Plus, VmHeld;
    var others := AllHeld(procs, trees) - {c};
    TotalWithout(others, |procs|, d);
    assert others[d] == VmHeld(procs[d].cpu.vm, trees[d]);
    HoldsTables(Total(others - {d}, |procs|), procs[d].cpu.vm, trees[d]);
  }

  lemma HoldsTables(rest: Held, vm: VmInfo, tr: Trees)
    ensures multiset(Tables(tr.guest)) <= Plus(rest, VmHeld(vm, tr)).tables
    ensures multiset(Tables(tr.ept)) <= Plus(rest, VmHeld(vm, tr)).tables
  {
    hide Tables, Frame;
    var g, e := multiset(Tables(tr.guest)), multiset(Tables(tr.ept));
    assert Plus(rest, VmHeld(vm, tr)).tables == rest.tables + (multiset{} + e + g);
  }

  /** Fresh pages are none of theirs. */
  lemma OthersStand(pt: PageTables, mem: Heap, mem': Heap, procs: seq<Proc>, trees: map<nat, Trees>, c: nat,
                    blocks: map<nat, Block>, base: map<nat, Block>, h: Held, added: set<nat>)
    requires AllOk(pt, mem, procs, trees) && c < |procs|
    requires Books(blocks, base, h) && h.tables == HeldByOthers(procs, trees, c).tables
    requires OthersKept(mem, mem', map[], added) && added !! blocks.Keys
    ensures forall d | d in trees && d != c :: TreesOf(mem', procs[d], trees[d])
  {
    hide Books, HeldByOthers, IsTree;
    forall d | d in trees && d != c ensures TreesOf(mem', procs[d], trees[d]) {
      assert ProcOk(pt, mem, d, procs[d], trees);
      OtherTables(procs, trees, c, d);
      TreeStands(mem, mem', procs[d].pml4, trees[d].guest, PAGING_LINK, blocks, base, h, added);
      TreeStands(mem, mem', procs[d].ept, trees[d].ept, EPT_LINK, blocks, base, h, added);
    }
  }

  lemma TreeStands(mem: Heap, mem': Heap, root: nat, at: Tree, link: Flags, blocks: map<nat, Block>,
                   base: map<nat, Block>, h: Held, added: set<nat>)
    requires IsTree(mem, root, at, link) && multiset(Tables(at)) <= h.tables
    requires Books(blocks, base, h) && OthersKept(mem, mem', map[], added) && added !! blocks.Keys
    ensures IsTree(mem', root, at, link)
  {
    hide Books;
    forall k | k in at ensures at[k] in mem' && mem'[at[k]] == mem[at[k]] {
      assert Placed(mem, at, k);
      BooksAt(blocks, base, h, at[k]);
      assert multiset(Tables(at))[at[k]] == 1;
      assert at[k] !in Tables(map[]);
    }
    hide IsTree;
    TreeFrame(mem, mem', root, at, link);
  }

  /** The table after core c was given a new VM. */
  lemma Installed(pt: PageTables, mem: Heap, mem': Heap, procs: seq<Proc>, trees: map<nat, Trees>, c: nat, p: Proc,
                  tr: Trees)
    requires AllOk(pt, mem, procs, trees) && c < |procs| && ProcOk(pt, mem', c, p, trees[c := tr])
    requires forall d | d in trees && d != c :: TreesOf(mem', procs[d], trees[d])
    ensures AllOk(pt, mem', procs[c := p], trees[c := tr])
  {
    hide TreesOf, Tidy, SectionsLow, SharedPagesLow;
    var procs', trees' := procs[c := p], trees[c := tr];
    forall d: nat | d < |procs'| ensures ProcOk(pt, mem', d, procs'[d], trees') {
      assert ProcOk(pt, mem, d, procs[d], trees);
    }
  }

  // -------------------------------------------------------------- mapping a VM

  /** The most pages ept_pmap takes for the tables of a VM below 4GB. */
  const TABLES: nat := GUEST_TABLES + EPT_TABLES

  /** ept_pmap with has_1GB_page false, in the books. */
  method MapVm(pt: PageTables, cpu: CpuInfo, ghost base: map<nat, Block>, ghost h: Held)
    returns (ok: bool, pml4: nat, ept: nat, ghost tr: Trees)
    requires pt.alloc.Valid() && pt.alloc.Base() + pt.alloc.total <= 0x10_0000 && Books(pt.alloc.blocks, base, h)
    requires SharedPagesLow(cpu) && SectionsLow(cpu.vm) && Tidy(pt, cpu.vm) && cpu.vm.fdOffsets == []
    modifies pt, pt.alloc, pt.alloc.nodes
    ensures pt.alloc.Valid()
    ensures !ok ==> pt.alloc.NoRun(1)
    ensures !ok ==> !HasRun(old(pt.alloc.blocks), pt.alloc.Base(), pt.alloc.total, TABLES + 1)
    ensures ok ==>
      && Books(pt.alloc.blocks, base, PlusTrees(h, tr))
      && TreesOf(pt.mem, Proc(true, cpu, pml4, ept), tr)
      && OthersKept(old(pt.mem), pt.mem, map[], Tables(tr.guest) + Tables(tr.ept))
      && (Tables(tr.guest) + Tables(tr.ept)) !! old(pt.alloc.blocks).Keys
      && GuestIdentity(pt.mem, pml4) && EptAsPlanned(pt.mem, ept, cpu, tr.guest)
  {
    hide Allocator.Valid, Allocator.NoRun, Books, GuestIdentity, EptAsPlanned, IsTree, AllLow, OthersKept, Windows,
         OwnsTables, Tables, Took, HasRun,
         LowMachine;
    WindowsAreLow(pt, cpu);
    ghost var blocks := pt.alloc.blocks;
    var r: MapResult<(nat, nat)>;
    ghost var atG, atE, added;
    r, atG, atE, added := EptPmap(pt, cpu, false);
    ok, pml4, ept, tr := r.Done?, 0, 0, Trees(atG, atE);
    if !ok {
      RunIsNoRun(pt.alloc, 1);
      if HasRun(blocks, pt.alloc.Base(), pt.alloc.total, TABLES + 1) {
        OneIsLeft(blocks, pt.alloc.blocks, pt.alloc.Base(), pt.alloc.total, TABLES);
      }
    }
    if ok {
      pml4, ept := r.value.0, r.value.1;
      BooksExtend(blocks, pt.alloc.blocks, base, h, added);
      TwoTableSets(h, tr);
    }
  }

  lemma TwoTableSets(h: Held, tr: Trees)
    requires Tables(tr.guest) !! Tables(tr.ept)
    ensures h.(tables := h.tables + multiset(Tables(tr.guest) + Tables(tr.ept))) == PlusTrees(h, tr)
  {
    hide Tables;
    var g, e := Tables(tr.guest), Tables(tr.ept);
    assert multiset(g + e) == multiset(e) + multiset(g);
    assert h.tables + multiset(g + e) == h.tables + multiset(e) + multiset(g);
  }

  // ------------------------------------------------------------ fork, exec, exit

  datatype ForkResult = Child(id: nat) | NoFreeVm | ForkFailed | ForkPanic

  /** The program headers of an executable. */
  datatype Segment = Segment(vaddr: nat, size: nat)

  datatype Call = Fork(parent: nat, rsp: nat, infoVaddr: nat) | Exec(id: nat, file: Option<seq<Segment>>)
                | Exit(id: nat, parentWaits: bool)

  datatype ExecResult = Loaded | NotFound | ExecFailed | ExecPanic

  /** Why a call can fail. */
  datatype Cause = NoMemory(pages: nat) | Unmapped | BadHeader | Above4GB | NoBss

  /** Fork order of the same sums. */
  lemma HeldInForkOrder(rest: Held, vm: VmInfo, tr: Trees)
    ensures PlusSections(PlusTrees(PlusPages(rest, vm), tr), vm) == PlusTrees(PlusPages(PlusSections(rest, vm), vm), tr)
  {
    hide Frame, Tables;
    var f, c := Frame(vm.fds), Frame(vm.channels);
    var d, b, k := Frame(vm.data.paddr), Frame(vm.bss.paddr), Frame(vm.stack.paddr);
    assert rest.own + c + f + d + b + k == rest.own + d + b + k + c + f;
  }

  /** A page for descriptors or channels is all the child holds besides sections and trees. */
  lemma OnePage(h: Held, vm: VmInfo)
    requires vm.fds == 0 || vm.channels == 0
    ensures PlusPages(h, vm) == Gain(h, true, if vm.fds == 0 then vm.channels else vm.fds)
  {
    assert h.own + multiset{} == h.own;
  }

  /** A VM in the table may have its code and rodata shared. */
  lemma ParentSharable(pt: PageTables, mem: Heap, procs: seq<Proc>, trees: map<nat, Trees>, base: map<nat, Block>,
                       c: nat)
    requires AllOk(pt, mem, procs, trees) && c < |procs| <= MAX_CPUS && (c in trees || c < ALWAYS_BUSY)
    requires forall f: nat {:trigger RefOf(base, f)} :: RefOf(base, f) < TWO_31
    ensures Sharable(pt, procs[c].cpu.vm.code, base, HeldByAll(procs, trees))
    ensures Sharable(pt, procs[c].cpu.vm.rodata, base, HeldByAll(procs, trees))
  {
    hide HeldByAll, HeldByOthers, TreesOf, Total;
    var vm := procs[c].cpu.vm;
    assert ProcOk(pt, mem, c, procs[c], trees);
    if c in trees {
      OthersAndOne(procs, trees, c);
      SharedBound(procs, trees, vm.code.paddr / 0x1000);
      SharedBound(procs, trees, vm.rodata.paddr / 0x1000);
      HoldsShared(PlusTrees(PlusPages(HeldByOthers(procs, trees, c), vm), trees[c]), vm);
    }
  }

  lemma HoldsShared(h: Held, vm: VmInfo)
    ensures Has(PlusSections(h, vm), false, vm.code.paddr) && Has(PlusSections(h, vm), false, vm.rodata.paddr)
  {
  }

  lemma SharedBound(procs: seq<Proc>, trees: map<nat, Trees>, f: nat)
    requires forall d | d in trees :: d < |procs|
    ensures HeldByAll(procs, trees).shared[f] <= 2 * |procs|
  {
    var all := AllHeld(procs, trees);
    forall c | c in all ensures all[c].shared[f] <= 2 {
      FrameCount(procs[c].cpu.vm.code.paddr, f);
      FrameCount(procs[c].cpu.vm.rodata.paddr, f);
    }
    TotalBound(all, |procs|, f, 2);
  }

  /** The core find_free_vm chooses. */
  predicate IsFreeCore(procs: seq<Proc>, c: nat) {
    ALWAYS_BUSY <= c < |procs| && !procs[c].hasVm && forall d | ALWAYS_BUSY <= d < c :: procs[d].hasVm
  }

  /** A run of free pages as long as this is enough for fork: the sections, a page for
      descriptors or channels, and the tables. */
  function ForkDemand(parent: VmInfo): nat { SectionPages(parent) + TABLES + 2 }

  /** And for exec. */
  function ExecDemand(ph: seq<Segment>): nat
    requires |ph| == 4
  {
    ElfPages(ph) + TABLES + 1
  }

  function StackTop(vm: VmInfo): nat { vm.stack.vaddr + STACK_SIZE }

  /** The descriptor after load_elf, with its sections where first fit puts them when
      `blocks` are taken. */
  ghost predicate LoadedAt(pt: PageTables, blocks: map<nat, Block>, was: VmInfo, ph: seq<Segment>, vm: VmInfo) {
    && |ph| == 4 && ph[0].size > 0 && IsLoaded(was, ph, vm)
    && exists steps: seq<map<nat, Block>> ::
         && FittedInOrder(steps, pt.alloc.Base(), pt.alloc.total, Paddrs(Fresh(vm, ph)), Sizes(ph))
         && steps[0] == blocks
  }

  lemma IsLoadedAt(pt: PageTables, blocks: map<nat, Block>, was: VmInfo, ph: seq<Segment>, vm: VmInfo,
                   steps: seq<map<nat, Block>>)
    requires |ph| == 4 && ph[0].size > 0 && IsLoaded(was, ph, vm)
    requires FittedInOrder(steps, pt.alloc.Base(), pt.alloc.total, Paddrs(Fresh(vm, ph)), Sizes(ph))
    requires steps[0] == blocks
    ensures LoadedAt(pt, blocks, was, ph, vm)
  {
  }

  /** So exec leaves nothing to choice: old descriptor, taken blocks and executable give
      the new descriptor. */
  lemma LoadedOnce(pt: PageTables, blocks: map<nat, Block>, was: VmInfo, ph: seq<Segment>, vm: VmInfo, vm': VmInfo)
    requires LoadedAt(pt, blocks, was, ph, vm) && LoadedAt(pt, blocks, was, ph, vm')
    ensures vm == vm'
  {
    hide Fitted, Pages, EndVaddr;
    var first, total, ps, ps' := pt.alloc.Base(), pt.alloc.total, Paddrs(Fresh(vm, ph)), Paddrs(Fresh(vm', ph));
    var steps: seq<map<nat, Block>> :| FittedInOrder(steps, first, total, ps, Sizes(ph)) && steps[0] == blocks;
    var steps': seq<map<nat, Block>> :| FittedInOrder(steps', first, total, ps', Sizes(ph)) && steps'[0] == blocks;
    OneOrder(steps, steps', first, total, ps, ps', Sizes(ph), 5);
    assert ps[..5] == ps && ps'[..5] == ps';
    assert ps[0] == ps'[0] && ps[1] == ps'[1] && ps[2] == ps'[2] && ps[3] == ps'[3] && ps[4] == ps'[4];
  }

  /** The descriptor of a VM that has exited. */
  function Gone(p: Proc, parentWaits: bool): Proc {
    p.(hasVm := !parentWaits, cpu := p.cpu.(vm := p.cpu.vm.(fds := 0, channels := 0)))
  }

  lemma OneFreeCore(procs: seq<Proc>, c: nat)
    requires IsFreeCore(procs, c)
    ensures forall d: nat | IsFreeCore(procs, d) :: d == c
  {
  }

  lemma FreeCoreOr(procs: seq<Proc>)
    ensures (forall d | ALWAYS_BUSY <= d < |procs| :: procs[d].hasVm) <==> !exists c: nat :: IsFreeCore(procs, c)
  {
    if exists d: nat | ALWAYS_BUSY <= d < |procs| :: !procs[d].hasVm {
      var d: nat :| ALWAYS_BUSY <= d < |procs| && !procs[d].hasVm;
      var c := LowestFree(procs, d);
      assert IsFreeCore(procs, c);
    }
  }

  lemma {:induction false} LowestFree(procs: seq<Proc>, d: nat) returns (c: nat)
    requires ALWAYS_BUSY <= d < |procs| && !procs[d].hasVm
    ensures IsFreeCore(procs, c)
    decreases d
  {
    if e: nat :| ALWAYS_BUSY <= e < d && !procs[e].hasVm {
      c := LowestFree(procs, e);
    } else {
      c := d;
    }
  }

  // ---------------------------------------------------------- what a call does

  /** Cores, the trees of the forked VMs and the live blocks between two calls. */
  datatype Table = Table(procs: seq<Proc>, trees: map<nat, Trees>, blocks: map<nat, Block>)

  /** The counts are those at the start plus the holders. */
  ghost predicate Balanced(t: Table, base: map<nat, Block>) {
    (forall c | c in t.trees :: c < |t.procs|) && Books(t.blocks, base, HeldByAll(t.procs, t.trees))
  }

  predicate Running(t: Table, id: nat) { id < |t.procs| && (id in t.trees || id < ALWAYS_BUSY) }

  /** A fork that gives its child core c. */
  ghost predicate ForkMoves(pt: PageTables, before: Table, parent: nat, rsp: nat, infoVaddr: nat, c: nat, after: Table)
    requires parent < |before.procs| && c < |before.procs|
  {
    var vm := before.procs[parent].cpu.vm;
    && c in after.trees && c < |after.procs|
    && after.procs == before.procs[c := after.procs[c]] && after.trees == before.trees[c := after.trees[c]]
    && after.procs[c].hasVm && after.procs[c].cpu == before.procs[c].cpu.(vm := after.procs[c].cpu.vm)
    && Forked(pt, vm, after.procs[c].cpu.vm, c) && Virt2Phys(vm, rsp).Some? && Virt2Phys(vm, infoVaddr).Some?
  }

  ghost predicate ExecMoves(pt: PageTables, before: Table, id: nat, ph: seq<Segment>, after: Table)
    requires id < |before.procs|
  {
    var was := before.procs[id].cpu.vm;
    && id in after.trees && id < |after.procs|
    && after.procs == before.procs[id := after.procs[id]] && after.trees == before.trees[id := after.trees[id]]
    && after.procs[id].hasVm && after.procs[id].cpu == before.procs[id].cpu.(vm := after.procs[id].cpu.vm)
    && LoadedAt(pt, before.blocks, was, ph, after.procs[id].cpu.vm)
    && Virt2Phys(after.procs[id].cpu.vm, StackTop(after.procs[id].cpu.vm)).Some?
    && (ph[3].size > 0 || was.bss.paddr == 0) && FitsBelow4GB(was, ph)
  }

  ghost predicate ExitMoves(before: Table, id: nat, parentWaits: bool, after: Table)
    requires id < |before.procs|
  {
    && after.procs == before.procs[id := Gone(before.procs[id], parentWaits)]
    && after.trees == before.trees - {id}
  }

  /** What a call that is carried out does; calls by nobody, forks without a free core and
      execs of nothing change nothing. */
  ghost predicate Moves(pt: PageTables, before: Table, call: Call, after: Table) {
    match call
    case Fork(parent, rsp, infoVaddr) =>
      if Running(before, parent) && exists c: nat :: IsFreeCore(before.procs, c) then
        forall c: nat | IsFreeCore(before.procs, c) :: ForkMoves(pt, before, parent, rsp, infoVaddr, c, after)
      else after == before
    case Exec(id, file) =>
      if id in before.trees && id < |before.procs| && file.Some? then ExecMoves(pt, before, id, file.value, after)
      else after == before
    case Exit(id, parentWaits) =>
      if id in before.trees && id < |before.procs| then ExitMoves(before, id, parentWaits, after)
      else after == before
  }

  class Pm {
    const pt: PageTables
    var procs: seq<Proc>
    ghost var trees: map<nat, Trees>
    ghost var base: map<nat, Block>

    /** The reference count of every block is its count at the start plus the number of
        live VMs and trees holding it; trees are trees, and everything a live descriptor
        names is held. */
    ghost predicate Valid()
      reads this, pt, pt.alloc, pt.alloc.nodes
    {
      && pt.alloc.Valid() && pt.alloc.Base() + pt.alloc.total <= 0x10_0000 && |procs| <= MAX_CPUS
      && (forall f: nat {:trigger RefOf(base, f)} :: RefOf(base, f) < TWO_31)
      && (forall c | c in trees :: c < |procs|) && AllOk(pt, pt.mem, procs, trees)
      && Books(pt.alloc.blocks, base, HeldByAll(procs, trees))
    }

    /** The state boot hands over: the VMs it made, and no forked one yet. */
    constructor (pt: PageTables, procs: seq<Proc>)
      requires pt.alloc.Valid() && pt.alloc.Base() + pt.alloc.total <= 0x10_0000 && |procs| <= MAX_CPUS
      requires Referenced(pt.alloc.blocks) && forall f | f in pt.alloc.blocks :: pt.alloc.blocks[f].ref < TWO_31
      requires AllOk(pt, pt.mem, procs, map[])
      ensures Valid() && this.pt == pt && this.procs == procs && trees == map[] && base == pt.alloc.blocks
    {
      hide Allocator.Valid, AllOk, Books;
      this.pt, this.procs, trees, base := pt, procs, map[], pt.alloc.blocks;
      new;
      TotalEmpty(|procs|);
      assert AllHeld(procs, map[]) == map[];
      NothingHeld(base);
    }

    /** find_free_vm; ncpus stands for none. */
    method FindFreeVm() returns (c: nat)
      ensures c < |procs| ==> IsFreeCore(procs, c)
      ensures forall d | ALWAYS_BUSY <= d < |procs| && d < c :: procs[d].hasVm
    {
      c := ALWAYS_BUSY;
      while c < |procs|
        invariant ALWAYS_BUSY <= c
        invariant forall d | ALWAYS_BUSY <= d < |procs| && d < c :: procs[d].hasVm
      {
        if !procs[c].hasVm {
          return;
        }
        c := c + 1;
      }
    }

    /** local_fork for a parent without open descriptors. */
    method Fork(parent: nat, rsp: nat, infoVaddr: nat) returns (r: ForkResult, ghost need: nat)
      requires Valid() && parent < |procs| && (parent in trees || parent < ALWAYS_BUSY)
      modifies this, pt, pt.alloc, pt.alloc.nodes
      ensures pt.alloc.Valid()
      ensures r.NoFreeVm? <==> forall d | ALWAYS_BUSY <= d < |old(procs)| :: old(procs)[d].hasVm
      ensures r.NoFreeVm? ==>
        Valid() && procs == old(procs) && trees == old(trees) && base == old(base)
          && pt.alloc.blocks == old(pt.alloc.blocks)
      ensures r.ForkFailed? ==>
        && need > 0 && (need == 1 || IsSectionSize(old(procs)[parent].cpu.vm, need)) && pt.alloc.NoRun(need)
        && !HasRun(old(pt.alloc.blocks), pt.alloc.Base(), pt.alloc.total, ForkDemand(old(procs)[parent].cpu.vm))
      ensures r.ForkPanic? ==>
        Virt2Phys(old(procs)[parent].cpu.vm, rsp).None? || Virt2Phys(old(procs)[parent].cpu.vm, infoVaddr).None?
      ensures r.Child? ==>
        && Valid() && base == old(base) && IsFreeCore(old(procs), r.id) && r.id !in old(trees) && r.id in trees
        && procs == old(procs)[r.id := procs[r.id]] && trees == old(trees)[r.id := trees[r.id]]
        && procs[r.id].hasVm && procs[r.id].cpu == old(procs)[r.id].cpu.(vm := procs[r.id].cpu.vm)
        && Virt2Phys(old(procs)[parent].cpu.vm, rsp).Some? && Virt2Phys(old(procs)[parent].cpu.vm, infoVaddr).Some?
        && Forked(pt, old(procs)[parent].cpu.vm, procs[r.id].cpu.vm, r.id)
        && GuestIdentity(pt.mem, procs[r.id].pml4)
        && EptAsPlanned(pt.mem, procs[r.id].ept, procs[r.id].cpu, trees[r.id].guest)
    {
      hide Allocator.Valid, Books, AllOk, HeldByAll, HeldByOthers, GuestIdentity, EptAsPlanned, OthersKept,
           PlusSections, PlusPages, PlusTrees,
           TreesOf, Virt2Phys, Allocator.NoRun, Gain, Sharable, Forked, SameLayout, Tidy, SectionsLow, Tables,
           IsSectionSize, HasRun, Spends, SectionPages;
      need := 1;
      ghost var b0, first, total := pt.alloc.blocks, pt.alloc.Base(), pt.alloc.total;
      var c := FindFreeVm();
      if c >= |procs| {
        return NoFreeVm, need;
      }
      var p, q := procs[parent], procs[c];
      ghost var h, procs0 := HeldByAll(procs, trees), procs;
      AllOkAt(pt, pt.mem, procs, trees, c);
      AllOkAt(pt, pt.mem, procs, trees, parent);
      ParentSharable(pt, pt.mem, procs, trees, base, parent);
      procs := procs[c := q.(hasVm := true)];
      ghost var mem, child, page := pt.mem, q.cpu.vm, 0;
      var vm;
      r, vm, child, page, need := ForkMemory(pt, p.cpu.vm, q.cpu.vm, c, rsp, base, h);
      ghost var n := SectionPages(p.cpu.vm) + 1;
      if !r.Child? {
        if r.ForkFailed? {
          SpendsNothing(b0, first, total);
          TooShort(b0, b0, first, total, 0, n, ForkDemand(p.cpu.vm));
        }
        return;
      }
      var cpu := q.cpu.(vm := vm);
      ghost var blocks := pt.alloc.blocks;
      var ok, pml4, ept;
      ghost var tr;
      need := 1;
      ok, pml4, ept, tr := MapVm(pt, cpu, base, Gain(PlusSections(h, child), true, page));
      if !ok {
        TooShort(b0, blocks, first, total, n, TABLES + 1, ForkDemand(p.cpu.vm));
        return ForkFailed, need;
      }
      if Virt2Phys(p.cpu.vm, infoVaddr).None? {
        return ForkPanic, need;
      }
      AddedVm(pt, mem, pt.mem, procs0, trees, c, Proc(true, cpu, pml4, ept), tr, child, page, blocks, base);
      procs := procs[c := Proc(true, cpu, pml4, ept)];
      trees := trees[c := tr];
      assert procs == procs0[c := Proc(true, cpu, pml4, ept)];
    }

    /** load_elf and ept_pmap of local_exec for a VM without open descriptors; `file` is
        what FS found under the path. The books balance afterwards if and only if the
        executable has a bss or the old program had none: otherwise the descriptor keeps
        the old bss block, which was given back. */
    method Exec(c: nat, file: Option<seq<Segment>>) returns (r: ExecResult, ghost need: nat)
      requires Valid() && c in trees
      requires file.Some? && |file.value| == 4 ==> FitsBelow4GB(procs[c].cpu.vm, file.value)
      modifies this, pt, pt.alloc, pt.alloc.nodes
      ensures pt.alloc.Valid() && base == old(base) && |procs| == |old(procs)|
      ensures r.NotFound? <==> file.None?
      ensures r.ExecFailed? ==>
        && |file.value| == 4 && need > 0 && (need == 1 || IsElfSize(file.value, need)) && pt.alloc.NoRun(need)
        && !HasRun(old(pt.alloc.blocks), pt.alloc.Base(), pt.alloc.total, ExecDemand(file.value))
      ensures r.NotFound? ==>
        Valid() && procs == old(procs) && trees == old(trees) && pt.alloc.blocks == old(pt.alloc.blocks)
      ensures file.Some? && (|file.value| != 4 || file.value[0].size == 0) ==> r.ExecPanic?
      ensures r.Loaded? ==>
        && file.Some? && |file.value| == 4 && c in trees && c < |procs|
        && procs == old(procs)[c := procs[c]] && trees == old(trees)[c := trees[c]]
        && procs[c].hasVm && procs[c].cpu == old(procs)[c].cpu.(vm := procs[c].cpu.vm)
        && LoadedAt(pt, old(pt.alloc.blocks), old(procs)[c].cpu.vm, file.value, procs[c].cpu.vm)
        && Virt2Phys(procs[c].cpu.vm, StackTop(procs[c].cpu.vm)).Some?
        && GuestIdentity(pt.mem, procs[c].pml4) && EptAsPlanned(pt.mem, procs[c].ept, procs[c].cpu, trees[c].guest)
        && (Valid() <==> file.value[3].size > 0 || old(procs)[c].cpu.vm.bss.paddr == 0)
      ensures r.ExecPanic? && file.Some? && |file.value| == 4 && file.value[0].size > 0 ==>
        && c < |procs| && procs == old(procs)[c := procs[c]]
        && LoadedAt(pt, old(pt.alloc.blocks), old(procs)[c].cpu.vm, file.value, procs[c].cpu.vm)
        && Virt2Phys(procs[c].cpu.vm, StackTop(procs[c].cpu.vm)).None?
    {
      hide Allocator.Valid, Books, AllOk, HeldByAll, HeldByOthers, PlusSections, PlusTrees, PlusPages, Allocator.NoRun,
           Gain, TreesOf,
           GuestIdentity, EptAsPlanned, Virt2Phys, OthersKept, IsLoaded, Tables, SectionsLow, FitsBelow4GB,
           FittedInOrder, Pages, HasRun, Spends, Shrinks, LoadedAt, ElfPages;
      need := 1;
      ghost var b0, first, total := pt.alloc.blocks, pt.alloc.Base(), pt.alloc.total;
      if file.None? {
        return NotFound, need;
      }
      var p, ph := procs[c], file.value;
      var was := p.cpu.vm;
      ghost var tr, rest := trees[c], HeldByOthers(procs, trees, c);
      AllOkAt(pt, pt.mem, procs, trees, c);
      OthersAndOne(procs, trees, c);
      ghost var pages := PlusPages(rest, was);
      var vm;
      ghost var steps, paddrs;
      r, vm, steps, paddrs := LoadElf(pt, was, ph, base, HeldByAll(procs, trees));
      if !r.Loaded? {
        need := if r.ExecFailed? then Pages(Sizes(ph)[|paddrs|]) else 1;
        if r.ExecFailed? {
          SpendsNothing(b0, first, total);
          TooShort(b0, b0, first, total, 0, ElfPages(ph), ExecDemand(ph));
        }
        return;
      }
      IsLoadedAt(pt, b0, was, ph, vm, steps);
      ghost var b1 := pt.alloc.blocks;
      ghost var made := Fresh(vm, ph);
      LoadedIsLow(pt, was, ph, vm);
      SectionsSwap(PlusTrees(pages, tr), was, made);
      DropSections(pt, was, base, PlusSections(PlusTrees(pages, tr), made));
      TreesApart(pages, tr, made);
      ghost var b2 := pt.alloc.blocks;
      DropTrees(pt, p, tr, base, PlusSections(pages, made));
      ShrinksTrans(b1, b2, pt.alloc.blocks);
      ShrinkSpends(b1, pt.alloc.blocks, first, total);
      SpendsTrans(b0, b1, pt.alloc.blocks, first, total, ElfPages(ph), 0);
      var cpu := p.cpu.(vm := vm);
      ghost var mem, blocks := pt.mem, pt.alloc.blocks;
      var ok, pml4, ept;
      ghost var tr';
      ok, pml4, ept, tr' := MapVm(pt, cpu, base, PlusSections(pages, made));
      if !ok {
        TooShort(b0, blocks, first, total, ElfPages(ph), TABLES + 1, ExecDemand(ph));
        return ExecFailed, need;
      }
      var q := Proc(true, cpu, pml4, ept);
      Replaced(pt, mem, pt.mem, procs, trees, c, q, tr', made, blocks, base);
      procs, trees := procs[c := q], trees[c := tr'];
      BooksBalanceIff(pt.alloc.blocks, base, rest, vm, tr', ph, was);
      if Virt2Phys(vm, StackTop(vm)).None? {
        return ExecPanic, need;
      }
    }

    /** local_exit for a VM without open descriptors. The core is free again when the
        parent is waiting for it. */
    method Exit(c: nat, parentWaits: bool)
      requires Valid() && c in trees
      modifies this, pt.alloc, pt.alloc.nodes
      ensures Valid() && base == old(base) && trees == old(trees) - {c} && |procs| == |old(procs)|
      ensures procs == old(procs)[c := Gone(old(procs)[c], parentWaits)]
    {
      hide Allocator.Valid, Books, AllOk, HeldByAll, HeldByOthers, PlusSections, PlusTrees, Allocator.NoRun, Gain,
           TreesOf;
      var p := procs[c];
      var vm := p.cpu.vm;
      ghost var tr, rest := trees[c], HeldByOthers(procs, trees, c);
      AllOkAt(pt, pt.mem, procs, trees, c);
      OthersAndOne(procs, trees, c);
      DropSections(pt, vm, base, PlusTrees(PlusPages(rest, vm), tr));
      DropTrees(pt, p, tr, base, PlusPages(rest, vm));
      Drop(pt, vm.fds, true, base, Gain(rest, true, vm.channels));
      Drop(pt, vm.channels, true, base, rest);
      var gone := Gone(p, parentWaits);
      HeldAfter(procs, trees, c, gone, tr);
      Removed(pt, pt.mem, procs, trees, c, gone);
      procs, trees := procs[c := gone], trees - {c};
    }

    ghost function Now(): Table
      reads this, pt.alloc
    {
      Table(procs, trees, pt.alloc.blocks)
    }

    /** Why the call could not be carried out: no run of `pages` free pages is left for
        something it asks for, and there was none as long as all it needs; an address it
        passes makes virt2phys panic; or the executable is not one PM can load and keep
        its books. */
    ghost predicate Fails(before: Table, call: Call, cause: Cause)
      reads this, pt, pt.alloc, pt.alloc.nodes
    {
      match call
      case Fork(parent, rsp, infoVaddr) =>
        && Running(before, parent) && (exists c: nat :: IsFreeCore(before.procs, c))
        && ForkFails(before, before.procs[parent].cpu.vm, rsp, infoVaddr, cause)
      case Exec(id, file) =>
        && id in before.trees && file.Some? && id < |before.procs| && id < |procs|
        && ExecFails(before, before.procs[id].cpu.vm, procs[id].cpu.vm, file.value, cause)
      case Exit(_, _) => false
    }

    ghost predicate ForkFails(before: Table, vm: VmInfo, rsp: nat, infoVaddr: nat, cause: Cause)
      reads this, pt, pt.alloc, pt.alloc.nodes
    {
      match cause
      case NoMemory(n) =>
        && n > 0 && (n == 1 || IsSectionSize(vm, n)) && pt.alloc.NoRun(n)
        && !HasRun(before.blocks, pt.alloc.Base(), pt.alloc.total, ForkDemand(vm))
      case Unmapped => Virt2Phys(vm, rsp).None? || Virt2Phys(vm, infoVaddr).None?
      case _ => false
    }

    ghost predicate ExecFails(before: Table, was: VmInfo, vm: VmInfo, ph: seq<Segment>, cause: Cause)
      reads this, pt, pt.alloc, pt.alloc.nodes
    {
      match cause
      case BadHeader => |ph| != 4 || ph[0].size == 0
      case NoMemory(n) =>
        && n > 0 && |ph| == 4 && (n == 1 || IsElfSize(ph, n)) && pt.alloc.NoRun(n)
        && !HasRun(before.blocks, pt.alloc.Base(), pt.alloc.total, ExecDemand(ph))
      case Unmapped => LoadedAt(pt, before.blocks, was, ph, vm) && Virt2Phys(vm, StackTop(vm)).None?
      case Above4GB => |ph| == 4 && !FitsBelow4GB(was, ph)
      case NoBss => LoadedAt(pt, before.blocks, was, ph, vm) && ph[3].size == 0 && was.bss.paddr != 0
    }

    /** fork by a running VM. */
    method StepFork(parent: nat, rsp: nat, infoVaddr: nat) returns (ok: bool, id: Option<nat>, ghost cause: Cause)
      requires Valid() && Running(Now(), parent)
      modifies this, pt, pt.alloc, pt.alloc.nodes
      ensures ok ==> Valid() && base == old(base) && Moves(pt, old(Now()), Call.Fork(parent, rsp, infoVaddr), Now())
      ensures ok ==> trees.Keys == old(trees.Keys) + (if id.Some? then {id.value} else {})
      ensures !ok ==> Fails(old(Now()), Call.Fork(parent, rsp, infoVaddr), cause)
    {
      hide Allocator.Valid, Books, AllOk, HeldByAll, EptAsPlanned, GuestIdentity, Forked, Virt2Phys, Allocator.NoRun,
           IsSectionSize, HasRun, ForkDemand;
      var r;
      ghost var need;
      r, need := Fork(parent, rsp, infoVaddr);
      ok := r.Child? || r.NoFreeVm?;
      id := if r.Child? then Some(r.id) else None;
      cause := if r.ForkFailed? then NoMemory(need) else Unmapped;
      FreeCoreOr(old(procs));
      if r.Child? {
        OneFreeCore(old(procs), r.id);
      }
    }

    /** exec by a forked VM. */
    method StepExec(id: nat, ph: seq<Segment>) returns (ok: bool, ghost cause: Cause)
      requires Valid() && id in trees
      modifies this, pt, pt.alloc, pt.alloc.nodes
      ensures ok ==> Valid() && base == old(base) && Moves(pt, old(Now()), Call.Exec(id, Some(ph)), Now())
      ensures ok ==> trees.Keys == old(trees.Keys)
      ensures !ok ==> Fails(old(Now()), Call.Exec(id, Some(ph)), cause)
    {
      hide Allocator.Valid, Books, AllOk, HeldByAll, EptAsPlanned, GuestIdentity, LoadedAt, Virt2Phys, FitsBelow4GB,
           Allocator.NoRun, IsElfSize, HasRun, ExecDemand;
      if |ph| == 4 && !FitsBelow4GB(procs[id].cpu.vm, ph) {
        return false, Above4GB;
      }
      var bss := procs[id].cpu.vm.bss.paddr;
      var r;
      ghost var need;
      r, need := Exec(id, Some(ph));
      ok := r.Loaded? && (ph[3].size > 0 || bss == 0);
      cause :=
        if r.Loaded? then NoBss
        else if r.ExecFailed? then NoMemory(need)
        else if |ph| != 4 || ph[0].size == 0 then BadHeader
        else Unmapped;
    }

    /** One call. Forks by VMs that are not running, and execs and exits by others than
        forked VMs, are ignored. */
    method Step(call: Call, live: set<nat>) returns (ok: bool, live': set<nat>, ghost cause: Cause)
      requires Valid() && live == trees.Keys
      modifies this, pt, pt.alloc, pt.alloc.nodes
      ensures ok ==> Valid() && base == old(base) && live' == trees.Keys && Moves(pt, old(Now()), call, Now())
      ensures !ok ==> Fails(old(Now()), call, cause)
    {
      hide Allocator.Valid, Books, AllOk, HeldByAll, ForkMoves, ExecMoves, ForkFails, ExecFails, IsFreeCore;
      ok, live', cause := true, live, Unmapped;
      match call {
        case Fork(parent, rsp, infoVaddr) =>
          if parent < |procs| && (parent in live || parent < ALWAYS_BUSY) {
            var id;
            ok, id, cause := StepFork(parent, rsp, infoVaddr);
            live' := if id.Some? then live + {id.value} else live;
          }
        case Exec(id, file) =>
          if id in live && file.Some? {
            ok, cause := StepExec(id, file.value);
          }
        case Exit(id, parentWaits) =>
          if id in live {
            Exit(id, parentWaits);
            live' := live - {id};
          }
      }
    }

    /** Any sequence of calls from a state with no forked VM: `tables` are what the calls
        leave one after the other, each made of the one before by its call, and the books
        balance in all of them. Once all forked VMs have exited, the allocator's list is
        what it was. The run stops early only at a call that fails for one of the reasons
        of Fails; `done` is the number of calls carried out. */
    method Run(calls: seq<Call>)
      returns (ok: bool, live: set<nat>, done: nat, ghost tables: seq<Table>, ghost cause: Cause)
      requires Valid() && trees == map[]
      modifies this, pt, pt.alloc, pt.alloc.nodes
      ensures done <= |calls| && |tables| == done + 1 && tables[0] == old(Now())
      ensures forall i | 0 <= i < done :: Moves(pt, tables[i], calls[i], tables[i + 1])
      ensures forall i | 0 <= i <= done :: Balanced(tables[i], old(base))
      ensures !ok ==> done < |calls| && Fails(tables[done], calls[done], cause)
      ensures ok ==> done == |calls| && tables[done] == Now() && Valid() && base == old(base) && live == trees.Keys
      ensures ok && live == {} ==>
        && pt.alloc.blocks == old(pt.alloc.blocks) && pt.alloc.heads == old(pt.alloc.heads)
        && forall i | i in pt.alloc.heads :: pt.alloc.nodes[i] == old(pt.alloc.nodes[i])
    {
      hide Allocator.Valid, Books, AllOk, HeldByAll, Fails, Moves;
      NobodyHolds(procs, trees);
      BooksSettled(pt.alloc.blocks, base);
      ok, live, done, tables, cause := true, {}, 0, [Now()], Unmapped;
      while done < |calls|
        invariant done <= |calls| && ok && Valid() && base == old(base) && live == trees.Keys
        invariant |tables| == done + 1 && tables[0] == old(Now()) && tables[done] == Now()
        invariant forall i | 0 <= i < done :: Moves(pt, tables[i], calls[i], tables[i + 1])
        invariant forall i | 0 <= i <= done :: Balanced(tables[i], old(base))
      {
        ok, live, cause := Step(calls[done], live);
        if !ok {
          return;
        }
        tables := tables + [Now()];
        done := done + 1;
      }
      if live == {} {
        assert trees == map[];
        NobodyHolds(procs, trees);
        BooksSettled(pt.alloc.blocks, base);
        pt.alloc.BackToTheSameList();
      }
    }

    /** The count of a block is its count at the start plus the number of its holders. */
    lemma CountsAreHolders(f: nat)
      requires Valid()
      ensures RefOf(pt.alloc.blocks, f) == RefOf(base, f) + Holders(HeldByAll(procs, trees), f)
    {
      hide Allocator.Valid, Books, AllOk, HeldByAll;
      BooksAt(pt.alloc.blocks, base, HeldByAll(procs, trees), f);
    }

    /** What a VM does not share has that VM as its only holder; nobody else refers to it. */
    lemma PrivateIsPrivate(c: nat, d: nat, paddr: nat)
      requires Valid() && c in trees && d in trees && c != d && paddr != 0
      requires Has(VmHeld(procs[c].cpu.vm, trees[c]), true, paddr)
      ensures paddr / 0x1000 in pt.alloc.blocks && pt.alloc.blocks[paddr / 0x1000].ref == 1
      ensures Holders(VmHeld(procs[d].cpu.vm, trees[d]), paddr / 0x1000) == 0
    {
      hide Allocator.Valid, Books, AllOk, VmHeld, Has, Total;
      var f, all := paddr / 0x1000, AllHeld(procs, trees);
      TotalWithout(all, |procs|, c);
      TotalWithout(all - {c}, |procs|, d);
      var rest := Total(all - {c} - {d}, |procs|);
      var held := Plus(Plus(rest, VmHeld(procs[d].cpu.vm, trees[d])), VmHeld(procs[c].cpu.vm, trees[c]));
      HasMore(Plus(rest, VmHeld(procs[d].cpu.vm, trees[d])), VmHeld(procs[c].cpu.vm, trees[c]), paddr);
      BooksHeld(pt.alloc.blocks, base, held, true, paddr);
      BooksAt(pt.alloc.blocks, base, held, f);
      HoldersAdd(rest, VmHeld(procs[d].cpu.vm, trees[d]), f);
      HoldersAdd(Plus(rest, VmHeld(procs[d].cpu.vm, trees[d])), VmHeld(procs[c].cpu.vm, trees[c]), f);
      HasHolder(VmHeld(procs[c].cpu.vm, trees[c]), paddr);
    }
  }

  lemma HasMore(rest: Held, h: Held, paddr: nat)
    requires Has(h, true, paddr)
    ensures Has(Plus(rest, h), true, paddr)
  {
  }

  lemma HasHolder(h: Held, paddr: nat)
    requires Has(h, true, paddr) && paddr != 0
    ensures Holders(h, paddr / 0x1000) >= 1
  {
    assert Frame(paddr)[paddr / 0x1000] == 1;
  }

  lemma HoldersAdd(a: Held, b: Held, f: nat)
    ensures Holders(Plus(a, b), f) == Holders(a, f) + Holders(b, f)
  {
  }

  lemma NobodyHolds(procs: seq<Proc>, trees: map<nat, Trees>)
    requires trees == map[]
    ensures HeldByAll(procs, trees) == NOTHING
  {
    assert AllHeld(procs, trees) == map[];
    TotalEmpty(|procs|);
  }

  /** Giving back the two trees of a VM. */
  method DropTrees(pt: PageTables, p: Proc, ghost tr: Trees, ghost base: map<nat, Block>, ghost h: Held)
    requires pt.alloc.Valid() && Books(pt.alloc.blocks, base, PlusTrees(h, tr)) && TreesOf(pt.mem, p, tr)
    modifies pt.alloc, pt.alloc.nodes
    ensures pt.alloc.Valid() && Books(pt.alloc.blocks, base, h) && Shrinks(old(pt.alloc.blocks), pt.alloc.blocks)
  {
    hide Allocator.Valid, Books, IsTree, PlusTables, AllLow, Tables;
    DropTables(pt, p.pml4, tr.guest, PAGING_LINK, base, PlusTables(h, tr.ept));
    DropTables(pt, p.ept, tr.ept, EPT_LINK, base, h);
  }

  /** The table after core c lost its VM. */
  lemma Removed(pt: PageTables, mem: Heap, procs: seq<Proc>, trees: map<nat, Trees>, c: nat, p: Proc)
    requires AllOk(pt, mem, procs, trees) && c < |procs| && c in trees && ProcOk(pt, mem, c, p, trees - {c})
    ensures AllOk(pt, mem, procs[c := p], trees - {c})
  {
    hide TreesOf, Tidy, SectionsLow, SharedPagesLow;
    var procs', trees' := procs[c := p], trees - {c};
    forall d: nat | d < |procs'| ensures ProcOk(pt, mem, d, procs'[d], trees') {
      assert ProcOk(pt, mem, d, procs[d], trees);
    }
  }

  /** The memory of the child: sections, and a page for descriptors or, in a driver, for
      its channel list. */
  method ForkMemory(pt: PageTables, parent: VmInfo, was: VmInfo, id: nat, rsp: nat, ghost base: map<nat, Block>,
                    ghost h: Held)
    returns (r: ForkResult, vm: VmInfo, ghost child: VmInfo, ghost page: nat, ghost need: nat)
    requires pt.alloc.Valid() && Books(pt.alloc.blocks, base, h) && was.fds == 0 && was.channels == 0
    requires Sharable(pt, parent.code, base, h) && Sharable(pt, parent.rodata, base, h) && SectionsLow(parent)
    modifies pt.alloc, pt.alloc.nodes
    ensures pt.alloc.Valid() && !r.NoFreeVm? && (r.Child? ==> r.id == id)
    ensures r.ForkPanic? ==> Virt2Phys(parent, rsp).None?
    ensures r.ForkFailed? ==> need > 0 && (need == 1 || IsSectionSize(parent, need)) && pt.alloc.NoRun(need)
    ensures r.ForkFailed? ==>
      !HasRun(old(pt.alloc.blocks), pt.alloc.Base(), pt.alloc.total, SectionPages(parent) + 1)
    ensures r.Child? ==>
      && Virt2Phys(parent, rsp).Some?
      && Spends(old(pt.alloc.blocks), pt.alloc.blocks, pt.alloc.Base(), pt.alloc.total, SectionPages(parent) + 1)
      && Books(pt.alloc.blocks, base, Gain(PlusSections(h, child), true, page))
      && child.fds == 0 && child.channels == 0 && page != 0
      && (vm == child.(channels := page) || vm == child.(fds := page))
      && Forked(pt, parent, vm, id) && Tidy(pt, vm) && SectionsLow(vm) && vm.fdOffsets == []
  {
    hide Allocator.Valid, Books, PlusSections, Virt2Phys, Allocator.NoRun, Gain, Sharable, Fitted, IsSectionSize,
         Spends,
         HasRun, SectionPages;
    ghost var b0, first, total, n := pt.alloc.blocks, pt.alloc.Base(), pt.alloc.total, SectionPages(parent);
    r, vm, child, page := ForkFailed, was, was, 0;
    var ok, made;
    ok, made, need := ForkSections(pt, parent, was, base, h);
    if !ok {
      SpendsNothing(b0, first, total);
      TooShort(b0, b0, first, total, 0, n, n + 1);
      return;
    }
    ghost var b1 := pt.alloc.blocks;
    need := 1;
    SameVirt2Phys(parent, made, rsp);
    if Virt2Phys(made, rsp).None? || Virt2Phys(parent, rsp).None? {
      return ForkPanic, vm, child, page, need;
    }
    var taken := Take(pt, 1, true, base, PlusSections(h, made));
    if taken == 0 {
      RunIsNoRun(pt.alloc, 1);
      FitNothing(b1, pt.alloc.blocks, first, total, 1);
      TooShort(b0, b1, first, total, n, 1, n + 1);
      return;
    }
    SpendsFit(b0, b1, pt.alloc.blocks, first, total, n, taken, 1);
    vm := if IsDriver(id) then made.(channels := taken) else made.(fds := taken);
    r, child, page := Child(id), made, taken;
  }

  lemma NothingHeld(base: map<nat, Block>)
    requires Referenced(base)
    ensures Books(base, base, NOTHING)
  {
    forall f: nat ensures RefOf(base, f) == RefOf(base, f) + Holders(NOTHING, f) {
    }
  }

  /** How a child relates to its parent. */
  predicate Forked(pt: PageTables, parent: VmInfo, child: VmInfo, id: nat) {
    && SameLayout(parent, child)
    && (pt.alloc.Reallocable(parent.code.paddr) ==> child.code.paddr == parent.code.paddr)
    && (pt.alloc.Reallocable(parent.rodata.paddr) ==> child.rodata.paddr == parent.rodata.paddr)
    && (child.fds != 0 <==> !IsDriver(id)) && (child.channels != 0 <==> IsDriver(id))
  }

  lemma AllOkAt(pt: PageTables, mem: Heap, procs: seq<Proc>, trees: map<nat, Trees>, c: nat)
    requires AllOk(pt, mem, procs, trees) && c < |procs|
    ensures ProcOk(pt, mem, c, procs[c], trees)
  {
  }

  lemma SameVirt2Phys(a: VmInfo, b: VmInfo, vaddr: nat)
    requires SameLayout(a, b)
    ensures Virt2Phys(a, vaddr).None? <==> Virt2Phys(b, vaddr).None?
  {
  }

  lemma AddedVm(pt: PageTables, mem: Heap, mem': Heap, procs: seq<Proc>, trees: map<nat, Trees>, c: nat, p: Proc,
                tr: Trees, child: VmInfo, page: nat, blocks: map<nat, Block>, base: map<nat, Block>)
    requires AllOk(pt, mem, procs, trees) && c < |procs| && c !in trees
    requires child.fds == 0 && child.channels == 0 && page != 0
    requires p.cpu.vm == child.(channels := page) || p.cpu.vm == child.(fds := page)
    requires Books(blocks, base, Gain(PlusSections(HeldByAll(procs, trees), child), true, page))
    requires ProcOk(pt, mem', c, p, trees[c := tr])
    requires OthersKept(mem, mem', map[], Tables(tr.guest) + Tables(tr.ept))
      && (Tables(tr.guest) + Tables(tr.ept)) !! blocks.Keys
    ensures AllOk(pt, mem', procs[c := p], trees[c := tr])
    ensures HeldByAll(procs[c := p], trees[c := tr])
      == PlusTrees(Gain(PlusSections(HeldByAll(procs, trees), child), true, page), tr)
  {
    hide Books, HeldByAll, HeldByOthers, OthersKept, TreesOf, PlusTrees, ProcOk, Tables;
    var h := HeldByAll(procs, trees);
    var vm := p.cpu.vm;
    OthersAndOne(procs, trees, c);
    OthersStand(pt, mem, mem', procs, trees, c, blocks, base, Gain(PlusSections(h, child), true, page),
                Tables(tr.guest) + Tables(tr.ept));
    Installed(pt, mem, mem', procs, trees, c, p, tr);
    HeldAfter(procs, trees, c, p, tr);
    HeldInForkOrder(h, vm, tr);
    OnePage(PlusSections(h, vm), vm);
  }

  // ------------------------------------------------------------------- load_elf

  function AlignPage(a: nat): nat { (a + 0xFFF) / 0x1000 * 0x1000 }

  /** The descriptor after load_elf. With an empty bss the old block and size stay. */
  predicate IsLoaded(was: VmInfo, ph: seq<Segment>, vm: VmInfo)
    requires |ph| == 4
  {
    && vm.startVaddr == ph[0].vaddr && vm.endVaddr == EndVaddr(vm.code, vm.stack)
    && SameShape(vm.code, Section(ph[0].vaddr, 0, ph[0].size))
    && SameShape(vm.data, Section(ph[1].vaddr, 0, ph[1].size))
    && SameShape(vm.rodata, Section(ph[2].vaddr, 0, ph[2].size))
    && (if ph[3].size > 0 then SameShape(vm.bss, Section(ph[3].vaddr, 0, ph[3].size))
        else vm.bss == was.bss.(vaddr := ph[3].vaddr))
    && SameShape(vm.stack, Section(AlignPage(ph[3].vaddr + ph[3].size), 0, STACK_SIZE))
    && vm.fds == was.fds && vm.channels == was.channels && vm.fdOffsets == was.fdOffsets
  }

  /** The address space the executable asks for ends below 4GB. */
  predicate FitsBelow4GB(was: VmInfo, ph: seq<Segment>)
    requires |ph| == 4
  {
    && SectionLow(Section(ph[0].vaddr, 0, ph[0].size)) && SectionLow(Section(ph[1].vaddr, 0, ph[1].size))
    && SectionLow(Section(ph[2].vaddr, 0, ph[2].size))
    && SectionLow(Section(AlignPage(ph[3].vaddr + ph[3].size), 0, STACK_SIZE))
    && SectionLow(Section(ph[3].vaddr, 0, if ph[3].size > 0 then ph[3].size else was.bss.size))
  }

  /** The new descriptor without an old bss block that was carried over. */
  function Fresh(vm: VmInfo, ph: seq<Segment>): VmInfo
    requires |ph| == 4
  {
    if ph[3].size > 0 then vm else vm.(bss := vm.bss.(paddr := 0))
  }

  /** The sizes in which load_elf asks for memory, in order. */
  function Sizes(ph: seq<Segment>): seq<nat>
    requires |ph| == 4
  {
    [ph[0].size, ph[1].size, ph[2].size, ph[3].size, STACK_SIZE]
  }

  function ElfPages(ph: seq<Segment>): nat
    requires |ph| == 4
  {
    PagesUpTo(Sizes(ph), 5)
  }

  predicate IsElfSize(ph: seq<Segment>, n: nat)
    requires |ph| == 4
  {
    exists i | 0 <= i < 5 :: n == Pages(Sizes(ph)[i])
  }

  /** One more section of an executable. */
  method NextSection(pt: PageTables, vaddr: nat, size: nat, own: bool, ghost base: map<nat, Block>, ghost h: Held,
                     ghost steps: seq<map<nat, Block>>, ghost paddrs: seq<nat>, ghost sizes: seq<nat>)
    returns (ok: bool, r: Section, ghost steps': seq<map<nat, Block>>, ghost paddrs': seq<nat>)
    requires pt.alloc.Valid() && Books(pt.alloc.blocks, base, h)
    requires FittedInOrder(steps, pt.alloc.Base(), pt.alloc.total, paddrs, sizes) && steps[|paddrs|] == pt.alloc.blocks
    requires |paddrs| < |sizes| && sizes[|paddrs|] == size
    modifies pt.alloc, pt.alloc.nodes
    ensures pt.alloc.Valid() && Books(pt.alloc.blocks, base, Gain(h, own, r.paddr))
    ensures r.vaddr == vaddr && r.size == size && (size == 0 ==> r.paddr == 0)
    ensures FittedInOrder(steps', pt.alloc.Base(), pt.alloc.total, paddrs', sizes)
      && steps'[|paddrs'|] == pt.alloc.blocks
    ensures steps <= steps'
    ensures !ok ==> paddrs' == paddrs && Pages(size) > 0 && pt.alloc.NoRun(Pages(size))
    ensures ok ==> HasMemory(pt, r) && paddrs' == paddrs + [r.paddr]
  {
    hide Allocator.Valid, Books, Allocator.NoRun, Gain, Fitted, Pages;
    ok, r := NewSection(pt, vaddr, size, own, base, h);
    steps', paddrs' := steps, paddrs;
    if ok {
      FittedStep(steps, pt.alloc.Base(), pt.alloc.total, paddrs, sizes, pt.alloc.blocks, r.paddr);
      steps', paddrs' := steps + [pt.alloc.blocks], paddrs + [r.paddr];
    }
  }

  lemma GainedInOrder(h: Held, vm: VmInfo)
    ensures PlusSections(h, vm)
         == Gain(Gain(Gain(Gain(Gain(h, false, vm.code.paddr), true, vm.data.paddr), false, vm.rodata.paddr), true,
                      vm.bss.paddr), true, vm.stack.paddr)
  {
  }

  function Paddrs(vm: VmInfo): (r: seq<nat>)
    ensures |r| == 5
  {
    [vm.code.paddr, vm.data.paddr, vm.rodata.paddr, vm.bss.paddr, vm.stack.paddr]
  }

  /** Memory for the five sections of an executable. */
  method LoadSections(pt: PageTables, ph: seq<Segment>, ghost base: map<nat, Block>, ghost h: Held)
    returns (ok: bool, vm: VmInfo, ghost steps: seq<map<nat, Block>>, ghost paddrs: seq<nat>)
    requires pt.alloc.Valid() && Books(pt.alloc.blocks, base, h) && |ph| == 4
    modifies pt.alloc, pt.alloc.nodes
    ensures pt.alloc.Valid()
    ensures FittedInOrder(steps, pt.alloc.Base(), pt.alloc.total, paddrs, Sizes(ph))
    ensures steps[0] == old(pt.alloc.blocks) && steps[|paddrs|] == pt.alloc.blocks
    ensures !ok ==> |paddrs| < 5 && Pages(Sizes(ph)[|paddrs|]) > 0 && pt.alloc.NoRun(Pages(Sizes(ph)[|paddrs|]))
    ensures ok ==> paddrs == Paddrs(vm) && Books(pt.alloc.blocks, base, PlusSections(h, vm)) && AllHaveMemory(pt, vm)
    ensures ok ==>
      && SameShape(vm.code, Section(ph[0].vaddr, 0, ph[0].size))
      && SameShape(vm.data, Section(ph[1].vaddr, 0, ph[1].size))
      && SameShape(vm.rodata, Section(ph[2].vaddr, 0, ph[2].size))
      && SameShape(vm.bss, Section(ph[3].vaddr, 0, ph[3].size))
      && SameShape(vm.stack, Section(AlignPage(ph[3].vaddr + ph[3].size), 0, STACK_SIZE))
      && (ph[3].size == 0 ==> vm.bss.paddr == 0)
  {
    hide Allocator.Valid, Books, Allocator.NoRun, Pages, Fitted, Gain, PlusSections;
    ghost var sizes := Sizes(ph);
    steps, paddrs := [pt.alloc.blocks], [];
    assert FittedInOrder(steps, pt.alloc.Base(), pt.alloc.total, [], sizes);
    hide FittedInOrder;
    var none := Section(0, 0, 0);
    vm := VmInfo(0, 0, none, none, none, none, none, 0, [], 0);
    var code, data, rodata, bss, stack;
    ok, code, steps, paddrs := NextSection(pt, ph[0].vaddr, ph[0].size, false, base, h, steps, paddrs, sizes);
    if !ok { return; }
    ghost var h1 := Gain(h, false, code.paddr);
    ok, data, steps, paddrs := NextSection(pt, ph[1].vaddr, ph[1].size, true, base, h1, steps, paddrs, sizes);
    if !ok { return; }
    ghost var h2 := Gain(h1, true, data.paddr);
    ok, rodata, steps, paddrs := NextSection(pt, ph[2].vaddr, ph[2].size, false, base, h2, steps, paddrs, sizes);
    if !ok { return; }
    ghost var h3 := Gain(h2, false, rodata.paddr);
    ok, bss, steps, paddrs := NextSection(pt, ph[3].vaddr, ph[3].size, true, base, h3, steps, paddrs, sizes);
    if !ok { return; }
    ghost var h4 := Gain(h3, true, bss.paddr);
    ok, stack, steps, paddrs := NextSection(pt, AlignPage(ph[3].vaddr + ph[3].size), STACK_SIZE, true, base, h4, steps,
                                            paddrs, sizes);
    if !ok { return; }
    vm := VmInfo(0, 0, code, data, rodata, bss, stack, 0, [], 0);
    GainedInOrder(h, vm);
  }

  /** The allocating part of load_elf. */
  method LoadElf(pt: PageTables, was: VmInfo, ph: seq<Segment>, ghost base: map<nat, Block>, ghost h: Held)
    returns (r: ExecResult, vm: VmInfo, ghost steps: seq<map<nat, Block>>, ghost paddrs: seq<nat>)
    requires pt.alloc.Valid() && Books(pt.alloc.blocks, base, h) && HasMemory(pt, was.bss)
    modifies pt.alloc, pt.alloc.nodes
    ensures pt.alloc.Valid() && !r.NotFound?
    ensures r.ExecPanic? ==> |ph| != 4 || ph[0].size == 0
    ensures |ph| != 4 || ph[0].size == 0 ==> r.ExecPanic?
    ensures !r.ExecPanic? ==>
      && FittedInOrder(steps, pt.alloc.Base(), pt.alloc.total, paddrs, Sizes(ph))
      && steps[0] == old(pt.alloc.blocks) && steps[|paddrs|] == pt.alloc.blocks
    ensures r.ExecFailed? ==>
      |paddrs| < 5 && Pages(Sizes(ph)[|paddrs|]) > 0 && pt.alloc.NoRun(Pages(Sizes(ph)[|paddrs|]))
    ensures r.ExecFailed? ==> !HasRun(old(pt.alloc.blocks), pt.alloc.Base(), pt.alloc.total, ElfPages(ph))
    ensures r.Loaded? ==>
      && paddrs == Paddrs(Fresh(vm, ph))
      && Spends(old(pt.alloc.blocks), pt.alloc.blocks, pt.alloc.Base(), pt.alloc.total, ElfPages(ph))
      && IsLoaded(was, ph, vm) && Books(pt.alloc.blocks, base, PlusSections(h, Fresh(vm, ph))) && AllHaveMemory(pt, vm)
  {
    hide Allocator.Valid, Books, Allocator.NoRun, EndVaddr, Pages, PlusSections, FittedInOrder, HasMemory, HasRun,
         Spends, PagesUpTo;
    vm, steps, paddrs := was, [pt.alloc.blocks], [];
    if |ph| != 4 || ph[0].size == 0 {
      return ExecPanic, vm, steps, paddrs;
    }
    var ok, made;
    ok, made, steps, paddrs := LoadSections(pt, ph, base, h);
    OrderSpends(steps, pt.alloc.Base(), pt.alloc.total, paddrs, Sizes(ph), |paddrs|);
    if !ok {
      RunIsNoRun(pt.alloc, Pages(Sizes(ph)[|paddrs|]));
      OrderFails(steps, pt.alloc.Base(), pt.alloc.total, paddrs, Sizes(ph));
      return ExecFailed, vm, steps, paddrs;
    }
    vm := VmInfo(ph[0].vaddr, EndVaddr(made.code, made.stack), made.code, made.data, made.rodata,
                 if ph[3].size > 0 then made.bss
                 else was.bss.(vaddr := ph[3].vaddr), made.stack, was.fds, was.fdOffsets, was.channels);
    SameSections(h, made, Fresh(vm, ph));
    SameMemory(pt, was.bss, vm.bss);
    r := Loaded;
  }

  lemma OrderFails(steps: seq<map<nat, Block>>, first: nat, total: nat, paddrs: seq<nat>, sizes: seq<nat>)
    requires FittedInOrder(steps, first, total, paddrs, sizes) && |paddrs| < |sizes|
    requires !HasRun(steps[|paddrs|], first, total, Pages(sizes[|paddrs|]))
    ensures !HasRun(steps[0], first, total, PagesUpTo(sizes, |sizes|))
  {
    hide HasRun, Spends, Pages;
    var k := |paddrs|;
    OrderSpends(steps, first, total, paddrs, sizes, k);
    PagesGrow(sizes, k + 1, |sizes|);
    TooShort(steps[0], steps[k], first, total, PagesUpTo(sizes, k), Pages(sizes[k]), PagesUpTo(sizes, |sizes|));
  }

  lemma SameSections(h: Held, a: VmInfo, b: VmInfo)
    requires Paddrs(a) == Paddrs(b)
    ensures PlusSections(h, a) == PlusSections(h, b)
  {
    var x, y := Paddrs(a), Paddrs(b);
    assert x[0] == y[0] && x[1] == y[1] && x[2] == y[2] && x[3] == y[3] && x[4] == y[4];
  }

  lemma SameMemory(pt: PageTables, a: Section, b: Section)
    ensures a.paddr == b.paddr && a.size == b.size && HasMemory(pt, a) ==> HasMemory(pt, b)
  {
  }

  // -------------------------------------------- a stack that virt2phys refuses

  /** An executable with a gap between its code and its data. */
  function GapElf(): seq<Segment> {
    [Segment(0x40_0000, 0x1000), Segment(0x80_0000, 0x1000), Segment(0x80_1000, 0x1000), Segment(0x80_2000, 0x1000)]
  }

  lemma GapPages()
    ensures PagesUpTo(Sizes(GapElf()), 1) == 1 && PagesUpTo(Sizes(GapElf()), 2) == 2
    ensures PagesUpTo(Sizes(GapElf()), 3) == 3 && PagesUpTo(Sizes(GapElf()), 4) == 4 && ElfPages(GapElf()) == 516
  {
    var sizes := Sizes(GapElf());
    assert Pages(0x1000) == 1 && Pages(STACK_SIZE) == 512;
    assert PagesUpTo(sizes, 1) == PagesUpTo(sizes, 0) + 1;
    assert PagesUpTo(sizes, 2) == PagesUpTo(sizes, 1) + 1;
    assert PagesUpTo(sizes, 3) == PagesUpTo(sizes, 2) + 1;
    assert PagesUpTo(sizes, 4) == PagesUpTo(sizes, 3) + 1;
  }

  /** load_elf, when the lowest free page begins a run of 516, puts the stack right behind
      the other sections; in the address space it is further up, and virt2phys panics on
      all of it. */
  method LoadGapElf(pt: PageTables, was: VmInfo, ghost base: map<nat, Block>, ghost h: Held, ghost a: nat)
    returns (r: ExecResult, vm: VmInfo)
    requires pt.alloc.Valid() && Books(pt.alloc.blocks, base, h) && HasMemory(pt, was.bss)
    requires FreeFrom(pt.alloc.blocks, pt.alloc.Base(), pt.alloc.total, a, 516) && a + 516 <= 0x10_0000
    modifies pt.alloc, pt.alloc.nodes
    ensures r.Loaded? && Sections(vm) == Sections(GapVm(a)) && vm.endVaddr == GapVm(a).endVaddr
    ensures Ordered(Sections(vm)) && vm.stack.size == STACK_SIZE
    ensures forall vaddr | vm.stack.vaddr <= vaddr <= vm.stack.vaddr + vm.stack.size :: Virt2Phys(vm, vaddr) == None
  {
    assert HasRun(pt.alloc.blocks, pt.alloc.Base(), pt.alloc.total, 516);
    hide Allocator.Valid, Books, Allocator.NoRun, Virt2Phys, Ordered, FittedInOrder, IsLoaded, GapVm,
         SameLayout, Paddrs, Fresh, FreeFrom, HasRun, Spends, PagesUpTo;
    ghost var steps, paddrs;
    r, vm, steps, paddrs := LoadElf(pt, was, GapElf(), base, h);
    GapPages();
    SideBySide(steps, pt.alloc.Base(), pt.alloc.total, a, 516, paddrs, Sizes(GapElf()), 5);
    GapPlaces(a, paddrs);
    GapIsLoaded(was, vm, a);
    StackNotCovered(a);
    forall vaddr | 0x80_3000 <= vaddr <= 0xA0_3000 ensures Virt2Phys(vm, vaddr) == None {
      SameVirt2Phys(vm, GapVm(a), vaddr);
    }
  }

  lemma GapPlaces(a: nat, paddrs: seq<nat>)
    requires |paddrs| == 5 && forall j | 0 <= j < 5 :: paddrs[j] == PlaceOf(a, Sizes(GapElf()), j)
    ensures paddrs == seq(5, j requires 0 <= j => (a + j) * 0x1000)
  {
    GapPages();
    hide PagesUpTo;
    NothingUpTo(Sizes(GapElf()));
  }

  lemma NothingUpTo(sizes: seq<nat>)
    ensures PagesUpTo(sizes, 0) == 0
  {
  }

  lemma GapIsLoaded(was: VmInfo, vm: VmInfo, first: nat)
    requires IsLoaded(was, GapElf(), vm)
    requires Paddrs(Fresh(vm, GapElf())) == seq(5, j requires 0 <= j => (first + j) * 0x1000)
    ensures SameLayout(vm, GapVm(first)) && Sections(vm) == Sections(GapVm(first))
    ensures vm.endVaddr == GapVm(first).endVaddr && vm.stack.vaddr == 0x80_3000 && vm.stack.size == STACK_SIZE
  {
    hide EndVaddr;
    var ps := Paddrs(vm);
    assert ps[0] == vm.code.paddr && ps[1] == vm.data.paddr && ps[2] == vm.rodata.paddr && ps[3] == vm.bss.paddr
      && ps[4] == vm.stack.paddr;
    assert vm.code == GapVm(first).code && vm.stack == GapVm(first).stack;
  }

  /** A block nobody counted is not in the books. */
  lemma NotCounted(blocks: map<nat, Block>, base: map<nat, Block>, h: Held, paddr: nat)
    requires Books(blocks, base, h) && paddr != 0
    ensures !Books(blocks, base, Gain(h, true, paddr))
  {
    hide Books;
    BooksAt(blocks, base, h, paddr / 0x1000);
    if Books(blocks, base, Gain(h, true, paddr)) {
      BooksAt(blocks, base, Gain(h, true, paddr), paddr / 0x1000);
    }
  }

  /** What is held when the old sections are given back: the order does not matter. */
  lemma SectionsSwap(h: Held, a: VmInfo, b: VmInfo)
    ensures PlusSections(PlusSections(h, a), b) == PlusSections(PlusSections(h, b), a)
  {
    SectionsAssoc(h, a, b);
    SectionsAssoc(h, b, a);
  }

  lemma SectionsAssoc(h: Held, a: VmInfo, b: VmInfo)
    ensures PlusSections(PlusSections(h, a), b)
         == Held(h.shared + ((Frame(a.code.paddr) + Frame(a.rodata.paddr))
                             + (Frame(b.code.paddr) + Frame(b.rodata.paddr))),
                 h.own + ((Frame(a.data.paddr) + Frame(a.bss.paddr) + Frame(a.stack.paddr))
                          + (Frame(b.data.paddr) + Frame(b.bss.paddr) + Frame(b.stack.paddr))),
                 h.tables)
  {
    hide Frame;
    var d, e, f, x := Frame(a.data.paddr), Frame(a.bss.paddr), Frame(a.stack.paddr), Frame(b.data.paddr);
    var y, z := Frame(b.bss.paddr), Frame(b.stack.paddr);
    assert h.own + d + e + f + x + y + z == h.own + ((d + e + f) + (x + y + z));
  }

  lemma LoadedIsLow(pt: PageTables, was: VmInfo, ph: seq<Segment>, vm: VmInfo)
    requires |ph| == 4 && FitsBelow4GB(was, ph) && IsLoaded(was, ph, vm) && Tidy(pt, was)
    requires AllHaveMemory(pt, vm)
    ensures SectionsLow(vm) && Tidy(pt, vm) && vm.fdOffsets == was.fdOffsets
  {
    hide Pages, EndVaddr;
  }

  lemma TreesApart(h: Held, tr: Trees, vm: VmInfo)
    ensures PlusSections(PlusTrees(h, tr), vm) == PlusTrees(PlusSections(h, vm), tr)
  {
  }

  lemma Replaced(pt: PageTables, mem: Heap, mem': Heap, procs: seq<Proc>, trees: map<nat, Trees>, c: nat, p: Proc,
                 tr: Trees, made: VmInfo, blocks: map<nat, Block>, base: map<nat, Block>)
    requires AllOk(pt, mem, procs, trees) && c in trees && c < |procs|
    requires Books(blocks, base, PlusSections(PlusPages(HeldByOthers(procs, trees, c), procs[c].cpu.vm), made))
    requires ProcOk(pt, mem', c, p, trees[c := tr])
    requires OthersKept(mem, mem', map[], Tables(tr.guest) + Tables(tr.ept))
      && (Tables(tr.guest) + Tables(tr.ept)) !! blocks.Keys
    ensures AllOk(pt, mem', procs[c := p], trees[c := tr])
    ensures HeldByAll(procs[c := p], trees[c := tr])
         == PlusSections(PlusTrees(PlusPages(HeldByOthers(procs, trees, c), p.cpu.vm), tr), p.cpu.vm)
  {
    hide Books, HeldByAll, HeldByOthers, OthersKept, TreesOf, PlusTrees, ProcOk, Tables, Frame;
    OthersStand(pt, mem, mem', procs, trees, c, blocks, base,
                PlusSections(PlusPages(HeldByOthers(procs, trees, c), procs[c].cpu.vm), made),
                Tables(tr.guest) + Tables(tr.ept));
    Installed(pt, mem, mem', procs, trees, c, p, tr);
    HeldAfter(procs, trees, c, p, tr);
  }

  /** The books of what was taken are the books of the new descriptor exactly when no old
      bss block was carried over. */
  lemma BooksBalanceIff(blocks: map<nat, Block>, base: map<nat, Block>, rest: Held, vm: VmInfo, tr: Trees,
                        ph: seq<Segment>, was: VmInfo)
    requires |ph| == 4 && IsLoaded(was, ph, vm)
    requires Books(blocks, base, PlusTrees(PlusSections(PlusPages(rest, was), Fresh(vm, ph)), tr))
    ensures Books(blocks, base, PlusSections(PlusTrees(PlusPages(rest, vm), tr), vm))
      <==> ph[3].size > 0 || was.bss.paddr == 0
  {
    hide Books, PlusPages, EndVaddr, SameShape;
    var pages := PlusPages(rest, vm);
    assert pages == PlusPages(rest, was) by { SamePages(rest, was, vm); }
    TreesApart(pages, tr, Fresh(vm, ph));
    TreesApart(pages, tr, vm);
    if ph[3].size == 0 {
      if was.bss.paddr != 0 {
        BssOnTop(pages, vm);
        NotCounted(blocks, base, PlusTrees(PlusSections(pages, Fresh(vm, ph)), tr), was.bss.paddr);
      } else {
        assert Fresh(vm, ph) == vm;
      }
    }
  }

  lemma SamePages(h: Held, a: VmInfo, b: VmInfo)
    requires a.fds == b.fds && a.channels == b.channels
    ensures PlusPages(h, a) == PlusPages(h, b)
  {
  }

  lemma BssOnTop(h: Held, vm: VmInfo)
    ensures PlusSections(h, vm) == Gain(PlusSections(h, vm.(bss := vm.bss.(paddr := 0))), true, vm.bss.paddr)
  {
    hide Frame;
    var d, e, f := Frame(vm.data.paddr), Frame(vm.bss.paddr), Frame(vm.stack.paddr);
    FrameOfNothing();
    assert h.own + d + e + f == h.own + d + multiset{} + f + e;
  }

  lemma FrameOfNothing()
    ensures Frame(0) == multiset{}
  {
  }

  // ------------------------------------------------------ exec without a bss

  /** An executable without a bss: code, data and rodata of one page each. */
  function NoBssElf(): seq<Segment> {
    [Segment(0x40_0000, 0x1000), Segment(0x40_1000, 0x1000), Segment(0x40_2000, 0x1000), Segment(0x40_3000, 0)]
  }

  lemma NoBssPages()
    ensures PagesUpTo(Sizes(NoBssElf()), 0) == 0 && PagesUpTo(Sizes(NoBssElf()), 4) == 3
    ensures ElfPages(NoBssElf()) == 515
  {
    var sizes := Sizes(NoBssElf());
    assert Pages(0x1000) == 1 && Pages(0) == 0 && Pages(STACK_SIZE) == 512;
    assert PagesUpTo(sizes, 1) == PagesUpTo(sizes, 0) + 1;
    assert PagesUpTo(sizes, 2) == PagesUpTo(sizes, 1) + 1;
    assert PagesUpTo(sizes, 3) == PagesUpTo(sizes, 2) + 1;
    assert PagesUpTo(sizes, 4) == PagesUpTo(sizes, 3);
  }

  /** With the lowest free page at the beginning of a long run its sections lie side by
      side, and the top of its stack is the end of its address space. */
  lemma NoBssReaches(pt: PageTables, blocks: map<nat, Block>, was: VmInfo, vm: VmInfo, a: nat)
    requires LoadedAt(pt, blocks, was, NoBssElf(), vm)
    requires FreeFrom(blocks, pt.alloc.Base(), pt.alloc.total, a, ExecDemand(NoBssElf()))
    ensures Virt2Phys(vm, StackTop(vm)).Some?
  {
    hide FreeFrom, Fitted, Pages, PagesUpTo;
    var first, total, ph := pt.alloc.Base(), pt.alloc.total, NoBssElf();
    var ps := Paddrs(Fresh(vm, ph));
    var steps: seq<map<nat, Block>> :| FittedInOrder(steps, first, total, ps, Sizes(ph)) && steps[0] == blocks;
    NoBssPages();
    SideBySide(steps, first, total, a, ExecDemand(ph), ps, Sizes(ph), 5);
    hide FittedInOrder;
    assert ps[0] == PlaceOf(a, Sizes(ph), 0) && ps[4] == PlaceOf(a, Sizes(ph), 4);
    assert vm.code.paddr == a * 0x1000 && vm.stack.paddr == (a + 3) * 0x1000;
    assert vm.endVaddr == 0x60_3000;
  }

  /** A program with a one-page bss executes it, and the lowest free page begins a run that
      is long enough: it is loaded, and PM's books no longer balance. */
  method ExecWithoutBss(pm: Pm, c: nat, ghost a: nat) returns (r: ExecResult)
    requires pm.Valid() && c in pm.trees && pm.procs[c].cpu.vm.bss.paddr != 0 && pm.procs[c].cpu.vm.bss.size == 0x1000
    requires FreeFrom(pm.pt.alloc.blocks, pm.pt.alloc.Base(), pm.pt.alloc.total, a, ExecDemand(NoBssElf()))
    modifies pm, pm.pt, pm.pt.alloc, pm.pt.alloc.nodes
    ensures r.Loaded? && !pm.Valid()
  {
    ghost var blocks, was := pm.pt.alloc.blocks, pm.procs[c].cpu.vm;
    assert HasRun(blocks, pm.pt.alloc.Base(), pm.pt.alloc.total, ExecDemand(NoBssElf()));
    hide Pm.Valid, Allocator.Valid, Allocator.NoRun, GuestIdentity, EptAsPlanned, LoadedAt, Virt2Phys, HasRun, FreeFrom,
         ExecDemand;
    ghost var need;
    r, need := pm.Exec(c, Some(NoBssElf()));
    if r.ExecPanic? {
      NoBssReaches(pm.pt, blocks, was, pm.procs[c].cpu.vm, a);
    }
  }
}
