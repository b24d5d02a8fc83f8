/** What a VM's memory looks like: its descriptor, the address computation the
    process manager uses on it (lib/lib_mem.c) and the list of windows that
    ept_pmap puts into its EPT (vms/pm/main.c). */
module VmLayout {
  import opened PageWalk
  import opened Pmap
  import opened Prelude

  /** A section of a VM; nothing is mapped for one of size zero. */
  datatype Section = Section(vaddr: nat, paddr: nat, size: nat)

  /** The memory side of struct vm_proc. */
  datatype VmInfo = VmInfo(startVaddr: nat, endVaddr: nat,
                           code: Section, data: Section, rodata: Section, bss: Section, stack: Section,
                           fds: nat, fdOffsets: seq<nat>, channels: nat)

  /** The pages of struct cpu_info a VM shares with the rest of the system, and its VM. */
  datatype CpuInfo = CpuInfo(self: nat, msgInput: nat, msgOutput: nat, msgReady: nat, msgReadyBitmap: nat, vm: VmInfo)

  /** virt2phys; None is its panic. */
  function Virt2Phys(vm: VmInfo, vaddr: nat): Option<nat> {
    if vm.code.vaddr <= vaddr < vm.data.vaddr then Some(vm.code.paddr + (vaddr - vm.code.vaddr))
    else if vm.data.vaddr <= vaddr < vm.rodata.vaddr then Some(vm.data.paddr + (vaddr - vm.data.vaddr))
    else if vm.rodata.vaddr <= vaddr < vm.bss.vaddr then Some(vm.rodata.paddr + (vaddr - vm.rodata.vaddr))
    else if vm.bss.vaddr <= vaddr < vm.stack.vaddr then Some(vm.bss.paddr + (vaddr - vm.bss.vaddr))
    else if vm.stack.vaddr <= vaddr <= vm.endVaddr then Some(vm.stack.paddr + (vaddr - vm.stack.vaddr))
    else None
  }

  // -------------------------------------------------------------------- windows

  /** One ept_map_memory call with 4KB pages. */
  datatype Window = Window(start: nat, end: nat, paddr: nat, mtype: Flags, protection: Flags)

  const READ: Flags := 0x001
  const WRITE: Flags := 0x002
  const EXEC: Flags := 0x004

  function PageWindow(paddr: nat, protection: Flags): Window {
    Window(paddr, paddr + 0x1000, paddr, EPT_MTYPE_WB, protection)
  }

  function SectionWindow(s: Section, protection: Flags): seq<Window> {
    if s.size > 0 then [Window(s.vaddr, s.vaddr + s.size, s.paddr, EPT_MTYPE_WB, protection)] else []
  }

  /** The pages behind open descriptors. */
  function OffsetWindows(offsets: seq<nat>): seq<Window> {
    if offsets == [] then []
    else (if offsets[0] != 0 then [PageWindow(offsets[0], WRITE | READ)] else []) + OffsetWindows(offsets[1..])
  }

  function DescriptorWindows(vm: VmInfo): seq<Window> {
    if vm.fds > 0 then [PageWindow(vm.fds, WRITE | READ)] + OffsetWindows(vm.fdOffsets) else []
  }

  function ChannelWindows(vm: VmInfo): seq<Window> {
    if vm.channels > 0 then [PageWindow(vm.channels, WRITE | READ)] else []
  }

  /** The two windows mapped before the table pages: the VGA page and the APIC area. */
  const VGA_WINDOW: Window := Window(0xB8000, 0xB9000, 0xB8000, EPT_MTYPE_UC, READ | WRITE)
  const APIC_WINDOW: Window := Window(0xFEC0_0000, 0x1_0000_0000, 0xFEC0_0000, EPT_MTYPE_UC, READ | WRITE)
  const DEVICE_WINDOW: Window := Window(0xC000_0000, 0xC600_0000, 0xC000_0000, EPT_MTYPE_UC, WRITE | READ)

  /** The pages of the cpu_info structure and its message boxes. */
  function SharedWindows(cpu: CpuInfo): seq<Window> {
    [PageWindow(cpu.self, READ), PageWindow(cpu.msgInput, WRITE | READ), PageWindow(cpu.msgOutput, WRITE | READ),
     PageWindow(cpu.msgReady, WRITE | READ), PageWindow(cpu.msgReadyBitmap, WRITE | READ)]
  }

  /** The sections in the order in which they are mapped, which is also their order in
      the address space. */
  function Sections(vm: VmInfo): seq<Section> { [vm.code, vm.data, vm.rodata, vm.bss, vm.stack] }

  function Protection(i: nat): Flags {
    if i == 0 then READ | EXEC else if i == 2 then READ else READ | WRITE
  }

  /** The windows of sections i and following. */
  function SectionWindowsFrom(ss: seq<Section>, i: nat): seq<Window>
    requires i <= |ss|
    decreases |ss| - i
  {
    if i == |ss| then [] else SectionWindow(ss[i], Protection(i)) + SectionWindowsFrom(ss, i + 1)
  }

  function SectionWindows(vm: VmInfo): seq<Window> { SectionWindowsFrom(Sections(vm), 0) }

  /** The windows mapped after the sections. */
  function LastWindows(vm: VmInfo): seq<Window> {
    DescriptorWindows(vm) + ChannelWindows(vm) + [DEVICE_WINDOW]
  }

  /** The windows mapped after the table pages, in order. */
  function Windows(cpu: CpuInfo): seq<Window> {
    SharedWindows(cpu) + SectionWindows(cpu.vm) + LastWindows(cpu.vm)
  }

  // ------------------------------------------------------------------- overlays

  /** Page w is in the page-rounded window. */
  predicate InWindow(win: Window, w: nat) {
    win.start < win.end && win.start / 0x1000 <= w < win.start / 0x1000 + PageCount(win.end - win.start, SIZE_4KB)
  }

  /** Where a window sends page w. */
  function WindowTarget(win: Window, w: nat): Translation
    requires InWindow(win, w)
  {
    Target(EPT_PRESENT, EPT_LINK, 1, win.paddr / 0x1000, win.start / 0x1000, EptFlags(win.mtype, win.protection), w)
  }

  /** The translation of page w once the windows were mapped over it: the last one that
      contains the page decides. */
  function Overlay(under: Translation, ws: seq<Window>, w: nat): Translation {
    if ws == [] then under
    else
      var last := ws[|ws| - 1];
      if InWindow(last, w) then WindowTarget(last, w) else Overlay(under, ws[..|ws| - 1], w)
  }

  /** The window that decides on page w. */
  function LastHit(ws: seq<Window>, w: nat): (r: Option<Window>)
    ensures r.Some? ==> InWindow(r.value, w) && r.value in ws
    ensures r.None? <==> forall win | win in ws :: !InWindow(win, w)
  {
    if ws == [] then None
    else if InWindow(ws[|ws| - 1], w) then Some(ws[|ws| - 1])
    else
      assert ws == ws[..|ws| - 1] + [ws[|ws| - 1]];
      LastHit(ws[..|ws| - 1], w)
  }

  lemma {:induction false} OverlayIsLast(under: Translation, ws: seq<Window>, w: nat)
    ensures Overlay(under, ws, w) == match LastHit(ws, w) case None => under case Some(win) => WindowTarget(win, w)
    decreases |ws|
  {
    hide InWindow, WindowTarget;
    if ws != [] {
      OverlayIsLast(under, ws[..|ws| - 1], w);
    }
  }

  lemma {:induction false} OverlayConcat(under: Translation, a: seq<Window>, b: seq<Window>, w: nat)
    ensures Overlay(under, a + b, w) == Overlay(Overlay(under, a, w), b, w)
    decreases |b|
  {
    if b == [] {
      assert a + b == a;
    } else {
      assert (a + b)[|a + b| - 1] == b[|b| - 1];
      assert (a + b)[..|a + b| - 1] == a + b[..|b| - 1];
      OverlayConcat(under, a, b[..|b| - 1], w);
    }
  }

  /** Windows that do not contain a page leave it alone. */
  lemma {:induction false} OverlayMiss(under: Translation, ws: seq<Window>, w: nat)
    requires forall win | win in ws :: !InWindow(win, w)
    ensures Overlay(under, ws, w) == under
    decreases |ws|
  {
    if ws != [] {
      OverlayMiss(under, ws[..|ws| - 1], w);
    }
  }

  /** A single window that contains the page decides when no later one does. */
  lemma OverlayHit(under: Translation, a: seq<Window>, win: Window, b: seq<Window>, w: nat)
    requires InWindow(win, w) && forall x | x in b :: !InWindow(x, w)
    ensures Overlay(under, a + [win] + b, w) == WindowTarget(win, w)
  {
    OverlayConcat(under, a + [win], b, w);
    OverlayMiss(Overlay(under, a + [win], w), b, w);
    assert (a + [win])[|a + [win]| - 1] == win;
  }
}
