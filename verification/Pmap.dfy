/** Building, changing and tearing down page tables and EPTs in physical memory
    (vms/pm/pmap.c). Every table page comes from the page allocator. */
module Pmap {
  import opened BlockList
  import opened PageAllocator
  import opened PageWalk

  /** Why the mapper stops. All but the last two are panics of pmap.c: `ThroughLargePage`
      marks the place where the source takes a large page for a table, `NegativeCount` a
      loop whose counter would have to pass the largest int. */
  datatype MapError = BadRegion | EmptyRegion | BadPageSize | BadAlignment | NullTables | UndefinedMode
                    | OutOfMemory | ThroughLargePage | NegativeCount

  datatype MapResult<+T> = Done(value: T) | Stopped(why: MapError)

  const EPT_MTYPE_UC: Flags := 0
  const EPT_MTYPE_WB: Flags := 6

  const MAP_NEW: int := 0
  const MAP_UPDATE: int := 1

  const PAGING_LINK: Flags := 0x003   // PAGE_PRESENT | PAGE_RW
  const PAGING_PRESENT: Flags := 0x001
  const EPT_LINK: Flags := 0x007      // EPT_PAGE_READ | EPT_PAGE_WRITE | EPT_PAGE_EXEC
  const EPT_PRESENT: Flags := 0x007

  const SIZE_4KB: nat := 0x1000
  const SIZE_2MB: nat := 0x20_0000
  const SIZE_1GB: nat := 0x4000_0000

  /** The level whose entries map pages of a size; 0 for a size there is not. */
  function LevelOf(pageSize: nat): nat {
    if pageSize == SIZE_4KB then 1 else if pageSize == SIZE_2MB then 2 else if pageSize == SIZE_1GB then 3 else 0
  }

  /** Entries for pages above 4KB carry the page-size bit. */
  function LeafFlags(level: nat, flags: Flags): (r: Flags)
    ensures level > 1 ==> IsLarge(Entry(0, r))
  {
    if level > 1 then flags | PAGE_PSE else flags
  }

  function PageCount(size: nat, pageSize: nat): nat
    requires pageSize > 0
  {
    size / pageSize + (if size % pageSize != 0 then 1 else 0)
  }

  /** How many pages the loop maps: the counter and its bound are ints. */
  function LoopCount(size: nat, pageSize: nat): (n: int)
    requires pageSize > 0
    ensures PageCount(size, pageSize) < TWO_31 ==> n == PageCount(size, pageSize)
  {
    ToInt32(PageCount(size, pageSize))
  }

  /** The whole region is mapped if and only if it has less than 2^31 pages. */
  lemma WholeRegionIff(size: nat, pageSize: nat)
    requires pageSize > 0
    ensures LoopCount(size, pageSize) == PageCount(size, pageSize) <==> PageCount(size, pageSize) < TWO_31
  {
  }

  /** Of a region of 2^44 bytes no page of 4KB is mapped; for 2^43 bytes the count is
      negative. */
  lemma LargeRegions()
    ensures PageCount(0x1000_0000_0000, SIZE_4KB) == TWO_32 && LoopCount(0x1000_0000_0000, SIZE_4KB) == 0
    ensures LoopCount(0x800_0000_0000, SIZE_4KB) == -0x8000_0000
  {
  }

  /** The argument checks at the top of both mappers, in their order. */
  function CheckRegion(start: nat, end: nat, paddr: nat, pageSize: nat): (r: MapResult<nat>)
    ensures r.Done? <==> start < end && LevelOf(pageSize) != 0 && paddr % pageSize == 0
    ensures r.Done? ==> r.value == LevelOf(pageSize) && pageSize == 0x1000 * Scale(r.value - 1, 1)
  {
    if start > end then Stopped(BadRegion)
    else if start == end then Stopped(EmptyRegion)
    else if LevelOf(pageSize) == 0 then Stopped(BadPageSize)
    else if paddr % pageSize != 0 then Stopped(BadAlignment)
    else Done(LevelOf(pageSize))
  }

  /** The arguments, and not a lack of memory, make the mapper stop. */
  ghost predicate Refused(mode: int, mem: Heap, at: Tree, root: nat, start: nat, end: nat, paddr: nat, pageSize: nat,
                          why: MapError)
  {
    match CheckRegion(start, end, paddr, pageSize)
    case Stopped(reason) => why == reason
    case Done(l) =>
      || (why == UndefinedMode && mode != MAP_NEW && mode != MAP_UPDATE)
      || (why == NullTables && mode == MAP_UPDATE && root in mem && |mem[root]| == ENTRIES && mem[root][0] == ZERO)
      || (why == ThroughLargePage && mode == MAP_UPDATE
          && SomeUnder(mem, at, start / 0x1000, l, LoopCount(end - start, pageSize)))
      || (why == NegativeCount && LoopCount(end - start, pageSize) < 0)
  }

  function EptFlags(mtype: Flags, protection: Flags): Flags { (mtype << 3) | protection }

  /** The page-rounded region lies below 4GB. */
  predicate InLow4GB(start: nat, end: nat, pageSize: nat) {
    start < end && LevelOf(pageSize) != 0
    && start / 0x1000 + Scale(LevelOf(pageSize) - 1, PageCount(end - start, pageSize)) <= 0x10_0000
  }

  /** The region is refused or lies there. */
  predicate StaysLow(start: nat, end: nat, paddr: nat, pageSize: nat) {
    CheckRegion(start, end, paddr, pageSize).Done? ==> InLow4GB(start, end, pageSize)
  }

  lemma LowCount(start: nat, end: nat, pageSize: nat)
    requires start < end && LevelOf(pageSize) != 0
    ensures InLow4GB(start, end, pageSize) ==>
      && LoopCount(end - start, pageSize) == PageCount(end - start, pageSize) > 0
      && start < 0x1_0000_0000
      && start / 0x1000 + Scale(LevelOf(pageSize) - 1, LoopCount(end - start, pageSize)) <= 0x10_0000
  {
  }

  /** The pages that are mapped lie below 2^48. */
  predicate FitsBelow(start: nat, end: nat, pageSize: nat)
    requires start < end && LevelOf(pageSize) != 0
  {
    var n := LoopCount(end - start, pageSize);
    n >= 0 ==> start / 0x1000 + Scale(LevelOf(pageSize) - 1, n) <= 0x10_0000_0000
  }

  /** What both mappers promise about translations: the page-rounded region goes to
      consecutive frames from paddr on with the given entry flags, and every other page
      below 2^48 translates as it did, or not at all in a new tree. */
  ghost predicate Maps(mem: Heap, mem': Heap, isNew: bool, root: nat, root': nat, present: Flags, link: Flags,
                       start: nat, end: nat, paddr: nat, pageSize: nat, flags: Flags)
    requires start < end && LevelOf(pageSize) != 0
  {
    var l := LevelOf(pageSize);
    var u, n := Prefix(start / 0x1000, l - 1), LoopCount(end - start, pageSize);
    forall w: nat | w < 0x10_0000_0000 ::
      Walk(mem', present, root', 4, w) ==
      if u <= Prefix(w, l - 1) < u + n then Target(present, link, l, paddr / 0x1000, u, LeafFlags(l, flags), w)
      else if isNew then Fault
      else Walk(mem, present, root, 4, w)
  }

  /** The tables free_page_tables and ept_map_page_tables visit: those for the lowest 4GB. */
  predicate IsLow(k: Slot) {
    (k.level == 3 ==> k.prefix == 0) && (k.level == 2 ==> k.prefix < 4) && (k.level == 1 ==> k.prefix < 2048)
  }

  /** All tables of the tree are among them, and there is something to free below the root. */
  ghost predicate AllLow(at: Tree) { forall k {:trigger k in at} | k in at :: IsLow(k) }

  ghost function LowTables(at: Tree): set<nat> { set k | k in at && IsLow(k) :: at[k] }

  /** The tables freed once the loops are at directory i, entry j. */
  predicate IsDone(i: nat, j: nat, k: Slot) {
    (k.level == 1 && k.prefix < 512 * i + j) || (k.level == 2 && k.prefix < i)
  }

  ghost function DoneTables(at: Tree, i: nat, j: nat): set<nat> { set k | k in at && IsDone(i, j, k) :: at[k] }

  lemma LowPath(v: nat)
    ensures v < 0x10_0000 ==>
      IsLow(OnPath(v, 1)) && IsLow(OnPath(v, 2)) && IsLow(OnPath(v, 3)) && OnPath(v, 3) == Slot(3, 0)
  {
    assert Prefix(v, 1) == v / 512 && Prefix(v, 2) == v / 512 / 512 && Prefix(v, 3) == v / 512 / 512 / 512;
  }

  lemma NotDoneYet(mem: Heap, root: nat, at: Tree, link: Flags, i: nat, j: nat, k: Slot)
    requires IsTree(mem, root, at, link) && k in at && !IsDone(i, j, k)
    ensures at[k] !in DoneTables(at, i, j)
  {
    forall x | x in at && IsDone(i, j, x) ensures at[x] != at[k] {
      assert Distinct(at, x, k);
    }
  }

  lemma DoneStep(at: Tree, i: nat, j: nat)
    ensures DoneTables(at, i, j + 1) ==
            DoneTables(at, i, j) + (if Slot(1, 512 * i + j) in at then {at[Slot(1, 512 * i + j)]} else {})
  {
    var k := Slot(1, 512 * i + j);
    forall x: Slot ensures IsDone(i, j + 1, x) <==> IsDone(i, j, x) || x == k { }
    if k in at { assert IsDone(i, j + 1, k); }
    forall x | x in at && IsDone(i, j, x) ensures at[x] in DoneTables(at, i, j + 1) { assert IsDone(i, j + 1, x); }
  }

  /** A finished directory: its tables and itself, or nothing when it is not there. */
  lemma DoneDirectory(mem: Heap, root: nat, at: Tree, link: Flags, i: nat)
    requires IsTree(mem, root, at, link)
    ensures Slot(2, i) in at ==> DoneTables(at, i + 1, 0) == DoneTables(at, i, 512) + {at[Slot(2, i)]}
    ensures Slot(2, i) !in at ==> DoneTables(at, i + 1, 0) == DoneTables(at, i, 0)
  {
    var k := Slot(2, i);
    forall x: Slot ensures IsDone(i + 1, 0, x) <==> IsDone(i, 512, x) || x == k { }
    if k in at {
      assert IsDone(i + 1, 0, k);
      forall x | x in at && IsDone(i, 512, x) ensures at[x] in DoneTables(at, i + 1, 0) { assert IsDone(i + 1, 0, x); }
    } else {
      forall x | x in at && IsDone(i + 1, 0, x) ensures IsDone(i, 0, x) {
        assert Hangs(mem, at, link, x) && Parent(x) in at;
      }
      forall x | x in at && IsDone(i, 0, x) ensures at[x] in DoneTables(at, i + 1, 0) { assert IsDone(i + 1, 0, x); }
    }
  }

  lemma DoneAll(mem: Heap, root: nat, at: Tree, link: Flags)
    requires IsTree(mem, root, at, link)
    ensures LowTables(at) == DoneTables(at, 4, 0) + {root} + (if Slot(3, 0) in at then {at[Slot(3, 0)]} else {})
  {
    assert IsLow(ROOT) && at[ROOT] == root;
    assert IsLow(Slot(3, 0));
    forall x | x in at && IsLow(x) ensures at[x] in DoneTables(at, 4, 0) || at[x] == root || x == Slot(3, 0) {
      assert Placed(mem, at, x);
      if x.level <= 2 { assert IsDone(4, 0, x); }
    }
    forall x | x in at && IsDone(4, 0, x) ensures at[x] in LowTables(at) { assert IsLow(x); }
  }

  lemma NothingDone(at: Tree)
    requires forall k | k in at :: k.level >= 1
    ensures DoneTables(at, 0, 0) == {}
  {
  }

  lemma LevelsArePositive(mem: Heap, root: nat, at: Tree, link: Flags)
    requires IsTree(mem, root, at, link)
    ensures forall k | k in at :: k.level >= 1
  {
  }

  lemma DistinctTables(mem: Heap, root: nat, at: Tree, link: Flags, j: Slot, k: Slot)
    requires IsTree(mem, root, at, link) && j in at && k in at && j != k
    ensures at[j] != at[k]
  {
    assert Distinct(at, j, k);
  }

  lemma RootEntryIsLink(mem: Heap, root: nat, at: Tree, link: Flags)
    requires IsTree(mem, root, at, link)
    ensures root in mem && |mem[root]| == ENTRIES && (Slot(3, 0) in at <==> mem[root][0] != ZERO)
  {
    assert Placed(mem, at, ROOT) && Child(ROOT, 0) == Slot(3, 0);
    ChildIsLinked(mem, root, at, link, ROOT, 0);
  }

  /** One step of following v's path, when the table at level l is on it. */
  lemma StepDown(mem: Heap, root: nat, at: Tree, link: Flags, v: nat, l: nat)
    requires IsTree(mem, root, at, link) && 1 <= l <= 4 && OnPath(v, l) in at
    ensures var t := at[OnPath(v, l)];
      && t in mem && |mem[t]| == ENTRIES
      && var e := mem[t][Index(v, l)];
        if l == 1 || e == ZERO || IsLeaf(l, e) then EndLevel(mem, t, l, v) == l
        else
          && OnPath(v, l - 1) in at && at[OnPath(v, l - 1)] == e.frame
          && EndLevel(mem, t, l, v) == EndLevel(mem, e.frame, l - 1, v)
          && e.frame in mem && |mem[e.frame]| == ENTRIES
  {
    var k := OnPath(v, l);
    PrefixStep(v, l);
    assert Placed(mem, at, k) && Child(k, Index(v, l)) == OnPath(v, l - 1);
    if l > 1 {
      ChildIsLinked(mem, root, at, link, k, Index(v, l));
    }
  }

  /** The frames of a tree's tables. */
  ghost function Tables(at: Tree): set<nat> { set k | k in at :: at[k] }

  /** The blocks after the frames of `added` were allocated, one page each. */
  ghost predicate Extends(before: map<nat, Block>, after: map<nat, Block>, added: set<nat>) {
    && added !! before.Keys
    && after == before + map f | f in added :: Block(1, 1)
  }

  /** Every table of the tree is a block of its own. */
  ghost predicate OwnsTables(blocks: map<nat, Block>, at: Tree) {
    forall k {:trigger k in at} | k in at :: at[k] in blocks && blocks[at[k]] == Block(1, 1)
  }

  /** Table pages outside the tree and outside `added` are left alone. */
  ghost predicate OthersKept(mem: Heap, mem': Heap, at: Tree, added: set<nat>) {
    && mem.Keys <= mem'.Keys
    && forall f {:trigger f in mem'} | f in mem && f !in Tables(at) && f !in added :: mem'[f] == mem[f]
  }

  /** All tables of the tree are at level l or above, as in a tree built with one page size. */
  ghost predicate Uniform(at: Tree, l: nat) {
    forall k {:trigger k in at} | k in at :: k.level >= l
  }

  ghost predicate SmallAt(mem: Heap, at: Tree, k: Slot, i: nat)
    requires k in at
  {
    at[k] in mem && i < |mem[at[k]]| ==> mem[at[k]][i] == ZERO || !IsLeaf(k.level, mem[at[k]][i])
  }

  /** No entry above level l maps a page. */
  ghost predicate NoLargerPage(mem: Heap, at: Tree, l: nat) {
    forall k, i: nat {:trigger SmallAt(mem, at, k, i)} | k in at && k.level > l && i < ENTRIES :: SmallAt(mem, at, k, i)
  }

  /** What a step of the mapper does around the translations: it allocates the frames
      of `added` for tables, touches no table of another tree, and, when pages of one
      size only are in play, loses no table and makes no larger page. */
  ghost predicate Grew(mem: Heap, mem': Heap, at: Tree, at': Tree, blocks: map<nat, Block>, blocks': map<nat, Block>,
                       added: set<nat>, l: nat)
  {
    && Extends(blocks, blocks', added)
    && OthersKept(mem, mem', at, added)
    && Tables(at') <= Tables(at) + added
    && (Uniform(at, l) ==> Uniform(at', l) && Tables(at') == Tables(at) + added)
    && (NoLargerPage(mem, at, l) ==> NoLargerPage(mem', at', l))
  }

  /** Entry i of table k maps a page. */
  ghost predicate LeafAt(mem: Heap, at: Tree, k: Slot, i: nat) {
    k in at && at[k] in mem && i < |mem[at[k]]| && mem[at[k]][i] != ZERO && IsLeaf(k.level, mem[at[k]][i])
  }

  /** The same entries above level l map pages. */
  ghost predicate SameLarger(mem: Heap, at: Tree, mem': Heap, at': Tree, l: nat) {
    forall k: Slot, i: nat {:trigger LeafAt(mem, at, k, i)} {:trigger LeafAt(mem', at', k, i)} | k.level > l ::
      LeafAt(mem, at, k, i) <==> LeafAt(mem', at', k, i)
  }

  /** Page v lies in a page of more than the level-l size. */
  ghost predicate UnderLarger(mem: Heap, at: Tree, v: nat, l: nat) {
    exists d | l < d <= 3 :: LeafAt(mem, at, OnPath(v, d), Index(v, d))
  }

  /** So does the given page of a region of level-l pages from v on. */
  ghost predicate PageUnder(mem: Heap, at: Tree, v: nat, l: nat, page: nat)
    requires l >= 1
  {
    UnderLarger(mem, at, v + Scale(l - 1, page), l)
  }

  /** Or some of its first n pages. */
  ghost predicate SomeUnder(mem: Heap, at: Tree, v: nat, l: nat, n: int)
    requires l >= 1
  {
    exists page: nat | page < n :: PageUnder(mem, at, v, l, page)
  }

  lemma SomeStep(mem: Heap, at: Tree, v: nat, l: nat, n: nat)
    requires l >= 1
    ensures SomeUnder(mem, at, v, l, n + 1) <==> SomeUnder(mem, at, v, l, n) || PageUnder(mem, at, v, l, n)
    ensures !SomeUnder(mem, at, v, l, 0)
  {
  }

  lemma SomeMore(mem: Heap, at: Tree, v: nat, l: nat, page: nat, n: int)
    requires l >= 1 && page < n && PageUnder(mem, at, v, l, page)
    ensures SomeUnder(mem, at, v, l, n)
  {
  }

  lemma SameUnder(mem: Heap, at: Tree, mem': Heap, at': Tree, v: nat, l: nat)
    requires SameLarger(mem, at, mem', at', l)
    ensures UnderLarger(mem, at, v, l) <==> UnderLarger(mem', at', v, l)
  {
    forall d: nat | l < d <= 3
      ensures LeafAt(mem, at, OnPath(v, d), Index(v, d)) <==> LeafAt(mem', at', OnPath(v, d), Index(v, d))
    {
    }
  }

  lemma UnderStep(mem: Heap, at: Tree, v: nat, level: nat)
    requires 1 <= level <= 3
    ensures UnderLarger(mem, at, v, level - 1) <==>
      UnderLarger(mem, at, v, level) || LeafAt(mem, at, OnPath(v, level), Index(v, level))
    ensures !UnderLarger(mem, at, v, 3)
  {
  }

  lemma SameLargerTrans(m0: Heap, a0: Tree, m1: Heap, a1: Tree, m2: Heap, a2: Tree, l: nat)
    requires SameLarger(m0, a0, m1, a1, l) && SameLarger(m1, a1, m2, a2, l)
    ensures SameLarger(m0, a0, m2, a2, l)
  {
    forall k: Slot, i: nat | k.level > l ensures LeafAt(m0, a0, k, i) <==> LeafAt(m2, a2, k, i) {
      assert LeafAt(m0, a0, k, i) <==> LeafAt(m1, a1, k, i);
      assert LeafAt(m1, a1, k, i) <==> LeafAt(m2, a2, k, i);
    }
  }

  lemma LinkKeepsLarger(mem: Heap, mem': Heap, root: nat, at: Tree, link: Flags, k: Slot, i: nat, f: nat, l: nat)
    requires IsTree(mem, root, at, link) && k in at && k.level >= 2 && i < ENTRIES && mem[at[k]][i] == ZERO
    requires mem' == mem[f := EMPTY_TABLE][at[k] := mem[at[k]][i := Entry(f, link)]]
    requires (forall j | j in at :: at[j] != f) && Child(k, i) !in at
    ensures SameLarger(mem, at, mem', at[Child(k, i) := f], l)
  {
    var at' := at[Child(k, i) := f];
    forall j: Slot, x: nat | j.level > l ensures LeafAt(mem, at, j, x) <==> LeafAt(mem', at', j, x) {
      if j in at {
        assert Placed(mem, at, j) && Distinct(at, j, k);
      }
    }
  }

  lemma SetKeepsLarger(mem: Heap, mem': Heap, root: nat, at: Tree, link: Flags, v: nat, l: nat, e: Entry)
    requires IsTree(mem, root, at, link) && 1 <= l <= 3 && OnPath(v, l) in at
    requires at[OnPath(v, l)] in mem && |mem[at[OnPath(v, l)]]| == ENTRIES
    requires mem' == mem[at[OnPath(v, l)] := mem[at[OnPath(v, l)]][Index(v, l) := e]]
    ensures SameLarger(mem, at, mem', Prune(at, OnPath(v, l - 1)), l)
  {
    var k, at' := OnPath(v, l), Prune(at, OnPath(v, l - 1));
    forall j: Slot, x: nat | j.level > l ensures LeafAt(mem, at, j, x) <==> LeafAt(mem', at', j, x) {
      if j in at {
        assert Distinct(at, j, k);
      }
    }
  }

  // ---------------------------------------------------- how many pages that takes

  /** At most n pages were taken, each a block of its own. */
  ghost predicate Took(before: map<nat, Block>, after: map<nat, Block>, n: int) {
    exists s: set<nat> :: |s| <= n && Extends(before, after, s)
  }

  /** The tree has tables for the lowest 4GB only, and none below level l. */
  ghost predicate IsSmall(at: Tree, l: nat) {
    forall k {:trigger k in at} | k in at :: l <= k.level <= 4 && (k.level == 4 ==> k == ROOT) && IsLow(k)
  }

  /** Every page taken is one more table of the tree. */
  ghost predicate Frugal(at: Tree, at': Tree, blocks: map<nat, Block>, blocks': map<nat, Block>, l: nat) {
    IsSmall(at, l) ==> IsSmall(at', l) && Took(blocks, blocks', |at'| - |at|)
  }

  lemma TookTrans(b0: map<nat, Block>, b1: map<nat, Block>, b2: map<nat, Block>, n: int, m: int)
    requires Took(b0, b1, n) && Took(b1, b2, m)
    ensures Took(b0, b2, n + m)
  {
    var s: set<nat> :| |s| <= n && Extends(b0, b1, s);
    var t: set<nat> :| |t| <= m && Extends(b1, b2, t);
    ExtendsTrans(b0, b1, b2, s, t);
    UnionSize(s, t);
  }

  lemma UnionSize(s: set<nat>, t: set<nat>)
    ensures |s + t| <= |s| + |t|
  {
    assert |s + t| + |s * t| == |s| + |t|;
  }

  lemma FrugalTrans(a0: Tree, a1: Tree, a2: Tree, b0: map<nat, Block>, b1: map<nat, Block>, b2: map<nat, Block>, l: nat)
    requires Frugal(a0, a1, b0, b1, l) && Frugal(a1, a2, b1, b2, l)
    ensures Frugal(a0, a2, b0, b2, l)
  {
    hide Took, IsSmall;
    if IsSmall(a0, l) {
      TookTrans(b0, b1, b2, |a1| - |a0|, |a2| - |a1|);
    }
  }

  lemma FrugalNothing(at: Tree, blocks: map<nat, Block>, l: nat)
    ensures Frugal(at, at, blocks, blocks, l)
  {
    assert Extends(blocks, blocks, {});
  }

  lemma FrugalOne(at: Tree, k: Slot, f: nat, blocks: map<nat, Block>, blocks': map<nat, Block>, l: nat)
    requires k !in at && l <= k.level <= 4 && (k.level == 4 ==> k == ROOT) && IsLow(k) && Extends(blocks, blocks', {f})
    ensures Frugal(at, at[k := f], blocks, blocks', l)
  {
    var at' := at[k := f];
    assert at'.Keys == at.Keys + {k};
    assert |at'.Keys| == |at'| && |at.Keys| == |at|;
    assert |{f}| <= |at'| - |at|;
  }

  lemma PruneSmall(at: Tree, l: nat, v: nat)
    requires IsSmall(at, l) && l >= 1
    ensures Prune(at, OnPath(v, l - 1)) == at
  {
  }

  function SlotsOf(level: nat, n: nat): set<Slot> { set p: nat | p < n :: Slot(level, p) }

  lemma {:induction false} SlotCount(level: nat, n: nat)
    ensures |SlotsOf(level, n)| == n
  {
    if n == 0 {
      assert SlotsOf(level, 0) == {};
    } else {
      SlotCount(level, n - 1);
      assert SlotsOf(level, n) == SlotsOf(level, n - 1) + {Slot(level, n - 1)};
    }
  }

  /** A tree for the lowest 4GB has few tables: six when its pages are of 2MB. */
  lemma SmallCount(at: Tree, l: nat)
    requires IsSmall(at, l) && 1 <= l
    ensures |at| <= 2054 && (l >= 2 ==> |at| <= 6)
  {
    SlotCount(1, 2048);
    SlotCount(2, 4);
    SlotCount(3, 1);
    var upper := {ROOT} + SlotsOf(3, 1) + SlotsOf(2, 4);
    assert |upper| <= 6;
    var all := upper + SlotsOf(1, 2048);
    assert |all| <= 2054;
    assert |at| == |at.Keys|;
    if l >= 2 {
      forall k | k in at.Keys ensures k in upper {
        assert k in at;
      }
      SubsetSize(at.Keys, upper);
    } else {
      forall k | k in at.Keys ensures k in all {
        assert k in at;
      }
      SubsetSize(at.Keys, all);
    }
  }

  lemma SubsetSize<T>(s: set<T>, t: set<T>)
    requires s <= t
    ensures |s| <= |t|
  {
    assert t == s + (t - s);
  }

  lemma ExtendsTrans(b0: map<nat, Block>, b1: map<nat, Block>, b2: map<nat, Block>, s: set<nat>, t: set<nat>)
    requires Extends(b0, b1, s) && Extends(b1, b2, t)
    ensures Extends(b0, b2, s + t)
  {
  }

  lemma GrewTrans(m0: Heap, m1: Heap, m2: Heap, a0: Tree, a1: Tree, a2: Tree,
                  b0: map<nat, Block>, b1: map<nat, Block>, b2: map<nat, Block>, s: set<nat>, t: set<nat>, l: nat)
    requires Grew(m0, m1, a0, a1, b0, b1, s, l) && Grew(m1, m2, a1, a2, b1, b2, t, l)
    ensures Grew(m0, m2, a0, a2, b0, b2, s + t, l)
  {
    hide NoLargerPage, Uniform, Tables, Extends;
    ExtendsTrans(b0, b1, b2, s, t);
  }

  /** Linking in a fresh table above level l is such a step. */
  lemma LinkGrew(mem: Heap, mem': Heap, root: nat, at: Tree, link: Flags, blocks: map<nat, Block>,
                 blocks': map<nat, Block>, k: Slot, i: nat, f: nat, l: nat)
    requires IsTree(mem, root, at, link) && k in at && k.level > l && k.level >= 2 && i < ENTRIES
    requires mem' == mem[f := EMPTY_TABLE][at[k] := mem[at[k]][i := Entry(f, link)]]
    requires (forall j | j in at :: at[j] != f) && Child(k, i) !in at && Extends(blocks, blocks', {f})
    ensures Grew(mem, mem', at, at[Child(k, i) := f], blocks, blocks', {f}, l)
  {
    var at' := at[Child(k, i) := f];
    assert Tables(at') == Tables(at) + {f} by {
      assert forall j | j in at :: at'[j] == at[j];
      assert at'[Child(k, i)] == f;
    }
    if NoLargerPage(mem, at, l) {
      forall j, x: nat | j in at' && j.level > l && x < ENTRIES ensures SmallAt(mem', at', j, x) {
        if j in at {
          assert SmallAt(mem, at, j, x) && Distinct(at, j, k);
        }
      }
    }
  }

  lemma NotThroughLarge(mem: Heap, at: Tree, l: nat, k: Slot, i: nat)
    requires k in at && k.level > l && i < ENTRIES && at[k] in mem && |mem[at[k]]| == ENTRIES && mem[at[k]][i] != ZERO
    ensures NoLargerPage(mem, at, l) ==> !IsLeaf(k.level, mem[at[k]][i])
  {
    assert NoLargerPage(mem, at, l) ==> SmallAt(mem, at, k, i);
  }

  /** Writing a page entry at level l is such a step too. */
  lemma SetGrew(mem: Heap, mem': Heap, root: nat, at: Tree, link: Flags, blocks: map<nat, Block>, v: nat, l: nat,
                e: Entry)
    requires IsTree(mem, root, at, link) && 1 <= l <= 3 && OnPath(v, l) in at
    requires at[OnPath(v, l)] in mem && |mem[at[OnPath(v, l)]]| == ENTRIES
    requires mem' == mem[at[OnPath(v, l)] := mem[at[OnPath(v, l)]][Index(v, l) := e]]
    ensures Grew(mem, mem', at, Prune(at, OnPath(v, l - 1)), blocks, blocks, {}, l)
  {
    var k, at' := OnPath(v, l), Prune(at, OnPath(v, l - 1));
    assert at[k] in Tables(at);
    if Uniform(at, l) {
      assert at' == at;
    }
    if NoLargerPage(mem, at, l) {
      forall j, x: nat | j in at' && j.level > l && x < ENTRIES ensures SmallAt(mem', at', j, x) {
        assert SmallAt(mem, at, j, x) && Distinct(at, j, k);
      }
    }
  }

  lemma NothingGrew(mem: Heap, at: Tree, blocks: map<nat, Block>, l: nat)
    ensures Grew(mem, mem, at, at, blocks, blocks, {}, l)
  {
  }

  lemma SameWalksTrans(m0: Heap, m1: Heap, m2: Heap, present: Flags, root: nat)
    requires SameWalks(m0, m1, present, root) && SameWalks(m1, m2, present, root)
    ensures SameWalks(m0, m2, present, root)
  {
  }

  lemma RootInTree(mem: Heap, root: nat, at: Tree, link: Flags)
    requires IsTree(mem, root, at, link)
    ensures ROOT in at && at[ROOT] == root
  {
  }

  lemma NothingMapped(mem: Heap, present: Flags, link: Flags, root: nat, l: nat, f: nat, u: nat, flags: Flags)
    requires 1 <= l <= 3
    ensures RegionMapped(mem, mem, present, link, root, l, f, u, 0, flags)
  {
  }

  /** A zeroed root table is a tree that maps nothing. */
  lemma EmptyTree(mem: Heap, root: nat, link: Flags, present: Flags)
    requires IsLinkFlags(link) && root in mem && mem[root] == EMPTY_TABLE
    ensures IsTree(mem, root, map[ROOT := root], link)
    ensures forall w: nat {:trigger Walk(mem, present, root, 4, w)} | w < 0x10_0000_0000 ::
      Walk(mem, present, root, 4, w) == Fault
  {
    var at := map[ROOT := root];
    forall k, i: nat | k in at && i < ENTRIES ensures EntryOk(mem, at, k, i) {
    }
    forall w: nat | w < 0x10_0000_0000 ensures Walk(mem, present, root, 4, w) == Fault {
      WalkEnds(mem, present, root, 4, w);
    }
  }

  lemma EmptyTreeGrew(mem: Heap, mem': Heap, blocks: map<nat, Block>, blocks': map<nat, Block>, root: nat, l: nat)
    requires Extends(blocks, blocks', {root}) && mem' == mem[root := EMPTY_TABLE] && l <= 4
    ensures Grew(mem, mem', map[], map[ROOT := root], blocks, blocks', {root}, l)
    ensures OwnsTables(blocks', map[ROOT := root])
  {
    var at: Tree := map[ROOT := root];
    assert at[ROOT] in Tables(at);
    forall k, i: nat | k in at && k.level > l && i < ENTRIES ensures SmallAt(mem', at, k, i) {
    }
  }

  /** Freeing the tables of a tree built from nothing with one page size below 4GB
      gives back exactly what building it took. */
  lemma FreeUndoesBuild(mem: Heap, mem': Heap, at: Tree, blocks: map<nat, Block>, blocks': map<nat, Block>,
                        added: set<nat>, l: nat)
    requires Grew(mem, mem', map[], at, blocks, blocks', added, l) && AllLow(at)
    ensures blocks' - LowTables(at) == blocks && LowTables(at) == added
  {
    assert Uniform(map[], l);
    assert LowTables(at) == Tables(at) == added;
  }

  // --------------------------------------------------- one tree beside another

  /** An EPT with 4KB pages only, beside another tree that shares no table with it. */
  ghost predicate Beside(mem: Heap, blocks: map<nat, Block>, ept: nat, atE: Tree, root: nat, at: Tree, link: Flags) {
    && IsTree(mem, ept, atE, EPT_LINK) && OwnsTables(blocks, atE) && NoLargerPage(mem, atE, 1) && Slot(3, 0) in atE
    && IsTree(mem, root, at, link) && OwnsTables(blocks, at)
    && Tables(atE) !! Tables(at)
  }

  /** The tables of a tree hold the same in both heaps. */
  ghost predicate TablesKept(mem: Heap, mem': Heap, at: Tree) {
    forall k {:trigger k in at} | k in at && at[k] in mem :: at[k] in mem' && mem'[at[k]] == mem[at[k]]
  }

  /** Growing the EPT leaves the other tree alone. */
  lemma BesideGrew(mem: Heap, mem': Heap, blocks: map<nat, Block>, blocks': map<nat, Block>, ept: nat, atE: Tree,
                   atE': Tree, root: nat, at: Tree, link: Flags, added: set<nat>)
    requires Beside(mem, blocks, ept, atE, root, at, link) && Grew(mem, mem', atE, atE', blocks, blocks', added, 1)
    requires IsTree(mem', ept, atE', EPT_LINK) && OwnsTables(blocks', atE') && Slot(3, 0) in atE'
    ensures Beside(mem', blocks', ept, atE', root, at, link) && TablesKept(mem, mem', at)
  {
    hide NoLargerPage;
    forall k | k in at
      ensures at[k] in mem' && mem'[at[k]] == mem[at[k]] && at[k] in blocks' && blocks'[at[k]] == Block(1, 1)
    {
      assert Placed(mem, at, k) && at[k] in Tables(at) && at[k] !in added;
    }
    TreeFrame(mem, mem', root, at, link);
    assert Tables(atE') !! Tables(at);
  }

  lemma BesideIsTree(mem: Heap, blocks: map<nat, Block>, ept: nat, atE: Tree, root: nat, at: Tree, link: Flags)
    requires Beside(mem, blocks, ept, atE, root, at, link)
    ensures IsTree(mem, root, at, link)
  {
  }

  /** All table pages of the tree are frames an allocator can hand out. */
  ghost predicate LowFrames(at: Tree) { forall k {:trigger k in at} | k in at :: at[k] < TWO_31 }

  ghost predicate FramesBelow4GB(at: Tree) { forall k {:trigger k in at} | k in at :: at[k] < 0x10_0000 }

  lemma FrameBounds(at: Tree, k: Slot)
    requires k in at && LowFrames(at)
    ensures at[k] < TWO_31 && (FramesBelow4GB(at) ==> at[k] < 0x10_0000)
  {
  }

  lemma NoLowerTables(mem: Heap, root: nat, at: Tree, link: Flags)
    requires IsTree(mem, root, at, link) && Slot(3, 0) !in at
    ensures DoneTables(at, 4, 0) == {}
  {
    forall k | k in at ensures !IsDone(4, 0, k) {
      assert Placed(mem, at, k) && Hangs(mem, at, link, k);
      if k.level == 2 {
        assert Parent(k).prefix == k.prefix / 512;
      } else if k.level == 1 {
        assert Hangs(mem, at, link, Parent(k));
        assert Parent(Parent(k)).prefix == k.prefix / 512 / 512;
      }
    }
  }

  /** Frame t mapped to itself in the EPT. */
  function Identity(flags: Flags, t: nat): Translation { Through(PageAt(EPT_PRESENT, t, flags), EPT_LINK) }

  /** The EPT maps the frames of s to themselves and all others as before. */
  ghost predicate IdentityMapped(mem: Heap, mem': Heap, ept: nat, s: set<nat>, flags: Flags) {
    forall w: nat | w < 0x10_0000_0000 ::
      Walk(mem', EPT_PRESENT, ept, 4, w) == if w in s then Identity(flags, w) else Walk(mem, EPT_PRESENT, ept, 4, w)
  }

  lemma NothingIdentityMapped(mem: Heap, ept: nat, flags: Flags, at: Tree)
    ensures IdentityMapped(mem, mem, ept, {}, flags) && TablesKept(mem, mem, at)
  {
  }

  lemma IdentityStep(m0: Heap, m1: Heap, m2: Heap, ept: nat, s: set<nat>, t: nat, flags: Flags)
    requires IdentityMapped(m0, m1, ept, s, flags)
    requires Maps(m1, m2, false, ept, ept, EPT_PRESENT, EPT_LINK, t * 0x1000, t * 0x1000 + 0x1000, t * 0x1000,
                  SIZE_4KB, flags)
    ensures IdentityMapped(m0, m2, ept, s + {t}, flags)
  {
    hide Walk, Through, PageAt;
    assert PageCount(0x1000, SIZE_4KB) == 1 && t * 0x1000 / 0x1000 == t;
  }

  lemma SameHeapSameWalks(mem: Heap, present: Flags, root: nat)
    ensures SameWalks(mem, mem, present, root)
  {
  }

  /** The entry of level `level` on the path maps a page now exactly if it did at first. */
  lemma LeafBefore(mem: Heap, at: Tree, mem': Heap, at': Tree, v: nat, level: nat, l: nat)
    requires SameLarger(mem, at, mem', at', l) && l < level <= 3 && !UnderLarger(mem, at, v, level)
    ensures LeafAt(mem', at', OnPath(v, level), Index(v, level)) ==> UnderLarger(mem, at, v, l)
    ensures !LeafAt(mem', at', OnPath(v, level), Index(v, level)) ==> !UnderLarger(mem, at, v, level - 1)
  {
    assert LeafAt(mem, at, OnPath(v, level), Index(v, level)) <==> LeafAt(mem', at', OnPath(v, level), Index(v, level));
  }

  lemma RootHasNoLeaf(mem: Heap, at: Tree, i: nat)
    ensures !LeafAt(mem, at, ROOT, i)
  {
  }

  lemma SameHeapSameLarger(mem: Heap, at: Tree, l: nat)
    ensures SameLarger(mem, at, mem, at, l)
  {
  }

  class PageTables {
    const alloc: Allocator
    var mem: Heap

    constructor (alloc: Allocator)
      ensures this.alloc == alloc && mem == map[]
    {
      this.alloc := alloc;
      mem := map[];
    }

    /** alloc_page_table: a zeroed page. */
    method AllocPageTable() returns (paddr: nat)
      requires alloc.Valid()
      modifies this, alloc, alloc.nodes
      ensures alloc.Valid()
      ensures paddr == 0 ==> alloc.blocks == old(alloc.blocks) && mem == old(mem)
                             && alloc.NoRun(1)
      ensures paddr != 0 ==>
        var f := paddr / PAGE_SIZE;
        && paddr == f * PAGE_SIZE && f > 0
        && Extends(old(alloc.blocks), alloc.blocks, {f}) && mem == old(mem)[f := EMPTY_TABLE]
    {
      hide Allocator.Valid, FreeFrames;
      paddr := alloc.AllocMemPages(1);
      if paddr > 0 {
        mem := mem[paddr / PAGE_SIZE := seq(512, _ => ZERO)];
      }
    }

    /** One step down: the table below entry i of table t, allocated and linked in when
        the entry is zero. */
    method Descend(root: nat, ghost at: Tree, link: Flags, ghost present: Flags, level: nat, ghost k: Slot, t: nat,
                   i: nat, ghost l: nat)
      returns (r: MapResult<nat>, ghost at': Tree, ghost added: set<nat>)
      requires alloc.Valid() && IsTree(mem, root, at, link) && OwnsTables(alloc.blocks, at) && link & present != 0
      requires k in at && k.level == level >= 2 && at[k] == t && i < ENTRIES && l < level
      modifies this, alloc, alloc.nodes
      ensures alloc.Valid()
      ensures r.Stopped? ==> r.why == OutOfMemory || r.why == ThroughLargePage
      ensures r.Stopped? && r.why == OutOfMemory ==> alloc.NoRun(1)
      ensures r.Stopped? && r.why == ThroughLargePage ==> LeafAt(old(mem), at, k, i)
      ensures r.Done? ==> SameLarger(old(mem), at, mem, at', l) && !LeafAt(old(mem), at, k, i)
      ensures IsLow(Child(k, i)) ==> Frugal(at, at', old(alloc.blocks), alloc.blocks, l)
      ensures r.Done? ==>
        && IsTree(mem, root, at', link) && OwnsTables(alloc.blocks, at') && SameWalks(old(mem), mem, present, root)
        && Child(k, i) in at' && at'[Child(k, i)] == r.value
        && Grew(old(mem), mem, at, at', old(alloc.blocks), alloc.blocks, added, l)
        && (forall j | j in at :: j in at' && at'[j] == at[j])
        && (forall j | j in at' :: j in at || j == Child(k, i))
      ensures NoLargerPage(old(mem), at, l) ==> !(r.Stopped? && r.why == ThroughLargePage)
    {
      hide Allocator.Valid, IsTree, SameWalks, Grew, NoLargerPage, SameLarger, Frugal;
      at', added := at, {};
      FrugalNothing(at, alloc.blocks, l);
      TableShape(mem, root, at, link, k);
      if mem[t][i] == ZERO {
        ghost var mem0 := mem;
        var paddr := AllocPageTable();
        if paddr == 0 {
          return Stopped(OutOfMemory), at', added;
        }
        var f := paddr / PAGE_SIZE;
        mem := mem[t := mem[t][i := Entry(f, link)]];
        added := {f};
        at' := at[Child(k, i) := f];
        GrowKeeps(mem0, mem, root, at, link, present, k, i, f);
        LinkGrew(mem0, mem, root, at, link, old(alloc.blocks), alloc.blocks, k, i, f, l);
        LinkKeepsLarger(mem0, mem, root, at, link, k, i, f, l);
        if IsLow(Child(k, i)) {
          FrugalOne(at, Child(k, i), f, old(alloc.blocks), alloc.blocks, l);
        }
      } else {
        SameHeapSameLarger(mem, at, l);
        SameHeapSameWalks(mem, present, root);
        NothingGrew(mem, at, alloc.blocks, l);
        NotThroughLarge(mem, at, l, k, i);
      }
      ChildIsLinked(mem, root, at', link, k, i);
      if IsLeaf(level, mem[t][i]) {
        return Stopped(ThroughLargePage), at', added;
      }
      r := Done(mem[t][i].frame);
    }

    /** The tables on the way to the level-l entry of page v, made where missing. */
    method Reach(root: nat, ghost at: Tree, link: Flags, ghost present: Flags, v: nat, l: nat)
      returns (r: MapResult<nat>, ghost at': Tree, ghost added: set<nat>)
      requires alloc.Valid() && IsTree(mem, root, at, link) && OwnsTables(alloc.blocks, at) && link & present != 0
      requires 1 <= l <= 3 && v < 0x10_0000_0000
      modifies this, alloc, alloc.nodes
      ensures alloc.Valid()
      ensures r.Stopped? ==> r.why == OutOfMemory || r.why == ThroughLargePage
      ensures r.Stopped? && r.why == OutOfMemory ==> alloc.NoRun(1)
      ensures NoLargerPage(old(mem), at, l) ==> !(r.Stopped? && r.why == ThroughLargePage)
      ensures r.Stopped? && r.why == ThroughLargePage ==> UnderLarger(old(mem), at, v, l)
      ensures r.Done? ==> SameLarger(old(mem), at, mem, at', l) && !UnderLarger(old(mem), at, v, l)
      ensures v < 0x10_0000 ==> Frugal(at, at', old(alloc.blocks), alloc.blocks, l)
      ensures r.Done? ==>
        && IsTree(mem, root, at', link) && OwnsTables(alloc.blocks, at') && SameWalks(old(mem), mem, present, root)
        && OnPath(v, l) in at' && at'[OnPath(v, l)] == r.value && OnPath(v, 3) in at'
        && Grew(old(mem), mem, at, at', old(alloc.blocks), alloc.blocks, added, l)
        && (forall j | j in at :: j in at') && (v < 0x10_0000 && AllLow(at) ==> AllLow(at'))
    {
      hide Allocator.Valid, IsTree, SameWalks, Grew, NoLargerPage, Allocator.NoRun, OwnsTables, SameLarger, Frugal,
           UnderLarger, LeafAt, IsLow;
      PathStartsAtRoot(v);
      LowPath(v);
      PrefixStep(v, 4);
      RootInTree(mem, root, at, link);
      RootHasNoLeaf(mem, at, Index(v, 4));
      UnderStep(mem, at, v, 3);
      r, at', added := Descend(root, at, link, present, 4, ROOT, root, Index(v, 4), l);
      if r.Done? && l < 3 {
        r, at', added := ReachOn(root, at', link, present, v, 3, r.value, l, at, added, old(mem), old(alloc.blocks));
        if r.Done? && l < 2 {
          r, at', added := ReachOn(root, at', link, present, v, 2, r.value, l, at, added, old(mem), old(alloc.blocks));
        }
      }
    }

    /** One more step down on the path of v, composed with the steps before it. */
    method ReachOn(root: nat, ghost at: Tree, link: Flags, ghost present: Flags, v: nat, level: nat, t: nat,
                   ghost l: nat,
                   ghost at0: Tree, ghost added0: set<nat>, ghost mem0: Heap, ghost blocks0: map<nat, Block>)
      returns (r: MapResult<nat>, ghost at': Tree, ghost added: set<nat>)
      requires alloc.Valid() && IsTree(mem, root, at, link) && OwnsTables(alloc.blocks, at) && link & present != 0
      requires 1 <= l < level && 2 <= level <= 3 && OnPath(v, level) in at && at[OnPath(v, level)] == t
      requires SameWalks(mem0, mem, present, root) && Grew(mem0, mem, at0, at, blocks0, alloc.blocks, added0, l)
      requires SameLarger(mem0, at0, mem, at, l) && !UnderLarger(mem0, at0, v, level)
      requires v < 0x10_0000 ==> Frugal(at0, at, blocks0, alloc.blocks, l)
      modifies this, alloc, alloc.nodes
      ensures alloc.Valid()
      ensures r.Stopped? ==> r.why == OutOfMemory || r.why == ThroughLargePage
      ensures r.Stopped? && r.why == OutOfMemory ==> alloc.NoRun(1)
      ensures NoLargerPage(mem0, at0, l) ==> !(r.Stopped? && r.why == ThroughLargePage)
      ensures r.Stopped? && r.why == ThroughLargePage ==> UnderLarger(mem0, at0, v, l)
      ensures r.Done? ==> SameLarger(mem0, at0, mem, at', l) && !UnderLarger(mem0, at0, v, level - 1)
      ensures v < 0x10_0000 ==> Frugal(at0, at', blocks0, alloc.blocks, l)
      ensures r.Done? ==>
        && IsTree(mem, root, at', link) && OwnsTables(alloc.blocks, at') && SameWalks(mem0, mem, present, root)
        && OnPath(v, level - 1) in at' && at'[OnPath(v, level - 1)] == r.value
        && Grew(mem0, mem, at0, at', blocks0, alloc.blocks, added, l)
        && (forall j | j in at :: j in at') && (v < 0x10_0000 && AllLow(at) ==> AllLow(at'))
    {
      hide Allocator.Valid, IsTree, SameWalks, NoLargerPage, Allocator.NoRun, OwnsTables, Extends, OthersKept, Uniform,
           Tables, SameLarger, Frugal, UnderLarger, LeafAt, IsLow;
      PrefixStep(v, level);
      LowPath(v);
      ghost var mem1, blocks1, step := mem, alloc.blocks, {};
      r, at', step := Descend(root, at, link, present, level, OnPath(v, level), t, Index(v, level), l);
      added := added0 + step;
      LeafBefore(mem0, at0, mem1, at, v, level, l);
      if v < 0x10_0000 {
        FrugalTrans(at0, at, at', blocks0, blocks1, alloc.blocks, l);
      }
      if r.Done? {
        SameLargerTrans(mem0, at0, mem1, at, mem, at', l);
        SameWalksTrans(mem0, mem1, mem, present, root);
        GrewTrans(mem0, mem1, mem, at0, at, at', blocks0, blocks1, alloc.blocks, added0, step, l);
      }
    }

    /** One round of the mapping loop: page v of the level-l size gets entry e. */
    method MapPage(root: nat, ghost at: Tree, link: Flags, ghost present: Flags, v: nat, l: nat, e: Entry)
      returns (r: MapResult<()>, ghost at': Tree, ghost added: set<nat>, ghost reached: Heap)
      requires alloc.Valid() && IsTree(mem, root, at, link) && OwnsTables(alloc.blocks, at) && link & present != 0
      requires 1 <= l <= 3 && v < 0x10_0000_0000 && IsLeaf(l, e)
      modifies this, alloc, alloc.nodes
      ensures alloc.Valid()
      ensures r.Stopped? ==> r.why == OutOfMemory || r.why == ThroughLargePage
      ensures r.Stopped? && r.why == OutOfMemory ==> alloc.NoRun(1)
      ensures NoLargerPage(old(mem), at, l) ==> !(r.Stopped? && r.why == ThroughLargePage)
      ensures r.Stopped? && r.why == ThroughLargePage ==> UnderLarger(old(mem), at, v, l)
      ensures r.Done? ==> SameLarger(old(mem), at, mem, at', l) && !UnderLarger(old(mem), at, v, l)
      ensures v < 0x10_0000 ==> Frugal(at, at', old(alloc.blocks), alloc.blocks, l)
      ensures r.Done? ==>
        && IsTree(mem, root, at', link) && OwnsTables(alloc.blocks, at')
        && SameWalks(old(mem), reached, present, root)
        && Remaps(reached, mem, present, link, root, l, Prefix(v, l - 1), e)
        && Grew(old(mem), mem, at, at', old(alloc.blocks), alloc.blocks, added, l)
        && OnPath(v, 3) in at' && (Slot(3, 0) in at ==> Slot(3, 0) in at')
        && (v < 0x10_0000 && AllLow(at) ==> AllLow(at'))
    {
      hide Allocator.Valid, IsTree, SameWalks, Grew, NoLargerPage, Allocator.NoRun, Remaps, SameLarger, UnderLarger,
           IsSmall, Took;
      var t: MapResult<nat>;
      t, at', added := Reach(root, at, link, present, v, l);
      reached := mem;
      if t.Stopped? {
        return Stopped(t.why), at', added, reached;
      }
      TableShape(mem, root, at', link, OnPath(v, l));
      mem := mem[t.value := mem[t.value][Index(v, l) := e]];
      SetKeeps(reached, mem, root, at', link, present, v, l, e);
      SetGrew(reached, mem, root, at', link, alloc.blocks, v, l, e);
      SetKeepsLarger(reached, mem, root, at', link, v, l, e);
      ghost var pruned := Prune(at', OnPath(v, l - 1));
      SameLargerTrans(old(mem), at, reached, at', mem, pruned, l);
      if IsSmall(at', l) {
        PruneSmall(at', l, v);
      }
      GrewTrans(old(mem), reached, mem, at, at', pruned, old(alloc.blocks), alloc.blocks, alloc.blocks, added, {}, l);
      assert added + {} == added;
      at' := pruned;
      r := Done(());
    }

    /** The mapping loop of map_memory and ept_map_memory: n pages of the level-l size
        from virtual page v on, to frames from f on. */
    method MapRegion(root: nat, ghost at: Tree, link: Flags, ghost present: Flags, v: nat, l: nat, f: nat, n: nat,
                     flags: Flags)
      returns (r: MapResult<()>, ghost at': Tree, ghost added: set<nat>)
      requires alloc.Valid() && IsTree(mem, root, at, link) && OwnsTables(alloc.blocks, at) && link & present != 0
      requires 1 <= l <= 3 && IsLeaf(l, Entry(0, flags))
      requires v + Scale(l - 1, n) <= 0x10_0000_0000
      modifies this, alloc, alloc.nodes
      ensures alloc.Valid()
      ensures r.Stopped? ==> r.why == OutOfMemory || r.why == ThroughLargePage
      ensures r.Stopped? && r.why == OutOfMemory ==> alloc.NoRun(1)
      ensures NoLargerPage(old(mem), at, l) ==> !(r.Stopped? && r.why == ThroughLargePage)
      ensures r.Stopped? && r.why == ThroughLargePage ==> SomeUnder(old(mem), at, v, l, n)
      ensures r.Done? ==> !SomeUnder(old(mem), at, v, l, n)
      ensures v + Scale(l - 1, n) <= 0x10_0000 ==> Frugal(at, at', old(alloc.blocks), alloc.blocks, l)
      ensures r.Done? ==>
        && IsTree(mem, root, at', link) && OwnsTables(alloc.blocks, at')
        && RegionMapped(old(mem), mem, present, link, root, l, f, Prefix(v, l - 1), n, flags)
        && Grew(old(mem), mem, at, at', old(alloc.blocks), alloc.blocks, added, l)
        && (v + Scale(l - 1, n) <= 0x10_0000 && AllLow(at) ==> AllLow(at'))
        && ((v < 0x10_0000 && n > 0) || Slot(3, 0) in at ==> Slot(3, 0) in at')
    {
      hide Allocator.Valid, IsTree, SameWalks, NoLargerPage, Allocator.NoRun, Remaps, OwnsTables, RegionMapped,
           Extends, OthersKept, Uniform, Tables, SameLarger, UnderLarger, Frugal, SomeUnder, AllLow, Prefix, Walk;
      at', added := at, {};
      SomeStep(mem, at, v, l, 0);
      SameHeapSameLarger(mem, at, l);
      FrugalNothing(at, alloc.blocks, l);
      NothingMapped(mem, present, link, root, l, f, Prefix(v, l - 1), flags);
      NothingGrew(mem, at, alloc.blocks, l);
      var page, vaddr, paddr := 0, v, f;
      while page != n
        invariant page <= n && vaddr == v + Scale(l - 1, page) && paddr == f + Scale(l - 1, page)
        invariant alloc.Valid() && IsTree(mem, root, at', link) && OwnsTables(alloc.blocks, at')
        invariant RegionMapped(old(mem), mem, present, link, root, l, f, Prefix(v, l - 1), page, flags)
        invariant Grew(old(mem), mem, at, at', old(alloc.blocks), alloc.blocks, added, l)
        invariant v + Scale(l - 1, n) <= 0x10_0000 && AllLow(at) ==> AllLow(at')
        invariant SameLarger(old(mem), at, mem, at', l) && !SomeUnder(old(mem), at, v, l, page)
        invariant v + Scale(l - 1, n) <= 0x10_0000 ==> Frugal(at, at', old(alloc.blocks), alloc.blocks, l)
        invariant (v < 0x10_0000 && page > 0) || Slot(3, 0) in at ==> Slot(3, 0) in at'
        decreases n - page
      {
        ghost var mem1, blocks1, at1, step, reached := mem, alloc.blocks, at', {}, mem;
        PrefixAdd(v, l - 1, page);
        LowPath(vaddr);
        SameUnder(old(mem), at, mem, at', vaddr, l);
        SomeStep(old(mem), at, v, l, page);
        r, at', step, reached := MapPage(root, at', link, present, vaddr, l, Entry(paddr, flags));
        if v + Scale(l - 1, n) <= 0x10_0000 {
          FrugalTrans(at, at1, at', old(alloc.blocks), blocks1, alloc.blocks, l);
        }
        if r.Stopped? {
          if r.why == ThroughLargePage {
            SomeMore(old(mem), at, v, l, page, n);
          }
          return;
        }
        SameLargerTrans(old(mem), at, mem1, at1, mem, at', l);
        RegionStep(old(mem), mem1, reached, mem, present, link, root, l, f, Prefix(v, l - 1), page, flags);
        GrewTrans(old(mem), mem1, mem, at, at1, at', old(alloc.blocks), blocks1, alloc.blocks, added, step, l);
        added := added + step;
        page, paddr, vaddr := page + 1, paddr + Scale(l - 1, 1), vaddr + Scale(l - 1, 1);
      }
      r := Done(());
    }

    /** The root table to work on: a new one, or the given one unless its first entry is zero. */
    method Root(mode: int, root: nat, ghost at: Tree, link: Flags, ghost present: Flags, ghost l: nat)
      returns (r: MapResult<nat>, ghost at': Tree, ghost added: set<nat>)
      requires alloc.Valid() && IsLinkFlags(link) && link & present != 0 && l <= 4
      requires mode == MAP_UPDATE ==> IsTree(mem, root, at, link) && OwnsTables(alloc.blocks, at)
      requires mode == MAP_NEW ==> at == map[]
      modifies this, alloc, alloc.nodes
      ensures alloc.Valid()
      ensures r.Stopped? ==>
        || (r.why == UndefinedMode && mode != MAP_NEW && mode != MAP_UPDATE)
        || (r.why == NullTables && mode == MAP_UPDATE
            && old(root in mem && |mem[root]| == ENTRIES && mem[root][0] == ZERO))
        || (r.why == OutOfMemory && alloc.NoRun(1))
      ensures Frugal(at, at', old(alloc.blocks), alloc.blocks, l)
      ensures r.Done? ==>
        && IsTree(mem, r.value, at', link) && OwnsTables(alloc.blocks, at')
        && Grew(old(mem), mem, at, at', old(alloc.blocks), alloc.blocks, added, l)
        && (mode == MAP_UPDATE ==> r.value == root && mem == old(mem) && at' == at)
        && (mode == MAP_NEW ==> at == map[] && at' == map[ROOT := r.value])
        && (mode == MAP_UPDATE || mode == MAP_NEW)
        && (mode == MAP_UPDATE ==> old(root in mem && |mem[root]| == ENTRIES && mem[root][0] != ZERO))
        && (mode == MAP_NEW ==> NoLargerPage(mem, at', l) && forall w: nat | w < 0x10_0000_0000 ::
              Walk(mem, present, r.value, 4, w) == Fault)
    {
      hide Allocator.Valid, IsTree, Allocator.NoRun, Grew, Frugal;
      at', added := at, {};
      FrugalNothing(at, alloc.blocks, l);
      if mode == MAP_NEW {
        var table := AllocPageTable();
        if table == 0 {
          return Stopped(OutOfMemory), at', added;
        }
        var pml4 := table / PAGE_SIZE;
        at', added := map[ROOT := pml4], {pml4};
        EmptyTree(mem, pml4, link, present);
        FrugalOne(map[], ROOT, pml4, old(alloc.blocks), alloc.blocks, l);
        EmptyTreeGrew(old(mem), mem, old(alloc.blocks), alloc.blocks, pml4, l);
        r := Done(pml4);
      } else if mode == MAP_UPDATE {
        RootInTree(mem, root, at, link);
        TableShape(mem, root, at, link, ROOT);
        if mem[root][0] == ZERO {
          return Stopped(NullTables), at', added;
        }
        NothingGrew(mem, at, alloc.blocks, l);
        r := Done(root);
      } else {
        r := Stopped(UndefinedMode);
      }
    }

    /** The body the two mappers share, for entry flags that are already complete. */
    method MapPages(mode: int, root: nat, ghost at: Tree, link: Flags, ghost present: Flags,
                    start: nat, end: nat, paddr: nat, pageSize: nat, flags: Flags)
      returns (r: MapResult<nat>, ghost at': Tree, ghost added: set<nat>)
      requires alloc.Valid() && IsLinkFlags(link) && link & present != 0
      requires mode == MAP_UPDATE ==> IsTree(mem, root, at, link) && OwnsTables(alloc.blocks, at)
      requires mode == MAP_NEW ==> at == map[]
      requires CheckRegion(start, end, paddr, pageSize).Done? ==> FitsBelow(start, end, pageSize)
      modifies this, alloc, alloc.nodes
      ensures alloc.Valid()
      ensures r.Stopped? ==>
        Refused(mode, old(mem), at, root, start, end, paddr, pageSize, r.why)
          || (r.why == OutOfMemory && alloc.NoRun(1))
      ensures (exists why :: Refused(mode, old(mem), at, root, start, end, paddr, pageSize, why)) ==> r.Stopped?
      ensures NoLargerPage(old(mem), at, LevelOf(pageSize)) ==> !(r.Stopped? && r.why == ThroughLargePage)
      ensures StaysLow(start, end, paddr, pageSize) ==>
        Frugal(at, at', old(alloc.blocks), alloc.blocks, LevelOf(pageSize))
      ensures r.Done? ==>
        && start < end && LevelOf(pageSize) != 0 && CheckRegion(start, end, paddr, pageSize).Done?
        && IsTree(mem, r.value, at', link) && OwnsTables(alloc.blocks, at')
        && Maps(old(mem), mem, mode == MAP_NEW, root, r.value, present, link, start, end, paddr, pageSize, flags)
        && Grew(old(mem), mem, at, at', old(alloc.blocks), alloc.blocks, added, LevelOf(pageSize))
        && (InLow4GB(start, end, pageSize) && AllLow(at) ==> AllLow(at') && Slot(3, 0) in at')
        && (Slot(3, 0) in at ==> Slot(3, 0) in at')
        && (mode == MAP_UPDATE ==> r.value == root)
    {
      hide Allocator.Valid, IsTree, NoLargerPage, Allocator.NoRun, Extends, OthersKept, Uniform, Tables, OwnsTables,
           IsLinkFlags, Walk, Target, Prefix, LeafFlags, LoopCount, PageCount, InLow4GB, Frugal, SomeUnder, Grew;
      at', added := at, {};
      FrugalNothing(at, alloc.blocks, LevelOf(pageSize));
      var level := CheckRegion(start, end, paddr, pageSize);
      if level.Stopped? {
        return level, at', added;
      }
      var l := level.value;
      r, at', added := Root(mode, root, at, link, present, l);
      if r.Stopped? {
        return;
      }
      ghost var mem1, blocks1, at1, step := mem, alloc.blocks, at', {};
      var n := LoopCount(end - start, pageSize);
      if n < 0 {
        return Stopped(NegativeCount), at', added;
      }
      LowCount(start, end, pageSize);
      var m: MapResult<()>;
      m, at', step := MapRegion(r.value, at', link, present, start / 0x1000, l, paddr / 0x1000, n, LeafFlags(l, flags));
      if InLow4GB(start, end, pageSize) {
        FrugalTrans(at, at1, at', old(alloc.blocks), blocks1, alloc.blocks, l);
      }
      if m.Stopped? {
        return Stopped(m.why), at', added;
      }
      GrewTrans(old(mem), mem1, mem, at, at1, at', old(alloc.blocks), blocks1, alloc.blocks, added, step, l);
      added := added + step;
    }

    /** map_memory: guest page tables, whose links are present and writable. */
    method MapMemory(mode: int, pml4: nat, ghost at: Tree, start: nat, end: nat, paddr: nat, pageSize: nat,
                     protection: Flags)
      returns (r: MapResult<nat>, ghost at': Tree, ghost added: set<nat>)
      requires alloc.Valid()
      requires mode == MAP_UPDATE ==> IsTree(mem, pml4, at, PAGING_LINK) && OwnsTables(alloc.blocks, at)
      requires mode == MAP_NEW ==> at == map[]
      requires CheckRegion(start, end, paddr, pageSize).Done? ==> FitsBelow(start, end, pageSize)
      modifies this, alloc, alloc.nodes
      ensures alloc.Valid()
      ensures r.Stopped? ==>
        Refused(mode, old(mem), at, pml4, start, end, paddr, pageSize, r.why)
          || (r.why == OutOfMemory && alloc.NoRun(1))
      ensures (exists why :: Refused(mode, old(mem), at, pml4, start, end, paddr, pageSize, why)) ==> r.Stopped?
      ensures NoLargerPage(old(mem), at, LevelOf(pageSize)) ==> !(r.Stopped? && r.why == ThroughLargePage)
      ensures StaysLow(start, end, paddr, pageSize) ==>
        Frugal(at, at', old(alloc.blocks), alloc.blocks, LevelOf(pageSize))
      ensures r.Done? ==>
        && start < end && LevelOf(pageSize) != 0 && CheckRegion(start, end, paddr, pageSize).Done?
        && IsTree(mem, r.value, at', PAGING_LINK) && OwnsTables(alloc.blocks, at')
        && Maps(old(mem), mem, mode == MAP_NEW, pml4, r.value, PAGING_PRESENT, PAGING_LINK, start, end, paddr,
                pageSize, protection)
        && Grew(old(mem), mem, at, at', old(alloc.blocks), alloc.blocks, added, LevelOf(pageSize))
        && (InLow4GB(start, end, pageSize) && AllLow(at) ==> AllLow(at') && Slot(3, 0) in at')
        && (Slot(3, 0) in at ==> Slot(3, 0) in at')
        && (mode == MAP_UPDATE ==> r.value == pml4)
    {
      hide Allocator.Valid, Allocator.NoRun, IsTree, NoLargerPage, Grew, OwnsTables, Maps, Frugal, Refused;
      r, at', added := MapPages(mode, pml4, at, PAGING_LINK, PAGING_PRESENT, start, end, paddr, pageSize, protection);
    }

    /** ept_map_memory: the EPT, whose links allow everything; the memory type goes to bits 5:3. */
    method EptMapMemory(mode: int, pml4: nat, ghost at: Tree, start: nat, end: nat, paddr: nat, pageSize: nat,
                        mtype: Flags, protection: Flags)
      returns (r: MapResult<nat>, ghost at': Tree, ghost added: set<nat>)
      requires alloc.Valid()
      requires mode == MAP_UPDATE ==> IsTree(mem, pml4, at, EPT_LINK) && OwnsTables(alloc.blocks, at)
      requires mode == MAP_NEW ==> at == map[]
      requires CheckRegion(start, end, paddr, pageSize).Done? ==> FitsBelow(start, end, pageSize)
      modifies this, alloc, alloc.nodes
      ensures alloc.Valid()
      ensures r.Stopped? ==>
        Refused(mode, old(mem), at, pml4, start, end, paddr, pageSize, r.why)
          || (r.why == OutOfMemory && alloc.NoRun(1))
      ensures (exists why :: Refused(mode, old(mem), at, pml4, start, end, paddr, pageSize, why)) ==> r.Stopped?
      ensures NoLargerPage(old(mem), at, LevelOf(pageSize)) ==> !(r.Stopped? && r.why == ThroughLargePage)
      ensures StaysLow(start, end, paddr, pageSize) ==>
        Frugal(at, at', old(alloc.blocks), alloc.blocks, LevelOf(pageSize))
      ensures r.Done? ==>
        && start < end && LevelOf(pageSize) != 0 && CheckRegion(start, end, paddr, pageSize).Done?
        && IsTree(mem, r.value, at', EPT_LINK) && OwnsTables(alloc.blocks, at')
        && Maps(old(mem), mem, mode == MAP_NEW, pml4, r.value, EPT_PRESENT, EPT_LINK, start, end, paddr, pageSize,
                EptFlags(mtype, protection))
        && Grew(old(mem), mem, at, at', old(alloc.blocks), alloc.blocks, added, LevelOf(pageSize))
        && (InLow4GB(start, end, pageSize) && AllLow(at) ==> AllLow(at') && Slot(3, 0) in at')
        && (Slot(3, 0) in at ==> Slot(3, 0) in at')
        && (mode == MAP_UPDATE ==> r.value == pml4)
    {
      hide Allocator.Valid, Allocator.NoRun, IsTree, NoLargerPage, Grew, OwnsTables, Maps, Frugal, Refused;
      r, at', added := MapPages(mode, pml4, at, EPT_LINK, EPT_PRESENT, start, end, paddr, pageSize,
                                EptFlags(mtype, protection));
    }

    /** Free one table page of the tree that was not freed before. */
    method FreeTable(ghost at: Tree, ghost k: Slot, t: nat, ghost gone: set<nat>, ghost before: map<nat, Block>)
      returns (r: Outcome<()>)
      requires alloc.Valid() && OwnsTables(before, at) && alloc.blocks == before - gone
      requires k in at && at[k] == t && t !in gone
      modifies alloc, alloc.nodes
      ensures alloc.Valid() && r.Ok? && alloc.blocks == before - (gone + {t})
    {
      hide Allocator.Valid;
      assert t in alloc.blocks && alloc.blocks[t] == Block(1, 1);
      alloc.LiveBlocksAreDisjoint(t, t);
      r := alloc.FreeMemPages(t * PAGE_SIZE);
      assert alloc.blocks == before - (gone + {t});
    }

    /** The inner loop of free_page_tables: the page tables of directory i, then the
        directory itself. */
    method FreeDirectory(root: nat, ghost at: Tree, ghost link: Flags, ghost i: nat, pde: nat,
                         ghost before: map<nat, Block>)
      returns (r: Outcome<()>)
      requires alloc.Valid() && IsTree(mem, root, at, link) && OwnsTables(before, at)
      requires Slot(2, i) in at && at[Slot(2, i)] == pde && alloc.blocks == before - DoneTables(at, i, 0)
      modifies alloc, alloc.nodes
      ensures alloc.Valid() && r.Ok? && alloc.blocks == before - DoneTables(at, i + 1, 0)
    {
      hide Allocator.Valid, IsTree, DoneTables, OwnsTables;
      ghost var k := Slot(2, i);
      TableShape(mem, root, at, link, k);
      r := Ok(());
      var j := 0;
      while j < ENTRIES
        invariant j <= ENTRIES && alloc.Valid() && r.Ok?
        invariant alloc.blocks == before - DoneTables(at, i, j)
      {
        DoneStep(at, i, j);
        ChildIsLinked(mem, root, at, link, k, j);
        if mem[pde][j] != ZERO && !IsLarge(mem[pde][j]) {
          NotDoneYet(mem, root, at, link, i, j, Child(k, j));
          r := FreeTable(at, Child(k, j), mem[pde][j].frame, DoneTables(at, i, j), before);
        } else {
          assert Child(k, j) !in at;
        }
        j := j + 1;
      }
      NotDoneYet(mem, root, at, link, i, 512, k);
      DoneDirectory(mem, root, at, link, i);
      r := FreeTable(at, k, pde, DoneTables(at, i, 512), before);
    }

    /** free_page_tables. It frees every table for the lowest 4GB exactly once and
        nothing else, and panics exactly when the first entry of the root is zero. */
    method FreePageTables(base: nat, ghost at: Tree, ghost link: Flags) returns (r: Outcome<()>)
      requires alloc.Valid() && IsTree(mem, base, at, link) && OwnsTables(alloc.blocks, at)
      modifies alloc, alloc.nodes
      ensures alloc.Valid()
      ensures r.Ok? <==> Slot(3, 0) in at
      ensures r.Ok? ==> alloc.blocks == old(alloc.blocks) - LowTables(at)
    {
      hide Allocator.Valid, IsTree, DoneTables, LowTables, OwnsTables;
      RootInTree(mem, base, at, link);
      TableShape(mem, base, at, link, ROOT);
      ChildIsLinked(mem, base, at, link, ROOT, 0);
      LevelsArePositive(mem, base, at, link);
      NothingDone(at);
      ghost var before := alloc.blocks;
      var pdpe := mem[base][0].frame;
      if mem[base][0] != ZERO {
        ghost var k := Slot(3, 0);
        assert Child(ROOT, 0) == k;
        TableShape(mem, base, at, link, k);
        var i := 0;
        while i < 4
          invariant i <= 4 && alloc.Valid() && alloc.blocks == before - DoneTables(at, i, 0)
        {
          ChildIsLinked(mem, base, at, link, k, i);
          DoneDirectory(mem, base, at, link, i);
          if mem[pdpe][i] != ZERO && !IsLarge(mem[pdpe][i]) {
            r := FreeDirectory(base, at, link, i, mem[pdpe][i].frame, before);
            if r.Panicked? {
              return;
            }
          } else {
            assert Child(k, i) !in at;
          }
          i := i + 1;
        }
        DoneAll(mem, base, at, link);
        NotDoneYet(mem, base, at, link, 4, 0, k);
        NotDoneYet(mem, base, at, link, 4, 0, ROOT);
        DistinctTables(mem, base, at, link, k, ROOT);
        r := FreeTable(at, k, pdpe, DoneTables(at, 4, 0), before);
        if r.Ok? {
          r := FreeTable(at, ROOT, base, DoneTables(at, 4, 0) + {pdpe}, before);
        }
        assert LowTables(at) == DoneTables(at, 4, 0) + {pdpe} + {base};
      } else {
        r := FreeNull();
      }
    }

    /** Freeing address zero, as happens for a missing directory pointer table. */
    method FreeNull() returns (r: Outcome<()>)
      requires alloc.Valid()
      modifies alloc, alloc.nodes
      ensures alloc.Valid() && r.Panicked?
    {
      r := alloc.FreeMemPages(0);
    }

    /** unmap_memory: the page around v, of whatever size it is mapped with, no longer
        translates; nothing else changes and no table is lost. */
    method UnmapMemory(pml4: nat, ghost at: Tree, ghost link: Flags, ghost present: Flags, v: nat)
      requires IsTree(mem, pml4, at, link) && link & present != 0 && v < 0x10_0000_0000
      modifies this
      ensures IsTree(mem, pml4, at, link)
      ensures Unmapped(old(mem), mem, present, pml4, EndLevel(old(mem), pml4, 4, v), v)
      ensures forall f | f in old(mem) && f !in Tables(at) :: f in mem && mem[f] == old(mem)[f]
    {
      hide IsTree, Unmapped;
      PathStartsAtRoot(v);
      RootInTree(mem, pml4, at, link);
      EndsInTree(mem, pml4, at, link, v, 4);
      ghost var d := EndLevel(mem, pml4, 4, v);
      TableShape(mem, pml4, at, link, OnPath(v, 4));
      TableShape(mem, pml4, at, link, OnPath(v, d));
      StepDown(mem, pml4, at, link, v, 4);
      if mem[pml4][Index(v, 4)] == ZERO {
        NothingToClear(mem, pml4, at, link, present, v, d);
      } else {
        var pdpe := mem[pml4][Index(v, 4)].frame;
        StepDown(mem, pml4, at, link, v, 3);
        if mem[pdpe][Index(v, 3)] == ZERO {
          NothingToClear(mem, pml4, at, link, present, v, d);
        } else if IsLarge(mem[pdpe][Index(v, 3)]) {
          ClearEntry(pml4, at, link, present, v, d, pdpe, 3);
        } else {
          var pde := mem[pdpe][Index(v, 3)].frame;
          StepDown(mem, pml4, at, link, v, 2);
          if mem[pde][Index(v, 2)] == ZERO {
            NothingToClear(mem, pml4, at, link, present, v, d);
          } else if IsLarge(mem[pde][Index(v, 2)]) {
            ClearEntry(pml4, at, link, present, v, d, pde, 2);
          } else {
            ClearEntry(pml4, at, link, present, v, d, mem[pde][Index(v, 2)].frame, 1);
          }
        }
      }
    }

    /** Zero the entry the tables stop at. */
    method ClearEntry(ghost root: nat, ghost at: Tree, ghost link: Flags, ghost present: Flags, v: nat, ghost d: nat,
                      t: nat, level: nat)
      requires IsTree(mem, root, at, link) && link & present != 0
      requires 1 <= level <= 3 && d == level && OnPath(v, d) in at && at[OnPath(v, d)] == t && OnPath(v, d - 1) !in at
      requires t in mem && |mem[t]| == ENTRIES
      modifies this
      ensures IsTree(mem, root, at, link) && Unmapped(old(mem), mem, present, root, d, v)
      ensures forall f | f in old(mem) && f !in Tables(at) :: f in mem && mem[f] == old(mem)[f]
    {
      hide IsTree, Unmapped;
      assert t in Tables(at);
      mem := mem[t := mem[t][Index(v, level) := ZERO]];
      ClearKeeps(old(mem), mem, root, at, link, present, v, d);
    }

    /** Building a tree and freeing it again leaves the allocator's list exactly as it was. */
    method MapThenFree(start: nat, end: nat, paddr: nat, pageSize: nat, protection: Flags) returns (done: bool)
      requires alloc.Valid() && InLow4GB(start, end, pageSize)
      modifies this, alloc, alloc.nodes
      ensures alloc.Valid()
      ensures !done ==> CheckRegion(start, end, paddr, pageSize).Stopped? || alloc.NoRun(1)
      ensures done ==> alloc.heads == old(alloc.heads)
                       && forall i | i in alloc.heads :: alloc.nodes[i] == old(alloc.nodes[i])
    {
      hide Allocator.Valid, Allocator.NoRun, IsTree, Maps;
      ghost var blocks := alloc.blocks;
      ghost var at, added;
      var r: MapResult<nat>;
      r, at, added := MapMemory(MAP_NEW, 0, map[], start, end, paddr, pageSize, protection);
      done := r.Done?;
      if done {
        FreeUndoesBuild(old(mem), mem, at, blocks, alloc.blocks, added, LevelOf(pageSize));
        var o := FreePageTables(r.value, at, PAGING_LINK);
        alloc.BackToTheSameList();
      }
    }

    /** Map table page t of the other tree to itself in the EPT. */
    method MapTablePage(ept: nat, ghost atE: Tree, t: nat, protection: Flags, ghost root: nat, ghost at: Tree,
                        ghost link: Flags, ghost mem0: Heap, ghost blocks0: map<nat, Block>, ghost at0: Tree,
                        ghost added0: set<nat>, ghost s: set<nat>)
      returns (ok: bool, ghost atE': Tree, ghost added: set<nat>)
      requires alloc.Valid() && Beside(mem, alloc.blocks, ept, atE, root, at, link) && t < TWO_31
      requires Grew(mem0, mem, at0, atE, blocks0, alloc.blocks, added0, 1) && TablesKept(mem0, mem, at)
      requires IdentityMapped(mem0, mem, ept, s, EptFlags(EPT_MTYPE_WB, protection))
      modifies this, alloc, alloc.nodes
      ensures alloc.Valid() && (!ok ==> alloc.NoRun(1))
      ensures t < 0x10_0000 ==> Frugal(atE, atE', old(alloc.blocks), alloc.blocks, 1)
      ensures ok ==>
        && Beside(mem, alloc.blocks, ept, atE', root, at, link)
        && Grew(mem0, mem, at0, atE', blocks0, alloc.blocks, added, 1) && TablesKept(mem0, mem, at)
        && IdentityMapped(mem0, mem, ept, s + {t}, EptFlags(EPT_MTYPE_WB, protection))
        && (AllLow(atE) && t < 0x10_0000 ==> AllLow(atE'))
    {
      hide Allocator.Valid, Allocator.NoRun, Grew, IdentityMapped, Maps, EptFlags, IsTree, OwnsTables, NoLargerPage,
           Tables, Frugal;
      ghost var mem1, blocks1, step := mem, alloc.blocks, {};
      RootInTree(mem, ept, atE, EPT_LINK);
      RootEntryIsLink(mem, ept, atE, EPT_LINK);
      var r: MapResult<nat>;
      r, atE', step := EptMapMemory(MAP_UPDATE, ept, atE, t * 0x1000, t * 0x1000 + 0x1000, t * 0x1000, SIZE_4KB,
                                    EPT_MTYPE_WB, protection);
      ok := r.Done?;
      added := added0 + step;
      if ok {
        BesideGrew(mem1, mem, blocks1, alloc.blocks, ept, atE, atE', root, at, link, step);
        GrewTrans(mem0, mem1, mem, at0, atE, atE', blocks0, blocks1, alloc.blocks, added0, step, 1);
        IdentityStep(mem0, mem1, mem, ept, s, t, EptFlags(EPT_MTYPE_WB, protection));
      }
    }

    /** The inner part of ept_map_page_tables: directory i and its page tables. */
    method MapDirectoryPages(ept: nat, ghost atE: Tree, pde: nat, protection: Flags, ghost root: nat, ghost at: Tree,
                             ghost link: Flags,
                             ghost i: nat, ghost mem0: Heap, ghost blocks0: map<nat, Block>, ghost at0: Tree,
                             ghost added0: set<nat>, ghost s: set<nat>)
      returns (ok: bool, ghost atE': Tree, ghost added: set<nat>)
      requires alloc.Valid() && Beside(mem, alloc.blocks, ept, atE, root, at, link)
      requires Slot(2, i) in at && at[Slot(2, i)] == pde
      requires Grew(mem0, mem, at0, atE, blocks0, alloc.blocks, added0, 1) && TablesKept(mem0, mem, at)
        && IsTree(mem0, root, at, link)
      requires IdentityMapped(mem0, mem, ept, s + DoneTables(at, i, 0), EptFlags(EPT_MTYPE_WB, protection))
      requires LowFrames(at)
      modifies this, alloc, alloc.nodes
      ensures alloc.Valid() && (!ok ==> alloc.NoRun(1))
      ensures FramesBelow4GB(at) ==> Frugal(atE, atE', old(alloc.blocks), alloc.blocks, 1)
      ensures ok ==>
        && Beside(mem, alloc.blocks, ept, atE', root, at, link)
        && Grew(mem0, mem, at0, atE', blocks0, alloc.blocks, added, 1) && TablesKept(mem0, mem, at)
        && IdentityMapped(mem0, mem, ept, s + DoneTables(at, i + 1, 0), EptFlags(EPT_MTYPE_WB, protection))
        && (AllLow(atE) && FramesBelow4GB(at) ==> AllLow(atE'))
    {
      hide Allocator.Valid, Allocator.NoRun, Grew, IdentityMapped, EptFlags, Beside, IsTree, TablesKept, DoneTables,
           LowFrames, FramesBelow4GB, Frugal;
      ghost var k := Slot(2, i);
      ghost var low := FramesBelow4GB(at);
      FrameBounds(at, k);
      ok, atE', added := MapTablePage(ept, atE, pde, protection, root, at, link, mem0, blocks0, at0, added0,
                                      s + DoneTables(at, i, 0));
      if !ok {
        return;
      }
      ghost var s1 := s + {pde};
      assert (s + DoneTables(at, i, 0)) + {pde} == s1 + DoneTables(at, i, 0);
      var j := 0;
      while j < ENTRIES
        invariant j <= ENTRIES && alloc.Valid() && ok
        invariant Beside(mem, alloc.blocks, ept, atE', root, at, link)
        invariant Grew(mem0, mem, at0, atE', blocks0, alloc.blocks, added, 1) && TablesKept(mem0, mem, at)
        invariant IdentityMapped(mem0, mem, ept, s1 + DoneTables(at, i, j), EptFlags(EPT_MTYPE_WB, protection))
        invariant AllLow(atE) && FramesBelow4GB(at) ==> AllLow(atE')
        invariant low ==> Frugal(atE, atE', old(alloc.blocks), alloc.blocks, 1)
      {
        DoneStep(at, i, j);
        BesideIsTree(mem, alloc.blocks, ept, atE', root, at, link);
        TableShape(mem, root, at, link, k);
        ChildIsLinked(mem, root, at, link, k, j);
        if mem[pde][j] != ZERO && !IsLarge(mem[pde][j]) {
          var pte := mem[pde][j].frame;
          FrameBounds(at, Child(k, j));
          ghost var at1, blocks1 := atE', alloc.blocks;
          ok, atE', added := MapTablePage(ept, atE', pte, protection, root, at, link, mem0, blocks0, at0, added,
                                          s1 + DoneTables(at, i, j));
          if low {
            FrugalTrans(atE, at1, atE', old(alloc.blocks), blocks1, alloc.blocks, 1);
          }
          if !ok {
            return;
          }
          assert s1 + DoneTables(at, i, j) + {pte} == s1 + DoneTables(at, i, j + 1);
        } else {
          assert Child(k, j) !in at;
          assert DoneTables(at, i, j) == DoneTables(at, i, j + 1);
        }
        j := j + 1;
      }
      DoneDirectory(mem0, root, at, link, i);
      assert s1 + DoneTables(at, i, 512) == s + DoneTables(at, i + 1, 0);
    }

    /** ept_map_page_tables: afterwards the EPT maps every table page of the given tree
        for the lowest 4GB to itself, and everything else as before. */
    method EptMapPageTables(ept: nat, ghost atE: Tree, pml4: nat, ghost at: Tree, ghost link: Flags, protection: Flags)
      returns (ok: bool, ghost atE': Tree, ghost added: set<nat>)
      requires alloc.Valid() && Beside(mem, alloc.blocks, ept, atE, pml4, at, link) && LowFrames(at)
      modifies this, alloc, alloc.nodes
      ensures alloc.Valid() && (!ok ==> alloc.NoRun(1))
      ensures FramesBelow4GB(at) ==> Frugal(atE, atE', old(alloc.blocks), alloc.blocks, 1)
      ensures ok ==>
        && Beside(mem, alloc.blocks, ept, atE', pml4, at, link)
        && Grew(old(mem), mem, atE, atE', old(alloc.blocks), alloc.blocks, added, 1) && TablesKept(old(mem), mem, at)
        && IdentityMapped(old(mem), mem, ept, LowTables(at), EptFlags(EPT_MTYPE_WB, protection))
        && (AllLow(atE) && FramesBelow4GB(at) ==> AllLow(atE'))
    {
      hide Allocator.Valid, Allocator.NoRun, Grew, IdentityMapped, EptFlags, Beside, IsTree, TablesKept, DoneTables,
           LowTables, LowFrames, FramesBelow4GB, Frugal, AllLow;
      ghost var mem0, blocks0, low := mem, alloc.blocks, FramesBelow4GB(at);
      BesideIsTree(mem, alloc.blocks, ept, atE, pml4, at, link);
      RootInTree(mem, pml4, at, link);
      FrameBounds(at, ROOT);
      LevelsArePositive(mem, pml4, at, link);
      NothingDone(at);
      DoneAll(mem, pml4, at, link);
      NothingGrew(mem, atE, alloc.blocks, 1);
      NothingIdentityMapped(mem, ept, EptFlags(EPT_MTYPE_WB, protection), at);
      ok, atE', added := MapTablePage(ept, atE, pml4, protection, pml4, at, link, mem0, blocks0, atE, {}, {});
      if !ok {
        return;
      }
      ghost var s := {pml4};
      assert {} + {pml4} == s;
      BesideIsTree(mem, alloc.blocks, ept, atE', pml4, at, link);
      RootEntryIsLink(mem, pml4, at, link);
      ChildIsLinked(mem, pml4, at, link, ROOT, 0);
      ghost var k := Slot(3, 0);
      assert Child(ROOT, 0) == k;
      if mem[pml4][0] != ZERO {
        var pdpe := mem[pml4][0].frame;
        FrameBounds(at, k);
        ghost var at1, blocks1 := atE', alloc.blocks;
        ok, atE', added := MapTablePage(ept, atE', pdpe, protection, pml4, at, link, mem0, blocks0, atE, added, s);
        if low {
          FrugalTrans(atE, at1, atE', blocks0, blocks1, alloc.blocks, 1);
        }
        if !ok {
          return;
        }
        s := s + {pdpe};
        assert s == s + DoneTables(at, 0, 0);
        var i := 0;
        while i < 4
          invariant i <= 4 && alloc.Valid() && ok
          invariant Beside(mem, alloc.blocks, ept, atE', pml4, at, link)
          invariant Grew(mem0, mem, atE, atE', blocks0, alloc.blocks, added, 1) && TablesKept(mem0, mem, at)
          invariant IdentityMapped(mem0, mem, ept, s + DoneTables(at, i, 0), EptFlags(EPT_MTYPE_WB, protection))
          invariant AllLow(atE) && FramesBelow4GB(at) ==> AllLow(atE')
          invariant low ==> Frugal(atE, atE', blocks0, alloc.blocks, 1)
        {
          BesideIsTree(mem, alloc.blocks, ept, atE', pml4, at, link);
          TableShape(mem, pml4, at, link, k);
          ChildIsLinked(mem, pml4, at, link, k, i);
          if mem[pdpe][i] != ZERO && !IsLarge(mem[pdpe][i]) {
            at1, blocks1 := atE', alloc.blocks;
            ok, atE', added := MapDirectoryPages(ept, atE', mem[pdpe][i].frame, protection, pml4, at, link, i, mem0,
                                                 blocks0, atE, added, s);
            if low {
              FrugalTrans(atE, at1, atE', blocks0, blocks1, alloc.blocks, 1);
            }
            if !ok {
              return;
            }
          } else {
            assert Child(k, i) !in at;
            DoneDirectory(mem, pml4, at, link, i);
          }
          i := i + 1;
        }
        assert s + DoneTables(at, 4, 0) == LowTables(at);
      } else {
        NoLowerTables(mem, pml4, at, link);
        assert LowTables(at) == s;
      }
    }
  }
}
