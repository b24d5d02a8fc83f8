/** The page-block allocator of the process manager (vms/pm/memory.c): first fit
    over the address-ordered block list, splitting on allocation, coalescing both
    neighbours on release, counting references. */
module PageAllocator {
  import opened BlockList

  const TWO_31: nat := 0x8000_0000
  const TWO_32: nat := 0x1_0000_0000
  const TWO_64: nat := 0x1_0000_0000_0000_0000

  /** Page counts and node indices are kept in an int. */
  const MAX_MEMORY: nat := 0x7FF_FFFF_F000

  /** sizeof (struct block_node) on x86-64. */
  const NODE_SIZE: nat := 32

  /** The panics of memory.c. `OutsideArray` is not one: it marks the accesses to
      block_node_array before its first or after its last element that the checks
      let through. */
  datatype Panic = Misconfigured | NotEnoughMemory | Misaligned | UnderRange | OverRange
                 | AlreadyAllocated | FreeBlock | ListCorrupted | OutsideArray

  datatype Outcome<+T> = Ok(value: T) | Panicked(why: Panic)

  /** Conversion of an unsigned 64-bit value to int. */
  function ToInt32(x: nat): (r: int)
    ensures x < TWO_31 ==> r == x
    ensures -0x8000_0000 <= r < 0x8000_0000
  {
    var w := x % TWO_32;
    if w < TWO_31 then w else w - TWO_32
  }

  function AlignToPage(x: nat): (r: nat)
    ensures r % PAGE_SIZE == 0 && x <= r < x + PAGE_SIZE
  {
    (x + 0xFFF) / 0x1000 * 0x1000
  }

  // ----------------------------------------------------------- initialisation

  datatype Layout = Layout(first: nat, nodeCount: nat, pages: int)

  /** memory_init: where the node array goes, where free memory starts behind it
      and how many pages the first block is given, in 64-bit unsigned arithmetic. */
  function InitLayout(lastByte: nat, memSize: nat): (r: Outcome<Layout>)
  {
    if memSize < lastByte then Panicked(Misconfigured)
    else
      var free := memSize - lastByte;
      var nodeCount := free / PAGE_SIZE + (if free % PAGE_SIZE != 0 then 1 else 0);
      if nodeCount * NODE_SIZE + lastByte > memSize then Panicked(NotEnoughMemory)
      else
        var first := AlignToPage(lastByte + nodeCount * NODE_SIZE);
        var freeAfter := (memSize - first) % TWO_64;
        Ok(Layout(first, nodeCount, ToInt32(freeAfter / PAGE_SIZE)))
  }

  /** Behind the last byte, and 32 bytes for every page begun above it, a whole page is left. */
  predicate LeavesAPage(lastByte: nat, memSize: nat) {
    lastByte <= memSize
      && (lastByte + NODE_SIZE * ((memSize - lastByte + 0xFFF) / 0x1000) + 0xFFF) / 0x1000 < memSize / 0x1000
  }

  /** The first block has at least one page and covers the whole pages up to the end of
      memory if and only if a page is left; otherwise it has no page, or minus one. */
  lemma InitCoversMemoryIff(lastByte: nat, memSize: nat)
    requires memSize < MAX_MEMORY
    requires InitLayout(lastByte, memSize).Ok?
    ensures var l := InitLayout(lastByte, memSize).value;
      (1 <= l.pages <= l.nodeCount && memSize - PAGE_SIZE < l.first + PAGE_SIZE * l.pages <= memSize)
      <==> LeavesAPage(lastByte, memSize)
    ensures LeavesAPage(lastByte, memSize) <==> InitLayout(lastByte, memSize).value.first + PAGE_SIZE <= memSize
    ensures !LeavesAPage(lastByte, memSize) ==> -1 <= InitLayout(lastByte, memSize).value.pages <= 0
  {
    hide AlignToPage, ToInt32;
    var l := InitLayout(lastByte, memSize).value;
    RoundedUp(memSize - lastByte);
    var end := lastByte + NODE_SIZE * l.nodeCount;
    AlignedBelow(end, memSize);
    if l.first <= memSize {
      assert (memSize - l.first) % TWO_64 == memSize - l.first;
      PagesBelow(l.first, memSize);
    } else {
      WrappedPages(l.first - memSize);
      assert (memSize - l.first) % TWO_64 == TWO_64 - (l.first - memSize);
    }
  }

  lemma AlignedBelow(x: nat, end: nat)
    ensures AlignToPage(x) + PAGE_SIZE <= end <==> (x + 0xFFF) / 0x1000 < end / 0x1000
    ensures x <= AlignToPage(x) < x + PAGE_SIZE
  {
    var k := (x + 0xFFF) / 0x1000;
    assert AlignToPage(x) == k * 0x1000;
  }

  lemma PagesBelow(first: nat, end: nat)
    requires first <= end && (end - first) / PAGE_SIZE < TWO_31
    ensures var n := ToInt32((end - first) / PAGE_SIZE);
      0 <= n && end - PAGE_SIZE < first + PAGE_SIZE * n <= end && (n == 0 <==> first + PAGE_SIZE > end)
  {
  }

  lemma WrappedPages(d: nat)
    requires 0 < d < PAGE_SIZE
    ensures ToInt32((TWO_64 - d) / PAGE_SIZE) == -1
  {
    assert (TWO_64 - d) / PAGE_SIZE == TWO_64 / PAGE_SIZE - 1;
  }

  lemma RoundedUp(free: nat)
    ensures free / PAGE_SIZE + (if free % PAGE_SIZE != 0 then 1 else 0) == (free + 0xFFF) / 0x1000
  {
  }

  /** Rounding the start of free memory up can pass the end of memory; the size
      then wraps around and the single block gets a negative page count. */
  lemma InitCanUnderflow()
    ensures InitLayout(0x2E00, 0x2F00) == Ok(Layout(0x3000, 1, -1))
  {
  }

  // ------------------------------------------------------------ address checks

  /** The checks that alloc_block_node, realloc_mem_block and free_mem_pages share,
      up to the array access. */
  function Locate(first: nat, lastIdx: nat, paddr: nat): (r: Outcome<nat>)
    ensures r.Ok? ==> r.value < lastIdx
    ensures first % PAGE_SIZE == 0 && lastIdx < TWO_31 && paddr < first + PAGE_SIZE * TWO_31
            ==> (r.Ok? <==> paddr % PAGE_SIZE == 0 && first <= paddr < first + PAGE_SIZE * lastIdx)
                && (r.Ok? ==> paddr == first + PAGE_SIZE * r.value)
  {
    if paddr % PAGE_SIZE != 0 then Panicked(Misaligned)
    else if paddr < first then Panicked(UnderRange)
    else
      var idx := ToInt32((paddr - first) / PAGE_SIZE);
      if idx > lastIdx then Panicked(OverRange)
      else if idx < 0 || idx == lastIdx then Panicked(OutsideArray)
      else Ok(idx)
  }

  /** The range check is off by one: the address one page past the last node's
      page passes it and reaches an element behind the array. */
  lemma LocateMissesTheEnd(first: nat, lastIdx: nat)
    requires first % PAGE_SIZE == 0 && lastIdx < TWO_31
    ensures Locate(first, lastIdx, first + PAGE_SIZE * lastIdx) == Panicked(OutsideArray)
  {
    assert (PAGE_SIZE * lastIdx) / PAGE_SIZE == lastIdx;
  }

  // ----------------------------------------------------- frames and free frames

  ghost predicate HasFrame(live: map<nat, Block>, base: nat, f: nat) { f >= base && f - base in live }

  ghost function AtFrame(live: map<nat, Block>, base: nat, f: nat): Block
    requires HasFrame(live, base, f)
  {
    live[f - base]
  }

  /** The live blocks keyed by physical page frame rather than by node index. */
  ghost function ByFrame(live: map<nat, Block>, base: nat, total: nat): map<nat, Block> {
    map f | base <= f < base + total && HasFrame(live, base, f) :: AtFrame(live, base, f)
  }

  lemma ByFrameAdding(live: map<nat, Block>, base: nat, total: nat, i: nat, b: Block)
    requires i < total
    ensures ByFrame(live[i := b], base, total) == ByFrame(live, base, total)[base + i := b]
  {
    var l, r := ByFrame(live[i := b], base, total), ByFrame(live, base, total)[base + i := b];
    forall f: nat ensures f in l <==> f in r {
      assert HasFrame(live[i := b], base, f) <==> HasFrame(live, base, f) || f == base + i;
    }
  }

  lemma ByFrameRemoving(live: map<nat, Block>, base: nat, total: nat, i: nat)
    ensures ByFrame(live - {i}, base, total) == ByFrame(live, base, total) - {base + i}
  {
    var l, r := ByFrame(live - {i}, base, total), ByFrame(live, base, total) - {base + i};
    forall f: nat ensures f in l <==> f in r {
      assert HasFrame(live - {i}, base, f) <==> HasFrame(live, base, f) && f != base + i;
    }
  }

  /** What a change of the list at node i means for the blocks a client sees. */
  lemma ViewAfterAdding(s: seq<BlockNode>, hs: set<nat>, t: seq<BlockNode>, ht: set<nat>, i: nat, base: nat, total: nat)
    requires forall j | j in hs :: j < |s| && s[j].pages >= 1
    requires forall j | j in ht :: j < |t| && t[j].pages >= 1
    requires SameLiveExcept(s, hs, t, ht, i) && i in ht && t[i].ref > 0 && i < total
    ensures ByFrame(Live(t, ht), base, total)
         == ByFrame(Live(s, hs), base, total)[base + i := Block(t[i].pages, t[i].ref)]
  {
    LiveAfterAdding(s, hs, t, ht, i);
    ByFrameAdding(Live(s, hs), base, total, i, Block(t[i].pages, t[i].ref));
  }

  lemma ViewAfterRemoving(s: seq<BlockNode>, hs: set<nat>, t: seq<BlockNode>, ht: set<nat>, i: nat, base: nat,
                          total: nat)
    requires forall j | j in hs :: j < |s| && s[j].pages >= 1
    requires forall j | j in ht :: j < |t| && t[j].pages >= 1
    requires SameLiveExcept(s, hs, t, ht, i) && !(i in ht && t[i].ref > 0)
    ensures ByFrame(Live(t, ht), base, total) == ByFrame(Live(s, hs), base, total) - {base + i}
  {
    LiveAfterRemoving(s, hs, t, ht, i);
    ByFrameRemoving(Live(s, hs), base, total, i);
  }

  /** n frames in a row, from frame a on, all inside the managed range and unowned. */
  ghost predicate FreeFrames(blocks: map<nat, Block>, base: nat, total: nat, a: nat, n: nat) {
    base <= a && a + n <= base + total && forall p | a <= p < a + n :: !Owned(blocks, p)
  }

  lemma OwnedByFrame(live: map<nat, Block>, base: nat, total: nat, p: nat)
    requires p >= base && forall i | i in live :: i < total
    ensures Owned(live, p - base) <==> Owned(ByFrame(live, base, total), p)
  {
    var blocks := ByFrame(live, base, total);
    if Owned(live, p - base) {
      var i :| i in live && i <= p - base < i + live[i].pages;
      assert HasFrame(live, base, base + i) && AtFrame(live, base, base + i) == live[i];
      assert base + i in blocks;
    }
    if Owned(blocks, p) {
      var f :| f in blocks && f <= p < f + blocks[f].pages;
      assert HasFrame(live, base, f) && f - base in live;
    }
  }

  lemma FreeFramesByIndex(live: map<nat, Block>, base: nat, total: nat, a: nat, n: nat)
    requires base <= a && forall i | i in live :: i < total
    ensures FreeFrames(ByFrame(live, base, total), base, total, a, n) <==> FreeRun(live, total, a - base, n)
  {
    var blocks := ByFrame(live, base, total);
    if FreeFrames(blocks, base, total, a, n) {
      forall p | a - base <= p < a - base + n ensures !Owned(live, p) {
        OwnedByFrame(live, base, total, base + p);
      }
    }
    if FreeRun(live, total, a - base, n) {
      forall p | a <= p < a + n ensures !Owned(blocks, p) {
        OwnedByFrame(live, base, total, p);
      }
    }
  }

  /** The whole list is a function of the live blocks a client can see: the same
      blocks with the same counts mean the same nodes in the same places. */
  lemma SameBlocksSameList(base: nat, start: nat, total: nat, s: seq<BlockNode>, hs: set<nat>, t: seq<BlockNode>,
                           ht: set<nat>)
    requires WellFormed(start, s, total, hs) && WellFormed(start, t, total, ht)
    requires ByFrame(Live(s, hs), base, total) == ByFrame(Live(t, ht), base, total)
    ensures hs == ht && forall i | i in hs :: s[i] == t[i]
  {
    var ls, lt := Live(s, hs), Live(t, ht);
    var blocks := ByFrame(ls, base, total);
    forall i | i in ls ensures i in lt && ls[i] == lt[i] {
      assert HasFrame(ls, base, base + i) && AtFrame(ls, base, base + i) == ls[i];
      assert base + i in blocks && HasFrame(lt, base, base + i) && AtFrame(lt, base, base + i) == lt[i];
    }
    forall i | i in lt ensures i in ls {
      assert HasFrame(lt, base, base + i);
      assert base + i in blocks && HasFrame(ls, base, base + i);
    }
    assert ls == lt;
    ListIsCanonical(start, total, s, hs, t, ht);
  }

  // ----------------------------------------------------------------- the object

  class Allocator {
    const first: nat               // first_free_addr
    const lastIdx: nat             // block_node_array_last_idx
    const total: nat               // all_free_pages
    const blist: nat := 0          // index of the first node
    const nodes: array<BlockNode>  // block_node_array
    ghost var heads: set<nat>      // the nodes on the list
    ghost var blocks: map<nat, Block>  // the live blocks by frame: the whole abstract state

    /** The node array holds a well-formed list. */
    ghost predicate Consistent()
      reads this, nodes
    {
      && first % PAGE_SIZE == 0 && first > 0
      && nodes.Length == lastIdx < TWO_31 && first + PAGE_SIZE * total < MAX_MEMORY
      && (forall i | 0 <= i < nodes.Length :: nodes[i].ref < TWO_32)
      && WellFormed(first, nodes[..], total, heads)
    }

    /** ... and `blocks` is what that list says. */
    ghost predicate Valid()
      reads this, nodes
    {
      Consistent() && blocks == ByFrame(Live(nodes[..], heads), Base(), total)
    }

    function Base(): nat { first / PAGE_SIZE }

    /** Live blocks are non-empty, referenced, inside managed memory and pairwise disjoint. */
    lemma LiveBlocksAreDisjoint(f: nat, g: nat)
      requires Valid() && f in blocks && g in blocks
      ensures Base() <= f && blocks[f].ref >= 1 && 1 <= blocks[f].pages <= Base() + total - f
      ensures f < TWO_31 && f * PAGE_SIZE < first + PAGE_SIZE * TWO_31
      ensures f < g ==> f + blocks[f].pages <= g
    {
      var live := Live(nodes[..], heads);
      assert HasFrame(live, Base(), f) && HasFrame(live, Base(), g);
      assert AtFrame(live, Base(), f) == live[f - Base()];
      assert Apart(nodes[..], f - Base(), g - Base());
    }

    /** No n free pages are adjacent. */
    ghost predicate NoRun(n: nat)
      reads this
    {
      forall a: nat :: !FreeFrames(blocks, Base(), total, a, n)
    }

    /** memory_init for a layout that leaves at least one page. */
    constructor (lastByte: nat, memSize: nat)
      requires memSize < MAX_MEMORY
      requires InitLayout(lastByte, memSize).Ok?
      requires LeavesAPage(lastByte, memSize)
      ensures Valid() && fresh(nodes) && blocks == map[]
      ensures first == InitLayout(lastByte, memSize).value.first
      ensures total == InitLayout(lastByte, memSize).value.pages
    {
      var layout := InitLayout(lastByte, memSize).value;
      InitCoversMemoryIff(lastByte, memSize);
      first, lastIdx, total := layout.first, layout.nodeCount, layout.pages;
      nodes := new BlockNode[layout.nodeCount](_ => BlockNode(0, 0, 0, NIL, NIL));
      heads := {0};
      blocks := map[];
      new;
      nodes[0] := BlockNode(first, total, 0, NIL, NIL);
    }

    /** alloc_block_node: the unreferenced node that describes an address. */
    method AllocBlockNode(paddr: nat) returns (r: Outcome<nat>)
      requires Consistent()
      ensures r == match Locate(first, lastIdx, paddr)
                   case Panicked(why) => Panicked(why)
                   case Ok(i) => if nodes[i].ref > 0 then Panicked(AlreadyAllocated) else Ok(i)
    {
      r := Locate(first, lastIdx, paddr);
      if r.Ok? && nodes[r.value].ref > 0 {
        r := Panicked(AlreadyAllocated);
      }
    }

    /** Find the node alloc_mem_pages settles on: the first free one that is large
        enough, NIL when there is none. */
    method FirstFit(n: nat) returns (current: int)
      requires Valid() && n >= 1
      ensures current == NIL || (current in heads && nodes[current].ref == 0 && nodes[current].pages >= n)
      ensures forall h | h in heads && (current == NIL || h < current) :: nodes[h].ref > 0 || nodes[h].pages < n
    {
      current := blist;
      while current != NIL && (nodes[current].ref > 0 || nodes[current].pages < n)
        invariant current != NIL ==> current in heads
        invariant forall h | h in heads && (current == NIL || h < current) :: nodes[h].ref > 0 || nodes[h].pages < n
        decreases if current == NIL then 0 else total - current
      {
        ghost var passed := current;
        assert LinkedAt(nodes[..], total, heads, passed);
        current := nodes[current].next;
        forall h | h in heads && (current == NIL || h < current) ensures nodes[h].ref > 0 || nodes[h].pages < n {
          assert Apart(nodes[..], passed, h);
        }
      }
    }

    /** alloc_mem_pages. It fails exactly when no n free frames are adjacent
        anywhere, and otherwise takes the lowest such run and nothing else. */
    method AllocMemPages(n: nat) returns (paddr: nat)
      requires Valid()
      modifies this, nodes
      ensures Valid()
      ensures paddr == 0 <==> n == 0 || forall a: nat :: !FreeFrames(old(blocks), Base(), total, a, n)
      ensures paddr == 0 ==> nodes[..] == old(nodes[..]) && heads == old(heads) && blocks == old(blocks)
      ensures paddr != 0 ==>
        var f := paddr / PAGE_SIZE;
        && paddr == f * PAGE_SIZE < first + PAGE_SIZE * TWO_31
        && FreeFrames(old(blocks), Base(), total, f, n)
        && (forall a: nat | FreeFrames(old(blocks), Base(), total, a, n) :: f <= a)
        && f !in old(blocks) && blocks == old(blocks)[f := Block(n, 1)]
    {
      hide Disjoint, Linked, OffListUnreferenced, ByFrame, FreeFrames;
      if n == 0 {
        return 0;
      }
      var current := FirstFit(n);
      FitIsLowestRun(n, current);
      if current == NIL {
        return 0;
      }
      if nodes[current].pages == n {
        SetRef(current, 1);
      } else {
        TakeFirst(current, n);
      }
      assert (Base() + current) * PAGE_SIZE == first + PAGE_SIZE * current;
      paddr := nodes[current].start;
    }

    /** Give a listed node a new positive count. */
    method SetRef(i: nat, ref: nat)
      requires Valid() && i in heads && 0 < ref < TWO_32
      modifies this`blocks, nodes
      ensures Valid() && nodes[i] == old(nodes[i]).(ref := ref)
      ensures blocks == old(blocks)[Base() + i := Block(old(nodes[i].pages), ref)]
    {
      hide Disjoint, Linked, OffListUnreferenced, ByFrame;
      ghost var s := nodes[..];
      nodes[i] := nodes[i].(ref := ref);
      RecountKeeps(first, s, nodes[..], total, heads, i, ref);
      ViewAfterAdding(s, heads, nodes[..], heads, i, Base(), total);
      blocks := ByFrame(Live(nodes[..], heads), Base(), total);
    }

    /** Hand out the first n pages of a free node that is larger. */
    method TakeFirst(current: nat, n: nat)
      requires Valid() && current in heads && nodes[current].ref == 0 && 1 <= n < nodes[current].pages
      modifies this, nodes
      ensures Valid() && current in heads && nodes[current].start == old(nodes[current].start)
      ensures blocks == old(blocks)[Base() + current := Block(n, 1)]
    {
      hide Disjoint, Linked, OffListUnreferenced, ByFrame;
      ghost var s, hs := nodes[..], heads;
      SplitBlock(current, n);
      SplitKeeps(first, s, nodes[..], total, hs, current, n);
      ViewAfterAdding(s, hs, nodes[..], heads, current, Base(), total);
      blocks := ByFrame(Live(nodes[..], heads), Base(), total);
    }

    /** The surgery of a split: a new node behind the current one. */
    method SplitBlock(current: nat, n: nat)
      requires Consistent() && current in heads && 1 <= n < nodes[current].pages
      modifies this`heads, nodes
      ensures IsSplit(first, old(nodes[..]), nodes[..], current, n) && heads == old(heads) + {current + n}
      ensures forall i | 0 <= i < nodes.Length :: nodes[i].ref < TWO_32
    {
      assert LinkedAt(nodes[..], total, heads, current);
      SplitTarget(nodes[..], current, n);
      var newPaddr := nodes[current].start + n * PAGE_SIZE;
      var b := AllocBlockNode(newPaddr);
      var m := b.value;
      nodes[m] := BlockNode(newPaddr, nodes[current].pages - n, 0, nodes[current].next, current);
      if nodes[current].next != NIL {
        nodes[nodes[current].next] := nodes[nodes[current].next].(pre := m);
      }
      nodes[current] := nodes[current].(pages := n, ref := 1, next := m);
      heads := heads + {m};
    }

    /** The node first fit settles on starts the lowest run of n free frames, and it
        settles on none exactly when there is no such run. */
    lemma FitIsLowestRun(n: nat, current: int)
      requires Valid() && n >= 1
      requires current == NIL || (current in heads && nodes[current].ref == 0 && nodes[current].pages >= n)
      requires forall h | h in heads && (current == NIL || h < current) :: nodes[h].ref > 0 || nodes[h].pages < n
      ensures current == NIL ==> forall a: nat :: !FreeFrames(blocks, Base(), total, a, n)
      ensures current != NIL ==>
        && FreeFrames(blocks, Base(), total, Base() + current, n)
        && Base() + current !in blocks
        && (forall a: nat | FreeFrames(blocks, Base(), total, a, n) :: Base() + current <= a)
    {
      var live := Live(nodes[..], heads);
      if current != NIL {
        assert !HasFrame(live, Base(), Base() + current);
        BlockIsRun(first, nodes[..], total, heads, current, n);
        FreeFramesByIndex(live, Base(), total, Base() + current, n);
      }
      forall a: nat ensures FreeFrames(blocks, Base(), total, a, n) ==> current != NIL && Base() + current <= a {
        if FreeFrames(blocks, Base(), total, a, n) {
          FreeFramesByIndex(live, Base(), total, a, n);
          var h := RunInOneBlock(first, nodes[..], total, heads, a - Base(), n);
        }
      }
    }

    /** The node that describes the rest of a split block is in the array and unused. */
    lemma SplitTarget(s: seq<BlockNode>, i: nat, n: nat)
      requires Consistent() && s == nodes[..] && i in heads && 1 <= n < s[i].pages
      ensures Locate(first, lastIdx, s[i].start + n * PAGE_SIZE) == Ok(i + n)
      ensures s[i].start + n * PAGE_SIZE == first + PAGE_SIZE * (i + n)
      ensures i + n !in heads && s[i + n].ref == 0
    {
      assert i + n in heads ==> Apart(s, i, i + n);
    }

    /** reallocable: note the strict comparison, which leaves out the first block. */
    predicate Reallocable(paddr: nat)
    {
      paddr > first && ToInt32((paddr - first) / PAGE_SIZE) < lastIdx
    }

    /** A live block other than the one at the very start of managed memory is
        reallocable; that one is not. */
    lemma ReallocableLive(paddr: nat)
      requires Valid() && paddr % PAGE_SIZE == 0 && paddr / PAGE_SIZE in blocks
      ensures Reallocable(paddr) <==> paddr / PAGE_SIZE != Base()
    {
      assert HasFrame(Live(nodes[..], heads), Base(), paddr / PAGE_SIZE);
      assert (paddr - first) / PAGE_SIZE == paddr / PAGE_SIZE - Base();
    }

    /** The address of a live block passes the checks and leads to its node. */
    lemma LocateLive(paddr: nat)
      requires Valid() && paddr < first + PAGE_SIZE * TWO_31
      ensures paddr % PAGE_SIZE == 0 && paddr / PAGE_SIZE in blocks
              <==> Locate(first, lastIdx, paddr).Ok? && nodes[Locate(first, lastIdx, paddr).value].ref > 0
      ensures Locate(first, lastIdx, paddr).Ok? && nodes[Locate(first, lastIdx, paddr).value].ref > 0 ==>
        var i := Locate(first, lastIdx, paddr).value;
        i in heads && paddr / PAGE_SIZE == Base() + i
          && blocks[paddr / PAGE_SIZE] == Block(nodes[i].pages, nodes[i].ref)
    {
      var f, live := paddr / PAGE_SIZE, Live(nodes[..], heads);
      if paddr % PAGE_SIZE == 0 && f in blocks {
        assert HasFrame(live, Base(), f);
      }
      var l := Locate(first, lastIdx, paddr);
      if l.Ok? && nodes[l.value].ref > 0 {
        assert paddr == first + PAGE_SIZE * l.value && f == Base() + l.value;
        assert l.value in heads && l.value in live;
        assert HasFrame(live, Base(), f) && AtFrame(live, Base(), f) == live[l.value];
      }
    }

    /** realloc_mem_block: one more reference. The count is a 32-bit number; when it
        wraps, the block is marked free while it is still in use. */
    method ReallocMemBlock(paddr: nat) returns (r: Outcome<nat>)
      requires Valid() && paddr < first + PAGE_SIZE * TWO_31
      modifies this, nodes
      ensures r.Ok? <==> paddr % PAGE_SIZE == 0 && paddr / PAGE_SIZE in old(blocks)
      ensures r.Panicked? ==> Valid() && nodes[..] == old(nodes[..]) && heads == old(heads)
      ensures r.Ok? ==> r.value == paddr
      ensures r.Ok? && old(blocks)[paddr / PAGE_SIZE].ref + 1 < TWO_32 ==>
        Valid() && blocks == Retained(old(blocks), paddr / PAGE_SIZE)
      ensures r.Ok? && old(blocks)[paddr / PAGE_SIZE].ref + 1 == TWO_32 ==>
        heads == old(heads) && IsRecount(old(nodes[..]), nodes[..], paddr / PAGE_SIZE - Base(), 0)
    {
      hide WellFormed, ByFrame;
      LocateLive(paddr);
      var b := Locate(first, lastIdx, paddr);
      if b.Panicked? {
        return Panicked(b.why);
      }
      var block := b.value;
      if nodes[block].ref == 0 {
        return Panicked(FreeBlock);
      }
      var ref := (nodes[block].ref + 1) % TWO_32;
      if ref != 0 {
        SetRef(block, ref);
      } else {
        nodes[block] := nodes[block].(ref := 0);
      }
      r := Ok(paddr);
    }

    /** Take the right neighbour j of node i off the list, its pages going to i. */
    method Absorb(i: nat, j: nat)
      requires Consistent() && i in heads && nodes[i].next == j
      modifies this`heads, nodes
      ensures IsMerge(old(nodes[..]), nodes[..], i) && heads == old(heads) - {j}
      ensures forall i | 0 <= i < nodes.Length :: nodes[i].ref < TWO_32
    {
      assert LinkedAt(nodes[..], total, heads, i) && LinkedAt(nodes[..], total, heads, j);
      nodes[i] := nodes[i].(pages := nodes[i].pages + nodes[j].pages, next := nodes[j].next);
      if nodes[j].next != NIL {
        nodes[nodes[j].next] := nodes[nodes[j].next].(pre := i);
      }
      nodes[j] := nodes[j].(ref := 0);
      heads := heads - {j};
    }

    /** The first half of coalescing: a free right neighbour joins the block, which
        still holds its last reference. */
    method JoinNext(block: nat) returns (r: Outcome<()>)
      requires Consistent() && block in heads && nodes[block].ref > 0
      modifies this`heads, nodes
      ensures Consistent() && r.Ok? && block in heads && nodes[block].ref == old(nodes[block].ref)
      ensures !FreeAt(nodes[..], nodes[block].next)
      ensures SameLiveExcept(old(nodes[..]), old(heads), nodes[..], heads, block)
    {
      ghost var s, hs := nodes[..], heads;
      LinksAreInverse(first, s, total, hs, block);
      assert LinkedAt(s, total, hs, block);
      if nodes[block].next != NIL && nodes[nodes[block].next].ref == 0 {
        var next := nodes[block].next;
        if next == blist || nodes[next].pre != block {
          return Panicked(ListCorrupted);
        }
        assert LinkedAt(s, total, hs, next);
        Absorb(block, next);
        MergeKeeps(first, s, nodes[..], total, hs, block, block);
      }
      r := Ok(());
    }

    /** The second half: the block joins a free left neighbour, or becomes free itself. */
    method JoinPrevious(block: nat) returns (r: Outcome<()>)
      requires Consistent() && block in heads && nodes[block].ref > 0 && !FreeAt(nodes[..], nodes[block].next)
      modifies this`heads, nodes
      ensures Consistent() && r.Ok? && !(block in heads && nodes[block].ref > 0)
      ensures SameLiveExcept(old(nodes[..]), old(heads), nodes[..], heads, block)
    {
      ghost var s, hs := nodes[..], heads;
      LinksAreInverse(first, s, total, hs, block);
      assert LinkedAt(s, total, hs, block);
      if nodes[block].pre != NIL && nodes[nodes[block].pre].ref == 0 {
        var previous := nodes[block].pre;
        if nodes[previous].next != block {
          return Panicked(ListCorrupted);
        }
        Absorb(previous, block);
        MergeKeeps(first, s, nodes[..], total, hs, previous, block);
      } else {
        nodes[block] := nodes[block].(ref := 0);
        RecountKeeps(first, s, nodes[..], total, hs, block, 0);
      }
      r := Ok(());
    }

    /** The tail of free_mem_pages, for a block with one reference left. */
    method Coalesce(block: nat) returns (r: Outcome<()>)
      requires Valid() && block in heads && nodes[block].ref > 0
      modifies this, nodes
      ensures Valid() && r.Ok? && blocks == old(blocks) - {Base() + block}
    {
      hide Disjoint, Linked, OffListUnreferenced, ByFrame;
      ghost var s, hs := nodes[..], heads;
      r := JoinNext(block);
      if r.Ok? {
        r := JoinPrevious(block);
      }
      ViewAfterRemoving(s, hs, nodes[..], heads, block, Base(), total);
      blocks := ByFrame(Live(nodes[..], heads), Base(), total);
    }

    /** free_mem_pages: one reference less; the last one returns the pages to the
        free blocks on both sides. The list-corrupted panics never happen. */
    method FreeMemPages(paddr: nat) returns (r: Outcome<()>)
      requires Valid() && paddr < first + PAGE_SIZE * TWO_31
      modifies this, nodes
      ensures Valid()
      ensures r.Ok? <==> paddr % PAGE_SIZE == 0 && paddr / PAGE_SIZE in old(blocks)
      ensures r.Ok? ==> blocks == Released(old(blocks), paddr / PAGE_SIZE)
      ensures r.Panicked? ==> r.why != ListCorrupted && nodes[..] == old(nodes[..]) && heads == old(heads)
    {
      hide WellFormed, ByFrame;
      LocateLive(paddr);
      var b := Locate(first, lastIdx, paddr);
      if b.Panicked? {
        return Panicked(b.why);
      }
      var block := b.value;
      if nodes[block].ref == 0 {
        return Panicked(FreeBlock);
      }
      if nodes[block].ref > 1 {
        SetRef(block, nodes[block].ref - 1);
        return Ok(());
      }
      r := Coalesce(block);
    }

    /** Whatever happened in between: the same live blocks, the same list, links included. */
    twostate lemma BackToTheSameList()
      requires old(Valid()) && Valid() && blocks == old(blocks)
      ensures heads == old(heads) && forall i | i in heads :: nodes[i] == old(nodes[i])
    {
      hide Disjoint, Linked, OffListUnreferenced, ByFrame;
      SameBlocksSameList(Base(), first, total, old(nodes[..]), old(heads), nodes[..], heads);
    }

    /** Allocating and releasing again leaves the very same list. */
    method AllocThenFree(n: nat) returns (paddr: nat)
      requires Valid()
      modifies this, nodes
      ensures Valid() && heads == old(heads)
      ensures forall i | i in heads :: nodes[i] == old(nodes[i])
    {
      hide Valid, NoRun;
      paddr := AllocMemPages(n);
      if paddr != 0 {
        var r := FreeMemPages(paddr);
        assert blocks == old(blocks);
      }
      BackToTheSameList();
    }
  }

  /** The live blocks after one more reference to block f. */
  ghost function Retained(blocks: map<nat, Block>, f: nat): map<nat, Block>
    requires f in blocks
  {
    blocks[f := blocks[f].(ref := blocks[f].ref + 1)]
  }

  /** The live blocks after one reference less to block f. */
  ghost function Released(blocks: map<nat, Block>, f: nat): map<nat, Block>
    requires f in blocks
  {
    if blocks[f].ref > 1 then blocks[f := blocks[f].(ref := blocks[f].ref - 1)] else blocks - {f}
  }
}
