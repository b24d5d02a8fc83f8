/** The block list of the page allocator (vms/pm/memory.c) as a value: what a
    well-formed node array looks like, what it says about pages, and why the list
    is determined by the live allocations alone.

    Nodes live in an array indexed by page number relative to the first free
    page; `heads` is the set of indices whose node is on the list. */
module BlockList {

  const PAGE_SIZE: nat := 0x1000
  const NIL: int := -1

  /** struct block_node; the links are array indices, NIL for NULL. */
  datatype BlockNode = BlockNode(start: nat, pages: int, ref: nat, next: int, pre: int)

  /** What a client can see of an allocated block. */
  datatype Block = Block(pages: nat, ref: nat)

  ghost predicate InRange(base: nat, nodes: seq<BlockNode>, total: nat, heads: set<nat>) {
    && 0 in heads && total <= |nodes|
    && (forall i {:trigger i in heads} | i in heads ::
          && i < total && 1 <= nodes[i].pages && i + nodes[i].pages <= total
          && nodes[i].start == base + 0x1000 * i)
  }

  ghost predicate Apart(nodes: seq<BlockNode>, i: nat, j: nat)
    requires i < |nodes| && j < |nodes|
  {
    (i < j ==> i + nodes[i].pages <= j) && (j < i ==> j + nodes[j].pages <= i)
  }

  ghost predicate Disjoint(nodes: seq<BlockNode>, heads: set<nat>)
    requires forall i | i in heads :: i < |nodes|
  {
    forall i, j {:trigger Apart(nodes, i, j)} | i in heads && j in heads :: Apart(nodes, i, j)
  }

  ghost predicate OffListUnreferenced(nodes: seq<BlockNode>, heads: set<nat>) {
    forall i | 0 <= i < |nodes| && i !in heads :: nodes[i].ref == 0
  }

  /** next leads to the block that starts where block i ends, pre to the block that
      ends where it starts, and the next block is not free when this one is. */
  ghost predicate LinkedAt(nodes: seq<BlockNode>, total: nat, heads: set<nat>, i: nat)
    requires i < |nodes| && forall j | j in heads :: j < |nodes|
  {
    var next, pre := nodes[i].next, nodes[i].pre;
    && (if next == NIL then i + nodes[i].pages == total
        else next == i + nodes[i].pages && next in heads && (nodes[i].ref > 0 || nodes[next].ref > 0))
    && (if pre == NIL then i == 0
        else pre in heads && pre + nodes[pre].pages == i)
  }

  ghost predicate Linked(nodes: seq<BlockNode>, total: nat, heads: set<nat>)
    requires forall i | i in heads :: i < |nodes|
  {
    forall i {:trigger LinkedAt(nodes, total, heads, i)} | i in heads :: LinkedAt(nodes, total, heads, i)
  }

  /** The invariant of every reachable allocator state. */
  ghost predicate WellFormed(base: nat, nodes: seq<BlockNode>, total: nat, heads: set<nat>) {
    && InRange(base, nodes, total, heads)
    && Disjoint(nodes, heads)
    && OffListUnreferenced(nodes, heads)
    && Linked(nodes, total, heads)
  }

  /** The live allocations, by node index. */
  ghost function Live(nodes: seq<BlockNode>, heads: set<nat>): map<nat, Block>
    requires forall i | i in heads :: i < |nodes| && nodes[i].pages >= 1
  {
    map i | i in heads && nodes[i].ref > 0 :: Block(nodes[i].pages, nodes[i].ref)
  }

  /** Page p belongs to some live block. */
  ghost predicate Owned(live: map<nat, Block>, p: nat) {
    exists i | i in live :: i <= p < i + live[i].pages
  }

  /** n free pages in a row start at page a. */
  ghost predicate FreeRun(live: map<nat, Block>, total: nat, a: nat, n: nat) {
    a + n <= total && forall p | a <= p < a + n :: !Owned(live, p)
  }

  // ---------------------------------------------------------------- the list

  /** The indices met by following `next` from node i. */
  ghost function Chain(base: nat, nodes: seq<BlockNode>, total: nat, heads: set<nat>, i: nat): seq<nat>
    requires WellFormed(base, nodes, total, heads) && i in heads
    decreases total - i
  {
    assert LinkedAt(nodes, total, heads, i);
    [i] + if nodes[i].next == NIL then [] else Chain(base, nodes, total, heads, nodes[i].next)
  }

  /** next and pre undo each other along the list. */
  lemma LinksAreInverse(base: nat, nodes: seq<BlockNode>, total: nat, heads: set<nat>, i: nat)
    requires WellFormed(base, nodes, total, heads) && i in heads
    ensures nodes[i].next != NIL ==> nodes[i].next in heads && nodes[nodes[i].next].pre == i
    ensures nodes[i].pre != NIL ==> nodes[i].pre in heads && nodes[nodes[i].pre].next == i
  {
    assert LinkedAt(nodes, total, heads, i);
    if nodes[i].next != NIL {
      assert LinkedAt(nodes, total, heads, nodes[i].next);
      assert Apart(nodes, i, nodes[nodes[i].next].pre);
    }
    if nodes[i].pre != NIL {
      assert LinkedAt(nodes, total, heads, nodes[i].pre);
    }
  }

  /** Every page lies in a listed block. */
  lemma Cover(base: nat, nodes: seq<BlockNode>, total: nat, heads: set<nat>, p: nat) returns (h: nat)
    requires WellFormed(base, nodes, total, heads) && p < total
    ensures h in heads && h <= p < h + nodes[h].pages
  {
    h := 0;
    while h + nodes[h].pages <= p
      invariant h in heads && h <= p
      decreases p - h
    {
      assert LinkedAt(nodes, total, heads, h);
      h := nodes[h].next;
    }
  }

  /** Following `next` from node i meets on-list nodes only, each at the index its
      address gives, each starting where its predecessor ends, and the last one
      ending at the end of memory: a tiling in address order, no gap, no overlap. */
  lemma {:induction false} ChainTiles(base: nat, nodes: seq<BlockNode>, total: nat, heads: set<nat>, i: nat, k: nat)
    requires WellFormed(base, nodes, total, heads) && i in heads
    requires k < |Chain(base, nodes, total, heads, i)|
    ensures var c := Chain(base, nodes, total, heads, i);
      && c[0] == i && c[k] in heads
      && nodes[c[k]].start == base + 0x1000 * c[k]
      && c[k] + nodes[c[k]].pages == if k + 1 < |c| then c[k + 1] else total
    decreases k
  {
    assert LinkedAt(nodes, total, heads, i);
    if k > 0 {
      ChainTiles(base, nodes, total, heads, nodes[i].next, k - 1);
    }
  }

  /** The chain misses no on-list node. */
  lemma {:induction false} ChainIsComplete(base: nat, nodes: seq<BlockNode>, total: nat, heads: set<nat>, i: nat,
                                           j: nat)
    requires WellFormed(base, nodes, total, heads) && i in heads && j in heads && i <= j
    ensures j in Chain(base, nodes, total, heads, i)
    decreases total - i
  {
    if i < j {
      assert LinkedAt(nodes, total, heads, i) && Apart(nodes, i, j);
      ChainIsComplete(base, nodes, total, heads, nodes[i].next, j);
    }
  }

  // --------------------------------------------------- free pages and free runs

  /** A page is owned exactly when its covering block is referenced. */
  lemma OwnedIffReferenced(base: nat, nodes: seq<BlockNode>, total: nat, heads: set<nat>, h: nat, p: nat)
    requires WellFormed(base, nodes, total, heads) && h in heads && h <= p < h + nodes[h].pages
    ensures Owned(Live(nodes, heads), p) <==> nodes[h].ref > 0
  {
    var live := Live(nodes, heads);
    if nodes[h].ref > 0 {
      assert h in live && h <= p < h + live[h].pages;
    } else {
      assert forall i | i in live :: Apart(nodes, h, i);
    }
  }

  /** Because neighbours are never both free, a run of free pages never crosses
      from one block into the next. */
  lemma {:induction false} RunInOneBlock(base: nat, nodes: seq<BlockNode>, total: nat, heads: set<nat>, a: nat, n: nat)
    returns (h: nat)
    requires WellFormed(base, nodes, total, heads) && n >= 1
    requires FreeRun(Live(nodes, heads), total, a, n)
    ensures h in heads && nodes[h].ref == 0 && h <= a && a + n <= h + nodes[h].pages
    decreases n
  {
    if n == 1 {
      h := Cover(base, nodes, total, heads, a);
      OwnedIffReferenced(base, nodes, total, heads, h, a);
    } else {
      h := RunInOneBlock(base, nodes, total, heads, a, n - 1);
      if h + nodes[h].pages == a + n - 1 {
        var g := nodes[h].next;
        assert LinkedAt(nodes, total, heads, h) && g == a + n - 1;
        OwnedIffReferenced(base, nodes, total, heads, g, g);
      }
    }
  }

  /** Conversely every page of a free block is free. */
  lemma BlockIsRun(base: nat, nodes: seq<BlockNode>, total: nat, heads: set<nat>, h: nat, n: nat)
    requires WellFormed(base, nodes, total, heads) && h in heads && nodes[h].ref == 0 && n <= nodes[h].pages
    ensures FreeRun(Live(nodes, heads), total, h, n)
  {
    forall p | h <= p < h + n ensures !Owned(Live(nodes, heads), p) {
      OwnedIffReferenced(base, nodes, total, heads, h, p);
    }
  }

  // ------------------------------------------------------------- canonical form

  /** A free block reaches as far as the live blocks let it. */
  lemma FreeSpan(base: nat, total: nat, s: seq<BlockNode>, hs: set<nat>, t: seq<BlockNode>, ht: set<nat>, i: nat)
    requires WellFormed(base, s, total, hs) && WellFormed(base, t, total, ht)
    requires Live(s, hs) == Live(t, ht) && i in hs && i in ht && s[i].ref == 0
    ensures t[i].pages <= s[i].pages
  {
    assert LinkedAt(s, total, hs, i);
    if s[i].next != NIL {
      assert s[i].next in Live(s, hs);
      assert s[i].next in Live(t, ht);
      assert Apart(t, i, s[i].next);
    }
  }

  /** One half of canonicity: with the same live blocks, every listed node of one
      state is listed in the other and has the same length. */
  lemma {:induction false} SameHeads(base: nat, total: nat, s: seq<BlockNode>, hs: set<nat>, t: seq<BlockNode>,
                                     ht: set<nat>, i: nat)
    requires WellFormed(base, s, total, hs) && WellFormed(base, t, total, ht)
    requires Live(s, hs) == Live(t, ht) && i in hs
    ensures i in ht && s[i].pages == t[i].pages && s[i].ref == t[i].ref
    decreases i
  {
    assert LinkedAt(s, total, hs, i);
    if i != 0 {
      SameHeads(base, total, s, hs, t, ht, s[i].pre);
      assert LinkedAt(t, total, ht, s[i].pre);
    }
    var ls, lt := Live(s, hs), Live(t, ht);
    if s[i].ref > 0 {
      assert i in ls && i in lt;
    } else {
      assert i !in ls && i !in lt;
      FreeSpan(base, total, s, hs, t, ht, i);
      FreeSpan(base, total, t, ht, s, hs, i);
    }
  }

  /** The block list is a function of the live allocations alone: two histories
      that leave the same live blocks with the same counts leave the same nodes,
      field for field, in the same places. */
  lemma ListIsCanonical(base: nat, total: nat, s: seq<BlockNode>, hs: set<nat>, t: seq<BlockNode>, ht: set<nat>)
    requires WellFormed(base, s, total, hs) && WellFormed(base, t, total, ht)
    requires Live(s, hs) == Live(t, ht)
    ensures hs == ht
    ensures forall i | i in hs :: s[i] == t[i]
  {
    forall i | i in hs ensures i in ht && s[i].pages == t[i].pages && s[i].ref == t[i].ref {
      SameHeads(base, total, s, hs, t, ht, i);
    }
    forall i | i in ht ensures i in hs {
      SameHeads(base, total, t, ht, s, hs, i);
    }
    forall i | i in hs ensures s[i] == t[i] {
      assert LinkedAt(s, total, hs, i) && LinkedAt(t, total, ht, i);
      if s[i].pre != NIL { assert Apart(s, s[i].pre, t[i].pre); }
    }
  }

  // ------------------------------------------------------- steps on node arrays

  /** There is a node at x and it is free; false for NIL. */
  predicate FreeAt(s: seq<BlockNode>, x: int) { 0 <= x < |s| && s[x].ref == 0 }

  /** The live blocks of two arrays agree away from node i. */
  ghost predicate SameLiveExcept(s: seq<BlockNode>, hs: set<nat>, t: seq<BlockNode>, ht: set<nat>, i: nat)
    requires forall j | j in hs :: j < |s|
    requires forall j | j in ht :: j < |t|
  {
    && (forall j | j in hs && j != i :: s[j].ref > 0 ==> j in ht && t[j].ref == s[j].ref && t[j].pages == s[j].pages)
    && (forall j | j in ht && j != i :: t[j].ref > 0 ==> j in hs && s[j].ref > 0)
  }

  lemma LiveAfterAdding(s: seq<BlockNode>, hs: set<nat>, t: seq<BlockNode>, ht: set<nat>, i: nat)
    requires forall j | j in hs :: j < |s| && s[j].pages >= 1
    requires forall j | j in ht :: j < |t| && t[j].pages >= 1
    requires SameLiveExcept(s, hs, t, ht, i) && i in ht && t[i].ref > 0
    ensures Live(t, ht) == Live(s, hs)[i := Block(t[i].pages, t[i].ref)]
  {
    var ls, lt := Live(s, hs), Live(t, ht);
    assert lt.Keys == ls.Keys + {i};
  }

  lemma LiveAfterRemoving(s: seq<BlockNode>, hs: set<nat>, t: seq<BlockNode>, ht: set<nat>, i: nat)
    requires forall j | j in hs :: j < |s| && s[j].pages >= 1
    requires forall j | j in ht :: j < |t| && t[j].pages >= 1
    requires SameLiveExcept(s, hs, t, ht, i) && !(i in ht && t[i].ref > 0)
    ensures Live(t, ht) == Live(s, hs) - {i}
  {
    var ls, lt := Live(s, hs), Live(t, ht);
    assert lt.Keys == ls.Keys - {i};
  }

  /** t is s after the first n pages of node i were handed out and the rest became node i + n. */
  ghost predicate IsSplit(base: nat, s: seq<BlockNode>, t: seq<BlockNode>, i: nat, n: nat) {
    var m := i + n;
    && m < |s| == |t| && s[i].next < |s|
    && t[i] == s[i].(pages := n, ref := 1, next := m)
    && t[m] == BlockNode(base + 0x1000 * m, s[i].pages - n, 0, s[i].next, i)
    && (s[i].next >= 0 ==> t[s[i].next] == s[s[i].next].(pre := m))
    && (forall j | 0 <= j < |s| && j != i && j != m && j != s[i].next :: t[j] == s[j])
  }

  lemma SplitTiles(base: nat, s: seq<BlockNode>, t: seq<BlockNode>, total: nat, heads: set<nat>, i: nat, n: nat)
    requires WellFormed(base, s, total, heads)
    requires i in heads && 1 <= n < s[i].pages && IsSplit(base, s, t, i, n)
    ensures i + n !in heads
    ensures InRange(base, t, total, heads + {i + n}) && Disjoint(t, heads + {i + n})
  {
    assert i + n in heads ==> Apart(s, i, i + n);
    assert LinkedAt(s, total, heads, i);
    forall x, y | x in heads + {i + n} && y in heads + {i + n} ensures Apart(t, x, y) {
      assert x in heads ==> Apart(s, i, x) && (y in heads ==> Apart(s, x, y));
      assert y in heads ==> Apart(s, i, y);
    }
  }

  lemma SplitLive(base: nat, s: seq<BlockNode>, t: seq<BlockNode>, total: nat, heads: set<nat>, i: nat, n: nat)
    requires WellFormed(base, s, total, heads) && InRange(base, t, total, heads + {i + n}) && i + n !in heads
    requires i in heads && 1 <= n < s[i].pages && IsSplit(base, s, t, i, n)
    ensures OffListUnreferenced(t, heads + {i + n}) && SameLiveExcept(s, heads, t, heads + {i + n}, i)
  {
    assert LinkedAt(s, total, heads, i);
    forall x | 0 <= x < |t| && x !in heads + {i + n} ensures t[x].ref == 0 {
      assert x !in heads;
    }
  }

  lemma SplitLinkedAt(base: nat, s: seq<BlockNode>, t: seq<BlockNode>, total: nat, heads: set<nat>, i: nat, n: nat,
                      j: nat)
    requires WellFormed(base, s, total, heads)
    requires i in heads && s[i].ref == 0 && 1 <= n < s[i].pages && IsSplit(base, s, t, i, n)
    requires i + n !in heads && j in heads + {i + n}
    ensures LinkedAt(t, total, heads + {i + n}, j)
  {
    assert LinkedAt(s, total, heads, i);
    if j in heads { assert LinkedAt(s, total, heads, j); }
  }

  /** Splitting keeps the invariant and adds one live block of n pages. */
  lemma SplitKeeps(base: nat, s: seq<BlockNode>, t: seq<BlockNode>, total: nat, heads: set<nat>, i: nat, n: nat)
    requires WellFormed(base, s, total, heads)
    requires i in heads && s[i].ref == 0 && 1 <= n < s[i].pages && IsSplit(base, s, t, i, n)
    ensures WellFormed(base, t, total, heads + {i + n})
    ensures SameLiveExcept(s, heads, t, heads + {i + n}, i)
  {
    SplitTiles(base, s, t, total, heads, i, n);
    SplitLive(base, s, t, total, heads, i, n);
    var hs := heads + {i + n};
    forall j | j in hs ensures LinkedAt(t, total, hs, j) {
      SplitLinkedAt(base, s, t, total, heads, i, n, j);
    }
  }

  /** t is s with a new reference count for node i. */
  ghost predicate IsRecount(s: seq<BlockNode>, t: seq<BlockNode>, i: nat, ref: nat) {
    && i < |s| == |t| && t[i] == s[i].(ref := ref)
    && (forall x | 0 <= x < |s| && x != i :: t[x] == s[x])
  }

  /** A block may get any positive count, and the count zero between referenced neighbours. */
  lemma RecountKeeps(base: nat, s: seq<BlockNode>, t: seq<BlockNode>, total: nat, heads: set<nat>, i: nat, ref: nat)
    requires WellFormed(base, s, total, heads) && i in heads && IsRecount(s, t, i, ref)
    requires ref > 0 || (!FreeAt(s, s[i].next) && !FreeAt(s, s[i].pre))
    ensures WellFormed(base, t, total, heads) && SameLiveExcept(s, heads, t, heads, i)
  {
    forall x, y | x in heads && y in heads ensures Apart(t, x, y) {
      assert Apart(s, x, y);
    }
    forall j | j in heads ensures LinkedAt(t, total, heads, j) {
      RecountLinkedAt(base, s, t, total, heads, i, ref, j);
    }
  }

  lemma RecountLinkedAt(base: nat, s: seq<BlockNode>, t: seq<BlockNode>, total: nat, heads: set<nat>, i: nat, ref: nat,
                        j: nat)
    requires WellFormed(base, s, total, heads) && i in heads && IsRecount(s, t, i, ref)
    requires ref > 0 || (!FreeAt(s, s[i].next) && !FreeAt(s, s[i].pre))
    requires j in heads
    ensures LinkedAt(t, total, heads, j)
  {
    assert LinkedAt(s, total, heads, i) && LinkedAt(s, total, heads, j);
    if s[j].next == i { LinksAreInverse(base, s, total, heads, j); }
  }

  /** t is s after node i absorbed its right neighbour, which ends up unreferenced. */
  ghost predicate IsMerge(s: seq<BlockNode>, t: seq<BlockNode>, i: nat) {
    && i < |s| == |t| && 0 <= s[i].next < |s|
    && var j := s[i].next; var k := s[j].next;
    && k < |s|
    && t[i] == s[i].(pages := s[i].pages + s[j].pages, next := k)
    && t[j] == s[j].(ref := 0)
    && (k >= 0 ==> t[k] == s[k].(pre := i))
    && (forall x | 0 <= x < |s| && x != i && x != j && x != k :: t[x] == s[x])
  }

  lemma MergeTiles(base: nat, s: seq<BlockNode>, t: seq<BlockNode>, total: nat, heads: set<nat>, i: nat)
    requires WellFormed(base, s, total, heads) && i in heads && IsMerge(s, t, i)
    ensures i < s[i].next && s[i].next in heads
    ensures InRange(base, t, total, heads - {s[i].next}) && Disjoint(t, heads - {s[i].next})
    ensures OffListUnreferenced(t, heads - {s[i].next})
  {
    var j := s[i].next;
    assert LinkedAt(s, total, heads, i) && LinkedAt(s, total, heads, j);
    forall x, y | x in heads - {j} && y in heads - {j} ensures Apart(t, x, y) {
      assert Apart(s, x, y) && Apart(s, j, x) && Apart(s, j, y);
    }
  }

  lemma MergeLinkedAt(base: nat, s: seq<BlockNode>, t: seq<BlockNode>, total: nat, heads: set<nat>, i: nat, x: nat)
    requires WellFormed(base, s, total, heads) && i in heads && IsMerge(s, t, i)
    requires i < s[i].next && s[i].next in heads && x in heads && x != s[i].next
    requires s[i].ref > 0 || !FreeAt(s, s[s[i].next].next)
    ensures LinkedAt(t, total, heads - {s[i].next}, x)
  {
    var j := s[i].next;
    assert LinkedAt(s, total, heads, i) && LinkedAt(s, total, heads, j) && LinkedAt(s, total, heads, x);
    assert Apart(s, i, x);
  }

  /** Coalescing node i with its right neighbour keeps the invariant; of the two,
      block b is the one being released and the other one is free. */
  lemma MergeKeeps(base: nat, s: seq<BlockNode>, t: seq<BlockNode>, total: nat, heads: set<nat>, i: nat, b: nat)
    requires WellFormed(base, s, total, heads) && i in heads && IsMerge(s, t, i)
    requires (b == i && s[i].ref > 0 && s[s[i].next].ref == 0)
          || (b == s[i].next && s[i].ref == 0 && !FreeAt(s, s[b].next))
    ensures WellFormed(base, t, total, heads - {s[i].next})
    ensures SameLiveExcept(s, heads, t, heads - {s[i].next}, b)
  {
    MergeTiles(base, s, t, total, heads, i);
    var hs := heads - {s[i].next};
    forall x | x in hs ensures LinkedAt(t, total, hs, x) {
      MergeLinkedAt(base, s, t, total, heads, i, x);
    }
    assert LinkedAt(s, total, heads, s[i].next);
  }
}
