/** What first fit leaves: runs of free frames before and after pages were taken. */
module Room {
  import opened BlockList
  import opened PageAllocator
  import opened Pmap

  /** Somewhere n free frames follow one another. */
  ghost predicate HasRun(blocks: map<nat, Block>, first: nat, total: nat, n: nat) {
    exists a: nat :: FreeFrames(blocks, first, total, a, n)
  }

  /** Whatever run there was, all but n frames of one as long are still there. */
  ghost predicate Spends(before: map<nat, Block>, after: map<nat, Block>, first: nat, total: nat, n: nat) {
    forall m: nat {:trigger HasRun(before, first, total, m)} | n <= m && HasRun(before, first, total, m) ::
      HasRun(after, first, total, m - n)
  }

  /** The n pages at paddr are the lowest free ones there were, and now a block; nothing
      changed when paddr is 0. */
  ghost predicate Fitted(before: map<nat, Block>, after: map<nat, Block>, first: nat, total: nat, paddr: nat, n: nat) {
    if paddr == 0 then after == before
    else
      var f := paddr / 0x1000;
      && paddr == f * 0x1000 && f !in before && FreeFrames(before, first, total, f, n)
      && (forall a: nat | FreeFrames(before, first, total, a, n) :: f <= a)
      && after == before[f := Block(n, 1)]
  }

  /** Every block there is was there before. */
  ghost predicate Shrinks(before: map<nat, Block>, after: map<nat, Block>) {
    forall f {:trigger f in after} | f in after :: f in before && after[f].pages == before[f].pages
  }

  lemma RunIsNoRun(alloc: Allocator, n: nat)
    ensures alloc.NoRun(n) <==> !HasRun(alloc.blocks, alloc.Base(), alloc.total, n)
  {
  }

  lemma ShorterRun(blocks: map<nat, Block>, first: nat, total: nat, n: nat, m: nat)
    requires HasRun(blocks, first, total, n) && m <= n
    ensures HasRun(blocks, first, total, m)
  {
    var a: nat :| FreeFrames(blocks, first, total, a, n);
    assert FreeFrames(blocks, first, total, a, m);
  }

  // ---------------------------------------------------------------- spending

  lemma OwnedMore(blocks: map<nat, Block>, f: nat, n: nat, p: nat)
    requires f !in blocks
    ensures Owned(blocks[f := Block(n, 1)], p) <==> Owned(blocks, p) || f <= p < f + n
  {
    var more := blocks[f := Block(n, 1)];
    if Owned(blocks, p) {
      var g :| g in blocks && g <= p < g + blocks[g].pages;
      assert g in more && more[g] == blocks[g];
    }
    if f <= p < f + n {
      assert f in more && more[f] == Block(n, 1);
    }
    if Owned(more, p) {
      var g :| g in more && g <= p < g + more[g].pages;
      assert g == f || (g in blocks && more[g] == blocks[g]);
    }
  }

  /** First fit cuts a run at its lower end, if at all. */
  lemma FitSpends(before: map<nat, Block>, after: map<nat, Block>, first: nat, total: nat, paddr: nat, n: nat)
    requires Fitted(before, after, first, total, paddr, n)
    ensures Spends(before, after, first, total, n)
  {
    forall m: nat | n <= m && HasRun(before, first, total, m) ensures HasRun(after, first, total, m - n) {
      if paddr == 0 {
        ShorterRun(before, first, total, m, m - n);
      } else {
        FitCuts(before, after, first, total, paddr, n, m);
      }
    }
  }

  lemma FitCuts(before: map<nat, Block>, after: map<nat, Block>, first: nat, total: nat, paddr: nat, n: nat, m: nat)
    requires Fitted(before, after, first, total, paddr, n) && paddr != 0 && n <= m && HasRun(before, first, total, m)
    ensures HasRun(after, first, total, m - n)
  {
    var f := paddr / 0x1000;
    var a: nat :| FreeFrames(before, first, total, a, m);
    assert FreeFrames(before, first, total, a, n);
    var b := if f + n <= a then a else f + n;
    forall p | b <= p < b + (m - n) ensures !Owned(after, p) {
      OwnedMore(before, f, n, p);
    }
    assert FreeFrames(after, first, total, b, m - n);
  }

  lemma SpendsTrans(b0: map<nat, Block>, b1: map<nat, Block>, b2: map<nat, Block>, first: nat, total: nat, n: nat,
                    m: nat)
    requires Spends(b0, b1, first, total, n) && Spends(b1, b2, first, total, m)
    ensures Spends(b0, b2, first, total, n + m)
  {
  }

  lemma SpendsMore(before: map<nat, Block>, after: map<nat, Block>, first: nat, total: nat, n: nat, m: nat)
    requires Spends(before, after, first, total, n) && n <= m
    ensures Spends(before, after, first, total, m)
  {
    forall k: nat | m <= k && HasRun(before, first, total, k) ensures HasRun(after, first, total, k - m) {
      ShorterRun(after, first, total, k - n, k - m);
    }
  }

  lemma SpendsNothing(blocks: map<nat, Block>, first: nat, total: nat)
    ensures Spends(blocks, blocks, first, total, 0)
  {
  }

  lemma OwnedShrunk(before: map<nat, Block>, after: map<nat, Block>, p: nat)
    requires Shrinks(before, after)
    ensures Owned(after, p) ==> Owned(before, p)
  {
    if Owned(after, p) {
      var g :| g in after && g <= p < g + after[g].pages;
      assert g in before;
    }
  }

  /** Giving blocks back costs nothing. */
  lemma ShrinkSpends(before: map<nat, Block>, after: map<nat, Block>, first: nat, total: nat)
    requires Shrinks(before, after)
    ensures Spends(before, after, first, total, 0)
  {
    forall m: nat | HasRun(before, first, total, m) ensures HasRun(after, first, total, m) {
      var a: nat :| FreeFrames(before, first, total, a, m);
      forall p | a <= p < a + m ensures !Owned(after, p) {
        OwnedShrunk(before, after, p);
      }
      assert FreeFrames(after, first, total, a, m);
    }
  }

  lemma ShrinksTrans(b0: map<nat, Block>, b1: map<nat, Block>, b2: map<nat, Block>)
    requires Shrinks(b0, b1) && Shrinks(b1, b2)
    ensures Shrinks(b0, b2)
  {
  }

  /** A run that is missing after some was spent was too short before. */
  lemma TooShort(before: map<nat, Block>, after: map<nat, Block>, first: nat, total: nat, spent: nat, need: nat,
                 all: nat)
    requires Spends(before, after, first, total, spent) && !HasRun(after, first, total, need) && spent + need <= all
    ensures !HasRun(before, first, total, all)
  {
    if HasRun(before, first, total, all) {
      ShorterRun(before, first, total, all, spent + need);
    }
  }

  // ------------------------------------------------------------- single pages

  lemma OwnedExtended(before: map<nat, Block>, after: map<nat, Block>, s: set<nat>, p: nat)
    requires Extends(before, after, s) && Owned(after, p)
    ensures Owned(before, p) || p in s
  {
    var g :| g in after && g <= p < g + after[g].pages;
    if g in before && g !in s {
      assert after[g] == before[g];
    }
  }

  function Frames(a: nat, n: nat): (r: set<nat>)
    ensures |r| == n && forall p: nat :: p in r <==> a <= p < a + n
  {
    if n == 0 then {} else Frames(a, n - 1) + {a + n - 1}
  }

  /** Of more than n adjacent free frames one is left when n pages were taken, wherever. */
  lemma OneIsLeft(before: map<nat, Block>, after: map<nat, Block>, first: nat, total: nat, n: nat)
    requires Took(before, after, n) && HasRun(before, first, total, n + 1)
    ensures HasRun(after, first, total, 1)
  {
    var s: set<nat> :| |s| <= n && Extends(before, after, s);
    var a: nat :| FreeFrames(before, first, total, a, n + 1);
    if Frames(a, n + 1) <= s {
      SubsetSize(Frames(a, n + 1), s);
    }
    var p: nat :| p in Frames(a, n + 1) && p !in s;
    if Owned(after, p) {
      OwnedExtended(before, after, s, p);
    }
    assert FreeFrames(after, first, total, p, 1);
  }

  // ----------------------------------------------------------- one after another

  /** pages (sz, pgsz). */
  function Pages(size: nat): nat { PageCount(size, SIZE_4KB) }

  /** The pages of the first k sizes. */
  function PagesUpTo(sizes: seq<nat>, k: nat): nat
    requires k <= |sizes|
  {
    if k == 0 then 0 else PagesUpTo(sizes, k - 1) + Pages(sizes[k - 1])
  }

  lemma {:induction false} PagesGrow(sizes: seq<nat>, j: nat, k: nat)
    requires j <= k <= |sizes|
    ensures PagesUpTo(sizes, j) <= PagesUpTo(sizes, k)
  {
    if j < k {
      PagesGrow(sizes, j, k - 1);
    }
  }

  /** Memory for the first of these sizes was placed at paddrs, one after the other: steps
      are the live blocks before each of them and after the last. */
  ghost predicate FittedInOrder(steps: seq<map<nat, Block>>, first: nat, total: nat, paddrs: seq<nat>, sizes: seq<nat>)
  {
    && |steps| == |paddrs| + 1 && |paddrs| <= |sizes|
    && forall i | 0 <= i < |paddrs| ::
         Fitted(steps[i], steps[i + 1], first, total, paddrs[i], Pages(sizes[i])) && (sizes[i] > 0 <==> paddrs[i] != 0)
  }

  lemma FittedStep(steps: seq<map<nat, Block>>, first: nat, total: nat, paddrs: seq<nat>, sizes: seq<nat>,
                   blocks: map<nat, Block>, paddr: nat)
    requires FittedInOrder(steps, first, total, paddrs, sizes) && |paddrs| < |sizes|
    requires Fitted(steps[|paddrs|], blocks, first, total, paddr, Pages(sizes[|paddrs|]))
      && (sizes[|paddrs|] > 0 <==> paddr != 0)
    ensures FittedInOrder(steps + [blocks], first, total, paddrs + [paddr], sizes)
  {
    hide Fitted, Pages;
  }

  /** Where they go follows from what was free. */
  lemma {:induction false} OneOrder(steps: seq<map<nat, Block>>, steps': seq<map<nat, Block>>, first: nat, total: nat,
                                    paddrs: seq<nat>, paddrs': seq<nat>, sizes: seq<nat>, k: nat)
    requires FittedInOrder(steps, first, total, paddrs, sizes) && FittedInOrder(steps', first, total, paddrs', sizes)
    requires steps[0] == steps'[0] && k <= |paddrs| && k <= |paddrs'|
    ensures paddrs[..k] == paddrs'[..k] && steps[k] == steps'[k]
    decreases k
  {
    hide Fitted, Pages;
    if k > 0 {
      OneOrder(steps, steps', first, total, paddrs, paddrs', sizes, k - 1);
      OnePlace(steps[k - 1], steps[k], steps'[k], first, total, paddrs[k - 1], paddrs'[k - 1], Pages(sizes[k - 1]));
      assert paddrs[..k] == paddrs[..k - 1] + [paddrs[k - 1]] && paddrs'[..k] == paddrs'[..k - 1] + [paddrs'[k - 1]];
    }
  }

  lemma OnePlace(before: map<nat, Block>, after: map<nat, Block>, after': map<nat, Block>, first: nat, total: nat,
                 paddr: nat, paddr': nat, n: nat)
    requires Fitted(before, after, first, total, paddr, n) && Fitted(before, after', first, total, paddr', n)
    requires paddr == 0 <==> paddr' == 0
    ensures paddr == paddr' && after == after'
  {
    if paddr != 0 {
      assert FreeFrames(before, first, total, paddr / 0x1000, n)
        && FreeFrames(before, first, total, paddr' / 0x1000, n);
    }
  }

  /** Together they spend what they ask for. */
  lemma {:induction false} OrderSpends(steps: seq<map<nat, Block>>, first: nat, total: nat, paddrs: seq<nat>,
                                       sizes: seq<nat>, k: nat)
    requires FittedInOrder(steps, first, total, paddrs, sizes) && k <= |paddrs|
    ensures Spends(steps[0], steps[k], first, total, PagesUpTo(sizes, k))
    decreases k
  {
    hide Fitted, Spends, Pages;
    if k == 0 {
      SpendsNothing(steps[0], first, total);
    } else {
      OrderSpends(steps, first, total, paddrs, sizes, k - 1);
      FitSpends(steps[k - 1], steps[k], first, total, paddrs[k - 1], Pages(sizes[k - 1]));
      SpendsTrans(steps[0], steps[k - 1], steps[k], first, total, PagesUpTo(sizes, k - 1), Pages(sizes[k - 1]));
    }
  }

  /** The lowest free frame is a, and n free frames begin there. */
  ghost predicate FreeFrom(blocks: map<nat, Block>, first: nat, total: nat, a: nat, n: nat) {
    FreeFrames(blocks, first, total, a, n) && forall p | first <= p < a :: Owned(blocks, p)
  }

  /** Then first fit takes those. */
  lemma FitsNext(before: map<nat, Block>, after: map<nat, Block>, first: nat, total: nat, a: nat, n: nat, k: nat,
                 paddr: nat)
    requires FreeFrom(before, first, total, a, n) && 0 < k <= n && paddr != 0
    requires Fitted(before, after, first, total, paddr, k)
    ensures paddr == a * 0x1000 && FreeFrom(after, first, total, a + k, n - k)
  {
    var f := paddr / 0x1000;
    assert FreeFrames(before, first, total, a, k);
    assert !Owned(before, f);
    assert f == a;
    forall p | first <= p < a + n ensures Owned(after, p) <==> p < a + k {
      OwnedMore(before, f, k, p);
    }
  }

  /** Where the j-th of these sizes goes when they are laid side by side from frame a on. */
  function PlaceOf(a: nat, sizes: seq<nat>, j: nat): nat
    requires j < |sizes|
  {
    if sizes[j] == 0 then 0 else (a + PagesUpTo(sizes, j)) * 0x1000
  }

  /** And a row of sections side by side. */
  lemma {:induction false} SideBySide(steps: seq<map<nat, Block>>, first: nat, total: nat, a: nat, n: nat,
                                      paddrs: seq<nat>, sizes: seq<nat>, k: nat)
    requires FittedInOrder(steps, first, total, paddrs, sizes) && k <= |paddrs|
    requires FreeFrom(steps[0], first, total, a, n) && PagesUpTo(sizes, k) <= n
    ensures FreeFrom(steps[k], first, total, a + PagesUpTo(sizes, k), n - PagesUpTo(sizes, k))
    ensures forall j | 0 <= j < k :: paddrs[j] == PlaceOf(a, sizes, j)
    decreases k
  {
    hide Fitted, FreeFrom, PlaceOf, Pages;
    if k > 0 {
      SideBySide(steps, first, total, a, n, paddrs, sizes, k - 1);
      NextPlace(steps[k - 1], steps[k], first, total, a, n, paddrs[k - 1], sizes, k - 1);
    }
  }

  lemma NextPlace(before: map<nat, Block>, after: map<nat, Block>, first: nat, total: nat, a: nat, n: nat, paddr: nat,
                  sizes: seq<nat>, j: nat)
    requires j < |sizes| && PagesUpTo(sizes, j + 1) <= n
    requires FreeFrom(before, first, total, a + PagesUpTo(sizes, j), n - PagesUpTo(sizes, j))
    requires Fitted(before, after, first, total, paddr, Pages(sizes[j])) && (sizes[j] == 0 <==> paddr == 0)
    ensures FreeFrom(after, first, total, a + PagesUpTo(sizes, j + 1), n - PagesUpTo(sizes, j + 1))
    ensures paddr == PlaceOf(a, sizes, j)
  {
    hide Fitted, FreeFrom;
    var d := PagesUpTo(sizes, j);
    if sizes[j] == 0 {
      FitNothing(before, after, first, total, 0);
    } else {
      FitsNext(before, after, first, total, a + d, n - d, Pages(sizes[j]), paddr);
    }
  }

  lemma FitNothing(before: map<nat, Block>, after: map<nat, Block>, first: nat, total: nat, n: nat)
    requires Fitted(before, after, first, total, 0, n)
    ensures after == before
  {
  }
}
