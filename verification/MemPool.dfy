/** The fixed-size pools of lwIP (lib/lwip/core/memp.c): free lists threaded through the
    elements themselves, and the check that they do not form a circle. */
module MemPool {
  import opened Lists

  const NULL: int := -1

  /** Null, or an element. */
  predicate IsPointer(next: seq<int>, p: int) { NULL <= p < |next| }

  /** The next element. The pointer shares its bytes with the data of an element that is
      handed out, and where these bytes are no pointer the list is taken to end. */
  function Follow(next: seq<int>, p: nat): (q: int)
    requires p < |next|
    ensures IsPointer(next, q)
  {
    if IsPointer(next, next[p]) then next[p] else NULL
  }

  /** Where k steps along the list lead; null stays null. */
  ghost function Walk(next: seq<int>, p: int, k: nat): int
    requires IsPointer(next, p)
    ensures IsPointer(next, Walk(next, p, k))
    decreases k
  {
    if k == 0 || p == NULL then p else Walk(next, Follow(next, p), k - 1)
  }

  /** Every element on the list that starts at p holds a pointer. */
  ghost predicate Sound(next: seq<int>, p: int)
    requires IsPointer(next, p)
  {
    forall k: nat {:trigger Walk(next, p, k)} | Walk(next, p, k) != NULL :: IsPointer(next, next[Walk(next, p, k)])
  }

  /** The list that starts at p ends. */
  ghost predicate Acyclic(next: seq<int>, p: int)
    requires IsPointer(next, p)
  {
    exists k: nat :: Walk(next, p, k) == NULL
  }

  lemma {:induction false} WalkAdd(next: seq<int>, p: int, j: nat, k: nat)
    requires IsPointer(next, p)
    ensures Walk(next, Walk(next, p, j), k) == Walk(next, p, j + k)
    decreases j
  {
    if j > 0 && p != NULL {
      WalkAdd(next, Follow(next, p), j - 1, k);
    } else if p == NULL {
      NullStays(next, k);
      NullStays(next, j + k);
      NullStays(next, j);
    }
  }

  lemma {:induction false} NullStays(next: seq<int>, k: nat)
    ensures Walk(next, NULL, k) == NULL
    decreases k
  {
  }

  lemma NullFrom(next: seq<int>, p: int, j: nat, k: nat)
    requires IsPointer(next, p) && j <= k && Walk(next, p, j) == NULL
    ensures Walk(next, p, k) == NULL
  {
    WalkAdd(next, p, j, k - j);
    NullStays(next, k - j);
  }

  /** Once the walk repeats itself after n steps, it does so for ever. */
  lemma {:induction false} Periodic(next: seq<int>, p: int, a: nat, n: nat, m: nat)
    requires IsPointer(next, p) && Walk(next, p, a) == Walk(next, p, a + n)
    ensures Walk(next, p, a) == Walk(next, p, a + m * n)
    decreases m
  {
    if m > 0 {
      Periodic(next, p, a, n, m - 1);
      assert a + m * n == (a + (m - 1) * n) + n;
      WalkAdd(next, p, a + (m - 1) * n, n);
      WalkAdd(next, p, a, n);
    }
  }

  /** A walk that meets itself later never ends. */
  lemma RepeatIsCyclic(next: seq<int>, p: int, a: nat, n: nat)
    requires IsPointer(next, p) && n > 0 && Walk(next, p, a) == Walk(next, p, a + n) != NULL
    ensures !Acyclic(next, p)
  {
    if Acyclic(next, p) {
      var k: nat :| Walk(next, p, k) == NULL;
      Periodic(next, p, a, n, k);
      assert a + k * n >= k;
      NullFrom(next, p, k, a + k * n);
    }
  }

  // ------------------------------------------------------------------ pigeonhole

  function Range(n: nat, m: nat): (s: set<int>)
    ensures |s| == m && forall x :: x in s <==> n <= x < n + m
  {
    if m == 0 then {} else Range(n, m - 1) + {n + m - 1}
  }

  lemma {:induction false} CountDistinct(s: seq<int>)
    requires forall i, j | 0 <= i < j < |s| :: s[i] != s[j]
    ensures |(set x | x in s)| == |s|
  {
    if s != [] {
      var last := |s| - 1;
      CountDistinct(s[..last]);
      assert (set x | x in s) == (set x | x in s[..last]) + {s[last]};
    }
  }

  lemma Pigeonhole(s: seq<int>, n: nat)
    requires |s| > n && forall i | 0 <= i < |s| :: 0 <= s[i] < n
    ensures exists i, j | 0 <= i < j < |s| :: s[i] == s[j]
  {
    if forall i, j | 0 <= i < j < |s| :: s[i] != s[j] {
      CountDistinct(s);
      SubsetSize((set x | x in s), Range(0, n));
    }
  }

  lemma SubsetSize(a: set<int>, b: set<int>)
    requires a <= b
    ensures |a| <= |b|
  {
    assert b == a + (b - a);
  }

  ghost function Path(next: seq<int>, p: int, n: nat): seq<int>
    requires IsPointer(next, p)
  {
    seq(n, k requires 0 <= k => Walk(next, p, k))
  }

  /** On any linked structure, the slow pointer and the fast one meet, or the fast one
      reaches the end: after k steps they are k and 2k + 1 steps along. */
  lemma MeetsOrEnds(next: seq<int>, p: int) returns (k: nat)
    requires IsPointer(next, p)
    ensures Walk(next, p, 2 * k + 1) == NULL || Walk(next, p, k) == Walk(next, p, 2 * k + 1)
  {
    var n := |next|;
    var path := Path(next, p, n + 1);
    if exists i: nat :: i <= n && Walk(next, p, i) == NULL {
      k :| k <= n && Walk(next, p, k) == NULL;
      NullFrom(next, p, k, 2 * k + 1);
    } else {
      forall i | 0 <= i < |path| ensures 0 <= path[i] < n {
        assert path[i] == Walk(next, p, i) != NULL;
      }
      Pigeonhole(path, n);
      var a, b :| 0 <= a < b < |path| && path[a] == path[b];
      k := MeetingPoint(next, p, a, b - a);
    }
  }

  lemma MeetingPoint(next: seq<int>, p: int, a: nat, n: nat) returns (k: nat)
    requires IsPointer(next, p) && n > 0 && Walk(next, p, a) == Walk(next, p, a + n)
    ensures Walk(next, p, k) == Walk(next, p, 2 * k + 1)
  {
    k := (a + 1) * n - 1;
    assert k >= a by { assert (a + 1) * n >= a + 1; }
    // from step a on the walk has period n, and k + 1 is a multiple of n
    WalkAdd(next, p, a, k - a);
    Periodic(next, p, a, n, a + 1);
    WalkAdd(next, p, a + (a + 1) * n, k - a);
    assert a + (a + 1) * n + (k - a) == 2 * k + 1;
  }

  // ---------------------------------------------------------------- memp_sanity

  /** The check of one list: terminates on any structure of pointers, and is right. */
  method ListIsSane(next: seq<int>, head: int) returns (ok: bool)
    requires IsPointer(next, head) && Sound(next, head)
    ensures ok <==> Acyclic(next, head)
  {
    if head == NULL {
      assert Walk(next, head, 0) == NULL;
      return true;
    }
    ghost var stop := MeetsOrEnds(next, head);
    var t, h := head, next[head];
    ghost var k: nat := 0;
    assert Walk(next, head, 0) == head && Walk(next, head, 1) == Walk(next, Follow(next, head), 0);
    while t != NULL && h != NULL
      invariant IsPointer(next, t) && IsPointer(next, h) && k <= stop
      invariant t == Walk(next, head, k) && h == Walk(next, head, 2 * k + 1)
      decreases stop - k
    {
      if t == h {
        RepeatIsCyclic(next, head, k, k + 1);
        return false;
      }
      Advance(next, head, k);
      assert k != stop && next[t] == Follow(next, t) && next[h] == Follow(next, h) == Walk(next, head, 2 * k + 2);
      t := next[t];
      h := if next[h] != NULL && next[next[h]] != NULL then next[next[h]] else NULL;
      k := k + 1;
    }
    if t == NULL {
      assert Walk(next, head, k) == NULL;
    } else {
      assert Walk(next, head, 2 * k + 1) == NULL;
    }
    ok := true;
  }

  lemma Advance(next: seq<int>, p: int, k: nat)
    requires IsPointer(next, p) && Walk(next, p, k) != NULL && Walk(next, p, 2 * k + 1) != NULL
    ensures Walk(next, p, k + 1) == Follow(next, Walk(next, p, k))
    ensures Walk(next, p, 2 * k + 2) == Follow(next, Walk(next, p, 2 * k + 1))
    ensures
      var f := Walk(next, p, 2 * k + 2);
      Walk(next, p, 2 * (k + 1) + 1) == if f != NULL && Follow(next, f) != NULL then Follow(next, f) else NULL
  {
    OneMore(next, p, k);
    OneMore(next, p, 2 * k + 1);
    if Walk(next, p, 2 * k + 2) != NULL {
      OneMore(next, p, 2 * k + 2);
    } else {
      NullFrom(next, p, 2 * k + 2, 2 * k + 3);
    }
  }

  lemma OneMore(next: seq<int>, p: int, k: nat)
    requires IsPointer(next, p) && Walk(next, p, k) != NULL
    ensures Walk(next, p, k + 1) == Follow(next, Walk(next, p, k))
  {
    var t := Walk(next, p, k);
    WalkAdd(next, p, k, 1);
    assert Walk(next, t, 1) == Walk(next, Follow(next, t), 0);
  }

  /** memp_sanity over all pools. */
  method Sanity(next: seq<int>, tab: seq<int>) returns (ok: bool)
    requires forall i | 0 <= i < |tab| :: IsPointer(next, tab[i]) && Sound(next, tab[i])
    ensures ok <==> forall i | 0 <= i < |tab| :: Acyclic(next, tab[i])
  {
    var i := 0;
    while i < |tab|
      invariant 0 <= i <= |tab| && forall j | 0 <= j < i :: Acyclic(next, tab[j])
    {
      ok := ListIsSane(next, tab[i]);
      if !ok {
        return;
      }
      i := i + 1;
    }
    ok := true;
  }

  // -------------------------------------------------------------------- free lists

  /** The list that starts at p has exactly these elements, in this order. */
  ghost predicate Spells(next: seq<int>, p: int, list: seq<nat>)
    decreases |list|
  {
    if list == [] then p == NULL
    else p == list[0] && p < |next| && Spells(next, next[p], list[1..])
  }

  lemma {:induction false} SpelledIsAcyclic(next: seq<int>, p: int, list: seq<nat>)
    requires Spells(next, p, list)
    ensures IsPointer(next, p) && Acyclic(next, p) && Sound(next, p)
    decreases |list|
  {
    if list == [] {
      assert Walk(next, p, 0) == NULL;
      forall k: nat ensures Walk(next, p, k) == NULL { NullStays(next, k); }
    } else {
      SpelledIsAcyclic(next, next[p], list[1..]);
      var k: nat :| Walk(next, next[p], k) == NULL;
      assert Walk(next, p, k + 1) == NULL;
      forall k: nat | Walk(next, p, k) != NULL ensures IsPointer(next, next[Walk(next, p, k)]) {
        if k > 0 {
          assert Walk(next, p, k) == Walk(next, next[p], k - 1);
        }
      }
    }
  }

  /** Writing to an element off the list does not change it. */
  lemma {:induction false} SpellsFrame(next: seq<int>, next': seq<int>, p: int, list: seq<nat>)
    requires Spells(next, p, list) && |next'| == |next|
      && forall x: nat | x in list && x < |next| :: next'[x] == next[x]
    ensures Spells(next', p, list)
    decreases |list|
  {
    if list != [] {
      assert list[0] in list;
      SpellsFrame(next, next', next[p], list[1..]);
    }
  }

  /** The element x is on the list that starts at p. */
  ghost predicate Reaches(next: seq<int>, p: int, x: nat)
    requires IsPointer(next, p)
  {
    exists k: nat :: Walk(next, p, k) == x
  }

  /** As long as it does not come to x, a walk does not see that x changed. */
  lemma {:induction false} WalkFrame(next: seq<int>, p: int, x: nat, v: int, k: nat)
    requires IsPointer(next, p) && x < |next| && IsPointer(next, v)
    requires forall j: nat | j < k :: Walk(next, p, j) != x
    ensures Walk(next[x := v], p, k) == Walk(next, p, k)
    decreases k
  {
    if k > 0 && p != NULL {
      assert Walk(next, p, 0) == p != x;
      forall j: nat | j < k - 1 ensures Walk(next, Follow(next, p), j) != x {
        assert Walk(next, p, j + 1) == Walk(next, Follow(next, p), j);
      }
      WalkFrame(next, Follow(next, p), x, v, k - 1);
    }
  }

  /** Pushing an element keeps a free list acyclic if and only if the element is not on it
      already: this is what the check in memp_free finds out. */
  lemma PushIsSaneIff(next: seq<int>, head: int, x: nat)
    requires IsPointer(next, head) && x < |next| && Acyclic(next, head)
    ensures Acyclic(next[x := head], x) <==> !Reaches(next, head, x)
  {
    var next' := next[x := head];
    if Reaches(next, head, x) {
      var k := FirstReach(next, head, x);
      WalkFrame(next, head, x, head, k);
      assert Walk(next', x, k + 1) == Walk(next', head, k) == x;
      assert Walk(next', x, 0) == x;
      RepeatIsCyclic(next', x, 0, k + 1);
    } else {
      var k: nat :| Walk(next, head, k) == NULL;
      WalkFrame(next, head, x, head, k);
      assert Walk(next', x, k + 1) == Walk(next', head, k);
    }
  }

  lemma FirstReach(next: seq<int>, p: int, x: nat) returns (k: nat)
    requires IsPointer(next, p) && Reaches(next, p, x)
    ensures Walk(next, p, k) == x && forall j: nat | j < k :: Walk(next, p, j) != x
  {
    var n: nat :| Walk(next, p, n) == x;
    k := 0;
    while Walk(next, p, k) != x
      invariant k <= n && forall j: nat | j < k :: Walk(next, p, j) != x
      decreases n - k
    {
      k := k + 1;
    }
  }

  // ---------------------------------------------------------------------- pools

  /** The first element of pool i; the pools lie one behind the other. */
  function First(num: seq<nat>, i: nat): nat
    requires i <= |num|
  {
    if i == 0 then 0 else First(num, i - 1) + num[i - 1]
  }

  lemma {:induction false} FirstGrows(num: seq<nat>, i: nat, j: nat)
    requires i <= j <= |num|
    ensures First(num, i) <= First(num, j)
    decreases j
  {
    if i < j {
      FirstGrows(num, i, j - 1);
    }
  }

  predicate Belongs(num: seq<nat>, i: nat, x: nat)
    requires i < |num|
  {
    First(num, i) <= x < First(num, i) + num[i]
  }

  /** An element belongs to one pool. */
  lemma BelongsToOne(num: seq<nat>, i: nat, j: nat, x: nat)
    requires i < |num| && j < |num| && Belongs(num, i, x) && Belongs(num, j, x)
    ensures i == j && x < First(num, |num|)
  {
    if i < j { FirstGrows(num, i + 1, j); }
    if j < i { FirstGrows(num, j + 1, i); }
    FirstGrows(num, i + 1, |num|);
  }

  /** Pool i: its free list is spelled by the pointers, and its elements are either free,
      once, or handed out. */
  ghost predicate PoolOk(num: seq<nat>, next: seq<int>, tab: seq<int>, free: seq<seq<nat>>, used: seq<set<nat>>, i: nat)
    requires i < |num| == |tab| == |free| == |used|
  {
    && Spells(next, tab[i], free[i]) && Distinct(free[i])
    && (forall x: nat {:trigger x in free[i]} | x in free[i] :: Belongs(num, i, x) && x !in used[i])
    && (forall x: nat {:trigger x in used[i]} | x in used[i] :: Belongs(num, i, x))
    && |free[i]| + |used[i]| == num[i]
  }

  ghost predicate PoolsOk(num: seq<nat>, next: seq<int>, tab: seq<int>, free: seq<seq<nat>>, used: seq<set<nat>>) {
    && |num| == |tab| == |free| == |used| && |next| == First(num, |num|)
    && forall i: nat {:trigger PoolOk(num, next, tab, free, used, i)} | i < |num| ::
         PoolOk(num, next, tab, free, used, i)
  }

  /** Every free list of a set of pools in order passes the check. */
  lemma PoolsAreSane(num: seq<nat>, next: seq<int>, tab: seq<int>, free: seq<seq<nat>>, used: seq<set<nat>>)
    requires PoolsOk(num, next, tab, free, used)
    ensures forall i | 0 <= i < |tab| :: IsPointer(next, tab[i]) && Sound(next, tab[i]) && Acyclic(next, tab[i])
  {
    forall i | 0 <= i < |tab| ensures IsPointer(next, tab[i]) && Sound(next, tab[i]) && Acyclic(next, tab[i]) {
      assert PoolOk(num, next, tab, free, used, i);
      SpelledIsAcyclic(next, tab[i], free[i]);
    }
  }

  /** Writing the pointer of an element of pool i, which is not on its free list, leaves
      the other pools alone. */
  lemma OtherPools(num: seq<nat>, next: seq<int>, tab: seq<int>, free: seq<seq<nat>>, used: seq<set<nat>>,
                   next': seq<int>, tab': seq<int>, free': seq<seq<nat>>, used': seq<set<nat>>, i: nat, x: nat)
    requires PoolsOk(num, next, tab, free, used) && i < |num| && Belongs(num, i, x)
    requires |next'| == |next| && (forall y | 0 <= y < |next| && y != x :: next'[y] == next[y])
    requires |tab'| == |tab| && tab' == tab[i := tab'[i]] && |free'| == |free| && free' == free[i := free'[i]]
    requires |used'| == |used| && used' == used[i := used'[i]]
    requires PoolOk(num, next', tab', free', used', i)
    ensures PoolsOk(num, next', tab', free', used')
  {
    forall j: nat | j < |num| ensures PoolOk(num, next', tab', free', used', j) {
      if j != i {
        assert PoolOk(num, next, tab, free, used, j);
        forall y: nat | y in free[j] && y < |next| ensures next'[y] == next[y] {
          if y == x { BelongsToOne(num, i, j, x); }
        }
        SpellsFrame(next, next', tab[j], free[j]);
      }
    }
  }

  /** Pool k has all its elements on its list. */
  ghost predicate Ready(num: seq<nat>, next: seq<int>, tab: seq<int>, free: seq<seq<nat>>, k: nat) {
    && k < |num| && k < |tab| && k < |free|
    && Spells(next, tab[k], free[k]) && Distinct(free[k]) && |free[k]| == num[k]
    && forall x: nat {:trigger x in free[k]} | x in free[k] :: Belongs(num, k, x)
  }

  /** Threading one more element of pool i. */
  lemma Threaded(num: seq<nat>, next: seq<int>, tab: seq<int>, free: seq<seq<nat>>, list: seq<nat>, i: nat, m: nat)
    requires i < |num| && i < |tab| && |free| == i && Belongs(num, i, m) && m < |next|
    requires Spells(next, tab[i], list) && Distinct(list) && forall x: nat | x in list :: x < m
    requires forall k: nat {:trigger Ready(num, next, tab, free, k)} | k < i :: Ready(num, next, tab, free, k)
    ensures
      var next', tab' := next[m := tab[i]], tab[i := m as int];
      && Spells(next', m, [m] + list) && Distinct([m] + list)
      && forall k: nat {:trigger Ready(num, next', tab', free, k)} | k < i :: Ready(num, next', tab', free, k)
  {
    var next', tab' := next[m := tab[i]], tab[i := m as int];
    SpellsFrame(next, next', tab[i], list);
    assert ([m] + list)[1..] == list;
    forall j | 0 <= j < |list| ensures list[j] < m {
      assert list[j] in list;
    }
    forall k: nat | k < i ensures Ready(num, next', tab', free, k) {
      assert Ready(num, next, tab, free, k);
      forall x: nat | x in free[k] && x < |next| ensures next'[x] == next[x] {
        if x == m { BelongsToOne(num, k, i, m); }
      }
      SpellsFrame(next, next', tab[k], free[k]);
    }
  }

  /** memp_init for one pool: its elements, from memp on, are threaded onto its list. */
  method BuildPool(num: seq<nat>, next: array<int>, tab: array<int>, i: nat, first: nat, ghost free: seq<seq<nat>>)
    returns (memp: nat, ghost list: seq<nat>)
    requires i < |num| == tab.Length && next.Length == First(num, |num|) && first == First(num, i) && |free| == i
      && next != tab
    requires forall k: nat {:trigger Ready(num, next[..], tab[..], free, k)} | k < i ::
      Ready(num, next[..], tab[..], free, k)
    modifies next, tab
    ensures memp == First(num, i + 1)
    ensures forall k: nat {:trigger Ready(num, next[..], tab[..], free + [list], k)} | k < i + 1 ::
      Ready(num, next[..], tab[..], free + [list], k)
  {
    FirstGrows(num, i + 1, |num|);
    ghost var was := tab[..];
    tab[i], memp, list := NULL, first, [];
    forall k: nat | k < i ensures Ready(num, next[..], tab[..], free, k) {
      assert Ready(num, next[..], was, free, k);
    }
    for j := 0 to num[i]
      invariant memp == first + j
      invariant |list| == j && Spells(next[..], tab[i], list) && Distinct(list)
      invariant forall x: nat {:trigger x in list} | x in list :: first <= x < memp
      invariant forall k: nat {:trigger Ready(num, next[..], tab[..], free, k)} | k < i ::
        Ready(num, next[..], tab[..], free, k)
    {
      ghost var next0, tab0 := next[..], tab[..];
      next[memp] := tab[i];
      tab[i] := memp;
      assert next[..] == next0[memp := tab0[i]] && tab[..] == tab0[i := memp as int];
      Threaded(num, next0, tab0, free, list, i, memp);
      list := [memp] + list;
      memp := memp + 1;
    }
    forall k: nat | k < i + 1 ensures Ready(num, next[..], tab[..], free + [list], k) {
      assert k < i ==> Ready(num, next[..], tab[..], free, k);
    }
  }

  class Pools {
    const num: seq<nat>            // memp_num
    const next: array<int>         // the next pointer in every element
    const tab: array<int>          // memp_tab
    ghost var free: seq<seq<nat>>
    ghost var used: seq<set<nat>>

    ghost predicate Valid()
      reads this, next, tab
    {
      next != tab && PoolsOk(num, next[..], tab[..], free, used)
    }

    /** memp_init: all elements are free. */
    constructor (num: seq<nat>)
      ensures Valid() && this.num == num && used == seq(|num|, i => {}) && fresh(next) && fresh(tab)
    {
      this.num := num;
      var next := new int[First(num, |num|)];
      var tab := new int[|num|];
      ghost var free: seq<seq<nat>> := [];
      ghost var used: seq<set<nat>> := seq(|num|, i => {});
      var memp := 0;
      for i := 0 to |num|
        invariant memp == First(num, i) && |free| == i && next != tab
        invariant forall k: nat {:trigger Ready(num, next[..], tab[..], free, k)} | k < i ::
          Ready(num, next[..], tab[..], free, k)
      {
        ghost var list;
        memp, list := BuildPool(num, next, tab, i, memp, free);
        free := free + [list];
      }
      this.next, this.tab, this.free, this.used := next, tab, free, used;
      new;
      forall i: nat | i < |num| ensures PoolOk(num, this.next[..], this.tab[..], this.free, this.used, i) {
        assert Ready(num, this.next[..], this.tab[..], this.free, i);
      }
    }

    /** memp_malloc: an element that nobody has, unless all are handed out. */
    method Malloc(i: nat) returns (x: int)
      requires Valid()
      modifies this, tab
      ensures Valid()
      ensures x == NULL <==> i >= |num| || |old(used)[i]| == num[i]
      ensures x == NULL ==> used == old(used) && free == old(free)
      ensures x != NULL ==>
        && x >= 0 && Belongs(num, i, x) && x !in old(used)[i] && used == old(used)[i := old(used)[i] + {x}]
        && old(free)[i] == [x as nat] + free[i] && free == old(free)[i := free[i]]
    {
      if i >= |num| {
        return NULL;
      }
      hide PoolsOk, Belongs;
      EmptyIff(num, next[..], tab[..], free, used, i);
      x := tab[i];
      if x != NULL {
        ghost var tab0, free0, used0 := tab[..], free, used;
        Popped(num, next[..], tab0, free0, used0, i);
        tab[i] := next[x];
        free, used := free[i := free[i][1..]], used[i := used[i] + {x}];
        assert free0[i] == [free0[i][0]] + free0[i][1..];
        assert tab[..] == tab0[i := next[x]];
      }
    }

    /** Whoever has an element writes what it likes into it, over the pointer as well. */
    method Write(i: nat, x: nat, v: int)
      requires Valid() && i < |num| && x in used[i]
      modifies next
      ensures Valid() && x < next.Length && next[..] == old(next[..])[x := v]
    {
      ghost var next0 := next[..];
      Overwritten(num, next0, tab[..], free, used, i, x, v);
      next[x] := v;
      assert next[..] == next0[x := v];
    }

    /** memp_free of an element of the pool, or of null. Its check, had it been compiled in,
        passes exactly when the element was handed out: it finds every double free. */
    method Free(i: nat, x: int) returns (sane: bool)
      requires Valid() && (x != NULL ==> i < |num| && x >= 0 && Belongs(num, i, x))
      modifies this, next, tab
      ensures sane <==> x == NULL || x in old(used)[i]
      ensures sane ==> Valid()
      ensures x == NULL ==> used == old(used) && free == old(free)
      ensures x != NULL ==>
        x < next.Length && next[..] == old(next[..])[x := old(tab[i])] && tab[..] == old(tab[..])[i := x]
      ensures x != NULL && sane ==>
        used == old(used)[i := old(used)[i] - {x}] && free == old(free)[i := [x as nat] + old(free)[i]]
    {
      hide PoolOk, Belongs, First;
      if x == NULL {
        return true;
      }
      ghost var next0, tab0, free0, used0 := next[..], tab[..], free, used;
      PushedAny(num, next0, tab0, free0, used0, i, x);
      next[x] := tab[i];
      tab[i] := x;
      assert next[..] == next0[x := tab0[i]] && tab[..] == tab0[i := x];
      if x in used0[i] {
        free, used := free[i := [x as nat] + free[i]], used[i := used[i] - {x}];
      }
      sane := Sanity(next[..], tab[..]);
    }
  }

  /** The list is empty exactly when every element is handed out. */
  lemma EmptyIff(num: seq<nat>, next: seq<int>, tab: seq<int>, free: seq<seq<nat>>, used: seq<set<nat>>, i: nat)
    requires PoolsOk(num, next, tab, free, used) && i < |num|
    ensures tab[i] == NULL <==> |used[i]| == num[i]
    ensures tab[i] >= NULL
  {
    assert PoolOk(num, next, tab, free, used, i);
  }

  lemma Popped(num: seq<nat>, next: seq<int>, tab: seq<int>, free: seq<seq<nat>>, used: seq<set<nat>>, i: nat)
    requires PoolsOk(num, next, tab, free, used) && i < |num| && tab[i] != NULL
    ensures free[i] != [] && tab[i] == free[i][0] && 0 <= tab[i] < |next| && Belongs(num, i, tab[i])
      && tab[i] !in used[i]
    ensures PoolsOk(num, next, tab[i := next[tab[i]]], free[i := free[i][1..]], used[i := used[i] + {tab[i]}])
  {
    assert PoolOk(num, next, tab, free, used, i);
    var x := free[i][0];
    assert x in free[i] && free[i] == [x] + free[i][1..];
    BelongsToOne(num, i, i, x);
    var tab', free', used' := tab[i := next[x]], free[i := free[i][1..]], used[i := used[i] + {x}];
    forall y: nat | y in free'[i] ensures Belongs(num, i, y) && y !in used'[i] {
      assert y in free[i];
    }
    assert PoolOk(num, next, tab', free', used', i);
    OtherPools(num, next, tab, free, used, next, tab', free', used', i, x);
  }

  /** The bytes of a handed-out element are on no free list. */
  lemma Overwritten(num: seq<nat>, next: seq<int>, tab: seq<int>, free: seq<seq<nat>>, used: seq<set<nat>>, i: nat,
                    x: nat, v: int)
    requires PoolsOk(num, next, tab, free, used) && i < |num| && x in used[i]
    ensures x < |next| && PoolsOk(num, next[x := v], tab, free, used)
  {
    assert PoolOk(num, next, tab, free, used, i);
    BelongsToOne(num, i, i, x);
    assert x !in free[i];
    SpellsFrame(next, next[x := v], tab[i], free[i]);
    assert PoolOk(num, next[x := v], tab, free, used, i);
    OtherPools(num, next, tab, free, used, next[x := v], tab, free, used, i, x);
  }

  lemma Pushed(num: seq<nat>, next: seq<int>, tab: seq<int>, free: seq<seq<nat>>, used: seq<set<nat>>, i: nat, x: nat)
    requires PoolsOk(num, next, tab, free, used) && i < |num| && x in used[i]
    ensures x < |next|
    ensures PoolsOk(num, next[x := tab[i]], tab[i := x], free[i := [x] + free[i]], used[i := used[i] - {x}])
  {
    assert PoolOk(num, next, tab, free, used, i);
    BelongsToOne(num, i, i, x);
    assert x !in free[i];
    var next', tab', free', used' := next[x := tab[i]], tab[i := x], free[i := [x] + free[i]], used[i := used[i] - {x}];
    PoolsAreSane(num, next, tab, free, used);
    SpellsFrame(next, next', tab[i], free[i]);
    assert free'[i][1..] == free[i];
    forall y: nat | y in free'[i] ensures Belongs(num, i, y) && y !in used'[i] {
      assert y == x || y in free[i];
    }
    assert PoolOk(num, next', tab', free', used', i);
    OtherPools(num, next, tab, free, used, next', tab', free', used', i, x);
  }

  /** An element of a pool is free or handed out. */
  lemma FreeOrUsed(num: seq<nat>, next: seq<int>, tab: seq<int>, free: seq<seq<nat>>, used: seq<set<nat>>, i: nat,
                   x: nat)
    requires PoolsOk(num, next, tab, free, used) && i < |num| && Belongs(num, i, x)
    ensures x in free[i] <==> x !in used[i]
  {
    assert PoolOk(num, next, tab, free, used, i);
    var list: seq<int>, taken: set<int> := free[i], used[i];
    var listed := set y | y in list;
    CountDistinct(list);
    if x !in free[i] && x !in used[i] {
      forall y | y in listed + taken + {x} ensures y in Range(First(num, i), num[i]) {
        if y in listed { assert y in free[i]; }
      }
      assert listed !! taken && x !in listed + taken by {
        assert forall y | y in listed :: y in free[i];
      }
      SubsetSize(listed + taken + {x}, Range(First(num, i), num[i]));
    }
  }

  /** A walk that starts in a set of elements whose pointers stay in it is sound. */
  lemma ClosedIsSound(next: seq<int>, p: int, s: set<int>)
    requires forall y | y in s :: 0 <= y < |next| && (next[y] == NULL || next[y] in s)
    requires p in s
    ensures Sound(next, p)
  {
    forall k: nat ensures Walk(next, p, k) == NULL || Walk(next, p, k) in s {
      StaysInside(next, p, s, k);
    }
  }

  lemma {:induction false} StaysInside(next: seq<int>, p: int, s: set<int>, k: nat)
    requires forall y | y in s :: 0 <= y < |next| && (next[y] == NULL || next[y] in s)
    requires p == NULL || p in s
    ensures Walk(next, p, k) == NULL || Walk(next, p, k) in s
    decreases k
  {
    if k > 0 && p != NULL {
      StaysInside(next, next[p], s, k - 1);
    }
  }

  /** The elements of a list point to one another or to null. */
  lemma {:induction false} ListIsClosed(next: seq<int>, p: int, list: seq<nat>)
    requires Spells(next, p, list)
    ensures list != [] ==> p in list
    ensures forall y: nat | y in list :: y < |next| && (next[y] == NULL || (next[y] >= 0 && next[y] in list))
    decreases |list|
  {
    if list != [] {
      ListIsClosed(next, next[p], list[1..]);
      assert list == [list[0]] + list[1..];
    }
  }

  lemma {:induction false} ListIsReached(next: seq<int>, p: int, list: seq<nat>, x: nat)
    requires Spells(next, p, list) && IsPointer(next, p) && x in list
    ensures Reaches(next, p, x)
    decreases |list|
  {
    if list[0] == x {
      assert Walk(next, p, 0) == x;
    } else {
      assert list == [list[0]] + list[1..];
      SpelledIsAcyclic(next, next[p], list[1..]);
      ListIsReached(next, next[p], list[1..], x);
      var k: nat :| Walk(next, next[p], k) == x;
      assert Walk(next, p, k + 1) == x;
    }
  }

  /** Pushing an element that is free already leaves pointers everywhere, in a circle. */
  lemma PushedTwice(next: seq<int>, p: int, list: seq<nat>, x: nat)
    requires Spells(next, p, list) && x in list && x < |next| && IsPointer(next, p)
    ensures Sound(next[x := p], x) && !Acyclic(next[x := p], x)
  {
    ListIsClosed(next, p, list);
    SpelledIsAcyclic(next, p, list);
    ListIsReached(next, p, list, x);
    PushIsSaneIff(next, p, x);
    ClosedIsSound(next[x := p], x, set y: nat | y in list :: y);
  }

  /** What memp_free leaves: the lists in order, or one circle, and pointers on every list. */
  lemma PushedAny(num: seq<nat>, next: seq<int>, tab: seq<int>, free: seq<seq<nat>>, used: seq<set<nat>>, i: nat,
                  x: nat)
    requires PoolsOk(num, next, tab, free, used) && i < |num| && Belongs(num, i, x)
    ensures x < |next|
    ensures
      var next', tab' := next[x := tab[i]], tab[i := x];
      && (forall j | 0 <= j < |tab'| :: IsPointer(next', tab'[j]) && Sound(next', tab'[j]))
      && ((forall j | 0 <= j < |tab'| :: Acyclic(next', tab'[j])) <==> x in used[i])
      && (x in used[i] ==> PoolsOk(num, next', tab', free[i := [x] + free[i]], used[i := used[i] - {x}]))
  {
    hide Belongs, Sound, Acyclic;
    BelongsToOne(num, i, i, x);
    FreeOrUsed(num, next, tab, free, used, i, x);
    var next', tab' := next[x := tab[i]], tab[i := x];
    if x in used[i] {
      Pushed(num, next, tab, free, used, i, x);
      PoolsAreSane(num, next', tab', free[i := [x] + free[i]], used[i := used[i] - {x}]);
    } else {
      PoolsAreSane(num, next, tab, free, used);
      assert PoolOk(num, next, tab, free, used, i);
      PushedTwice(next, tab[i], free[i], x);
      forall j | 0 <= j < |tab'| && j != i ensures IsPointer(next', tab'[j]) && Sound(next', tab'[j]) {
        assert PoolOk(num, next, tab, free, used, j);
        forall y: nat | y in free[j] && y < |next| ensures next'[y] == next[y] {
          if y == x { BelongsToOne(num, i, j, x); }
        }
        SpellsFrame(next, next', tab[j], free[j]);
        SpelledIsAcyclic(next', tab[j], free[j]);
      }
      assert !Acyclic(next', tab'[i]);
    }
  }
}
