/** Four-level page tables as a value: what the processor's walk computes (section
    4.5 of the Intel SDM, volume 3A; section 28.2 of volume 3C for the EPT), what it
    means that the table pages form a tree, and how single table writes change both.

    Addresses are page numbers: virtual page v stands for virtual addresses
    0x1000 * v .. 0x1000 * v + 0xFFF, and a frame is a physical page number. */
module PageWalk {

  /** The low twelve bits of an entry. */
  type Flags = bv12

  const PAGE_PRESENT: Flags := 0x001
  const PAGE_RW: Flags := 0x002
  const PAGE_PSE: Flags := 0x080

  /** A 64-bit entry, split into the frame it addresses and its flags. */
  datatype Entry = Entry(frame: nat, flags: Flags)

  const ZERO: Entry := Entry(0, 0)
  const ENTRIES: nat := 512

  /** Table pages by frame. */
  type Heap = map<nat, seq<Entry>>

  /** A place in the tree: the level of the table (4 is the root) and the part of a
      page number that leads to it. */
  datatype Slot = Slot(level: nat, prefix: nat)

  /** Where the tables of one tree are. */
  type Tree = map<Slot, nat>

  const ROOT: Slot := Slot(4, 0)

  predicate IsLarge(e: Entry) { e.flags & PAGE_PSE != 0 }

  /** The processor stops at this entry. */
  predicate IsLeaf(level: nat, e: Entry) { level == 1 || (level <= 3 && IsLarge(e)) }

  // ------------------------------------------------------ packing 64-bit entries

  /** An entry built as `paddr | flags` from a page-aligned address gives the address
      back under `& ~0xFFF` and the flags under `& 0xFFF`, and is zero only if both are. */
  lemma PackedEntry(paddr: bv64, flags: bv64)
    requires paddr & 0xFFF == 0 && flags & 0xFFF == flags
    ensures (paddr | flags) & 0xFFFF_FFFF_FFFF_F000 == paddr
    ensures (paddr | flags) & 0xFFF == flags
    ensures paddr | flags == 0 <==> paddr == 0 && flags == 0
  {
  }

  // --------------------------------------------------------------- page numbers

  /** The part of page number v that selects the table entry above level l: v with
      its lowest 9 * l bits dropped. */
  function Prefix(v: nat, l: nat): nat {
    if l == 0 then v else Prefix(v, l - 1) / 512
  }

  /** (vaddr >> (12 + 9 * (l - 1))) & 0x1FF. */
  function Index(v: nat, l: nat): (i: nat)
    requires l >= 1
    ensures i < 512
  {
    Prefix(v, l - 1) % 512
  }

  /** j pages of the size a level l + 1 entry maps, in 4KB pages. */
  function Scale(l: nat, j: nat): nat {
    if l == 0 then j else if l == 1 then 512 * j else 0x40000 * j
  }

  /** How far page w is into its large page. */
  function Offset(w: nat, l: nat): nat
    requires l <= 2
    ensures Offset(w, l) + Scale(l, Prefix(w, l)) == w
  {
    assert Prefix(w, 1) == w / 512 && Prefix(w, 2) == w / 512 / 512;
    w - Scale(l, Prefix(w, l))
  }

  lemma PrefixStep(v: nat, l: nat)
    requires l >= 1
    ensures Prefix(v, l - 1) == Prefix(v, l) * 512 + Index(v, l)
  {
  }

  // ------------------------------------------------------------------- the walk

  /** Fault, or the frame and flags of the page and the rights left after and-ing
      the flags of every entry on the way. */
  datatype Translation = Fault | Mapped(frame: nat, flags: Flags, rights: Flags)

  function LeafFrame(e: Entry, level: nat, v: nat): nat
    requires 1 <= level <= 3
  {
    e.frame + Offset(v, level - 1)
  }

  /** The processor's walk from table t at the given level; an entry is present when
      it has a bit of `present` (bit 0 for page tables, bits 2:0 for the EPT). */
  function Walk(mem: Heap, present: Flags, t: nat, level: nat, v: nat): Translation
    requires 1 <= level <= 4
    decreases level
  {
    if t !in mem || |mem[t]| != ENTRIES then Fault
    else
      var e := mem[t][Index(v, level)];
      if e.flags & present == 0 then Fault
      else if IsLeaf(level, e) then Mapped(LeafFrame(e, level, v), e.flags, e.flags)
      else
        match Walk(mem, present, e.frame, level - 1, v)
        case Fault => Fault
        case Mapped(frame, flags, rights) => Mapped(frame, flags, rights & e.flags)
  }

  // ------------------------------------------------------------------- the tree

  function Parent(k: Slot): Slot { Slot(k.level + 1, k.prefix / 512) }

  function Child(k: Slot, i: nat): Slot
    requires k.level >= 1
  {
    Slot(k.level - 1, k.prefix * 512 + i)
  }

  function OnPath(v: nat, l: nat): Slot { Slot(l, Prefix(v, l)) }

  ghost predicate Placed(mem: Heap, at: Tree, k: Slot)
    requires k in at
  {
    1 <= k.level <= 4 && (k.level == 4 ==> k == ROOT) && at[k] in mem && |mem[at[k]]| == ENTRIES
  }

  ghost predicate Distinct(at: Tree, j: Slot, k: Slot)
    requires j in at && k in at
  {
    at[j] == at[k] ==> j == k
  }

  /** Below the root, a table's parent is in the tree and links to it. */
  ghost predicate Hangs(mem: Heap, at: Tree, link: Flags, k: Slot)
    requires k in at
  {
    k.level < 4 ==>
      && Parent(k) in at && at[Parent(k)] in mem && |mem[at[Parent(k)]]| == ENTRIES
      && mem[at[Parent(k)]][k.prefix % 512] == Entry(at[k], link)
  }

  /** An entry is zero, maps a page, or belongs to a table of the tree. */
  ghost predicate EntryOk(mem: Heap, at: Tree, k: Slot, i: nat)
    requires k in at && k.level >= 1 && at[k] in mem && i < |mem[at[k]]|
  {
    mem[at[k]][i] == ZERO || IsLeaf(k.level, mem[at[k]][i]) || Child(k, i) in at
  }

  predicate IsLinkFlags(link: Flags) { link & PAGE_PSE == 0 && link & PAGE_PRESENT != 0 }

  /** The reachable tables form a tree: every table hangs in exactly one place, no
      table page is shared, and every table entry leads to a table of the tree. */
  ghost predicate IsTree(mem: Heap, root: nat, at: Tree, link: Flags) {
    && IsLinkFlags(link)
    && ROOT in at && at[ROOT] == root
    && (forall k {:trigger k in at} | k in at :: Placed(mem, at, k))
    && (forall j, k {:trigger Distinct(at, j, k)} | j in at && k in at :: Distinct(at, j, k))
    && (forall k {:trigger Hangs(mem, at, link, k)} | k in at :: Hangs(mem, at, link, k))
    && (forall k, i: nat {:trigger EntryOk(mem, at, k, i)} | k in at && i < ENTRIES :: EntryOk(mem, at, k, i))
  }

  /** A walk continued through a table entry. */
  function Through(w: Translation, link: Flags): Translation {
    match w
    case Fault => Fault
    case Mapped(frame, flags, rights) => Mapped(frame, flags, rights & link)
  }

  /** A page entry is a fault unless it is present. */
  function PageAt(present: Flags, frame: nat, flags: Flags): Translation {
    if flags & present == 0 then Fault else Mapped(frame, flags, flags)
  }

  /** What the walk makes of the entry it ends at, before the rights are cut down. */
  function AtEntry(present: Flags, e: Entry, level: nat, v: nat): Translation
    requires 1 <= level <= 4
  {
    if IsLeaf(level, e) then PageAt(present, LeafFrame(e, level, v), e.flags) else Fault
  }

  lemma ThroughTwice(w: Translation, link: Flags)
    ensures Through(Through(w, link), link) == Through(w, link)
  {
  }

  lemma WalkThrough(mem: Heap, present: Flags, t: nat, level: nat, v: nat, next: nat, link: Flags)
    requires 2 <= level <= 4 && t in mem && |mem[t]| == ENTRIES
    requires mem[t][Index(v, level)] == Entry(next, link)
    requires IsLinkFlags(link) && link & present != 0
    ensures Walk(mem, present, t, level, v) == Through(Walk(mem, present, next, level - 1, v), link)
  {
  }

  lemma WalkEnds(mem: Heap, present: Flags, t: nat, level: nat, v: nat)
    requires 1 <= level <= 4 && t in mem && |mem[t]| == ENTRIES
    requires var e := mem[t][Index(v, level)]; e == ZERO || IsLeaf(level, e)
    ensures Walk(mem, present, t, level, v) == AtEntry(present, mem[t][Index(v, level)], level, v)
  {
  }

  /** The walk from the root is the walk from any table on the path, with the rights
      cut down to what the links allow. */
  lemma {:induction false} WalkVia(mem: Heap, root: nat, at: Tree, link: Flags, present: Flags, v: nat, l: nat)
    requires IsTree(mem, root, at, link) && link & present != 0
    requires 1 <= l < 4 && OnPath(v, l) in at
    ensures Walk(mem, present, root, 4, v) == Through(Walk(mem, present, at[OnPath(v, l)], l, v), link)
    decreases 4 - l
  {
    var c, k := OnPath(v, l), OnPath(v, l + 1);
    assert Hangs(mem, at, link, c) && Parent(c) == k;
    WalkThrough(mem, present, at[k], l + 1, v, at[c], link);
    if l < 3 {
      WalkVia(mem, root, at, link, present, v, l + 1);
      ThroughTwice(Walk(mem, present, at[c], l, v), link);
    } else {
      assert k == ROOT;
    }
  }

  /** Both heaps hold the same entries along the path of page v. */
  ghost predicate SameAlongPath(mem: Heap, mem': Heap, at: Tree, v: nat, l: nat) {
    forall d {:trigger OnPath(v, d)} | 1 <= d <= l && OnPath(v, d) in at ::
      var t := at[OnPath(v, d)];
      && t in mem && t in mem' && |mem[t]| == |mem'[t]| == ENTRIES
      && mem[t][Index(v, d)] == mem'[t][Index(v, d)]
  }

  /** A walk depends on nothing but the entries along its path. */
  lemma {:induction false} WalkUnaffected(mem: Heap, mem': Heap, root: nat, at: Tree, link: Flags, present: Flags,
                                          v: nat, l: nat)
    requires IsTree(mem, root, at, link) && link & present != 0
    requires 1 <= l <= 4 && OnPath(v, l) in at && SameAlongPath(mem, mem', at, v, l)
    ensures Walk(mem', present, at[OnPath(v, l)], l, v) == Walk(mem, present, at[OnPath(v, l)], l, v)
    decreases l
  {
    var k, c := OnPath(v, l), OnPath(v, l - 1);
    PrefixStep(v, l);
    if l > 1 && c in at {
      assert Hangs(mem, at, link, c) && Parent(c) == k;
      WalkThrough(mem, present, at[k], l, v, at[c], link);
      WalkThrough(mem', present, at[k], l, v, at[c], link);
      WalkUnaffected(mem, mem', root, at, link, present, v, l - 1);
    } else {
      assert EntryOk(mem, at, k, Index(v, l)) && Child(k, Index(v, l)) == c;
      WalkEnds(mem, present, at[k], l, v);
      WalkEnds(mem', present, at[k], l, v);
    }
  }

  lemma PathStartsAtRoot(v: nat)
    requires v < 0x10_0000_0000
    ensures OnPath(v, 4) == ROOT
  {
    assert Prefix(v, 1) < 0x800_0000 && Prefix(v, 2) < 0x4_0000 && Prefix(v, 3) < 0x200 && Prefix(v, 4) == 0;
  }

  // --------------------------------------------------------- writing one entry

  /** mem' is mem after entry i of table k was set to e; tables outside the tree may differ. */
  ghost predicate IsStore(mem: Heap, mem': Heap, at: Tree, k: Slot, i: nat, e: Entry)
    requires k in at && at[k] in mem && i < |mem[at[k]]|
  {
    && at[k] in mem' && mem'[at[k]] == mem[at[k]][i := e]
    && (forall j {:trigger j in at} | j in at && j != k && at[j] in mem :: at[j] in mem' && mem'[at[j]] == mem[at[j]])
  }

  /** Page w is looked up through entry i of table k. */
  predicate Uses(k: Slot, i: nat, w: nat)
    requires k.level >= 1
  {
    OnPath(w, k.level) == k && Index(w, k.level) == i
  }

  /** Writing one entry changes no walk that does not use it. */
  lemma StoreIsLocal(mem: Heap, mem': Heap, root: nat, at: Tree, link: Flags, present: Flags, k: Slot, i: nat,
                     e: Entry, w: nat)
    requires IsTree(mem, root, at, link) && link & present != 0 && w < 0x10_0000_0000
    requires k in at && i < ENTRIES && IsStore(mem, mem', at, k, i, e) && !Uses(k, i, w)
    ensures Walk(mem', present, root, 4, w) == Walk(mem, present, root, 4, w)
  {
    PathStartsAtRoot(w);
    WalkUnaffected(mem, mem', root, at, link, present, w, 4);
  }

  // ------------------------------------------------------------- adding a table

  const EMPTY_TABLE: seq<Entry> := seq(512, _ => ZERO)

  /** A table is missing exactly where the entry for it is not a link. */
  lemma ChildIsLinked(mem: Heap, root: nat, at: Tree, link: Flags, k: Slot, i: nat)
    requires IsTree(mem, root, at, link) && k in at && k.level >= 2 && i < ENTRIES
    ensures Child(k, i) in at ==> mem[at[k]][i] == Entry(at[Child(k, i)], link)
    ensures Child(k, i) !in at ==> mem[at[k]][i] == ZERO || IsLeaf(k.level, mem[at[k]][i])
  {
    assert EntryOk(mem, at, k, i);
    var c := Child(k, i);
    if c in at {
      assert Parent(c) == k && c.prefix % 512 == i && Hangs(mem, at, link, c);
    }
  }

  /** Linking a fresh empty table into a zero entry keeps the tree a tree. */
  lemma GrowKeepsTree(mem: Heap, mem': Heap, root: nat, at: Tree, link: Flags, k: Slot, i: nat, f: nat)
    requires IsTree(mem, root, at, link) && k in at && k.level >= 2 && i < ENTRIES && mem[at[k]][i] == ZERO
    requires IsStore(mem, mem', at, k, i, Entry(f, link)) && f in mem' && mem'[f] == EMPTY_TABLE
    requires forall j | j in at :: at[j] != f
    ensures Child(k, i) !in at && IsTree(mem', root, at[Child(k, i) := f], link)
  {
    ChildIsLinked(mem, root, at, link, k, i);
    var c := Child(k, i);
    var at' := at[c := f];
    assert c !in at;
    forall x, y | x in at' && y in at' ensures Distinct(at', x, y) {
      assert x in at && y in at ==> Distinct(at, x, y);
    }
    forall x | x in at' ensures Hangs(mem', at', link, x) {
      if x != c {
        assert Hangs(mem, at, link, x);
        assert Parent(x) in at ==> Distinct(at, Parent(x), k);
      }
    }
    forall x, j: nat | x in at' && j < ENTRIES ensures EntryOk(mem', at', x, j) {
      if x != c { assert EntryOk(mem, at, x, j) && Distinct(at, x, k); }
    }
  }

  /** ... and changes no translation. */
  lemma GrowKeepsWalks(mem: Heap, mem': Heap, root: nat, at: Tree, link: Flags, present: Flags, k: Slot, i: nat,
                       f: nat, w: nat)
    requires IsTree(mem, root, at, link) && link & present != 0 && w < 0x10_0000_0000
    requires k in at && k.level >= 2 && i < ENTRIES && mem[at[k]][i] == ZERO
    requires IsStore(mem, mem', at, k, i, Entry(f, link)) && f in mem' && mem'[f] == EMPTY_TABLE
    requires forall j | j in at :: at[j] != f
    ensures Walk(mem', present, root, 4, w) == Walk(mem, present, root, 4, w)
  {
    PathStartsAtRoot(w);
    if !Uses(k, i, w) {
      StoreIsLocal(mem, mem', root, at, link, present, k, i, Entry(f, link), w);
    } else {
      GrowKeepsTree(mem, mem', root, at, link, k, i, f);
      var at' := at[Child(k, i) := f];
      PrefixStep(w, k.level);
      WalkVia(mem', root, at', link, present, w, k.level - 1);
      WalkEnds(mem', present, f, k.level - 1, w);
      WalkEnds(mem, present, at[k], k.level, w);
      if k.level < 4 {
        WalkVia(mem, root, at, link, present, w, k.level);
      }
    }
  }

  /** Every page below 2^48 translates the same in both heaps. */
  ghost predicate SameWalks(mem: Heap, mem': Heap, present: Flags, root: nat) {
    forall w: nat | w < 0x10_0000_0000 :: Walk(mem', present, root, 4, w) == Walk(mem, present, root, 4, w)
  }

  /** Both at once, for a heap changed in the two table pages only. */
  lemma GrowKeeps(mem: Heap, mem': Heap, root: nat, at: Tree, link: Flags, present: Flags, k: Slot, i: nat, f: nat)
    requires IsTree(mem, root, at, link) && link & present != 0
    requires k in at && k.level >= 2 && i < ENTRIES && mem[at[k]][i] == ZERO
    requires forall j | j in at :: at[j] != f
    requires mem' == mem[f := EMPTY_TABLE][at[k] := mem[at[k]][i := Entry(f, link)]]
    ensures Child(k, i) !in at && IsTree(mem', root, at[Child(k, i) := f], link) && SameWalks(mem, mem', present, root)
  {
    forall j | j in at && j != k ensures at[j] in mem' && mem'[at[j]] == mem[at[j]] {
      assert Distinct(at, j, k);
    }
    assert IsStore(mem, mem', at, k, i, Entry(f, link));
    GrowKeepsTree(mem, mem', root, at, link, k, i, f);
    forall w: nat | w < 0x10_0000_0000 ensures Walk(mem', present, root, 4, w) == Walk(mem, present, root, 4, w) {
      GrowKeepsWalks(mem, mem', root, at, link, present, k, i, f, w);
    }
  }

  lemma TableShape(mem: Heap, root: nat, at: Tree, link: Flags, k: Slot)
    requires IsTree(mem, root, at, link) && k in at
    ensures at[k] in mem && |mem[at[k]]| == ENTRIES && 1 <= k.level <= 4 && IsLinkFlags(link)
  {
  }

  // ------------------------------------------------ writing or clearing a page

  function Up(prefix: nat, n: nat): nat {
    if n == 0 then prefix else Up(prefix / 512, n - 1)
  }

  /** Table s is the one at c or lies below it. */
  predicate Under(c: Slot, s: Slot) {
    s.level <= c.level && Up(s.prefix, c.level - s.level) == c.prefix
  }

  /** The tree without the subtree at c. */
  function Prune(at: Tree, c: Slot): Tree {
    map s | s in at && !Under(c, s) :: at[s]
  }

  /** Writing a page entry, or clearing one, keeps the tree a tree; a table that hung
      in the entry is no longer part of it. */
  lemma SetKeepsTree(mem: Heap, mem': Heap, root: nat, at: Tree, link: Flags, k: Slot, i: nat, e: Entry)
    requires IsTree(mem, root, at, link) && k in at && k.level <= 3 && i < ENTRIES
    requires e == ZERO || IsLeaf(k.level, e)
    requires IsStore(mem, mem', at, k, i, e)
    ensures IsTree(mem', root, Prune(at, Child(k, i)), link)
  {
    var c := Child(k, i);
    var at' := Prune(at, c);
    assert Parent(c) == k && c.prefix % 512 == i;
    forall x, y | x in at' && y in at' ensures Distinct(at', x, y) {
      assert Distinct(at, x, y);
    }
    forall x | x in at' ensures Hangs(mem', at', link, x) {
      assert Hangs(mem, at, link, x);
      if x.level < 4 {
        assert Distinct(at, Parent(x), k);
        assert Under(c, Parent(x)) ==> Under(c, x);
        assert Parent(x) == k && x.prefix % 512 == i ==> x == c && Under(c, x);
      }
    }
    forall x, j: nat | x in at' && j < ENTRIES ensures EntryOk(mem', at', x, j) {
      assert EntryOk(mem, at, x, j) && Distinct(at, x, k);
      if x.level >= 1 {
        UnderChild(c, x, j);
      }
    }
  }

  lemma UnderChild(c: Slot, x: Slot, j: nat)
    requires x.level >= 1 && j < 512 && !Under(c, x)
    ensures Under(c, Child(x, j)) ==> Child(x, j) == c
  {
    assert (x.prefix * 512 + j) / 512 == x.prefix;
  }

  /** After a page entry is written, exactly the pages looked up through it change,
      and they get what the entry says. */
  lemma SetChangesWalks(mem: Heap, mem': Heap, root: nat, at: Tree, link: Flags, present: Flags, k: Slot, i: nat,
                        e: Entry, w: nat)
    requires IsTree(mem, root, at, link) && link & present != 0 && w < 0x10_0000_0000
    requires k in at && k.level <= 3 && i < ENTRIES && (e == ZERO || IsLeaf(k.level, e))
    requires IsStore(mem, mem', at, k, i, e)
    ensures Walk(mem', present, root, 4, w) ==
            if Uses(k, i, w) then Through(AtEntry(present, e, k.level, w), link) else Walk(mem, present, root, 4, w)
  {
    if Uses(k, i, w) {
      SetKeepsTree(mem, mem', root, at, link, k, i, e);
      var at' := Prune(at, Child(k, i));
      assert k in at';
      WalkVia(mem', root, at', link, present, w, k.level);
      WalkEnds(mem', present, at[k], k.level, w);
    } else {
      StoreIsLocal(mem, mem', root, at, link, present, k, i, e, w);
    }
  }

  /** After entry e was written for large or small page u of the size mapped at level
      l, the pages inside u translate through e and all others as before. */
  ghost predicate Remaps(mem: Heap, mem': Heap, present: Flags, link: Flags, root: nat, l: nat, u: nat, e: Entry)
    requires 1 <= l <= 3
  {
    forall w: nat | w < 0x10_0000_0000 ::
      Walk(mem', present, root, 4, w) ==
      if Prefix(w, l - 1) == u then Through(AtEntry(present, e, l, w), link) else Walk(mem, present, root, 4, w)
  }

  /** The pages looked up through the entry for v at level l are those that share v's prefix. */
  lemma UsesIffSamePage(v: nat, l: nat, w: nat)
    requires 1 <= l
    ensures Uses(OnPath(v, l), Index(v, l), w) <==> Prefix(w, l - 1) == Prefix(v, l - 1)
  {
    PrefixStep(v, l);
    PrefixStep(w, l);
  }

  lemma SetKeeps(mem: Heap, mem': Heap, root: nat, at: Tree, link: Flags, present: Flags, v: nat, l: nat, e: Entry)
    requires IsTree(mem, root, at, link) && link & present != 0
    requires 1 <= l <= 3 && OnPath(v, l) in at && (e == ZERO || IsLeaf(l, e))
    requires at[OnPath(v, l)] in mem && |mem[at[OnPath(v, l)]]| == ENTRIES
    requires mem' == mem[at[OnPath(v, l)] := mem[at[OnPath(v, l)]][Index(v, l) := e]]
    ensures IsTree(mem', root, Prune(at, OnPath(v, l - 1)), link)
    ensures Remaps(mem, mem', present, link, root, l, Prefix(v, l - 1), e)
  {
    var k, i := OnPath(v, l), Index(v, l);
    PrefixStep(v, l);
    assert Child(k, i) == OnPath(v, l - 1);
    forall j | j in at && j != k ensures at[j] in mem' && mem'[at[j]] == mem[at[j]] {
      assert Distinct(at, j, k);
    }
    assert IsStore(mem, mem', at, k, i, e);
    SetKeepsTree(mem, mem', root, at, link, k, i, e);
    forall w: nat | w < 0x10_0000_0000
      ensures Walk(mem', present, root, 4, w) ==
        if Prefix(w, l - 1) == Prefix(v, l - 1) then Through(AtEntry(present, e, l, w), link)
        else Walk(mem, present, root, 4, w)
    {
      UsesIffSamePage(v, l, w);
      SetChangesWalks(mem, mem', root, at, link, present, k, i, e, w);
    }
  }

  // ------------------------------------------------------------------- regions

  lemma PrefixAdd(v: nat, l: nat, j: nat)
    requires l <= 2
    ensures Prefix(v + Scale(l, j), l) == Prefix(v, l) + j
  {
    PrefixValues(v);
    PrefixValues(v + Scale(l, j));
  }

  lemma PrefixValues(v: nat)
    ensures Prefix(v, 0) == v && Prefix(v, 1) == v / 512 && Prefix(v, 2) == v / 512 / 512
  {
    assert Prefix(v, 0) == v;
    assert Prefix(v, 1) == Prefix(v, 0) / 512;
    assert Prefix(v, 2) == Prefix(v, 1) / 512;
  }

  /** Where page w goes when pages of the level-l size are mapped one after the other
      from large or small page u on, starting at frame f. */
  function Target(present: Flags, link: Flags, l: nat, f: nat, u: nat, flags: Flags, w: nat): Translation
    requires 1 <= l <= 3 && u <= Prefix(w, l - 1)
  {
    assert Offset(w, l - 1) + Scale(l - 1, Prefix(w, l - 1)) == w;
    Through(PageAt(present, f + (w - Scale(l - 1, u)), flags), link)
  }

  lemma ScaleDiff(l: nat, a: nat, b: nat)
    requires b <= a
    ensures Scale(l, a - b) + Scale(l, b) == Scale(l, a)
  {
  }

  lemma TargetIsEntry(present: Flags, link: Flags, l: nat, f: nat, u: nat, flags: Flags, w: nat)
    requires 1 <= l <= 3 && u <= Prefix(w, l - 1) && IsLeaf(l, Entry(0, flags))
    ensures Through(AtEntry(present, Entry(f + Scale(l - 1, Prefix(w, l - 1) - u), flags), l, w), link)
         == Target(present, link, l, f, u, flags, w)
  {
    hide Prefix, Scale, IsLarge, PageAt, Through;
    ScaleDiff(l - 1, Prefix(w, l - 1), u);
    LargeByFlags(Entry(f + Scale(l - 1, Prefix(w, l - 1) - u), flags), flags);
  }

  lemma LargeByFlags(e: Entry, flags: Flags)
    requires e.flags == flags
    ensures IsLarge(e) == IsLarge(Entry(0, flags))
  {
  }

  /** n pages of the level-l size from u on go to consecutive frames from f on, with the
      given flags; every other page translates as before. */
  ghost predicate RegionMapped(mem: Heap, mem': Heap, present: Flags, link: Flags, root: nat,
                               l: nat, f: nat, u: nat, n: nat, flags: Flags)
    requires 1 <= l <= 3
  {
    forall w: nat | w < 0x10_0000_0000 ::
      Walk(mem', present, root, 4, w) ==
      if u <= Prefix(w, l - 1) < u + n then Target(present, link, l, f, u, flags, w) else Walk(mem, present, root, 4, w)
  }

  lemma RegionStep(m0: Heap, m1: Heap, m2: Heap, m3: Heap, present: Flags, link: Flags, root: nat,
                   l: nat, f: nat, u: nat, n: nat, flags: Flags)
    requires 1 <= l <= 3 && IsLeaf(l, Entry(0, flags))
    requires RegionMapped(m0, m1, present, link, root, l, f, u, n, flags) && SameWalks(m1, m2, present, root)
    requires Remaps(m2, m3, present, link, root, l, u + n, Entry(f + Scale(l - 1, n), flags))
    ensures RegionMapped(m0, m3, present, link, root, l, f, u, n + 1, flags)
  {
    hide Walk, Target, AtEntry, Through;
    forall w: nat | w < 0x10_0000_0000
      ensures Walk(m3, present, root, 4, w) ==
        if u <= Prefix(w, l - 1) < u + (n + 1) then Target(present, link, l, f, u, flags, w)
        else Walk(m0, present, root, 4, w)
    {
      if Prefix(w, l - 1) == u + n {
        TargetIsEntry(present, link, l, f, u, flags, w);
      }
    }
  }

  // ------------------------------------------------------------------- clearing

  /** The level at which the tables stop for page v: the first zero or page entry. */
  function EndLevel(mem: Heap, t: nat, level: nat, v: nat): (d: nat)
    requires 1 <= level <= 4
    ensures 1 <= d <= level
    decreases level
  {
    if level == 1 || t !in mem || |mem[t]| != ENTRIES then level
    else
      var e := mem[t][Index(v, level)];
      if e == ZERO || IsLeaf(level, e) then level else EndLevel(mem, e.frame, level - 1, v)
  }

  /** The tables on v's path are in the tree down to the level where they stop, and
      the next one is not. */
  lemma {:induction false} EndsInTree(mem: Heap, root: nat, at: Tree, link: Flags, v: nat, l: nat)
    requires IsTree(mem, root, at, link) && 1 <= l <= 4 && OnPath(v, l) in at
    ensures var d := EndLevel(mem, at[OnPath(v, l)], l, v);
      OnPath(v, d) in at && OnPath(v, d - 1) !in at
    decreases l
  {
    var k, c := OnPath(v, l), OnPath(v, l - 1);
    PrefixStep(v, l);
    assert Placed(mem, at, k) && Child(k, Index(v, l)) == c;
    if l == 1 {
      assert c in at ==> Placed(mem, at, c);
    } else {
      ChildIsLinked(mem, root, at, link, k, Index(v, l));
      if c in at {
        EndsInTree(mem, root, at, link, v, l - 1);
      }
    }
  }

  lemma {:induction false} UnderInTree(mem: Heap, root: nat, at: Tree, link: Flags, c: Slot, s: Slot)
    requires IsTree(mem, root, at, link) && s in at && c.level <= 3 && Under(c, s)
    ensures c in at
    decreases c.level - s.level
  {
    if s.level < c.level {
      assert Hangs(mem, at, link, s);
      UnderInTree(mem, root, at, link, c, Parent(s));
    }
  }

  lemma PruneNothing(mem: Heap, root: nat, at: Tree, link: Flags, c: Slot)
    requires IsTree(mem, root, at, link) && c !in at && c.level <= 3
    ensures Prune(at, c) == at
  {
    forall s | s in at ensures !Under(c, s) {
      if Under(c, s) { UnderInTree(mem, root, at, link, c, s); }
    }
  }

  /** After unmapping page v, whose tables stop at level d, exactly the page of that
      level around v is gone. */
  ghost predicate Unmapped(mem: Heap, mem': Heap, present: Flags, root: nat, d: nat, v: nat)
    requires d >= 1
  {
    forall w: nat | w < 0x10_0000_0000 ::
      Walk(mem', present, root, 4, w) == if Prefix(w, d - 1) == Prefix(v, d - 1) then Fault else Walk(mem, present,
          root, 4, w)
  }

  lemma ClearKeeps(mem: Heap, mem': Heap, root: nat, at: Tree, link: Flags, present: Flags, v: nat, d: nat)
    requires IsTree(mem, root, at, link) && link & present != 0
    requires 1 <= d <= 3 && OnPath(v, d) in at && OnPath(v, d - 1) !in at
    requires at[OnPath(v, d)] in mem && |mem[at[OnPath(v, d)]]| == ENTRIES
    requires mem' == mem[at[OnPath(v, d)] := mem[at[OnPath(v, d)]][Index(v, d) := ZERO]]
    ensures IsTree(mem', root, at, link) && Unmapped(mem, mem', present, root, d, v)
  {
    SetKeeps(mem, mem', root, at, link, present, v, d, ZERO);
    PruneNothing(mem, root, at, link, OnPath(v, d - 1));
  }

  /** Where the tables stop at a zero entry there was nothing to unmap. */
  lemma NothingToClear(mem: Heap, root: nat, at: Tree, link: Flags, present: Flags, v: nat, d: nat)
    requires IsTree(mem, root, at, link) && link & present != 0 && v < 0x10_0000_0000
    requires 1 <= d <= 4 && OnPath(v, d) in at && OnPath(v, d - 1) !in at
    requires at[OnPath(v, d)] in mem && |mem[at[OnPath(v, d)]]| == ENTRIES && mem[at[OnPath(v, d)]][Index(v, d)] == ZERO
    ensures Unmapped(mem, mem, present, root, d, v)
  {
    if d <= 3 {
      var t := at[OnPath(v, d)];
      assert mem[t][Index(v, d) := ZERO] == mem[t];
      assert mem == mem[t := mem[t][Index(v, d) := ZERO]];
      ClearKeeps(mem, mem, root, at, link, present, v, d);
    } else {
      PathStartsAtRoot(v);
      forall w: nat | w < 0x10_0000_0000 && Prefix(w, 3) == Prefix(v, 3)
        ensures Walk(mem, present, root, 4, w) == Fault
      {
        PathStartsAtRoot(w);
        WalkEnds(mem, present, root, 4, w);
      }
    }
  }

  // --------------------------------------------------- changes outside the tree

  /** A tree and its walks depend on the tree's own table pages only. */
  lemma TreeFrame(mem: Heap, mem': Heap, root: nat, at: Tree, link: Flags)
    requires IsTree(mem, root, at, link)
    requires forall k | k in at :: at[k] in mem' && mem'[at[k]] == mem[at[k]]
    ensures IsTree(mem', root, at, link)
  {
    forall k | k in at ensures Hangs(mem', at, link, k) {
      assert Hangs(mem, at, link, k);
    }
    forall k, i: nat | k in at && i < ENTRIES ensures EntryOk(mem', at, k, i) {
      assert EntryOk(mem, at, k, i);
    }
  }

  lemma WalkFrame(mem: Heap, mem': Heap, root: nat, at: Tree, link: Flags, present: Flags)
    requires IsTree(mem, root, at, link) && link & present != 0
    requires forall k | k in at :: at[k] in mem' && mem'[at[k]] == mem[at[k]]
    ensures SameWalks(mem, mem', present, root)
  {
    forall w: nat | w < 0x10_0000_0000 ensures Walk(mem', present, root, 4, w) == Walk(mem, present, root, 4, w) {
      PathStartsAtRoot(w);
      WalkUnaffected(mem, mem', root, at, link, present, w, 4);
    }
  }
}
