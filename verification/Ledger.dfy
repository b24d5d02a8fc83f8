/** Book-keeping of who holds which block: the reference count of a block is the
    number of its holders. Code and rodata may have several holders, every other
    section and every table page has exactly one. */
module Ledger {
  import opened BlockList
  import opened PageAllocator
  import opened PageWalk
  import opened Pmap

  /** Blocks held, by frame: those that may be shared, those that may not, and table pages. */
  datatype Held = Held(shared: multiset<nat>, own: multiset<nat>, tables: multiset<nat>)

  const NOTHING: Held := Held(multiset{}, multiset{}, multiset{})

  function Plus(a: Held, b: Held): Held {
    Held(a.shared + b.shared, a.own + b.own, a.tables + b.tables)
  }

  /** What holding an address means for the books; address 0 stands for nothing. */
  function Frame(paddr: nat): multiset<nat> {
    if paddr == 0 then multiset{} else multiset{paddr / 0x1000}
  }

  function Gain(h: Held, own: bool, paddr: nat): Held {
    if own then h.(own := h.own + Frame(paddr)) else h.(shared := h.shared + Frame(paddr))
  }

  function Lose(h: Held, own: bool, paddr: nat): Held {
    if own then h.(own := h.own - Frame(paddr)) else h.(shared := h.shared - Frame(paddr))
  }

  /** The address is among what is held. */
  predicate Has(h: Held, own: bool, paddr: nat) {
    Frame(paddr) <= if own then h.own else h.shared
  }

  function RefOf(blocks: map<nat, Block>, f: nat): nat {
    if f in blocks then blocks[f].ref else 0
  }

  /** The number of holders of frame f. */
  function Holders(h: Held, f: nat): nat { h.shared[f] + h.own[f] + h.tables[f] }

  ghost predicate Referenced(blocks: map<nat, Block>) {
    forall f {:trigger f in blocks} | f in blocks :: blocks[f].ref >= 1
  }

  /** Starting from `base`, exactly what h says is held. */
  ghost predicate Books(blocks: map<nat, Block>, base: map<nat, Block>, h: Held) {
    && (forall f: nat {:trigger RefOf(blocks, f)} :: RefOf(blocks, f) == RefOf(base, f) + Holders(h, f))
    && (forall f {:trigger f in base} | f in base :: f in blocks && blocks[f].pages == base[f].pages)
    && (forall f: nat {:trigger h.own[f]} | h.own[f] > 0 :: f in blocks && blocks[f].ref == 1)
    && (forall f: nat {:trigger h.tables[f]} | h.tables[f] > 0 :: f in blocks && blocks[f] == Block(1, 1))
    && Referenced(blocks) && Referenced(base)
  }

  /** With nothing held any more, the live blocks are those of the start. */
  lemma BooksSettled(blocks: map<nat, Block>, base: map<nat, Block>)
    requires Books(blocks, base, NOTHING)
    ensures blocks == base
  {
    forall f | f in blocks ensures f in base && blocks[f] == base[f] {
      assert RefOf(blocks, f) == RefOf(base, f) + Holders(NOTHING, f);
    }
  }

  /** Frame g is held the same way before and after. */
  predicate Agree(h: Held, h': Held, g: nat) {
    h.shared[g] == h'.shared[g] && h.own[g] == h'.own[g] && h.tables[g] == h'.tables[g]
  }

  /** What the books say about one frame. */
  predicate BooksFor(blocks: map<nat, Block>, base: map<nat, Block>, h: Held, f: nat) {
    && RefOf(blocks, f) == RefOf(base, f) + Holders(h, f)
    && (f in base ==> f in blocks && blocks[f].pages == base[f].pages)
    && (h.own[f] > 0 ==> f in blocks && blocks[f].ref == 1)
    && (h.tables[f] > 0 ==> f in blocks && blocks[f] == Block(1, 1))
    && (f in blocks ==> blocks[f].ref >= 1)
  }

  lemma BooksAt(blocks: map<nat, Block>, base: map<nat, Block>, h: Held, f: nat)
    requires Books(blocks, base, h)
    ensures BooksFor(blocks, base, h, f)
  {
    assert RefOf(blocks, f) == RefOf(base, f) + Holders(h, f);
    assert h.own[f] > 0 ==> f in blocks;
    assert h.tables[f] > 0 ==> f in blocks;
  }

  lemma BooksFrom(blocks: map<nat, Block>, base: map<nat, Block>, h: Held)
    requires forall f: nat {:trigger BooksFor(blocks, base, h, f)} :: BooksFor(blocks, base, h, f)
    requires Referenced(base)
    ensures Books(blocks, base, h)
  {
    forall f: nat ensures RefOf(blocks, f) == RefOf(base, f) + Holders(h, f) { assert BooksFor(blocks, base, h, f); }
    forall f: nat | h.own[f] > 0 ensures f in blocks && blocks[f].ref == 1 { assert BooksFor(blocks, base, h, f); }
    forall f: nat | h.tables[f] > 0
      ensures f in blocks && blocks[f] == Block(1, 1)
    {
      assert BooksFor(blocks, base, h, f);
    }
    forall f | f in blocks ensures blocks[f].ref >= 1 { assert BooksFor(blocks, base, h, f); }
    forall f | f in base
      ensures f in blocks && blocks[f].pages == base[f].pages
    {
      assert BooksFor(blocks, base, h, f);
    }
  }

  /** A change at one frame. */
  lemma BooksChange(blocks: map<nat, Block>, after: map<nat, Block>, base: map<nat, Block>, h: Held, h': Held, f: nat)
    requires Books(blocks, base, h) && BooksFor(after, base, h', f)
    requires forall g: nat {:trigger Agree(h, h', g)} | g != f :: Agree(h, h', g)
    requires forall g: nat {:trigger RefOf(after, g)} | g != f ::
      (g in after <==> g in blocks) && (g in after ==> after[g] == blocks[g])
    ensures Books(after, base, h')
  {
    assert Referenced(base);
    forall g: nat ensures BooksFor(after, base, h', g) {
      hide Books;
      if g != f {
        BooksAt(blocks, base, h, g);
        assert Agree(h, h', g);
        assert RefOf(after, g) == RefOf(blocks, g);
      }
    }
    BooksFrom(after, base, h');
  }

  lemma GainAgrees(h: Held, own: bool, paddr: nat)
    ensures forall g: nat {:trigger Agree(h, Gain(h, own, paddr), g)} | g != paddr / 0x1000 ::
      Agree(h, Gain(h, own, paddr), g)
    ensures forall g: nat {:trigger Agree(h, Lose(h, own, paddr), g)} | g != paddr / 0x1000 ::
      Agree(h, Lose(h, own, paddr), g)
  {
  }

  lemma BooksTake(blocks: map<nat, Block>, base: map<nat, Block>, h: Held, own: bool, paddr: nat, n: nat)
    requires Books(blocks, base, h) && paddr != 0 && paddr / 0x1000 !in blocks
    ensures Books(blocks[paddr / 0x1000 := Block(n, 1)], base, Gain(h, own, paddr))
  {
    hide Books;
    BooksAt(blocks, base, h, paddr / 0x1000);
    GainAgrees(h, own, paddr);
    BooksChange(blocks, blocks[paddr / 0x1000 := Block(n, 1)], base, h, Gain(h, own, paddr), paddr / 0x1000);
  }

  /** A held section is a live block, and no table page; if it may not be shared, this is
      its only holder. */
  lemma BooksHeld(blocks: map<nat, Block>, base: map<nat, Block>, h: Held, own: bool, paddr: nat)
    requires Books(blocks, base, h) && paddr != 0 && Has(h, own, paddr)
    ensures paddr / 0x1000 in blocks && h.tables[paddr / 0x1000] == 0
    ensures blocks[paddr / 0x1000].ref == RefOf(base, paddr / 0x1000) + h.shared[paddr / 0x1000] + h.own[paddr / 0x1000]
    ensures own ==> blocks[paddr / 0x1000].ref == 1 && h.shared[paddr / 0x1000] == 0
    ensures !own ==> h.own[paddr / 0x1000] == 0
  {
    hide Books;
    BooksAt(blocks, base, h, paddr / 0x1000);
    assert Frame(paddr)[paddr / 0x1000] == 1;
  }

  lemma BooksRetain(blocks: map<nat, Block>, base: map<nat, Block>, h: Held, paddr: nat)
    requires Books(blocks, base, h) && paddr != 0 && Has(h, false, paddr) && paddr / 0x1000 in blocks
    ensures Books(Retained(blocks, paddr / 0x1000), base, Gain(h, false, paddr))
  {
    hide Books;
    BooksHeld(blocks, base, h, false, paddr);
    BooksAt(blocks, base, h, paddr / 0x1000);
    GainAgrees(h, false, paddr);
    BooksChange(blocks, Retained(blocks, paddr / 0x1000), base, h, Gain(h, false, paddr), paddr / 0x1000);
  }

  lemma BooksRelease(blocks: map<nat, Block>, base: map<nat, Block>, h: Held, own: bool, paddr: nat)
    requires Books(blocks, base, h) && paddr != 0 && Has(h, own, paddr) && paddr / 0x1000 in blocks
    ensures Books(Released(blocks, paddr / 0x1000), base, Lose(h, own, paddr))
  {
    hide Books;
    BooksHeld(blocks, base, h, own, paddr);
    BooksAt(blocks, base, h, paddr / 0x1000);
    GainAgrees(h, own, paddr);
    assert Frame(paddr)[paddr / 0x1000] == 1;
    assert paddr / 0x1000 in base ==> base[paddr / 0x1000].ref >= 1 by { BooksBase(blocks, base, h); }
    BooksChange(blocks, Released(blocks, paddr / 0x1000), base, h, Lose(h, own, paddr), paddr / 0x1000);
  }

  lemma BooksBase(blocks: map<nat, Block>, base: map<nat, Block>, h: Held)
    requires Books(blocks, base, h)
    ensures Referenced(base)
  {
  }

  /** Table pages taken for the trees of a VM. */
  lemma BooksExtend(blocks: map<nat, Block>, after: map<nat, Block>, base: map<nat, Block>, h: Held, added: set<nat>)
    requires Books(blocks, base, h) && Extends(blocks, after, added)
    ensures Books(after, base, h.(tables := h.tables + multiset(added)))
  {
    var h' := h.(tables := h.tables + multiset(added));
    BooksBase(blocks, base, h);
    forall g: nat ensures BooksFor(after, base, h', g) {
      hide Books;
      BooksAt(blocks, base, h, g);
    }
    BooksFrom(after, base, h');
  }

  /** Table pages given back. */
  lemma BooksRemove(blocks: map<nat, Block>, base: map<nat, Block>, h: Held, gone: set<nat>)
    requires Books(blocks, base, h) && multiset(gone) <= h.tables
    ensures Books(blocks - gone, base, h.(tables := h.tables - multiset(gone)))
  {
    var after, h' := blocks - gone, h.(tables := h.tables - multiset(gone));
    BooksBase(blocks, base, h);
    forall g: nat ensures BooksFor(after, base, h', g) {
      hide Books;
      BooksAt(blocks, base, h, g);
      assert g in gone ==> multiset(gone)[g] == 1 <= h.tables[g];
      assert g in base ==> RefOf(base, g) >= 1;
    }
    BooksFrom(after, base, h');
  }

  // ------------------------------------------------------------ totals over VMs

  /** What the VMs with ids below n hold together. */
  ghost function Total(h: map<nat, Held>, n: nat): Held {
    if n == 0 then NOTHING
    else Plus(Total(h, n - 1), if n - 1 in h then h[n - 1] else NOTHING)
  }

  lemma PlusSwap(a: Held, b: Held, c: Held)
    ensures Plus(Plus(a, b), c) == Plus(Plus(a, c), b)
  {
    assert a.shared + b.shared + c.shared == a.shared + c.shared + b.shared;
    assert a.own + b.own + c.own == a.own + c.own + b.own;
    assert a.tables + b.tables + c.tables == a.tables + c.tables + b.tables;
  }

  lemma PlusNothing(a: Held)
    ensures Plus(a, NOTHING) == a
  {
  }

  lemma {:induction false} TotalWithout(h: map<nat, Held>, n: nat, c: nat)
    requires c < n && c in h
    ensures Total(h, n) == Plus(Total(h - {c}, n), h[c])
    decreases n
  {
    hide Plus;
    if c == n - 1 {
      TotalSame(h, h - {c}, n - 1);
      PlusNothing(Total(h, n - 1));
    } else {
      TotalWithout(h, n - 1, c);
      PlusSwap(Total(h - {c}, n - 1), h[c], if n - 1 in h then h[n - 1] else NOTHING);
    }
  }

  lemma {:induction false} TotalSame(g: map<nat, Held>, h: map<nat, Held>, n: nat)
    requires forall c | 0 <= c < n :: (c in g <==> c in h) && (c in g ==> g[c] == h[c])
    ensures Total(g, n) == Total(h, n)
    decreases n
  {
    if n > 0 {
      TotalSame(g, h, n - 1);
    }
  }

  /** A VM that held nothing starts to hold m. */
  lemma TotalAdd(h: map<nat, Held>, n: nat, c: nat, m: Held)
    requires c < n && c !in h
    ensures Total(h[c := m], n) == Plus(Total(h, n), m)
  {
    TotalWithout(h[c := m], n, c);
    assert h[c := m] - {c} == h;
  }

  /** No frame has more than b holders per VM. */
  lemma {:induction false} TotalBound(h: map<nat, Held>, n: nat, f: nat, b: nat)
    requires forall c | c in h :: h[c].shared[f] <= b
    ensures Total(h, n).shared[f] <= b * n
    decreases n
  {
    if n > 0 {
      TotalBound(h, n - 1, f, b);
      assert b * n == b * (n - 1) + b;
    }
  }

  lemma {:induction false} TotalEmpty(n: nat)
    ensures Total(map[], n) == NOTHING
    decreases n
  {
    if n > 0 {
      TotalEmpty(n - 1);
    }
  }
}
