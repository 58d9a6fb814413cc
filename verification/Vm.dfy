/** Sv39 page tables and the page allocator (kernel/vm.c, kernel/kalloc.c, kernel/riscv.h:336-367),
    as values: a page table is a tree of pages that stands for a finite map from virtual pages
    to page-table entries, and every page of memory has one use. */
module VmSpec {
  import opened Blocks
  import opened Prelude

  const PGSIZE: nat := 4096
  const ENTRIES: nat := 512
  const MAXVA: nat := 0x40_0000_0000
  const VPAGES: nat := MAXVA / PGSIZE

  datatype Pte = Pte(ppn: nat, v: bool, r: bool, w: bool, x: bool, u: bool)

  function NoPte(): (e: Pte) {
    Pte(0, false, false, false, false, false)
  }

  /** An entry that points to a page table of the next level. */
  function TablePte(q: nat): (e: Pte) {
    Pte(q, true, false, false, false, false)
  }

  predicate IsLeaf(e: Pte) {
    e.v && (e.r || e.w || e.x)
  }

  /** A page on the free list, a page of entries, or a page of bytes. */
  datatype Page = Run(next: nat) | Table(ptes: seq<Pte>) | Data(bytes: seq<Byte>)

  function EmptyTable(): (p: Page)
    ensures p.Table? && |p.ptes| == ENTRIES && forall i :: 0 <= i < ENTRIES ==> p.ptes[i] == NoPte()
  {
    Table(seq(ENTRIES, _ => NoPte()))
  }

  /** The places of page-table pages in a tree of three levels. */
  datatype Path = Root | Mid(i: nat) | Low(i: nat, j: nat)

  predicate WellPath(p: Path) {
    match p
    case Root => true
    case Mid(i) => i < ENTRIES
    case Low(i, j) => i < ENTRIES && j < ENTRIES
  }

  /** The page table that entry i of p points to. */
  function Kid(p: Path, i: nat): (q: Path)
    requires !p.Low?
  {
    if p.Root? then Mid(i) else Low(p.i, i)
  }

  function Parent(p: Path): (q: Path) {
    if p.Low? then Mid(p.i) else Root
  }

  /** Which entry of its parent points to p. */
  function Slot(p: Path): (i: nat) {
    match p
    case Root => 0
    case Mid(i) => i
    case Low(_, j) => j
  }

  /** What a page is used for: page table `path` of the space with that root, user page n of
      that space, nothing, or something the kernel holds. */
  datatype Use = Free | Tab(root: nat, path: Path) | User(root: nat, n: nat) | Kept

  /** Memory: the free list's head, the pages, the free list, the uses, and for each root the
      pages of its tree. */
  datatype Mem = Mem(head: nat, page: map<nat, Page>, chain: seq<nat>, own: map<nat, Use>,
                     spaces: map<nat, map<Path, nat>>)

  predicate IsTable(page: map<nat, Page>, q: nat) {
    q in page && page[q].Table? && |page[q].ptes| == ENTRIES
  }

  /** The bottom page table for virtual page n. */
  function LowOf(n: nat): (p: Path) {
    Low(n / ENTRIES / ENTRIES, n / ENTRIES % ENTRIES)
  }

  /** The entry for virtual page n in the tree `tab`, if it is there and valid. */
  function Find(page: map<nat, Page>, tab: map<Path, nat>, n: nat): (r: Option<Pte>) {
    var p := LowOf(n);
    if p in tab && IsTable(page, tab[p]) && page[tab[p]].ptes[n % ENTRIES].v
    then Some(page[tab[p]].ptes[n % ENTRIES]) else None
  }

  function Leaf(m: Mem, r: nat, n: nat): (e: Option<Pte>)
    requires r in m.spaces
  {
    Find(m.page, m.spaces[r], n)
  }

  /** The finite map that the tree stands for. */
  ghost function Leaves(m: Mem, r: nat): (t: map<nat, Pte>)
    requires r in m.spaces
  {
    map n: nat | n < VPAGES && Leaf(m, r, n).Some? :: Leaf(m, r, n).value
  }

  // ---- well-formed memory ------------------------------------------------------------------------

  predicate RunOk(m: Mem, i: nat)
    requires i < |m.chain|
  {
    var q := m.chain[i];
    && q in m.own && m.own[q] == Free && q in m.page
    && m.page[q] == Run(if i + 1 < |m.chain| then m.chain[i + 1] else 0)
  }

  predicate Apart(m: Mem, i: nat, j: nat)
    requires i < |m.chain| && j < |m.chain|
  {
    i != j ==> m.chain[i] != m.chain[j]
  }

  predicate PageOk(m: Mem, q: nat)
    requires q in m.own
  {
    && q != 0 && q in m.page
    && match m.own[q]
       case Free => q in m.chain
       case Tab(r, p) => r in m.spaces && p in m.spaces[r] && m.spaces[r][p] == q
       case User(r, n) =>
         && r in m.spaces && n < VPAGES && Leaf(m, r, n).Some? && Leaf(m, r, n).value.ppn == q
         && m.page[q].Data? && |m.page[q].bytes| == PGSIZE
       case Kept => true
  }

  /** The free list is a duplicate-free list of exactly the free pages, and every other use
      is as the page says. */
  ghost predicate HeapOk(m: Mem) {
    && m.head == (if m.chain == [] then 0 else m.chain[0])
    && (forall i: nat {:trigger RunOk(m, i)} :: i < |m.chain| ==> RunOk(m, i))
    && (forall i: nat, j: nat {:trigger Apart(m, i, j)} :: i < |m.chain| && j < |m.chain| ==> Apart(m, i, j))
    && (forall q {:trigger PageOk(m, q)} :: q in m.own ==> PageOk(m, q))
  }

  predicate NodeOk(m: Mem, r: nat, p: Path)
    requires r in m.spaces && p in m.spaces[r]
  {
    var q := m.spaces[r][p];
    && WellPath(p) && Parent(p) in m.spaces[r] && q in m.own && m.own[q] == Tab(r, p) && IsTable(m.page, q)
  }

  predicate EntOk(page: map<nat, Page>, tab: map<Path, nat>, p: Path, i: nat)
    requires p in tab && i < ENTRIES
  {
    && IsTable(page, tab[p])
    && var e := page[tab[p]].ptes[i];
    if p.Low? then !e.v || IsLeaf(e)
    else if Kid(p, i) in tab then e == TablePte(tab[Kid(p, i)])
    else !e.v
  }

  /** The tree with root r: entries point to exactly the page tables there are. */
  ghost predicate SpaceOk(m: Mem, r: nat) {
    && r in m.spaces && Root in m.spaces[r] && m.spaces[r][Root] == r
    && (forall p {:trigger NodeOk(m, r, p)} :: p in m.spaces[r] ==> NodeOk(m, r, p))
    && (forall p, i: nat {:trigger EntOk(m.page, m.spaces[r], p, i)} ::
          p in m.spaces[r] && i < ENTRIES ==> EntOk(m.page, m.spaces[r], p, i))
  }

  ghost predicate Inv(m: Mem) {
    HeapOk(m) && forall r {:trigger SpaceOk(m, r)} :: r in m.spaces ==> SpaceOk(m, r)
  }

  // ---- addresses ------------------------------------------------------------------------------------

  /** PX(level, va). */
  function Px(level: nat, va: nat): (i: nat)
    requires level <= 2
  {
    if level == 2 then va / 0x4000_0000 % ENTRIES
    else if level == 1 then va / 0x20_0000 % ENTRIES
    else va / PGSIZE % ENTRIES
  }

  /** The indices of an address are those of its page. */
  lemma PxPage(va: nat)
    requires va < MAXVA
    ensures va / PGSIZE < VPAGES
    ensures LowOf(va / PGSIZE) == Low(Px(2, va), Px(1, va)) && va / PGSIZE % ENTRIES == Px(0, va)
    ensures Px(2, va) < ENTRIES && Px(1, va) < ENTRIES
  {
    var n := va / PGSIZE;
    assert n / ENTRIES == va / 0x20_0000;
    assert n / ENTRIES / ENTRIES == va / 0x4000_0000;
  }

  /** Two pages never share an entry. */
  lemma PagesApart(n: nat, k: nat)
    requires LowOf(n) == LowOf(k) && n % ENTRIES == k % ENTRIES
    ensures n == k
  {
    assert n == ENTRIES * (ENTRIES * (n / ENTRIES / ENTRIES) + n / ENTRIES % ENTRIES) + n % ENTRIES;
    assert k == ENTRIES * (ENTRIES * (k / ENTRIES / ENTRIES) + k / ENTRIES % ENTRIES) + k % ENTRIES;
  }

  // ---- framing ----------------------------------------------------------------------------------------

  /** The tree of r is the same in m and w. */
  ghost predicate SameTree(m: Mem, w: Mem, r: nat) {
    && r in m.spaces && r in w.spaces && w.spaces[r] == m.spaces[r]
    && forall p {:trigger m.spaces[r][p]} :: p in m.spaces[r] ==> SameNode(m, w, m.spaces[r][p])
  }

  predicate SameNode(m: Mem, w: Mem, q: nat) {
    && (q in m.page <==> q in w.page) && (q in m.page ==> w.page[q] == m.page[q])
    && (q in m.own <==> q in w.own) && (q in m.own ==> w.own[q] == m.own[q])
  }

  lemma SameTreeOk(m: Mem, w: Mem, r: nat)
    requires SameTree(m, w, r) && SpaceOk(m, r)
    ensures SpaceOk(w, r)
  {
    forall p | p in w.spaces[r] ensures NodeOk(w, r, p) {
      assert NodeOk(m, r, p) && SameNode(m, w, m.spaces[r][p]);
    }
    forall p, i: nat | p in w.spaces[r] && i < ENTRIES ensures EntOk(w.page, w.spaces[r], p, i) {
      assert NodeOk(m, r, p) && SameNode(m, w, m.spaces[r][p]) && EntOk(m.page, m.spaces[r], p, i);
    }
  }

  lemma SameLeaf(m: Mem, w: Mem, r: nat, n: nat)
    requires SameTree(m, w, r)
    ensures Leaf(w, r, n) == Leaf(m, r, n)
  {
    if LowOf(n) in m.spaces[r] {
      assert SameNode(m, w, m.spaces[r][LowOf(n)]);
    }
  }

  /** A tree survives a change to pages that are no tables of it. */
  lemma TreeKept(m: Mem, w: Mem, r: nat, qs: set<nat>)
    requires SpaceOk(m, r) && r in w.spaces && w.spaces[r] == m.spaces[r]
    requires SameBut(m, w, qs)
    requires forall q :: q in qs && q in m.own ==> !(m.own[q].Tab? && m.own[q].root == r)
    ensures SameTree(m, w, r) && SpaceOk(w, r)
  {
    forall p | p in m.spaces[r] ensures SameNode(m, w, m.spaces[r][p]) {
      assert NodeOk(m, r, p);
    }
    SameTreeOk(m, w, r);
  }

  ghost predicate SameBut(m: Mem, w: Mem, qs: set<nat>) {
    forall q {:trigger SameNode(m, w, q)} :: q in m.own && q !in qs ==> SameNode(m, w, q)
  }

  predicate SamePage(a: Option<Pte>, b: Option<Pte>) {
    a.Some? == b.Some? && (a.Some? ==> a.value.ppn == b.value.ppn)
  }

  /** Pages other than qs have the use that they had, if the trees stand. */
  lemma PageKept(m: Mem, w: Mem, q: nat)
    requires HeapOk(m) && q in m.own && SameNode(m, w, q)
    requires m.own[q] == Free ==> q in w.chain
    requires m.own[q].Tab? ==>
               && m.own[q].root in w.spaces && m.own[q].path in w.spaces[m.own[q].root]
               && w.spaces[m.own[q].root][m.own[q].path] == q
    requires m.own[q].User? ==>
               && m.own[q].root in m.spaces && m.own[q].root in w.spaces
               && SamePage(Leaf(w, m.own[q].root, m.own[q].n), Leaf(m, m.own[q].root, m.own[q].n))
    ensures PageOk(w, q)
  {
    assert PageOk(m, q);
  }

  // ---- kalloc and kfree ---------------------------------------------------------------------------------

  function Fill(b: Byte): (p: Page) {
    Data(seq(PGSIZE, _ => b))
  }

  function Popped(m: Mem): (w: Mem)
    requires m.chain != []
  {
    var q := m.chain[0];
    Mem(if |m.chain| > 1 then m.chain[1] else 0, m.page[q := Fill(5)], m.chain[1..], m.own[q := Kept], m.spaces)
  }

  lemma PopKeeps(m: Mem, w: Mem, q: nat)
    requires Inv(m) && m.chain != [] && w == Popped(m) && q == m.chain[0]
    ensures Inv(w) && q in m.own && m.own[q] == Free && q != 0 && SameBut(m, w, {q})
    ensures forall r :: r in m.spaces ==> SameTree(m, w, r)
  {
    assert RunOk(m, 0) && PageOk(m, q);
    forall r | r in m.spaces ensures SameTree(m, w, r) && SpaceOk(w, r) {
      TreeKept(m, w, r, {q});
    }
    forall i: nat | i < |w.chain| ensures RunOk(w, i) {
      assert RunOk(m, i + 1) && Apart(m, 0, i + 1);
    }
    forall i: nat, j: nat | i < |w.chain| && j < |w.chain| ensures Apart(w, i, j) {
      assert Apart(m, i + 1, j + 1);
    }
    forall x | x in w.own ensures PageOk(w, x) {
      if x != q {
        if m.own[x].User? {
          assert PageOk(m, x);
          SameLeaf(m, w, m.own[x].root, m.own[x].n);
        }
        assert PageOk(m, x);
        PageKept(m, w, x);
      }
    }
  }

  function Pushed(m: Mem, q: nat): (w: Mem) {
    Mem(q, m.page[q := Run(m.head)], [q] + m.chain, m.own[q := Free], m.spaces)
  }

  lemma PushKeeps(m: Mem, w: Mem, q: nat)
    requires Inv(m) && q in m.own && m.own[q] == Kept && w == Pushed(m, q)
    ensures Inv(w) && SameBut(m, w, {q}) && forall r :: r in m.spaces ==> SameTree(m, w, r)
  {
    assert PageOk(m, q);
    forall r | r in m.spaces ensures SameTree(m, w, r) && SpaceOk(w, r) {
      TreeKept(m, w, r, {q});
    }
    forall i: nat | i < |w.chain| ensures RunOk(w, i) {
      if i > 0 {
        assert RunOk(m, i - 1);
      }
    }
    forall i: nat, j: nat | i < |w.chain| && j < |w.chain| ensures Apart(w, i, j) {
      if i > 0 && j > 0 {
        assert Apart(m, i - 1, j - 1);
      } else if i > 0 {
        assert RunOk(m, i - 1);
      } else if j > 0 {
        assert RunOk(m, j - 1);
      }
    }
    forall x | x in w.own ensures PageOk(w, x) {
      if x != q {
        assert PageOk(m, x);
        if m.own[x].User? {
          SameLeaf(m, w, m.own[x].root, m.own[x].n);
        }
        PageKept(m, w, x);
      }
    }
  }

  // ---- growing a tree, and setting an entry of it --------------------------------------------------------

  function WithEntry(page: map<nat, Page>, q: nat, i: nat, e: Pte): (r: map<nat, Page>)
    requires IsTable(page, q) && i < ENTRIES
  {
    page[q := Table(page[q].ptes[i := e])]
  }

  /** walk adds page q, zeroed, as the page table behind entry i of p. */
  function Grown(m: Mem, r: nat, p: Path, i: nat, q: nat): (w: Mem)
    requires r in m.spaces && p in m.spaces[r] && !p.Low? && i < ENTRIES
    requires IsTable(m.page, m.spaces[r][p]) && q != m.spaces[r][p]
  {
    var page := WithEntry(m.page[q := EmptyTable()], m.spaces[r][p], i, TablePte(q));
    var tab: map<Path, nat> := m.spaces[r][Kid(p, i) := q];
    Mem(m.head, page, m.chain, m.own[q := Tab(r, Kid(p, i))], m.spaces[r := tab])
  }

  ghost predicate CanGrow(m: Mem, r: nat, p: Path, i: nat, q: nat) {
    && Inv(m) && r in m.spaces && p in m.spaces[r] && !p.Low? && i < ENTRIES && Kid(p, i) !in m.spaces[r]
    && q in m.own && m.own[q] == Kept && IsTable(m.page, m.spaces[r][p]) && q != m.spaces[r][p]
  }

  lemma GrowNode(m: Mem, w: Mem, r: nat, p: Path, i: nat, q: nat, x: Path)
    requires CanGrow(m, r, p, i, q) && w == Grown(m, r, p, i, q) && x in w.spaces[r]
    ensures NodeOk(w, r, x)
  {
    assert SpaceOk(m, r);
    assert x != Kid(p, i) ==> NodeOk(m, r, x);
    assert NodeOk(m, r, p);
  }

  lemma GrowEnt(m: Mem, w: Mem, r: nat, p: Path, i: nat, q: nat, x: Path, k: nat)
    requires CanGrow(m, r, p, i, q) && w == Grown(m, r, p, i, q) && x in w.spaces[r] && k < ENTRIES
    ensures EntOk(w.page, w.spaces[r], x, k)
  {
    assert SpaceOk(m, r);
    assert NodeOk(m, r, p);
    if x != Kid(p, i) {
      assert NodeOk(m, r, x) && EntOk(m.page, m.spaces[r], x, k);
    } else {
      assert !x.Low? && Kid(x, k) in m.spaces[r] ==> NodeOk(m, r, Kid(x, k));
    }
  }

  lemma GrowLeaf(m: Mem, w: Mem, r: nat, p: Path, i: nat, q: nat, n: nat)
    requires CanGrow(m, r, p, i, q) && w == Grown(m, r, p, i, q)
    ensures Leaf(w, r, n) == Leaf(m, r, n)
  {
    assert SpaceOk(m, r);
    assert LowOf(n) in m.spaces[r] ==> NodeOk(m, r, LowOf(n));
    assert NodeOk(m, r, p);
  }

  ghost predicate TabsGrow(m: Mem, w: Mem) {
    forall r, p {:trigger m.spaces[r][p]} :: r in m.spaces && p in m.spaces[r] ==>
      r in w.spaces && p in w.spaces[r] && w.spaces[r][p] == m.spaces[r][p]
  }

  /** The same free list; pages outside qs as they were, pages in qs in order; trees in order. */
  lemma InvFrom(m: Mem, w: Mem, qs: set<nat>)
    requires Inv(m) && w.head == m.head && w.chain == m.chain && w.own.Keys == m.own.Keys && SameBut(m, w, qs)
    requires forall q :: q in qs ==> q in m.own && m.own[q] != Free && w.own[q] != Free && PageOk(w, q)
    requires forall r :: r in w.spaces ==> SpaceOk(w, r)
    requires TabsGrow(m, w) && m.spaces.Keys <= w.spaces.Keys
    requires forall q :: q in m.own && q !in qs && m.own[q].User? && m.own[q].root in m.spaces ==>
               SamePage(Leaf(w, m.own[q].root, m.own[q].n), Leaf(m, m.own[q].root, m.own[q].n))
    ensures Inv(w)
  {
    forall i: nat | i < |w.chain| ensures RunOk(w, i) {
      assert RunOk(m, i) && SameNode(m, w, m.chain[i]);
    }
    forall i: nat, j: nat | i < |w.chain| && j < |w.chain| ensures Apart(w, i, j) {
      assert Apart(m, i, j);
    }
    forall x | x in w.own ensures PageOk(w, x) {
      if x !in qs {
        assert PageOk(m, x) && SameNode(m, w, x);
        PageKept(m, w, x);
      }
    }
  }

  lemma GrowTree(m: Mem, w: Mem, r: nat, p: Path, i: nat, q: nat)
    requires CanGrow(m, r, p, i, q) && w == Grown(m, r, p, i, q)
    ensures SpaceOk(w, r)
  {
    hide Grown, NodeOk, EntOk, HeapOk;
    GrownIs(m, w, r, p, i, q);
    forall x | x in w.spaces[r] ensures NodeOk(w, r, x) {
      GrowNode(m, w, r, p, i, q, x);
    }
    forall x, k: nat | x in w.spaces[r] && k < ENTRIES ensures EntOk(w.page, w.spaces[r], x, k) {
      GrowEnt(m, w, r, p, i, q, x, k);
    }
  }

  lemma GrowKeeps(m: Mem, w: Mem, r: nat, p: Path, i: nat, q: nat)
    requires CanGrow(m, r, p, i, q) && w == Grown(m, r, p, i, q)
    ensures Inv(w) && SameBut(m, w, {q, m.spaces[r][p]})
    ensures forall n :: Leaf(w, r, n) == Leaf(m, r, n)
    ensures forall s :: s in m.spaces && s != r ==> SameTree(m, w, s)
  {
    hide Grown, Find, NodeOk, EntOk, PageOk, SpaceOk, SameNode, HeapOk, TabsGrow, SameTree;
    var a := m.spaces[r][p];
    GrownIs(m, w, r, p, i, q);
    GrowTree(m, w, r, p, i, q);
    forall s | s in w.spaces ensures SpaceOk(w, s) && (s != r ==> SameTree(m, w, s)) {
      if s != r {
        assert SpaceOk(m, s);
        TreeKept(m, w, s, {q, a});
      }
    }
    forall n ensures Leaf(w, r, n) == Leaf(m, r, n) {
      GrowLeaf(m, w, r, p, i, q, n);
    }
    forall x | x in m.own && x !in {q, a} && m.own[x].User? && m.own[x].root in m.spaces
      ensures Leaf(w, m.own[x].root, m.own[x].n) == Leaf(m, m.own[x].root, m.own[x].n)
    {
      if m.own[x].root != r {
        SameLeaf(m, w, m.own[x].root, m.own[x].n);
      }
    }
    InvFrom(m, w, {q, a});
  }

  lemma GrownIs(m: Mem, w: Mem, r: nat, p: Path, i: nat, q: nat)
    requires CanGrow(m, r, p, i, q) && w == Grown(m, r, p, i, q)
    ensures m.spaces[r][p] in m.own && m.own[m.spaces[r][p]] == Tab(r, p)
    ensures w.head == m.head && w.chain == m.chain && w.own.Keys == m.own.Keys && w.spaces.Keys == m.spaces.Keys
    ensures SameBut(m, w, {q, m.spaces[r][p]}) && TabsGrow(m, w)
    ensures w.own == m.own[q := Tab(r, Kid(p, i))]
    ensures PageOk(w, q) && PageOk(w, m.spaces[r][p])
    ensures forall s :: s in m.spaces && s != r ==> w.spaces[s] == m.spaces[s]
    ensures w.spaces[r].Keys == m.spaces[r].Keys + {Kid(p, i)} && Root in w.spaces[r] && w.spaces[r][Root] == r
  {
    assert SpaceOk(m, r);
    assert NodeOk(m, r, p);
    assert PageOk(m, q) && PageOk(m, m.spaces[r][p]);
  }

  // ---- setting the entry of a page, and changing the use of one ----------------------------------------------

  /** Entry n of the map becomes e. */
  function Entered(m: Mem, r: nat, n: nat, e: Pte): (w: Mem)
    requires r in m.spaces && LowOf(n) in m.spaces[r] && IsTable(m.page, m.spaces[r][LowOf(n)])
  {
    Mem(m.head, WithEntry(m.page, m.spaces[r][LowOf(n)], n % ENTRIES, e), m.chain, m.own, m.spaces)
  }

  /** The entry is invalid or a leaf, and user page n, if there is one, stays in it. */
  ghost predicate CanEnter(m: Mem, r: nat, n: nat, e: Pte) {
    && Inv(m) && r in m.spaces && LowOf(n) in m.spaces[r] && IsTable(m.page, m.spaces[r][LowOf(n)])
    && (e.v ==> IsLeaf(e))
    && forall q :: q in m.own && m.own[q] == User(r, n) ==> e.v && e.ppn == q
  }

  lemma EnterLeaf(m: Mem, w: Mem, r: nat, n: nat, e: Pte, k: nat)
    requires CanEnter(m, r, n, e) && w == Entered(m, r, n, e)
    ensures Leaf(w, r, k) == if k == n then (if e.v then Some(e) else None) else Leaf(m, r, k)
  {
    assert SpaceOk(m, r);
    if LowOf(k) in m.spaces[r] {
      assert NodeOk(m, r, LowOf(k)) && NodeOk(m, r, LowOf(n));
      if LowOf(k) == LowOf(n) && k % ENTRIES == n % ENTRIES {
        PagesApart(k, n);
      }
    }
  }

  lemma EnterTree(m: Mem, w: Mem, r: nat, n: nat, e: Pte)
    requires CanEnter(m, r, n, e) && w == Entered(m, r, n, e)
    ensures SpaceOk(w, r) && m.spaces[r][LowOf(n)] in m.own && m.own[m.spaces[r][LowOf(n)]] == Tab(r, LowOf(n))
  {
    hide Find, HeapOk, EntOk;
    assert SpaceOk(m, r);
    assert NodeOk(m, r, LowOf(n));
    forall x | x in w.spaces[r] ensures NodeOk(w, r, x) {
      assert NodeOk(m, r, x);
    }
    forall x, k: nat | x in w.spaces[r] && k < ENTRIES ensures EntOk(w.page, w.spaces[r], x, k) {
      EnterEnt(m, w, r, n, e, x, k);
    }
  }

  lemma EnterEnt(m: Mem, w: Mem, r: nat, n: nat, e: Pte, x: Path, k: nat)
    requires CanEnter(m, r, n, e) && w == Entered(m, r, n, e) && x in w.spaces[r] && k < ENTRIES
    ensures EntOk(w.page, w.spaces[r], x, k)
  {
    hide Find, HeapOk;
    assert SpaceOk(m, r);
    assert NodeOk(m, r, LowOf(n)) && NodeOk(m, r, x) && EntOk(m.page, m.spaces[r], x, k);
  }

  lemma EnterKeeps(m: Mem, w: Mem, r: nat, n: nat, e: Pte)
    requires CanEnter(m, r, n, e) && w == Entered(m, r, n, e)
    ensures Inv(w) && SameBut(m, w, {m.spaces[r][LowOf(n)]})
    ensures forall s :: s in m.spaces && s != r ==> SameTree(m, w, s)
  {
    hide Find, NodeOk, EntOk, SpaceOk, HeapOk, SameTree;
    var a := m.spaces[r][LowOf(n)];
    EnterTree(m, w, r, n, e);
    EnteredIs(m, w, r, n, e);
    forall s | s in w.spaces ensures SpaceOk(w, s) && (s != r ==> SameTree(m, w, s)) {
      if s != r {
        assert SpaceOk(m, s);
        TreeKept(m, w, s, {a});
      }
    }
    forall x | x in m.own && x !in {a} && m.own[x].User? && m.own[x].root in m.spaces
      ensures SamePage(Leaf(w, m.own[x].root, m.own[x].n), Leaf(m, m.own[x].root, m.own[x].n))
    {
      UserLeaf(m, x);
      if m.own[x].root != r {
        SameLeaf(m, w, m.own[x].root, m.own[x].n);
      } else {
        EnterLeaf(m, w, r, n, e, m.own[x].n);
      }
    }
    InvFrom(m, w, {a});
  }

  lemma EnteredIs(m: Mem, w: Mem, r: nat, n: nat, e: Pte)
    requires CanEnter(m, r, n, e) && w == Entered(m, r, n, e)
    requires var a := m.spaces[r][LowOf(n)]; a in m.own && m.own[a] == Tab(r, LowOf(n))
    ensures SameBut(m, w, {m.spaces[r][LowOf(n)]}) && TabsGrow(m, w) && PageOk(w, m.spaces[r][LowOf(n)])
  {
    assert PageOk(m, m.spaces[r][LowOf(n)]);
  }

  lemma UserLeaf(m: Mem, q: nat)
    requires HeapOk(m) && q in m.own && m.own[q].User?
    ensures var r, n := m.own[q].root, m.own[q].n;
            r in m.spaces && n < VPAGES && Leaf(m, r, n).Some? && Leaf(m, r, n).value.ppn == q
  {
    assert PageOk(m, q);
  }

  /** A page that is no table and not free gets new bytes, or a new use, or both. */
  function Put(m: Mem, q: nat, p: Page, use: Use): (w: Mem) {
    Mem(m.head, m.page[q := p], m.chain, m.own[q := use], m.spaces)
  }

  lemma PutKeeps(m: Mem, w: Mem, q: nat, p: Page, use: Use)
    requires Inv(m) && q in m.own && (m.own[q] == Kept || m.own[q].User?) && w == Put(m, q, p, use)
    requires use == Kept || (use.User? && use.root in m.spaces && use.n < VPAGES && p.Data? && |p.bytes| == PGSIZE
                             && Leaf(m, use.root, use.n).Some? && Leaf(m, use.root, use.n).value.ppn == q)
    ensures Inv(w) && SameBut(m, w, {q}) && forall r :: r in m.spaces ==> SameTree(m, w, r)
  {
    hide Find, NodeOk, EntOk, SpaceOk, HeapOk, SameTree;
    assert PageOk(m, q) by {
      assert HeapOk(m);
      PageIsOk(m, q);
    }
    forall r | r in m.spaces ensures SameTree(m, w, r) && SpaceOk(w, r) {
      assert SpaceOk(m, r);
      TreeKept(m, w, r, {q});
    }
    forall r, n | r in m.spaces ensures Leaf(w, r, n) == Leaf(m, r, n) {
      SameLeaf(m, w, r, n);
    }
    InvFrom(m, w, {q});
  }

  lemma PageIsOk(m: Mem, q: nat)
    requires HeapOk(m) && q in m.own
    ensures PageOk(m, q)
  {
  }

  /** uvmcreate: page q becomes an empty tree. */
  function Created(m: Mem, q: nat): (w: Mem) {
    Mem(m.head, m.page[q := EmptyTable()], m.chain, m.own[q := Tab(q, Root)], m.spaces[q := map[Root := q]])
  }

  lemma CreateKeeps(m: Mem, w: Mem, q: nat)
    requires Inv(m) && q in m.own && m.own[q] == Kept && w == Created(m, q)
    ensures q !in m.spaces && Inv(w) && SameBut(m, w, {q}) && (forall r :: r in m.spaces ==> SameTree(m, w, r))
    ensures forall n :: Leaf(w, q, n) == None
  {
    hide Find;
    PageIsOk(m, q);
    assert q in m.spaces ==> SpaceOk(m, q) && NodeOk(m, q, Root);
    forall r | r in w.spaces ensures SpaceOk(w, r) && (r in m.spaces ==> SameTree(m, w, r)) {
      if r != q {
        assert SpaceOk(m, r);
        TreeKept(m, w, r, {q});
      }
    }
    forall r, n | r in m.spaces ensures Leaf(w, r, n) == Leaf(m, r, n) {
      SameLeaf(m, w, r, n);
    }
    forall n ensures Leaf(w, q, n) == None {
      NoLow(w, q, n);
    }
    InvFrom(m, w, {q});
  }

  lemma NoLow(m: Mem, r: nat, n: nat)
    requires r in m.spaces && LowOf(n) !in m.spaces[r]
    ensures Leaf(m, r, n) == None
  {
  }

  // ---- what it all means --------------------------------------------------------------------------------------------

  /** What page n of space r is mapped to. A page that user mode can reach is that user page
      of r; any other page of memory that is mapped is kept by the kernel. */
  ghost predicate OwnAt(m: Mem, r: nat, n: nat)
    requires r in m.spaces
  {
    Leaf(m, r, n).Some? ==>
      var e := Leaf(m, r, n).value;
      && (e.u ==> e.ppn in m.own && m.own[e.ppn] == User(r, n))
      && (e.ppn in m.own ==> m.own[e.ppn] == User(r, n) || m.own[e.ppn] == Kept)
  }

  ghost predicate OwnPages(m: Mem, r: nat) {
    r in m.spaces && forall n: nat :: OwnAt(m, r, n)
  }

  ghost predicate AllOwn(m: Mem) {
    forall r {:trigger OwnPages(m, r)} :: r in m.spaces ==> OwnPages(m, r)
  }

  /** Every page of memory has one use: on the free list, one place in one tree, or neither. */
  lemma OneUse(m: Mem, q: nat, r: nat, p: Path)
    requires Inv(m) && q in m.own && r in m.spaces
    ensures q in m.chain <==> m.own[q] == Free
    ensures p in m.spaces[r] && m.spaces[r][p] == q <==> m.own[q] == Tab(r, p)
  {
    assert PageOk(m, q) && SpaceOk(m, r);
    assert p in m.spaces[r] ==> NodeOk(m, r, p);
    if q in m.chain {
      var i: nat :| i < |m.chain| && m.chain[i] == q;
      assert RunOk(m, i);
    }
  }

  /** Free pages, table pages and mapped pages are disjoint: the page of a leaf is not on the
      free list and is no page table, and no two leaves reach one user page. */
  lemma LeafApart(m: Mem, r: nat, n: nat, s: nat, p: Path, k: nat)
    requires Inv(m) && AllOwn(m) && r in m.spaces && s in m.spaces && Leaf(m, r, n).Some?
    ensures var q := Leaf(m, r, n).value.ppn;
            && q !in m.chain
            && (p in m.spaces[s] ==> m.spaces[s][p] != q)
            && (Leaf(m, r, n).value.u && Leaf(m, s, k).Some? && Leaf(m, s, k).value.ppn == q ==> s == r && k == n)
  {
    hide Find;
    var q := Leaf(m, r, n).value.ppn;
    assert OwnPages(m, r) && OwnPages(m, s);
    assert OwnAt(m, r, n) && OwnAt(m, s, k);
    if q in m.own {
      OneUse(m, q, s, p);
    } else {
      NotOurs(m, q, s, p);
    }
  }

  lemma NotOurs(m: Mem, q: nat, s: nat, p: Path)
    requires Inv(m) && q !in m.own && s in m.spaces
    ensures q !in m.chain && (p in m.spaces[s] ==> m.spaces[s][p] != q)
  {
    assert SpaceOk(m, s);
    assert p in m.spaces[s] ==> NodeOk(m, s, p);
    forall i: nat | i < |m.chain| ensures m.chain[i] in m.own {
      assert RunOk(m, i);
    }
  }

  /** Leaves and the uses of what they map carry over. */
  lemma OwnKept(m: Mem, w: Mem, r: nat, n: nat)
    requires r in m.spaces && r in w.spaces && OwnAt(m, r, n) && Leaf(w, r, n) == Leaf(m, r, n)
             && w.own.Keys == m.own.Keys
    requires Leaf(m, r, n).Some? && Leaf(m, r, n).value.ppn in m.own ==>
               w.own[Leaf(m, r, n).value.ppn] == m.own[Leaf(m, r, n).value.ppn]
    ensures OwnAt(w, r, n)
  {
    hide Find;
  }

  function Bit(b: bool): (n: nat) {
    if b then 1 else 0
  }

  /** The entry as a 64-bit word: the physical page number above ten flag bits. */
  function PteWord(e: Pte): (w: nat) {
    e.ppn * 0x400 + Bit(e.v) + 2 * Bit(e.r) + 4 * Bit(e.w) + 8 * Bit(e.x) + 16 * Bit(e.u)
  }

  function PteOf(w: nat): (e: Pte) {
    Pte(w / 0x400, w % 2 == 1, w / 2 % 2 == 1, w / 4 % 2 == 1, w / 8 % 2 == 1, w / 16 % 2 == 1)
  }

  /** PA2PTE and PTE2PA. */
  function Pa2Pte(pa: nat): (w: nat) {
    pa / PGSIZE * 0x400
  }

  function Pte2Pa(w: nat): (pa: nat) {
    w / 0x400 * PGSIZE
  }

  /** The word loses nothing, and the macros move the page number in and out of it. */
  lemma PteRoundTrip(e: Pte)
    ensures PteOf(PteWord(e)) == e && Pte2Pa(PteWord(e)) == e.ppn * PGSIZE
    ensures Pa2Pte(e.ppn * PGSIZE) + PteWord(e) % 0x400 == PteWord(e)
  {
    var f := Bit(e.v) + 2 * Bit(e.r) + 4 * Bit(e.w) + 8 * Bit(e.x) + 16 * Bit(e.u);
    assert PteWord(e) == e.ppn * 0x400 + f && f < 32;
    FlagBits(e.ppn, f);
    BitsOf(e, f);
    assert e.ppn * PGSIZE / PGSIZE == e.ppn;
  }

  lemma BitsOf(e: Pte, f: nat)
    requires f == Bit(e.v) + 2 * Bit(e.r) + 4 * Bit(e.w) + 8 * Bit(e.x) + 16 * Bit(e.u)
    ensures f < 32 && (f % 2 == 1) == e.v && (f / 2 % 2 == 1) == e.r && (f / 4 % 2 == 1) == e.w
    ensures (f / 8 % 2 == 1) == e.x && (f / 16 % 2 == 1) == e.u
  {
  }

  /** Bit k of the word is bit k of its flags. */
  lemma FlagBits(ppn: nat, f: nat)
    requires f < 32
    ensures (ppn * 0x400 + f) / 0x400 == ppn && (ppn * 0x400 + f) % 0x400 == f && (ppn * 0x400 + f) % 2 == f % 2
    ensures (ppn * 0x400 + f) / 2 % 2 == f / 2 % 2 && (ppn * 0x400 + f) / 4 % 2 == f / 4 % 2
    ensures (ppn * 0x400 + f) / 8 % 2 == f / 8 % 2 && (ppn * 0x400 + f) / 16 % 2 == f / 16 % 2
  {
    Parity(ppn * 0x200, f);
    Shift2(ppn * 0x200, f);
    Parity(ppn * 0x100, f / 2);
    Shift4(ppn * 0x100, f);
    Parity(ppn * 0x80, f / 4);
    Shift8(ppn * 0x80, f);
    Parity(ppn * 0x40, f / 8);
    Shift16(ppn * 0x40, f);
    Parity(ppn * 0x20, f / 16);
  }

  lemma Parity(a: nat, b: nat)
    ensures (2 * a + b) % 2 == b % 2
  {
  }

  lemma Shift2(a: nat, f: nat)
    ensures (2 * a + f) / 2 == a + f / 2
  {
  }

  lemma Shift4(a: nat, f: nat)
    ensures (4 * a + f) / 4 == a + f / 4
  {
  }

  lemma Shift8(a: nat, f: nat)
    ensures (8 * a + f) / 8 == a + f / 8
  {
  }

  lemma Shift16(a: nat, f: nat)
    ensures (16 * a + f) / 16 == a + f / 16
  {
  }
}
