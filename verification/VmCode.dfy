/** The page allocator, walk, mappages and uvmunmap (kernel/kalloc.c:38-66, kernel/vm.c:63-154). */
module VmRel {
  import opened VmSpec
  import opened Prelude

  // How an operation on the space with root r changes memory.

  /** A page keeps its use and contents, or it was free and is now a table of r or one of the
      user pages lo to hi of r. */
  ghost predicate UseKept(m: Mem, w: Mem, r: nat, lo: nat, hi: nat, q: nat)
    requires q in m.own && q in w.own
  {
    && (|| w.own[q] == m.own[q]
        || (m.own[q] == Free && w.own[q].Tab? && w.own[q].root == r)
        || (m.own[q] == Free && w.own[q].User? && w.own[q].root == r && lo <= w.own[q].n < hi))
    && (m.own[q] == Kept || m.own[q].User? ==> q in m.page && q in w.page && w.page[q] == m.page[q])
  }

  ghost predicate Framed(m: Mem, w: Mem, r: nat, lo: nat, hi: nat) {
    && r in m.spaces && w.spaces.Keys == m.spaces.Keys && w.own.Keys == m.own.Keys
    && (forall q {:trigger UseKept(m, w, r, lo, hi, q)} :: q in m.own ==> UseKept(m, w, r, lo, hi, q))
    && (forall s {:trigger SameTree(m, w, s)} :: s in m.spaces && s != r ==> SameTree(m, w, s))
    && m.spaces[r].Keys <= w.spaces[r].Keys
  }

  /** The map is the same outside lo to hi. */
  ghost predicate LeavesBut(m: Mem, w: Mem, r: nat, lo: nat, hi: nat) {
    && r in m.spaces && r in w.spaces
    && forall n: nat :: !(lo <= n < hi) ==> Leaf(w, r, n) == Leaf(m, r, n)
  }

  lemma SameTreeTrans(m: Mem, x: Mem, w: Mem, s: nat)
    requires SameTree(m, x, s) && SameTree(x, w, s)
    ensures SameTree(m, w, s)
  {
    forall p | p in m.spaces[s] ensures SameNode(m, w, m.spaces[s][p]) {
      assert SameNode(m, x, m.spaces[s][p]) && SameNode(x, w, x.spaces[s][p]);
    }
  }

  lemma FramedTrans(m: Mem, x: Mem, w: Mem, r: nat, lo: nat, mid: nat, hi: nat)
    requires Framed(m, x, r, lo, mid) && Framed(x, w, r, lo, hi) && mid <= hi
    ensures Framed(m, w, r, lo, hi)
  {
    forall q | q in m.own ensures UseKept(m, w, r, lo, hi, q) {
      assert UseKept(m, x, r, lo, mid, q) && UseKept(x, w, r, lo, hi, q);
    }
    forall s | s in m.spaces && s != r ensures SameTree(m, w, s) {
      SameTreeTrans(m, x, w, s);
    }
  }

  lemma FramedSelf(m: Mem, r: nat, lo: nat, hi: nat)
    requires HeapOk(m) && r in m.spaces
    ensures Framed(m, m, r, lo, hi) && LeavesBut(m, m, r, lo, hi)
  {
    forall q | q in m.own ensures UseKept(m, m, r, lo, hi, q) {
      PageIsOk(m, q);
    }
    forall s | s in m.spaces ensures SameTree(m, m, s) {
    }
  }

  /** kalloc and then walk's new table. */
  lemma FramedGrow(m: Mem, x: Mem, w: Mem, r: nat, p: Path, i: nat, q: nat, lo: nat)
    requires Inv(m) && m.chain != [] && q == m.chain[0] && x == Popped(m) && CanGrow(x, r, p, i, q)
             && w == Grown(x, r, p, i, q)
    ensures Inv(w) && Framed(m, w, r, lo, lo) && LeavesBut(m, w, r, lo, lo)
  {
    hide Find, NodeOk, EntOk, SpaceOk, HeapOk;
    PopKeeps(m, x, q);
    GrowKeeps(x, w, r, p, i, q);
    GrownIs(x, w, r, p, i, q);
    forall y | y in m.own ensures UseKept(m, w, r, lo, lo, y) {
      PageIsOk(m, y);
      if y != q {
        assert SameNode(m, x, y);
        if y != x.spaces[r][p] {
          assert SameNode(x, w, y);
        }
      }
    }
    forall s | s in m.spaces && s != r ensures SameTree(m, w, s) {
      SameTreeTrans(m, x, w, s);
    }
    forall n ensures Leaf(w, r, n) == Leaf(m, r, n) {
      SameLeaf(m, x, r, n);
    }
  }

  /** Setting an entry of r's tree. */
  lemma FramedEnter(m: Mem, w: Mem, r: nat, n: nat, e: Pte, lo: nat)
    requires CanEnter(m, r, n, e) && w == Entered(m, r, n, e)
    ensures Inv(w) && Framed(m, w, r, lo, lo)
  {
    hide Find, NodeOk, EntOk, SpaceOk, HeapOk;
    EnterKeeps(m, w, r, n, e);
    EnterTree(m, w, r, n, e);
    forall q | q in m.own ensures UseKept(m, w, r, lo, lo, q) {
      PageIsOk(m, q);
      if q != m.spaces[r][LowOf(n)] {
        assert SameNode(m, w, q);
      }
    }
  }

  function LeafPte(ppn: nat, perm: Pte): (e: Pte) {
    perm.(ppn := ppn, v := true)
  }

  /** How mappages ends: well, for want of a page table, or in the remap panic. */
  datatype MapResult = Mapped | NoTable | Remap

  ghost predicate MapsAt(m: Mem, w: Mem, r: nat, n0: nat, k: nat, ppn: nat, perm: Pte, n: nat)
    requires r in m.spaces && r in w.spaces
  {
    Leaf(w, r, n) == if n0 <= n < n0 + k then Some(LeafPte(ppn + n - n0, perm)) else Leaf(m, r, n)
  }

  /** Pages n0 to n0 + k are mapped to physical pages from ppn on; otherwise the map is the same. */
  ghost predicate Maps(m: Mem, w: Mem, r: nat, n0: nat, k: nat, ppn: nat, perm: Pte) {
    && r in m.spaces && r in w.spaces
    && forall n: nat :: MapsAt(m, w, r, n0, k, ppn, perm, n)
  }

  lemma MapsOne(m: Mem, y: Mem, w: Mem, r: nat, n: nat, ppn: nat, perm: Pte)
    requires LeavesBut(m, y, r, 0, 0) && CanEnter(y, r, n, LeafPte(ppn, perm))
             && w == Entered(y, r, n, LeafPte(ppn, perm))
    ensures Maps(m, w, r, n, 1, ppn, perm)
  {
    hide Find;
    forall k: nat ensures MapsAt(m, w, r, n, 1, ppn, perm, k) {
      assert Leaf(y, r, k) == Leaf(m, r, k);
      EnterLeaf(y, w, r, n, LeafPte(ppn, perm), k);
    }
  }

  lemma MapsJoin(m: Mem, x: Mem, w: Mem, r: nat, n0: nat, k: nat, l: nat, ppn: nat, perm: Pte)
    requires Maps(m, x, r, n0, k, ppn, perm) && Maps(x, w, r, n0 + k, 1, ppn + k, perm) && l == k + 1
    ensures Maps(m, w, r, n0, l, ppn, perm)
  {
    hide Find;
    forall n: nat ensures MapsAt(m, w, r, n0, l, ppn, perm, n) {
      assert MapsAt(m, x, r, n0, k, ppn, perm, n);
      assert MapsAt(x, w, r, n0 + k, 1, ppn + k, perm, n);
    }
  }

  /** An unmapped page is no user page. */
  lemma NoTableNoLeaf(m: Mem, r: nat, n: nat)
    requires r in m.spaces && LowOf(n) !in m.spaces[r]
    ensures Leaf(m, r, n) == None
  {
  }

  lemma EntryLeaf(m: Mem, r: nat, n: nat)
    requires r in m.spaces && LowOf(n) in m.spaces[r] && IsTable(m.page, m.spaces[r][LowOf(n)])
    ensures m.page[m.spaces[r][LowOf(n)]].ptes[n % ENTRIES].v <==> Leaf(m, r, n).Some?
  {
  }

  lemma FreeToEnter(m: Mem, r: nat, n: nat, e: Pte)
    requires Inv(m) && r in m.spaces && LowOf(n) in m.spaces[r] && IsTable(m.page, m.spaces[r][LowOf(n)]) && IsLeaf(e)
    requires Leaf(m, r, n) == None
    ensures CanEnter(m, r, n, e)
  {
    forall q | q in m.own ensures m.own[q] != User(r, n) {
      if m.own[q].User? {
        UserLeaf(m, q);
      }
    }
  }

  // ---- unmapping ----------------------------------------------------------------------------------------------

  /** Page n is mapped; the mapping owns its page just if it is to be freed. */
  ghost predicate Droppable(m: Mem, r: nat, n: nat, free: bool)
    requires r in m.spaces
  {
    && Leaf(m, r, n).Some?
    && var q := Leaf(m, r, n).value.ppn;
       (q in m.own && m.own[q] == User(r, n)) == free
  }

  lemma DroppableThere(m: Mem, r: nat, lo: nat, hi: nat, free: bool)
    requires r in m.spaces && forall n: nat :: lo <= n < hi ==> Droppable(m, r, n, free)
    ensures forall n: nat :: lo <= n < hi ==> Leaf(m, r, n).Some?
  {
    hide Find;
    forall n: nat | lo <= n < hi ensures Leaf(m, r, n).Some? {
      assert Droppable(m, r, n, free);
    }
  }

  ghost predicate UnmapUse(m: Mem, w: Mem, r: nat, lo: nat, hi: nat, free: bool, q: nat)
    requires q in m.own && q in w.own
  {
    if free && m.own[q].User? && m.own[q].root == r && lo <= m.own[q].n < hi then w.own[q] == Free
    else
      && w.own[q] == m.own[q]
      && (m.own[q] == Kept || m.own[q].User? ==> q in m.page && q in w.page && w.page[q] == m.page[q])
  }

  /** Pages lo to hi are unmapped, and free again if asked; otherwise map and uses are the same. */
  ghost predicate Unmapped(m: Mem, w: Mem, r: nat, lo: nat, hi: nat, free: bool) {
    && r in m.spaces && w.spaces == m.spaces && w.own.Keys == m.own.Keys
    && (forall q {:trigger UnmapUse(m, w, r, lo, hi, free, q)} :: q in m.own ==> UnmapUse(m, w, r, lo, hi, free, q))
    && (forall s {:trigger SameTree(m, w, s)} :: s in m.spaces && s != r ==> SameTree(m, w, s))
    && (forall n: nat :: Leaf(w, r, n) == if lo <= n < hi then None else Leaf(m, r, n))
  }

  lemma UnmappedJoin(m: Mem, x: Mem, w: Mem, r: nat, lo: nat, mid: nat, hi: nat, free: bool)
    requires Unmapped(m, x, r, lo, mid, free) && Unmapped(x, w, r, mid, hi, free) && lo <= mid <= hi
    ensures Unmapped(m, w, r, lo, hi, free)
  {
    hide Find;
    forall q | q in m.own ensures UnmapUse(m, w, r, lo, hi, free, q) {
      assert UnmapUse(m, x, r, lo, mid, free, q) && UnmapUse(x, w, r, mid, hi, free, q);
    }
    forall s | s in m.spaces && s != r ensures SameTree(m, w, s) {
      SameTreeTrans(m, x, w, s);
    }
    forall n: nat ensures Leaf(w, r, n) == if lo <= n < hi then None else Leaf(m, r, n) {
      assert Leaf(x, r, n) == if lo <= n < mid then None else Leaf(m, r, n);
    }
  }

  lemma UnmappedNone(m: Mem, r: nat, lo: nat, free: bool)
    requires Inv(m) && r in m.spaces
    ensures Unmapped(m, m, r, lo, lo, free)
  {
    forall q | q in m.own ensures UnmapUse(m, m, r, lo, lo, free, q) {
      PageIsOk(m, q);
    }
  }

  /** The next page is mapped, if it was, as it was. */
  lemma StillThere(m: Mem, w: Mem, r: nat, lo: nat, n: nat, free: bool)
    requires Unmapped(m, w, r, lo, n, free)
    ensures r in m.spaces && r in w.spaces && Leaf(w, r, n) == Leaf(m, r, n)
    ensures Leaf(m, r, n).Some? && Droppable(m, r, n, free) ==> Droppable(w, r, n, free)
  {
    hide Find;
    assert Leaf(w, r, n) == if lo <= n < n then None else Leaf(m, r, n);
    if Leaf(m, r, n).Some? && Droppable(m, r, n, free) {
      StillDroppable(m, w, r, lo, n, free, n);
    }
  }

  /** What is still to be unmapped is as it was. */
  lemma StillDroppable(m: Mem, w: Mem, r: nat, lo: nat, hi: nat, free: bool, n: nat)
    requires Unmapped(m, w, r, lo, hi, free) && Droppable(m, r, n, free) && !(lo <= n < hi)
    ensures Droppable(w, r, n, free)
  {
    hide Find;
    assert Leaf(w, r, n) == Leaf(m, r, n);
    var q := Leaf(m, r, n).value.ppn;
    assert q in m.own ==> UnmapUse(m, w, r, lo, hi, free, q);
  }

  /** kfree of user page n. */
  lemma Release(m: Mem, x: Mem, y: Mem, r: nat, n: nat, q: nat)
    requires Inv(m) && r in m.spaces && Droppable(m, r, n, true) && q == Leaf(m, r, n).value.ppn
    requires q in m.page && x == Put(m, q, m.page[q], Kept) && y == Pushed(x, q)
    ensures Inv(x) && Inv(y) && (forall s :: s in m.spaces ==> SameTree(m, y, s)) && SameBut(m, y, {q})
  {
    hide Find, NodeOk, EntOk, SpaceOk, HeapOk, SameTree, SameNode;
    PutKeeps(m, x, q, m.page[q], Kept);
    PushKeeps(x, y, q);
    forall s | s in m.spaces ensures SameTree(m, y, s) {
      SameTreeTrans(m, x, y, s);
    }
    forall a | a in m.own && a != q ensures SameNode(m, y, a) {
      assert SameNode(m, x, a) && SameNode(x, y, a);
      SameNodeTrans(m, x, y, a);
    }
  }

  lemma SameNodeTrans(m: Mem, x: Mem, w: Mem, q: nat)
    requires SameNode(m, x, q) && SameNode(x, w, q)
    ensures SameNode(m, w, q)
  {
  }

  /** Entry n of y, in which no user page is, is cleared; y is m but for the page of n, which is free. */
  lemma ClearOne(m: Mem, y: Mem, w: Mem, r: nat, n: nat, free: bool)
    requires Inv(m) && Inv(y) && r in m.spaces && y.spaces == m.spaces && Droppable(m, r, n, free)
    requires var q := Leaf(m, r, n).value.ppn; if free then q in y.own && y.own == m.own[q := Free] else y.own == m.own
    requires SameBut(m, y, if free then {Leaf(m, r, n).value.ppn} else {}) && forall s :: s in m.spaces ==>
             SameTree(m, y, s)
    requires LowOf(n) in m.spaces[r] && IsTable(y.page, m.spaces[r][LowOf(n)]) && w == Entered(y, r, n, NoPte())
    ensures CanEnter(y, r, n, NoPte()) && Inv(w) && Unmapped(m, w, r, n, n + 1, free)
  {
    hide Find, NodeOk, EntOk, SpaceOk, HeapOk, SameTree;
    var p := Leaf(m, r, n).value.ppn;
    SameLeaf(m, y, r, n);
    forall q | q in y.own ensures y.own[q] != User(r, n) {
      if y.own[q].User? {
        UserLeaf(y, q);
      }
    }
    EnterKeeps(y, w, r, n, NoPte());
    EnterTree(y, w, r, n, NoPte());
    forall q | q in m.own ensures UnmapUse(m, w, r, n, n + 1, free, q) {
      PageIsOk(m, q);
      if m.own[q] == User(r, n) {
        UserLeaf(m, q);
      }
      if !(free && q == p) {
        assert SameNode(m, y, q);
        assert q != m.spaces[r][LowOf(n)] ==> SameNode(y, w, q);
      }
    }
    forall s | s in m.spaces && s != r ensures SameTree(m, w, s) {
      SameTreeTrans(m, y, w, s);
    }
    forall k: nat ensures Leaf(w, r, k) == if n <= k < n + 1 then None else Leaf(m, r, k) {
      SameLeaf(m, y, r, k);
      EnterLeaf(y, w, r, n, NoPte(), k);
    }
  }

  // ---- adding user pages, and taking them back ----------------------------------------------------------------------

  /** User page n is mapped with these permissions to a page of its own, with these contents. */
  ghost predicate Filled(m: Mem, r: nat, n: nat, perm: Pte, p: Page) {
    && r in m.spaces && Leaf(m, r, n).Some?
    && var e := Leaf(m, r, n).value;
       && e == LeafPte(e.ppn, perm) && e.ppn in m.own && m.own[e.ppn] == User(r, n)
       && e.ppn in m.page && m.page[e.ppn] == p
  }

  lemma FilledKept(m: Mem, w: Mem, r: nat, lo: nat, hi: nat, n: nat, perm: Pte, p: Page)
    requires Filled(m, r, n, perm, p) && Framed(m, w, r, lo, hi) && LeavesBut(m, w, r, lo, hi) && !(lo <= n < hi)
    ensures Filled(w, r, n, perm, p)
  {
    hide Find;
    assert Leaf(w, r, n) == Leaf(m, r, n);
    assert UseKept(m, w, r, lo, hi, Leaf(m, r, n).value.ppn);
  }

  lemma FilledDroppable(m: Mem, r: nat, n: nat, perm: Pte, p: Page)
    requires Filled(m, r, n, perm, p)
    ensures Droppable(m, r, n, true)
  {
  }

  /** A page is taken, filled, mapped, and so becomes user page n. */
  lemma Added(m: Mem, x: Mem, y: Mem, z: Mem, w: Mem, r: nat, n: nat, q: nat, p: Page, perm: Pte)
    requires Inv(m) && m.chain != [] && q == m.chain[0] && x == Popped(m) && y == Put(x, q, p, Kept)
    requires Inv(y) && Inv(z) && Framed(y, z, r, 0, 0) && Maps(y, z, r, n, 1, q, perm) && n < VPAGES
    requires p.Data? && |p.bytes| == PGSIZE && q in z.own && z.own[q] == Kept && q in z.page
             && w == Put(z, q, p, User(r, n))
    ensures Inv(w) && Framed(m, w, r, n, n + 1) && LeavesBut(m, w, r, n, n + 1) && Filled(w, r, n, perm, p)
  {
    hide Find, NodeOk, EntOk, SpaceOk, HeapOk, SameTree;
    PopKeeps(m, x, q);
    PutKeeps(x, y, q, p, Kept);
    assert MapsAt(y, z, r, n, 1, q, perm, n);
    PutKeeps(z, w, q, p, User(r, n));
    forall a | a in m.own ensures UseKept(m, w, r, n, n + 1, a) {
      PageIsOk(m, a);
      assert UseKept(y, z, r, 0, 0, a);
      if a != q {
        assert SameNode(m, x, a) && SameNode(x, y, a) && SameNode(z, w, a);
      }
    }
    forall s | s in m.spaces && s != r ensures SameTree(m, w, s) {
      SameTreeTrans(m, x, y, s);
      SameTreeTrans(m, y, z, s);
      SameTreeTrans(m, z, w, s);
    }
    forall k: nat ensures Leaf(w, r, k) == if k == n then Some(LeafPte(q, perm)) else Leaf(m, r, k) {
      SameLeaf(m, x, r, k);
      SameLeaf(x, y, r, k);
      assert MapsAt(y, z, r, n, 1, q, perm, k);
      SameLeaf(z, w, r, k);
    }
  }

  /** A page is taken, and given back when no page table can be had for it. */
  lemma GivenBack(m: Mem, x: Mem, y: Mem, z: Mem, w: Mem, r: nat, n: nat, q: nat, p: Page)
    requires Inv(m) && m.chain != [] && q == m.chain[0] && x == Popped(m) && y == Put(x, q, p, Kept)
    requires Inv(y) && Inv(z) && Framed(y, z, r, 0, 0) && LeavesBut(y, z, r, 0, 0)
    requires q in z.own && z.own[q] == Kept && w == Pushed(z, q)
    ensures Inv(w) && Framed(m, w, r, n, n) && LeavesBut(m, w, r, n, n)
  {
    hide Find, NodeOk, EntOk, SpaceOk, HeapOk, SameTree;
    PopKeeps(m, x, q);
    PutKeeps(x, y, q, p, Kept);
    PushKeeps(z, w, q);
    forall a | a in m.own ensures UseKept(m, w, r, n, n, a) {
      PageIsOk(m, a);
      assert UseKept(y, z, r, 0, 0, a);
      if a != q {
        assert SameNode(m, x, a) && SameNode(x, y, a) && SameNode(z, w, a);
      }
    }
    forall s | s in m.spaces && s != r ensures SameTree(m, w, s) {
      SameTreeTrans(m, x, y, s);
      SameTreeTrans(m, y, z, s);
      SameTreeTrans(m, z, w, s);
    }
    forall k: nat ensures Leaf(w, r, k) == Leaf(m, r, k) {
      SameLeaf(m, x, r, k);
      SameLeaf(x, y, r, k);
      assert Leaf(z, r, k) == Leaf(y, r, k);
      SameLeaf(z, w, r, k);
    }
  }

  /** Two stretches of added pages are one. */
  lemma FramedJoin(m: Mem, x: Mem, w: Mem, r: nat, lo: nat, mid: nat, hi: nat)
    requires Framed(m, x, r, lo, mid) && Framed(x, w, r, mid, hi) && lo <= mid <= hi
    requires LeavesBut(m, x, r, lo, mid) && LeavesBut(x, w, r, mid, hi)
    ensures Framed(m, w, r, lo, hi) && LeavesBut(m, w, r, lo, hi)
  {
    hide Find;
    forall q | q in m.own ensures UseKept(m, w, r, lo, hi, q) {
      assert UseKept(m, x, r, lo, mid, q) && UseKept(x, w, r, mid, hi, q);
    }
    forall s | s in m.spaces && s != r ensures SameTree(m, w, s) {
      SameTreeTrans(m, x, w, s);
    }
    forall n: nat | !(lo <= n < hi) ensures Leaf(w, r, n) == Leaf(m, r, n) {
      assert Leaf(x, r, n) == Leaf(m, r, n);
    }
  }

  /** Unmapping just what was added leaves the map, and every page but new page tables, as it was. */
  lemma RolledBack(m: Mem, x: Mem, w: Mem, r: nat, lo: nat, hi: nat)
    requires Inv(m) && Framed(m, x, r, lo, hi) && LeavesBut(m, x, r, lo, hi) && Unmapped(x, w, r, lo, hi, true)
    requires forall n: nat :: lo <= n < hi ==> Leaf(m, r, n) == None
    ensures Framed(m, w, r, lo, lo) && LeavesBut(m, w, r, lo, lo)
  {
    hide Find, SpaceOk, HeapOk, SameTree;
    forall q | q in m.own ensures UseKept(m, w, r, lo, lo, q) {
      assert UseKept(m, x, r, lo, hi, q) && UnmapUse(x, w, r, lo, hi, true, q);
      if m.own[q].User? {
        UserLeaf(m, q);
      }
    }
    forall s | s in m.spaces && s != r ensures SameTree(m, w, s) {
      SameTreeTrans(m, x, w, s);
    }
    forall n: nat ensures Leaf(w, r, n) == Leaf(m, r, n) {
      assert Leaf(w, r, n) == if lo <= n < hi then None else Leaf(x, r, n);
    }
  }

  // ---- copying ------------------------------------------------------------------------------------------------------

  /** User page n of space s has the permissions and contents that it has in space o of m. */
  ghost predicate CopiedAt(m: Mem, w: Mem, o: nat, s: nat, n: nat) {
    && o in m.spaces && Leaf(m, o, n).Some? && Leaf(m, o, n).value.ppn in m.page
    && Filled(w, s, n, Leaf(m, o, n).value, m.page[Leaf(m, o, n).value.ppn])
  }

  /** The parent's mapped user page is untouched by work on the child. */
  lemma SourceKept(m: Mem, x: Mem, o: nat, s: nat, lo: nat, hi: nat, n: nat)
    requires Inv(m) && o in m.spaces && o != s && Droppable(m, o, n, true) && Framed(m, x, s, lo, hi)
    ensures o in x.spaces && Leaf(x, o, n) == Leaf(m, o, n) && Leaf(x, o, n).Some? && IsLeaf(Leaf(x, o, n).value)
    ensures var q := Leaf(m, o, n).value.ppn;
            && q in m.page && q in x.page && x.page[q] == m.page[q] && x.page[q].Data? && |x.page[q].bytes| == PGSIZE
  {
    hide Find;
    var q := Leaf(m, o, n).value.ppn;
    assert SameTree(m, x, o);
    SameLeaf(m, x, o, n);
    PageIsOk(m, q);
    assert UseKept(m, x, s, lo, hi, q);
    LeafIsLeaf(m, o, n);
  }

  lemma LeafIsLeaf(m: Mem, r: nat, n: nat)
    requires Inv(m) && r in m.spaces && Leaf(m, r, n).Some?
    ensures IsLeaf(Leaf(m, r, n).value)
  {
    assert SpaceOk(m, r);
    assert EntOk(m.page, m.spaces[r], LowOf(n), n % ENTRIES);
  }

  // ---- spaces map what is their own -------------------------------------------------------------

  /** Adding user pages, each its own, keeps that. */
  lemma OwnFramed(m: Mem, w: Mem, r: nat, lo: nat, hi: nat)
    requires AllOwn(m) && Framed(m, w, r, lo, hi) && LeavesBut(m, w, r, lo, hi)
    requires forall n: nat :: lo <= n < hi ==> Droppable(w, r, n, true)
    ensures AllOwn(w)
  {
    hide Find;
    forall s, n: nat | s in w.spaces ensures OwnAt(w, s, n) {
      assert OwnPages(m, s);
      assert OwnAt(m, s, n);
      if s != r {
        assert SameTree(m, w, s);
        SameLeaf(m, w, s, n);
      }
      if s != r || !(lo <= n < hi) {
        assert Leaf(w, s, n) == Leaf(m, s, n);
        if Leaf(m, s, n).Some? && Leaf(m, s, n).value.ppn in m.own {
          assert UseKept(m, w, r, lo, hi, Leaf(m, s, n).value.ppn);
        }
        OwnKept(m, w, s, n);
      } else {
        assert Droppable(w, r, n, true);
      }
    }
  }

  /** So does unmapping. */
  lemma OwnUnmapped(m: Mem, w: Mem, r: nat, lo: nat, hi: nat, free: bool)
    requires AllOwn(m) && Unmapped(m, w, r, lo, hi, free)
    ensures AllOwn(w)
  {
    hide Find;
    forall s, n: nat | s in w.spaces ensures OwnAt(w, s, n) {
      assert OwnPages(m, s);
      assert OwnAt(m, s, n);
      if s != r {
        assert SameTree(m, w, s);
        SameLeaf(m, w, s, n);
      } else {
        assert Leaf(w, r, n) == if lo <= n < hi then None else Leaf(m, r, n);
      }
      if s != r || !(lo <= n < hi) {
        if Leaf(m, s, n).Some? && Leaf(m, s, n).value.ppn in m.own {
          assert UnmapUse(m, w, r, lo, hi, free, Leaf(m, s, n).value.ppn);
        }
        OwnKept(m, w, s, n);
      }
    }
  }

  // ---- the operations on the finite map -----------------------------------------------------------------------------

  /** walk leaves the map alone. */
  lemma WalkKeepsMap(m: Mem, w: Mem, r: nat)
    requires LeavesBut(m, w, r, 0, 0)
    ensures Leaves(w, r) == Leaves(m, r)
  {
    hide Find;
  }

  predicate From(n: nat, n0: nat) {
    n0 <= n
  }

  /** mappages binds exactly the pages of the range. */
  lemma MappagesMap(m: Mem, w: Mem, r: nat, n0: nat, k: nat, ppn: nat, perm: Pte)
    requires Maps(m, w, r, n0, k, ppn, perm) && n0 + k <= VPAGES
    ensures Leaves(w, r) == Leaves(m, r) + map n: nat | n < n0 + k && From(n, n0) :: LeafPte(ppn + n - n0, perm)
  {
    hide Find;
    var t := Leaves(m, r) + map n: nat | n < n0 + k && From(n, n0) :: LeafPte(ppn + n - n0, perm);
    forall n: nat ensures (n in Leaves(w, r) <==> n in t) && (n in t ==> Leaves(w, r)[n] == t[n]) {
      assert MapsAt(m, w, r, n0, k, ppn, perm, n);
    }
  }

  /** uvmunmap removes exactly the pages of the range. */
  lemma UvmunmapMap(m: Mem, w: Mem, r: nat, lo: nat, hi: nat, free: bool)
    requires Unmapped(m, w, r, lo, hi, free)
    ensures Leaves(w, r) == map n | n in Leaves(m, r) && !(lo <= n < hi) :: Leaves(m, r)[n]
  {
    hide Find;
    var t := map n | n in Leaves(m, r) && !(lo <= n < hi) :: Leaves(m, r)[n];
    forall n: nat ensures (n in Leaves(w, r) <==> n in t) && (n in t ==> Leaves(w, r)[n] == t[n]) {
      assert Leaf(w, r, n) == if lo <= n < hi then None else Leaf(m, r, n);
    }
  }
}

module VmCode {
  import opened Blocks
  import opened VmSpec
  import opened VmRel
  import opened FellSpec
  import opened Prelude

  class Kernel {
    var head: nat
    var page: map<nat, Page>
    ghost var chain: seq<nat>
    ghost var own: map<nat, Use>
    ghost var spaces: map<nat, map<Path, nat>>

    ghost function M(): (m: Mem)
      reads this
    {
      Mem(head, page, chain, own, spaces)
    }

    ghost predicate Valid()
      reads this
    {
      Inv(M())
    }

    /** kinit and freerange over the pages lo to hi: all of them are free, and there is no
        page table yet. */
    constructor (lo: nat, hi: nat)
      requires 0 < lo <= hi
      ensures Valid() && AllOwn(M()) && own.Keys == page.Keys && spaces == map[]
      ensures forall q: nat :: (lo <= q < hi <==> q in own) && (q in own ==> own[q] == Free && q in chain)
    {
      head, chain := 0, [];
      page := map q: nat | lo <= q < hi && Numbered(q) :: Fill(1);
      own := map q: nat | lo <= q < hi && Numbered(q) :: Kept;
      spaces := map[];
      new;
      ghost var pages := own.Keys;
      assert HeapOk(M());
      hide HeapOk;
      var p := lo;
      while p < hi
        invariant lo <= p <= hi && Valid() && spaces == map[] && own.Keys == page.Keys == pages
        invariant forall q: nat :: q in own ==> own[q] == if q < p then Free else Kept
      {
        assert Numbered(p);
        Kfree(p);
        p := p + 1;
      }
      forall q: nat | q in own ensures q in chain {
        PageIsOk(M(), q);
      }
    }

    /** kalloc: the first free page, or 0 if there is none. */
    method Kalloc() returns (q: nat)
      requires Valid()
      modifies this
      ensures Valid()
      ensures q == 0 ==> old(chain) == [] && M() == old(M())
      ensures q != 0 ==> old(chain) != [] && q == old(chain)[0] && M() == Popped(old(M()))
      ensures q != 0 ==> q in own && own[q] == Kept && q in old(own) && old(own)[q] == Free
    {
      ghost var m := M();
      HeadIsFirst(m);
      q := head;
      if q != 0 {
        PopKeeps(m, Popped(m), q);
        head := page[q].next;
        page := page[q := Fill(5)];
        chain := chain[1..];
        own := own[q := Kept];
      }
    }

    /** kfree: the page becomes the head of the free list. All is well if the page was in use
        for nothing. */
    method Kfree(q: nat)
      modifies this
      ensures M() == Pushed(old(M()), q)
      ensures old(Valid() && q in own && own[q] == Kept) ==> Valid()
    {
      ghost var m := M();
      if Valid() && q in own && own[q] == Kept {
        PushKeeps(m, Pushed(m, q), q);
      }
      page := page[q := Run(head)];
      head := q;
      chain := [q] + chain;
      own := own[q := Free];
    }

    /** walk's kalloc of a page table for entry i of p, which has none. */
    method AddTable(r: nat, ghost p: Path, q: nat, i: nat) returns (next: nat)
      requires Valid() && r in spaces && p in spaces[r] && q == spaces[r][p] && !p.Low? && i < ENTRIES
               && Kid(p, i) !in spaces[r]
      modifies this
      ensures Valid() && Framed(old(M()), M(), r, 0, 0) && LeavesBut(old(M()), M(), r, 0, 0)
      ensures next != 0 ==> Kid(p, i) in spaces[r] && next == spaces[r][Kid(p, i)]
      ensures next == 0 ==> M() == old(M()) && chain == []
    {
      hide Find, HeapOk, EntOk, SameTree, SameBut;
      ghost var m := M();
      FramedSelf(m, r, 0, 0);
      next := Kalloc();
      if next == 0 {
        return;
      }
      ghost var x := M();
      assert SpaceOk(x, r) && NodeOk(x, r, p);
      FramedGrow(m, x, Grown(x, r, p, i, next), r, p, i, next, 0);
      page := page[next := EmptyTable()];
      page := page[q := Table(page[q].ptes[i := TablePte(next)])];
      own := own[next := Tab(r, Kid(p, i))];
      ghost var tab: map<Path, nat> := spaces[r][Kid(p, i) := next];
      spaces := spaces[r := tab];
    }

    /** A turn of walk's loop: from page table p to the one behind its entry i. */
    method Descend(r: nat, ghost p: Path, q: nat, i: nat, alloc: bool) returns (next: nat)
      requires Valid() && r in spaces && p in spaces[r] && q == spaces[r][p] && !p.Low? && i < ENTRIES
      modifies this
      ensures Valid() && Framed(old(M()), M(), r, 0, 0) && LeavesBut(old(M()), M(), r, 0, 0)
      ensures next != 0 ==> Kid(p, i) in spaces[r] && next == spaces[r][Kid(p, i)]
      ensures next == 0 || !alloc ==> M() == old(M())
      ensures next == 0 ==> Kid(p, i) !in spaces[r] && (alloc ==> chain == [])
    {
      hide Find;
      ghost var m := M();
      assert SpaceOk(m, r) && NodeOk(m, r, p) && EntOk(page, spaces[r], p, i);
      FramedSelf(m, r, 0, 0);
      var pte := page[q].ptes[i];
      if pte.v {
        assert NodeOk(m, r, Kid(p, i)) && PageOk(m, spaces[r][Kid(p, i)]);
        return pte.ppn;
      }
      if !alloc {
        return 0;
      }
      next := AddTable(r, p, q, i);
    }

    /** walk: where the entry for va is, or nothing. The map stays the same, whether or not
        page tables are added; without alloc nothing changes at all. */
    method Walk(r: nat, va: nat, alloc: bool) returns (found: bool, q: nat, i: nat)
      requires Valid() && r in spaces && va < MAXVA
      modifies this
      ensures Valid() && Framed(old(M()), M(), r, 0, 0) && LeavesBut(old(M()), M(), r, 0, 0)
      ensures (!alloc ==> M() == old(M())) && (!found ==> LowOf(va / PGSIZE) !in spaces[r])
      ensures found ==> LowOf(va / PGSIZE) in spaces[r] && q == spaces[r][LowOf(va / PGSIZE)]
                        && i == va / PGSIZE % ENTRIES
      ensures found ==> IsTable(page, q)
      ensures !found && alloc ==> chain == []
    {
      hide Find, Inv;
      ghost var m := M();
      Rooted(m, r);
      FramedSelf(m, r, 0, 0);
      PxPage(va);
      q, i := r, 0;
      var level := 2;
      ghost var p := Root;
      while level > 0
        invariant 0 <= level <= 2 && Valid() && r in spaces && p in spaces[r] && q == spaces[r][p]
        invariant p == if level == 2 then Root else if level == 1 then Mid(Px(2, va)) else Low(Px(2, va), Px(1, va))
        invariant Framed(m, M(), r, 0, 0) && LeavesBut(m, M(), r, 0, 0) && (!alloc ==> M() == m)
      {
        ghost var x := M();
        var next := Descend(r, p, q, Px(level, va), alloc);
        FramedTrans(m, x, M(), r, 0, 0, 0);
        if next == 0 {
          NoKid(M(), r, p, Px(level, va), va);
          return false, 0, 0;
        }
        p, q := Kid(p, Px(level, va)), next;
        level := level - 1;
      }
      TableThere(M(), r, p);
      return true, q, Px(0, va);
    }

    /** The assignment *pte = e, through the pointer that walk returned for page n. */
    method Store(r: nat, ghost n: nat, q: nat, i: nat, e: Pte)
      requires CanEnter(M(), r, n, e) && q == spaces[r][LowOf(n)] && i == n % ENTRIES
      modifies this`page
      ensures Valid() && M() == Entered(old(M()), r, n, e) && Framed(old(M()), M(), r, 0, 0)
    {
      FramedEnter(M(), Entered(M(), r, n, e), r, n, e, 0);
      page := page[q := Table(page[q].ptes[i := e])];
    }

    /** walkaddr: the page behind a user-accessible mapping of va, or 0. */
    method Walkaddr(r: nat, va: nat) returns (ppn: nat)
      requires Valid() && r in spaces
      modifies this
      ensures M() == old(M()) && Valid()
      ensures ppn == if va < MAXVA && Leaf(M(), r, va / PGSIZE).Some? && Leaf(M(), r, va / PGSIZE).value.u
                     then Leaf(M(), r, va / PGSIZE).value.ppn else 0
    {
      hide Inv;
      if va >= MAXVA {
        return 0;
      }
      var found, q, i := Walk(r, va, false);
      if !found || !page[q].ptes[i].v || !page[q].ptes[i].u {
        return 0;
      }
      ppn := page[q].ptes[i].ppn;
    }

    /** A turn of mappages' loop: the page at a is mapped to the one at b. */
    method MapOne(r: nat, a: nat, b: nat, perm: Pte) returns (res: MapResult)
      requires Valid() && r in spaces && a < MAXVA && IsLeaf(LeafPte(0, perm))
      modifies this
      ensures Valid() && Framed(old(M()), M(), r, 0, 0)
      ensures res == Remap <==> Leaf(old(M()), r, a / PGSIZE).Some?
      ensures if res == Mapped then Maps(old(M()), M(), r, a / PGSIZE, 1, b / PGSIZE, perm)
              else LeavesBut(old(M()), M(), r, 0, 0) && (res == NoTable ==> chain == [])
    {
      hide Inv, Find, CanEnter, Framed;
      ghost var m, n := M(), a / PGSIZE;
      var found, q, i := Walk(r, a, true);
      ghost var y := M();
      FramedKeys(m, y, r, 0, 0);
      assert Leaf(y, r, n) == Leaf(m, r, n);
      if !found {
        NoTableNoLeaf(y, r, n);
        return NoTable;
      }
      EntryLeaf(y, r, n);
      if page[q].ptes[i].v {
        return Remap;
      }
      var e := LeafPte(b / PGSIZE, perm);
      FreeToEnter(y, r, n, e);
      Store(r, n, q, i, e);
      FramedTrans(m, y, M(), r, 0, 0, 0);
      MapsOne(m, y, M(), r, n, b / PGSIZE, perm);
      res := Mapped;
    }

    /** mappages: pages are mapped up to the first that is mapped already, which is the panic,
        or the first for which a page table cannot be had, which is the -1. */
    method Mappages(r: nat, va: nat, size: nat, pa: nat, perm: Pte) returns (res: MapResult, ghost k: nat)
      requires Valid() && r in spaces && size > 0 && va + size <= MAXVA && IsLeaf(LeafPte(0, perm))
      modifies this
      ensures Valid() && Framed(old(M()), M(), r, 0, 0)
      ensures Maps(old(M()), M(), r, va / PGSIZE, k, pa / PGSIZE, perm)
      ensures forall n: nat :: va / PGSIZE <= n < va / PGSIZE + k ==> Leaf(old(M()), r, n) == None
      ensures if res == Mapped then va / PGSIZE + k == (va + size - 1) / PGSIZE + 1
              else va / PGSIZE + k <= (va + size - 1) / PGSIZE
                   && (res == Remap <==> Leaf(old(M()), r, va / PGSIZE + k).Some?) && (res == NoTable ==> chain == [])
    {
      hide Inv, Find, CanEnter, Framed;
      ghost var m := M();
      var a, last, b := va / PGSIZE * PGSIZE, (va + size - 1) / PGSIZE * PGSIZE, pa;
      k := 0;
      StartMapping(m, r, va / PGSIZE, pa / PGSIZE, perm);
      while true
        invariant Valid() && r in spaces && Framed(m, M(), r, 0, 0)
        invariant a == (va / PGSIZE + k) * PGSIZE && a <= last < MAXVA && b == pa + k * PGSIZE
        invariant Maps(m, M(), r, va / PGSIZE, k, pa / PGSIZE, perm)
        invariant forall n: nat :: va / PGSIZE <= n < va / PGSIZE + k ==> Leaf(m, r, n) == None
        decreases last - a
      {
        ghost var x := M();
        assert MapsAt(m, x, r, va / PGSIZE, k, pa / PGSIZE, perm, va / PGSIZE + k);
        assert a / PGSIZE == va / PGSIZE + k && b / PGSIZE == pa / PGSIZE + k;
        res := MapOne(r, a, b, perm);
        FramedTrans(m, x, M(), r, 0, 0, 0);
        if res != Mapped {
          MapsSame(m, x, M(), r, va / PGSIZE, k, pa / PGSIZE, perm);
          return;
        }
        MapsJoin(m, x, M(), r, va / PGSIZE, k, k + 1, pa / PGSIZE, perm);
        k := k + 1;
        if a == last {
          return;
        }
        a := a + PGSIZE;
        b := b + PGSIZE;
      }
      res := Mapped;
    }

    /** A turn of uvmunmap's loop: page n is unmapped, and its page freed if asked. False is
        the panic for a page that is not mapped. */
    method UnmapOne(r: nat, a: nat, free: bool) returns (ok: bool)
      requires Valid() && r in spaces && a < MAXVA
      requires Leaf(M(), r, a / PGSIZE).Some? ==> Droppable(M(), r, a / PGSIZE, free)
      modifies this
      ensures Valid() && ok == Leaf(old(M()), r, a / PGSIZE).Some?
      ensures if ok then Unmapped(old(M()), M(), r, a / PGSIZE, a / PGSIZE + 1, free) else M() == old(M())
    {
      hide NodeOk, EntOk, SpaceOk, HeapOk, SameTree, SameBut, Unmapped;
      ghost var m, n := M(), a / PGSIZE;
      var found, q, i := Walk(r, a, false);
      if !found || !page[q].ptes[i].v {
        return false;
      }
      var pte := page[q].ptes[i];
      if free {
        var pa := pte.ppn;
        PageIsOk(m, pa);
        ghost var x := Put(m, pa, page[pa], Kept);
        Release(m, x, Pushed(x, pa), r, n, pa);
        own := own[pa := Kept];
        assert M() == x;
        Kfree(pa);
      }
      ghost var y := M();
      SameAll(m);
      TableStays(m, y, r, LowOf(n));
      ClearOne(m, y, Entered(y, r, n, NoPte()), r, n, free);
      page := page[q := Table(page[q].ptes[i := NoPte()])];
      ok := true;
    }

    /** uvmunmap of npages pages from va on, up to the first, k, that is not mapped; there is
        no such page if ok. */
    method Uvmunmap(r: nat, va: nat, npages: nat, free: bool) returns (ok: bool, ghost k: nat)
      requires Valid() && r in spaces && va % PGSIZE == 0 && va + npages * PGSIZE <= MAXVA
      requires forall n: nat :: va / PGSIZE <= n < va / PGSIZE + npages && Leaf(M(), r, n).Some? ==>
               Droppable(M(), r, n, free)
      modifies this
      ensures Valid() && Unmapped(old(M()), M(), r, va / PGSIZE, va / PGSIZE + k, free)
      ensures k <= npages && forall n: nat :: va / PGSIZE <= n < va / PGSIZE + k ==> Leaf(old(M()), r, n).Some?
      ensures if ok then k == npages else k < npages && Leaf(old(M()), r, va / PGSIZE + k) == None
      ensures old(AllOwn(M())) ==> AllOwn(M())
    {
      hide Inv, Unmapped, Droppable, AllOwn, Find;
      ghost var m, n0 := M(), va / PGSIZE;
      UnmappedNone(m, r, n0, free);
      var a := va;
      k, ok := 0, true;
      while a < va + npages * PGSIZE
        invariant k <= npages && a == va + k * PGSIZE && r in spaces && ok
        invariant Valid() && Unmapped(m, M(), r, n0, n0 + k, free)
        invariant forall n: nat :: n0 <= n < n0 + k ==> Leaf(m, r, n).Some?
      {
        ghost var x := M();
        assert a / PGSIZE == n0 + k;
        StillThere(m, x, r, n0, n0 + k, free);
        ok := UnmapOne(r, a, free);
        if !ok {
          break;
        }
        UnmappedJoin(m, x, M(), r, n0, n0 + k, n0 + k + 1, free);
        UnmappedSpaces(m, M(), r, n0, n0 + k + 1, free);
        a := a + PGSIZE;
        k := k + 1;
      }
      if AllOwn(m) {
        OwnUnmapped(m, M(), r, n0, n0 + k, free);
      }
    }

    /** kalloc, fill and mappages for the user page at a, as uvmalloc and uvmcopy do it. */
    method AddPage(r: nat, a: nat, p: Page, perm: Pte) returns (ok: bool)
      requires Valid() && r in spaces && a % PGSIZE == 0 && a < MAXVA && IsLeaf(LeafPte(0, perm))
      requires p.Data? && |p.bytes| == PGSIZE && Leaf(M(), r, a / PGSIZE) == None
      modifies this
      ensures Valid()
      ensures var n := a / PGSIZE;
              if ok then Framed(old(M()), M(), r, n, n + 1) && LeavesBut(old(M()), M(), r, n, n + 1)
                  && Filled(M(), r, n, perm, p)
              else Framed(old(M()), M(), r, n, n) && LeavesBut(old(M()), M(), r, n, n)
    {
      hide Find, NodeOk, EntOk, Inv, SameTree, SameBut, LeavesBut, Maps, Framed, Filled;
      ghost var m, n := M(), a / PGSIZE;
      FramedAlways(m, r, n);
      var q := Kalloc();
      if q == 0 {
        return false;
      }
      ghost var x := M();
      PopKeeps(m, x, q);
      PutKeeps(x, Put(x, q, p, Kept), q, p, Kept);
      page := page[q := p];
      own := own[q := Kept];
      ghost var y := M();
      SameLeaf(m, x, r, n);
      SameLeaf(x, y, r, n);
      assert (a + PGSIZE - 1) / PGSIZE == n;
      var res, k := Mappages(r, a, PGSIZE, q * PGSIZE, perm);
      ok := res == Mapped;
      ghost var z := M();
      KeptStays(y, z, r, q);
      if !ok {
        NoneMapped(y, z, r, n, q, perm);
        GivenBack(m, x, y, z, Pushed(z, q), r, n, q, p);
        Kfree(q);
        return;
      }
      Added(m, x, y, z, Put(z, q, p, User(r, n)), r, n, q, p, perm);
      own := own[q := User(r, n)];
      assert M() == Put(z, q, p, User(r, n));
    }

    /** uvmdealloc: the pages wholly above newsz are unmapped and free again. */
    method Uvmdealloc(r: nat, oldsz: nat, newsz: nat) returns (sz: nat)
      requires Valid() && r in spaces && oldsz <= MAXVA
      requires forall n: nat :: Pages(newsz) <= n < Pages(oldsz) ==> Droppable(M(), r, n, true)
      modifies this
      ensures Valid() && sz == if newsz < oldsz then newsz else oldsz
      ensures Unmapped(old(M()), M(), r, Pages(sz), Pages(oldsz), true)
      ensures old(AllOwn(M())) ==> AllOwn(M())
    {
      hide Inv, Unmapped, Droppable, AllOwn;
      UnmappedNone(M(), r, Pages(oldsz), true);
      if newsz >= oldsz {
        return oldsz;
      }
      if Pages(newsz) < Pages(oldsz) {
        assert Pages(newsz) * PGSIZE / PGSIZE == Pages(newsz);
        DroppableThere(M(), r, Pages(newsz), Pages(oldsz), true);
        var ok, k := Uvmunmap(r, Pages(newsz) * PGSIZE, Pages(oldsz) - Pages(newsz), true);
      }
      sz := newsz;
    }

    /** uvmalloc: on success, zeroed pages for all of newsz. If memory runs out, 0, and the map
        is what it was: only page tables were added. */
    method Uvmalloc(r: nat, oldsz: nat, newsz: nat) returns (sz: nat)
      requires Valid() && r in spaces && newsz <= MAXVA
      requires forall n: nat :: Pages(oldsz) <= n < Pages(newsz) ==> Leaf(M(), r, n) == None
      modifies this
      ensures Valid()
      ensures newsz < oldsz ==> sz == oldsz && M() == old(M())
      ensures newsz >= oldsz && sz != 0 ==>
                && sz == newsz && Framed(old(M()), M(), r, Pages(oldsz), Pages(newsz))
                && LeavesBut(old(M()), M(), r, Pages(oldsz), Pages(newsz))
                && forall n: nat :: Pages(oldsz) <= n < Pages(newsz) ==> Filled(M(), r, n, RWXU(), Fill(0))
      ensures newsz >= oldsz && sz == 0 ==>
                Framed(old(M()), M(), r, Pages(oldsz), Pages(oldsz))
                    && LeavesBut(old(M()), M(), r, Pages(oldsz), Pages(oldsz))
      ensures old(AllOwn(M())) ==> AllOwn(M())
    {
      hide Inv, Find, Framed, LeavesBut, Filled, Unmapped, Droppable, Fill, AllOwn;
      if newsz < oldsz {
        return oldsz;
      }
      ghost var m, lo := M(), Pages(oldsz);
      FramedAlways(m, r, lo);
      var a := Pages(oldsz) * PGSIZE;
      ghost var k := lo;
      while a < newsz
        invariant lo <= k && (lo < k ==> k <= Pages(newsz)) && a == k * PGSIZE && Valid() && r in spaces
        invariant Framed(m, M(), r, lo, k) && LeavesBut(m, M(), r, lo, k)
        invariant forall n: nat :: lo <= n < k ==> Filled(M(), r, n, RWXU(), Fill(0))
      {
        ghost var x := M();
        LeafBut(m, x, r, lo, k, k);
        FillShape(0);
        var ok := AddPage(r, a, Fill(0), RWXU());
        FramedJoin(m, x, M(), r, lo, k, if ok then k + 1 else k);
        FramedKeys(m, M(), r, lo, if ok then k + 1 else k);
        forall n: nat | lo <= n < k ensures Filled(M(), r, n, RWXU(), Fill(0)) {
          FilledKept(x, M(), r, k, if ok then k + 1 else k, n, RWXU(), Fill(0));
        }
        if !ok {
          ghost var y := M();
          forall n: nat | lo <= n < k ensures Droppable(y, r, n, true) {
            FilledDroppable(y, r, n, RWXU(), Fill(0));
          }
          var ignored := Uvmdealloc(r, a, Pages(oldsz) * PGSIZE);
          RolledBack(m, y, M(), r, lo, k);
          OwnAfter(m, M(), r, lo, lo);
          return 0;
        }
        a := a + PGSIZE;
        k := k + 1;
      }
      forall n: nat | lo <= n < k ensures Droppable(M(), r, n, true) {
        FilledDroppable(M(), r, n, RWXU(), Fill(0));
      }
      OwnAfter(m, M(), r, lo, k);
      sz := newsz;
    }

    /** uvmcopy: on success the first Pages(sz) pages of space s have the permissions and the
        bytes of those of space o. If memory runs out, the map of s is what it was. Neither
        way does anything change in o, or in any other space. */
    method Uvmcopy(o: nat, s: nat, sz: nat) returns (ok: bool)
      requires Valid() && o in spaces && s in spaces && o != s && sz <= MAXVA
      requires forall n: nat :: n < Pages(sz) ==> Droppable(M(), o, n, true) && Leaf(M(), s, n) == None
      modifies this
      ensures Valid()
      ensures ok ==> Framed(old(M()), M(), s, 0, Pages(sz)) && LeavesBut(old(M()), M(), s, 0, Pages(sz))
      ensures ok ==> forall n: nat :: n < Pages(sz) ==> CopiedAt(old(M()), M(), o, s, n)
      ensures !ok ==> Framed(old(M()), M(), s, 0, 0) && LeavesBut(old(M()), M(), s, 0, 0)
      ensures old(AllOwn(M())) ==> AllOwn(M())
    {
      hide Inv, Find, Framed, LeavesBut, Filled, Unmapped, Droppable, AllOwn;
      ghost var m := M();
      FramedAlways(m, s, 0);
      var i := 0;
      ghost var k := 0;
      while i < sz
        invariant k <= Pages(sz) && i == k * PGSIZE && Valid() && s in spaces && spaces.Keys == m.spaces.Keys
        invariant Framed(m, M(), s, 0, k) && LeavesBut(m, M(), s, 0, k)
        invariant forall n: nat :: n < k ==> CopiedAt(m, M(), o, s, n)
      {
        ghost var x := M();
        assert i / PGSIZE == k;
        SourceKept(m, x, o, s, 0, k, k);
        LeafBut(m, x, s, 0, k, k);
        var pte := ReadPte(o, i);
        var copied := AddPage(s, i, page[pte.ppn], pte);
        ghost var l := if copied then k + 1 else k;
        FramedJoin(m, x, M(), s, 0, k, l);
        FramedKeys(m, M(), s, 0, l);
        forall n: nat | n < k ensures CopiedAt(m, M(), o, s, n) {
          assert CopiedAt(m, x, o, s, n);
          FilledKept(x, M(), s, k, l, n, Leaf(m, o, n).value, m.page[Leaf(m, o, n).value.ppn]);
        }
        if !copied {
          ghost var y := M();
          forall n: nat | n < k ensures Droppable(y, s, n, true) {
            assert CopiedAt(m, y, o, s, n);
            FilledDroppable(y, s, n, Leaf(m, o, n).value, m.page[Leaf(m, o, n).value.ppn]);
          }
          DroppableThere(y, s, 0, k, true);
          var unmapped, j := Uvmunmap(s, 0, i / PGSIZE, true);
          RolledBack(m, y, M(), s, 0, k);
          OwnAfter(m, M(), s, 0, 0);
          return false;
        }
        i := i + PGSIZE;
        k := k + 1;
      }
      forall n: nat | 0 <= n < k ensures Droppable(M(), s, n, true) {
        assert CopiedAt(m, M(), o, s, n);
        FilledDroppable(M(), s, n, Leaf(m, o, n).value, m.page[Leaf(m, o, n).value.ppn]);
      }
      OwnAfter(m, M(), s, 0, k);
      ok := true;
    }

    /** The entry that walk finds for a mapped page. */
    method ReadPte(r: nat, va: nat) returns (pte: Pte)
      requires Valid() && r in spaces && va < MAXVA && Leaf(M(), r, va / PGSIZE).Some?
      modifies this
      ensures Valid() && M() == old(M()) && pte == Leaf(M(), r, va / PGSIZE).value
    {
      hide Inv;
      var found, q, i := Walk(r, va, false);
      pte := page[q].ptes[i];
    }

    /** freewalk of page table p of space r, which is page q: it and every page table below it
        are freed, each once. There is no leaf below it, so the panic is not reached. */
    method Freewalk(r: nat, ghost p: Path, q: nat)
      requires Falling(M(), r) && p in spaces[r] && q == spaces[r][p] && BareBelow(M(), r, p)
      modifies this
      ensures Falling(M(), r) && Felled(old(M()), M(), r, BelowSet(old(spaces)[r], p), p)
      decreases if p.Root? then 2 else if p.Mid? then 1 else 0
    {
      hide HeapOk, SpaceOk, SameTree, BareBelow, Falling, Felled, EntOk, BelowSet, UnderSet;
      ghost var m := M();
      FelledNone(m, r, p);
      var i := 0;
      while i < ENTRIES
        invariant 0 <= i <= ENTRIES && FelledTo(m, M(), r, p, i)
      {
        ghost var x := M();
        AtEntry(m, x, r, p, i);
        var pte := page[q].ptes[i];
        if pte.v && !pte.r && !pte.w && !pte.x {
          StillBare(m, x, r, p, i);
          Freewalk(r, Kid(p, i), pte.ppn);
          AfterKid(m, x, M(), r, p, i);
          TurnFells(m, x, M(), Cleared(M(), r, p, i), r, p, i);
          page := page[q := Table(page[q].ptes[i := NoPte()])];
        } else {
          TurnSkips(m, x, r, p, i);
        }
        i := i + 1;
      }
      ghost var x := M();
      FelledPage(m, x, r, p);
      LastFells(m, x, Dropped(x, r, p), r, p);
      Kfree(q);
      ghost var tab: map<Path, nat> := spaces[r] - {p};
      spaces := spaces[r := tab];
    }

    /** freewalk of a whole page table. */
    method FreeTree(r: nat)
      requires Valid() && r in spaces && forall n: nat :: Leaf(M(), r, n) == None
      modifies this
      ensures Valid() && Dismantled(old(M()), M(), r)
    {
      hide HeapOk, SpaceOk, SameTree, BareBelow, Falling, Felled, EntOk, BelowSet, Inv, Find;
      ghost var m := M();
      ReadyToFall(m, r);
      Freewalk(r, Root, r);
      ghost var x := M();
      FelledAll(m, x, Without(x, r), r);
      spaces := spaces - {r};
    }

    /** uvmfree of a space in which exactly the first Pages(sz) pages are mapped. */
    method Uvmfree(r: nat, sz: nat)
      requires Valid() && r in spaces && sz <= MAXVA
      requires forall n: nat :: if n < Pages(sz) then Droppable(M(), r, n, true) else Leaf(M(), r, n) == None
      modifies this
      ensures Valid() && Dismantled(old(M()), M(), r)
      ensures old(AllOwn(M())) ==> AllOwn(M())
    {
      hide Inv, Find, Unmapped, Dismantled, AllOwn;
      ghost var m := M();
      UnmappedNone(m, r, 0, true);
      if sz > 0 {
        var ok, k := Uvmunmap(r, 0, Pages(sz), true);
      }
      ghost var x := M();
      UnmappedSpaces(m, x, r, 0, Pages(sz), true);
      UnmappedBare(m, x, r, Pages(sz));
      FreeTree(r);
      UnmappedDismantled(m, x, M(), r, Pages(sz));
      if AllOwn(m) {
        OwnDismantled(m, M(), r);
      }
    }
  }

  lemma UnmappedBare(m: Mem, x: Mem, r: nat, k: nat)
    requires Unmapped(m, x, r, 0, k, true) && forall n: nat :: n >= k ==> Leaf(m, r, n) == None
    ensures forall n: nat :: Leaf(x, r, n) == None
  {
    hide Find;
    forall n: nat ensures Leaf(x, r, n) == None {
      assert Leaf(x, r, n) == if 0 <= n < k then None else Leaf(m, r, n);
    }
  }

  lemma UnmappedDismantled(m: Mem, x: Mem, w: Mem, r: nat, k: nat)
    requires Inv(m) && Unmapped(m, x, r, 0, k, true) && Dismantled(x, w, r) && forall n: nat :: n >= k ==>
             Leaf(m, r, n) == None
    ensures Dismantled(m, w, r)
  {
    hide Find, SameTree, SpaceOk, HeapOk;
    forall q | q in m.own ensures GoneUse(m, w, r, q) {
      assert UnmapUse(m, x, r, 0, k, true, q) && GoneUse(x, w, r, q);
      if m.own[q].User? {
        UserLeaf(m, q);
      }
    }
    forall s | s in m.spaces && s != r ensures SameTree(m, w, s) {
      SameTreeTrans(m, x, w, s);
    }
  }

  /** Page table p itself is untouched by the freeing of a table below it. */
  lemma AfterKid(m: Mem, x: Mem, y: Mem, r: nat, p: Path, i: nat)
    requires FelledTo(m, x, r, p, i) && Falling(m, r) && i < ENTRIES && !p.Low? && Kid(p, i) in x.spaces[r]
    requires Falling(y, r) && Felled(x, y, r, BelowSet(x.spaces[r], Kid(p, i)), Kid(p, i))
    ensures r in y.spaces && p in y.spaces[r] && y.spaces[r][p] == m.spaces[r][p] && IsTable(y.page, m.spaces[r][p])
    ensures y.page[m.spaces[r][p]] == x.page[m.spaces[r][p]]
  {
    hide HeapOk, SpaceOk, SameTree;
    StandsAt(x, r, p);
    assert !Below(p, Kid(p, i));
    assert FellUse(x, y, r, BelowSet(x.spaces[r], Kid(p, i)), Kid(p, i), m.spaces[r][p]);
  }

  lemma FelledPage(m: Mem, x: Mem, r: nat, p: Path)
    requires FelledTo(m, x, r, p, ENTRIES)
    ensures r in x.spaces && p in x.spaces[r] && x.spaces[r][p] == m.spaces[r][p]
  {
    hide HeapOk, SpaceOk, SameTree, FellUse, Falling;
  }

  lemma OwnAfter(m: Mem, w: Mem, r: nat, lo: nat, hi: nat)
    requires Framed(m, w, r, lo, hi) && LeavesBut(m, w, r, lo, hi)
    requires forall n: nat :: lo <= n < hi ==> Droppable(w, r, n, true)
    ensures AllOwn(m) ==> AllOwn(w)
  {
    if AllOwn(m) {
      OwnFramed(m, w, r, lo, hi);
    }
  }

  function Pages(sz: nat): (n: nat) {
    (sz + PGSIZE - 1) / PGSIZE
  }

  function RWXU(): (e: Pte) {
    Pte(0, true, true, true, true, true)
  }

  lemma LeafBut(m: Mem, w: Mem, r: nat, lo: nat, hi: nat, n: nat)
    requires LeavesBut(m, w, r, lo, hi) && !(lo <= n < hi)
    ensures r in m.spaces && r in w.spaces && Leaf(w, r, n) == Leaf(m, r, n)
  {
  }

  lemma FillShape(b: Byte)
    ensures Fill(b).Data? && |Fill(b).bytes| == PGSIZE
  {
  }

  lemma FramedAlways(m: Mem, r: nat, n: nat)
    requires Inv(m) && r in m.spaces
    ensures Framed(m, m, r, n, n) && LeavesBut(m, m, r, n, n)
  {
    FramedSelf(m, r, n, n);
  }

  lemma KeptStays(y: Mem, z: Mem, r: nat, q: nat)
    requires Framed(y, z, r, 0, 0) && q in y.own && y.own[q] == Kept
    ensures q in z.own && z.own[q] == Kept && q in y.page && q in z.page && z.page[q] == y.page[q]
  {
    assert UseKept(y, z, r, 0, 0, q);
  }

  lemma NoneMapped(m: Mem, w: Mem, r: nat, n: nat, ppn: nat, perm: Pte)
    requires Maps(m, w, r, n, 0, ppn, perm)
    ensures LeavesBut(m, w, r, 0, 0)
  {
    hide Find;
    forall k: nat ensures Leaf(w, r, k) == Leaf(m, r, k) {
      assert MapsAt(m, w, r, n, 0, ppn, perm, k);
    }
  }

  lemma UnmappedSpaces(m: Mem, w: Mem, r: nat, lo: nat, hi: nat, free: bool)
    requires Unmapped(m, w, r, lo, hi, free)
    ensures w.spaces == m.spaces && w.own.Keys == m.own.Keys
  {
  }

  lemma SameAll(m: Mem)
    ensures SameBut(m, m, {}) && forall s :: s in m.spaces ==> SameTree(m, m, s)
  {
  }

  lemma TableStays(m: Mem, y: Mem, r: nat, p: Path)
    requires Inv(m) && r in m.spaces && p in m.spaces[r] && SameTree(m, y, r)
    ensures IsTable(y.page, m.spaces[r][p]) && y.page[m.spaces[r][p]] == m.page[m.spaces[r][p]]
  {
    assert SpaceOk(m, r) && NodeOk(m, r, p) && SameNode(m, y, m.spaces[r][p]);
  }

  lemma FramedKeys(m: Mem, w: Mem, r: nat, lo: nat, hi: nat)
    requires Framed(m, w, r, lo, hi)
    ensures w.spaces.Keys == m.spaces.Keys && w.own.Keys == m.own.Keys
  {
  }

  lemma StartMapping(m: Mem, r: nat, n0: nat, ppn: nat, perm: Pte)
    requires Inv(m) && r in m.spaces
    ensures Framed(m, m, r, 0, 0) && Maps(m, m, r, n0, 0, ppn, perm)
  {
    hide Find;
    FramedSelf(m, r, 0, 0);
    forall n: nat ensures MapsAt(m, m, r, n0, 0, ppn, perm, n) {
    }
  }

  lemma MapsSame(m: Mem, x: Mem, y: Mem, r: nat, n0: nat, k: nat, ppn: nat, perm: Pte)
    requires Maps(m, x, r, n0, k, ppn, perm) && LeavesBut(x, y, r, 0, 0)
    ensures Maps(m, y, r, n0, k, ppn, perm)
  {
    hide Find;
    forall n: nat ensures MapsAt(m, y, r, n0, k, ppn, perm, n) {
      assert MapsAt(m, x, r, n0, k, ppn, perm, n);
      assert Leaf(y, r, n) == Leaf(x, r, n);
    }
  }

  /** Any page number. */
  predicate Numbered(q: nat) {
    true
  }

  lemma HeadIsFirst(m: Mem)
    requires HeapOk(m)
    ensures m.head == 0 <==> m.chain == []
    ensures m.chain != [] ==> m.head == m.chain[0] && RunOk(m, 0)
  {
    if m.chain != [] {
      assert RunOk(m, 0);
      assert PageOk(m, m.chain[0]);
    }
  }

  lemma Rooted(m: Mem, r: nat)
    requires Inv(m) && r in m.spaces
    ensures HeapOk(m) && Root in m.spaces[r] && m.spaces[r][Root] == r
  {
    assert SpaceOk(m, r);
  }

  lemma TableThere(m: Mem, r: nat, p: Path)
    requires Inv(m) && r in m.spaces && p in m.spaces[r]
    ensures IsTable(m.page, m.spaces[r][p])
  {
    assert SpaceOk(m, r) && NodeOk(m, r, p);
  }

  /** Without a page table on the way, there is none at the bottom. */
  lemma NoKid(m: Mem, r: nat, p: Path, i: nat, va: nat)
    requires Inv(m) && r in m.spaces && !p.Low? && Kid(p, i) !in m.spaces[r] && va < MAXVA
    requires (p == Root && i == Px(2, va)) || (p == Mid(Px(2, va)) && i == Px(1, va))
    ensures LowOf(va / PGSIZE) !in m.spaces[r]
  {
    PxPage(va);
    assert SpaceOk(m, r);
    var n := va / PGSIZE;
    assert LowOf(n) in m.spaces[r] ==> NodeOk(m, r, LowOf(n));
  }
}
