/** Page tables of processes, and what fork does with memory (kernel/proc.c:112-180, 233-248):
    a failure at any kalloc gives every page back. */
module ForkSpec {
  import opened VmSpec
  import opened VmRel
  import opened FellSpec
  import opened Prelude

  /** Page q is as it was, or it was free and belongs to the new space r. */
  ghost predicate GrewUse(m: Mem, w: Mem, r: nat, q: nat)
    requires q in m.own && q in w.own
  {
    && (w.own[q] == m.own[q] || (m.own[q] == Free && (w.own[q].Tab? || w.own[q].User?) && w.own[q].root == r))
    && (m.own[q] == Kept || m.own[q].User? ==> q in m.page && q in w.page && w.page[q] == m.page[q])
  }

  /** w is m with a new space r, made of free pages. */
  ghost predicate Grew(m: Mem, w: Mem, r: nat) {
    && r !in m.spaces && w.spaces.Keys == m.spaces.Keys + {r} && w.own.Keys == m.own.Keys
    && (forall q {:trigger GrewUse(m, w, r, q)} :: q in m.own ==> GrewUse(m, w, r, q))
    && (forall s {:trigger SameTree(m, w, s)} :: s in m.spaces ==> SameTree(m, w, s))
  }

  /** Every page has the use it had, every tree is the same, and no kept or user page changed. */
  ghost predicate Restored(m: Mem, w: Mem) {
    && w.own == m.own && w.spaces.Keys == m.spaces.Keys
    && (forall s {:trigger SameTree(m, w, s)} :: s in m.spaces ==> SameTree(m, w, s))
    && (forall q :: q in m.own && (m.own[q] == Kept || m.own[q].User?) ==> SameNode(m, w, q))
  }

  lemma OwnRestored(m: Mem, w: Mem)
    requires AllOwn(m) && Restored(m, w)
    ensures AllOwn(w)
  {
    hide Find;
    forall s, n: nat | s in w.spaces ensures OwnAt(w, s, n) {
      assert OwnPages(m, s);
      assert OwnAt(m, s, n) && SameTree(m, w, s);
      SameLeaf(m, w, s, n);
      OwnKept(m, w, s, n);
    }
  }

  /** A new space that maps what is its own leaves every other space as it was. */
  lemma OwnGrew(m: Mem, w: Mem, r: nat)
    requires AllOwn(m) && Grew(m, w, r) && OwnPages(w, r)
    ensures AllOwn(w)
  {
    hide Find;
    forall s, n: nat | s in w.spaces ensures OwnAt(w, s, n) {
      if s == r {
        assert OwnAt(w, r, n);
      } else {
        assert OwnPages(m, s);
        assert OwnAt(m, s, n) && SameTree(m, w, s);
        SameLeaf(m, w, s, n);
        if Leaf(m, s, n).Some? && Leaf(m, s, n).value.ppn in m.own {
          assert GrewUse(m, w, r, Leaf(m, s, n).value.ppn);
        }
        OwnKept(m, w, s, n);
      }
    }
  }

  /** Taking a free page is no matter to anyone. */
  lemma OwnPopped(m: Mem, x: Mem, q: nat)
    requires Inv(m) && AllOwn(m) && m.chain != [] && q == m.chain[0] && x == Popped(m)
    ensures AllOwn(x)
  {
    hide Find, SpaceOk, HeapOk;
    PopKeeps(m, x, q);
    forall s, n: nat | s in x.spaces ensures OwnAt(x, s, n) {
      assert OwnPages(m, s);
      assert OwnAt(m, s, n);
      SameLeaf(m, x, s, n);
      OwnKept(m, x, s, n);
    }
  }

  /** In particular the free pages are the same. */
  lemma RestoredFree(m: Mem, w: Mem, q: nat)
    requires Inv(m) && Inv(w) && Restored(m, w)
    ensures q in m.chain <==> q in w.chain
  {
    hide SpaceOk;
    if q in m.chain {
      var i: nat :| i < |m.chain| && m.chain[i] == q;
      assert RunOk(m, i) && PageOk(w, q);
    }
    if q in w.chain {
      var i: nat :| i < |w.chain| && w.chain[i] == q;
      assert RunOk(w, i) && PageOk(m, q);
    }
  }

  lemma NotYet(m: Mem, r: nat, q: nat)
    requires HeapOk(m) && r !in m.spaces && q in m.own
    ensures !((m.own[q].Tab? || m.own[q].User?) && m.own[q].root == r) && q in m.page
  {
    assert PageOk(m, q);
  }

  lemma GrewCreate(m: Mem, x: Mem, w: Mem, r: nat)
    requires Inv(m) && m.chain != [] && r == m.chain[0] && x == Popped(m) && w == Created(x, r)
    ensures Inv(w) && Grew(m, w, r) && forall n :: Leaf(w, r, n) == None
  {
    hide Find, SpaceOk, HeapOk, SameTree;
    PopKeeps(m, x, r);
    CreateKeeps(x, w, r);
    forall q | q in m.own ensures GrewUse(m, w, r, q) {
      PageIsOk(m, q);
      assert q != r ==> SameNode(m, x, q) && SameNode(x, w, q);
    }
    forall s | s in m.spaces ensures SameTree(m, w, s) {
      SameTreeTrans(m, x, w, s);
    }
  }

  lemma GrewFramed(m: Mem, x: Mem, w: Mem, r: nat, lo: nat, hi: nat)
    requires Grew(m, x, r) && Framed(x, w, r, lo, hi)
    ensures Grew(m, w, r)
  {
    hide SameTree;
    forall q | q in m.own ensures GrewUse(m, w, r, q) {
      assert GrewUse(m, x, r, q) && UseKept(x, w, r, lo, hi, q);
    }
    forall s | s in m.spaces ensures SameTree(m, w, s) {
      SameTreeTrans(m, x, w, s);
    }
  }

  lemma GrewUnmapped(m: Mem, x: Mem, w: Mem, r: nat, lo: nat, hi: nat)
    requires Grew(m, x, r) && Unmapped(x, w, r, lo, hi, false)
    ensures Grew(m, w, r)
  {
    hide SameTree;
    forall q | q in m.own ensures GrewUse(m, w, r, q) {
      assert GrewUse(m, x, r, q) && UnmapUse(x, w, r, lo, hi, false, q);
    }
    forall s | s in m.spaces ensures SameTree(m, w, s) {
      SameTreeTrans(m, x, w, s);
    }
  }

  /** A new space that is dismantled leaves no trace. */
  lemma GrewDismantled(m: Mem, x: Mem, w: Mem, r: nat)
    requires Inv(m) && Inv(w) && Grew(m, x, r) && Dismantled(x, w, r)
    ensures Restored(m, w)
  {
    hide SameTree, HeapOk, SpaceOk;
    forall q | q in m.own ensures w.own[q] == m.own[q] && (m.own[q] == Kept || m.own[q].User? ==> SameNode(m, w, q)) {
      assert GrewUse(m, x, r, q) && GoneUse(x, w, r, q);
      NotYet(m, r, q);
    }
    forall s | s in m.spaces ensures SameTree(m, w, s) {
      SameTreeTrans(m, x, w, s);
    }
  }

  /** Taking entries away and then dismantling is dismantling. */
  lemma UnmappedGone(m: Mem, x: Mem, w: Mem, r: nat, lo: nat, hi: nat)
    requires Unmapped(m, x, r, lo, hi, false) && Dismantled(x, w, r)
    ensures Dismantled(m, w, r)
  {
    hide SameTree;
    forall q | q in m.own ensures GoneUse(m, w, r, q) {
      assert UnmapUse(m, x, r, lo, hi, false, q) && GoneUse(x, w, r, q);
    }
    forall s | s in m.spaces && s != r ensures SameTree(m, w, s) {
      SameTreeTrans(m, x, w, s);
    }
  }

  /** kalloc of t, work that leaves no trace, kfree of t: no trace. */
  lemma LentBack(m: Mem, x: Mem, y: Mem, w: Mem, t: nat)
    requires Inv(m) && m.chain != [] && t == m.chain[0] && x == Popped(m) && Inv(y) && Restored(x, y)
             && w == Pushed(y, t)
    ensures Inv(w) && Restored(m, w)
  {
    hide Find, SpaceOk, HeapOk, SameTree;
    PopKeeps(m, x, t);
    PushKeeps(y, w, t);
    forall q | q in m.own ensures w.own[q] == m.own[q] && (m.own[q] == Kept || m.own[q].User? ==> SameNode(m, w, q)) {
      if q != t {
        assert SameNode(m, x, q) && SameNode(y, w, q);
      }
    }
    forall s | s in m.spaces ensures SameTree(m, w, s) {
      SameTreeTrans(m, x, y, s);
      SameTreeTrans(m, y, w, s);
    }
  }

  /** The same when t goes back first and the space r, in which t was mapped, after it. */
  lemma LentBackFirst(m: Mem, x: Mem, y: Mem, z: Mem, w: Mem, t: nat, r: nat)
    requires Inv(m) && m.chain != [] && t == m.chain[0] && x == Popped(m)
    requires Inv(x) && Inv(y) && Grew(x, y, r) && z == Pushed(y, t) && t in y.own && y.own[t] == Kept
    requires Inv(w) && Dismantled(z, w, r)
    ensures Restored(m, w)
  {
    hide Find, SpaceOk, HeapOk, SameTree;
    PopKeeps(m, x, t);
    PushKeeps(y, z, t);
    forall q | q in m.own ensures w.own[q] == m.own[q] && (m.own[q] == Kept || m.own[q].User? ==> SameNode(m, w, q)) {
      assert GrewUse(x, y, r, q) && GoneUse(z, w, r, q);
      NotYet(x, r, q);
      if q != t {
        assert SameNode(m, x, q) && SameNode(y, z, q);
      }
    }
    forall s | s in m.spaces ensures SameTree(m, w, s) {
      SameTreeTrans(m, x, y, s);
      SameTreeTrans(m, y, z, s);
      SameTreeTrans(m, z, w, s);
    }
  }
}

module ForkCode {
  import opened VmSpec
  import opened VmRel
  import opened FellSpec
  import opened VmCode
  import opened ForkSpec
  import opened Prelude

  const TRAMPOLINE: nat := MAXVA - PGSIZE
  const TRAPFRAME: nat := TRAMPOLINE - PGSIZE

  function RX(): (e: Pte) {
    Pte(0, true, true, false, true, false)
  }

  function RW(): (e: Pte) {
    Pte(0, true, true, true, false, false)
  }

  /** The map of a process without user memory: the trampoline and the trapframe. */
  function ProcLeaf(tf: nat, tramp: nat, n: nat): (e: Option<Pte>) {
    if n == TRAMPOLINE / PGSIZE then Some(LeafPte(tramp, RX()))
    else if n == TRAPFRAME / PGSIZE then Some(LeafPte(tf, RW()))
    else None
  }

  /** Nothing but the trampoline and the trapframe is mapped from page k on. */
  ghost predicate ProcAbove(m: Mem, r: nat, k: nat, tf: nat, tramp: nat) {
    r in m.spaces && forall n: nat :: n >= k ==> Leaf(m, r, n) == ProcLeaf(tf, tramp, n)
  }

  /** The mapping of page n does not own what it maps. */
  lemma NotUsers(m: Mem, x: Mem, r: nat, n: nat)
    requires Inv(m) && Grew(m, x, r) && Leaf(x, r, n).Some?
    requires Leaf(x, r, n).value.ppn in m.own ==> m.own[Leaf(x, r, n).value.ppn] != Free
    ensures Droppable(x, r, n, false)
  {
    hide Find, SpaceOk, HeapOk;
    var q := Leaf(x, r, n).value.ppn;
    if q in m.own {
      assert GrewUse(m, x, r, q);
      NotYet(m, r, q);
    }
  }

  /** uvmcreate: a new space without mappings, or 0. */
  method Uvmcreate(k: Kernel) returns (r: nat)
    requires k.Valid()
    modifies k
    ensures k.Valid()
    ensures r == 0 ==> k.M() == old(k.M())
    ensures r != 0 ==> Grew(old(k.M()), k.M(), r) && r in k.spaces && forall n :: Leaf(k.M(), r, n) == None
  {
    hide Inv, Find, Grew;
    ghost var m := k.M();
    r := k.Kalloc();
    if r != 0 {
      ghost var x := k.M();
      GrewCreate(m, x, Created(x, r), r);
      k.page := k.page[r := EmptyTable()];
      k.own := k.own[r := Tab(r, Root)];
      k.spaces := k.spaces[r := map[Root := r]];
    }
  }

  /** One page is mapped in the new space r; if that fails, the space is as before. */
  lemma GrewMaps(m: Mem, x: Mem, w: Mem, r: nat, n: nat, j: nat, ppn: nat, perm: Pte)
    requires Grew(m, x, r) && Framed(x, w, r, 0, 0) && Maps(x, w, r, n, j, ppn, perm) && j <= 1
    ensures Grew(m, w, r) && r in w.spaces
    ensures forall i: nat :: Leaf(w, r, i) == if j == 1 && i == n then Some(LeafPte(ppn, perm)) else Leaf(x, r, i)
  {
    hide Find, Grew;
    GrewFramed(m, x, w, r, 0, 0);
    forall i: nat ensures Leaf(w, r, i) == if j == 1 && i == n then Some(LeafPte(ppn, perm)) else Leaf(x, r, i) {
      assert MapsAt(x, w, r, n, j, ppn, perm, i);
    }
  }

  /** proc_pagetable: a space with just the trampoline and the trapframe page tf. On failure
      everything is given back. */
  method ProcPagetable(k: Kernel, tf: nat, tramp: nat) returns (r: nat)
    requires k.Valid() && tf in k.own && k.own[tf] == Kept && (tramp in k.own ==> k.own[tramp] != Free)
    modifies k
    ensures k.Valid()
    ensures r == 0 ==> Restored(old(k.M()), k.M())
    ensures r != 0 ==> Grew(old(k.M()), k.M(), r) && ProcAbove(k.M(), r, 0, tf, tramp)
    ensures old(AllOwn(k.M())) && tramp !in old(k.own) ==> AllOwn(k.M())
  {
    hide Inv, Find, Grew, Framed, Maps, Restored, Dismantled, Unmapped, Droppable, AllOwn;
    ghost var m := k.M();
    RestoredSelf(m);
    r := Uvmcreate(k);
    if r == 0 {
      return;
    }
    ghost var x := k.M();
    var res, j := k.Mappages(r, TRAMPOLINE, PGSIZE, tramp * PGSIZE, RX());
    ghost var y := k.M();
    GrewMaps(m, x, y, r, TRAMPOLINE / PGSIZE, j, tramp, RX());
    if res != Mapped {
      k.Uvmfree(r, 0);
      GrewDismantled(m, y, k.M(), r);
      OwnBack(m, k.M());
      return 0;
    }
    res, j := k.Mappages(r, TRAPFRAME, PGSIZE, tf * PGSIZE, RW());
    ghost var z := k.M();
    GrewMaps(m, y, z, r, TRAPFRAME / PGSIZE, j, tf, RW());
    if res != Mapped {
      NotUsers(m, z, r, TRAMPOLINE / PGSIZE);
      var ok, l := k.Uvmunmap(r, TRAMPOLINE, 1, false);
      GrewUnmapped(m, z, k.M(), r, TRAMPOLINE / PGSIZE, TRAMPOLINE / PGSIZE + 1);
      ghost var u := k.M();
      UnmappedOne(z, u, r, TRAMPOLINE / PGSIZE);
      k.Uvmfree(r, 0);
      GrewDismantled(m, u, k.M(), r);
      OwnBack(m, k.M());
      return 0;
    }
    OwnProc(m, z, r, tf, tramp);
  }

  lemma OwnBack(m: Mem, w: Mem)
    requires Restored(m, w)
    ensures AllOwn(m) ==> AllOwn(w)
  {
    if AllOwn(m) {
      OwnRestored(m, w);
    }
  }

  /** The space of a new process maps no page of memory but its kept trapframe. */
  lemma OwnProc(m: Mem, w: Mem, r: nat, tf: nat, tramp: nat)
    requires Grew(m, w, r) && ProcAbove(w, r, 0, tf, tramp) && tf in m.own && m.own[tf] == Kept
    ensures AllOwn(m) && tramp !in m.own ==> AllOwn(w)
  {
    hide Find;
    if AllOwn(m) && tramp !in m.own {
      assert GrewUse(m, w, r, tf);
      forall n: nat ensures OwnAt(w, r, n) {
        assert Leaf(w, r, n) == ProcLeaf(tf, tramp, n);
      }
      OwnGrew(m, w, r);
    }
  }

  lemma RestoredSelf(m: Mem)
    ensures Restored(m, m)
  {
  }

  lemma UnmappedOne(m: Mem, w: Mem, r: nat, n: nat)
    requires Unmapped(m, w, r, n, n + 1, false)
    ensures r in m.spaces && r in w.spaces && forall i: nat :: Leaf(w, r, i) == if i == n then None else Leaf(m, r, i)
  {
    hide Find;
    forall i: nat ensures Leaf(w, r, i) == if i == n then None else Leaf(m, r, i) {
      assert Leaf(w, r, i) == if n <= i < n + 1 then None else Leaf(m, r, i);
    }
  }

  /** proc_freepagetable. */
  method ProcFreepagetable(k: Kernel, r: nat, sz: nat)
    requires k.Valid() && r in k.spaces && sz <= TRAPFRAME
    requires forall n: nat :: if n < Pages(sz) then Droppable(k.M(), r, n, true)
               else if n == TRAMPOLINE / PGSIZE || n == TRAPFRAME / PGSIZE then Droppable(k.M(), r, n, false)
               else Leaf(k.M(), r, n) == None
    modifies k
    ensures k.Valid() && Dismantled(old(k.M()), k.M(), r)
    ensures old(AllOwn(k.M())) ==> AllOwn(k.M())
  {
    hide Inv, Find, Dismantled, Unmapped, Droppable, AllOwn;
    ghost var m := k.M();
    DroppableThere(m, r, TRAMPOLINE / PGSIZE, TRAMPOLINE / PGSIZE + 1, false);
    var ok, l := k.Uvmunmap(r, TRAMPOLINE, 1, false);
    ghost var x := k.M();
    UnmappedOne(m, x, r, TRAMPOLINE / PGSIZE);
    StillDroppable(m, x, r, TRAMPOLINE / PGSIZE, TRAMPOLINE / PGSIZE + 1, false, TRAPFRAME / PGSIZE);
    DroppableThere(x, r, TRAPFRAME / PGSIZE, TRAPFRAME / PGSIZE + 1, false);
    ok, l := k.Uvmunmap(r, TRAPFRAME, 1, false);
    ghost var y := k.M();
    UnmappedOne(x, y, r, TRAPFRAME / PGSIZE);
    forall n: nat | n < Pages(sz) ensures Droppable(y, r, n, true) {
      StillUser(m, x, r, TRAMPOLINE / PGSIZE, n);
      StillUser(x, y, r, TRAPFRAME / PGSIZE, n);
    }
    k.Uvmfree(r, sz);
    UnmappedGone(x, y, k.M(), r, TRAPFRAME / PGSIZE, TRAPFRAME / PGSIZE + 1);
    UnmappedGone(m, x, k.M(), r, TRAMPOLINE / PGSIZE, TRAMPOLINE / PGSIZE + 1);
  }

  lemma StillUser(m: Mem, w: Mem, r: nat, l: nat, n: nat)
    requires Unmapped(m, w, r, l, l + 1, false) && Droppable(m, r, n, true) && n != l
    ensures Droppable(w, r, n, true)
  {
    hide Find;
    assert Leaf(w, r, n) == if l <= n < l + 1 then None else Leaf(m, r, n);
    assert UnmapUse(m, w, r, l, l + 1, false, Leaf(m, r, n).value.ppn);
  }

  /** freeproc's share of memory, for a child into which nothing was copied. */
  method Freeproc(k: Kernel, tf: nat, tramp: nat, r: nat, ghost m: Mem, ghost x: Mem)
    requires k.Valid() && Inv(m) && m.chain != [] && tf == m.chain[0] && x == Popped(m) && Inv(x)
    requires Grew(x, k.M(), r) && ProcAbove(k.M(), r, 0, tf, tramp) && (tramp in x.own ==> x.own[tramp] != Free)
    modifies k
    ensures k.Valid() && Restored(m, k.M())
  {
    hide Inv, Find, Grew, Restored, Dismantled, Droppable, SameTree;
    ghost var y := k.M();
    KeptInNew(m, x, y, r, tf);
    k.Kfree(tf);
    ghost var z := k.M();
    forall n: nat | n == TRAMPOLINE / PGSIZE || n == TRAPFRAME / PGSIZE ensures Droppable(z, r, n, false) {
      NotUsers(x, y, r, n);
      StillForeign(y, z, tf, r, n);
    }
    forall n: nat ensures Leaf(z, r, n) == ProcLeaf(tf, tramp, n) {
      PushedLeaf(y, z, tf, r, n);
    }
    ProcFreepagetable(k, r, 0);
    LentBackFirst(m, x, y, z, k.M(), tf, r);
  }

  lemma KeptInNew(m: Mem, x: Mem, y: Mem, r: nat, t: nat)
    requires Inv(m) && m.chain != [] && t == m.chain[0] && x == Popped(m) && Grew(x, y, r)
    ensures t in x.own && x.own[t] == Kept && t in y.own && y.own[t] == Kept && r in y.spaces
    ensures t in m.own && m.own[t] == Free && y.own.Keys == m.own.Keys
  {
    assert RunOk(m, 0);
    assert GrewUse(x, y, r, t);
  }

  lemma PushedLeaf(y: Mem, z: Mem, t: nat, r: nat, n: nat)
    requires Inv(y) && t in y.own && y.own[t] == Kept && z == Pushed(y, t) && r in y.spaces
    ensures Leaf(z, r, n) == Leaf(y, r, n)
  {
    hide Find;
    PushKeeps(y, z, t);
    SameLeaf(y, z, r, n);
  }

  lemma StillForeign(y: Mem, z: Mem, t: nat, r: nat, n: nat)
    requires Inv(y) && t in y.own && y.own[t] == Kept && z == Pushed(y, t) && r in y.spaces && Droppable(y, r, n, false)
    ensures Droppable(z, r, n, false)
  {
    hide Find;
    PushedLeaf(y, z, t, r, n);
  }

  /** fork, as far as memory goes: allocproc and uvmcopy. On success the child has a copy of
      each of the parent's pages, its own trapframe page, and the trampoline. On failure, at
      whichever kalloc, every page has the use it had before. Either way the parent, and every
      other space, is the same. */
  method Fork(k: Kernel, parent: nat, sz: nat, tramp: nat) returns (ok: bool, child: nat, tf: nat)
    requires k.Valid() && parent in k.spaces && sz <= TRAPFRAME && tramp !in k.own
    requires forall n: nat :: n < Pages(sz) ==> Droppable(k.M(), parent, n, true)
    modifies k
    ensures k.Valid()
    ensures !ok ==> Restored(old(k.M()), k.M())
    ensures ok ==> child in k.spaces && child !in old(k.spaces) && tf in k.own && k.own[tf] == Kept
    ensures ok ==> tf in old(k.own) && old(k.own)[tf] == Free && k.own.Keys == old(k.own).Keys
    ensures ok ==> forall n: nat :: n < Pages(sz) ==> CopiedAt(old(k.M()), k.M(), parent, child, n)
    ensures ok ==> ProcAbove(k.M(), child, Pages(sz), tf, tramp)
    ensures ok ==> forall s :: s in old(k.spaces) ==> SameTree(old(k.M()), k.M(), s)
    ensures ok ==> forall q :: q in old(k.own) && (old(k.own)[q] == Kept || old(k.own)[q].User?) ==>
              SameNode(old(k.M()), k.M(), q)
    ensures old(AllOwn(k.M())) ==> AllOwn(k.M())
  {
    hide Inv, Find, Grew, Restored, Droppable, SameTree, SameNode, Framed, LeavesBut, CopiedAt, AllOwn;
    ghost var m := k.M();
    RestoredSelf(m);
    child, ok := 0, false;
    tf := k.Kalloc();
    if tf == 0 {
      return;
    }
    ghost var x := k.M();
    if AllOwn(m) {
      OwnPopped(m, x, tf);
    }
    child := ProcPagetable(k, tf, tramp);
    if child == 0 {
      LentBack(m, x, k.M(), Pushed(k.M(), tf), tf);
      KeptAgain(m, x, k.M(), tf);
      k.Kfree(tf);
      OwnBack(m, k.M());
      return;
    }
    ghost var y := k.M();
    KeptInNew(m, x, y, child, tf);
    ParentThere(m, x, y, parent, child, tf);
    forall n: nat | n < Pages(sz) ensures Droppable(y, parent, n, true) && Leaf(y, child, n) == None {
      ParentSame(m, x, y, parent, child, n, tf);
    }
    ok := k.Uvmcopy(parent, child, sz);
    GrewFramed(x, y, k.M(), child, 0, if ok then Pages(sz) else 0);
    ghost var z := k.M();
    if !ok {
      LeavesSame(y, z, child, 0, 0, tf, tramp);
      Freeproc(k, tf, tramp, child, m, x);
      OwnBack(m, k.M());
      return;
    }
    LeavesSame(y, z, child, 0, Pages(sz), tf, tramp);
    KeptInNew(m, x, z, child, tf);
    forall n: nat | n < Pages(sz) ensures CopiedAt(m, z, parent, child, n) {
      CopyOfOriginal(m, x, y, z, parent, child, n, tf);
    }
    forall s | s in m.spaces ensures SameTree(m, z, s) {
      ParentThere(m, x, z, s, child, tf);
    }
    forall q | q in m.own && (m.own[q] == Kept || m.own[q].User?) ensures SameNode(m, z, q) {
      OthersSame(m, x, z, child, tf, q);
    }
  }

  /** No page in use before changes its use or its contents. */
  lemma OthersSame(m: Mem, x: Mem, z: Mem, child: nat, t: nat, q: nat)
    requires Inv(m) && m.chain != [] && t == m.chain[0] && x == Popped(m) && Grew(x, z, child)
    requires q in m.own && (m.own[q] == Kept || m.own[q].User?)
    ensures SameNode(m, z, q)
  {
    hide Find, SpaceOk, HeapOk;
    PopKeeps(m, x, t);
    assert SameNode(m, x, q) && GrewUse(x, z, child, q);
  }

  lemma KeptAgain(m: Mem, x: Mem, y: Mem, t: nat)
    requires Inv(m) && m.chain != [] && t == m.chain[0] && x == Popped(m) && Restored(x, y)
    ensures t in y.own && y.own[t] == Kept
  {
    assert RunOk(m, 0);
  }

  lemma LeavesSame(y: Mem, z: Mem, r: nat, lo: nat, hi: nat, tf: nat, tramp: nat)
    requires LeavesBut(y, z, r, lo, hi) && ProcAbove(y, r, 0, tf, tramp) && lo == 0
    ensures ProcAbove(z, r, hi, tf, tramp)
  {
    hide Find;
  }

  /** A space of m, after kalloc of t and work on the new space. */
  lemma ParentThere(m: Mem, x: Mem, y: Mem, s: nat, child: nat, t: nat)
    requires Inv(m) && s in m.spaces && m.chain != [] && t == m.chain[0] && x == Popped(m) && Grew(x, y, child)
    ensures s in y.spaces && SameTree(m, y, s) && s != child && child !in m.spaces
  {
    hide Find, SpaceOk, HeapOk;
    PopKeeps(m, x, t);
    SameTreeTrans(m, x, y, s);
  }

  lemma ParentSame(m: Mem, x: Mem, y: Mem, parent: nat, child: nat, n: nat, t: nat)
    requires Inv(m) && parent in m.spaces && m.chain != [] && t == m.chain[0] && x == Popped(m) && Grew(x, y, child)
    requires Droppable(m, parent, n, true)
    ensures parent in y.spaces && Leaf(y, parent, n) == Leaf(m, parent, n) && Droppable(y, parent, n, true)
    ensures var q := Leaf(m, parent, n).value.ppn; q in m.page && q in y.page && y.page[q] == m.page[q]
  {
    hide Find, SpaceOk, HeapOk, SameTree;
    ParentThere(m, x, y, parent, child, t);
    SameLeaf(m, y, parent, n);
    PopKeeps(m, x, t);
    var q := Leaf(m, parent, n).value.ppn;
    PageIsOk(m, q);
    assert SameNode(m, x, q) && GrewUse(x, y, child, q);
  }

  lemma CopyOfOriginal(m: Mem, x: Mem, y: Mem, z: Mem, parent: nat, child: nat, n: nat, t: nat)
    requires Inv(m) && parent in m.spaces && m.chain != [] && t == m.chain[0] && x == Popped(m) && Grew(x, y, child)
    requires Droppable(m, parent, n, true) && CopiedAt(y, z, parent, child, n)
    ensures CopiedAt(m, z, parent, child, n)
  {
    hide Find, SpaceOk, HeapOk, SameTree, Grew, Filled;
    ParentSame(m, x, y, parent, child, n, t);
  }
}
