/** user/umalloc.c, the storage allocator of The C Programming Language, section 8.7.
    Addresses count Header-sized units. `ptr` and `size` are the header fields of memory;
    a live block is named by the address of its header, one below what malloc returned. */
module Umalloc {
  const HEADER: nat := 16
  const MIN_UNITS: nat := 4096

  /** malloc's rounding, computed in 64 bits: units for the bytes and one for the header. */
  function Units(nbytes: nat): (n: nat)
    ensures n >= 1 && (n - 1) * HEADER >= nbytes && (nbytes > 0 ==> (n - 2) * HEADER < nbytes)
  {
    (nbytes + HEADER - 1) / HEADER + 1
  }

  /** What morecore asks for. */
  function Grant(units: nat): (nu: nat) {
    if units < MIN_UNITS then MIN_UNITS else units
  }

  /** What sbrk, whose parameter is a C int, is asked for. */
  function SbrkBytes(units: nat): (b: int) {
    var w := Grant(units) * HEADER % 0x1_0000_0000;
    if w < 0x8000_0000 then w else w - 0x1_0000_0000
  }

  /** The request reaches sbrk whole exactly when it is below 2^27 units; up to 2^28 units, sbrk
      is asked to shrink the process. */
  lemma SbrkRequestExact(units: nat)
    requires units <= 0x1000_0001
    ensures SbrkBytes(units) == Grant(units) * HEADER <==> units < 0x800_0000
    ensures 0x800_0000 <= units < 0x1000_0000 ==> SbrkBytes(units) < 0
  {
  }

  predicate Apart(a: nat, n: nat, b: nat, m: nat) {
    a + n <= b || b + m <= a
  }

  ghost predicate LinkAt(base: nat, free: seq<nat>, ptr: map<nat, nat>, i: nat)
    requires i < |free| && free[i] in ptr
  {
    ptr[free[i]] == if i + 1 < |free| then free[i + 1] else base
  }

  /** Sorted addresses, each linked to the next and the last to the first. */
  ghost predicate Linked(base: nat, free: seq<nat>, ptr: map<nat, nat>) {
    && |free| >= 1 && free[0] == base
    && (forall i, j :: 0 <= i < j < |free| ==> free[i] < free[j])
    && (forall i :: 0 <= i < |free| ==> free[i] in ptr)
    && forall i: nat :: i < |free| ==> LinkAt(base, free, ptr, i)
  }

  /** Blocks of at least a unit, save the empty base, with room between every two. */
  ghost predicate Coalesced(base: nat, free: seq<nat>, size: map<nat, nat>) {
    && (forall i :: 0 <= i < |free| ==> free[i] in size && (size[free[i]] == 0 <==> free[i] == base))
    && forall i, j :: 0 <= i < j < |free| ==> free[i] + size[free[i]] < free[j]
  }

  /** u is a unit of the block at position i. */
  ghost predicate At(free: seq<nat>, size: map<nat, nat>, i: nat, u: nat) {
    i < |free| && free[i] in size && free[i] <= u < free[i] + size[free[i]]
  }

  /** u is a unit of a free block. */
  ghost predicate InFree(free: seq<nat>, size: map<nat, nat>, u: nat) {
    exists i: nat :: At(free, size, i, u)
  }

  ghost predicate InLive(live: map<nat, nat>, u: nat) {
    exists h :: h in live && h <= u < h + live[h]
  }

  /** Live blocks lie above the base and share no unit with each other or with a free block. */
  ghost predicate Disjoint(base: nat, free: seq<nat>, size: map<nat, nat>, live: map<nat, nat>) {
    && (forall h :: h in live ==> h > base && live[h] >= 1 && h in size && size[h] == live[h])
    && (forall g, h :: g in live && h in live && g != h ==> Apart(g, live[g], h, live[h]))
    && forall u: nat :: !(InFree(free, size, u) && InLive(live, u))
  }

  ghost predicate Conserved(free: seq<nat>, size: map<nat, nat>, live: map<nat, nat>, arena: set<nat>) {
    forall u: nat :: u in arena <==> InFree(free, size, u) || InLive(live, u)
  }

  /** Where in the cycle b belongs: after free[k]. */
  ghost function Slot(free: seq<nat>, b: nat): (k: nat)
    requires |free| >= 1 && free[0] < b
    requires forall i, j :: 0 <= i < j < |free| ==> free[i] < free[j]
    ensures k < |free| && free[k] < b
    ensures forall i :: k < i < |free| ==> b <= free[i]
  {
    if |free| == 1 || free[|free| - 1] < b then |free| - 1 else Slot(free[..|free| - 1], b)
  }

  /** bp lies between free[k] and what follows it in address order. */
  ghost predicate Between(free: seq<nat>, bp: nat, k: nat) {
    k < |free| && free[k] < bp && (k + 1 < |free| ==> bp < free[k + 1])
  }

  // ---- putting a block on the list, one lemma per way of coalescing -----------------------

  /** A block apart from the free ones that goes after free[k]. */
  ghost predicate Fits(base: nat, free: seq<nat>, size: map<nat, nat>, bp: nat, n: nat, k: nat)
    requires forall i :: 0 <= i < |free| ==> free[i] in size
  {
    && base < bp && n >= 1 && k < |free|
    && (forall i :: 0 <= i <= k ==> free[i] + size[free[i]] <= bp && free[i] < bp)
    && forall i :: k < i < |free| ==> bp + n <= free[i]
  }

  lemma LiveFits(base: nat, free: seq<nat>, size: map<nat, nat>, live: map<nat, nat>, bp: nat, k: nat)
    requires |free| >= 1 && free[0] == base && forall i, j :: 0 <= i < j < |free| ==> free[i] < free[j]
    requires Coalesced(base, free, size) && Disjoint(base, free, size, live) && bp in live && Between(free, bp, k)
    ensures Fits(base, free, size, bp, live[bp], k)
  {
    forall i | 0 <= i < |free|
      ensures i <= k ==> free[i] + size[free[i]] <= bp && free[i] < bp
      ensures i > k ==> bp + live[bp] <= free[i]
    {
      var f, n := free[i], size[free[i]];
      var u := if f < bp then bp else f;
      assert InLive(live, bp) && !InFree(free, size, bp);
      if u < f + n && u < bp + live[bp] {
        assert At(free, size, i, u) && InLive(live, u);
      }
    }
  }

  ghost function Insert(free: seq<nat>, k: nat, bp: nat): (r: seq<nat>)
    requires k < |free|
    ensures |r| == |free| + 1
    ensures forall i :: 0 <= i < |r| ==> r[i] == if i <= k then free[i] else if i == k + 1 then bp else free[i - 1]
  {
    free[..k + 1] + [bp] + free[k + 1..]
  }

  ghost function Drop(free: seq<nat>, k: nat): (r: seq<nat>)
    requires k < |free|
    ensures |r| == |free| - 1
    ensures forall i :: 0 <= i < |r| ==> r[i] == if i < k then free[i] else free[i + 1]
  {
    free[..k] + free[k + 1..]
  }

  ghost predicate Good(base: nat, free: seq<nat>, ptr: map<nat, nat>, size: map<nat, nat>) {
    Linked(base, free, ptr) && Coalesced(base, free, size)
  }

  lemma SortedInsert(free: seq<nat>, bp: nat, k: nat)
    requires k < |free| && free[k] < bp && (k + 1 < |free| ==> bp < free[k + 1])
    requires forall i, j :: 0 <= i < j < |free| ==> free[i] < free[j]
    ensures var r := Insert(free, k, bp);
            && |r| == |free| + 1 && r[k + 1] == bp
            && (forall i: nat :: i <= k ==> r[i] == free[i])
            && (forall i: nat :: k + 1 < i < |r| ==> r[i] == free[i - 1])
            && forall i, j :: 0 <= i < j < |r| ==> r[i] < r[j]
  {
  }

  lemma LinkedInsert(base: nat, free: seq<nat>, ptr: map<nat, nat>, bp: nat, k: nat)
    requires Linked(base, free, ptr) && k < |free| && free[k] < bp
    requires k + 1 < |free| ==> bp < free[k + 1]
    ensures Linked(base, Insert(free, k, bp), ptr[bp := ptr[free[k]]][free[k] := bp])
  {
    hide Insert;
    SortedInsert(free, bp, k);
    var r, ptr' := Insert(free, k, bp), ptr[bp := ptr[free[k]]][free[k] := bp];
    forall i: nat | i < |r| ensures LinkAt(base, r, ptr', i) {
      assert LinkAt(base, free, ptr, if i <= k then i else i - 1);
    }
  }

  lemma CoalescedInsert(base: nat, free: seq<nat>, size: map<nat, nat>, bp: nat, k: nat)
    requires Coalesced(base, free, size) && k < |free| && bp in size && bp != base && size[bp] > 0
    requires forall i :: 0 <= i <= k ==> free[i] + size[free[i]] < bp
    requires forall i :: k < i < |free| ==> bp + size[bp] < free[i]
    ensures Coalesced(base, Insert(free, k, bp), size)
  {
  }

  lemma InsertApart(base: nat, free: seq<nat>, ptr: map<nat, nat>, size: map<nat, nat>, bp: nat, k: nat)
    requires Good(base, free, ptr, size) && bp in size && Fits(base, free, size, bp, size[bp], k)
    requires bp + size[bp] != ptr[free[k]] && free[k] + size[free[k]] != bp
    ensures Good(base, Insert(free, k, bp), ptr[bp := ptr[free[k]]][free[k] := bp], size)
  {
    LinkedInsert(base, free, ptr, bp, k);
    assert LinkAt(base, free, ptr, k);
    forall i | 0 <= i < |free|
      ensures i <= k ==> free[i] + size[free[i]] < bp
      ensures i > k ==> bp + size[bp] < free[i]
    {
      assert i < k ==> free[i] + size[free[i]] < free[k];
      assert i > k + 1 ==> free[k + 1] < free[i];
    }
    CoalescedInsert(base, free, size, bp, k);
  }

  lemma LinkedReplace(base: nat, free: seq<nat>, ptr: map<nat, nat>, bp: nat, k: nat)
    requires Linked(base, free, ptr) && k + 1 < |free| && free[k] < bp < free[k + 1] && bp !in free
    ensures Linked(base, free[k + 1 := bp], ptr[bp := ptr[free[k + 1]]][free[k] := bp])
  {
    var r, ptr' := free[k + 1 := bp], ptr[bp := ptr[free[k + 1]]][free[k] := bp];
    forall i: nat | i < |r| ensures LinkAt(base, r, ptr', i) {
      assert LinkAt(base, free, ptr, i);
    }
  }

  lemma InsertUpper(base: nat, free: seq<nat>, ptr: map<nat, nat>, size: map<nat, nat>, bp: nat, k: nat)
    requires Good(base, free, ptr, size) && bp in size && Fits(base, free, size, bp, size[bp], k)
    requires k + 1 < |free| && bp + size[bp] == free[k + 1] && free[k] + size[free[k]] != bp
    ensures var q := free[k + 1];
            Good(base, free[k + 1 := bp], ptr[bp := ptr[q]][free[k] := bp], size[bp := size[bp] + size[q]])
  {
    var q := free[k + 1];
    var r, size' := free[k + 1 := bp], size[bp := size[bp] + size[q]];
    assert forall i :: 0 <= i < |free| ==> free[i] != bp;
    LinkedReplace(base, free, ptr, bp, k);
    hide Linked;
    forall i, j | 0 <= i < j < |r| ensures r[i] + size'[r[i]] < r[j] {
      if j == k + 1 {
        assert free[i] + size[free[i]] <= free[k] + size[free[k]];
      }
    }
  }

  lemma InsertLower(base: nat, free: seq<nat>, ptr: map<nat, nat>, size: map<nat, nat>, bp: nat, k: nat)
    requires Good(base, free, ptr, size) && bp in size && Fits(base, free, size, bp, size[bp], k)
    requires bp + size[bp] != ptr[free[k]] && free[k] + size[free[k]] == bp
    ensures var p := free[k];
            Good(base, free, ptr[bp := ptr[p]][p := ptr[p]], size[p := size[p] + size[bp]])
  {
    var p := free[k];
    var size', ptr' := size[p := size[p] + size[bp]], ptr[bp := ptr[p]][p := ptr[p]];
    assert forall i :: 0 <= i < |free| ==> free[i] != bp;
    assert LinkAt(base, free, ptr, k);
    forall i: nat | i < |free| ensures LinkAt(base, free, ptr', i) {
      assert LinkAt(base, free, ptr, i);
    }
    forall i, j | 0 <= i < j < |free| ensures free[i] + size'[free[i]] < free[j] {
      if i == k {
        assert ptr[p] == free[k + 1];
      }
    }
  }

  lemma LinkedDrop(base: nat, free: seq<nat>, ptr: map<nat, nat>, bp: nat, v: nat, k: nat)
    requires Linked(base, free, ptr) && k + 1 < |free| && bp !in free
    ensures Linked(base, Drop(free, k + 1), ptr[bp := v][free[k] := ptr[free[k + 1]]])
  {
    var r, ptr' := Drop(free, k + 1), ptr[bp := v][free[k] := ptr[free[k + 1]]];
    assert LinkAt(base, free, ptr, k + 1);
    forall i: nat | i < |r| ensures LinkAt(base, r, ptr', i) {
      assert LinkAt(base, free, ptr, if i <= k then i else i + 1);
    }
  }

  lemma CoalescedDrop(base: nat, free: seq<nat>, size: map<nat, nat>, size': map<nat, nat>, k: nat)
    requires Coalesced(base, free, size) && k + 1 < |free| && free[k] != base
    requires forall i :: 0 <= i < |free| && i != k && i != k + 1 ==> free[i] in size' && size'[free[i]] == size[free[i]]
    requires free[k] in size' && free[k] + size'[free[k]] == free[k + 1] + size[free[k + 1]]
    ensures Coalesced(base, Drop(free, k + 1), size')
  {
    assert free[k] < free[k + 1];
  }

  lemma InsertBoth(base: nat, free: seq<nat>, ptr: map<nat, nat>, size: map<nat, nat>, bp: nat, k: nat)
    requires Good(base, free, ptr, size) && bp in size && Fits(base, free, size, bp, size[bp], k)
    requires k + 1 < |free| && bp + size[bp] == free[k + 1] && free[k] + size[free[k]] == bp
    ensures var p, q := free[k], free[k + 1];
            Good(base, Drop(free, k + 1), ptr[bp := ptr[q]][p := ptr[q]],
                 size[bp := size[bp] + size[q]][p := size[p] + (size[bp] + size[q])])
  {
    var p, q := free[k], free[k + 1];
    assert forall i :: 0 <= i < |free| ==> free[i] != bp;
    LinkedDrop(base, free, ptr, bp, ptr[q], k);
    CoalescedDrop(base, free, size, size[bp := size[bp] + size[q]][p := size[p] + (size[bp] + size[q])], k);
  }

  /** The units of the list after bp's have joined it. */
  ghost predicate Joined(free: seq<nat>, size: map<nat, nat>, bp: nat, n: nat, free': seq<nat>, size': map<nat, nat>) {
    forall u: nat :: InFree(free', size', u) <==> InFree(free, size, u) || bp <= u < bp + n
  }

  lemma Returned(base: nat, free: seq<nat>, size: map<nat, nat>, live: map<nat, nat>, arena: set<nat>,
                 bp: nat, free': seq<nat>, size': map<nat, nat>)
    requires Disjoint(base, free, size, live) && Conserved(free, size, live, arena)
    requires bp in live && Joined(free, size, bp, live[bp], free', size')
    requires forall h :: h in live && h != bp ==> h in size' && size'[h] == size[h]
    ensures Disjoint(base, free', size', live - {bp})
    ensures Conserved(free', size', live - {bp}, arena)
  {
    var l := live - {bp};
    forall u: nat
      ensures InLive(live, u) <==> InLive(l, u) || bp <= u < bp + live[bp]
      ensures !(InLive(l, u) && bp <= u < bp + live[bp])
    {
      if InLive(live, u) {
        var h :| h in live && h <= u < h + live[h];
        if h != bp {
          assert h in l;
        }
      }
      if InLive(l, u) {
        var h :| h in l && h <= u < h + l[h];
        assert Apart(h, live[h], bp, live[bp]);
      }
    }
  }

  lemma JoinedApart(free: seq<nat>, size: map<nat, nat>, bp: nat, k: nat)
    requires k < |free| && bp in size && bp !in free
    ensures Joined(free, size, bp, size[bp], Insert(free, k, bp), size)
  {
    var r := Insert(free, k, bp);
    forall u: nat ensures InFree(r, size, u) <==> InFree(free, size, u) || bp <= u < bp + size[bp] {
      if i: nat :| At(free, size, i, u) {
        assert At(r, size, if i <= k then i else i + 1, u);
      }
      if bp <= u < bp + size[bp] {
        assert At(r, size, k + 1, u);
      }
      if i: nat :| At(r, size, i, u) {
        assert i == k + 1 || At(free, size, if i <= k then i else i - 1, u);
      }
    }
  }

  lemma JoinedUpper(free: seq<nat>, size: map<nat, nat>, bp: nat, k: nat)
    requires k + 1 < |free| && bp in size && bp !in free && free[k + 1] in size && bp + size[bp] == free[k + 1]
    ensures Joined(free, size, bp, size[bp], free[k + 1 := bp], size[bp := size[bp] + size[free[k + 1]]])
  {
    var r, size' := free[k + 1 := bp], size[bp := size[bp] + size[free[k + 1]]];
    forall u: nat ensures InFree(r, size', u) <==> InFree(free, size, u) || bp <= u < bp + size[bp] {
      if i: nat :| At(free, size, i, u) {
        assert At(r, size', i, u);
      }
      if bp <= u < bp + size[bp] {
        assert At(r, size', k + 1, u);
      }
      if i: nat :| At(r, size', i, u) {
        assert At(free, size, i, u) || bp <= u < bp + size[bp];
      }
    }
  }

  lemma JoinedLower(free: seq<nat>, size: map<nat, nat>, bp: nat, k: nat)
    requires k < |free| && bp in size && bp !in free && free[k] in size && free[k] + size[free[k]] == bp
    requires forall i, j :: 0 <= i < j < |free| ==> free[i] < free[j]
    ensures Joined(free, size, bp, size[bp], free, size[free[k] := size[free[k]] + size[bp]])
  {
    var size' := size[free[k] := size[free[k]] + size[bp]];
    forall u: nat ensures InFree(free, size', u) <==> InFree(free, size, u) || bp <= u < bp + size[bp] {
      if i: nat :| At(free, size, i, u) {
        assert At(free, size', i, u);
      }
      if bp <= u < bp + size[bp] {
        assert At(free, size', k, u);
      }
      if i: nat :| At(free, size', i, u) {
        assert At(free, size, i, u) || bp <= u < bp + size[bp];
      }
    }
  }

  /** Blocks p, bp and q meet: block p takes in the other two. */
  function Merged(size: map<nat, nat>, p: nat, bp: nat, q: nat): (size': map<nat, nat>)
    requires p in size && bp in size && q in size
  {
    size[bp := size[bp] + size[q]][p := size[p] + (size[bp] + size[q])]
  }

  lemma JoinedBoth(free: seq<nat>, size: map<nat, nat>, bp: nat, k: nat)
    requires k + 1 < |free| && bp in size && bp !in free && free[k] in size && free[k + 1] in size
    requires free[k] + size[free[k]] == bp && bp + size[bp] == free[k + 1]
    requires forall i, j :: 0 <= i < j < |free| ==> free[i] < free[j]
    ensures Joined(free, size, bp, size[bp], Drop(free, k + 1), Merged(size, free[k], bp, free[k + 1]))
  {
    var r, size' := Drop(free, k + 1), Merged(size, free[k], bp, free[k + 1]);
    hide InFree;
    forall u: nat ensures InFree(r, size', u) <==> InFree(free, size, u) || bp <= u < bp + size[bp] {
      if InFree(free, size, u) || bp <= u < bp + size[bp] {
        JoinedIn(free, size, bp, k, u);
      }
      if InFree(r, size', u) {
        JoinedFrom(free, size, bp, k, u);
      }
    }
  }

  lemma JoinedIn(free: seq<nat>, size: map<nat, nat>, bp: nat, k: nat, u: nat)
    requires k + 1 < |free| && bp in size && bp !in free && free[k] in size && free[k + 1] in size
    requires free[k] + size[free[k]] == bp && bp + size[bp] == free[k + 1]
    requires forall i, j :: 0 <= i < j < |free| ==> free[i] < free[j]
    requires InFree(free, size, u) || bp <= u < bp + size[bp]
    ensures InFree(Drop(free, k + 1), Merged(size, free[k], bp, free[k + 1]), u)
  {
    var r, size' := Drop(free, k + 1), Merged(size, free[k], bp, free[k + 1]);
    if bp <= u < bp + size[bp] {
      assert At(r, size', k, u);
    } else {
      var i: nat :| At(free, size, i, u);
      assert At(r, size', if i <= k then i else i - 1, u);
    }
  }

  lemma JoinedFrom(free: seq<nat>, size: map<nat, nat>, bp: nat, k: nat, u: nat)
    requires k + 1 < |free| && bp in size && bp !in free && free[k] in size && free[k + 1] in size
    requires free[k] + size[free[k]] == bp && bp + size[bp] == free[k + 1]
    requires forall i, j :: 0 <= i < j < |free| ==> free[i] < free[j]
    requires InFree(Drop(free, k + 1), Merged(size, free[k], bp, free[k + 1]), u)
    ensures InFree(free, size, u) || bp <= u < bp + size[bp]
  {
    var r, size' := Drop(free, k + 1), Merged(size, free[k], bp, free[k + 1]);
    var i: nat :| At(r, size', i, u);
    if i == k {
      assert At(free, size, k, u) || bp <= u < bp + size[bp] || At(free, size, k + 1, u);
    } else {
      assert At(free, size, if i < k then i else i + 1, u);
    }
  }

  /** The whole invariant of an allocator that has been used. */
  ghost predicate Sound(base: nat, free: seq<nat>, ptr: map<nat, nat>, size: map<nat, nat>,
                        live: map<nat, nat>, arena: set<nat>)
  {
    Good(base, free, ptr, size) && Disjoint(base, free, size, live) && Conserved(free, size, live, arena)
  }

  /** Some free block covers the n units at bp. */
  ghost predicate Covers(free: seq<nat>, size: map<nat, nat>, bp: nat, n: nat) {
    exists i: nat :: i < |free| && free[i] in size && free[i] <= bp && bp + n <= free[i] + size[free[i]]
  }

  lemma LiveNotFree(base: nat, free: seq<nat>, ptr: map<nat, nat>, size: map<nat, nat>,
                    live: map<nat, nat>, arena: set<nat>, bp: nat)
    requires Sound(base, free, ptr, size, live, arena) && bp in live
    ensures base < bp && bp !in free && bp in size
  {
    assert InLive(live, bp);
    if bp in free {
      var i :| 0 <= i < |free| && free[i] == bp;
      assert At(free, size, i, bp);
    }
  }

  lemma Located(base: nat, free: seq<nat>, ptr: map<nat, nat>, size: map<nat, nat>,
                live: map<nat, nat>, arena: set<nat>, bp: nat, k: nat)
    requires Sound(base, free, ptr, size, live, arena) && bp in live && Between(free, bp, k)
    ensures bp in size && bp !in free && Fits(base, free, size, bp, size[bp], k)
    ensures free[k] in ptr && ptr[free[k]] == (if k + 1 < |free| then free[k + 1] else base)
    ensures bp + size[bp] == ptr[free[k]] ==> k + 1 < |free|
    ensures base <= free[k] && free[k] in size && ptr[free[k]] in size && ptr[free[k]] in ptr
  {
    LiveNotFree(base, free, ptr, size, live, arena, bp);
    LiveFits(base, free, size, live, bp, k);
    assert LinkAt(base, free, ptr, k);
  }

  /** The outcome of free, whichever way bp joined the list at p. */
  ghost predicate Freed(base: nat, free: seq<nat>, ptr: map<nat, nat>, size: map<nat, nat>,
                        live: map<nat, nat>, arena: set<nat>, bp: nat, n: nat, p: nat)
  {
    Sound(base, free, ptr, size, live, arena) && p in free && Covers(free, size, bp, n)
  }

  lemma FreedBoth(base: nat, free: seq<nat>, ptr: map<nat, nat>, size: map<nat, nat>,
                  live: map<nat, nat>, arena: set<nat>, bp: nat, k: nat)
    requires Sound(base, free, ptr, size, live, arena) && bp in live && Between(free, bp, k) && k + 1 < |free|
    requires bp + size[bp] == free[k + 1] && free[k] + size[free[k]] == bp
    ensures var p, q, r := free[k], free[k + 1], Drop(free, k + 1);
            Freed(base, r, ptr[bp := ptr[q]][p := ptr[q]],
                  size[bp := size[bp] + size[q]][p := size[p] + (size[bp] + size[q])],
                  live - {bp}, arena, bp, live[bp], p)
  {
    Located(base, free, ptr, size, live, arena, bp, k);
    var p, q, r := free[k], free[k + 1], Drop(free, k + 1);
    var size' := size[bp := size[bp] + size[q]][p := size[p] + (size[bp] + size[q])];
    InsertBoth(base, free, ptr, size, bp, k);
    JoinedBoth(free, size, bp, k);
    NotFree(free, size, live, k);
    assert r[k] == p;
    hide Linked, Coalesced, Conserved, Joined;
    Returned(base, free, size, live, arena, bp, r, size');
  }

  lemma FreedLower(base: nat, free: seq<nat>, ptr: map<nat, nat>, size: map<nat, nat>,
                   live: map<nat, nat>, arena: set<nat>, bp: nat, k: nat)
    requires Sound(base, free, ptr, size, live, arena) && bp in live && Between(free, bp, k)
    requires bp + size[bp] != ptr[free[k]] && free[k] + size[free[k]] == bp
    ensures var p := free[k];
            Freed(base, free, ptr[bp := ptr[p]][p := ptr[p]], size[p := size[p] + size[bp]],
                  live - {bp}, arena, bp, live[bp], p)
  {
    Located(base, free, ptr, size, live, arena, bp, k);
    var p := free[k];
    InsertLower(base, free, ptr, size, bp, k);
    JoinedLower(free, size, bp, k);
    NotFree(free, size, live, k);
    hide Linked, Coalesced, Conserved, Joined;
    Returned(base, free, size, live, arena, bp, free, size[p := size[p] + size[bp]]);
  }

  lemma FreedUpper(base: nat, free: seq<nat>, ptr: map<nat, nat>, size: map<nat, nat>,
                   live: map<nat, nat>, arena: set<nat>, bp: nat, k: nat)
    requires Sound(base, free, ptr, size, live, arena) && bp in live && Between(free, bp, k) && k + 1 < |free|
    requires bp + size[bp] == free[k + 1] && free[k] + size[free[k]] != bp
    ensures var p, q, r := free[k], free[k + 1], free[k + 1 := bp];
            Freed(base, r, ptr[bp := ptr[q]][p := bp], size[bp := size[bp] + size[q]],
                  live - {bp}, arena, bp, live[bp], p)
  {
    Located(base, free, ptr, size, live, arena, bp, k);
    var p, q, r := free[k], free[k + 1], free[k + 1 := bp];
    InsertUpper(base, free, ptr, size, bp, k);
    JoinedUpper(free, size, bp, k);
    assert r[k] == p && r[k + 1] == bp;
    hide Linked, Coalesced, Conserved, Joined;
    Returned(base, free, size, live, arena, bp, r, size[bp := size[bp] + size[q]]);
  }

  lemma FreedApart(base: nat, free: seq<nat>, ptr: map<nat, nat>, size: map<nat, nat>,
                   live: map<nat, nat>, arena: set<nat>, bp: nat, k: nat)
    requires Sound(base, free, ptr, size, live, arena) && bp in live && Between(free, bp, k)
    requires bp + size[bp] != ptr[free[k]] && free[k] + size[free[k]] != bp
    ensures var p := free[k];
            Freed(base, Insert(free, k, bp), ptr[bp := ptr[p]][p := bp], size,
                  live - {bp}, arena, bp, live[bp], p)
  {
    Located(base, free, ptr, size, live, arena, bp, k);
    var p, r := free[k], Insert(free, k, bp);
    InsertApart(base, free, ptr, size, bp, k);
    JoinedApart(free, size, bp, k);
    assert r[k] == p && r[k + 1] == bp;
    hide Linked, Coalesced, Conserved, Joined;
    Returned(base, free, size, live, arena, bp, r, size);
  }

  lemma NotFree(free: seq<nat>, size: map<nat, nat>, live: map<nat, nat>, k: nat)
    requires k < |free| && free[k] in size && size[free[k]] > 0
    requires forall u: nat :: !(InFree(free, size, u) && InLive(live, u))
    requires forall h :: h in live ==> live[h] >= 1
    ensures free[k] !in live
  {
    var p := free[k];
    assert At(free, size, k, p);
    assert p in live ==> InLive(live, p);
  }

  ghost function Span(a: nat, n: nat): (s: set<nat>)
    ensures forall u :: u in s <==> a <= u < a + n
  {
    if n == 0 then {} else Span(a, n - 1) + {a + n - 1}
  }

  lemma Below(base: nat, free: seq<nat>, size: map<nat, nat>, live: map<nat, nat>, arena: set<nat>, hp: nat)
    requires Coalesced(base, free, size) && Disjoint(base, free, size, live) && Conserved(free, size, live, arena)
    requires base < hp && forall u :: u in arena ==> u < hp
    ensures forall i :: 0 <= i < |free| ==> free[i] + size[free[i]] <= hp && free[i] != hp
    ensures forall h :: h in live ==> h + live[h] <= hp && h != hp
  {
    forall i: nat | i < |free| ensures free[i] + size[free[i]] <= hp && free[i] != hp {
      if size[free[i]] > 0 {
        var u := free[i] + size[free[i]] - 1;
        assert At(free, size, i, u);
        assert InFree(free, size, u);
        assert u in arena;
      }
    }
    forall h | h in live ensures h + live[h] <= hp && h != hp {
      assert InLive(live, h + live[h] - 1);
    }
  }

  /** Changing the header of an address that is not on the list changes no free unit. */
  lemma FreeFrame(free: seq<nat>, size: map<nat, nat>, hp: nat, n: nat, u: nat)
    requires hp !in free
    ensures InFree(free, size[hp := n], u) <==> InFree(free, size, u)
  {
    var size' := size[hp := n];
    if i: nat :| At(free, size, i, u) { assert At(free, size', i, u); }
    if i: nat :| At(free, size', i, u) { assert At(free, size, i, u); }
  }

  lemma LiveFrame(live: map<nat, nat>, h: nat, n: nat, u: nat)
    requires h !in live
    ensures InLive(live[h := n], u) <==> InLive(live, u) || h <= u < h + n
  {
    var l := live[h := n];
    if InLive(live, u) {
      var g :| g in live && g <= u < g + live[g];
      assert g in l && l[g] == live[g];
    }
    if h <= u < h + n {
      assert h in l;
    }
  }

  /** Fresh units above everything: a new live block. */
  lemma Granted(base: nat, free: seq<nat>, ptr: map<nat, nat>, size: map<nat, nat>,
                live: map<nat, nat>, arena: set<nat>, hp: nat, n: nat)
    requires Sound(base, free, ptr, size, live, arena) && n >= 1 && base < hp
    requires forall u :: u in arena ==> u < hp
    ensures hp !in live
    ensures Sound(base, free, ptr, size[hp := n], live[hp := n], arena + Span(hp, n))
  {
    Below(base, free, size, live, arena, hp);
    var size', l := size[hp := n], live[hp := n];
    assert Coalesced(base, free, size');
    forall u: nat
      ensures InFree(free, size', u) <==> InFree(free, size, u)
      ensures InLive(l, u) <==> InLive(live, u) || hp <= u < hp + n
      ensures hp <= u < hp + n ==> !InFree(free, size, u)
    {
      FreeFrame(free, size, hp, n, u);
      LiveFrame(live, hp, n, u);
    }
    hide At;
  }

  // ---- taking a block off the list ------------------------------------------------------

  lemma Handed(base: nat, free: seq<nat>, size: map<nat, nat>, live: map<nat, nat>, arena: set<nat>,
               h: nat, n: nat, free': seq<nat>, size': map<nat, nat>)
    requires Disjoint(base, free, size, live) && Conserved(free, size, live, arena)
    requires Joined(free', size', h, n, free, size) && n >= 1 && base < h && h in size' && size'[h] == n
    requires forall u: nat :: h <= u < h + n ==> !InFree(free', size', u)
    requires forall g :: g in live ==> g in size' && (g != h ==> size'[g] == size[g])
    ensures h !in live
    ensures Disjoint(base, free', size', live[h := n])
    ensures Conserved(free', size', live[h := n], arena)
  {
    var l := live[h := n];
    forall g | g in live ensures Apart(g, live[g], h, n) && g != h {
      var u: nat := if g < h then h else g;
      assert g <= u < g + live[g] ==> InLive(live, u);
      assert h <= u < h + n ==> InFree(free, size, u);
    }
    forall u: nat ensures InLive(l, u) <==> InLive(live, u) || h <= u < h + n {
      LiveFrame(live, h, n, u);
    }
  }

  lemma LinkedTake(base: nat, free: seq<nat>, ptr: map<nat, nat>, k: nat)
    requires Linked(base, free, ptr) && 1 <= k < |free|
    ensures Linked(base, Drop(free, k), ptr[free[k - 1] := ptr[free[k]]])
  {
    var r, ptr' := Drop(free, k), ptr[free[k - 1] := ptr[free[k]]];
    assert LinkAt(base, free, ptr, k);
    forall i: nat | i < |r| ensures LinkAt(base, r, ptr', i) {
      assert LinkAt(base, free, ptr, if i < k then i else i + 1);
    }
  }

  lemma CoalescedTake(base: nat, free: seq<nat>, size: map<nat, nat>, k: nat)
    requires Coalesced(base, free, size) && k < |free|
    ensures Coalesced(base, Drop(free, k), size)
  {
  }

  lemma TakeUnits(base: nat, free: seq<nat>, size: map<nat, nat>, k: nat)
    requires Coalesced(base, free, size) && 1 <= k < |free|
    ensures Joined(Drop(free, k), size, free[k], size[free[k]], free, size)
    ensures forall u: nat :: free[k] <= u < free[k] + size[free[k]] ==> !InFree(Drop(free, k), size, u)
  {
    var r, p := Drop(free, k), free[k];
    forall i | 0 <= i < |r| ensures r[i] != p && Apart(r[i], size[r[i]], p, size[p]) {
      assert r[i] == free[if i < k then i else i + 1];
    }
    assert Insert(r, k - 1, p) == free;
    JoinedApart(r, size, p, k - 1);
  }

  lemma TakeWhole(base: nat, free: seq<nat>, ptr: map<nat, nat>, size: map<nat, nat>, k: nat)
    requires Good(base, free, ptr, size) && 1 <= k < |free|
    ensures Good(base, Drop(free, k), ptr[free[k - 1] := ptr[free[k]]], size)
    ensures Joined(Drop(free, k), size, free[k], size[free[k]], free, size)
    ensures forall u: nat :: free[k] <= u < free[k] + size[free[k]] ==> !InFree(Drop(free, k), size, u)
  {
    LinkedTake(base, free, ptr, k);
    CoalescedTake(base, free, size, k);
    TakeUnits(base, free, size, k);
  }

  lemma CoalescedTail(base: nat, free: seq<nat>, size: map<nat, nat>, k: nat, n: nat)
    requires Coalesced(base, free, size) && 1 <= k < |free| && free[k] != base && 1 <= n < size[free[k]]
    ensures var h := free[k] + (size[free[k]] - n);
            h !in free && Coalesced(base, free, size[free[k] := size[free[k]] - n][h := n])
  {
    var h := free[k] + (size[free[k]] - n);
    forall i | 0 <= i < |free| ensures free[i] != h {
      assert i > k ==> free[k] + size[free[k]] < free[i];
    }
    assert forall i :: 0 <= i < |free| && i != k ==> free[i] != free[k];
  }

  lemma TailUnits(free: seq<nat>, size: map<nat, nat>, k: nat, n: nat)
    requires k < |free| && free[k] in size && 1 <= n < size[free[k]]
    requires forall i, j :: 0 <= i < j < |free| ==> free[i] != free[j]
    requires free[k] + (size[free[k]] - n) !in free
    requires forall i :: 0 <= i < |free| && i != k && free[i] in size ==>
             Apart(free[i], size[free[i]], free[k], size[free[k]])
    ensures var h := free[k] + (size[free[k]] - n);
            var size' := size[free[k] := size[free[k]] - n][h := n];
            && Joined(free, size', h, n, free, size)
            && forall u: nat :: h <= u < h + n ==> !InFree(free, size', u)
  {
    var p, h := free[k], free[k] + (size[free[k]] - n);
    var size' := size[p := size[p] - n][h := n];
    forall u: nat
      ensures InFree(free, size, u) <==> InFree(free, size', u) || h <= u < h + n
      ensures h <= u < h + n ==> !InFree(free, size', u)
    {
      if i: nat :| At(free, size, i, u) {
        assert At(free, size', i, u) || h <= u < h + n;
      }
      if h <= u < h + n {
        assert At(free, size, k, u);
      }
      if i: nat :| At(free, size', i, u) {
        assert At(free, size, i, u);
      }
    }
  }

  lemma TakeTail(base: nat, free: seq<nat>, ptr: map<nat, nat>, size: map<nat, nat>, k: nat, n: nat)
    requires Good(base, free, ptr, size) && 1 <= k < |free| && 1 <= n < size[free[k]]
    ensures var h := free[k] + (size[free[k]] - n);
            var size' := size[free[k] := size[free[k]] - n][h := n];
            && h !in free
            && Good(base, free, ptr, size')
            && Joined(free, size', h, n, free, size)
            && forall u: nat :: h <= u < h + n ==> !InFree(free, size', u)
  {
    CoalescedTail(base, free, size, k, n);
    forall i | 0 <= i < |free| && i != k ensures Apart(free[i], size[free[i]], free[k], size[free[k]]) {
    }
    hide Coalesced;
    TailUnits(free, size, k, n);
  }

  /** Takes n units from the block at position k >= 1: all of it, or its tail. */
  ghost predicate Took(base: nat, free: seq<nat>, ptr: map<nat, nat>, size: map<nat, nat>,
                       live: map<nat, nat>, arena: set<nat>, h: nat, n: nat, prev: nat)
  {
    h !in live && h > 0 && Sound(base, free, ptr, size, live[h := n], arena) && prev in free
  }

  lemma TookWhole(base: nat, free: seq<nat>, ptr: map<nat, nat>, size: map<nat, nat>,
                  live: map<nat, nat>, arena: set<nat>, k: nat)
    requires Sound(base, free, ptr, size, live, arena) && 1 <= k < |free|
    ensures Took(base, Drop(free, k), ptr[free[k - 1] := ptr[free[k]]], size, live, arena,
                 free[k], size[free[k]], free[k - 1])
  {
    TakeWhole(base, free, ptr, size, k);
    assert Drop(free, k)[k - 1] == free[k - 1];
    assert base < free[k];
    hide Linked, Coalesced, Conserved, Joined;
    Handed(base, free, size, live, arena, free[k], size[free[k]], Drop(free, k), size);
  }

  lemma TookTail(base: nat, free: seq<nat>, ptr: map<nat, nat>, size: map<nat, nat>,
                 live: map<nat, nat>, arena: set<nat>, k: nat, n: nat)
    requires Sound(base, free, ptr, size, live, arena) && 1 <= k < |free| && 1 <= n < size[free[k]]
    ensures var h := free[k] + (size[free[k]] - n);
            Took(base, free, ptr, size[free[k] := size[free[k]] - n][h := n], live, arena, h, n, free[k - 1])
  {
    var h := free[k] + (size[free[k]] - n);
    TakeTail(base, free, ptr, size, k, n);
    NotFree(free, size, live, k);
    assert base < free[k];
    assert free[k - 1] in free;
    hide Linked, Coalesced, Conserved, Joined;
    Handed(base, free, size, live, arena, h, n, free, size[free[k] := size[free[k]] - n][h := n]);
  }

  /** The position e places after f in a cycle of n. */
  function Around(f: nat, e: nat, n: nat): (i: nat)
    requires f < n && e <= n
    ensures i < n
  {
    if f + e < n then f + e else f + e - n
  }

  /** What the search knows: no block in the e places after position f has n units. */
  ghost predicate Searched(free: seq<nat>, size: map<nat, nat>, f: nat, e: nat, n: nat) {
    && f < |free| && e <= |free|
    && forall d :: 1 <= d <= e ==> var i := Around(f, d, |free|); free[i] in size && size[free[i]] < n
  }

  lemma SearchedAll(free: seq<nat>, size: map<nat, nat>, f: nat, n: nat, i: nat)
    requires Searched(free, size, f, |free|, n) && i < |free|
    ensures free[i] in size && size[free[i]] < n
  {
    var d := if i > f then i - f else i + |free| - f;
    assert Around(f, d, |free|) == i;
  }

  lemma CycleNext(base: nat, free: seq<nat>, ptr: map<nat, nat>, size: map<nat, nat>,
                  live: map<nat, nat>, arena: set<nat>, f: nat, e: nat)
    requires Sound(base, free, ptr, size, live, arena) && f < |free| && e < |free|
    ensures var n := |free|;
            var j, k := Around(f, e, n), Around(f, e + 1, n);
            && free[j] in ptr && ptr[free[j]] == free[k] && free[k] in ptr && free[k] in size && base <= free[j]
            && (size[free[k]] > 0 ==> k == j + 1)
            && (free[k] == free[f] ==> e + 1 == n)
  {
    var n := |free|;
    var j, k := Around(f, e, n), Around(f, e + 1, n);
    assert LinkAt(base, free, ptr, j) && LinkAt(base, free, ptr, k);
    assert k == if j + 1 < n then j + 1 else 0;
    assert size[free[0]] == 0;
  }

  lemma SearchedMore(free: seq<nat>, size: map<nat, nat>, f: nat, e: nat, n: nat)
    requires f < |free| && e < |free|
    requires var k := Around(f, e + 1, |free|); free[k] in size && size[free[k]] < n
    ensures Searched(free, size, f, e, n) ==> Searched(free, size, f, e + 1, n)
  {
  }

  lemma SearchedNone(free: seq<nat>, size: map<nat, nat>, f: nat, n: nat)
    requires f < |free|
    ensures Searched(free, size, f, 0, n)
  {
  }

  /** No free block has n units. */
  ghost predicate NoneFits(free: seq<nat>, size: map<nat, nat>, n: nat) {
    forall i: nat :: i < |free| ==> free[i] in size && size[free[i]] < n
  }

  lemma OneFits(free: seq<nat>, size: map<nat, nat>, n: nat, i: nat)
    requires i < |free| && free[i] in size && size[free[i]] >= n
    ensures !NoneFits(free, size, n)
  {
  }

  lemma SearchedThrough(free: seq<nat>, size: map<nat, nat>, f: nat, n: nat)
    requires Searched(free, size, f, |free|, n)
    ensures NoneFits(free, size, n)
  {
    forall i: nat | i < |free| ensures free[i] in size && size[free[i]] < n {
      SearchedAll(free, size, f, n, i);
    }
  }

  /** Some free block has n units. */
  ghost predicate Roomy(free: seq<nat>, size: map<nat, nat>, n: nat) {
    exists hp: nat :: Covers(free, size, hp, n)
  }

  lemma RoomyFits(free: seq<nat>, size: map<nat, nat>, f: nat, n: nat)
    requires Roomy(free, size, n)
    ensures !Searched(free, size, f, |free|, n)
  {
    var hp: nat :| Covers(free, size, hp, n);
    assert Covers(free, size, hp, n);
    if Searched(free, size, f, |free|, n) {
      var i: nat :| i < |free| && free[i] in size && free[i] <= hp && hp + n <= free[i] + size[free[i]];
      SearchedAll(free, size, f, n, i);
    }
  }

  // ---- nobody's block is written ------------------------------------------------------------

  ghost predicate SameUnit(ptr: map<nat, nat>, size: map<nat, nat>, ptr': map<nat, nat>, size': map<nat, nat>, u: nat) {
    && (u in ptr <==> u in ptr') && (u in ptr ==> ptr'[u] == ptr[u])
    && (u in size <==> u in size') && (u in size ==> size'[u] == size[u])
  }

  /** The units of the live blocks hold what they held. */
  ghost predicate Kept(live: map<nat, nat>, ptr: map<nat, nat>, size: map<nat, nat>,
                       ptr': map<nat, nat>, size': map<nat, nat>)
  {
    forall u: nat :: InLive(live, u) ==> SameUnit(ptr, size, ptr', size', u)
  }

  lemma KeptTrans(live: map<nat, nat>, ptr: map<nat, nat>, size: map<nat, nat>, ptr': map<nat, nat>,
                  size': map<nat, nat>, ptr'': map<nat, nat>, size'': map<nat, nat>)
    requires Kept(live, ptr, size, ptr', size') && Kept(live, ptr', size', ptr'', size'')
    ensures Kept(live, ptr, size, ptr'', size'')
  {
    forall u: nat | InLive(live, u) ensures SameUnit(ptr, size, ptr'', size'', u) {
      assert SameUnit(ptr, size, ptr', size', u);
    }
  }

  lemma KeptAll(live: map<nat, nat>, ptr: map<nat, nat>, size: map<nat, nat>)
    ensures Kept(live, ptr, size, ptr, size)
  {
  }

  lemma NothingKept(ptr: map<nat, nat>, size: map<nat, nat>, ptr': map<nat, nat>, size': map<nat, nat>)
    ensures Kept(map[], ptr, size, ptr', size')
  {
  }

  /** Only units ws were written. */
  lemma KeptBut(live: map<nat, nat>, ptr: map<nat, nat>, size: map<nat, nat>, ptr': map<nat, nat>, size': map<nat, nat>,
                ws: set<nat>)
    requires forall u :: u in ws ==> !InLive(live, u)
    requires forall u: nat :: u !in ws ==> SameUnit(ptr, size, ptr', size', u)
    ensures Kept(live, ptr, size, ptr', size')
  {
  }

  lemma KeptPut(live: map<nat, nat>, ptr: map<nat, nat>, size: map<nat, nat>, b: nat, p: nat, x: nat, y: nat, m: nat,
                n: nat)
    requires !InLive(live, b) && !InLive(live, p)
    ensures Kept(live, ptr, size, ptr[b := x][p := y], size[b := m][p := n])
  {
    KeptBut(live, ptr, size, ptr[b := x][p := y], size[b := m][p := n], {b, p});
  }

  /** A unit of a free block, its header in any case, is in no live block. */
  lemma FreeUnit(base: nat, free: seq<nat>, ptr: map<nat, nat>, size: map<nat, nat>,
                 live: map<nat, nat>, arena: set<nat>, k: nat, u: nat)
    requires Sound(base, free, ptr, size, live, arena) && k < |free|
    requires u == free[k] || At(free, size, k, u)
    ensures !InLive(live, u)
  {
    assert free[k] != base ==> At(free, size, k, free[k]);
    assert At(free, size, k, u) ==> InFree(free, size, u);
  }

  lemma FreeUnitStill(base: nat, free: seq<nat>, ptr: map<nat, nat>, size: map<nat, nat>,
                      live: map<nat, nat>, arena: set<nat>, k: nat, bp: nat)
    requires Sound(base, free, ptr, size, live, arena) && k < |free|
    ensures !InLive(live - {bp}, free[k])
  {
    FreeUnit(base, free, ptr, size, live, arena, k, free[k]);
    assert InLive(live - {bp}, free[k]) ==> InLive(live, free[k]);
  }

  lemma OwnUnit(base: nat, free: seq<nat>, ptr: map<nat, nat>, size: map<nat, nat>,
                live: map<nat, nat>, arena: set<nat>, bp: nat)
    requires Sound(base, free, ptr, size, live, arena) && bp in live
    ensures !InLive(live - {bp}, bp)
  {
  }

  lemma OutsideUnit(base: nat, free: seq<nat>, ptr: map<nat, nat>, size: map<nat, nat>,
                    live: map<nat, nat>, arena: set<nat>, u: nat)
    requires Sound(base, free, ptr, size, live, arena) && u !in arena
    ensures !InLive(live, u)
  {
  }

  class Heap {
    const base: nat
    var ptr: map<nat, nat>
    var size: map<nat, nat>
    var freep: nat
    var brk: nat
    ghost var free: seq<nat>
    ghost var live: map<nat, nat>
    ghost var arena: set<nat>

    ghost predicate Ready()
      reads this
    {
      && 0 < base < brk && freep in free
      && Sound(base, free, ptr, size, live, arena)
      && forall u :: u in arena ==> base < u < brk
    }

    ghost predicate Valid()
      reads this
    {
      if freep == 0 then 0 < base < brk && free == [] && live == map[] && arena == {} else Ready()
    }

    constructor (base: nat, brk: nat)
      requires 0 < base < brk
      ensures Valid() && freep == 0 && this.base == base && this.brk == brk && live == map[] && arena == {}
    {
      this.base, this.brk, freep := base, brk, 0;
      ptr, size := map[], map[];
      free, live, arena := [], map[], {};
    }

    /** malloc's first call makes a cycle of the empty base alone. */
    method Begin()
      requires Valid() && freep == 0
      modifies this
      ensures Ready() && freep == base && live == old(live) && arena == old(arena) && brk == old(brk)
      ensures free == [base]
      ensures ptr == old(ptr)[base := base] && size == old(size)[base := 0]
    {
      ptr := ptr[base := base];
      freep := base;
      size := size[base := 0];
      free := [base];
    }

    /** free's search: the cycle position below bp. */
    method FindSlot(bp: nat) returns (p: nat, ghost k: nat)
      requires Ready() && bp > base && bp !in free
      ensures p in free && Between(free, bp, k) && p == free[k]
    {
      ghost var n, t := |free|, Slot(free, bp);
      p := freep;
      k :| 0 <= k < |free| && free[k] == freep;
      while !(bp > p && bp < ptr[p])
        invariant 0 <= k < n && p == free[k] && n == |free|
        decreases if k <= t then t - k else n + t - k
      {
        assert Linked(base, free, ptr);
        assert LinkAt(base, free, ptr, k);
        if p >= ptr[p] && (bp > p || bp < ptr[p]) {
          break;
        }
        assert k != t;
        k := if k + 1 < n then k + 1 else 0;
        p := ptr[p];
      }
      assert Linked(base, free, ptr);
      assert LinkAt(base, free, ptr, k);
    }

    /** free's end: the block joins the cycle behind p = free[k], as part of the block above it,
        below it, or both, if they touch. Only the headers of bp and p are written. */
    method Attach(bp: nat, p: nat, ghost k: nat)
      requires Ready() && bp in live && Between(free, bp, k) && p == free[k]
      modifies this`ptr, this`size, this`freep, this`free, this`live
      ensures Ready() && freep != 0
      ensures live == old(live) - {bp}
      ensures Covers(free, size, bp, old(live)[bp])
      ensures {bp, p} <= ptr.Keys && ptr == old(ptr)[bp := ptr[bp]][p := ptr[p]]
      ensures {bp, p} <= size.Keys && size == old(size)[bp := size[bp]][p := size[p]]
    {
      hide Sound, Linked, Coalesced, Disjoint, Conserved, Covers, Fits, Insert, Drop;
      Located(base, free, ptr, size, live, arena, bp, k);
      ghost var free0, ptr0, size0 := free, ptr, size;
      var upper := bp + size[bp] == ptr[p];
      if upper {
        size := size[bp := size[bp] + size[ptr[p]]];
        ptr := ptr[bp := ptr[ptr[p]]];
      } else {
        ptr := ptr[bp := ptr[p]];
      }
      if p + size[p] == bp {
        size := size[p := size[p] + size[bp]];
        ptr := ptr[p := ptr[bp]];
        if upper {
          FreedBoth(base, free0, ptr0, size0, live, arena, bp, k);
          free := Drop(free0, k + 1);
        } else {
          FreedLower(base, free0, ptr0, size0, live, arena, bp, k);
        }
      } else {
        ptr := ptr[p := bp];
        if upper {
          FreedUpper(base, free0, ptr0, size0, live, arena, bp, k);
          free := free0[k + 1 := bp];
        } else {
          FreedApart(base, free0, ptr0, size0, live, arena, bp, k);
          free := Insert(free0, k, bp);
        }
      }
      freep := p;
      live := live - {bp};
    }

    /** free(ap) for the live block whose header is bp: its units go back to the list. */
    method Free(bp: nat)
      requires Valid() && bp in live
      modifies this`ptr, this`size, this`freep, this`free, this`live
      ensures Valid() && freep != 0
      ensures live == old(live) - {bp}
      ensures Covers(free, size, bp, old(live)[bp])
      ensures Kept(live, old(ptr), old(size), ptr, size)
    {
      hide Sound, Covers, InLive, Kept;
      LiveNotFree(base, free, ptr, size, live, arena, bp);
      var p;
      ghost var k;
      p, k := FindSlot(bp);
      OwnUnit(base, free, ptr, size, live, arena, bp);
      FreeUnitStill(base, free, ptr, size, live, arena, k, bp);
      Attach(bp, p, k);
      KeptPut(live, old(ptr), old(size), bp, p, ptr[bp], ptr[p], size[bp], size[p]);
    }

    /** morecore: units from sbrk, at least MIN_UNITS of them, go on the list as one block.
        `gap` units above the old break may have gone to other callers of sbrk. The flag is false
        if sbrk did as asked but was not asked for what morecore takes it to have given. */
    method Morecore(nunits: nat, sbrkOk: bool, gap: nat) returns (ok: bool, p: nat)
      requires Ready() && freep != 0 && nunits <= 0x1000_0001
      modifies this
      ensures ok == !(sbrkOk && nunits >= 0x800_0000)
      ensures p == 0 <==> !(ok && sbrkOk)
      ensures p == 0 ==> unchanged(this)
      ensures p != 0 ==> p == freep && Ready() && live == old(live)
      ensures p != 0 ==> Roomy(free, size, nunits) && Kept(live, old(ptr), old(size), ptr, size)
      ensures p != 0 ==> brk == old(brk) + gap + Grant(nunits)
                         && arena == old(arena) + Span(old(brk) + gap, Grant(nunits))
    {
      hide Sound, Linked, Coalesced, Disjoint, Conserved, Kept, InLive;
      var nu := if nunits < MIN_UNITS then MIN_UNITS else nunits;
      if !sbrkOk {
        return true, 0;
      }
      SbrkRequestExact(nunits);
      if SbrkBytes(nunits) != nu * HEADER {
        return false, 0;
      }
      hide SbrkBytes;
      var hp := brk + gap;
      Granted(base, free, ptr, size, live, arena, hp, nu);
      OutsideUnit(base, free, ptr, size, live, arena, hp);
      brk := hp + nu;
      size := size[hp := nu];
      KeptBut(live, ptr, old(size), ptr, size, {hp});
      live := live[hp := nu];
      arena := arena + Span(hp, nu);
      ghost var size0 := size;
      Free(hp);
      assert live == old(live);
      KeptTrans(live, old(ptr), old(size), old(ptr), size0, ptr, size);
      assert Covers(free, size, hp, nunits);
      ok, p := true, freep;
    }

    /** The part of malloc's loop that takes nunits from block p = free[k], found after prevp. */
    method Take(prevp: nat, p: nat, nunits: nat, ghost k: nat) returns (h: nat)
      requires Ready() && 1 <= k < |free| && p == free[k] && prevp == free[k - 1] && prevp >= base
      requires 1 <= nunits && p in size && size[p] >= nunits && p in ptr
      modifies this`ptr, this`size, this`freep, this`free, this`live
      ensures Ready() && freep != 0 && h > 0 && h !in old(live) && live == old(live)[h := nunits]
      ensures Kept(old(live), old(ptr), old(size), ptr, size)
    {
      hide Sound, Linked, Coalesced, Disjoint, Conserved, Kept, InLive;
      FreeUnit(base, free, ptr, size, live, arena, k - 1, prevp);
      FreeUnit(base, free, ptr, size, live, arena, k, p);
      FreeUnit(base, free, ptr, size, live, arena, k, p + (size[p] - nunits));
      h := p;
      if size[p] == nunits {
        TookWhole(base, free, ptr, size, live, arena, k);
        ptr := ptr[prevp := ptr[p]];
        free := Drop(free, k);
      } else {
        TookTail(base, free, ptr, size, live, arena, k, nunits);
        size := size[p := size[p] - nunits];
        h := h + size[p];
        size := size[h := nunits];
      }
      KeptBut(live, old(ptr), old(size), ptr, size, {prevp, p, h});
      live := live[h := nunits];
      freep := prevp;
    }

    /** malloc's loop: the first block of at least nunits units behind freep, after a call of
        morecore if there is none. */
    method FirstFit(nunits: nat, sbrkOk: bool, gap: nat) returns (ok: bool, ap: nat)
      requires Ready() && freep != 0 && 1 <= nunits <= 0x1000_0001
      modifies this
      ensures Ready() && freep != 0
      ensures ok <==> !(sbrkOk && nunits >= 0x800_0000 && NoneFits(old(free), old(size), nunits))
      ensures ap != 0 ==> ap - 1 !in old(live) && live == old(live)[ap - 1 := nunits]
      ensures Kept(old(live), old(ptr), old(size), ptr, size)
      ensures ap == 0 ==> unchanged(this)
      ensures ok ==> (ap == 0 <==> !sbrkOk && NoneFits(old(free), old(size), nunits))
      ensures (brk == old(brk) && arena == old(arena))
              || (sbrkOk && brk == old(brk) + gap + Grant(nunits)
                  && arena == old(arena) + Span(old(brk) + gap, Grant(nunits)))
    {
      hide Sound, Linked, Coalesced, Disjoint, Conserved, Covers, Roomy, Searched, Span, Grant, Kept, InLive, NoneFits;
      var prevp, grown := freep, false;
      KeptAll(live, ptr, size);
      ghost var f: nat :| f < |free| && free[f] == freep;
      ghost var e := 0;
      SearchedNone(free, size, f, nunits);
      CycleNext(base, free, ptr, size, live, arena, f, e);
      var p := ptr[prevp];
      while true
        invariant Ready() && freep != 0 && live == old(live)
        invariant Kept(live, old(ptr), old(size), ptr, size)
        invariant !grown ==> unchanged(this)
        invariant grown ==> brk == old(brk) + gap + Grant(nunits)
                            && arena == old(arena) + Span(old(brk) + gap, Grant(nunits))
        invariant grown ==> sbrkOk && nunits < 0x800_0000 && Roomy(free, size, nunits)
        invariant e < |free| && f < |free| && free[f] == freep
        invariant Searched(free, size, f, e, nunits)
        invariant prevp == free[Around(f, e, |free|)] && p == free[Around(f, e + 1, |free|)]
        decreases !grown, |free| - e
      {
        CycleNext(base, free, ptr, size, live, arena, f, e);
        ghost var ptr0, size0 := ptr, size;
        if size[p] >= nunits {
          OneFits(free, size, nunits, Around(f, e + 1, |free|));
          ap := Take(prevp, p, nunits, Around(f, e + 1, |free|));
          KeptTrans(old(live), old(ptr), old(size), ptr0, size0, ptr, size);
          return true, ap + 1;
        }
        SearchedMore(free, size, f, e, nunits);
        if p == freep {
          if grown {
            RoomyFits(free, size, f, nunits);
            assert false;
          }
          SearchedThrough(free, size, f, nunits);
          ok, p := Morecore(nunits, sbrkOk, gap);
          if p == 0 {
            return ok, 0;
          }
          KeptTrans(live, old(ptr), old(size), ptr0, size0, ptr, size);
          grown := true;
          f :| f < |free| && free[f] == freep;
          e := 0;
          SearchedNone(free, size, f, nunits);
        } else {
          e := e + 1;
        }
        CycleNext(base, free, ptr, size, live, arena, f, e);
        prevp := p;
        p := ptr[p];
      }
    }

    /** malloc(nbytes). `sbrkOk` and `gap` are what sbrk will do if it is called, which
        happens at most once. The result is 0 or a block of Units(nbytes) units whose
        header is one below it. The arena grows by what one call of sbrk gave, if at all. The
        flag is false if sbrk was asked for something else and did that: what malloc does from
        there on, it does outside its arena. */
    method Malloc(nbytes: nat, sbrkOk: bool, gap: nat) returns (ok: bool, ap: nat)
      requires Valid() && nbytes < 0x1_0000_0000
      modifies this
      ensures Valid() && freep != 0
      ensures ok <==> !(sbrkOk && Units(nbytes) >= 0x800_0000 && NoneFits(old(free), old(size), Units(nbytes)))
      ensures ap != 0 ==> ap - 1 !in old(live) && live == old(live)[ap - 1 := Units(nbytes)]
      ensures Kept(old(live), old(ptr), old(size), ptr, size)
      ensures ap == 0 ==> live == old(live) && arena == old(arena) && NoneFits(free, size, Units(nbytes))
      ensures ok ==> (ap == 0 <==> !sbrkOk && NoneFits(old(free), old(size), Units(nbytes)))
      ensures (brk == old(brk) && arena == old(arena))
              || (sbrkOk && brk == old(brk) + gap + Grant(Units(nbytes))
                  && arena == old(arena) + Span(old(brk) + gap, Grant(Units(nbytes))))
    {
      hide Sound, Span, Grant, Kept;
      var nunits := Units(nbytes);
      KeptAll(live, ptr, size);
      if freep == 0 {
        NothingKept(old(ptr), old(size), ptr[base := base], size[base := 0]);
        Begin();
      }
      ghost var ptr0, size0 := ptr, size;
      ok, ap := FirstFit(nunits, sbrkOk, gap);
      KeptTrans(old(live), old(ptr), old(size), ptr0, size0, ptr, size);
    }
  }
}
