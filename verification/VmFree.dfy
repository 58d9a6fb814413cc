/** freewalk (kernel/vm.c:218-232), as values: a tree of page tables is felled from the bottom. */
module FellSpec {
  import opened VmSpec
  import opened Prelude

  /** x is below p, through an entry before i. */
  predicate Under(x: Path, p: Path, i: nat) {
    match p
    case Root => (x.Mid? || x.Low?) && x.i < i
    case Mid(a) => x.Low? && x.i == a && x.j < i
    case Low(_, _) => false
  }

  predicate Below(x: Path, p: Path) {
    x == p || Under(x, p, ENTRIES)
  }

  function UnderSet(tab: map<Path, nat>, p: Path, i: nat): (s: set<Path>) {
    set x | x in tab && Under(x, p, i)
  }

  function BelowSet(tab: map<Path, nat>, p: Path): (s: set<Path>) {
    set x | x in tab && Below(x, p)
  }

  /** Page table x is where it should be. */
  predicate Standing(m: Mem, r: nat, x: Path)
    requires r in m.spaces && x in m.spaces[r]
  {
    var q := m.spaces[r][x];
    && WellPath(x) && Parent(x) in m.spaces[r]
    && q in m.own && m.own[q] == Tab(r, x) && IsTable(m.page, q)
  }

  /** Memory in order, save that entries of r's page tables may point to freed ones. */
  ghost predicate Falling(m: Mem, r: nat) {
    && HeapOk(m) && r in m.spaces
    && (forall s {:trigger SpaceOk(m, s)} :: s in m.spaces && s != r ==> SpaceOk(m, s))
    && (forall x {:trigger Standing(m, r, x)} :: x in m.spaces[r] ==> Standing(m, r, x))
    && (forall q {:trigger m.own[q]} :: q in m.own ==> !(m.own[q].User? && m.own[q].root == r))
  }

  /** Entry i of x points to the table below it, if there is one, and is no leaf. */
  ghost predicate Bare(m: Mem, r: nat, x: Path, i: nat)
    requires r in m.spaces && x in m.spaces[r] && i < ENTRIES
  {
    EntOk(m.page, m.spaces[r], x, i) && (x.Low? ==> !m.page[m.spaces[r][x]].ptes[i].v)
  }

  ghost predicate BareBelow(m: Mem, r: nat, p: Path) {
    && r in m.spaces
    && forall x, i: nat {:trigger Bare(m, r, x, i)} :: x in m.spaces[r] && Below(x, p) && i < ENTRIES ==>
        Bare(m, r, x, i)
  }

  /** What happened to page q when the page tables in `gone` were freed and p's was edited. */
  ghost predicate FellUse(m: Mem, w: Mem, r: nat, gone: set<Path>, p: Path, q: nat)
    requires q in m.own && q in w.own
  {
    if m.own[q].Tab? && m.own[q].root == r && m.own[q].path in gone then w.own[q] == Free
    else if m.own[q] == Tab(r, p) then w.own[q] == m.own[q]
    else SameNode(m, w, q)
  }

  ghost predicate Felled(m: Mem, w: Mem, r: nat, gone: set<Path>, p: Path) {
    && r in m.spaces && w.own.Keys == m.own.Keys && w.spaces.Keys == m.spaces.Keys
    && w.spaces[r] == m.spaces[r] - gone
    && (forall s :: s in m.spaces && s != r ==> w.spaces[s] == m.spaces[s])
    && (forall q {:trigger FellUse(m, w, r, gone, p, q)} :: q in m.own ==> FellUse(m, w, r, gone, p, q))
  }

  lemma FelledTrans(m: Mem, x: Mem, w: Mem, r: nat, a: set<Path>, b: set<Path>, p: Path, o: Path, c: set<Path>)
    requires Felled(m, x, r, a, p) && Felled(x, w, r, b, o) && c == a + b && p !in a && (o == p || o in b)
    ensures Felled(m, w, r, c, p)
  {
    forall q | q in m.own ensures FellUse(m, w, r, c, p, q) {
      assert FellUse(m, x, r, a, p, q) && FellUse(x, w, r, b, o, q);
    }
    assert m.spaces[r] - a - b == m.spaces[r] - c;
  }

  /** An intact tree without leaves is ready to be felled. */
  lemma ReadyToFall(m: Mem, r: nat)
    requires Inv(m) && r in m.spaces && forall n: nat :: Leaf(m, r, n) == None
    ensures Falling(m, r) && BareBelow(m, r, Root) && Root in m.spaces[r] && m.spaces[r][Root] == r
  {
    assert SpaceOk(m, r);
    forall x | x in m.spaces[r] ensures Standing(m, r, x) {
      assert NodeOk(m, r, x);
    }
    forall q | q in m.own ensures !(m.own[q].User? && m.own[q].root == r) {
      if m.own[q].User? {
        UserLeaf(m, q);
      }
    }
    forall x, i: nat | x in m.spaces[r] && Below(x, Root) && i < ENTRIES ensures Bare(m, r, x, i) {
      assert NodeOk(m, r, x) && EntOk(m.page, m.spaces[r], x, i);
      if x.Low? {
        PageNumber(x, i);
        assert Leaf(m, r, (x.i * ENTRIES + x.j) * ENTRIES + i) == None;
      }
    }
  }

  lemma PageNumber(x: Path, i: nat)
    requires x.Low? && x.j < ENTRIES && i < ENTRIES
    ensures var n := (x.i * ENTRIES + x.j) * ENTRIES + i; LowOf(n) == x && n % ENTRIES == i
  {
    var n := (x.i * ENTRIES + x.j) * ENTRIES + i;
    assert n / ENTRIES == x.i * ENTRIES + x.j;
  }

  // ---- one page table -------------------------------------------------------------------------------------

  /** Entry i of page table p is cleared. */
  function Cleared(m: Mem, r: nat, p: Path, i: nat): (w: Mem)
    requires r in m.spaces && p in m.spaces[r] && IsTable(m.page, m.spaces[r][p]) && i < ENTRIES
  {
    Mem(m.head, WithEntry(m.page, m.spaces[r][p], i, NoPte()), m.chain, m.own, m.spaces)
  }

  lemma OthersStand(m: Mem, w: Mem, r: nat, s: nat, qs: set<nat>)
    requires s in m.spaces && s != r && SpaceOk(m, s) && s in w.spaces && w.spaces[s] == m.spaces[s]
             && SameBut(m, w, qs)
    requires forall q :: q in qs && q in m.own ==> m.own[q].Tab? && m.own[q].root == r
    ensures SpaceOk(w, s) && SameTree(m, w, s)
  {
    TreeKept(m, w, s, qs);
  }

  /** Only page table p is written. */
  lemma ClearNodes(m: Mem, w: Mem, r: nat, p: Path, i: nat)
    requires Falling(m, r) && p in m.spaces[r] && IsTable(m.page, m.spaces[r][p]) && i < ENTRIES
             && w == Cleared(m, r, p, i)
    ensures m.spaces[r][p] in m.own && m.own[m.spaces[r][p]] == Tab(r, p) && SameBut(m, w, {m.spaces[r][p]})
    ensures forall x :: x in w.spaces[r] ==> Standing(w, r, x)
    ensures Felled(m, w, r, {}, p)
  {
    hide SpaceOk;
    assert Standing(m, r, p);
    var a := m.spaces[r][p];
    forall q | q in m.own && q !in {a} ensures SameNode(m, w, q) {
      PageIsOk(m, q);
    }
    forall x | x in w.spaces[r] ensures Standing(w, r, x) {
      assert Standing(m, r, x);
    }
    forall q | q in m.own ensures FellUse(m, w, r, {}, p, q) {
      assert m.own[q].Tab? && m.own[q].root == r ==> PageOk(m, q);
    }
  }

  lemma ClearFalls(m: Mem, w: Mem, r: nat, p: Path, i: nat)
    requires Falling(m, r) && p in m.spaces[r] && IsTable(m.page, m.spaces[r][p]) && i < ENTRIES
             && w == Cleared(m, r, p, i)
    ensures Falling(w, r) && Felled(m, w, r, {}, p)
  {
    hide SpaceOk, SameTree, Standing, FellUse, HeapOk, SameBut;
    var a := m.spaces[r][p];
    ClearNodes(m, w, r, p, i);
    forall s | s in m.spaces && s != r ensures SpaceOk(w, s) && SameTree(m, w, s) {
      assert SpaceOk(m, s);
      OthersStand(m, w, r, s, {a});
    }
    FallHeap(m, w, r, a);
  }

  lemma FallHeap(m: Mem, w: Mem, r: nat, a: nat)
    requires HeapOk(m) && w.head == m.head && w.chain == m.chain && w.own == m.own && w.spaces == m.spaces
    requires SameBut(m, w, {a}) && a in m.own && m.own[a].Tab? && m.own[a].root == r && a in w.page
    requires forall s :: s in m.spaces && s != r ==> SameTree(m, w, s)
    requires forall q :: q in m.own ==> !(m.own[q].User? && m.own[q].root == r)
    ensures HeapOk(w)
  {
    hide Find, SameTree;
    forall i: nat | i < |w.chain| ensures RunOk(w, i) {
      assert RunOk(m, i) && SameNode(m, w, m.chain[i]);
    }
    forall i: nat, j: nat | i < |w.chain| && j < |w.chain| ensures Apart(w, i, j) {
      assert Apart(m, i, j);
    }
    forall q | q in w.own ensures PageOk(w, q) {
      assert PageOk(m, q);
      if q != a {
        assert SameNode(m, w, q);
        if m.own[q].User? {
          SameLeaf(m, w, m.own[q].root, m.own[q].n);
        }
      }
    }
  }

  /** Page table p, with none below it left, is freed. */
  function Dropped(m: Mem, r: nat, p: Path): (w: Mem)
    requires r in m.spaces && p in m.spaces[r]
  {
    var q := m.spaces[r][p];
    var tab: map<Path, nat> := m.spaces[r] - {p};
    Mem(q, m.page[q := Run(m.head)], [q] + m.chain, m.own[q := Free], m.spaces[r := tab])
  }

  lemma DropFalls(m: Mem, w: Mem, r: nat, p: Path)
    requires Falling(m, r) && p in m.spaces[r] && w == Dropped(m, r, p)
    requires forall x :: x in m.spaces[r] ==> !Under(x, p, ENTRIES)
    ensures Falling(w, r) && Felled(m, w, r, {p}, p)
  {
    hide Find, EntOk, NodeOk, SpaceOk, SameTree;
    assert Standing(m, r, p);
    var a := m.spaces[r][p];
    forall q | q in m.own && q !in {a} ensures SameNode(m, w, q) {
      PageIsOk(m, q);
    }
    forall s | s in m.spaces && s != r ensures SpaceOk(w, s) && SameTree(m, w, s) {
      assert SpaceOk(m, s);
      OthersStand(m, w, r, s, {a});
    }
    forall x | x in w.spaces[r] ensures Standing(w, r, x) {
      assert Standing(m, r, x);
    }
    DropHeap(m, w, r, p);
    forall q | q in m.own ensures FellUse(m, w, r, {p}, p, q) {
      assert m.own[q].Tab? && m.own[q].root == r ==> PageOk(m, q);
    }
  }

  lemma DropHeap(m: Mem, w: Mem, r: nat, p: Path)
    requires Falling(m, r) && p in m.spaces[r] && w == Dropped(m, r, p)
    requires SameBut(m, w, {m.spaces[r][p]}) && forall s :: s in m.spaces && s != r ==> SameTree(m, w, s)
    ensures HeapOk(w)
  {
    hide Find, SameTree, SpaceOk;
    assert Standing(m, r, p);
    var a := m.spaces[r][p];
    forall i: nat | i < |w.chain| ensures RunOk(w, i) {
      if i > 0 {
        assert RunOk(m, i - 1);
      }
    }
    forall i: nat, j: nat | i < |w.chain| && j < |w.chain| ensures Apart(w, i, j) {
      if i > 0 && j > 0 {
        assert Apart(m, i - 1, j - 1);
      } else if i > 0 {
        assert RunOk(m, i - 1);
      } else if j > 0 {
        assert RunOk(m, j - 1);
      }
    }
    forall q | q in w.own ensures PageOk(w, q) {
      assert PageOk(m, q);
      if q != a {
        assert SameNode(m, w, q);
        if m.own[q].User? {
          SameLeaf(m, w, m.own[q].root, m.own[q].n);
        }
      }
    }
  }

  // ---- the loop over the entries of one page table ----------------------------------------------------------------

  /** The entries of p from i on are those of m, and the tables below p before i are gone. */
  ghost predicate FelledTo(m: Mem, x: Mem, r: nat, p: Path, i: nat) {
    && Falling(x, r) && r in m.spaces && p in m.spaces[r] && i <= ENTRIES && p in x.spaces[r]
    && Felled(m, x, r, UnderSet(m.spaces[r], p, i), p)
    && IsTable(m.page, m.spaces[r][p]) && IsTable(x.page, m.spaces[r][p])
    && x.page[m.spaces[r][p]].ptes[i..] == m.page[m.spaces[r][p]].ptes[i..]
  }

  lemma FelledNone(m: Mem, r: nat, p: Path)
    requires Falling(m, r) && p in m.spaces[r]
    ensures FelledTo(m, m, r, p, 0)
  {
    assert Standing(m, r, p);
    assert UnderSet(m.spaces[r], p, 0) == {};
    forall q | q in m.own ensures FellUse(m, m, r, {}, p, q) {
    }
  }

  lemma UnderStep(m: Mem, r: nat, p: Path, i: nat, x: Path)
    requires r in m.spaces && x in m.spaces[r] && Standing(m, r, x) && i < ENTRIES
    ensures !p.Low? ==> (Under(x, p, i + 1) <==> Under(x, p, i) || Below(x, Kid(p, i)))
    ensures p.Low? ==> !Under(x, p, i + 1)
    ensures !p.Low? && Below(x, Kid(p, i)) ==> !Under(x, p, i) && x != p && Below(x, p)
    ensures !p.Low? && Below(x, Kid(p, i)) ==> x == Kid(p, i) || Parent(x) == Kid(p, i)
  {
  }

  lemma UnderSetStep(m: Mem, r: nat, p: Path, i: nat)
    requires Falling(m, r) && i < ENTRIES
    ensures UnderSet(m.spaces[r], p, i + 1) ==
            UnderSet(m.spaces[r], p, i) + if p.Low? then {} else BelowSet(m.spaces[r], Kid(p, i))
    ensures !p.Low? && Kid(p, i) !in m.spaces[r] ==> BelowSet(m.spaces[r], Kid(p, i)) == {}
  {
    hide HeapOk, SpaceOk, Under, Below;
    forall y | y in m.spaces[r]
      ensures Under(y, p, i + 1) <==> Under(y, p, i) || (!p.Low? && Below(y, Kid(p, i)))
      ensures !p.Low? && Below(y, Kid(p, i)) ==> Kid(p, i) in m.spaces[r]
    {
      assert Standing(m, r, y);
      UnderStep(m, r, p, i, y);
      if p.Low? {
        LowUnder(y, p, i);
      }
    }
  }

  lemma LowUnder(y: Path, p: Path, i: nat)
    requires p.Low?
    ensures !Under(y, p, i)
  {
  }

  lemma BelowKept(m: Mem, x: Mem, r: nat, p: Path, i: nat)
    requires Falling(m, r) && FelledTo(m, x, r, p, i) && i < ENTRIES && !p.Low?
    ensures BelowSet(x.spaces[r], Kid(p, i)) == BelowSet(m.spaces[r], Kid(p, i))
    ensures Kid(p, i) in m.spaces[r] ==> Kid(p, i) in x.spaces[r] && x.spaces[r][Kid(p, i)] == m.spaces[r][Kid(p, i)]
  {
    hide HeapOk, SpaceOk, FellUse, Under, Below;
    assert Below(Kid(p, i), Kid(p, i)) by {
      BelowSelf(Kid(p, i));
    }
    forall y | y in m.spaces[r] && Below(y, Kid(p, i)) ensures y in x.spaces[r] {
      assert Standing(m, r, y);
      UnderStep(m, r, p, i, y);
    }
  }

  lemma BelowSelf(p: Path)
    ensures Below(p, p)
  {
  }

  /** Entry i of p, when the loop comes to it. */
  lemma AtEntry(m: Mem, x: Mem, r: nat, p: Path, i: nat)
    requires Falling(m, r) && BareBelow(m, r, p) && FelledTo(m, x, r, p, i) && i < ENTRIES
    ensures var q := m.spaces[r][p]; var e := x.page[q].ptes[i];
            if e.v
            then && !p.Low? && Kid(p, i) in m.spaces[r] && Kid(p, i) in x.spaces[r]
                && e == TablePte(x.spaces[r][Kid(p, i)])
                 && UnderSet(m.spaces[r], p, i + 1) == UnderSet(m.spaces[r], p, i) + BelowSet(x.spaces[r], Kid(p, i))
            else UnderSet(m.spaces[r], p, i + 1) == UnderSet(m.spaces[r], p, i)
  {
    hide HeapOk, SpaceOk, FellUse, UnderSet, BelowSet, Under;
    assert Bare(m, r, p, i) by {
      BelowSelf(p);
    }
    var q := m.spaces[r][p];
    assert x.page[q].ptes[i..][0] == m.page[q].ptes[i..][0];
    UnderSetStep(m, r, p, i);
    if !p.Low? {
      BelowKept(m, x, r, p, i);
    }
  }

  /** The tables below entry i of p are as they were. */
  lemma StillBare(m: Mem, x: Mem, r: nat, p: Path, i: nat)
    requires Falling(m, r) && BareBelow(m, r, p) && FelledTo(m, x, r, p, i) && i < ENTRIES && !p.Low?
    ensures BareBelow(x, r, Kid(p, i))
  {
    hide HeapOk, SpaceOk;
    forall y, k: nat | y in x.spaces[r] && Below(y, Kid(p, i)) && k < ENTRIES ensures Bare(x, r, y, k) {
      assert Standing(m, r, y);
      UnderStep(m, r, p, i, y);
      assert Bare(m, r, y, k) && FellUse(m, x, r, UnderSet(m.spaces[r], p, i), p, m.spaces[r][y]);
      if !y.Low? && Kid(y, k) in m.spaces[r] {
        assert Standing(m, r, Kid(y, k));
        UnderStep(m, r, p, i, Kid(y, k));
      }
    }
  }

  /** A turn of the loop that frees what is behind entry i. */
  lemma TurnFells(m: Mem, x: Mem, y: Mem, w: Mem, r: nat, p: Path, i: nat)
    requires Falling(m, r) && BareBelow(m, r, p) && FelledTo(m, x, r, p, i) && i < ENTRIES && !p.Low?
    requires x.page[m.spaces[r][p]].ptes[i].v && Kid(p, i) in x.spaces[r]
    requires Falling(y, r) && Felled(x, y, r, BelowSet(x.spaces[r], Kid(p, i)), Kid(p, i))
    requires p in y.spaces[r] && y.spaces[r][p] == m.spaces[r][p] && IsTable(y.page, m.spaces[r][p])
             && w == Cleared(y, r, p, i)
    ensures FelledTo(m, w, r, p, i + 1)
  {
    hide HeapOk, SpaceOk, SameTree, BareBelow, Falling;
    AtEntry(m, x, r, p, i);
    var a, b, c := UnderSet(m.spaces[r], p, i), BelowSet(x.spaces[r], Kid(p, i)), UnderSet(m.spaces[r], p, i + 1);
    FelledTrans(m, x, y, r, a, b, p, Kid(p, i), c);
    ClearFalls(y, w, r, p, i);
    FelledTrans(m, y, w, r, c, {}, p, p, c);
    var q := m.spaces[r][p];
    StandsAt(m, r, p);
    assert FellUse(m, x, r, a, p, q);
    assert FellUse(x, y, r, b, Kid(p, i), q);
    assert w.page[q].ptes[i + 1..] == y.page[q].ptes[i + 1..] == x.page[q].ptes[i + 1..];
    assert x.page[q].ptes[i..][1..] == m.page[q].ptes[i..][1..];
  }

  lemma StandsAt(m: Mem, r: nat, p: Path)
    requires Falling(m, r) && p in m.spaces[r]
    ensures Standing(m, r, p)
  {
  }

  /** A turn of the loop at an empty entry. */
  lemma TurnSkips(m: Mem, x: Mem, r: nat, p: Path, i: nat)
    requires Falling(m, r) && BareBelow(m, r, p) && FelledTo(m, x, r, p, i) && i < ENTRIES
    requires !x.page[m.spaces[r][p]].ptes[i].v
    ensures FelledTo(m, x, r, p, i + 1)
  {
    hide HeapOk, SpaceOk, SameTree, BareBelow, Falling, FellUse;
    AtEntry(m, x, r, p, i);
    var q := m.spaces[r][p];
    assert x.page[q].ptes[i..][1..] == m.page[q].ptes[i..][1..];
  }

  /** After the loop, the page itself. */
  lemma LastFells(m: Mem, x: Mem, w: Mem, r: nat, p: Path)
    requires FelledTo(m, x, r, p, ENTRIES) && w == Dropped(x, r, p)
    ensures Falling(w, r) && Felled(m, w, r, BelowSet(m.spaces[r], p), p)
  {
    hide HeapOk, SpaceOk, SameTree, FellUse;
    DropFalls(x, w, r, p);
    assert UnderSet(m.spaces[r], p, ENTRIES) + {p} == BelowSet(m.spaces[r], p);
    FelledTrans(m, x, w, r, UnderSet(m.spaces[r], p, ENTRIES), {p}, p, p, BelowSet(m.spaces[r], p));
  }

  // ---- the whole tree -----------------------------------------------------------------------------------------------

  /** What became of page q when the space r was dismantled. */
  ghost predicate GoneUse(m: Mem, w: Mem, r: nat, q: nat)
    requires q in m.own && q in w.own
  {
    if (m.own[q].Tab? || m.own[q].User?) && m.own[q].root == r then w.own[q] == Free
    else
      && w.own[q] == m.own[q]
      && (m.own[q] == Kept || m.own[q].User? ==> q in m.page && q in w.page && w.page[q] == m.page[q])
  }

  /** Space r is gone: its page tables and its user pages are free, each once, and nothing else changed. */
  ghost predicate Dismantled(m: Mem, w: Mem, r: nat) {
    && r in m.spaces && w.spaces.Keys == m.spaces.Keys - {r} && w.own.Keys == m.own.Keys
    && (forall q {:trigger GoneUse(m, w, r, q)} :: q in m.own ==> GoneUse(m, w, r, q))
    && (forall s {:trigger SameTree(m, w, s)} :: s in m.spaces && s != r ==> SameTree(m, w, s))
  }

  function Without(m: Mem, r: nat): (w: Mem) {
    Mem(m.head, m.page, m.chain, m.own, m.spaces - {r})
  }

  lemma WithoutRoot(m: Mem, w: Mem, r: nat)
    requires Falling(m, r) && m.spaces[r] == map[] && w == Without(m, r)
    ensures Inv(w)
  {
    hide Find, EntOk, NodeOk;
    forall s | s in w.spaces ensures SpaceOk(w, s) && SameTree(m, w, s) {
      assert SpaceOk(m, s);
      SameTreeOk(m, w, s);
    }
    forall i: nat | i < |w.chain| ensures RunOk(w, i) {
      assert RunOk(m, i);
    }
    forall i: nat, j: nat | i < |w.chain| && j < |w.chain| ensures Apart(w, i, j) {
      assert Apart(m, i, j);
    }
    forall q | q in w.own ensures PageOk(w, q) {
      assert PageOk(m, q);
      if m.own[q].User? {
        SameLeaf(m, w, m.own[q].root, m.own[q].n);
      }
    }
  }

  lemma FelledAll(m: Mem, x: Mem, w: Mem, r: nat)
    requires Falling(m, r) && Felled(m, x, r, BelowSet(m.spaces[r], Root), Root) && Falling(x, r) && w == Without(x, r)
    requires Root in m.spaces[r]
    ensures x.spaces[r] == map[] && Inv(w) && Dismantled(m, w, r)
  {
    hide HeapOk, SpaceOk, SameTree;
    forall y | y in m.spaces[r] ensures y in BelowSet(m.spaces[r], Root) {
      assert Standing(m, r, y);
    }
    WithoutRoot(x, w, r);
    forall q | q in m.own ensures GoneUse(m, w, r, q) {
      assert FellUse(m, x, r, BelowSet(m.spaces[r], Root), Root, q);
      PageThere(m, q);
    }
    forall s | s in m.spaces && s != r ensures SameTree(m, w, s) {
      assert SpaceOk(m, s);
      TreeOutlives(m, x, w, r, s);
    }
  }

  lemma PageThere(m: Mem, q: nat)
    requires HeapOk(m) && q in m.own
    ensures q in m.page
    ensures m.own[q].Tab? ==> m.own[q].root in m.spaces && m.own[q].path in m.spaces[m.own[q].root]
  {
    assert PageOk(m, q);
  }

  lemma TreeOutlives(m: Mem, x: Mem, w: Mem, r: nat, s: nat)
    requires r in m.spaces && s in m.spaces && s != r && SpaceOk(m, s)
    requires Felled(m, x, r, BelowSet(m.spaces[r], Root), Root) && w == Without(x, r)
    ensures SameTree(m, w, s)
  {
    forall p | p in m.spaces[s] ensures SameNode(m, w, m.spaces[s][p]) {
      assert NodeOk(m, s, p);
      assert FellUse(m, x, r, BelowSet(m.spaces[r], Root), Root, m.spaces[s][p]);
    }
  }

  /** The other spaces map what is their own, as before. */
  lemma OwnDismantled(m: Mem, w: Mem, r: nat)
    requires AllOwn(m) && Dismantled(m, w, r)
    ensures AllOwn(w)
  {
    hide Find;
    forall s, n: nat | s in w.spaces ensures OwnAt(w, s, n) {
      assert OwnPages(m, s);
      assert OwnAt(m, s, n) && SameTree(m, w, s);
      SameLeaf(m, w, s, n);
      if Leaf(m, s, n).Some? && Leaf(m, s, n).value.ppn in m.own {
        assert GoneUse(m, w, r, Leaf(m, s, n).value.ppn);
      }
      OwnKept(m, w, s, n);
    }
  }
}
