/** What a write costs: the free blocks it takes, and the blocks it logs (the comment at
    kernel/file.c:125-130 and MAXOPBLOCKS, kernel/param.h:9). */
module FsBudget {
  import opened Blocks
  import opened FsSpec
  import opened Prelude

  /** The most that filewrite writes in one transaction. */
  const CHUNK: nat := (MAXOPBLOCKS - 1 - 1 - 2) / 2 * BSIZE

  /** The bitmap block of b (the BBLOCK macro). */
  function Bitmap(g: Geo, b: nat): (r: nat) {
    b / BPB + g.bmap
  }

  ghost function Bitmaps(g: Geo, s: set<Word>): (r: set<nat>) {
    set b | b in s :: Bitmap(g, b)
  }

  ghost function Free(u: seq<bool>): (s: set<Word>) {
    set b: Word | 0 <= b < |u| && !u[b]
  }

  /** The blocks that have come into use. */
  ghost function Fresh(u: seq<bool>, w: seq<bool>): (s: set<Word>)
    requires |u| == |w|
  {
    set b: Word | 0 <= b < |u| && !u[b] && w[b]
  }

  /** One past the last block that a write of n bytes at off meets. */
  function Past(off: nat, n: nat): (bn: nat) {
    (off + n + BSIZE - 1) / BSIZE
  }

  /** The slots that such a write goes through. */
  ghost function Reach(off: nat, n: nat): (ks: set<nat>) {
    (set bn: nat | off / BSIZE <= bn < Past(off, n) :: SlotOf(bn))
    + if off / BSIZE < Past(off, n) && NDIRECT < Past(off, n) then {NDIRECT} else {}
  }

  /** The slots that bmap goes through for block bn. */
  ghost function Through(bn: nat): (ks: set<nat>) {
    if bn < NDIRECT then {bn} else {NDIRECT, bn + 1}
  }

  /** Those that are empty. */
  ghost function Needed(v: Vol, i: nat, off: nat, n: nat): (ks: set<nat>)
    requires i < |v.inodes| && |v.inodes[i].addrs| == NDIRECT + 1
  {
    set k | k in Reach(off, n) && k < SLOTS && Slot(v.inodes[i], v.blocks, k) == 0
  }

  /** The blocks that slots ks of inode i name. */
  ghost function Named(v: Vol, i: nat, ks: set<nat>): (s: set<Word>)
    requires i < |v.inodes| && |v.inodes[i].addrs| == NDIRECT + 1
  {
    set k | k in ks && k < SLOTS && Slot(v.inodes[i], v.blocks, k) != 0 :: Slot(v.inodes[i], v.blocks, k)
  }

  // ---- what one step takes and logs ---------------------------------------------------------

  ghost predicate TakenBy(o: Owner, i: nat, ks: set<nat>, b: Word) {
    b in o && o[b].0 == i && o[b].1 in ks
  }

  /** Blocks that have come into use are in slots ks of inode i, and are below every block
      that is still free; owners stay. */
  ghost predicate Grabbed(u: seq<bool>, w: seq<bool>, o0: Owner, o1: Owner, i: nat, ks: set<nat>) {
    && |u| == |w|
    && (forall b: Word :: b < |u| && u[b] ==> w[b])
    && (forall b: Word :: b < |u| && !u[b] && w[b] ==> TakenBy(o1, i, ks, b))
    && (forall b: Word, c: Word :: b < |u| && c < |u| && !u[b] && w[b] && !w[c] ==> b < c)
    && (forall b :: b in o0 ==> b in o1 && o1[b] == o0[b])
  }

  lemma GrabbedNothing(u: seq<bool>, o: Owner, i: nat, ks: set<nat>)
    ensures Grabbed(u, u, o, o, i, ks)
  {
  }

  lemma GrabbedTrans(u: seq<bool>, v: seq<bool>, w: seq<bool>, o0: Owner, o1: Owner, o2: Owner, i: nat,
                     ks: set<nat>, ks': set<nat>, all: set<nat>)
    requires Grabbed(u, v, o0, o1, i, ks) && Grabbed(v, w, o1, o2, i, ks') && ks <= all && ks' <= all
    ensures Grabbed(u, w, o0, o2, i, all)
  {
    forall b: Word | b < |u| && !u[b] && w[b] ensures TakenBy(o2, i, all, b) {
      if v[b] {
        assert TakenBy(o1, i, ks, b);
      } else {
        assert TakenBy(o2, i, ks', b);
      }
    }
  }

  /** Logged are blocks that slots ks name and bitmap blocks of new blocks, and no others;
      new blocks are logged with their bitmap blocks. */
  ghost predicate Logs(g: Geo, u: seq<bool>, w: Vol, i: nat, ks: set<nat>, l0: set<nat>, l1: set<nat>) {
    && |u| == |w.used| && i < |w.inodes| && |w.inodes[i].addrs| == NDIRECT + 1
    && l0 <= l1 <= l0 + Named(w, i, ks) + Bitmaps(g, Fresh(u, w.used))
    && Fresh(u, w.used) <= l1 && Bitmaps(g, Fresh(u, w.used)) <= l1
  }

  lemma LogsNothing(g: Geo, w: Vol, i: nat, ks: set<nat>, l: set<nat>)
    requires i < |w.inodes| && |w.inodes[i].addrs| == NDIRECT + 1
    ensures Logs(g, w.used, w, i, ks, l, l)
  {
    assert Fresh(w.used, w.used) == {};
  }

  lemma NamedGrows(v: Vol, w: Vol, i: nat, ks: set<nat>, all: set<nat>)
    requires Matched(v, w) && Grown(v, w, i) && ks <= all
    ensures Named(v, i, ks) <= Named(w, i, all)
  {
    forall a | a in Named(v, i, ks) ensures a in Named(w, i, all) {
      var k :| k in ks && k < SLOTS && Slot(v.inodes[i], v.blocks, k) != 0 && Slot(v.inodes[i], v.blocks, k) == a;
      assert Slot(w.inodes[i], w.blocks, k) == a;
    }
  }

  lemma LogsTrans(g: Geo, u: seq<bool>, v: Vol, w: Vol, i: nat, ks: set<nat>, ks': set<nat>, all: set<nat>,
                  l0: set<nat>, l1: set<nat>, l2: set<nat>)
    requires Logs(g, u, v, i, ks, l0, l1) && Logs(g, v.used, w, i, ks', l1, l2) && ks <= all && ks' <= all
    requires Matched(v, w) && Grown(v, w, i)
    requires (forall b: Word :: b < |u| && u[b] ==> v.used[b]) && (forall b: Word :: b < |u| && v.used[b] ==> w.used[b])
    ensures Logs(g, u, w, i, all, l0, l2)
  {
    NamedGrows(v, w, i, ks, all);
    assert Named(w, i, ks') <= Named(w, i, all);
    assert Fresh(u, w.used) == Fresh(u, v.used) + Fresh(v.used, w.used);
    assert Bitmaps(g, Fresh(u, w.used)) == Bitmaps(g, Fresh(u, v.used)) + Bitmaps(g, Fresh(v.used, w.used));
  }

  /** One slot got a new block. */
  lemma LogsOne(g: Geo, u: seq<bool>, w: Vol, i: nat, k: nat, ks: set<nat>, b: Word, l0: set<nat>, more: set<nat>)
    requires i < |w.inodes| && |w.inodes[i].addrs| == NDIRECT + 1 && b < |u| && !u[b] && w.used == u[b := true]
    requires k in ks && k < SLOTS && Slot(w.inodes[i], w.blocks, k) == b != 0 && more <= Named(w, i, ks)
    ensures Logs(g, u, w, i, ks, l0, l0 + {Bitmap(g, b), b} + more)
  {
    assert Fresh(u, w.used) == {b};
    assert Bitmaps(g, {b}) == {Bitmap(g, b)};
    assert b in Named(w, i, ks);
  }

  // ---- counting -----------------------------------------------------------------------------

  lemma {:induction false} BitmapsCount(g: Geo, s: set<Word>)
    ensures |Bitmaps(g, s)| <= |s|
    decreases |s|
  {
    if s != {} {
      var b :| b in s;
      BitmapsCount(g, s - {b});
      assert Bitmaps(g, s) == Bitmaps(g, s - {b}) + {Bitmap(g, b)};
    }
  }

  lemma {:induction false} NamedCount(v: Vol, i: nat, ks: set<nat>)
    requires i < |v.inodes| && |v.inodes[i].addrs| == NDIRECT + 1
    ensures |Named(v, i, ks)| <= |ks|
    decreases |ks|
  {
    hide Slot;
    if ks != {} {
      var k :| k in ks;
      NamedCount(v, i, ks - {k});
      var rest := Named(v, i, ks - {k});
      if k < SLOTS {
        assert Named(v, i, ks) <= rest + {Slot(v.inodes[i], v.blocks, k)};
        SubsetCount(Named(v, i, ks), rest + {Slot(v.inodes[i], v.blocks, k)});
      } else {
        assert Named(v, i, ks) == rest;
      }
    }
  }

  /** Different slots name different blocks. */
  lemma {:induction false} NamedAll(g: Geo, v: Vol, o: Owner, i: nat, ks: set<nat>)
    requires Owned(g, v, o) && i < |v.inodes|
    requires forall k :: k in ks ==> k < SLOTS && Slot(v.inodes[i], v.blocks, k) != 0
    ensures |Named(v, i, ks)| == |ks|
    decreases |ks|
  {
    hide Slot;
    if ks != {} {
      var k :| k in ks;
      NamedAll(g, v, o, i, ks - {k});
      var a := Slot(v.inodes[i], v.blocks, k);
      assert Named(v, i, ks) == Named(v, i, ks - {k}) + {a};
      forall l | l in ks - {k} ensures Slot(v.inodes[i], v.blocks, l) != a {
        if Slot(v.inodes[i], v.blocks, l) == a {
          SlotsDistinct(g, v, o, i, k, i, l);
        }
      }
    }
  }

  /** The slots of the blocks s: no more blocks than slots. */
  lemma {:induction false} OwnersCount(g: Geo, v: Vol, o: Owner, i: nat, s: set<Word>, ks: set<nat>)
    requires Owned(g, v, o) && forall b :: b in s ==> TakenBy(o, i, ks, b)
    ensures |s| <= |ks|
    decreases |s|
  {
    if s != {} {
      var b :| b in s;
      assert TakenBy(o, i, ks, b) && BlockOk(g, v, o, b);
      var k := o[b].1;
      forall c | c in s - {b} ensures TakenBy(o, i, ks - {k}, c) {
        assert TakenBy(o, i, ks, c) && BlockOk(g, v, o, c);
      }
      OwnersCount(g, v, o, i, s - {b}, ks - {k});
    }
  }

  // ---- what a whole write takes -------------------------------------------------------------

  /** Inode i went from v to w by filling slots among ks. */
  ghost predicate Step(g: Geo, v: Vol, w: Vol, o0: Owner, o1: Owner, i: nat, ks: set<nat>) {
    && Owned(g, v, o0) && Owned(g, w, o1) && Matched(v, w) && Grown(v, w, i)
    && Grabbed(v.used, w.used, o0, o1, i, ks)
  }

  /** A new block sits in a slot that was empty. */
  lemma FreshWasNeeded(g: Geo, v: Vol, w: Vol, o0: Owner, o1: Owner, i: nat, off: nat, n: nat, b: Word)
    requires Step(g, v, w, o0, o1, i, Reach(off, n)) && b in Fresh(v.used, w.used)
    ensures TakenBy(o1, i, Needed(v, i, off, n), b) && o1[b].1 < SLOTS && Slot(w.inodes[i], w.blocks, o1[b].1) == b != 0
  {
    hide Slot, Reach;
    assert TakenBy(o1, i, Reach(off, n), b);
    assert BlockOk(g, w, o1, b);
    var k := o1[b].1;
    assert SlotOk(v, o0, i, k);
  }

  /** An empty slot is filled with a new block. */
  lemma NeededIsFresh(g: Geo, v: Vol, w: Vol, o0: Owner, o1: Owner, i: nat, off: nat, n: nat, k: nat)
    requires Step(g, v, w, o0, o1, i, Reach(off, n)) && k in Needed(v, i, off, n)
    requires Slot(w.inodes[i], w.blocks, k) != 0
    ensures Slot(w.inodes[i], w.blocks, k) in Fresh(v.used, w.used)
  {
    hide Slot, Reach;
    var b := Slot(w.inodes[i], w.blocks, k);
    assert SlotOk(w, o1, i, k);
    assert BlockOk(g, w, o1, b);
    assert b in o0 ==> BlockOk(g, v, o0, b);
  }

  lemma FreshCount(g: Geo, v: Vol, w: Vol, o0: Owner, o1: Owner, i: nat, off: nat, n: nat)
    requires Step(g, v, w, o0, o1, i, Reach(off, n))
    ensures |Fresh(v.used, w.used)| <= |Needed(v, i, off, n)|
  {
    hide Slot, Reach, Owned, Grabbed, Grown, Needed, Fresh;
    StepShape(g, v, w, o0, o1, i, Reach(off, n));
    forall b | b in Fresh(v.used, w.used) ensures TakenBy(o1, i, Needed(v, i, off, n), b) {
      FreshWasNeeded(g, v, w, o0, o1, i, off, n, b);
    }
    OwnersCount(g, w, o1, i, Fresh(v.used, w.used), Needed(v, i, off, n));
  }

  lemma StepShape(g: Geo, v: Vol, w: Vol, o0: Owner, o1: Owner, i: nat, ks: set<nat>)
    requires Step(g, v, w, o0, o1, i, ks)
    ensures i < |v.inodes| == |w.inodes| && |v.inodes[i].addrs| == |w.inodes[i].addrs| == NDIRECT + 1
    ensures |v.used| == |w.used| == g.size <= 0x1_0000_0000
  {
  }

  /** Every slot that a finished write goes through is filled. */
  lemma ReachFilled(w: Vol, i: nat, off: nat, n: nat, k: nat)
    requires i < |w.inodes| && |w.inodes[i].addrs| == NDIRECT + 1 && off + n <= MAXFILE * BSIZE
    requires Covered(w.inodes[i], w.blocks, off, n) && k in Reach(off, n)
    ensures k < SLOTS && Slot(w.inodes[i], w.blocks, k) != 0
  {
    if k == NDIRECT {
      var bn: nat := Past(off, n) - 1;
      assert bn * BSIZE < off + n;
      assert BlockOf(w.inodes[i], w.blocks, bn) != 0;
    } else {
      var bn: nat :| off / BSIZE <= bn < Past(off, n) && SlotOf(bn) == k;
      assert bn * BSIZE < off + n;
      assert BlockOf(w.inodes[i], w.blocks, bn) != 0;
    }
  }

  /** A write that ends well has taken as many blocks as there were empty slots. */
  lemma Enough(g: Geo, v: Vol, w: Vol, o0: Owner, o1: Owner, i: nat, off: nat, n: nat)
    requires Step(g, v, w, o0, o1, i, Reach(off, n)) && off + n <= MAXFILE * BSIZE
    requires Covered(w.inodes[i], w.blocks, off, n)
    ensures |Needed(v, i, off, n)| == |Fresh(v.used, w.used)| <= |Free(v.used)|
  {
    hide Slot, Reach, Owned, Grabbed, Grown, Covered;
    StepShape(g, v, w, o0, o1, i, Reach(off, n));
    var ks := Needed(v, i, off, n);
    forall k | k in ks ensures k < SLOTS && Slot(w.inodes[i], w.blocks, k) != 0 {
      ReachFilled(w, i, off, n, k);
    }
    NamedAll(g, w, o1, i, ks);
    forall a | a in Named(w, i, ks) ensures a in Fresh(v.used, w.used) {
      var k :| k in ks && k < SLOTS && Slot(w.inodes[i], w.blocks, k) != 0 && Slot(w.inodes[i], w.blocks, k) == a;
      NeededIsFresh(g, v, w, o0, o1, i, off, n, k);
    }
    SubsetCount(Named(w, i, ks), Fresh(v.used, w.used));
    SubsetCount(Fresh(v.used, w.used), Free(v.used));
    FreshCount(g, v, w, o0, o1, i, off, n);
  }

  /** A write that finds no free block for one of its slots had fewer free blocks than empty slots. */
  lemma TooFew(g: Geo, v: Vol, w: Vol, o0: Owner, o1: Owner, i: nat, off: nat, n: nat)
    requires Step(g, v, w, o0, o1, i, Reach(off, n)) && off + n <= MAXFILE * BSIZE
    requires !Covered(w.inodes[i], w.blocks, off, n) && forall c :: 0 <= c < g.size ==> w.used[c]
    ensures |Free(v.used)| < |Needed(v, i, off, n)|
  {
    hide Slot, Grabbed, Owned;
    StepShape(g, v, w, o0, o1, i, Reach(off, n));
    var bn: nat :| bn < MAXFILE && off / BSIZE <= bn && bn * BSIZE < off + n && BlockOf(w.inodes[i], w.blocks, bn) == 0;
    var k := SlotOf(bn);
    assert bn < Past(off, n);
    assert k in Reach(off, n);
    assert Slot(v.inodes[i], v.blocks, k) == 0;
    var rest := Needed(v, i, off, n) - {k};
    forall b | b in Fresh(v.used, w.used) ensures TakenBy(o1, i, rest, b) {
      FreshWasNeeded(g, v, w, o0, o1, i, off, n, b);
    }
    OwnersCount(g, w, o1, i, Fresh(v.used, w.used), rest);
    assert Fresh(v.used, w.used) == Free(v.used);
  }

  // ---- what a whole write logs --------------------------------------------------------------

  /** A write of one chunk meets at most four blocks, and four only if it starts inside one. */
  lemma FourBlocks(off: nat, n: nat)
    requires n <= CHUNK
    ensures Past(off, n) <= off / BSIZE + 4 && (off % BSIZE == 0 ==> Past(off, n) <= off / BSIZE + 3)
  {
  }

  lemma ReachCount(off: nat, n: nat)
    requires n <= CHUNK
    ensures |Reach(off, n)| <= 5 && (Past(off, n) <= off / BSIZE + 3 ==> |Reach(off, n)| <= 4)
  {
    hide SlotOf, Past;
    FourBlocks(off, n);
    var f := off / BSIZE;
    var three := {SlotOf(f), SlotOf(f + 1), SlotOf(f + 2), NDIRECT};
    var four := three + {SlotOf(f + 3)};
    assert Reach(off, n) <= four;
    SubsetCount(Reach(off, n), four);
    if Past(off, n) <= f + 3 {
      assert Reach(off, n) <= three;
      SubsetCount(Reach(off, n), three);
    }
  }

  /** The block in which a write starts is there, if the write starts inside it. */
  lemma NeededCount(g: Geo, v: Vol, o: Owner, i: nat, off: nat, n: nat)
    requires Owned(g, v, o) && i < |v.inodes| && NoHoles(v.inodes[i], v.blocks) && off <= v.inodes[i].size
    requires off + n <= MAXFILE * BSIZE && n <= CHUNK
    ensures |Needed(v, i, off, n)| <= 4 && |Reach(off, n)| <= 5
    ensures |Reach(off, n)| == 5 ==> Past(off, n) == off / BSIZE + 4
  {
    ReachCount(off, n);
    FourBlocks(off, n);
    if Past(off, n) == off / BSIZE + 4 {
      assert off % BSIZE != 0;
      assert BlockOf(v.inodes[i], v.blocks, off / BSIZE) != 0;
      var k := SlotOf(off / BSIZE);
      assert k in Reach(off, n) && k !in Needed(v, i, off, n);
      assert Needed(v, i, off, n) <= Reach(off, n) - {k};
      SubsetCount(Needed(v, i, off, n), Reach(off, n) - {k});
    } else {
      SubsetCount(Needed(v, i, off, n), Reach(off, n));
    }
  }

  /** The chunk that filewrite gives to writei fits the log reservation of one operation,
      with the inode block ib. If it fills it, four blocks were taken. */
  lemma ChunkFits(g: Geo, v: Vol, w: Vol, o0: Owner, o1: Owner, i: nat, off: nat, n: nat, l: set<nat>, ib: nat)
    requires Step(g, v, w, o0, o1, i, Reach(off, n)) && NoHoles(v.inodes[i], v.blocks) && off <= v.inodes[i].size
    requires off + n <= MAXFILE * BSIZE && n <= CHUNK && Logs(g, v.used, w, i, Reach(off, n), {}, l)
    ensures |l| <= |l + {ib}| <= MAXOPBLOCKS
    ensures |l + {ib}| == MAXOPBLOCKS ==>
              && Past(off, n) == off / BSIZE + 4
              && |Needed(v, i, off, n)| == |Bitmaps(g, Fresh(v.used, w.used))| == |Fresh(v.used, w.used)| == 4
  {
    hide Slot, Grabbed, Owned, Reach, Grown, Needed, Named, Fresh, Bitmaps, NoHoles;
    StepShape(g, v, w, o0, o1, i, Reach(off, n));
    var taken := Fresh(v.used, w.used);
    var named, maps := Named(w, i, Reach(off, n)), Bitmaps(g, taken);
    NeededCount(g, v, o0, i, off, n);
    NamedCount(w, i, Reach(off, n));
    FreshCount(g, v, w, o0, o1, i, off, n);
    BitmapsCount(g, taken);
    UnionCount<nat>(named, maps);
    SubsetCount<nat>(l, named + maps);
    SubsetCount(l, l + {ib});
  }

  // ---- when the reservation is used up ------------------------------------------------------

  /** f are the lowest free blocks. */
  ghost predicate Lowest(u: seq<bool>, f: set<Word>) {
    f <= Free(u) && forall b, c :: b in f && c in Free(u) && c !in f ==> b < c
  }

  /** A write that meets four blocks, three of which are missing, as is the indirect block,
      when the four lowest free blocks have four different bitmap blocks. */
  ghost predicate Tight(g: Geo, v: Vol, i: nat, off: nat, n: nat)
    requires i < |v.inodes| && |v.inodes[i].addrs| == NDIRECT + 1
  {
    && Past(off, n) == off / BSIZE + 4 && |Needed(v, i, off, n)| == 4
    && exists f :: Lowest(v.used, f) && |f| == |Bitmaps(g, f)| == 4
  }

  /** The regions of the disk: inode blocks, bitmap blocks, data blocks. */
  predicate LaidOut(g: Geo, i: nat) {
    i / IPB + g.inode < g.bmap && g.size > 0 && Bitmap(g, g.size - 1) < g.data
  }

  /** Balloc takes the lowest free blocks. */
  lemma TakesLowest(g: Geo, v: Vol, w: Vol, o0: Owner, o1: Owner, i: nat, ks: set<nat>, f: set<Word>)
    requires Step(g, v, w, o0, o1, i, ks)
    ensures Lowest(v.used, Fresh(v.used, w.used))
    ensures Lowest(v.used, f) && |f| == |Fresh(v.used, w.used)| ==> f == Fresh(v.used, w.used)
  {
    var s := Fresh(v.used, w.used);
    if Lowest(v.used, f) && |f| == |s| {
      LowestUnique(v.used, f, s);
    }
  }

  lemma LowestUnique(u: seq<bool>, f: set<Word>, s: set<Word>)
    requires Lowest(u, f) && Lowest(u, s) && |f| == |s|
    ensures f == s
  {
    if exists x :: x in f && x !in s {
      var x :| x in f && x !in s;
      assert s <= f - {x};
      SubsetCount(s, f - {x});
    }
    assert f <= s;
    SubsetCount(f, s);
    if exists x :: x in s && x !in f {
      var x :| x in s && x !in f;
      SubsetCount(f, s - {x});
    }
  }

  ghost predicate TouchedAt(w: Vol, i: nat, bn: nat, logged: set<nat>)
    requires i < |w.inodes| && |w.inodes[i].addrs| == NDIRECT + 1 && bn < MAXFILE
  {
    BlockOf(w.inodes[i], w.blocks, bn) != 0 && BlockOf(w.inodes[i], w.blocks, bn) in logged
  }

  /** Every block that holds a byte from off to off + tot is logged. */
  ghost predicate Touched(w: Vol, i: nat, off: nat, tot: nat, logged: set<nat>) {
    && i < |w.inodes| && |w.inodes[i].addrs| == NDIRECT + 1
    && forall bn: nat :: tot > 0 && bn < MAXFILE && off / BSIZE <= bn && bn * BSIZE < off + tot ==>
         TouchedAt(w, i, bn, logged)
  }

  /** In that case all blocks that the write goes through are logged. */
  lemma AllLogged(g: Geo, v: Vol, w: Vol, o0: Owner, o1: Owner, i: nat, off: nat, n: nat, l: set<nat>)
    requires Step(g, v, w, o0, o1, i, Reach(off, n)) && off + n <= MAXFILE * BSIZE && n > 0
    requires Touched(w, i, off, n, l) && Covered(w.inodes[i], w.blocks, off, n)
    requires NDIRECT in Needed(v, i, off, n) && Fresh(v.used, w.used) <= l
    ensures Named(w, i, Reach(off, n)) <= l
  {
    hide Slot, Owned, Grabbed, Grown, Covered, Step;
    StepShape(g, v, w, o0, o1, i, Reach(off, n));
    forall a | a in Named(w, i, Reach(off, n)) ensures a in l {
      var k :| k in Reach(off, n) && k < SLOTS && Slot(w.inodes[i], w.blocks, k) != 0
          && Slot(w.inodes[i], w.blocks, k) == a;
      if k == NDIRECT {
        NeededIsFresh(g, v, w, o0, o1, i, off, n, k);
      } else {
        var bn: nat :| off / BSIZE <= bn < Past(off, n) && SlotOf(bn) == k;
        assert bn * BSIZE < off + n;
        assert TouchedAt(w, i, bn, l);
      }
    }
  }

  lemma ReachFour(off: nat, n: nat, f: nat)
    requires f == off / BSIZE && Past(off, n) == f + 4
    ensures Reach(off, n) ==
            {SlotOf(f), SlotOf(f + 1), SlotOf(f + 2), SlotOf(f + 3)} + if f + 3 < NDIRECT then {} else {NDIRECT}
  {
    hide SlotOf, Past;
    var ks := set bn: nat | f <= bn < f + 4 :: SlotOf(bn);
    assert Reach(off, n) == ks + if f + 3 < NDIRECT then {} else {NDIRECT};
    assert ks == {SlotOf(f), SlotOf(f + 1), SlotOf(f + 2), SlotOf(f + 3)};
  }

  lemma ReachFive(off: nat, n: nat, f: nat)
    requires f == off / BSIZE && Past(off, n) == f + 4 && f + 3 >= NDIRECT
    ensures |Reach(off, n)| == 5
  {
    hide Reach;
    ReachFour(off, n, f);
  }

  /** Four empty slots out of five are all but the first. */
  lemma NeededAll(g: Geo, v: Vol, o: Owner, i: nat, off: nat, n: nat)
    requires Owned(g, v, o) && i < |v.inodes| && NoHoles(v.inodes[i], v.blocks) && off <= v.inodes[i].size
    requires off + n <= MAXFILE * BSIZE && n <= CHUNK && Past(off, n) == off / BSIZE + 4 && |Needed(v, i, off, n)| == 4
    ensures NDIRECT in Needed(v, i, off, n) && |Reach(off, n)| == 5 && n > 0
  {
    hide Slot, SlotOf, SlotOk, BlockOk, Reach;
    FourBlocks(off, n);
    assert off % BSIZE != 0;
    var f := off / BSIZE;
    assert BlockOf(v.inodes[i], v.blocks, f) != 0;
    ReachFour(off, n, f);
    var three := {SlotOf(f + 1), SlotOf(f + 2), SlotOf(f + 3)};
    assert SlotOf(f) !in Needed(v, i, off, n);
    assert Needed(v, i, off, n) <= three + {NDIRECT};
    if f + 3 < NDIRECT || NDIRECT !in Needed(v, i, off, n) {
      SubsetCount(Needed(v, i, off, n), three);
    }
    ReachFive(off, n, f);
  }

  /** Five data blocks, four bitmap blocks and an inode block are ten blocks. */
  lemma CountTen(data: set<nat>, bitmaps: set<nat>, inode: nat, lo: nat, hi: nat, logged: set<nat>)
    requires |data| == 5 && |bitmaps| == 4 && data <= logged && bitmaps <= logged && inode in logged && inode < lo
    requires (forall x :: x in data ==> lo <= hi <= x) && (forall x :: x in bitmaps ==> lo <= x < hi)
    ensures |logged| >= 10
  {
    assert data !! bitmaps;
    assert |data + bitmaps| == 9;
    assert inode !in data + bitmaps;
    assert |data + bitmaps + {inode}| == 10;
    SubsetCount(data + bitmaps + {inode}, logged);
  }

  lemma NamedInData(g: Geo, w: Vol, o: Owner, i: nat, ks: set<nat>, a: Word)
    requires Owned(g, w, o) && i < |w.inodes| && a in Named(w, i, ks)
    ensures g.data <= a < g.size
  {
    var k :| k in ks && k < SLOTS && Slot(w.inodes[i], w.blocks, k) != 0 && Slot(w.inodes[i], w.blocks, k) == a;
    assert SlotOk(w, o, i, k);
    assert BlockOk(g, w, o, a);
  }

  lemma BitmapIn(g: Geo, s: set<Word>, x: nat)
    requires x in Bitmaps(g, s) && (forall b :: b in s ==> b < g.size) && g.size > 0
    ensures g.bmap <= x <= Bitmap(g, g.size - 1)
  {
    var b :| b in s && Bitmap(g, b) == x;
    assert b / BPB <= (g.size - 1) / BPB;
  }

  /** A write of one chunk, on an empty log, uses up the reservation just if it is tight. */
  lemma TenLogged(g: Geo, v: Vol, w: Vol, o0: Owner, o1: Owner, i: nat, off: nat, n: nat, l: set<nat>, ib: nat)
    requires Step(g, v, w, o0, o1, i, Reach(off, n)) && NoHoles(v.inodes[i], v.blocks) && off <= v.inodes[i].size
    requires off + n <= MAXFILE * BSIZE && n <= CHUNK && Logs(g, v.used, w, i, Reach(off, n), {}, l)
    requires Touched(w, i, off, n, l) && Covered(w.inodes[i], w.blocks, off, n) && LaidOut(g, i)
             && ib == i / IPB + g.inode
    ensures |l + {ib}| == MAXOPBLOCKS <==> Tight(g, v, i, off, n)
  {
    hide Slot, Grabbed, Owned, Reach, Grown, Needed, Named, Bitmaps, NoHoles, Touched, Covered, Past, Fresh, Lowest;
    StepShape(g, v, w, o0, o1, i, Reach(off, n));
    ChunkFits(g, v, w, o0, o1, i, off, n, l, ib);
    TakesLowest(g, v, w, o0, o1, i, Reach(off, n), {});
    if Tight(g, v, i, off, n) {
      var f :| Lowest(v.used, f) && |f| == |Bitmaps(g, f)| == 4;
      Enough(g, v, w, o0, o1, i, off, n);
      TakesLowest(g, v, w, o0, o1, i, Reach(off, n), f);
      NeededAll(g, v, o0, i, off, n);
      AllLogged(g, v, w, o0, o1, i, off, n, l);
      TenAtLeast(g, v, w, o0, o1, i, off, n, f, l, ib);
    }
  }

  lemma TenAtLeast(g: Geo, v: Vol, w: Vol, o0: Owner, o1: Owner, i: nat, off: nat, n: nat, f: set<Word>,
                   l: set<nat>, ib: nat)
    requires Step(g, v, w, o0, o1, i, Reach(off, n)) && off + n <= MAXFILE * BSIZE && |Reach(off, n)| == 5
    requires Covered(w.inodes[i], w.blocks, off, n) && f == Fresh(v.used, w.used) && |Bitmaps(g, f)| == 4
    requires Named(w, i, Reach(off, n)) <= l && Bitmaps(g, f) <= l && LaidOut(g, i) && ib == i / IPB + g.inode
    ensures |l + {ib}| >= 10
  {
    hide Slot, Grabbed, Owned, Reach, Grown, Needed, Named, Bitmaps, Covered, Past;
    StepShape(g, v, w, o0, o1, i, Reach(off, n));
    var named := Named(w, i, Reach(off, n));
    forall k | k in Reach(off, n) ensures k < SLOTS && Slot(w.inodes[i], w.blocks, k) != 0 {
      ReachFilled(w, i, off, n, k);
    }
    NamedAll(g, w, o1, i, Reach(off, n));
    forall x | x in named ensures g.data <= x {
      NamedInData(g, w, o1, i, Reach(off, n), x);
    }
    forall x | x in Bitmaps(g, f) ensures g.bmap <= x < g.data {
      BitmapIn(g, f, x);
    }
    CountTen(named, Bitmaps(g, f), ib, g.bmap, g.data, l + {ib});
  }

  /** A tight write does not run out of blocks. */
  lemma TightHasRoom(g: Geo, v: Vol, i: nat, off: nat, n: nat)
    requires i < |v.inodes| && |v.inodes[i].addrs| == NDIRECT + 1 && Tight(g, v, i, off, n)
    ensures |Needed(v, i, off, n)| <= |Free(v.used)|
  {
    var f :| Lowest(v.used, f) && |f| == |Bitmaps(g, f)| == 4;
    SubsetCount(f, Free(v.used));
  }
}
