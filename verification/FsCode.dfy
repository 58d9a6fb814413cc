/** kernel/fs.c:56-463 as code: balloc, bfree, bmap, itrunc, readi and writei on a volume,
    with the set of blocks the running operation has logged. */
module FsCode {
  import opened Blocks
  import opened FsSpec
  import opened FsBudget
  import opened Prelude

  /** What bmap on inode i keeps: everything but empty slots, and every byte of every file. */
  ghost predicate Changed(v: Vol, w: Vol, i: nat) {
    Matched(v, w) && Grown(v, w, i) && SameBytes(v, w)
  }

  function Min(a: nat, b: nat): (m: nat) {
    if a < b then a else b
  }

  /** Slots ks of inode i were filled, and that is what was logged. */
  ghost predicate Costs(g: Geo, v: Vol, w: Vol, o0: Owner, o1: Owner, i: nat, ks: set<nat>, l0: set<nat>,
                        l1: set<nat>)
  {
    Grabbed(v.used, w.used, o0, o1, i, ks) && Logs(g, v.used, w, i, ks, l0, l1)
  }

  lemma CostsNothing(g: Geo, v: Vol, o: Owner, i: nat, ks: set<nat>, l: set<nat>)
    requires i < |v.inodes| && |v.inodes[i].addrs| == NDIRECT + 1
    ensures Costs(g, v, v, o, o, i, ks, l, l)
  {
    GrabbedNothing(v.used, o, i, ks);
    LogsNothing(g, v, i, ks, l);
  }

  lemma CostsTrans(g: Geo, u: Vol, v: Vol, w: Vol, o0: Owner, o1: Owner, o2: Owner, i: nat,
                   ks: set<nat>, ks': set<nat>, all: set<nat>, l0: set<nat>, l1: set<nat>, l2: set<nat>)
    requires Costs(g, u, v, o0, o1, i, ks, l0, l1) && Costs(g, v, w, o1, o2, i, ks', l1, l2)
    requires ks <= all && ks' <= all && Matched(v, w) && Grown(v, w, i)
    ensures Costs(g, u, w, o0, o2, i, all, l0, l2)
  {
    GrabbedTrans(u.used, v.used, w.used, o0, o1, o2, i, ks, ks', all);
    LogsTrans(g, u.used, v, w, i, ks, ks', all, l0, l1, l2);
  }

  /** Slot k got block b, for which `more` was logged too. */
  lemma CostsOne(g: Geo, v: Vol, w: Vol, o: Owner, i: nat, k: nat, ks: set<nat>, b: Word, l0: set<nat>, more: set<nat>)
    requires Owned(g, v, o) && i < |w.inodes| && |w.inodes[i].addrs| == NDIRECT + 1
    requires g.data <= b < g.size && !v.used[b] && (forall c :: 0 <= c < b ==> v.used[c]) && w.used == v.used[b := true]
    requires k in ks && k < SLOTS && Slot(w.inodes[i], w.blocks, k) == b && more <= Named(w, i, ks)
    ensures Costs(g, v, w, o, o[b := (i, k)], i, ks, l0, l0 + {Bitmap(g, b), b} + more)
  {
    hide Slot;
    LogsOne(g, v.used, w, i, k, ks, b, l0, more);
    assert b !in o;
    forall c: Word | c < g.size && !v.used[c] && w.used[c] ensures TakenBy(o[b := (i, k)], i, ks, c) {
      assert c == b;
    }
  }

  /** Slot k, an entry of the indirect block a, got block b. */
  lemma CostsEntry(g: Geo, v: Vol, w: Vol, o: Owner, i: nat, k: nat, b: Word, a: Word, l0: set<nat>, l1: set<nat>)
    requires Owned(g, v, o) && i < |w.inodes| && |w.inodes[i].addrs| == NDIRECT + 1
             && w.inodes[i].addrs[NDIRECT] == a != 0
    requires g.data <= b < g.size && !v.used[b] && (forall c :: 0 <= c < b ==> v.used[c]) && w.used == v.used[b := true]
    requires k < SLOTS && Slot(w.inodes[i], w.blocks, k) == b && l1 == l0 + {Bitmap(g, b), b} + {a}
    ensures Costs(g, v, w, o, o[b := (i, k)], i, {NDIRECT, k}, l0, l1)
  {
    assert Slot(w.inodes[i], w.blocks, NDIRECT) == a;
    assert a in Named(w, i, {NDIRECT, k});
    CostsOne(g, v, w, o, i, k, {NDIRECT, k}, b, l0, {a});
  }

  /** The block in slot k was written. */
  lemma CostsWrite(g: Geo, v: Vol, x: Vol, w: Vol, o0: Owner, o1: Owner, i: nat, ks: set<nat>, k: nat, a: Word,
                   l0: set<nat>, l1: set<nat>)
    requires Costs(g, v, x, o0, o1, i, ks, l0, l1) && w.used == x.used && i < |w.inodes|
             && |w.inodes[i].addrs| == NDIRECT + 1
    requires forall l: nat :: l < SLOTS ==> Slot(w.inodes[i], w.blocks, l) == Slot(x.inodes[i], x.blocks, l)
    requires k in ks && k < SLOTS && Slot(w.inodes[i], w.blocks, k) == a != 0
    ensures Costs(g, v, w, o0, o1, i, ks, l0, l1 + {a})
  {
    hide Slot, Grabbed;
    assert Named(w, i, ks) == Named(x, i, ks);
    assert a in Named(w, i, ks);
  }

  lemma NothingYet(v: Vol, i: nat, off: nat, logged: set<nat>)
    requires i < |v.inodes| && |v.inodes[i].addrs| == NDIRECT + 1
    ensures Touched(v, i, off, 0, logged)
  {
  }

  lemma TouchedGrown(w: Vol, y: Vol, i: nat, off: nat, tot: nat, l0: set<nat>, l1: set<nat>)
    requires Matched(w, y) && Grown(w, y, i) && Touched(w, i, off, tot, l0) && l0 <= l1
    ensures Touched(y, i, off, tot, l1)
  {
    forall bn: nat | tot > 0 && bn < MAXFILE && off / BSIZE <= bn && bn * BSIZE < off + tot
        ensures TouchedAt(y, i, bn, l1) {
      assert TouchedAt(w, i, bn, l0);
    }
  }

  lemma TouchedStep(w: Vol, y: Vol, i: nat, off: nat, tot: nat, m: nat, l0: set<nat>, l1: set<nat>)
    requires Matched(w, y) && Grown(w, y, i) && Touched(w, i, off, tot, l0) && l0 <= l1
             && off + tot + m <= MAXFILE * BSIZE
    requires 0 < m && (off + tot) % BSIZE + m <= BSIZE && (off + tot) / BSIZE < MAXFILE
    requires BlockOf(y.inodes[i], y.blocks, (off + tot) / BSIZE) != 0
             && BlockOf(y.inodes[i], y.blocks, (off + tot) / BSIZE) in l1
    ensures Touched(y, i, off, tot + m, l1)
  {
    forall bn: nat | bn < MAXFILE && off / BSIZE <= bn && bn * BSIZE < off + tot + m ensures TouchedAt(y, i, bn, l1) {
      if bn != (off + tot) / BSIZE {
        assert TouchedAt(w, i, bn, l0);
      }
    }
  }

  /** Where writei's loop is after tot of the bytes: the volume has gone from v to w. */
  ghost predicate Progress(v: Vol, w: Vol, i: nat, off: nat, data: seq<Byte>, tot: nat) {
    && Matched(v, w) && Grown(v, w, i) && tot <= |data|
    && Spliced(v, w, i, off, data, tot) && Covered(w.inodes[i], w.blocks, off, tot)
  }

  lemma ProgressStarts(v: Vol, i: nat, off: nat, data: seq<Byte>)
    requires Matched(v, v) && i < |v.inodes| && NoHoles(v.inodes[i], v.blocks) && off <= v.inodes[i].size
    ensures Progress(v, v, i, off, data, 0)
  {
  }

  lemma ProgressShape(v: Vol, w: Vol, i: nat, off: nat, data: seq<Byte>, tot: nat)
    requires Progress(v, w, i, off, data, tot)
    ensures i < |v.inodes| == |w.inodes| && |v.inodes[i].addrs| == |w.inodes[i].addrs| == NDIRECT + 1
    ensures w.inodes[i].size == v.inodes[i].size
    ensures Matched(v, w) && Grown(v, w, i) && Covered(w.inodes[i], w.blocks, off, tot)
  {
  }

  lemma ProgressStep(v: Vol, w: Vol, y: Vol, i: nat, off: nat, data: seq<Byte>, tot: nat, m: nat)
    requires Progress(v, w, i, off, data, tot) && off + tot < MAXFILE * BSIZE && (off + tot) % BSIZE + m <= BSIZE
    requires tot + m <= |data| && Matched(w, y) && Grown(w, y, i) && Spliced(w, y, i, off + tot, data[tot..tot + m], m)
    requires BlockOf(y.inodes[i], y.blocks, (off + tot) / BSIZE) != 0
    ensures Progress(v, y, i, off, data, tot + m)
  {
    GrownTrans(v, w, y, i);
    SpliceTrans(v, w, y, i, off, data, tot, m);
    CoveredStep(w, y, i, off, tot, m);
  }

  /** Block bn is one of those the write goes through. */
  lemma ThroughReach(off: nat, n: nat, at: nat)
    requires off <= at < off + n
    ensures Through(at / BSIZE) <= Reach(off, n)
  {
    var bn: nat := at / BSIZE;
    assert off / BSIZE <= bn < Past(off, n);
    assert SlotOf(bn) in Reach(off, n);
  }

  /** What is missing after a failed turn was missing from the whole write. */
  lemma NotCovered(ino: Inode, blocks: seq<Block>, off: nat, n: nat, at: nat)
    requires |ino.addrs| == NDIRECT + 1 && off <= at < off + n <= MAXFILE * BSIZE
             && BlockOf(ino, blocks, at / BSIZE) == 0
    ensures !Covered(ino, blocks, off, n)
  {
    var bn: nat := at / BSIZE;
    assert off / BSIZE <= bn && bn * BSIZE < off + n;
  }

  /** How much of a write of n bytes is done if only the first `avail` can be copied in: the
      blocks before the one in which the copy fails. */
  function Done(off: nat, n: nat, avail: nat): (tot: nat) {
    if n <= avail then n else if (off + avail) / BSIZE * BSIZE <= off then 0 else (off + avail) / BSIZE * BSIZE - off
  }

  /** After the loop and the size update, the file is spliced and no file has holes. */
  lemma Finished(g: Geo, v: Vol, w: Vol, owner: Owner, i: nat, off: nat, data: seq<Byte>, tot: nat, size: nat)
    requires Owned(g, w, owner) && Matched(v, w) && Grown(v, w, i) && off <= v.inodes[i].size
    requires off + |data| <= MAXFILE * BSIZE && Whole(v) && tot <= |data|
    requires Spliced(v, w, i, off, data, |data|) && Covered(w.inodes[i], w.blocks, off, tot)
    requires size == if off + tot > v.inodes[i].size then off + tot else v.inodes[i].size
    ensures Owned(g, Resized(w, i, size), owner) && Torn(v, Resized(w, i, size), i, off, data, tot)
  {
    var y := Resized(w, i, size);
    ResizedKeeps(g, w, owner, i, size);
    SpliceSame(v, w, y, i, off, data, |data|);
    CoveredNoHoles(v, w, i, off, tot, size);
    SpliceContent(v, y, i, off, data);
    forall j: nat | j < |y.inodes| && j != i
      ensures NoHoles(y.inodes[j], y.blocks)
      ensures y.inodes[j] == v.inodes[j] && Content(y.inodes[j], y.blocks) == Content(v.inodes[j], v.blocks)
    {
      GrownNoHoles(v, w, i, j);
      SpliceOther(v, y, i, off, data, j);
    }
  }

  lemma FinishedAt(g: Geo, v: Vol, w: Vol, y: Vol, owner: Owner, i: nat, off: nat, data: seq<Byte>, tot: nat)
    requires Owned(g, w, owner) && i < |w.inodes| && Whole(v) && off + |data| <= MAXFILE * BSIZE && tot <= |data|
    requires Progress(v, w, i, off, data, |data|) && off <= v.inodes[i].size
    requires y == if off + tot > w.inodes[i].size then Resized(w, i, off + tot) else w
    ensures Owned(g, y, owner) && Torn(v, y, i, off, data, tot) && (tot == |data| ==> Written(v, y, i, off, data))
  {
    var size := if off + tot > v.inodes[i].size then off + tot else v.inodes[i].size;
    assert y.inodes == Resized(w, i, size).inodes;
    Finished(g, v, w, owner, i, off, data, tot, size);
    if tot == |data| {
      TornWhole(v, y, i, off, data);
    }
  }

  /** What the two disks have in common. */
  ghost predicate SameBut(u: seq<Block>, w: seq<Block>, except: set<nat>) {
    |u| == |w| && forall b: nat :: b < |u| && b !in except ==> w[b] == u[b]
  }

  lemma SameButTrans(u: seq<Block>, v: seq<Block>, w: seq<Block>, l: set<nat>, l': set<nat>)
    requires SameBut(u, v, l) && SameBut(v, w, l') && l <= l'
    ensures SameBut(u, w, l')
  {
  }

  /** The bitmap block of every bit that changed is logged. */
  ghost predicate BitsLogged(g: Geo, u: seq<bool>, w: seq<bool>, l: set<nat>) {
    |u| == |w| && forall b: nat :: b < |u| && w[b] != u[b] ==> Bitmap(g, b) in l
  }

  lemma BitsTrans(g: Geo, u: seq<bool>, v: seq<bool>, w: seq<bool>, l: set<nat>, l': set<nat>)
    requires BitsLogged(g, u, v, l) && BitsLogged(g, v, w, l') && l <= l'
    ensures BitsLogged(g, u, w, l')
  {
  }

  /** Write-ahead: whatever changed is in a block that was logged: data and indirect blocks,
      the bitmap block of a block whose bit changed, the inode block of inode i. */
  ghost predicate Ahead(g: Geo, v: Vol, w: Vol, i: nat, l: set<nat>) {
    && SameBut(v.blocks, w.blocks, l)
    && BitsLogged(g, v.used, w.used, l)
    && |w.inodes| == |v.inodes| && (w.inodes != v.inodes ==> i / IPB + g.inode in l)
    && forall j :: 0 <= j < |v.inodes| && j != i ==> w.inodes[j] == v.inodes[j]
  }

  lemma WriteAhead(g: Geo, v: Vol, w: Vol, y: Vol, o0: Owner, o1: Owner, i: nat, ks: set<nat>, l0: set<nat>,
                   l1: set<nat>, l: set<nat>)
    requires Owned(g, v, o0) && Costs(g, v, w, o0, o1, i, ks, l0, l1) && SameBut(v.blocks, w.blocks, l1)
             && Matched(v, w) && Grown(v, w, i)
    requires y.blocks == w.blocks && y.used == w.used && |y.inodes| == |w.inodes| && l1 <= l && i / IPB + g.inode in l
    requires forall j :: 0 <= j < |w.inodes| && j != i ==> y.inodes[j] == w.inodes[j]
    ensures Ahead(g, v, y, i, l)
  {
    hide Named, Slot;
    forall b: nat | b < |v.used| && y.used[b] != v.used[b] ensures Bitmap(g, b) in l {
      assert b in Fresh(v.used, w.used);
      assert Bitmap(g, b) in Bitmaps(g, Fresh(v.used, w.used));
    }
  }

  /** Where writei's loop is after tot of the bytes `got`, which are all that can be copied in. */
  ghost predicate Writing(g: Geo, v: Vol, w: Vol, o0: Owner, o1: Owner, i: nat, off: nat, got: seq<Byte>, tot: nat,
                          ks: set<nat>, l0: set<nat>, l1: set<nat>)
  {
    && Progress(v, w, i, off, got, tot) && Touched(w, i, off, tot, l1)
    && Costs(g, v, w, o0, o1, i, ks, l0, l1) && l0 <= l1 && SameBut(v.blocks, w.blocks, l1)
  }

  lemma WritingStarts(g: Geo, v: Vol, o: Owner, i: nat, off: nat, got: seq<Byte>, ks: set<nat>, l: set<nat>)
    requires Matched(v, v) && i < |v.inodes| && NoHoles(v.inodes[i], v.blocks) && off <= v.inodes[i].size
    ensures Writing(g, v, v, o, o, i, off, got, 0, ks, l, l)
  {
    ProgressStarts(v, i, off, got);
    NothingYet(v, i, off, l);
    CostsNothing(g, v, o, i, ks, l);
  }

  /** What one turn, which put `part` at off + tot, adds. */
  ghost predicate Turned(g: Geo, w: Vol, y: Vol, o0: Owner, o1: Owner, i: nat, at: nat, part: seq<Byte>,
                         l0: set<nat>, l1: set<nat>)
  {
    && Matched(w, y) && Grown(w, y, i) && at / BSIZE < MAXFILE && l0 <= l1
    && Costs(g, w, y, o0, o1, i, Through(at / BSIZE), l0, l1) && Spliced(w, y, i, at, part, |part|)
    && BlockOf(y.inodes[i], y.blocks, at / BSIZE) != 0
  }

  lemma WritingStep(g: Geo, v: Vol, w: Vol, y: Vol, o: Owner, o0: Owner, o1: Owner, i: nat, off: nat, got: seq<Byte>,
                    tot: nat, m: nat, ks: set<nat>, l: set<nat>, l0: set<nat>, l1: set<nat>)
    requires Writing(g, v, w, o, o0, i, off, got, tot, ks, l, l0) && tot + m <= |got| && 0 < m
    requires Turned(g, w, y, o0, o1, i, off + tot, got[tot..tot + m], l0, l1) && Through((off + tot) / BSIZE) <= ks
    requires off + |got| <= MAXFILE * BSIZE && (off + tot) % BSIZE + m <= BSIZE
    requires SameBut(w.blocks, y.blocks, l1) && BlockOf(y.inodes[i], y.blocks, (off + tot) / BSIZE) in l1
    ensures Writing(g, v, y, o, o1, i, off, got, tot + m, ks, l, l1)
  {
    hide Costs, Progress, Touched, SameBut, Grown, Spliced, Through, Slot;
    CostsTrans(g, v, w, y, o, o0, o1, i, ks, Through((off + tot) / BSIZE), ks, l, l0, l1);
    ProgressStep(v, w, y, i, off, got, tot, m);
    TouchedStep(w, y, i, off, tot, m, l0, l1);
    SameButTrans(v.blocks, w.blocks, y.blocks, l0, l1);
  }

  /** The turn in which the copy fails. */
  lemma WritingFails(g: Geo, v: Vol, w: Vol, y: Vol, o: Owner, o0: Owner, o1: Owner, i: nat, off: nat, got: seq<Byte>,
                     tot: nat, ks: set<nat>, l: set<nat>, l0: set<nat>, l1: set<nat>)
    requires Writing(g, v, w, o, o0, i, off, got, tot, ks, l, l0) && tot <= |got|
    requires Turned(g, w, y, o0, o1, i, off + tot, got[tot..], l0, l1) && Through((off + tot) / BSIZE) <= ks
    requires off + |got| < MAXFILE * BSIZE && (off + tot) % BSIZE + (|got| - tot) < BSIZE
    requires SameBut(w.blocks, y.blocks, l1 + {BlockOf(y.inodes[i], y.blocks, (off + tot) / BSIZE)})
    ensures (off + |got|) / BSIZE == (off + tot) / BSIZE
    ensures SameBut(v.blocks, y.blocks, l1 + {BlockOf(y.inodes[i], y.blocks, (off + |got|) / BSIZE)})
    ensures Matched(v, y) && Grown(v, y, i) && Progress(v, y, i, off, got, |got|) && Touched(y, i, off, tot, l1)
    ensures Covered(y.inodes[i], y.blocks, off, |got| + 1) && Costs(g, v, y, o, o1, i, ks, l, l1)
  {
    hide Costs, Touched, SameBut, Grown, Spliced, Through, Slot, Covered;
    CostsTrans(g, v, w, y, o, o0, o1, i, ks, Through((off + tot) / BSIZE), ks, l, l0, l1);
    assert got[tot..|got|] == got[tot..];
    ProgressStep(v, w, y, i, off, got, tot, |got| - tot);
    CoveredStep(w, y, i, off, tot, |got| - tot + 1);
    TouchedGrown(w, y, i, off, tot, l0, l1);
    SameButTrans(v.blocks, w.blocks, y.blocks, l0, l1 + {BlockOf(y.inodes[i], y.blocks, (off + tot) / BSIZE)});
  }

  /** The turn in which there is no block to be had. */
  lemma WritingStops(g: Geo, v: Vol, w: Vol, y: Vol, o: Owner, o0: Owner, o1: Owner, i: nat, off: nat, got: seq<Byte>,
                     tot: nat, n: nat, ks: set<nat>, l: set<nat>, l0: set<nat>, l1: set<nat>)
    requires Writing(g, v, w, o, o0, i, off, got, tot, ks, l, l0) && Matched(w, y) && Grown(w, y, i)
    requires tot < n && off + n <= MAXFILE * BSIZE && BlockOf(y.inodes[i], y.blocks, (off + tot) / BSIZE) == 0
    requires Costs(g, w, y, o0, o1, i, Through((off + tot) / BSIZE), l0, l1) && Through((off + tot) / BSIZE) <= ks
    ensures Matched(v, y) && Grown(v, y, i) && !Covered(y.inodes[i], y.blocks, off, n)
            && Costs(g, v, y, o, o1, i, ks, l, l1)
  {
    hide Costs, Touched, SameBut, Grown, Spliced, Through, Slot, Covered;
    CostsTrans(g, v, w, y, o, o0, o1, i, ks, Through((off + tot) / BSIZE), ks, l, l0, l1);
    GrownTrans(v, w, y, i);
    NotCovered(y.inodes[i], y.blocks, off, n, off + tot);
  }

  lemma WritingEnds(g: Geo, v: Vol, w: Vol, o0: Owner, o1: Owner, i: nat, off: nat, got: seq<Byte>, tot: nat,
                    ks: set<nat>, l0: set<nat>, l1: set<nat>)
    requires Writing(g, v, w, o0, o1, i, off, got, tot, ks, l0, l1)
    ensures Matched(v, w) && Grown(v, w, i) && Progress(v, w, i, off, got, tot) && Touched(w, i, off, tot, l1)
    ensures Covered(w.inodes[i], w.blocks, off, tot)
    ensures Costs(g, v, w, o0, o1, i, ks, l0, l1) && l0 <= l1 && SameBut(v.blocks, w.blocks, l1)
  {
  }

  lemma MoreLogged(w: Vol, y: Vol, u: seq<Block>, i: nat, bn: nat, l0: set<nat>, l1: set<nat>)
    requires i < |w.inodes| == |y.inodes| && |w.inodes[i].addrs| == NDIRECT + 1 && bn < MAXFILE && l0 <= l1
    requires y.blocks == w.blocks && y.inodes[i].addrs == w.inodes[i].addrs
    requires SameBut(u, w.blocks, l0 + {BlockOf(w.inodes[i], w.blocks, bn)})
    ensures SameBut(u, y.blocks, l1 + {BlockOf(y.inodes[i], y.blocks, bn)})
  {
  }

  lemma AheadTrans(g: Geo, u: Vol, v: Vol, w: Vol, i: nat, l: set<nat>, l': set<nat>)
    requires Ahead(g, u, v, i, l) && Ahead(g, v, w, i, l')
    ensures Ahead(g, u, w, i, l + l')
  {
  }

  /** All that a sequence of transactions logged. */
  ghost function All(ops: seq<set<nat>>): (l: set<nat>) {
    if ops == [] then {} else All(ops[..|ops| - 1]) + ops[|ops| - 1]
  }

  lemma AllMore(ops: seq<set<nat>>, l: set<nat>)
    ensures All(ops + [l]) == All(ops) + l
  {
    assert (ops + [l])[..|ops|] == ops;
  }

  /** Where filewrite's loop is: `bytes` are in the file, by the transactions ops. */
  ghost predicate Chunked(g: Geo, v: Vol, w: Vol, i: nat, off: nat, bytes: seq<Byte>, ops: seq<set<nat>>) {
    && i < |v.inodes| && (if off <= v.inodes[i].size then Written(v, w, i, off, bytes) else w == v && bytes == [])
    && Ahead(g, v, w, i, All(ops)) && forall j :: 0 <= j < |ops| ==> |ops[j]| <= MAXOPBLOCKS
  }

  lemma ChunkedStarts(g: Geo, v: Vol, i: nat, off: nat)
    requires Whole(v) && i < |v.inodes|
    ensures Chunked(g, v, v, i, off, [], [])
  {
    AheadNothing(g, v, i, {});
    if off <= v.inodes[i].size {
      WrittenNothing(v, i, off);
    }
  }

  lemma ChunkedSize(g: Geo, v: Vol, w: Vol, i: nat, off: nat, bytes: seq<Byte>, ops: seq<set<nat>>)
    requires Chunked(g, v, w, i, off, bytes, ops) && Whole(v)
    ensures Whole(w) && i < |v.inodes| == |w.inodes|
    ensures if off <= v.inodes[i].size then off + |bytes| <= w.inodes[i].size else w == v && bytes == []
  {
    hide Content, Whole;
    if off <= v.inodes[i].size {
      WrittenLength(v, w, i, off, bytes);
    }
  }

  lemma ChunkAdded(g: Geo, v: Vol, w: Vol, y: Vol, i: nat, off: nat, bytes: seq<Byte>, more: seq<Byte>,
                   ops: seq<set<nat>>, l: set<nat>)
    requires Chunked(g, v, w, i, off, bytes, ops) && off <= v.inodes[i].size && Written(w, y, i, off + |bytes|, more)
    requires Ahead(g, w, y, i, l) && |l| <= MAXOPBLOCKS
    ensures Chunked(g, v, y, i, off, bytes + more, ops + [l])
  {
    hide Ahead, Written, All;
    AheadTrans(g, v, w, y, i, All(ops), l);
    AllMore(ops, l);
    WrittenTrans(v, w, y, i, off, bytes, more);
  }

  /** A transaction that did nothing. */
  lemma ChunkRefused(g: Geo, v: Vol, w: Vol, i: nat, off: nat, bytes: seq<Byte>, ops: seq<set<nat>>, l: set<nat>)
    requires Chunked(g, v, w, i, off, bytes, ops) && |l| <= MAXOPBLOCKS
    ensures Chunked(g, v, w, i, off, bytes, ops + [l])
  {
    hide Ahead, Written, All;
    AheadNothing(g, w, i, l);
    AheadTrans(g, v, w, w, i, All(ops), l);
    AllMore(ops, l);
  }

  /** How many of the n bytes from s on can be copied in before the first that cannot. */
  function Good(readable: seq<bool>, s: nat, n: nat): (a: nat)
    requires s + n <= |readable|
    ensures a <= n && (forall t :: s <= t < s + a ==> readable[t]) && (a < n ==> !readable[s + a])
    decreases n
  {
    if n == 0 || !readable[s] then 0 else 1 + Good(readable, s + 1, n - 1)
  }

  ghost predicate AllGood(readable: seq<bool>, k: nat)
    requires k <= |readable|
  {
    forall t :: 0 <= t < k ==> readable[t]
  }

  /** Whether writei takes n bytes at off at all. */
  predicate Accepts(v: Vol, i: nat, off: nat, n: nat)
    requires i < |v.inodes|
  {
    off <= v.inodes[i].size && off + n <= MAXFILE * BSIZE
  }

  /** One transaction of filewrite takes v to w: the chunk is refused, or those of its bytes that
      can be copied in, the first a, are in the file, which grows only by whole blocks of them. */
  ghost predicate Piece(v: Vol, w: Vol, i: nat, off: nat, chunk: seq<Byte>, a: nat) {
    && i < |v.inodes| && a <= |chunk|
    && if Accepts(v, i, off, |chunk|) then Torn(v, w, i, off, chunk[..a], Done(off, |chunk|, a)) else w == v
  }

  /** After a chunk that could not all be copied in, the next is accepted if and only if the file
      went past that chunk already: otherwise it has not grown that far. */
  lemma AfterFailedCopy(v: Vol, w: Vol, i: nat, off: nat, chunk: seq<Byte>, a: nat, m: nat)
    requires Piece(v, w, i, off, chunk, a) && Accepts(v, i, off, |chunk|) && a < |chunk|
    ensures i < |w.inodes| && (Accepts(w, i, off + |chunk|, m) <==> Accepts(v, i, off + |chunk|, m))
  {
    hide Content, Whole;
    DoneBound(off, |chunk|, a);
  }

  /** The piece after s bytes. */
  ghost predicate PieceAt(v: Vol, w: Vol, i: nat, off: nat, data: seq<Byte>, readable: seq<bool>, s: nat) {
    && s < |data| == |readable|
    && var n := Min(CHUNK, |data| - s);
       Piece(v, w, i, off + s, data[s..s + n], Good(readable, s, n))
  }

  /** The volumes between filewrite's transactions. */
  ghost predicate Pieces(vols: seq<Vol>, ops: seq<set<nat>>, i: nat, off: nat, data: seq<Byte>, readable: seq<bool>) {
    && |vols| == |ops| + 1
    && (forall j :: 0 <= j < |ops| ==> |ops[j]| <= MAXOPBLOCKS)
    && forall j :: 0 <= j < |ops| ==> PieceAt(vols[j], vols[j + 1], i, off, data, readable, CHUNK * j)
  }

  lemma PieceAdded(vols: seq<Vol>, ops: seq<set<nat>>, w: Vol, l: set<nat>, i: nat, off: nat, data: seq<Byte>,
                   readable: seq<bool>)
    requires Pieces(vols, ops, i, off, data, readable) && |l| <= MAXOPBLOCKS
    requires PieceAt(vols[|ops|], w, i, off, data, readable, CHUNK * |ops|)
    ensures Pieces(vols + [w], ops + [l], i, off, data, readable)
  {
    hide PieceAt;
  }

  /** If the first s bytes could all be copied in, exactly they are in the file. */
  ghost predicate GoodSoFar(g: Geo, v: Vol, w: Vol, i: nat, off: nat, data: seq<Byte>, readable: seq<bool>, s: nat,
                            ops: seq<set<nat>>)
    requires s <= |data| == |readable|
  {
    AllGood(readable, s) ==> Chunked(g, v, w, i, off, data[..s], ops)
  }

  lemma GoodAdded(g: Geo, v: Vol, w: Vol, y: Vol, i: nat, off: nat, data: seq<Byte>, readable: seq<bool>, s: nat,
                  n: nat, ops: seq<set<nat>>, l: set<nat>)
    requires Whole(v) && s + n <= |data| == |readable| && |l| <= MAXOPBLOCKS
    requires GoodSoFar(g, v, w, i, off, data, readable, s, ops) && i < |w.inodes| && Accepts(w, i, off + s, n)
    requires Good(readable, s, n) == n ==> Written(w, y, i, off + s, data[s..s + n]) && Ahead(g, w, y, i, l)
    ensures GoodSoFar(g, v, y, i, off, data, readable, s + n, ops + [l])
  {
    hide Chunked, Written, Ahead, Whole;
    if AllGood(readable, s + n) {
      ChunkedSize(g, v, w, i, off, data[..s], ops);
      assert data[..s] + data[s..s + n] == data[..s + n];
      ChunkAdded(g, v, w, y, i, off, data[..s], data[s..s + n], ops, l);
    }
  }

  /** If all so far could be copied in and the next chunk is refused, the range was bad from
      the start or leaves the largest file. */
  lemma GoodRefused(g: Geo, v: Vol, w: Vol, i: nat, off: nat, data: seq<Byte>, readable: seq<bool>, s: nat, n: nat,
                    ops: seq<set<nat>>, l: set<nat>)
    requires Whole(v) && s <= |data| == |readable| && |l| <= MAXOPBLOCKS && i < |v.inodes| == |w.inodes|
    requires GoodSoFar(g, v, w, i, off, data, readable, s, ops) && !Accepts(w, i, off + s, n)
    ensures AllGood(readable, s) ==> off > v.inodes[i].size || off + s + n > MAXFILE * BSIZE
    ensures GoodSoFar(g, v, w, i, off, data, readable, s, ops + [l])
  {
    hide Chunked, Whole;
    if AllGood(readable, s) {
      ChunkedSize(g, v, w, i, off, data[..s], ops);
      ChunkRefused(g, v, w, i, off, data[..s], ops, l);
    }
  }

  /** Where filewrite's loop is after tot bytes. */
  ghost predicate Going(g: Geo, v: Vol, w: Vol, vols: seq<Vol>, ops: seq<set<nat>>, i: nat, off: nat, data: seq<Byte>,
                        readable: seq<bool>, tot: nat)
  {
    && tot <= |data| == |readable| && tot == Min(|data|, CHUNK * |ops|) && (tot > 0 ==> off + tot <= MAXFILE * BSIZE)
    && Pieces(vols, ops, i, off, data, readable) && vols[0] == v && vols[|ops|] == w
    && GoodSoFar(g, v, w, i, off, data, readable, tot, ops)
  }

  /** The loop ended early: the chunk after k bytes was refused. */
  ghost predicate Refused(v: Vol, vols: seq<Vol>, ops: seq<set<nat>>, i: nat, off: nat, data: seq<Byte>,
                          readable: seq<bool>, k: nat)
  {
    && k < |data| == |readable| && |ops| > 0 && k == CHUNK * (|ops| - 1) && |vols| == |ops| + 1
    && (var u := vols[|ops| - 1]; i < |u.inodes| && !Accepts(u, i, off + k, Min(CHUNK, |data| - k)))
    && i < |v.inodes|
    && (AllGood(readable, k) ==> off > v.inodes[i].size || off + k + Min(CHUNK, |data| - k) > MAXFILE * BSIZE)
  }

  lemma GoingStarts(g: Geo, v: Vol, i: nat, off: nat, data: seq<Byte>, readable: seq<bool>)
    requires Whole(v) && i < |v.inodes| && |data| == |readable|
    ensures Going(g, v, v, [v], [], i, off, data, readable, 0)
  {
    hide Chunked;
    ChunkedStarts(g, v, i, off);
    assert data[..0] == [];
  }

  lemma GoesOn(g: Geo, v: Vol, w: Vol, y: Vol, vols: seq<Vol>, ops: seq<set<nat>>, l: set<nat>, i: nat, off: nat,
               data: seq<Byte>, readable: seq<bool>, tot: nat, n: nat)
    requires Going(g, v, w, vols, ops, i, off, data, readable, tot) && tot < |data| && n == Min(CHUNK, |data| - tot)
    requires Whole(v) && |l| <= MAXOPBLOCKS && i < |w.inodes| && Accepts(w, i, off + tot, n)
    requires var a := Good(readable, tot, n);
             && Piece(w, y, i, off + tot, data[tot..tot + n], a)
             && (a == n ==> Written(w, y, i, off + tot, data[tot..tot + n]) && Ahead(g, w, y, i, l))
    ensures Going(g, v, y, vols + [y], ops + [l], i, off, data, readable, tot + n)
  {
    hide Whole, Written, Ahead, Piece, GoodSoFar, Good;
    GoodAdded(g, v, w, y, i, off, data, readable, tot, n, ops, l);
    assert PieceAt(w, y, i, off, data, readable, CHUNK * |ops|);
    hide PieceAt;
    PieceAdded(vols, ops, y, l, i, off, data, readable);
  }

  lemma GoesNoFurther(g: Geo, v: Vol, w: Vol, vols: seq<Vol>, ops: seq<set<nat>>, l: set<nat>, i: nat, off: nat,
                      data: seq<Byte>, readable: seq<bool>, tot: nat, n: nat)
    requires Going(g, v, w, vols, ops, i, off, data, readable, tot) && tot < |data| && n == Min(CHUNK, |data| - tot)
    requires Whole(v) && |l| <= MAXOPBLOCKS && i < |v.inodes| == |w.inodes| && !Accepts(w, i, off + tot, n)
    requires Piece(w, w, i, off + tot, data[tot..tot + n], Good(readable, tot, n))
    ensures Refused(v, vols + [w], ops + [l], i, off, data, readable, tot)
    ensures Pieces(vols + [w], ops + [l], i, off, data, readable)
    ensures (vols + [w])[0] == v && (vols + [w])[|ops| + 1] == w
    ensures GoodSoFar(g, v, w, i, off, data, readable, tot, ops + [l])
  {
    hide Whole, Piece, GoodSoFar;
    GoodRefused(g, v, w, i, off, data, readable, tot, n, ops, l);
    PieceAdded(vols, ops, w, l, i, off, data, readable);
  }

  lemma AheadNothing(g: Geo, v: Vol, i: nat, l: set<nat>)
    ensures Ahead(g, v, v, i, l)
  {
  }

  lemma DoneHere(off: nat, n: nat, avail: nat, tot: nat, m: nat)
    requires tot < n && tot <= avail < tot + m && (tot == 0 || (off + tot) % BSIZE == 0)
    requires m == if n - tot < BSIZE - (off + tot) % BSIZE then n - tot else BSIZE - (off + tot) % BSIZE
    ensures Done(off, n, avail) == tot
  {
    assert (off + avail) / BSIZE == (off + tot) / BSIZE;
  }

  lemma DoneAll(off: nat, n: nat, avail: nat)
    requires n <= avail
    ensures Done(off, n, avail) == n
  {
  }

  lemma DoneBound(off: nat, n: nat, avail: nat)
    ensures Done(off, n, avail) <= Min(n, avail) && (n <= avail ==> Done(off, n, avail) == n)
  {
  }

  lemma ContentWhole(v: Vol, i: nat)
    requires Whole(v) && i < |v.inodes|
    ensures |v.inodes[i].addrs| == NDIRECT + 1 && v.inodes[i].size <= MAXFILE * BSIZE
    ensures |Content(v.inodes[i], v.blocks)| == v.inodes[i].size
  {
    ContentLength(v.inodes[i], v.blocks);
  }

  lemma ReadOn(c: seq<Byte>, off: nat, r: nat, m: nat, k: nat)
    requires off + r + m <= |c| && k <= m
    ensures c[off..off + r] + c[off + r..off + r + m][..k] == c[off..off + r + k]
  {
  }

  lemma WholeOne(v: Vol, i: nat)
    requires Whole(v) && i < |v.inodes|
    ensures |v.inodes[i].addrs| == NDIRECT + 1 && NoHoles(v.inodes[i], v.blocks)
  {
  }

  lemma OutOfBlocks(g: Geo, v: Vol, w: Vol, o0: Owner, o1: Owner, i: nat, off: nat, n: nat, l0: set<nat>, l1: set<nat>)
    requires Owned(g, v, o0) && Owned(g, w, o1) && Matched(v, w) && Grown(v, w, i) && off + n <= MAXFILE * BSIZE
    requires Costs(g, v, w, o0, o1, i, Reach(off, n), l0, l1)
    requires !Covered(w.inodes[i], w.blocks, off, n) && forall c :: 0 <= c < g.size ==> w.used[c]
    ensures |Free(v.used)| < |Needed(v, i, off, n)|
  {
    TooFew(g, v, w, o0, o1, i, off, n);
  }

  /** What a finished write has taken and logged. */
  lemma WriteCost(g: Geo, v: Vol, w: Vol, o0: Owner, o1: Owner, i: nat, off: nat, n: nat, l0: set<nat>, l1: set<nat>)
    requires Owned(g, v, o0) && Owned(g, w, o1) && Matched(v, w) && Grown(v, w, i) && off + n <= MAXFILE * BSIZE
    requires Costs(g, v, w, o0, o1, i, Reach(off, n), l0, l1) && NoHoles(v.inodes[i], v.blocks)
             && off <= v.inodes[i].size
    requires Covered(w.inodes[i], w.blocks, off, n)
    ensures |Needed(v, i, off, n)| <= |Free(v.used)|
    ensures l0 == {} && n <= CHUNK ==>
              && |l1| <= |l1 + {i / IPB + g.inode}| <= MAXOPBLOCKS
              && (n == 0 ==> |l1| < MAXOPBLOCKS && !Tight(g, v, i, off, n))
              && (LaidOut(g, i) && Touched(w, i, off, n, l1) ==>
                    (|l1 + {i / IPB + g.inode}| == MAXOPBLOCKS <==> Tight(g, v, i, off, n)))
  {
    hide Owned, Grown, Grabbed, Reach, Needed, Free, Covered, Touched, Slot, NoHoles, Fresh, Bitmaps, Named;
    assert Step(g, v, w, o0, o1, i, Reach(off, n));
    Enough(g, v, w, o0, o1, i, off, n);
    if l0 == {} && n <= CHUNK {
      var ib := i / IPB + g.inode;
      ChunkFits(g, v, w, o0, o1, i, off, n, l1, ib);
      if LaidOut(g, i) && Touched(w, i, off, n, l1) {
        TenLogged(g, v, w, o0, o1, i, off, n, l1, ib);
      }
    }
  }

  lemma IndirectThere(g: Geo, v: Vol, owner: Owner, i: nat)
    requires Owned(g, v, owner) && i < |v.inodes| && v.inodes[i].addrs[NDIRECT] != 0
    ensures Shaped(g, v) && v.inodes[i].addrs[NDIRECT] < |v.blocks|
  {
    assert SlotOk(v, owner, i, NDIRECT);
    assert BlockOk(g, v, owner, v.inodes[i].addrs[NDIRECT]);
  }

  lemma NoIndirect(g: Geo, v: Vol, owner: Owner, used: seq<bool>, i: nat)
    requires Owned(g, v, owner) && i < |v.inodes| && v.inodes[i].addrs[NDIRECT] == 0
    requires FreedUpTo(v, owner, used, i, NDIRECT, 0, false)
    ensures FreedUpTo(v, owner, used, i, NDIRECT, NINDIRECT, true)
  {
    forall b: nat | b < |used| && b in owner && owner[b].0 == i ensures owner[b].1 < NDIRECT {
      assert BlockOk(g, v, owner, b);
    }
  }

  class Fs {
    const g: Geo
    var used: seq<bool>
    var blocks: seq<Block>
    var inodes: seq<Inode>
    ghost var owner: Owner
    ghost var logged: set<nat>

    ghost function V(): (v: Vol)
      reads this
    {
      Vol(used, blocks, inodes)
    }

    ghost predicate Valid()
      reads this
    {
      Owned(g, V(), owner)
    }

    /** A mounted image whose bitmap is exact. */
    constructor (g: Geo, used: seq<bool>, blocks: seq<Block>, inodes: seq<Inode>, ghost owner: Owner)
      requires Owned(g, Vol(used, blocks, inodes), owner)
      ensures Valid() && this.g == g && V() == Vol(used, blocks, inodes) && this.owner == owner && logged == {}
    {
      this.g, this.used, this.blocks, this.inodes, this.owner, this.logged := g, used, blocks, inodes, owner, {};
    }

    /** balloc: the first free block, marked used and zeroed. False is the panic. */
    method Balloc() returns (ok: bool, b: Word)
      requires Valid()
      modifies this`used, this`blocks, this`logged
      ensures !ok ==> V() == old(V()) && logged == old(logged) && forall c :: 0 <= c < g.size ==> used[c]
      ensures ok ==>
                && g.data <= b < g.size && !old(used)[b] && b != 0
                && (forall c :: 0 <= c < b ==> old(used)[c])
                && V() == Allocated(old(V()), b)
                && logged == old(logged) + {Bitmap(g, b), b}
    {
      b := 0;
      var base := 0;
      while base < g.size
        invariant 0 <= base && V() == old(V()) && logged == old(logged)
        invariant forall c :: 0 <= c < base && c < g.size ==> used[c]
      {
        var bi := 0;
        while bi < BPB && base + bi < g.size
          invariant 0 <= bi <= BPB && V() == old(V()) && logged == old(logged)
          invariant forall c :: 0 <= c < base + bi && c < g.size ==> used[c]
        {
          if !used[base + bi] {
            b := base + bi;
            used := used[b := true];
            blocks := blocks[b := Zeros()];
            logged := logged + {Bitmap(g, b), b};
            return true, b;
          }
          bi := bi + 1;
        }
        base := base + BPB;
      }
      ok := false;
    }

    /** The `if (addr == 0) addrs[n] = balloc()` of bmap, for a direct block or the indirect block. */
    method FillAddrs(i: nat, n: nat) returns (ok: bool, a: Word)
      requires Valid() && i < |inodes| && n <= NDIRECT
      modifies this
      ensures Valid() && Changed(old(V()), V(), i)
      ensures !ok ==> V() == old(V()) && old(inodes)[i].addrs[n] == 0 && forall c :: 0 <= c < g.size ==> used[c]
      ensures ok ==> a != 0 && inodes[i].addrs == old(inodes)[i].addrs[n := a]
      ensures old(inodes)[i].addrs[n] != 0 ==> ok && V() == old(V()) && logged == old(logged)
      ensures Costs(g, old(V()), V(), old(owner), owner, i, {n}, old(logged), logged)
      ensures old(logged) <= logged && SameBut(old(blocks), blocks, logged)
    {
      hide Costs;
      CostsNothing(g, V(), owner, i, {n}, logged);
      a := inodes[i].addrs[n];
      ok := true;
      if a == 0 {
        ghost var v, own := V(), owner;
        assert Slot(v.inodes[i], v.blocks, n) == 0;
        ok, a := Balloc();
        if ok {
          FillAddr(g, v, owner, i, n, a);
          inodes := inodes[i := WithAddrOf(inodes[i], n, a)];
          owner := owner[a := (i, n)];
          OwnedFill(g, v, V(), own, i, n, a);
          CostsOne(g, v, V(), own, i, n, {n}, a, old(logged), {});
          assert logged == old(logged) + {Bitmap(g, a), a} + {};
          AllBytesKept(g, v, V(), own, i, n, a, a);
        }
      }
    }

    /** The indirect half of bmap: entry e of the indirect block a. */
    method FillIndirect(i: nat, e: nat, a: Word) returns (ok: bool, addr: Word)
      requires Valid() && i < |inodes| && e < NINDIRECT && a == inodes[i].addrs[NDIRECT] != 0
      modifies this
      ensures Valid() && Changed(old(V()), V(), i) && inodes == old(inodes)
      ensures !ok ==> Slot(inodes[i], blocks, NDIRECT + 1 + e) == 0 && forall c :: 0 <= c < g.size ==> used[c]
      ensures ok ==> addr != 0 && Slot(inodes[i], blocks, NDIRECT + 1 + e) == addr
      ensures Slot(old(inodes)[i], old(blocks), NDIRECT + 1 + e) != 0 ==> ok && V() == old(V()) && logged == old(logged)
      ensures Costs(g, old(V()), V(), old(owner), owner, i, {NDIRECT, NDIRECT + 1 + e}, old(logged), logged)
      ensures old(logged) <= logged && SameBut(old(blocks), blocks, logged)
    {
      hide Costs;
      CostsNothing(g, V(), owner, i, {NDIRECT, NDIRECT + 1 + e}, logged);
      assert SlotOk(V(), owner, i, NDIRECT);
      assert BlockOk(g, V(), owner, a);
      addr := GetWord(blocks[a], e);
      ok := true;
      if addr == 0 {
        ghost var v, own, k := V(), owner, NDIRECT + 1 + e;
        assert Slot(v.inodes[i], v.blocks, k) == 0;
        ok, addr := Balloc();
        if ok {
          FillEntry(g, v, owner, i, e, addr);
          blocks := blocks[a := SetWord(blocks[a], e, addr)];
          logged := logged + {a};
          owner := owner[addr := (i, k)];
          OwnedFill(g, v, V(), own, i, k, addr);
          CostsEntry(g, v, V(), own, i, k, addr, a, old(logged), logged);
          AllBytesKept(g, v, V(), own, i, k, addr, a);
        }
      }
    }

    /** bmap: the block that holds block bn of file i, allocated if need be. No file's bytes
        change, and nothing at all changes if the block is there. `ok` is false for balloc's panic. */
    method Bmap(i: nat, bn: nat) returns (ok: bool, addr: Word)
      requires Valid() && i < |inodes| && bn < MAXFILE
      modifies this
      ensures Valid() && Changed(old(V()), V(), i)
      ensures !ok ==> BlockOf(inodes[i], blocks, bn) == 0 && forall c :: 0 <= c < g.size ==> used[c]
      ensures ok ==> addr != 0 && BlockOf(inodes[i], blocks, bn) == addr
      ensures BlockOf(old(inodes)[i], old(blocks), bn) != 0 ==> ok && V() == old(V()) && logged == old(logged)
      ensures Costs(g, old(V()), V(), old(owner), owner, i, Through(bn), old(logged), logged)
      ensures old(logged) <= logged && SameBut(old(blocks), blocks, logged)
    {
      hide Costs, SlotOk, BlockOk;
      ghost var v, o := V(), owner;
      if bn < NDIRECT {
        ok, addr := FillAddrs(i, bn);
        return;
      }
      var ind;
      addr := 0;
      ok, ind := FillAddrs(i, NDIRECT);
      ghost var w, o', l := V(), owner, logged;
      if ok {
        ok, addr := FillIndirect(i, bn - NDIRECT, ind);
        GrownTrans(v, w, V(), i);
        SameBytesTrans(v, w, V());
        SameButTrans(v.blocks, w.blocks, blocks, l, logged);
      } else {
        CostsNothing(g, w, owner, i, {NDIRECT, bn + 1}, logged);
      }
      CostsTrans(g, v, w, V(), o, o', owner, i, {NDIRECT}, {NDIRECT, bn + 1}, Through(bn), old(logged), l, logged);
    }

    /** One turn of writei's loop: bytes within one block. If the copy failed after them, the
        block is not logged. */
    method WriteChunk(i: nat, off: nat, bytes: seq<Byte>, copied: bool) returns (ok: bool, addr: Word)
      requires Valid() && i < |inodes| && off < MAXFILE * BSIZE && off % BSIZE + |bytes| <= BSIZE
      modifies this
      ensures Valid() && |inodes| == |old(inodes)| && Matched(old(V()), V()) && Grown(old(V()), V(), i)
      ensures !ok ==> BlockOf(inodes[i], blocks, off / BSIZE) == 0 && forall c :: 0 <= c < g.size ==> used[c]
      ensures ok ==> BlockOf(inodes[i], blocks, off / BSIZE) == addr != 0 && (copied ==> addr in logged)
      ensures ok ==> Spliced(old(V()), V(), i, off, bytes, |bytes|)
      ensures old(logged) <= logged && SameBut(old(blocks), blocks, if ok && !copied then logged + {addr} else logged)
      ensures Costs(g, old(V()), V(), old(owner), owner, i, Through(off / BSIZE), old(logged), logged)
    {
      hide Grabbed, Named, Bitmaps, Fresh;
      ghost var v := V();
      ok, addr := Bmap(i, off / BSIZE);
      if ok {
        ghost var x, l := V(), logged;
        SpliceBlock(g, v, x, owner, i, off, bytes);
        var d := Patch(blocks[addr], off % BSIZE, bytes);
        OwnedWritten(g, x, owner, i, off / BSIZE, d);
        blocks := blocks[addr := d];
        forall j: nat, l: nat | j < |inodes| && l < SLOTS
          ensures Slot(inodes[j], blocks, l) == Slot(x.inodes[j], x.blocks, l)
        {
          DataWritten(g, x, owner, i, off / BSIZE, d, j, l);
        }
        assert Grown(x, V(), i);
        GrownTrans(v, x, V(), i);
        CostsWrite(g, v, x, V(), old(owner), owner, i, Through(off / BSIZE), SlotOf(off / BSIZE), addr, old(logged), l);
        if copied {
          logged := logged + {addr};
        }
      }
    }

    /** writei's loop: data goes to bytes off0, off0 + 1, ... of file i, block by block, until a
        block of which the bytes cannot be copied in; `avail` bytes can be. */
    method WriteBytes(i: nat, off0: nat, data: seq<Byte>, avail: nat) returns (ok: bool, tot: nat)
      requires Valid() && i < |inodes| && NoHoles(inodes[i], blocks)
      requires off0 <= inodes[i].size && off0 + |data| <= MAXFILE * BSIZE
      modifies this
      ensures Valid() && |inodes| == |old(inodes)| && Matched(old(V()), V()) && Grown(old(V()), V(), i)
      ensures !ok ==> !Covered(inodes[i], blocks, off0, Min(|data|, avail + 1))
                      && forall c :: 0 <= c < g.size ==> used[c]
      ensures ok ==> tot == Done(off0, |data|, avail) && Touched(V(), i, off0, tot, logged)
      ensures ok ==> Progress(old(V()), V(), i, off0, data[..Min(|data|, avail)], Min(|data|, avail))
      ensures ok ==> Covered(inodes[i], blocks, off0, Min(|data|, avail + 1))
      ensures old(logged) <= logged && (ok && |data| <= avail ==> SameBut(old(blocks), blocks, logged))
      ensures ok && avail < |data| ==>
                SameBut(old(blocks), blocks, logged + {BlockOf(inodes[i], blocks, (off0 + avail) / BSIZE)})
      ensures data == [] ==> V() == old(V())
      ensures Costs(g, old(V()), V(), old(owner), owner, i, Reach(off0, Min(|data|, avail + 1)), old(logged), logged)
    {
      hide Writing, Costs, Touched, Progress, NoHoles, SlotOk, BlockOk, Grown, Spliced, Slot, Covered, Reach,
          Through, SameBut, Done;
      ghost var v, o, reach := V(), owner, Min(|data|, avail + 1);
      ghost var ks, got := Reach(off0, reach), data[..Min(|data|, avail)];
      WritingStarts(g, v, o, i, off0, got, ks, logged);
      var off := off0;
      tot := 0;
      while tot < |data|
        invariant 0 <= tot <= |data| && off == off0 + tot && |inodes| == |v.inodes| && tot <= |got|
        invariant (tot == 0 ==> V() == v) && (tot == 0 || tot == |data| || off % BSIZE == 0)
        invariant Valid() && Writing(g, v, V(), o, owner, i, off0, got, tot, ks, old(logged), logged)
                  && old(logged) <= logged
      {
        ghost var w, o', l := V(), owner, logged;
        ThroughReach(off0, reach, off);
        var room := BSIZE - off % BSIZE;
        var m := if |data| - tot < room then |data| - tot else room;
        var copied := tot + m <= avail;
        var part := data[tot..if copied then tot + m else avail];
        assert part == got[tot..tot + |part|];
        var addr;
        ok, addr := WriteChunk(i, off, part, copied);
        if !ok {
          WritingStops(g, v, w, V(), o, o', owner, i, off0, got, tot, reach, ks, old(logged), l, logged);
          return;
        }
        assert Turned(g, w, V(), o', owner, i, off0 + tot, part, l, logged);
        if !copied {
          assert got[tot..] == part;
          WritingFails(g, v, w, V(), o, o', owner, i, off0, got, tot, ks, old(logged), l, logged);
          DoneHere(off0, |data|, avail, tot, m);
          return;
        }
        WritingStep(g, v, w, V(), o, o', owner, i, off0, got, tot, m, ks, old(logged), l, logged);
        tot, off := tot + m, off + m;
      }
      WritingEnds(g, v, V(), o, owner, i, off0, got, |data|, ks, old(logged), logged);
      DoneAll(off0, |data|, avail);
      ok := true;
    }

    /** writei. -1 for a bad range, and then nothing changes. Otherwise it returns n, even if
        only the first `avail` bytes of data can be copied in. Those bytes are then spliced
        into the file, but the file grows only by whole blocks of them, and the block in which
        the copy fails need not be logged. If all can be copied, data is spliced in and
        whatever changed is logged. No other file changes. writei runs
        out of blocks exactly if there are fewer free blocks than empty slots on its way. A
        write of at most filewrite's chunk logs at most MAXOPBLOCKS blocks, and exactly that
        many just if it is tight. */
    method Writei(i: nat, off: nat, data: seq<Byte>, avail: nat) returns (ok: bool, r: int)
      requires Valid() && Whole(V()) && i < |inodes| && off < 0x1_0000_0000 && |data| < 0x1_0000_0000
      modifies this
      ensures Valid() && |inodes| == |old(inodes)|
      ensures !ok ==> forall c :: 0 <= c < g.size ==> used[c]
      ensures off > old(inodes)[i].size || off + |data| > MAXFILE * BSIZE ==>
                ok && r == -1 && V() == old(V()) && logged == old(logged)
      ensures off <= old(inodes)[i].size && off + |data| <= MAXFILE * BSIZE ==>
                (ok <==> |Needed(old(V()), i, off, Min(|data|, avail + 1))| <= |Free(old(used))|)
      ensures ok && off <= old(inodes)[i].size && off + |data| <= MAXFILE * BSIZE ==>
                r == |data| && Torn(old(V()), V(), i, off, data[..Min(|data|, avail)], Done(off, |data|, avail))
      ensures ok && r >= 0 && |data| <= avail ==>
                Written(old(V()), V(), i, off, data) && Ahead(g, old(V()), V(), i, logged)
      ensures ok && r >= 0 && avail < |data| ==>
                SameBut(old(blocks), blocks, logged + {BlockOf(inodes[i], blocks, (off + avail) / BSIZE)})
      ensures ok && old(logged) == {} && |data| <= CHUNK ==> |logged| <= MAXOPBLOCKS
      ensures ok && r >= 0 && old(logged) == {} && |data| <= CHUNK && |data| <= avail && LaidOut(g, i) ==>
                (|logged| == MAXOPBLOCKS <==> Tight(g, old(V()), i, off, |data|))
    {
      hide Progress, SlotOk, BlockOk, Slot, Touched, Costs, Needed, Free, Tight, Covered, Grown, Whole, NoHoles, Done,
        Torn, Written, Ahead, SameBut;
      ghost var v, o := V(), owner;
      var n := |data|;
      if off > inodes[i].size || (off + n) % 0x1_0000_0000 < off {
        return true, -1;
      }
      if off + n > MAXFILE * BSIZE {
        return true, -1;
      }
      WholeOne(v, i);
      ghost var got, reach := data[..Min(n, avail)], Min(n, avail + 1);
      var tot;
      ok, tot := WriteBytes(i, off, data, avail);
      r := n;
      ghost var w, l := V(), logged;
      if !ok {
        OutOfBlocks(g, v, w, o, owner, i, off, reach, old(logged), l);
        return;
      }
      ProgressShape(v, w, i, off, got, |got|);
      WriteCost(g, v, w, o, owner, i, off, reach, old(logged), l);
      DoneBound(off, n, avail);
      AheadNothing(g, v, i, logged);
      if n > 0 {
        if off + tot > inodes[i].size {
          inodes := inodes[i := inodes[i].(size := off + tot)];
        }
        logged := logged + {i / IPB + g.inode};
        if n <= avail {
          WriteAhead(g, v, w, V(), o, owner, i, Reach(off, reach), old(logged), l, logged);
        }
      }
      assert n <= avail ==> got == data;
      FinishedAt(g, v, w, V(), owner, i, off, got, tot);
      if avail < n {
        MoreLogged(w, V(), v.blocks, i, (off + avail) / BSIZE, l, logged);
      }
    }

    /** One transaction of filewrite: begin_op, writei of a chunk of which the first a bytes can be
        copied in, and end_op. */
    method WritePiece(i: nat, off: nat, chunk: seq<Byte>, a: nat) returns (ok: bool, r: int)
      requires Valid() && Whole(V()) && i < |inodes| && |chunk| <= CHUNK && a <= |chunk| && off < 0x1_0000_0000
      modifies this
      ensures Valid() && |inodes| == |old(inodes)|
      ensures !ok ==> forall c :: 0 <= c < g.size ==> used[c]
      ensures ok ==> Whole(V()) && |logged| <= MAXOPBLOCKS && Piece(old(V()), V(), i, off, chunk, a)
      ensures ok ==> r == if Accepts(old(V()), i, off, |chunk|) then |chunk| else -1
      ensures ok && r < 0 ==> V() == old(V())
      ensures ok && r >= 0 && a == |chunk| ==>
                Written(old(V()), V(), i, off, chunk) && Ahead(g, old(V()), V(), i, logged)
    {
      hide Owned, Content, Needed, Free, Tight, LaidOut, Ahead, Done, SameBut, Slot, NoHoles;
      logged := {};
      ok, r := Writei(i, off, chunk, a);
    }

    /** filewrite's loop: a transaction for each chunk of at most CHUNK bytes, until one is refused.
        `vols` are the volumes between them and `ops` what each logs. -1 means that the chunk after
        k bytes was refused; `off` is the new file offset. If the first k bytes could all be copied
        in, then exactly they are in the file and the transactions log whatever changed. */
    method Filewrite(i: nat, off0: nat, data: seq<Byte>, readable: seq<bool>)
      returns (ok: bool, r: int, off: nat, ghost k: nat, ghost vols: seq<Vol>, ghost ops: seq<set<nat>>)
      requires Valid() && Whole(V()) && i < |inodes| && off0 < 0x1_0000_0000 && |data| == |readable| < 0x8000_0000
      modifies this
      ensures Valid() && |inodes| == |old(inodes)|
      ensures !ok ==> forall c :: 0 <= c < g.size ==> used[c]
      ensures ok ==> k <= |data| && off == off0 + k && r == if k == |data| then |data| else -1
      ensures ok ==> Pieces(vols, ops, i, off0, data, readable) && vols[0] == old(V()) && vols[|ops|] == V()
      ensures ok ==> GoodSoFar(g, old(V()), V(), i, off0, data, readable, k, ops)
      ensures ok && k < |data| ==> Refused(old(V()), vols, ops, i, off0, data, readable, k)
    {
      hide Owned, Written, Content, Whole, Ahead, Piece, Pieces, Good, GoodSoFar, Refused;
      var n, tot := |data|, 0;
      off, ok, ops, vols := off0, true, [], [V()];
      ghost var v := V();
      GoingStarts(g, v, i, off0, data, readable);
      while tot < n
        invariant 0 <= tot <= n && off == off0 + tot && ok && Valid() && Whole(V()) && |inodes| == |v.inodes|
        invariant Going(g, v, V(), vols, ops, i, off0, data, readable, tot)
      {
        var n1 := n - tot;
        if n1 > CHUNK { n1 := CHUNK; }
        ghost var w := V();
        ok, r := WritePiece(i, off, data[tot..tot + n1], Good(readable, tot, n1));
        if !ok {
          k := tot;
          return;
        }
        if r < 0 {
          GoesNoFurther(g, v, w, vols, ops, logged, i, off0, data, readable, tot, n1);
          ops, vols := ops + [logged], vols + [V()];
          break;
        }
        GoesOn(g, v, w, V(), vols, ops, logged, i, off0, data, readable, tot, n1);
        ops, vols := ops + [logged], vols + [V()];
        tot, off := tot + n1, off + n1;
      }
      k := tot;
      r := if tot == n then n else -1;
    }

    /** One turn of readi's loop: bytes within one block, which is there already. */
    method ReadChunk(i: nat, off: nat, m: nat) returns (bytes: seq<Byte>)
      requires Valid() && Whole(V()) && i < |inodes| && 0 < m && off + m <= inodes[i].size && off % BSIZE + m <= BSIZE
      modifies this
      ensures Valid() && V() == old(V()) && logged == old(logged)
      ensures bytes == Content(inodes[i], blocks)[off..off + m]
    {
      assert off / BSIZE < MAXFILE && off / BSIZE * BSIZE < inodes[i].size;
      assert BlockOf(inodes[i], blocks, off / BSIZE) != 0;
      var ok, addr := Bmap(i, off / BSIZE);
      assert SlotOk(V(), owner, i, SlotOf(off / BSIZE));
      assert BlockOk(g, V(), owner, addr);
      ReadBlock(V(), i, off, m);
      bytes := blocks[addr][off % BSIZE..off % BSIZE + m];
    }

    /** readi's loop over a range inside file i, to a destination whose first `avail` bytes can be
        written: r counts the bytes before the block in which the copy fails. */
    method ReadRange(i: nat, off0: nat, n: nat, avail: nat) returns (bytes: seq<Byte>, r: nat)
      requires Valid() && Whole(V()) && i < |inodes| && off0 + n <= inodes[i].size
      modifies this
      ensures Valid() && V() == old(V()) && logged == old(logged)
      ensures off0 + n <= |Content(inodes[i], blocks)|
      ensures bytes == Content(inodes[i], blocks)[off0..off0 + Min(n, avail)] && r == Done(off0, n, avail)
    {
      hide Owned, Content, Done, Whole;
      ContentWhole(V(), i);
      bytes, r := [], 0;
      ghost var c := Content(inodes[i], blocks);
      while r < n
        invariant 0 <= r <= n && r <= avail && Valid() && V() == old(V()) && logged == old(logged)
        invariant bytes == c[off0..off0 + r] && (r == 0 || r == n || (off0 + r) % BSIZE == 0)
      {
        var off := off0 + r;
        var room := BSIZE - off % BSIZE;
        var m := if n - r < room then n - r else room;
        var chunk := ReadChunk(i, off, m);
        ReadOn(c, off0, r, m, if avail < r + m then avail - r else m);
        if avail < r + m {
          bytes := bytes + chunk[..avail - r];
          DoneHere(off0, n, avail, r, m);
          return;
        }
        assert chunk == chunk[..m];
        bytes := bytes + chunk;
        r := r + m;
      }
      DoneBound(off0, n, avail);
    }

    /** readi: the bytes of file i in the range, as far as they fit the destination. The file
        has no holes, so bmap allocates nothing and nothing changes. */
    method Readi(i: nat, off: nat, n0: nat, avail: nat) returns (bytes: seq<Byte>, r: nat)
      requires Valid() && Whole(V()) && i < |inodes| && off < 0x1_0000_0000 && n0 < 0x1_0000_0000
      modifies this
      ensures Valid() && V() == old(V()) && logged == old(logged)
      ensures var all := if off + n0 >= 0x1_0000_0000 then [] else Slice(Content(inodes[i], blocks), off, n0);
              && bytes == all[..Min(|all|, avail)] && r == Done(off, |all|, avail)
              && (n0 <= avail ==> bytes == all && r == |all|)
    {
      hide Owned, Content, Done, Whole;
      ContentWhole(V(), i);
      if off > inodes[i].size || (off + n0) % 0x1_0000_0000 < off {
        DoneBound(off, 0, avail);
        return [], 0;
      }
      var n := if off + n0 > inodes[i].size then inodes[i].size - off else n0;
      bytes, r := ReadRange(i, off, n, avail);
      DoneBound(off, n, avail);
    }

    /** bfree's test and update of one bit. False is the "freeing free block" panic. */
    method Bfree(b: Word) returns (ok: bool)
      requires b < |used|
      modifies this`used, this`logged
      ensures ok == old(used)[b]
      ensures used == if ok then old(used)[b := false] else old(used)
      ensures logged == if ok then old(logged) + {Bitmap(g, b)} else old(logged)
    {
      if !used[b] {
        return false;
      }
      used := used[b := false];
      logged := logged + {Bitmap(g, b)};
      ok := true;
    }

    /** itrunc's loop over the direct blocks of file i of the volume v. */
    method FreeDirect(i: nat, ghost v: Vol) returns (ok: bool, addrs: seq<Word>)
      requires Valid() && V() == v && i < |inodes|
      modifies this`used, this`logged
      ensures ok && FreedUpTo(v, owner, used, i, NDIRECT, 0, false) && BitsLogged(g, old(used), used, logged)
      ensures |addrs| == NDIRECT + 1 && addrs[NDIRECT] == v.inodes[i].addrs[NDIRECT]
      ensures forall k :: 0 <= k < NDIRECT ==> addrs[k] == 0
    {
      hide Owned;
      OwnedShaped(g, v, owner);
      addrs := inodes[i].addrs;
      var d := 0;
      while d < NDIRECT
        invariant 0 <= d <= NDIRECT && |addrs| == NDIRECT + 1
        invariant forall k :: 0 <= k < |addrs| ==> addrs[k] == if k < d then 0 else v.inodes[i].addrs[k]
        invariant FreedUpTo(v, owner, used, i, d, 0, false) && BitsLogged(g, v.used, used, logged)
      {
        FreeSlot(g, v, owner, used, i, d, d, 0, d + 1, 0, false);
        if addrs[d] != 0 {
          ok := Bfree(addrs[d]);
          addrs := addrs[d := 0];
        }
        d := d + 1;
      }
      ok := true;
    }

    /** itrunc's loop over the indirect block a of file i, and then a itself. */
    method FreeIndirect(i: nat, a: Word, ghost v: Vol) returns (ok: bool)
      requires Owned(g, v, owner) && i < |v.inodes| && a == v.inodes[i].addrs[NDIRECT] != 0 && blocks == v.blocks
      requires FreedUpTo(v, owner, used, i, NDIRECT, 0, false)
      modifies this`used, this`logged
      ensures ok && FreedUpTo(v, owner, used, i, NDIRECT, NINDIRECT, true)
      ensures old(logged) <= logged && BitsLogged(g, old(used), used, logged)
    {
      hide Owned;
      IndirectThere(g, v, owner, i);
      var e := 0;
      while e < NINDIRECT
        invariant 0 <= e <= NINDIRECT && FreedUpTo(v, owner, used, i, NDIRECT, e, false)
        invariant old(logged) <= logged && BitsLogged(g, old(used), used, logged)
      {
        FreeSlot(g, v, owner, used, i, NDIRECT + 1 + e, NDIRECT, e, NDIRECT, e + 1, false);
        var w := GetWord(blocks[a], e);
        if w != 0 {
          ok := Bfree(w);
        }
        e := e + 1;
      }
      FreeSlot(g, v, owner, used, i, NDIRECT, NDIRECT, NINDIRECT, NDIRECT, NINDIRECT, true);
      ok := Bfree(a);
    }

    /** itrunc: every block of file i is freed, each exactly once, and no other. */
    method Itrunc(i: nat) returns (ok: bool)
      requires Valid() && Whole(V()) && i < |inodes|
      modifies this
      ensures ok && Valid() && Whole(V())
      ensures V() == Emptied(old(V()), used, i) && owner == Disowned(old(owner), i)
      ensures Ahead(g, old(V()), V(), i, logged)
      ensures forall b: nat :: b < g.size ==> (used[b] <==> old(used)[b] && !(b in old(owner) && old(owner)[b].0 == i))
      ensures forall j :: 0 <= j < |inodes| && j != i ==>
                inodes[j] == old(inodes)[j] && Content(inodes[j], blocks) == Content(old(inodes)[j], old(blocks))
    {
      ghost var v, own := V(), owner;
      var addrs;
      ok, addrs := FreeDirect(i, v);
      if addrs[NDIRECT] != 0 {
        ghost var u, l := used, logged;
        ok := FreeIndirect(i, addrs[NDIRECT], v);
        BitsTrans(g, v.used, u, used, l, logged);
        addrs := addrs[NDIRECT := 0];
      } else {
        NoIndirect(g, v, owner, used, i);
      }
      Truncated(g, v, own, used, i);
      inodes := inodes[i := Inode(inodes[i].kind, inodes[i].nlink, 0, addrs)];
      owner := Disowned(own, i);
      logged := logged + {i / IPB + g.inode};
      assert addrs == NoAddrs();
      assert V() == Emptied(v, used, i);
    }
  }
}
