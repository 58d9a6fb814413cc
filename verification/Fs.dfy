/** The block and inode layers of kernel/fs.c, as values: which blocks an inode reaches,
    what bytes it holds, and who owns each block. */
module FsSpec {
  import opened Blocks

  const NDIRECT: nat := 12
  const NINDIRECT: nat := 256
  const MAXFILE: nat := NDIRECT + NINDIRECT
  const SLOTS: nat := MAXFILE + 1
  const BPB: nat := 8192
  const IPB: nat := 16

  datatype Inode = Inode(kind: nat, nlink: nat, size: nat, addrs: seq<Word>)

  /** The superblock: sb.size, the first data block, sb.bmapstart, sb.inodestart. */
  datatype Geo = Geo(size: nat, data: nat, bmap: nat, inode: nat)

  /** The volume: free bitmap, block contents, inodes. */
  datatype Vol = Vol(used: seq<bool>, blocks: seq<Block>, inodes: seq<Inode>)

  predicate Shaped(g: Geo, v: Vol) {
    && 0 < g.data <= g.size <= 0x1_0000_0000
    && |v.used| == |v.blocks| == g.size
    && forall i :: 0 <= i < |v.inodes| ==> |v.inodes[i].addrs| == NDIRECT + 1
  }

  /** The places an inode keeps block numbers: slots 0 to NDIRECT are addrs, the last of
      which names the indirect block; the others are the entries of the indirect block. */
  function Slot(ino: Inode, blocks: seq<Block>, k: nat): (a: Word)
    requires |ino.addrs| == NDIRECT + 1 && k < SLOTS
  {
    if k <= NDIRECT then ino.addrs[k]
    else
      var a := ino.addrs[NDIRECT];
      if a == 0 || a >= |blocks| then 0 else GetWord(blocks[a], k - NDIRECT - 1)
  }

  function SlotOf(bn: nat): (k: nat) {
    if bn < NDIRECT then bn else bn + 1
  }

  /** The block holding block bn of the file, or 0. */
  function BlockOf(ino: Inode, blocks: seq<Block>, bn: nat): (a: Word)
    requires |ino.addrs| == NDIRECT + 1 && bn < MAXFILE
  {
    Slot(ino, blocks, SlotOf(bn))
  }

  /** Byte o of the file, whatever its size; a missing block reads as zeros. */
  function FileByte(ino: Inode, blocks: seq<Block>, o: nat): (b: Byte)
    requires |ino.addrs| == NDIRECT + 1 && o < MAXFILE * BSIZE
  {
    var a := BlockOf(ino, blocks, o / BSIZE);
    if a == 0 || a >= |blocks| then 0 else blocks[a][o % BSIZE]
  }

  function Content(ino: Inode, blocks: seq<Block>): (c: seq<Byte>)
    requires |ino.addrs| == NDIRECT + 1 && ino.size <= MAXFILE * BSIZE
  {
    seq(ino.size, o requires 0 <= o < ino.size => FileByte(ino, blocks, o))
  }

  /** Every block below the file's size is there. */
  ghost predicate NoHoles(ino: Inode, blocks: seq<Block>)
    requires |ino.addrs| == NDIRECT + 1
  {
    && ino.size <= MAXFILE * BSIZE
    && forall bn: nat :: bn < MAXFILE && bn * BSIZE < ino.size ==> BlockOf(ino, blocks, bn) != 0
  }

  // ---- ownership ------------------------------------------------------------------------

  /** The slot of inode i that owns each block in use. */
  type Owner = map<Word, (nat, nat)>

  ghost predicate SlotOk(v: Vol, owner: Owner, i: nat, k: nat)
    requires i < |v.inodes| && |v.inodes[i].addrs| == NDIRECT + 1 && k < SLOTS
  {
    var a := Slot(v.inodes[i], v.blocks, k);
    a != 0 ==> a in owner && owner[a] == (i, k)
  }

  ghost predicate BlockOk(g: Geo, v: Vol, owner: Owner, b: Word)
    requires Shaped(g, v) && b in owner
  {
    var (i, k) := owner[b];
    g.data <= b < g.size && v.used[b] && i < |v.inodes| && k < SLOTS && Slot(v.inodes[i], v.blocks, k) == b
  }

  /** Every slot's block is owned by that slot and no other; the bitmap marks exactly the
      metadata and the owned blocks. */
  ghost predicate Owned(g: Geo, v: Vol, owner: Owner) {
    && Shaped(g, v)
    && (forall i: nat, k: nat :: i < |v.inodes| && k < SLOTS ==> SlotOk(v, owner, i, k))
    && (forall b :: b in owner ==> BlockOk(g, v, owner, b))
    && (forall b: nat :: b < g.size ==> (v.used[b] <==> b < g.data || b in owner))
  }

  /** Two slots never name the same block, and what they name is in use. */
  lemma SlotsDistinct(g: Geo, v: Vol, owner: Owner, i: nat, k: nat, j: nat, l: nat)
    requires Owned(g, v, owner) && i < |v.inodes| && j < |v.inodes| && k < SLOTS && l < SLOTS
    requires Slot(v.inodes[i], v.blocks, k) == Slot(v.inodes[j], v.blocks, l) != 0
    ensures i == j && k == l
    ensures var a := Slot(v.inodes[i], v.blocks, k); g.data <= a < g.size && v.used[a]
  {
    assert SlotOk(v, owner, i, k) && SlotOk(v, owner, j, l);
    assert BlockOk(g, v, owner, Slot(v.inodes[i], v.blocks, k));
  }

  predicate Matched(v: Vol, w: Vol) {
    |w.inodes| == |v.inodes|
    && forall j :: 0 <= j < |v.inodes| ==> |v.inodes[j].addrs| == |w.inodes[j].addrs| == NDIRECT + 1
  }

  /** The slots of w are those of v, save that slot k of inode i, empty in v, names b in w. */
  ghost predicate Filled(v: Vol, w: Vol, i: nat, k: nat, b: Word)
    requires Matched(v, w)
  {
    forall j: nat, l: nat :: j < |v.inodes| && l < SLOTS ==>
      Slot(w.inodes[j], w.blocks, l) == if j == i && l == k then b else Slot(v.inodes[j], v.blocks, l)
  }

  lemma OwnedFill(g: Geo, v: Vol, w: Vol, owner: Owner, i: nat, k: nat, b: Word)
    requires Owned(g, v, owner) && Shaped(g, w) && Matched(v, w) && i < |v.inodes| && k < SLOTS
    requires Slot(v.inodes[i], v.blocks, k) == 0 && g.data <= b < g.size && !v.used[b]
    requires w.used == v.used[b := true] && Filled(v, w, i, k, b)
    ensures Owned(g, w, owner[b := (i, k)])
  {
    var o := owner[b := (i, k)];
    forall j: nat, l: nat | j < |w.inodes| && l < SLOTS ensures SlotOk(w, o, j, l) {
      assert SlotOk(v, owner, j, l);
    }
    forall c | c in o ensures BlockOk(g, w, o, c) {
      if c != b {
        assert BlockOk(g, v, owner, c);
        var j, l := owner[c].0, owner[c].1;
        assert Slot(w.inodes[j], w.blocks, l) == Slot(v.inodes[j], v.blocks, l);
      }
    }
  }

  // ---- the ways bmap fills a slot ----------------------------------------------------------

  /** No inode's indirect block is an unused block. */
  lemma FreeIsNotIndirect(g: Geo, v: Vol, owner: Owner, b: Word, j: nat)
    requires Owned(g, v, owner) && g.data <= b < g.size && !v.used[b] && j < |v.inodes|
    ensures v.inodes[j].addrs[NDIRECT] != b
  {
    assert SlotOk(v, owner, j, NDIRECT);
  }

  function WithAddrOf(ino: Inode, n: nat, b: Word): (r: Inode)
    requires n < |ino.addrs|
  {
    Inode(ino.kind, ino.nlink, ino.size, ino.addrs[n := b])
  }

  function WithAddr(v: Vol, i: nat, n: nat, b: Word): (w: Vol)
    requires i < |v.inodes| && n < |v.inodes[i].addrs|
  {
    Vol(v.used, v.blocks, v.inodes[i := WithAddrOf(v.inodes[i], n, b)])
  }

  /** The volume after balloc has returned b. */
  function Allocated(v: Vol, b: Word): (w: Vol)
    requires b < |v.used| == |v.blocks|
  {
    Vol(v.used[b := true], v.blocks[b := Zeros()], v.inodes)
  }

  /** Filling addrs[n], be it a data block or the indirect block. */
  lemma FillAddr(g: Geo, v: Vol, owner: Owner, i: nat, n: nat, b: Word)
    requires Owned(g, v, owner) && i < |v.inodes| && n <= NDIRECT && v.inodes[i].addrs[n] == 0
    requires g.data <= b < g.size && !v.used[b]
    ensures var w := WithAddr(Allocated(v, b), i, n, b);
            Shaped(g, w) && Matched(v, w) && Filled(v, w, i, n, b)
  {
    var w := WithAddr(Allocated(v, b), i, n, b);
    forall j: nat, l: nat | j < |v.inodes| && l < SLOTS
      ensures Slot(w.inodes[j], w.blocks, l) == if j == i && l == n then b else Slot(v.inodes[j], v.blocks, l)
    {
      FreeIsNotIndirect(g, v, owner, b, j);
      if l > NDIRECT {
        ZeroWord(l - NDIRECT - 1);
      }
    }
  }

  function WithEntry(v: Vol, a: Word, e: nat, b: Word): (w: Vol)
    requires a < |v.blocks| && e < NINDIRECT
  {
    Vol(v.used, v.blocks[a := SetWord(v.blocks[a], e, b)], v.inodes)
  }

  /** Filling entry e of the indirect block. */
  lemma FillEntry(g: Geo, v: Vol, owner: Owner, i: nat, e: nat, b: Word)
    requires Owned(g, v, owner) && i < |v.inodes| && e < NINDIRECT
    requires v.inodes[i].addrs[NDIRECT] != 0 && Slot(v.inodes[i], v.blocks, NDIRECT + 1 + e) == 0
    requires g.data <= b < g.size && !v.used[b]
    ensures var a := v.inodes[i].addrs[NDIRECT];
            && a < |v.blocks| && a != b
            && var w := WithEntry(Allocated(v, b), a, e, b);
               Shaped(g, w) && Matched(v, w) && Filled(v, w, i, NDIRECT + 1 + e, b)
  {
    var a := v.inodes[i].addrs[NDIRECT];
    assert SlotOk(v, owner, i, NDIRECT);
    assert BlockOk(g, v, owner, a);
    FreeIsNotIndirect(g, v, owner, b, i);
    var w := WithEntry(Allocated(v, b), a, e, b);
    forall j: nat, l: nat | j < |v.inodes| && l < SLOTS
      ensures Slot(w.inodes[j], w.blocks, l) ==
              if j == i && l == NDIRECT + 1 + e then b else Slot(v.inodes[j], v.blocks, l)
    {
      FreeIsNotIndirect(g, v, owner, b, j);
      if l > NDIRECT {
        SetGetWord(v.blocks[a], e, b, l - NDIRECT - 1);
        if j != i {
          assert SlotOk(v, owner, j, NDIRECT);
        }
      }
    }
  }

  /** No file's bytes change when an empty slot gets a zeroed block: `x`, the only other
      block to change, is an indirect block or b itself. */
  lemma BytesKept(g: Geo, v: Vol, w: Vol, owner: Owner, i: nat, k: nat, b: Word, x: Word, j: nat, o: nat)
    requires Owned(g, v, owner) && Shaped(g, w) && Matched(v, w) && i < |v.inodes| && k < SLOTS
    requires Slot(v.inodes[i], v.blocks, k) == 0 && g.data <= b < g.size && !v.used[b] && Filled(v, w, i, k, b)
    requires x == b || (x in owner && owner[x].1 == NDIRECT)
    requires w.blocks[b] == Zeros()
    requires forall c :: 0 <= c < g.size && c != b && c != x ==> w.blocks[c] == v.blocks[c]
    requires j < |v.inodes| && o < MAXFILE * BSIZE
    ensures FileByte(w.inodes[j], w.blocks, o) == FileByte(v.inodes[j], v.blocks, o)
  {
    var l := SlotOf(o / BSIZE);
    assert l != NDIRECT;
    assert SlotOk(v, owner, j, l);
    var a := Slot(v.inodes[j], v.blocks, l);
    assert Slot(w.inodes[j], w.blocks, l) == if j == i && l == k then b else a;
    if a != 0 {
      assert BlockOk(g, v, owner, a);
    }
  }

  lemma AllBytesKept(g: Geo, v: Vol, w: Vol, owner: Owner, i: nat, k: nat, b: Word, x: Word)
    requires Owned(g, v, owner) && Shaped(g, w) && Matched(v, w) && i < |v.inodes| && k < SLOTS
    requires Slot(v.inodes[i], v.blocks, k) == 0 && g.data <= b < g.size && !v.used[b] && Filled(v, w, i, k, b)
    requires x == b || (x in owner && owner[x].1 == NDIRECT)
    requires w.blocks[b] == Zeros()
    requires forall c :: 0 <= c < g.size && c != b && c != x ==> w.blocks[c] == v.blocks[c]
    ensures SameBytes(v, w)
  {
    hide Owned, Shaped, Filled, FileByte, Slot;
    forall j: nat, o: nat | j < |v.inodes| && o < MAXFILE * BSIZE
      ensures FileByte(w.inodes[j], w.blocks, o) == FileByte(v.inodes[j], v.blocks, o)
    {
      BytesKept(g, v, w, owner, i, k, b, x, j, o);
    }
  }

  /** Inode i may have filled empty slots; otherwise inodes are as they were. */
  ghost predicate Grown(v: Vol, w: Vol, i: nat)
    requires Matched(v, w)
  {
    && i < |v.inodes|
    && (forall j :: 0 <= j < |v.inodes| && j != i ==> w.inodes[j] == v.inodes[j])
    && w.inodes[i].size == v.inodes[i].size && w.inodes[i].kind == v.inodes[i].kind
    && w.inodes[i].nlink == v.inodes[i].nlink
    && (forall j: nat, l: nat :: j < |v.inodes| && l < SLOTS && Slot(v.inodes[j], v.blocks, l) != 0 ==>
          Slot(w.inodes[j], w.blocks, l) == Slot(v.inodes[j], v.blocks, l))
  }

  lemma GrownTrans(u: Vol, v: Vol, w: Vol, i: nat)
    requires Matched(u, v) && Matched(v, w) && Grown(u, v, i) && Grown(v, w, i)
    ensures Matched(u, w) && Grown(u, w, i)
  {
    forall j: nat, l: nat | j < |u.inodes| && l < SLOTS && Slot(u.inodes[j], u.blocks, l) != 0
      ensures Slot(w.inodes[j], w.blocks, l) == Slot(u.inodes[j], u.blocks, l)
    {
      assert Slot(v.inodes[j], v.blocks, l) == Slot(u.inodes[j], u.blocks, l);
    }
  }

  lemma GrownNoHoles(v: Vol, w: Vol, i: nat, j: nat)
    requires Matched(v, w) && Grown(v, w, i) && j < |v.inodes| && NoHoles(v.inodes[j], v.blocks)
    ensures NoHoles(w.inodes[j], w.blocks)
  {
    forall bn: nat | bn < MAXFILE && bn * BSIZE < w.inodes[j].size ensures BlockOf(w.inodes[j], w.blocks, bn) != 0 {
      assert BlockOf(v.inodes[j], v.blocks, bn) != 0;
    }
  }

  ghost predicate SameBytes(v: Vol, w: Vol)
    requires Matched(v, w)
  {
    forall j: nat, o: nat :: j < |v.inodes| && o < MAXFILE * BSIZE ==>
      FileByte(w.inodes[j], w.blocks, o) == FileByte(v.inodes[j], v.blocks, o)
  }

  lemma SameBytesTrans(u: Vol, v: Vol, w: Vol)
    requires Matched(u, v) && Matched(v, w) && SameBytes(u, v) && SameBytes(v, w)
    ensures Matched(u, w) && SameBytes(u, w)
  {
    forall j: nat, o: nat | j < |u.inodes| && o < MAXFILE * BSIZE
      ensures FileByte(w.inodes[j], w.blocks, o) == FileByte(u.inodes[j], u.blocks, o)
    {
      assert FileByte(v.inodes[j], v.blocks, o) == FileByte(u.inodes[j], u.blocks, o);
    }
  }

  // ---- writing a data block ------------------------------------------------------------------

  function WithBlock(v: Vol, x: Word, d: Block): (w: Vol)
    requires x < |v.blocks|
  {
    Vol(v.used, v.blocks[x := d], v.inodes)
  }

  /** Replacing the block behind block bn of file i changes those bytes of that file alone. */
  lemma DataWritten(g: Geo, v: Vol, owner: Owner, i: nat, bn: nat, d: Block, j: nat, l: nat)
    requires Owned(g, v, owner) && i < |v.inodes| && bn < MAXFILE && BlockOf(v.inodes[i], v.blocks, bn) != 0
    requires j < |v.inodes| && l < SLOTS
    ensures var x := BlockOf(v.inodes[i], v.blocks, bn);
            && x < |v.blocks|
            && Slot(v.inodes[j], WithBlock(v, x, d).blocks, l) == Slot(v.inodes[j], v.blocks, l)
            && (l != NDIRECT && Slot(v.inodes[j], v.blocks, l) == x ==> j == i && l == SlotOf(bn))
  {
    var x := BlockOf(v.inodes[i], v.blocks, bn);
    assert SlotOk(v, owner, i, SlotOf(bn)) && SlotOk(v, owner, j, NDIRECT) && SlotOk(v, owner, j, l);
    assert BlockOk(g, v, owner, x);
  }

  lemma OwnedWritten(g: Geo, v: Vol, owner: Owner, i: nat, bn: nat, d: Block)
    requires Owned(g, v, owner) && i < |v.inodes| && bn < MAXFILE && BlockOf(v.inodes[i], v.blocks, bn) != 0
    ensures var x := BlockOf(v.inodes[i], v.blocks, bn);
            x < |v.blocks| && Owned(g, WithBlock(v, x, d), owner)
  {
    var x := BlockOf(v.inodes[i], v.blocks, bn);
    DataWritten(g, v, owner, i, bn, d, i, 0);
    var w := WithBlock(v, x, d);
    forall j: nat, l: nat | j < |w.inodes| && l < SLOTS ensures SlotOk(w, owner, j, l) {
      assert SlotOk(v, owner, j, l);
      DataWritten(g, v, owner, i, bn, d, j, l);
    }
    forall c | c in owner ensures BlockOk(g, w, owner, c) {
      assert BlockOk(g, v, owner, c);
      DataWritten(g, v, owner, i, bn, d, owner[c].0, owner[c].1);
    }
  }

  lemma ByteWritten(g: Geo, v: Vol, owner: Owner, i: nat, bn: nat, d: Block, j: nat, o: nat)
    requires Owned(g, v, owner) && i < |v.inodes| && bn < MAXFILE && BlockOf(v.inodes[i], v.blocks, bn) != 0
    requires j < |v.inodes| && o < MAXFILE * BSIZE
    ensures var x := BlockOf(v.inodes[i], v.blocks, bn);
            && x < |v.blocks|
            && FileByte(v.inodes[j], WithBlock(v, x, d).blocks, o) ==
               if j == i && o / BSIZE == bn then d[o % BSIZE] else FileByte(v.inodes[j], v.blocks, o)
  {
    DataWritten(g, v, owner, i, bn, d, j, SlotOf(o / BSIZE));
  }

  // ---- writing a range of bytes ------------------------------------------------------------------

  function Patch(b: Block, at: nat, bytes: seq<Byte>): (d: Block)
    requires at + |bytes| <= BSIZE
  {
    b[..at] + bytes + b[at + |bytes|..]
  }

  /** The files of w are those of v with data[..tot] put at `off` in file i. */
  ghost predicate Spliced(v: Vol, w: Vol, i: nat, off: nat, data: seq<Byte>, tot: nat)
    requires Matched(v, w) && tot <= |data|
  {
    forall j: nat, o: nat :: j < |v.inodes| && o < MAXFILE * BSIZE ==>
      FileByte(w.inodes[j], w.blocks, o) ==
      if j == i && off <= o < off + tot then data[o - off] else FileByte(v.inodes[j], v.blocks, o)
  }

  /** One block's worth of a write, after bmap. */
  lemma SpliceBlock(g: Geo, v: Vol, x: Vol, owner: Owner, i: nat, off: nat, bytes: seq<Byte>)
    requires Matched(v, x) && SameBytes(v, x) && Owned(g, x, owner) && i < |v.inodes|
    requires off < MAXFILE * BSIZE && off % BSIZE + |bytes| <= BSIZE
    requires BlockOf(x.inodes[i], x.blocks, off / BSIZE) != 0
    ensures var a := BlockOf(x.inodes[i], x.blocks, off / BSIZE);
            && a < |x.blocks|
            && var y := WithBlock(x, a, Patch(x.blocks[a], off % BSIZE, bytes));
               Matched(v, y) && Spliced(v, y, i, off, bytes, |bytes|)
  {
    var bn, at := off / BSIZE, off % BSIZE;
    var a := BlockOf(x.inodes[i], x.blocks, bn);
    OwnedWritten(g, x, owner, i, bn, Zeros());
    var d := Patch(x.blocks[a], at, bytes);
    var y := WithBlock(x, a, d);
    forall j: nat, o: nat | j < |v.inodes| && o < MAXFILE * BSIZE
      ensures FileByte(y.inodes[j], y.blocks, o) ==
              if j == i && off <= o < off + |bytes| then bytes[o - off] else FileByte(v.inodes[j], v.blocks, o)
    {
      ByteWritten(g, x, owner, i, bn, d, j, o);
      assert FileByte(x.inodes[j], x.blocks, o) == FileByte(v.inodes[j], v.blocks, o);
      if j == i && o / BSIZE == bn {
        assert o == bn * BSIZE + o % BSIZE && off == bn * BSIZE + at;
        PatchAt(x.blocks[a], at, bytes, o % BSIZE);
      }
    }
  }

  /** Two adjoining writes make one. */
  lemma SpliceTrans(v: Vol, w: Vol, y: Vol, i: nat, off: nat, data: seq<Byte>, tot: nat, m: nat)
    requires Matched(v, w) && Matched(w, y) && tot + m <= |data|
    requires Spliced(v, w, i, off, data, tot) && Spliced(w, y, i, off + tot, data[tot..tot + m], m)
    ensures Matched(v, y) && Spliced(v, y, i, off, data, tot + m)
  {
    forall j: nat, o: nat | j < |v.inodes| && o < MAXFILE * BSIZE
      ensures FileByte(y.inodes[j], y.blocks, o) ==
              if j == i && off <= o < off + (tot + m) then data[o - off] else FileByte(v.inodes[j], v.blocks, o)
    {
      assert FileByte(w.inodes[j], w.blocks, o) ==
             if j == i && off <= o < off + tot then data[o - off] else FileByte(v.inodes[j], v.blocks, o);
    }
  }

  lemma PatchAt(b: Block, at: nat, bytes: seq<Byte>, k: nat)
    requires at + |bytes| <= BSIZE && k < BSIZE
    ensures Patch(b, at, bytes)[k] == if at <= k < at + |bytes| then bytes[k - at] else b[k]
  {
  }

  /** A file's contents after `data` replaced what was at `off`, growing the file if need be. */
  function Splice(c: seq<Byte>, off: nat, data: seq<Byte>): (r: seq<Byte>)
    requires off <= |c|
  {
    if off + |data| <= |c| then c[..off] + data + c[off + |data|..] else c[..off] + data
  }

  /** The same, when the file has grown by less than was spliced in. */
  lemma SpliceContent(v: Vol, w: Vol, i: nat, off: nat, data: seq<Byte>)
    requires Matched(v, w) && i < |v.inodes| && Spliced(v, w, i, off, data, |data|)
    requires v.inodes[i].size <= MAXFILE * BSIZE && off <= v.inodes[i].size && off + |data| <= MAXFILE * BSIZE
    requires v.inodes[i].size <= w.inodes[i].size
             && (w.inodes[i].size <= v.inodes[i].size || w.inodes[i].size <= off + |data|)
    ensures |Splice(Content(v.inodes[i], v.blocks), off, data)| >= w.inodes[i].size
    ensures Content(w.inodes[i], w.blocks) == Splice(Content(v.inodes[i], v.blocks), off, data)[..w.inodes[i].size]
  {
    var c, r := Content(v.inodes[i], v.blocks), Content(w.inodes[i], w.blocks);
    SpliceLength(c, off, data);
    forall o: nat | o < |r| ensures r[o] == Splice(c, off, data)[o] {
      SpliceAt(c, off, data, o);
      assert FileByte(w.inodes[i], w.blocks, o) ==
             if off <= o < off + |data| then data[o - off] else FileByte(v.inodes[i], v.blocks, o);
    }
  }

  lemma SpliceLength(c: seq<Byte>, off: nat, data: seq<Byte>)
    requires off <= |c|
    ensures |Splice(c, off, data)| == if off + |data| > |c| then off + |data| else |c|
  {
  }

  lemma SpliceAt(c: seq<Byte>, off: nat, data: seq<Byte>, o: nat)
    requires off <= |c| && o < |Splice(c, off, data)|
    ensures !(off <= o < off + |data|) ==> o < |c|
    ensures Splice(c, off, data)[o] == if off <= o < off + |data| then data[o - off] else c[o]
  {
  }

  lemma SpliceOther(v: Vol, w: Vol, i: nat, off: nat, data: seq<Byte>, j: nat)
    requires Matched(v, w) && i < |v.inodes| && Spliced(v, w, i, off, data, |data|)
    requires j < |v.inodes| && j != i && w.inodes[j] == v.inodes[j] && v.inodes[j].size <= MAXFILE * BSIZE
    ensures Content(w.inodes[j], w.blocks) == Content(v.inodes[j], v.blocks)
  {
    var c, r := Content(v.inodes[j], v.blocks), Content(w.inodes[j], w.blocks);
    forall o | 0 <= o < |r| ensures r[o] == c[o] {
    }
  }

  /** Every block that meets bytes off to off + tot of the file is there. */
  ghost predicate Covered(ino: Inode, blocks: seq<Block>, off: nat, tot: nat)
    requires |ino.addrs| == NDIRECT + 1
  {
    forall bn: nat :: bn < MAXFILE && off / BSIZE <= bn && bn * BSIZE < off + tot ==> BlockOf(ino, blocks, bn) != 0
  }

  lemma CoveredStep(w: Vol, y: Vol, i: nat, off: nat, tot: nat, m: nat)
    requires Matched(w, y) && Grown(w, y, i) && Covered(w.inodes[i], w.blocks, off, tot)
    requires off + tot < MAXFILE * BSIZE && (off + tot) % BSIZE + m <= BSIZE
    requires BlockOf(y.inodes[i], y.blocks, (off + tot) / BSIZE) != 0
    ensures Covered(y.inodes[i], y.blocks, off, tot + m)
  {
    forall bn: nat | bn < MAXFILE && off / BSIZE <= bn && bn * BSIZE < off + (tot + m)
      ensures BlockOf(y.inodes[i], y.blocks, bn) != 0
    {
      if bn * BSIZE < off + tot {
        assert BlockOf(w.inodes[i], w.blocks, bn) != 0;
      } else {
        assert bn == (off + tot) / BSIZE;
      }
    }
  }

  lemma CoveredNoHoles(v: Vol, w: Vol, i: nat, off: nat, n: nat, size: nat)
    requires Matched(v, w) && Grown(v, w, i) && NoHoles(v.inodes[i], v.blocks) && off <= v.inodes[i].size
    requires Covered(w.inodes[i], w.blocks, off, n) && off + n <= MAXFILE * BSIZE
    requires size == if off + n > v.inodes[i].size then off + n else v.inodes[i].size
    ensures NoHoles(w.inodes[i].(size := size), w.blocks)
  {
    var ino := w.inodes[i].(size := size);
    forall bn: nat | bn < MAXFILE && bn * BSIZE < size ensures BlockOf(ino, w.blocks, bn) != 0 {
      if bn * BSIZE < v.inodes[i].size {
        assert BlockOf(v.inodes[i], v.blocks, bn) != 0;
      } else {
        assert BlockOf(w.inodes[i], w.blocks, bn) != 0;
      }
    }
  }

  function Resized(v: Vol, i: nat, size: nat): (w: Vol)
    requires i < |v.inodes|
  {
    Vol(v.used, v.blocks, v.inodes[i := v.inodes[i].(size := size)])
  }

  lemma ResizedKeeps(g: Geo, v: Vol, owner: Owner, i: nat, size: nat)
    requires Owned(g, v, owner) && i < |v.inodes|
    ensures Owned(g, Resized(v, i, size), owner) && Matched(v, Resized(v, i, size)) && SameBytes(v, Resized(v, i, size))
  {
    var w := Resized(v, i, size);
    forall j: nat, l: nat | j < |v.inodes| && l < SLOTS
      ensures Slot(w.inodes[j], w.blocks, l) == Slot(v.inodes[j], v.blocks, l) && SlotOk(w, owner, j, l)
    {
      assert SlotOk(v, owner, j, l);
    }
    forall b | b in owner ensures BlockOk(g, w, owner, b) {
      assert BlockOk(g, v, owner, b);
      assert Slot(w.inodes[owner[b].0], w.blocks, owner[b].1) == b;
    }
  }

  lemma SpliceSame(v: Vol, w: Vol, y: Vol, i: nat, off: nat, data: seq<Byte>, tot: nat)
    requires Matched(v, w) && Matched(w, y) && tot <= |data| && Spliced(v, w, i, off, data, tot) && SameBytes(w, y)
    ensures Matched(v, y) && Spliced(v, y, i, off, data, tot)
  {
    forall j: nat, o: nat | j < |v.inodes| && o < MAXFILE * BSIZE
      ensures FileByte(y.inodes[j], y.blocks, o) ==
              if j == i && off <= o < off + tot then data[o - off] else FileByte(v.inodes[j], v.blocks, o)
    {
      assert FileByte(y.inodes[j], y.blocks, o) == FileByte(w.inodes[j], w.blocks, o);
    }
  }

  /** Writing a then b right after it is writing a + b. */
  lemma SpliceConcat(c: seq<Byte>, off: nat, a: seq<Byte>, b: seq<Byte>)
    requires off <= |c|
    ensures off + |a| <= |Splice(c, off, a)|
    ensures Splice(Splice(c, off, a), off + |a|, b) == Splice(c, off, a + b)
  {
    var s, t := Splice(c, off, a), Splice(c, off, a + b);
    SpliceLength(c, off, a);
    SpliceLength(c, off, a + b);
    SpliceLength(s, off + |a|, b);
    var r := Splice(s, off + |a|, b);
    forall o: nat | o < |t| ensures r[o] == t[o] {
      SpliceAt(c, off, a + b, o);
      SpliceAt(s, off + |a|, b, o);
      if !(off + |a| <= o < off + |a| + |b|) {
        SpliceAt(c, off, a, o);
      }
    }
  }

  /** What readi promises: the bytes of the file in the range asked for. */
  function Slice(c: seq<Byte>, off: nat, n: nat): (r: seq<Byte>) {
    if off > |c| then [] else if off + n > |c| then c[off..] else c[off..off + n]
  }

  /** No file has a hole below its size. */
  ghost predicate Whole(v: Vol) {
    forall j :: 0 <= j < |v.inodes| ==> |v.inodes[j].addrs| == NDIRECT + 1 && NoHoles(v.inodes[j], v.blocks)
  }

  /** w is v with data spliced into file i at off, and no other file changed. */
  ghost predicate Written(v: Vol, w: Vol, i: nat, off: nat, data: seq<Byte>) {
    && Matched(v, w) && Whole(v) && Whole(w) && i < |v.inodes| && off <= v.inodes[i].size
    && Content(w.inodes[i], w.blocks) == Splice(Content(v.inodes[i], v.blocks), off, data)
    && forall j :: 0 <= j < |v.inodes| && j != i ==>
         w.inodes[j] == v.inodes[j] && Content(w.inodes[j], w.blocks) == Content(v.inodes[j], v.blocks)
  }

  /** As Written, but the file ends no later than after tot bytes of data, unless it was longer. */
  ghost predicate Torn(v: Vol, w: Vol, i: nat, off: nat, data: seq<Byte>, tot: nat) {
    && Matched(v, w) && Whole(v) && Whole(w) && i < |v.inodes| && off <= v.inodes[i].size && tot <= |data|
    && w.inodes[i].size == (if off + tot > v.inodes[i].size then off + tot else v.inodes[i].size)
    && w.inodes[i].size <= |Splice(Content(v.inodes[i], v.blocks), off, data)|
    && Content(w.inodes[i], w.blocks) == Splice(Content(v.inodes[i], v.blocks), off, data)[..w.inodes[i].size]
    && forall j :: 0 <= j < |v.inodes| && j != i ==>
         w.inodes[j] == v.inodes[j] && Content(w.inodes[j], w.blocks) == Content(v.inodes[j], v.blocks)
  }

  lemma TornWhole(v: Vol, w: Vol, i: nat, off: nat, data: seq<Byte>)
    requires Torn(v, w, i, off, data, |data|)
    ensures Written(v, w, i, off, data)
  {
    hide Content;
    ContentLength(v.inodes[i], v.blocks);
    SpliceLength(Content(v.inodes[i], v.blocks), off, data);
  }

  lemma WrittenTrans(u: Vol, v: Vol, w: Vol, i: nat, off: nat, a: seq<Byte>, b: seq<Byte>)
    requires Written(u, v, i, off, a) && Written(v, w, i, off + |a|, b)
    ensures Written(u, w, i, off, a + b)
  {
    SpliceConcat(Content(u.inodes[i], u.blocks), off, a, b);
  }

  lemma WrittenNothing(v: Vol, i: nat, off: nat)
    requires Whole(v) && i < |v.inodes| && off <= v.inodes[i].size
    ensures Written(v, v, i, off, [])
  {
    var c := Content(v.inodes[i], v.blocks);
    SpliceLength(c, off, []);
    forall o: nat | o < |c| ensures Splice(c, off, [])[o] == c[o] {
      SpliceAt(c, off, [], o);
    }
  }

  lemma WrittenLength(v: Vol, w: Vol, i: nat, off: nat, data: seq<Byte>)
    requires Written(v, w, i, off, data)
    ensures Whole(w) && i < |w.inodes| && off + |data| <= w.inodes[i].size <= MAXFILE * BSIZE
  {
    SpliceLength(Content(v.inodes[i], v.blocks), off, data);
  }

  lemma ContentLength(ino: Inode, blocks: seq<Block>)
    requires |ino.addrs| == NDIRECT + 1 && ino.size <= MAXFILE * BSIZE
    ensures |Content(ino, blocks)| == ino.size
  {
  }

  lemma OwnedShaped(g: Geo, v: Vol, owner: Owner)
    requires Owned(g, v, owner)
    ensures Shaped(g, v)
  {
  }

  // ---- reading, and truncating ------------------------------------------------------------------

  /** The bytes of one block of the file, as they lie in its contents. */
  lemma ReadBlock(v: Vol, i: nat, off: nat, m: nat)
    requires i < |v.inodes| && |v.inodes[i].addrs| == NDIRECT + 1 && v.inodes[i].size <= MAXFILE * BSIZE
    requires off + m <= v.inodes[i].size && off % BSIZE + m <= BSIZE && m > 0
    requires 0 < BlockOf(v.inodes[i], v.blocks, off / BSIZE) < |v.blocks|
    ensures v.blocks[BlockOf(v.inodes[i], v.blocks, off / BSIZE)][off % BSIZE..off % BSIZE + m]
            == Content(v.inodes[i], v.blocks)[off..off + m]
  {
    var a, c := BlockOf(v.inodes[i], v.blocks, off / BSIZE), Content(v.inodes[i], v.blocks);
    var part, rest := v.blocks[a][off % BSIZE..off % BSIZE + m], c[off..off + m];
    forall k | 0 <= k < m ensures part[k] == rest[k] {
      assert (off + k) / BSIZE == off / BSIZE && (off + k) % BSIZE == off % BSIZE + k;
      assert c[off + k] == FileByte(v.inodes[i], v.blocks, off + k);
    }
  }

  /** Which slots of the file itrunc has freed: the first d direct ones, then the first e
      entries of the indirect block, then the indirect block. */
  predicate FreedSlot(k: nat, d: nat, e: nat, all: bool) {
    k < d || (NDIRECT < k < NDIRECT + 1 + e) || (all && k == NDIRECT)
  }

  /** The bitmap when those slots of inode i have been freed. */
  ghost predicate FreedUpTo(v: Vol, owner: Owner, used: seq<bool>, i: nat, d: nat, e: nat, all: bool) {
    && |used| == |v.used|
    && forall b: nat :: b < |used| ==>
         (used[b] <==> v.used[b] && !(b in owner && owner[b].0 == i && FreedSlot(owner[b].1, d, e, all)))
  }

  /** Freeing the block in slot k, once the slots before it are done. */
  lemma FreeSlot(g: Geo, v: Vol, owner: Owner, used: seq<bool>, i: nat, k: nat, d: nat, e: nat, d': nat, e': nat,
                 all': bool)
    requires Owned(g, v, owner) && i < |v.inodes| && k < SLOTS && FreedUpTo(v, owner, used, i, d, e, false)
    requires forall l: nat :: l < SLOTS ==> (FreedSlot(l, d', e', all') <==> FreedSlot(l, d, e, false) || l == k)
    requires !FreedSlot(k, d, e, false)
    ensures var a := Slot(v.inodes[i], v.blocks, k);
            if a == 0 then FreedUpTo(v, owner, used, i, d', e', all')
            else a < |used| && used[a] && FreedUpTo(v, owner, used[a := false], i, d', e', all')
  {
    var a := Slot(v.inodes[i], v.blocks, k);
    assert SlotOk(v, owner, i, k);
    if a != 0 {
      assert BlockOk(g, v, owner, a);
    }
    var used' := if a == 0 || a >= |used| then used else used[a := false];
    forall b: nat | b < |used|
      ensures used'[b] <==> v.used[b] && !(b in owner && owner[b].0 == i && FreedSlot(owner[b].1, d', e', all'))
    {
      if b in owner {
        assert BlockOk(g, v, owner, b);
      }
    }
  }

  /** The owners left when inode i owns nothing. */
  ghost function Disowned(owner: Owner, i: nat): (r: Owner) {
    map b | b in owner && owner[b].0 != i :: owner[b]
  }

  function NoAddrs(): (a: seq<Word>)
    ensures |a| == NDIRECT + 1 && forall k :: 0 <= k < |a| ==> a[k] == 0
  {
    seq(NDIRECT + 1, _ => 0)
  }

  function Emptied(v: Vol, used: seq<bool>, i: nat): (w: Vol)
    requires i < |v.inodes|
  {
    Vol(used, v.blocks, v.inodes[i := Inode(v.inodes[i].kind, v.inodes[i].nlink, 0, NoAddrs())])
  }

  /** itrunc's outcome: exactly inode i's blocks are free again, and no other file changes. */
  lemma Truncated(g: Geo, v: Vol, owner: Owner, used: seq<bool>, i: nat)
    requires Owned(g, v, owner) && Whole(v) && i < |v.inodes| && FreedUpTo(v, owner, used, i, NDIRECT, NINDIRECT, true)
    ensures Owned(g, Emptied(v, used, i), Disowned(owner, i)) && Whole(Emptied(v, used, i))
    ensures forall j :: 0 <= j < |v.inodes| && j != i ==>
              Content(Emptied(v, used, i).inodes[j], v.blocks) == Content(v.inodes[j], v.blocks)
  {
    var w, o := Emptied(v, used, i), Disowned(owner, i);
    forall j: nat, l: nat | j < |w.inodes| && l < SLOTS ensures SlotOk(w, o, j, l) {
      assert SlotOk(v, owner, j, l);
    }
    forall b | b in o ensures BlockOk(g, w, o, b) {
      assert BlockOk(g, v, owner, b);
    }
    forall b: nat | b < g.size ensures w.used[b] <==> b < g.data || b in o {
      if b in owner {
        assert BlockOk(g, v, owner, b);
      }
    }
  }

  /** The volume after iput has freed inode i. */
  function Freed(v: Vol, used: seq<bool>, i: nat): (w: Vol)
    requires i < |v.inodes|
  {
    Vol(used, v.blocks, v.inodes[i := Inode(0, v.inodes[i].nlink, 0, NoAddrs())])
  }

  lemma FreedKeeps(g: Geo, v: Vol, used: seq<bool>, owner: Owner, i: nat)
    requires i < |v.inodes| && Owned(g, Emptied(v, used, i), owner) && Whole(Emptied(v, used, i))
    ensures Owned(g, Freed(v, used, i), owner) && Whole(Freed(v, used, i))
  {
    var w, y := Emptied(v, used, i), Freed(v, used, i);
    assert forall j :: 0 <= j < |w.inodes| ==>
             y.inodes[j].addrs == w.inodes[j].addrs && y.inodes[j].size == w.inodes[j].size;
    forall j: nat, l: nat | j < |w.inodes| && l < SLOTS ensures SlotOk(y, owner, j, l) {
      assert SlotOk(w, owner, j, l);
    }
    forall b | b in owner ensures BlockOk(g, y, owner, b) {
      assert BlockOk(g, w, owner, b);
      assert y.inodes[owner[b].0].addrs == w.inodes[owner[b].0].addrs;
    }
    forall j | 0 <= j < |y.inodes| ensures NoHoles(y.inodes[j], y.blocks) {
      assert NoHoles(w.inodes[j], w.blocks);
    }
  }

  /** What was written is what is read back. */
  lemma ReadBack(v: Vol, w: Vol, i: nat, off: nat, data: seq<Byte>)
    requires Written(v, w, i, off, data)
    ensures Slice(Content(w.inodes[i], w.blocks), off, |data|) == data
  {
    hide Content;
    var c, r := Content(v.inodes[i], v.blocks), Content(w.inodes[i], w.blocks);
    ContentLength(v.inodes[i], v.blocks);
    SpliceLength(c, off, data);
    forall k: nat | k < |data| ensures r[off + k] == data[k] {
      SpliceAt(c, off, data, off + k);
    }
    assert r[off..off + |data|] == data;
  }
}
