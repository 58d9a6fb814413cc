/** A disk on which one write uses up its whole reservation. Laid out as mkfs does: 8155
    inode blocks, four bitmap blocks, then data. File 0 has twelve direct blocks, the last of
    them one byte short of full; 61 files of the greatest size own every other data block,
    save the last of the first bitmap block, the first of the second, the last of the third
    and the first of the fourth. */
module FsImage {
  import opened Blocks
  import opened FsSpec
  import opened FsBudget

  const GEO: Geo := Geo(24616, 8191, 8187, 32)
  const FILES: nat := 62
  const OWNED: nat := 16421

  /** The owned blocks in order: number t, and which number b is. */
  function Num(t: nat): (b: Word)
    requires t < OWNED
  {
    if t < 16382 then t + 8193 else t + 8195
  }

  predicate Taken(b: nat) {
    8193 <= b < 24575 || 24577 <= b < 24616
  }

  function Rank(b: nat): (t: nat)
    requires Taken(b)
    ensures t < OWNED && Num(t) == b
  {
    if b < 24575 then b - 8193 else b - 8195
  }

  /** Owned blocks go to slots in order: number t goes to slot k of file i. */
  predicate Filled(i: nat, k: nat) {
    i < FILES && k < SLOTS && (i == 0 ==> k < NDIRECT)
  }

  function At(i: nat, k: nat): (t: nat)
    requires Filled(i, k)
    ensures t < OWNED
  {
    if i == 0 then k else NDIRECT + (i - 1) * SLOTS + k
  }

  function Place(t: nat): (s: (nat, nat))
    requires t < OWNED
    ensures Filled(s.0, s.1) && At(s.0, s.1) == t
  {
    if t < NDIRECT then (0, t) else ((t - NDIRECT) / SLOTS + 1, (t - NDIRECT) % SLOTS)
  }

  lemma PlaceAt(i: nat, k: nat)
    requires Filled(i, k)
    ensures Place(At(i, k)) == (i, k) && Taken(Num(At(i, k))) && Rank(Num(At(i, k))) == At(i, k)
  {
    if i > 0 {
      assert ((i - 1) * SLOTS + k) / SLOTS == i - 1;
    }
  }

  function Entry(i: nat, k: nat): (b: Word) {
    if Filled(i, k) then Num(At(i, k)) else 0
  }

  /** The first n entries of file i's indirect block. */
  function Packed(i: nat, n: nat): (b: Block)
    requires n <= NINDIRECT
  {
    if n == 0 then Zeros() else SetWord(Packed(i, n - 1), n - 1, Entry(i, NDIRECT + n))
  }

  lemma {:induction false} PackedAt(i: nat, n: nat, e: nat)
    requires e < n <= NINDIRECT
    ensures GetWord(Packed(i, n), e) == Entry(i, NDIRECT + 1 + e)
  {
    hide SetWord, GetWord, Entry;
    SetGetWord(Packed(i, n - 1), n - 1, Entry(i, NDIRECT + n), e);
    if e < n - 1 {
      PackedAt(i, n - 1, e);
    }
  }

  function FileOf(i: nat): (ino: Inode)
    ensures |ino.addrs| == NDIRECT + 1
  {
    Inode(2, 1, if i == 0 then NDIRECT * BSIZE - 1 else MAXFILE * BSIZE,
        seq(NDIRECT + 1, k requires 0 <= k => Entry(i, k)))
  }

  function BlockAt(b: nat): (d: Block) {
    if Taken(b) && Place(Rank(b)).1 == NDIRECT then Packed(Place(Rank(b)).0, NINDIRECT) else Zeros()
  }

  function Image(): (v: Vol) {
    Vol(seq(GEO.size, b requires 0 <= b => b < GEO.data || Taken(b)),
        seq(GEO.size, b requires 0 <= b => BlockAt(b)),
        seq(FILES, i requires 0 <= i => FileOf(i)))
  }

  ghost function Owners(): (o: Owner) {
    map b: Word | GEO.data <= b < GEO.size && Taken(b) :: Place(Rank(b))
  }

  lemma SlotIs(i: nat, k: nat)
    requires i < FILES && k < SLOTS
    ensures Slot(FileOf(i), Image().blocks, k) == Entry(i, k)
  {
    hide GetWord, Packed;
    if k > NDIRECT && i > 0 {
      PlaceAt(i, NDIRECT);
      var a := Num(At(i, NDIRECT));
      assert FileOf(i).addrs[NDIRECT] == a;
      assert Image().blocks[a] == BlockAt(a) == Packed(i, NINDIRECT);
      PackedAt(i, NINDIRECT, k - NDIRECT - 1);
    } else if k > NDIRECT {
      assert FileOf(0).addrs[NDIRECT] == 0;
    }
  }

  lemma ImageOwned()
    ensures Owned(GEO, Image(), Owners())
  {
    hide Slot, Entry, BlockAt, Place, At;
    var v, o := Image(), Owners();
    forall i: nat, k: nat | i < FILES && k < SLOTS ensures SlotOk(v, o, i, k) {
      SlotIs(i, k);
      EntryOwned(i, k);
    }
    forall b | b in o ensures BlockOk(GEO, v, o, b) {
      var (i, k) := Place(Rank(b));
      SlotIs(i, k);
      EntryIs(i, k);
    }
  }

  lemma EntryIs(i: nat, k: nat)
    requires Filled(i, k)
    ensures Entry(i, k) == Num(At(i, k))
  {
  }

  lemma EntryOwned(i: nat, k: nat)
    requires i < FILES && k < SLOTS
    ensures Entry(i, k) != 0 ==> Entry(i, k) in Owners() && Owners()[Entry(i, k)] == (i, k)
  {
    if Filled(i, k) {
      PlaceAt(i, k);
    }
  }

  lemma ImageWhole()
    ensures Whole(Image())
  {
    hide Slot, BlockAt;
    var v := Image();
    forall j: nat | j < FILES ensures NoHoles(v.inodes[j], v.blocks) {
      forall bn: nat | bn < MAXFILE && bn * BSIZE < v.inodes[j].size ensures BlockOf(v.inodes[j], v.blocks, bn) != 0 {
        SlotIs(j, SlotOf(bn));
      }
    }
  }

  /** A write of one chunk at the end of file 0 finds four slots empty. */
  lemma ImageNeeds(off: nat)
    requires off == NDIRECT * BSIZE - 1
    ensures Needed(Image(), 0, off, CHUNK) == {12, 13, 14, 15} && Past(off, CHUNK) == off / BSIZE + 4
  {
    hide Slot, BlockAt, Reach;
    var v := Image();
    ReachFour(off, CHUNK, 11);
    assert Reach(off, CHUNK) == {11, 12, 13, 14, 15};
    forall k: nat | k < SLOTS ensures Slot(v.inodes[0], v.blocks, k) == Entry(0, k) {
      SlotIs(0, k);
    }
  }

  lemma ImageFree(f: set<Word>)
    requires f == {8191, 8192, 24575, 24576}
    ensures Free(Image().used) == f && Bitmaps(GEO, f) == {8187, 8188, 8189, 8190}
  {
    hide BlockAt, Bitmap;
    BitmapAt();
    assert forall b :: b in f ==> b == 8191 || b == 8192 || b == 24575 || b == 24576;
  }

  lemma BitmapAt()
    ensures Bitmap(GEO, 8191) == 8187 && Bitmap(GEO, 8192) == 8188
    ensures Bitmap(GEO, 24575) == 8189 && Bitmap(GEO, 24576) == 8190
  {
  }

  lemma ImageTight(off: nat)
    requires off == NDIRECT * BSIZE - 1
    ensures LaidOut(GEO, 0) && Tight(GEO, Image(), 0, off, CHUNK)
  {
    hide Needed, Free, Bitmaps, BlockAt;
    var f: set<Word> := {8191, 8192, 24575, 24576};
    ImageNeeds(off);
    ImageFree(f);
    assert Lowest(Image().used, f);
  }

  /** The reservation of ten blocks is no larger than it has to be: here a consistent disk on
      which a write of one chunk does not run out of blocks and logs all ten. */
  lemma ReservationNeeded()
    ensures Owned(GEO, Image(), Owners()) && Whole(Image()) && LaidOut(GEO, 0)
    ensures var off, v := NDIRECT * BSIZE - 1, Image();
            && off == v.inodes[0].size && off + CHUNK <= MAXFILE * BSIZE
            && |Needed(v, 0, off, CHUNK)| <= |Free(v.used)| && Tight(GEO, v, 0, off, CHUNK)
  {
    ImageOwned();
    ImageWhole();
    ImageTight(NDIRECT * BSIZE - 1);
    TightHasRoom(GEO, Image(), 0, NDIRECT * BSIZE - 1, CHUNK);
  }
}
