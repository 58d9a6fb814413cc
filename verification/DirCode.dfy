/** dirlookup and dirlink (kernel/fs.c:471-514) on the volume of FsCode. */
module DirCode {
  import opened Blocks
  import opened FsSpec
  import opened FsCode
  import opened DirSpec

  /** What dirlookup insists on, by panicking: a directory, made of whole entries. */
  predicate IsDir(ino: Inode) {
    ino.kind == T_DIR && ino.size % ENTRY == 0
  }

  lemma WholeSizes(v: Vol, d: nat)
    requires Whole(v) && d < |v.inodes|
    ensures |v.inodes[d].addrs| == NDIRECT + 1 && v.inodes[d].size <= MAXFILE * BSIZE
  {
    assert NoHoles(v.inodes[d], v.blocks);
  }

  lemma SearchStep(c: seq<Byte>, name: seq<Byte>, k: nat)
    requires k < Count(c)
    ensures Search(c, name, k) == if Holds(c, k, name) then k else Search(c, name, k + 1)
  {
  }

  lemma FreeStep(c: seq<Byte>, k: nat)
    requires k < Count(c)
    ensures FirstFree(c, k) == if Live(c, k) then FirstFree(c, k + 1) else k
  {
  }

  /** What readi returns for entry k. */
  lemma EntryRead(c: seq<Byte>, k: nat)
    requires k < Count(c)
    ensures var e := Slice(c, ENTRY * k, ENTRY);
            && |e| == ENTRY && e[2..] == RawAt(c, k) && Count(e) == 1 && InumAt(e, 0) == InumAt(c, k)
  {
    var e := Slice(c, ENTRY * k, ENTRY);
    assert |e| == ENTRY;
    assert e[2..] == RawAt(c, k);
  }

  /** dirlookup: the first live entry of directory d with this name, if there is one. */
  method Dirlookup(fs: Fs, d: nat, name: seq<Byte>) returns (found: bool, inum: nat, off: nat)
    requires fs.Valid() && Whole(fs.V()) && d < |fs.inodes| && IsDir(fs.inodes[d]) && Readable(name)
    modifies fs
    ensures fs.Valid() && fs.V() == old(fs.V()) && fs.logged == old(fs.logged)
    ensures var c := Content(fs.inodes[d], fs.blocks);
            var r := Search(c, NameOf(name), 0);
            && found == (r < Count(c))
            && (found ==> off == ENTRY * r && inum == InumAt(c, r) != 0)
  {
    hide Content, Search, InumAt, Owned, Upto, NoHoles, Slice;
    WholeSizes(fs.V(), d);
    ghost var c := Content(fs.inodes[d], fs.blocks);
    ContentLength(fs.inodes[d], fs.blocks);
    off := 0;
    ghost var k := 0;
    while off < fs.inodes[d].size
      invariant fs.Valid() && fs.V() == old(fs.V()) && fs.logged == old(fs.logged)
      invariant k <= Count(c) && off == ENTRY * k && Search(c, NameOf(name), k) == Search(c, NameOf(name), 0)
    {
      EntryRead(c, k);
      var de, r := fs.Readi(d, off, ENTRY, ENTRY);
      assert r == ENTRY;
      SearchStep(c, NameOf(name), k);
      inum := InumAt(de, 0);
      if inum != 0 {
        var cmp := Namecmp(name, de[2..]);
        if cmp == 0 {
          return true, inum, off;
        }
      }
      off := off + ENTRY;
      k := k + 1;
    }
    return false, 0, 0;
  }

  /** dirlink for a name that is not bound: the entry goes to the first free place, or to the
      end. False is a panic: the directory cannot grow. */
  method AddEntry(fs: Fs, d: nat, name: seq<Byte>, inum: Word) returns (ok: bool, ghost f: nat)
    requires fs.Valid() && Whole(fs.V()) && d < |fs.inodes| && IsDir(fs.inodes[d]) && Readable(name)
    modifies fs
    ensures fs.Valid()
    ensures var c := Content(old(fs.inodes)[d], old(fs.blocks));
            ok ==> && f == FirstFree(c, 0) && ENTRY * f <= |c|
                   && Written(old(fs.V()), fs.V(), d, ENTRY * f, Encode(inum, NameOf(name)))
    ensures ok || |Content(old(fs.inodes)[d], old(fs.blocks))| == MAXFILE * BSIZE
            || forall b :: 0 <= b < fs.g.size ==> fs.used[b]
  {
    hide Content, NameAt, Owned, Upto, NoHoles, Slice, Written, FirstFree;
    WholeSizes(fs.V(), d);
    ghost var c := Content(fs.inodes[d], fs.blocks);
    ContentLength(fs.inodes[d], fs.blocks);
    f := 0;
    var off := 0;
    while off < fs.inodes[d].size
      invariant fs.Valid() && fs.V() == old(fs.V())
      invariant f <= Count(c) && off == ENTRY * f && FirstFree(c, f) == FirstFree(c, 0)
    {
      EntryRead(c, f);
      FreeStep(c, f);
      var de, m := fs.Readi(d, off, ENTRY, ENTRY);
      assert m == ENTRY;
      if InumAt(de, 0) == 0 {
        break;
      }
      off := off + ENTRY;
      f := f + 1;
    }
    assert f == FirstFree(c, 0) by {
      FreeEnd(c, f);
    }
    var raw := Strncpy(name);
    var de := [inum % 0x100, inum / 0x100 % 0x100] + raw;
    var r;
    ok, r := fs.Writei(d, off, de, |de|);
    if ok {
      assert r == -1 ==> off + ENTRY > MAXFILE * BSIZE;
      ok := r == ENTRY;
    }
  }

  lemma FreeEnd(c: seq<Byte>, f: nat)
    requires f <= Count(c)
    ensures f == Count(c) || !Live(c, f) ==> FirstFree(c, f) == f
  {
  }

  /** A successful dirlink, in a directory with unique names, adds exactly one binding. */
  lemma DirlinkBinds(v: Vol, w: Vol, d: nat, name: seq<Byte>, inum: Word)
    requires Whole(v) && d < |v.inodes| && IsDir(v.inodes[d])
    requires var c := Content(v.inodes[d], v.blocks);
             && UniqueNames(c) && Search(c, NameOf(name), 0) == Count(c)
             && ENTRY * FirstFree(c, 0) <= |c|
             && Written(v, w, d, ENTRY * FirstFree(c, 0), Encode(inum, NameOf(name)))
    ensures var c := Content(v.inodes[d], v.blocks);
            && Whole(w) && d < |w.inodes|
            && var e := Content(w.inodes[d], w.blocks);
               && UniqueNames(e) && |e| % ENTRY == 0
               && Bindings(e) == (if inum % 0x1_0000 == 0 then Bindings(c)
                                  else Bindings(c)[NameOf(name) := inum % 0x1_0000])
               && (|e| == |c| <==> exists k: nat :: k < Count(c) && !Live(c, k))
  {
    hide Content, Bound, NameAt, InumAt, Upto, Splice;
    var c, f := Content(v.inodes[d], v.blocks), FirstFree(Content(v.inodes[d], v.blocks), 0);
    ContentLength(v.inodes[d], v.blocks);
    SearchIsLookup(c, NameOf(name));
    EntryPut(c, f, inum, NameOf(name));
    LinkBinds(c, Content(w.inodes[d], w.blocks), f, inum % 0x1_0000, NameOf(name));
    SpliceLength(c, ENTRY * f, Encode(inum, NameOf(name)));
    if f == Count(c) {
      forall k: nat | k < Count(c) ensures Live(c, k) {
        AllLive(c, 0, k);
      }
    } else {
      assert !Live(c, f);
    }
  }

  lemma {:induction false} AllLive(c: seq<Byte>, k: nat, l: nat)
    requires k <= Count(c) && k <= l < FirstFree(c, k)
    ensures l < Count(c) && Live(c, l)
    decreases l - k
  {
    if k < l {
      AllLive(c, k + 1, l);
    }
  }
}
