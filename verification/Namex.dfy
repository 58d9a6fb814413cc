/** Path names (kernel/fs.c:530-547): what the slash-separated components of a path are. */
module PathSpec {
  import opened Blocks
  import opened DirSpec

  const SLASH: Byte := 47

  /** The length of the component that p starts with. */
  function Span(p: seq<Byte>): (n: nat)
    ensures n <= |p| && SLASH !in p[..n] && (n < |p| ==> p[n] == SLASH)
  {
    if p == [] || p[0] == SLASH then 0
    else
      var n := 1 + Span(p[1..]);
      assert p[..n] == [p[0]] + p[1..][..n - 1];
      n
  }

  function Components(p: seq<Byte>): (cs: seq<seq<Byte>>)
    decreases |p|
  {
    if p == [] then []
    else if p[0] == SLASH then Components(p[1..])
    else [p[..Span(p)]] + Components(p[Span(p)..])
  }

  /** A component as a directory knows it. */
  function Cut(c: seq<Byte>): (r: seq<Byte>) {
    if |c| > DIRSIZ then c[..DIRSIZ] else c
  }

  function Joined(cs: seq<seq<Byte>>): (p: seq<Byte>) {
    if cs == [] then [] else [SLASH] + cs[0] + Joined(cs[1..])
  }

  predicate Plain(cs: seq<seq<Byte>>) {
    forall k :: 0 <= k < |cs| ==> cs[k] != [] && SLASH !in cs[k]
  }

  lemma {:induction false} SpanOf(c: seq<Byte>, p: seq<Byte>)
    requires SLASH !in c && (p == [] || p[0] == SLASH)
    ensures Span(c + p) == |c|
  {
    if c == [] {
      assert c + p == p;
    } else {
      assert (c + p)[1..] == c[1..] + p;
      SpanOf(c[1..], p);
    }
  }

  /** Splitting undoes joining, whatever the components. */
  lemma {:induction false} SplitJoin(cs: seq<seq<Byte>>)
    requires Plain(cs)
    ensures Components(Joined(cs)) == cs
  {
    if cs != [] {
      var rest := Joined(cs[1..]);
      assert Joined(cs)[1..] == cs[0] + rest;
      SpanOf(cs[0], rest);
      assert (cs[0] + rest)[..|cs[0]|] == cs[0] && (cs[0] + rest)[|cs[0]|..] == rest;
      SplitJoin(cs[1..]);
    }
  }

  /** The components are not empty and hold no slash. */
  lemma {:induction false} ComponentsPlain(p: seq<Byte>)
    ensures Plain(Components(p))
    decreases |p|
  {
    if p != [] {
      if p[0] == SLASH {
        ComponentsPlain(p[1..]);
      } else {
        ComponentsPlain(p[Span(p)..]);
        assert p[..Span(p)] != [];
      }
    }
  }

  lemma SpanAt(p: seq<Byte>, n: nat)
    requires n <= |p| && SLASH !in p[..n] && (n < |p| ==> p[n] == SLASH)
    ensures Span(p) == n
  {
    assert p == p[..n] + p[n..];
    SpanOf(p[..n], p[n..]);
  }

  lemma SlashStep(path: seq<Byte>, i: nat)
    requires i < |path| && path[i] == SLASH
    ensures Components(path[i..]) == Components(path[i + 1..])
  {
    assert path[i..][1..] == path[i + 1..];
  }

  lemma WordStep(path: seq<Byte>, s: nat, i: nat)
    requires s < i <= |path| && SLASH !in path[s..i] && (i < |path| ==> path[i] == SLASH)
    ensures Components(path[s..]) == [path[s..i]] + Components(path[i..])
  {
    var p := path[s..];
    assert p[..i - s] == path[s..i] && p[i - s..] == path[i..];
    assert path[s..i][0] == p[0];
    SpanAt(p, i - s);
  }

  lemma NoneLeft(path: seq<Byte>, i: nat)
    requires i <= |path| && (i < |path| ==> path[i] != SLASH)
    ensures Components(path[i..]) == [] <==> i == |path|
  {
  }

  /** skipelem: the first component, cut to DIRSIZ bytes, and the path after it. */
  method Skipelem(path: seq<Byte>) returns (found: bool, name: seq<Byte>, rest: seq<Byte>)
    requires 0 !in path
    ensures found == (Components(path) != [])
    ensures found ==> NameOf(name) == Cut(Components(path)[0]) && Readable(name)
    ensures found ==> Components(rest) == Components(path)[1..] && 0 !in rest && |rest| < |path|
    ensures found ==> (rest == [] <==> |Components(path)| == 1)
  {
    hide Components, Span, Upto;
    var i := 0;
    assert path[0..] == path;
    while i < |path| && path[i] == SLASH
      invariant i <= |path| && Components(path[i..]) == Components(path)
    {
      SlashStep(path, i);
      i := i + 1;
    }
    NoneLeft(path, i);
    if i == |path| {
      return false, [], [];
    }
    var s := i;
    while i < |path| && path[i] != SLASH
      invariant s <= i <= |path| && SLASH !in path[s..i]
    {
      assert path[s..i + 1] == path[s..i] + [path[i]];
      i := i + 1;
    }
    WordStep(path, s, i);
    var len := i - s;
    name := if len >= DIRSIZ then path[s..s + DIRSIZ] else path[s..i] + [0];
    assert len >= DIRSIZ ==> path[s..s + DIRSIZ] == path[s..i][..DIRSIZ];
    NameCut(path[s..i], name);
    ghost var after := i;
    while i < |path| && path[i] == SLASH
      invariant after <= i <= |path| && Components(path[i..]) == Components(path[after..])
    {
      SlashStep(path, i);
      i := i + 1;
    }
    NoneLeft(path, i);
    rest := path[i..];
    return true, name, rest;
  }

  lemma NameCut(c: seq<Byte>, name: seq<Byte>)
    requires 0 !in c && name == if |c| >= DIRSIZ then c[..DIRSIZ] else c + [0]
    ensures NameOf(name) == Cut(c) && Readable(name)
  {
    var i := if |c| >= DIRSIZ then DIRSIZ else |c|;
    assert name[..i] == c[..i];
    UptoSplit(name, DIRSIZ, i);
  }
}

/** The in-memory inode table (kernel/fs.c:163-168, 225-262, 303-327): reference counts. */
module Icache {
  const NINODE: nat := 50

  datatype Islot = Islot(inum: nat, ref: nat, valid: bool)

  function Part(s: Islot): (m: multiset<nat>) {
    multiset{}[s.inum := s.ref]
  }

  /** Every reference held, by inode number. */
  function Refs(slots: seq<Islot>): (m: multiset<nat>) {
    if slots == [] then multiset{} else Refs(slots[..|slots| - 1]) + Part(slots[|slots| - 1])
  }

  lemma {:induction false} RefsUpdate(slots: seq<Islot>, k: nat, s: Islot)
    requires k < |slots|
    ensures Refs(slots[k := s]) + Part(slots[k]) == Refs(slots) + Part(s)
  {
    var n := |slots| - 1;
    if k < n {
      var a, b, last := Refs(slots[..n]), Refs(slots[..n][k := s]), Part(slots[n]);
      RefsUpdate(slots[..n], k, s);
      assert slots[k := s][..n] == slots[..n][k := s];
      assert b + last + Part(slots[k]) == (b + Part(slots[k])) + last;
      assert a + last + Part(s) == (a + Part(s)) + last;
    } else {
      assert slots[k := s][..n] == slots[..n];
    }
  }

  lemma Cancel<T>(x: multiset<T>, y: multiset<T>, p: multiset<T>)
    requires x + p == y + p
    ensures x == y
  {
    forall j ensures x[j] == y[j] {
      assert (x + p)[j] == (y + p)[j];
    }
  }

  predicate Twins(slots: seq<Islot>, k: nat, l: nat) {
    k < |slots| && l < |slots| && slots[k].ref > 0 && slots[l].ref > 0 && slots[k].inum == slots[l].inum
  }

  /** No inode is in two places of the table. */
  ghost predicate Ok(slots: seq<Islot>) {
    && |slots| == NINODE
    && forall k: nat, l: nat :: Twins(slots, k, l) ==> k == l
  }

  lemma {:induction false} NoRefs(slots: seq<Islot>, i: nat)
    requires forall l :: 0 <= l < |slots| ==> slots[l].ref == 0 || slots[l].inum != i
    ensures Refs(slots)[i] == 0
  {
    if slots != [] {
      NoRefs(slots[..|slots| - 1], i);
    }
  }

  /** The reference count in the table is the number of references held. */
  lemma RefIsCount(slots: seq<Islot>, k: nat)
    requires Ok(slots) && k < |slots| && slots[k].ref > 0
    ensures Refs(slots)[slots[k].inum] == slots[k].ref
  {
    var i := slots[k].inum;
    var without := slots[k := Islot(i, 0, false)];
    forall l | 0 <= l < |slots| ensures without[l].ref == 0 || without[l].inum != i {
      assert Twins(slots, k, l) ==> k == l;
    }
    NoRefs(without, i);
    RefsUpdate(slots, k, Islot(i, 0, false));
    assert (Refs(without) + Part(slots[k]))[i] == slots[k].ref;
  }

  class Table {
    var slots: seq<Islot>

    ghost predicate Valid()
      reads this
    {
      Ok(slots)
    }

    /** iinit: a table without references. */
    constructor ()
      ensures Valid() && Refs(slots) == multiset{}
    {
      slots := seq(NINODE, _ => Islot(0, 0, false));
      new;
      NothingHeld(slots);
    }

    /** k is a reference to inode i. */
    predicate Ref(k: nat, i: nat)
      reads this
    {
      k < |slots| && slots[k].ref > 0 && slots[k].inum == i
    }

    /** iget: one more reference to inode inum. False is the panic: every place is taken. */
    method Iget(inum: nat) returns (ok: bool, k: nat)
      requires Valid()
      modifies this
      ensures Valid()
      ensures ok == (exists l: nat :: l < NINODE && (old(slots)[l].ref == 0 || old(slots)[l].inum == inum))
      ensures ok ==> Ref(k, inum) && Refs(slots) == Refs(old(slots)) + multiset{inum}
      ensures ok ==> forall l: nat :: l < NINODE && l != k ==> slots[l] == old(slots)[l]
      ensures ok ==> slots[k].inum == inum
                     && slots[k] == (if old(slots)[k].ref == 0 then Islot(inum, 1, false)
                                     else old(slots)[k].(ref := old(slots)[k].ref + 1))
      ensures !ok ==> slots == old(slots)
    {
      hide Refs;
      var l := 0;
      ok, k := false, 0;
      while l < NINODE
        invariant 0 <= l <= NINODE && slots == old(slots)
        invariant forall m: nat :: m < l ==> slots[m].ref == 0 || slots[m].inum != inum
        invariant ok ==> k < l && slots[k].ref == 0
        invariant !ok ==> forall m: nat :: m < l ==> slots[m].ref != 0
      {
        if slots[l].ref > 0 && slots[l].inum == inum {
          Counted(slots, l, slots[l].(ref := slots[l].ref + 1), inum);
          slots := slots[l := slots[l].(ref := slots[l].ref + 1)];
          OkUpdate(old(slots), l, slots[l]);
          return true, l;
        }
        if !ok && slots[l].ref == 0 {
          ok, k := true, l;
        }
        l := l + 1;
      }
      if ok {
        Counted(slots, k, Islot(inum, 1, false), inum);
        slots := slots[k := Islot(inum, 1, false)];
        OkUpdate(old(slots), k, slots[k]);
      }
    }

    method Idup(k: nat)
      requires Valid() && k < |slots| && slots[k].ref > 0
      modifies this
      ensures Valid() && slots == old(slots)[k := old(slots)[k].(ref := old(slots)[k].ref + 1)]
      ensures Refs(slots) == Refs(old(slots)) + multiset{slots[k].inum}
    {
      Counted(slots, k, slots[k].(ref := slots[k].ref + 1), slots[k].inum);
      slots := slots[k := slots[k].(ref := slots[k].ref + 1)];
      OkUpdate(old(slots), k, slots[k]);
    }
  }

  lemma {:induction false} NothingHeld(slots: seq<Islot>)
    requires forall k :: 0 <= k < |slots| ==> slots[k].ref == 0
    ensures Refs(slots) == multiset{}
  {
    if slots != [] {
      NothingHeld(slots[..|slots| - 1]);
      assert Part(slots[|slots| - 1]) == multiset{};
    }
  }

  lemma OkUpdate(slots: seq<Islot>, k: nat, s: Islot)
    requires Ok(slots) && k < |slots|
    requires (s.inum == slots[k].inum && slots[k].ref > 0)
             || (forall l: nat :: l < |slots| ==> l == k || slots[l].ref == 0 || slots[l].inum != s.inum)
    ensures Ok(slots[k := s])
  {
    var w := slots[k := s];
    forall a: nat, b: nat | Twins(w, a, b) ensures a == b {
      assert slots[k].ref > 0 && s.inum == slots[k].inum ==> Twins(slots, a, b);
      if a != k && b != k {
        assert Twins(slots, a, b);
      }
    }
  }

  /** One more reference in place k is one more reference to its inode. */
  lemma Counted(slots: seq<Islot>, k: nat, s: Islot, i: nat)
    requires k < |slots| && s.inum == i
    requires if slots[k].ref == 0 then s.ref == 1 else slots[k].inum == i && s.ref == slots[k].ref + 1
    ensures Refs(slots[k := s]) == Refs(slots) + multiset{i}
  {
    hide Refs;
    RefsUpdate(slots, k, s);
    assert Part(s) == Part(slots[k]) + multiset{i};
    var x, y := Refs(slots[k := s]), Refs(slots) + multiset{i};
    forall j ensures x[j] == y[j] {
      assert (x + Part(slots[k]))[j] == (Refs(slots) + Part(s))[j];
    }
    assert x == y;
  }

  /** One reference fewer in place k is one reference fewer to its inode. */
  lemma Dropped(slots: seq<Islot>, k: nat, s: Islot)
    requires k < |slots| && slots[k].ref > 0 && s.inum == slots[k].inum && s.ref == slots[k].ref - 1
    ensures Refs(slots[k := s]) + multiset{s.inum} == Refs(slots)
  {
    hide Refs;
    RefsUpdate(slots, k, s);
    assert Part(slots[k]) == Part(s) + multiset{s.inum};
    var x, y := Refs(slots[k := s]) + multiset{s.inum}, Refs(slots);
    forall j ensures x[j] == y[j] {
      assert (Refs(slots[k := s]) + Part(slots[k]))[j] == (y + Part(s))[j];
    }
    assert x == y;
  }
}

/** iput, ilock and namex (kernel/fs.c:266-327, 553-584). */
module Namex {
  import opened Blocks
  import opened FsSpec
  import opened FsCode
  import opened DirSpec
  import opened DirCode
  import opened PathSpec
  import opened Icache
  import opened Prelude

  const ROOTINO: nat := 1

  /** iput drops one reference. The last one to an inode without links frees the inode and
      exactly its blocks. */
  method Iput(fs: Fs, ic: Table, k: nat)
    requires fs.Valid() && Whole(fs.V()) && ic.Valid() && k < NINODE
    requires ic.slots[k].ref > 0 && (ic.slots[k].valid ==> ic.slots[k].inum < |fs.inodes|)
    modifies fs, ic
    ensures fs.Valid() && Whole(fs.V()) && ic.Valid()
    ensures Refs(ic.slots) + multiset{old(ic.slots)[k].inum} == Refs(old(ic.slots))
    ensures forall l: nat :: l < NINODE && l != k ==> ic.slots[l] == old(ic.slots)[l]
    ensures ic.slots[k].inum == old(ic.slots)[k].inum && ic.slots[k].ref == old(ic.slots)[k].ref - 1
    ensures var s := old(ic.slots)[k];
            if Refs(old(ic.slots))[s.inum] == 1 && s.valid && old(fs.inodes)[s.inum].nlink == 0 then
              && fs.V() == Freed(old(fs.V()), fs.used, s.inum)
              && forall b: nat :: b < fs.g.size ==>
                   (fs.used[b] <==> old(fs.used)[b] && !(b in old(fs.owner) && old(fs.owner)[b].0 == s.inum))
            else fs.V() == old(fs.V())
  {
    hide Refs, Content, Owned;
    var i := ic.slots[k].inum;
    RefIsCount(ic.slots, k);
    var valid := ic.slots[k].valid;
    if ic.slots[k].ref == 1 && valid && fs.inodes[i].nlink == 0 {
      ghost var v := fs.V();
      var ok := fs.Itrunc(i);
      fs.inodes := fs.inodes[i := Inode(0, fs.inodes[i].nlink, 0, fs.inodes[i].addrs)];
      FreedKeeps(fs.g, v, fs.used, fs.owner, i);
      fs.logged := fs.logged + {i / IPB + fs.g.inode};
      valid := false;
      assert fs.V() == Freed(v, fs.used, i);
    }
    ic.slots := ic.slots[k := Islot(i, ic.slots[k].ref - 1, valid)];
    Dropped(old(ic.slots), k, ic.slots[k]);
    OkUpdate(old(ic.slots), k, ic.slots[k]);
  }

  /** dirlink. If the name is bound, -1: the reference that dirlookup took is given back and
      nothing is freed. Otherwise the entry goes to the first free place, or to the end. False
      is a panic: no place in the table, or a directory that cannot grow. */
  method Dirlink(fs: Fs, ic: Table, d: nat, name: seq<Byte>, inum: Word) returns (ok: bool, r: int, ghost f: nat)
    requires fs.Valid() && Whole(fs.V()) && d < |fs.inodes| && IsDir(fs.inodes[d]) && Readable(name) && ic.Valid()
    requires forall k: nat :: k < NINODE && ic.slots[k].valid ==> ic.slots[k].inum < |fs.inodes|
    modifies fs, ic
    ensures fs.Valid() && ic.Valid() && Refs(ic.slots) == Refs(old(ic.slots))
    ensures var c := Content(old(fs.inodes)[d], old(fs.blocks));
            var s := Search(c, NameOf(name), 0);
            if s < Count(c) then
              && fs.V() == old(fs.V()) && r == -1
              && ok == exists l: nat ::
                         l < NINODE && (old(ic.slots)[l].ref == 0 || old(ic.slots)[l].inum == InumAt(c, s))
            else
              && r == 0 && ic.slots == old(ic.slots)
              && (ok ==> && f == FirstFree(c, 0) && ENTRY * f <= |c|
                         && Written(old(fs.V()), fs.V(), d, ENTRY * f, Encode(inum, NameOf(name))))
              && (ok || |c| == MAXFILE * BSIZE || forall b :: 0 <= b < fs.g.size ==> fs.used[b])
  {
    hide Content, Search, NameAt, Owned, Upto, NoHoles, Written, FirstFree, Refs, Whole;
    var found, n, off := Dirlookup(fs, d, name);
    f := 0;
    if found {
      var k;
      ok, k := ic.Iget(n);
      if ok {
        if old(ic.slots)[k].ref > 0 {
          RefIsCount(old(ic.slots), k);
        }
        Iput(fs, ic, k);
        Cancel(Refs(ic.slots), Refs(old(ic.slots)), multiset{n});
      }
      return ok, -1, f;
    }
    ok, f := AddEntry(fs, d, name, inum);
    r := 0;
  }

  // ---- what a path means ------------------------------------------------------------------------

  /** A directory of whole entries that name inodes of the volume. */
  ghost predicate DirOk(v: Vol, d: nat)
    requires Whole(v) && d < |v.inodes|
  {
    v.inodes[d].kind == T_DIR ==>
      && IsDir(v.inodes[d])
      && var c := Content(v.inodes[d], v.blocks);
         forall k: nat :: k < Count(c) ==> InumAt(c, k) < |v.inodes|
  }

  ghost predicate DirsOk(v: Vol) {
    Whole(v) && ROOTINO < |v.inodes| && forall d: nat :: d < |v.inodes| ==> DirOk(v, d)
  }

  /** The inode that a name leads to from directory d. */
  ghost function Child(v: Vol, d: nat, name: seq<Byte>): (r: Option<nat>)
    requires DirsOk(v) && d < |v.inodes| && v.inodes[d].kind == T_DIR
    ensures r.Some? ==> 0 < r.value < |v.inodes|
  {
    assert DirOk(v, d);
    var c := Content(v.inodes[d], v.blocks);
    var k := Search(c, name, 0);
    if k < Count(c) then assert Holds(c, k, name); Some(InumAt(c, k)) else None
  }

  /** The inode that the components lead to from inode i; with `parent`, the directory that
      the last of them is to be looked up in. */
  ghost function Resolve(v: Vol, i: nat, cs: seq<seq<Byte>>, parent: bool): (r: Option<nat>)
    requires DirsOk(v) && i < |v.inodes|
    decreases |cs|
  {
    if cs == [] then (if parent then None else Some(i))
    else if v.inodes[i].kind != T_DIR then None
    else if parent && |cs| == 1 then Some(i)
    else
      match Child(v, i, Cut(cs[0]))
      case None => None
      case Some(n) => Resolve(v, n, cs[1..], parent)
  }

  /** i is in use, and no iput that only undoes namex's own references can free it. */
  ghost predicate Kept(v: Vol, refs: multiset<nat>, i: nat)
    requires i < |v.inodes|
  {
    v.inodes[i].kind != 0 && (v.inodes[i].nlink > 0 || refs[i] > 0)
  }

  /** Everything that a directory names, and the root, is in use and kept. */
  ghost predicate Steady(v: Vol, refs: multiset<nat>)
    requires DirsOk(v)
  {
    && Kept(v, refs, ROOTINO)
    && forall d: nat, name: seq<Byte> :: d < |v.inodes| && v.inodes[d].kind == T_DIR && Child(v, d, name).Some? ==>
         Kept(v, refs, Child(v, d, name).value)
  }

  lemma DirsKept(v: Vol, used: seq<bool>, i: nat)
    requires DirsOk(v) && i < |v.inodes| && Whole(Freed(v, used, i))
    ensures DirsOk(Freed(v, used, i))
  {
    hide Content, InumAt, NoHoles;
    var w := Freed(v, used, i);
    forall d: nat | d < |w.inodes| ensures DirOk(w, d) {
      assert DirOk(v, d);
      assert d != i ==> w.inodes[d] == v.inodes[d];
    }
  }

  /** ilock's reading of the inode into the table. False is the "no type" panic. */
  method Ilock(fs: Fs, ic: Table, k: nat) returns (ok: bool)
    requires ic.Valid() && k < NINODE && ic.slots[k].ref > 0 && ic.slots[k].inum < |fs.inodes|
    modifies ic
    ensures ic.Valid() && ic.slots == old(ic.slots)[k := old(ic.slots)[k].(valid := true)]
    ensures Refs(ic.slots) == Refs(old(ic.slots))
    ensures fs.inodes[ic.slots[k].inum].kind != 0 ==> ok
  {
    hide Refs;
    ok := true;
    if !ic.slots[k].valid {
      RefsUpdate(ic.slots, k, ic.slots[k].(valid := true));
      Cancel(Refs(ic.slots[k := ic.slots[k].(valid := true)]), Refs(ic.slots), Part(ic.slots[k]));
      ic.slots := ic.slots[k := ic.slots[k].(valid := true)];
      OkUpdate(old(ic.slots), k, ic.slots[k]);
      ok := fs.inodes[ic.slots[k].inum].kind != 0;
    }
  }

  datatype Outcome = Panicked | Missing | Found(slot: nat)

  /** The references are `refs` and one more, which k is, to inode i. */
  ghost predicate At(fs: Fs, ic: Table, k: nat, i: nat, refs: multiset<nat>)
    reads fs, ic
  {
    && fs.Valid() && DirsOk(fs.V()) && ic.Valid() && ic.Ref(k, i) && i < |fs.inodes|
    && Refs(ic.slots) == refs + multiset{i}
  }

  /** iunlockput of namex's own reference: an inode that is kept is not freed by it. */
  method Release(fs: Fs, ic: Table, k: nat, i: nat, ghost refs: multiset<nat>)
    requires At(fs, ic, k, i, refs)
    modifies fs, ic
    ensures fs.Valid() && DirsOk(fs.V()) && ic.Valid() && |fs.inodes| == |old(fs.inodes)|
    ensures Refs(ic.slots) == refs && (Kept(old(fs.V()), refs, i) ==> fs.V() == old(fs.V()))
    ensures forall l: nat :: l < NINODE && l != k ==> ic.slots[l] == old(ic.slots)[l]
    ensures ic.slots[k].inum == i && ic.slots[k].ref == old(ic.slots)[k].ref - 1
  {
    hide Refs, Content, Owned, DirOk, NoHoles;
    Iput(fs, ic, k);
    Cancel(Refs(ic.slots), refs, multiset{i});
    if fs.V() != old(fs.V()) {
      DirsKept(old(fs.V()), fs.used, i);
    }
  }

  predicate Full(slots: seq<Islot>) {
    forall k :: 0 <= k < |slots| ==> slots[k].ref > 0
  }

  /** One component: dirlookup in directory i, then iunlockput of it. */
  method Advance(fs: Fs, ic: Table, k: nat, i: nat, name: seq<Byte>, ghost refs: multiset<nat>) returns (res: Outcome)
    requires At(fs, ic, k, i, refs) && fs.inodes[i].kind == T_DIR && Readable(name)
    modifies fs, ic
    ensures fs.Valid() && DirsOk(fs.V()) && ic.Valid() && |fs.inodes| == |old(fs.inodes)|
    ensures Kept(old(fs.V()), refs, i) ==> fs.V() == old(fs.V())
    ensures res.Panicked? ==> Full(ic.slots)
    ensures res.Missing? ==> Refs(ic.slots) == refs && Child(old(fs.V()), i, NameOf(name)).None?
    ensures res.Found? ==> exists n :: Child(old(fs.V()), i, NameOf(name)) == Some(n) && At(fs, ic, res.slot, n, refs)
  {
    hide Refs, Content, Owned, NoHoles, Search, InumAt, Upto;
    assert DirOk(fs.V(), i);
    var found, n, off := Dirlookup(fs, i, name);
    if !found {
      Release(fs, ic, k, i, refs);
      return Missing;
    }
    assert Child(old(fs.V()), i, NameOf(name)) == Some(n);
    RefIsCount(ic.slots, k);
    var ok, next := ic.Iget(n);
    if !ok {
      return Panicked;
    }
    assert refs + multiset{i} + multiset{n} == refs + multiset{n} + multiset{i};
    assert At(fs, ic, k, i, refs + multiset{n});
    RefIsCount(ic.slots, k);
    Release(fs, ic, k, i, refs + multiset{n});
    assert At(fs, ic, next, n, refs);
    return Found(next);
  }

  /** What the walk keeps of the volume v it started on, if that was steady. */
  ghost predicate OnCourse(v: Vol, w: Vol, refs: multiset<nat>, i: nat, cs: seq<seq<Byte>>, parent: bool,
                           goal: Option<nat>)
    requires DirsOk(v) && DirsOk(w) && i < |w.inodes|
  {
    v == w && Kept(v, refs, i) && Resolve(v, i, cs, parent) == goal
  }

  lemma CourseStep(v: Vol, refs: multiset<nat>, i: nat, n: nat, cs: seq<seq<Byte>>, parent: bool, goal: Option<nat>)
    requires DirsOk(v) && Steady(v, refs) && i < |v.inodes| && cs != [] && !(parent && |cs| == 1)
    requires OnCourse(v, v, refs, i, cs, parent, goal) && v.inodes[i].kind == T_DIR
             && Child(v, i, Cut(cs[0])) == Some(n)
    ensures OnCourse(v, v, refs, n, cs[1..], parent, goal)
  {
  }

  /** What is so when namex returns, with `goal` what the path leads to. */
  ghost predicate Ended(fs: Fs, ic: Table, res: Outcome, refs: multiset<nat>, steady: bool, v: Vol, goal: Option<nat>)
    reads fs, ic
  {
    && fs.Valid() && DirsOk(fs.V()) && ic.Valid()
    && (res.Missing? ==> Refs(ic.slots) == refs)
    && (res.Found? ==> res.slot < NINODE && ic.slots[res.slot].ref > 0)
    && (res.Found? ==> Refs(ic.slots) == refs + multiset{ic.slots[res.slot].inum})
    && (steady ==>
          && fs.V() == v
          && (res.Panicked? ==> Full(ic.slots))
          && (res.Missing? ==> goal == None)
          && (res.Found? ==> goal == Some(ic.slots[res.slot].inum)))
  }

  /** A turn of namex's loop for the first of the components cs: either the walk is over, or
      `slot` refers to the next inode on the way. */
  method Turn(fs: Fs, ic: Table, k: nat, i: nat, name: seq<Byte>, last: bool, parent: bool, ghost cs: seq<seq<Byte>>,
              ghost refs: multiset<nat>, ghost steady: bool, ghost v: Vol, ghost goal: Option<nat>)
    returns (over: bool, res: Outcome)
    requires At(fs, ic, k, i, refs) && cs != [] && last == (|cs| == 1) && Readable(name) && NameOf(name) == Cut(cs[0])
    requires DirsOk(v) && (steady ==> Steady(v, refs) && OnCourse(v, fs.V(), refs, i, cs, parent, goal))
    modifies fs, ic
    ensures over ==> Ended(fs, ic, res, refs, steady, v, goal) && (res.Found? ==> parent && last)
    ensures !over ==> res.Found? && res.slot < |ic.slots| && At(fs, ic, res.slot, ic.slots[res.slot].inum, refs)
    ensures !over && steady ==> OnCourse(v, fs.V(), refs, ic.slots[res.slot].inum, cs[1..], parent, goal)
  {
    hide Refs, Content, Owned, DirOk, NoHoles, Resolve, Child, Upto, Steady;
    CourseEnd(fs.V(), i, cs, parent);
    var ok := Ilock(fs, ic, k);
    if !ok {
      return true, Panicked;
    }
    if fs.inodes[i].kind != T_DIR {
      Release(fs, ic, k, i, refs);
      return true, Missing;
    }
    if parent && last {
      return true, Found(k);
    }
    res := Advance(fs, ic, k, i, name, refs);
    over := !res.Found?;
    if !over && steady {
      CourseStep(v, refs, i, ic.slots[res.slot].inum, cs, parent, goal);
    }
  }

  /** namex's first reference: to the root or to the current directory. */
  method Start(fs: Fs, ic: Table, cwd: nat, path: seq<Byte>) returns (ok: bool, k: nat, i: nat)
    requires fs.Valid() && DirsOk(fs.V()) && ic.Valid()
    requires cwd < NINODE && ic.slots[cwd].ref > 0 && ic.slots[cwd].inum < |fs.inodes|
    modifies ic
    ensures i == if path != [] && path[0] == SLASH then ROOTINO else old(ic.slots)[cwd].inum
    ensures ic.Valid() && Refs(old(ic.slots))[old(ic.slots)[cwd].inum] > 0
    ensures ok ==> At(fs, ic, k, i, Refs(old(ic.slots)))
    ensures !ok ==> forall steady, goal :: Ended(fs, ic, Panicked, Refs(old(ic.slots)), steady, fs.V(), goal)
  {
    hide Refs, Content, Owned, DirOk, NoHoles;
    RefIsCount(ic.slots, cwd);
    if path != [] && path[0] == SLASH {
      i := ROOTINO;
      ok, k := ic.Iget(ROOTINO);
    } else {
      ok, k, i := true, cwd, ic.slots[cwd].inum;
      ic.Idup(cwd);
    }
  }

  /** The end of namex, no component being left. */
  method Finish(fs: Fs, ic: Table, k: nat, i: nat, parent: bool, ghost refs: multiset<nat>, ghost steady: bool,
                ghost v: Vol, ghost goal: Option<nat>) returns (res: Outcome)
    requires At(fs, ic, k, i, refs) && DirsOk(v) && (steady ==> OnCourse(v, fs.V(), refs, i, [], parent, goal))
    modifies fs, ic
    ensures Ended(fs, ic, res, refs, steady, v, goal) && (res.Found? ==> !parent)
  {
    hide Refs, Content, Owned, DirOk, NoHoles, Resolve, Child, Steady;
    CourseEnd(fs.V(), i, [], parent);
    if parent {
      Release(fs, ic, k, i, refs);
      return Missing;
    }
    return Found(k);
  }

  lemma CourseStart(v: Vol, refs: multiset<nat>, i: nat, cs: seq<seq<Byte>>, parent: bool)
    requires DirsOk(v) && i < |v.inodes| && Kept(v, refs, i)
    ensures OnCourse(v, v, refs, i, cs, parent, Resolve(v, i, cs, parent))
  {
  }

  /** cs is how `all` ends. */
  ghost predicate End<T>(all: seq<T>, cs: seq<T>) {
    |cs| <= |all| && all[|all| - |cs|..] == cs
  }

  lemma EndWhole<T>(all: seq<T>)
    ensures End(all, all)
  {
  }

  lemma EndStep<T>(all: seq<T>, cs: seq<T>)
    requires End(all, cs) && cs != []
    ensures End(all, cs[1..]) && all != [] && (|cs| == 1 ==> cs[0] == all[|all| - 1])
  {
    assert all[|all| - |cs|..][1..] == all[|all| - |cs| + 1..];
  }

  /** namex. On every way out but a panic, the references are those at the start and one for
      the inode returned. On a steady volume nothing is freed, the inode is the one that the
      path's components lead to, and the only panic is a full inode table. */
  method Namex(fs: Fs, ic: Table, cwd: nat, path0: seq<Byte>, parent: bool)
    returns (res: Outcome, name: seq<Byte>)
    requires fs.Valid() && DirsOk(fs.V()) && ic.Valid() && 0 !in path0
    requires cwd < NINODE && ic.slots[cwd].ref > 0 && ic.slots[cwd].inum < |fs.inodes|
    modifies fs, ic
    ensures var v, refs, i := old(fs.V()), Refs(old(ic.slots)), old(ic.slots)[cwd].inum;
            Ended(fs, ic, res, refs, Steady(v, refs) && v.inodes[i].kind != 0, v,
                  Resolve(v, if path0 != [] && path0[0] == SLASH then ROOTINO else i, Components(path0), parent))
    ensures res.Found? && parent ==>
              Components(path0) != [] && NameOf(name) == Cut(Components(path0)[|Components(path0)| - 1])
  {
    hide Refs, Owned, DirOk, NoHoles, Resolve, Components, Upto, Steady, OnCourse, Cut, End, Ended, Whole,
        Readable, Child;
    ghost var v, refs := fs.V(), Refs(ic.slots);
    ghost var steady := Steady(v, refs) && v.inodes[ic.slots[cwd].inum].kind != 0;
    SteadyRoot(v, refs);
    name := [];
    var ok, k, i := Start(fs, ic, cwd, path0);
    ghost var goal := Resolve(v, i, Components(path0), parent);
    if !ok {
      assert Ended(fs, ic, Panicked, refs, steady, fs.V(), goal);
      return Panicked, name;
    }
    if steady {
      CourseStart(v, refs, i, Components(path0), parent);
    }
    EndWhole(Components(path0));
    var path := path0;
    while true
      invariant At(fs, ic, k, i, refs) && 0 !in path
      invariant End(Components(path0), Components(path))
      invariant steady ==> OnCourse(v, fs.V(), refs, i, Components(path), parent, goal)
      decreases |path|
    {
      var found, elem, rest := Skipelem(path);
      if !found {
        break;
      }
      ghost var cs := Components(path);
      EndStep(Components(path0), cs);
      name := elem;
      var over;
      over, res := Turn(fs, ic, k, i, name, rest == [], parent, cs, refs, steady, v, goal);
      if over {
        return res, name;
      }
      k := res.slot;
      i := ic.slots[k].inum;
      path := rest;
    }
    res := Finish(fs, ic, k, i, parent, refs, steady, v, goal);
    return res, name;
  }

  lemma SteadyRoot(v: Vol, refs: multiset<nat>)
    requires DirsOk(v)
    ensures Steady(v, refs) ==> Kept(v, refs, ROOTINO)
  {
  }

  /** Where a path ends, unless it goes on by a lookup. */
  lemma CourseEnd(v: Vol, i: nat, cs: seq<seq<Byte>>, parent: bool)
    requires DirsOk(v) && i < |v.inodes|
    ensures cs == [] ==> Resolve(v, i, cs, parent) == if parent then None else Some(i)
    ensures cs != [] && v.inodes[i].kind != T_DIR ==> Resolve(v, i, cs, parent) == None
    ensures |cs| == 1 && parent && v.inodes[i].kind == T_DIR ==> Resolve(v, i, cs, parent) == Some(i)
    ensures cs != [] && !(|cs| == 1 && parent) && v.inodes[i].kind == T_DIR && Child(v, i, Cut(cs[0])).None? ==>
              Resolve(v, i, cs, parent) == None
  {
  }
}
