/** Directories and names (kernel/fs.c:467-547, kernel/string.c:44-58), as values: a directory
    is a finite map from names of at most DIRSIZ bytes to inode numbers. */
module DirSpec {
  import opened Blocks
  import opened FsSpec

  const DIRSIZ: nat := 14
  const ENTRY: nat := 16
  const T_DIR: nat := 1

  /** A name buffer that ends in a NUL or has DIRSIZ bytes: strncmp and strncpy stay in it. */
  predicate Readable(s: seq<Byte>) {
    |s| >= DIRSIZ || 0 in s
  }

  /** The bytes before the first NUL, at most n of them. */
  function Upto(s: seq<Byte>, n: nat): (r: seq<Byte>)
    ensures |r| <= n && |r| <= |s| && 0 !in r
  {
    if n == 0 || s == [] || s[0] == 0 then [] else [s[0]] + Upto(s[1..], n - 1)
  }

  /** The name that a buffer holds, truncated to DIRSIZ. */
  function NameOf(s: seq<Byte>): (r: seq<Byte>) {
    Upto(s, DIRSIZ)
  }

  lemma {:induction false} UptoSplit(s: seq<Byte>, n: nat, i: nat)
    requires i <= n && i <= |s| && 0 !in s[..i]
    ensures Upto(s, n) == s[..i] + Upto(s[i..], n - i)
  {
    if i > 0 {
      assert s[..i][0] == s[0];
      assert s[..i][1..] == s[1..][..i - 1] && s[1..][i - 1..] == s[i..];
      UptoSplit(s[1..], n - 1, i - 1);
    }
  }

  /** strncmp over DIRSIZ bytes: zero exactly for equal truncated names. */
  method Namecmp(s: seq<Byte>, t: seq<Byte>) returns (r: int)
    requires Readable(s) && Readable(t)
    ensures r == 0 <==> NameOf(s) == NameOf(t)
  {
    var i := 0;
    while i < DIRSIZ && s[i] != 0 && s[i] == t[i]
      invariant 0 <= i <= DIRSIZ && i <= |s| && i <= |t| && s[..i] == t[..i] && 0 !in s[..i]
      invariant i < DIRSIZ ==> i < |s| && i < |t|
    {
      i := i + 1;
      assert s[..i] == s[..i - 1] + [s[i - 1]] && t[..i] == t[..i - 1] + [t[i - 1]];
      StillReadable(s, i);
      StillReadable(t, i);
    }
    UptoSplit(s, DIRSIZ, i);
    UptoSplit(t, DIRSIZ, i);
    if i == DIRSIZ {
      return 0;
    }
    var x: int, y: int := s[i], t[i];
    r := x - y;
    assert |Upto(s[i..], DIRSIZ - i)| > 0 ==> Upto(s[i..], DIRSIZ - i)[0] == s[i];
    assert |Upto(t[i..], DIRSIZ - i)| > 0 ==> Upto(t[i..], DIRSIZ - i)[0] == t[i];
    assert Upto(s[i..], DIRSIZ - i) == Upto(t[i..], DIRSIZ - i) <==> s[i] == t[i];
    AppendCancels(s[..i], Upto(s[i..], DIRSIZ - i), Upto(t[i..], DIRSIZ - i));
  }

  lemma StillReadable(s: seq<Byte>, i: nat)
    requires Readable(s) && i <= |s| && i <= DIRSIZ && 0 !in s[..i]
    ensures i < DIRSIZ ==> i < |s|
  {
    assert i == |s| ==> s[..i] == s;
  }

  lemma AppendCancels<T>(p: seq<T>, a: seq<T>, b: seq<T>)
    ensures p + a == p + b <==> a == b
  {
    assert (p + a)[|p|..] == a && (p + b)[|p|..] == b;
  }

  /** A name as a directory entry stores it. */
  function Padded(name: seq<Byte>): (r: seq<Byte>)
    requires |name| <= DIRSIZ
  {
    name + seq(DIRSIZ - |name|, _ => 0)
  }

  lemma PaddedName(name: seq<Byte>)
    requires |name| <= DIRSIZ && 0 !in name
    ensures NameOf(Padded(name)) == name && Readable(Padded(name)) && |Padded(name)| == DIRSIZ
  {
    var p := Padded(name);
    assert p[..|name|] == name;
    UptoSplit(p, DIRSIZ, |name|);
  }

  /** strncpy over DIRSIZ bytes. */
  method Strncpy(t: seq<Byte>) returns (s: seq<Byte>)
    requires Readable(t)
    ensures s == Padded(NameOf(t))
  {
    var i := 0;
    s := [];
    while i < DIRSIZ && t[i] != 0
      invariant 0 <= i <= DIRSIZ && i <= |t| && s == t[..i] && 0 !in s
      invariant i < DIRSIZ ==> i < |t|
    {
      s := s + [t[i]];
      i := i + 1;
      assert t[..i] == t[..i - 1] + [t[i - 1]];
      StillReadable(t, i);
    }
    UptoSplit(t, DIRSIZ, i);
    assert Upto(t[i..], DIRSIZ - i) == [];
    assert s == NameOf(t);
    ghost var name := s;
    while i < DIRSIZ
      invariant |name| <= i <= DIRSIZ && s == name + seq(i - |name|, _ => 0)
    {
      s := s + [0];
      i := i + 1;
    }
  }

  // ---- the entries of a directory ------------------------------------------------------------

  function Count(c: seq<Byte>): (n: nat) {
    |c| / ENTRY
  }

  function InumAt(c: seq<Byte>, k: nat): (i: nat)
    requires k < Count(c)
  {
    var lo: int, hi: int := c[ENTRY * k], c[ENTRY * k + 1];
    lo + 0x100 * hi
  }

  function RawAt(c: seq<Byte>, k: nat): (s: seq<Byte>)
    requires k < Count(c)
    ensures |s| == DIRSIZ
  {
    c[ENTRY * k + 2..ENTRY * k + ENTRY]
  }

  function NameAt(c: seq<Byte>, k: nat): (s: seq<Byte>)
    requires k < Count(c)
  {
    NameOf(RawAt(c, k))
  }

  predicate Live(c: seq<Byte>, k: nat)
    requires k < Count(c)
  {
    InumAt(c, k) != 0
  }

  predicate Holds(c: seq<Byte>, k: nat, name: seq<Byte>)
    requires k < Count(c)
  {
    Live(c, k) && NameAt(c, k) == name
  }

  /** The first live entry from k on that holds the name, or Count(c). */
  function Search(c: seq<Byte>, name: seq<Byte>, k: nat): (r: nat)
    requires k <= Count(c)
    ensures k <= r <= Count(c) && (r < Count(c) ==> Holds(c, r, name))
    decreases Count(c) - k
  {
    if k == Count(c) || Holds(c, k, name) then k else Search(c, name, k + 1)
  }

  function FirstFree(c: seq<Byte>, k: nat): (r: nat)
    requires k <= Count(c)
    ensures k <= r <= Count(c) && (r < Count(c) ==> !Live(c, r))
    decreases Count(c) - k
  {
    if k == Count(c) || !Live(c, k) then k else FirstFree(c, k + 1)
  }

  predicate Clash(c: seq<Byte>, k: nat, l: nat) {
    k < Count(c) && l < Count(c) && Live(c, k) && Live(c, l) && NameAt(c, k) == NameAt(c, l)
  }

  /** No two live entries hold one name. */
  ghost predicate UniqueNames(c: seq<Byte>) {
    forall k: nat, l: nat :: Clash(c, k, l) ==> k == l
  }

  /** The finite map that the first n entries of a directory are. */
  function Bound(c: seq<Byte>, n: nat): (m: map<seq<Byte>, nat>)
    requires n <= Count(c)
  {
    if n == 0 then map[]
    else if Live(c, n - 1) then Bound(c, n - 1)[NameAt(c, n - 1) := InumAt(c, n - 1)]
    else Bound(c, n - 1)
  }

  function Bindings(c: seq<Byte>): (m: map<seq<Byte>, nat>) {
    Bound(c, Count(c))
  }

  /** A live entry is a binding. */
  lemma {:induction false} BoundHas(c: seq<Byte>, n: nat, k: nat)
    requires UniqueNames(c) && k < n <= Count(c) && Live(c, k)
    ensures NameAt(c, k) in Bound(c, n) && Bound(c, n)[NameAt(c, k)] == InumAt(c, k)
  {
    hide NameAt, InumAt;
    if k < n - 1 {
      BoundHas(c, n - 1, k);
      assert Clash(c, k, n - 1) ==> k == n - 1;
    }
  }

  /** A binding is a live entry. */
  lemma {:induction false} BoundFrom(c: seq<Byte>, n: nat, name: seq<Byte>) returns (k: nat)
    requires n <= Count(c) && name in Bound(c, n)
    ensures k < n && Holds(c, k, name) && InumAt(c, k) == Bound(c, n)[name]
  {
    hide NameAt, InumAt;
    if Holds(c, n - 1, name) {
      k := n - 1;
    } else {
      k := BoundFrom(c, n - 1, name);
    }
  }

  lemma {:induction false} SearchMisses(c: seq<Byte>, name: seq<Byte>, k: nat, l: nat)
    requires k <= l < Count(c) && l < Search(c, name, k)
    ensures !Holds(c, l, name)
    decreases l - k
  {
    if k < l {
      SearchMisses(c, name, k + 1, l);
    }
  }

  /** dirlookup's scan is a lookup in the map. */
  lemma SearchIsLookup(c: seq<Byte>, name: seq<Byte>)
    requires UniqueNames(c)
    ensures var r := Search(c, name, 0);
            if r < Count(c) then name in Bindings(c) && Bindings(c)[name] == InumAt(c, r) else name !in Bindings(c)
  {
    hide NameAt, InumAt, Bound;
    var r := Search(c, name, 0);
    if r < Count(c) {
      BoundHas(c, Count(c), r);
    } else if name in Bindings(c) {
      var l := BoundFrom(c, Count(c), name);
      SearchMisses(c, name, 0, l);
      assert false;
    }
  }

  function Encode(inum: Word, name: seq<Byte>): (e: seq<Byte>)
    requires |name| <= DIRSIZ
    ensures |e| == ENTRY
  {
    [inum % 0x100, inum / 0x100 % 0x100] + Padded(name)
  }

  /** d is c with an entry put in place f. */
  ghost predicate Entered(c: seq<Byte>, d: seq<Byte>, f: nat, inum: nat, name: seq<Byte>) {
    && f <= Count(c) && Count(d) == (if f == Count(c) then f + 1 else Count(c))
    && forall k: nat :: k < Count(d) ==> EntryKept(c, d, f, inum, name, k)
  }

  ghost predicate EntryKept(c: seq<Byte>, d: seq<Byte>, f: nat, inum: nat, name: seq<Byte>, k: nat)
    requires k < Count(d)
  {
    if k == f then InumAt(d, k) == inum && NameAt(d, k) == name
    else k < Count(c) && InumAt(d, k) == InumAt(c, k) && NameAt(d, k) == NameAt(c, k)
  }

  lemma InumSplit(inum: Word)
    ensures inum % 0x100 + 0x100 * (inum / 0x100 % 0x100) == inum % 0x1_0000
  {
    var high, low := inum / 0x100 / 0x100, inum % 0x100 + 0x100 * (inum / 0x100 % 0x100);
    assert inum == 0x1_0000 * high + low && 0 <= low < 0x1_0000;
  }

  lemma EntryHere(c: seq<Byte>, d: seq<Byte>, f: nat, inum: Word, name: seq<Byte>)
    requires |c| % ENTRY == 0 && f <= Count(c) && |name| <= DIRSIZ && 0 !in name
    requires ENTRY * f <= |c| && d == Splice(c, ENTRY * f, Encode(inum, name)) && f < Count(d)
    ensures EntryKept(c, d, f, inum % 0x1_0000, name, f)
  {
    hide Upto, Splice, Padded;
    var e := Encode(inum, name);
    PaddedName(name);
    InumSplit(inum);
    SpliceLength(c, ENTRY * f, e);
    SpliceAt(c, ENTRY * f, e, ENTRY * f);
    SpliceAt(c, ENTRY * f, e, ENTRY * f + 1);
    forall o | 0 <= o < DIRSIZ ensures RawAt(d, f)[o] == Padded(name)[o] {
      SpliceAt(c, ENTRY * f, e, ENTRY * f + 2 + o);
    }
    assert RawAt(d, f) == Padded(name);
  }

  lemma EntryElsewhere(c: seq<Byte>, d: seq<Byte>, f: nat, e: seq<Byte>, k: nat)
    requires |c| % ENTRY == 0 && f <= Count(c) && |e| == ENTRY
    requires ENTRY * f <= |c| && d == Splice(c, ENTRY * f, e) && k < Count(d) && k != f
    ensures k < Count(c) && InumAt(d, k) == InumAt(c, k) && RawAt(d, k) == RawAt(c, k)
  {
    hide Splice;
    SpliceLength(c, ENTRY * f, e);
    assert !(ENTRY * f <= ENTRY * k < ENTRY * f + ENTRY);
    SpliceAt(c, ENTRY * f, e, ENTRY * k);
    SpliceAt(c, ENTRY * f, e, ENTRY * k + 1);
    forall o | 0 <= o < DIRSIZ ensures RawAt(d, k)[o] == c[ENTRY * k + 2 + o] {
      SpliceAt(c, ENTRY * f, e, ENTRY * k + 2 + o);
    }
  }

  lemma EntryPut(c: seq<Byte>, f: nat, inum: Word, name: seq<Byte>)
    requires |c| % ENTRY == 0 && f <= Count(c) && |name| <= DIRSIZ && 0 !in name && ENTRY * f <= |c|
    ensures |Splice(c, ENTRY * f, Encode(inum, name))| % ENTRY == 0
    ensures Entered(c, Splice(c, ENTRY * f, Encode(inum, name)), f, inum % 0x1_0000, name)
  {
    hide Upto, Splice, Padded;
    var d := Splice(c, ENTRY * f, Encode(inum, name));
    SpliceLength(c, ENTRY * f, Encode(inum, name));
    forall k: nat | k < Count(d) ensures EntryKept(c, d, f, inum % 0x1_0000, name, k) {
      if k == f {
        EntryHere(c, d, f, inum, name);
      } else {
        EntryElsewhere(c, d, f, Encode(inum, name), k);
      }
    }
  }

  lemma UniqueAfter(c: seq<Byte>, d: seq<Byte>, f: nat, inum: nat, name: seq<Byte>)
    requires UniqueNames(c) && name !in Bindings(c) && Entered(c, d, f, inum, name)
    ensures UniqueNames(d)
  {
    hide NameAt, InumAt, Bound;
    forall k: nat, l: nat | Clash(d, k, l) ensures k == l {
      assert EntryKept(c, d, f, inum, name, k) && EntryKept(c, d, f, inum, name, l);
      if k != f && l != f {
        assert Clash(c, k, l);
      } else if k != f {
        BoundHas(c, Count(c), k);
      } else if l != f {
        BoundHas(c, Count(c), l);
      }
    }
  }

  /** What dirlink does to the directory as a map: one new binding. A number that is 0 in
      the entry's 16 bits binds nothing. */
  lemma LinkBinds(c: seq<Byte>, d: seq<Byte>, f: nat, inum: nat, name: seq<Byte>)
    requires UniqueNames(c) && name !in Bindings(c) && Entered(c, d, f, inum, name)
    requires f < Count(c) ==> !Live(c, f)
    ensures UniqueNames(d) && Bindings(d) == if inum == 0 then Bindings(c) else Bindings(c)[name := inum]
  {
    hide NameAt, InumAt, Bound;
    UniqueAfter(c, d, f, inum, name);
    var want := if inum == 0 then Bindings(c) else Bindings(c)[name := inum];
    forall n | n in want ensures n in Bindings(d) && Bindings(d)[n] == want[n] {
      if n == name {
        assert EntryKept(c, d, f, inum, name, f);
        BoundHas(d, Count(d), f);
      } else {
        var k := BoundFrom(c, Count(c), n);
        assert EntryKept(c, d, f, inum, name, k);
        BoundHas(d, Count(d), k);
      }
    }
    forall n | n in Bindings(d) ensures n in want {
      var k := BoundFrom(d, Count(d), n);
      assert EntryKept(c, d, f, inum, name, k);
      if k != f {
        BoundHas(c, Count(c), k);
      }
    }
  }
}
