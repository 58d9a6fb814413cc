/** copyin, copyout and copyinstr (kernel/vm.c:281-356): page-wise copies that equal
    byte-at-a-time access through the map. */
module UserMemory {
  import opened Blocks
  import opened VmSpec
  import opened VmRel
  import opened Prelude

  /** Byte a of the user memory of space r, if the page is there, accessible and r's own. */
  ghost function UserByte(m: Mem, r: nat, a: nat): (b: Option<Byte>) {
    if a < MAXVA && r in m.spaces && Leaf(m, r, a / PGSIZE).Some? && Leaf(m, r, a / PGSIZE).value.u
       && var q := Leaf(m, r, a / PGSIZE).value.ppn; IsUser(m, r, a / PGSIZE, q)
    then Some(m.page[Leaf(m, r, a / PGSIZE).value.ppn].bytes[a % PGSIZE]) else None
  }

  predicate IsUser(m: Mem, r: nat, n: nat, q: nat) {
    q in m.own && m.own[q] == User(r, n) && q in m.page && m.page[q].Data? && |m.page[q].bytes| == PGSIZE
  }

  /** The page that walkaddr gives for a, and what it means for the bytes of that page. */
  lemma PageBytes(m: Mem, r: nat, a: nat, q: nat)
    requires Inv(m) && OwnPages(m, r)
    requires q == if a < MAXVA && Leaf(m, r, a / PGSIZE).Some? && Leaf(m, r, a / PGSIZE).value.u
                  then Leaf(m, r, a / PGSIZE).value.ppn else 0
    ensures if q == 0 then UserByte(m, r, a) == None
            else IsUser(m, r, a / PGSIZE, q) && a < MAXVA
    ensures q != 0 ==> forall o: nat :: o / PGSIZE == a / PGSIZE ==>
            UserByte(m, r, o) == Some(m.page[q].bytes[o % PGSIZE])
  {
    hide Find;
    if a < MAXVA && Leaf(m, r, a / PGSIZE).Some? && Leaf(m, r, a / PGSIZE).value.u {
      assert OwnAt(m, r, a / PGSIZE);
      PageIsOk(m, Leaf(m, r, a / PGSIZE).value.ppn);
      SamePageBelow(a);
    }
  }

  lemma SamePageBelow(a: nat)
    requires a < MAXVA
    ensures forall o: nat :: o / PGSIZE == a / PGSIZE ==> o < MAXVA
  {
  }

  /** The bytes that can be read from a on, at most len of them, one at a time. */
  ghost function Readable(m: Mem, r: nat, a: nat, len: nat): (s: seq<Byte>)
    decreases len
  {
    if len == 0 || UserByte(m, r, a).None? then []
    else [UserByte(m, r, a).value] + Readable(m, r, a + 1, len - 1)
  }

  /** k bytes that are all there come first. */
  lemma {:induction false} ReadableRun(m: Mem, r: nat, a: nat, len: nat, s: seq<Byte>)
    requires |s| <= len && forall i :: 0 <= i < |s| ==> UserByte(m, r, a + i) == Some(s[i])
    ensures Readable(m, r, a, len) == s + Readable(m, r, a + |s|, len - |s|)
    decreases |s|
  {
    hide UserByte;
    if s != [] {
      assert UserByte(m, r, a + 0) == Some(s[0]);
      forall i | 0 <= i < |s| - 1 ensures UserByte(m, r, a + 1 + i) == Some(s[1..][i]) {
        assert UserByte(m, r, a + (i + 1)) == Some(s[i + 1]);
      }
      ReadableRun(m, r, a + 1, len - 1, s[1..]);
      assert s == [s[0]] + s[1..];
    }
  }

  /** A string: the bytes up to the first NUL, which must come within max bytes. */
  ghost function String(m: Mem, r: nat, a: nat, max: nat): (s: (bool, seq<Byte>))
    decreases max
  {
    if max == 0 || UserByte(m, r, a).None? then (false, [])
    else
      var b := UserByte(m, r, a).value;
      if b == 0 then (true, [b])
      else
        var (ok, s) := String(m, r, a + 1, max - 1);
        (ok, [b] + s)
  }

  /** Nothing else in user memory changed but that s is at a in space r. */
  ghost predicate Poked(m: Mem, w: Mem, r: nat, a: nat, s: seq<Byte>) {
    && w.own == m.own && w.spaces == m.spaces
    && (forall x {:trigger SameTree(m, w, x)} :: x in m.spaces ==> SameTree(m, w, x))
    && forall x, o: nat ::
         UserByte(w, x, o) == if x == r && a <= o < a + |s| then Some(s[o - a]) else UserByte(m, x, o)
  }

  lemma PokedNothing(m: Mem, r: nat, a: nat)
    ensures Poked(m, m, r, a, [])
  {
  }

  lemma PokedJoin(m: Mem, x: Mem, w: Mem, r: nat, a: nat, s: seq<Byte>, t: seq<Byte>)
    requires Poked(m, x, r, a, s) && Poked(x, w, r, a + |s|, t)
    ensures Poked(m, w, r, a, s + t)
  {
    hide UserByte;
    forall y | y in m.spaces ensures SameTree(m, w, y) {
      SameTreeTrans(m, x, w, y);
    }
    forall y, o: nat
      ensures UserByte(w, y, o) == if y == r && a <= o < a + |s + t| then Some((s + t)[o - a]) else UserByte(m, y, o)
    {
      assert UserByte(w, y, o) ==
             if y == r && a + |s| <= o < a + |s| + |t| then Some(t[o - a - |s|]) else UserByte(x, y, o);
    }
  }

  function Over(p: seq<Byte>, at: nat, s: seq<Byte>): (r: seq<Byte>)
    requires at + |s| <= |p|
  {
    p[..at] + s + p[at + |s|..]
  }

  /** memmove of s into one page. */
  lemma PokePage(m: Mem, w: Mem, r: nat, a: nat, q: nat, s: seq<Byte>)
    requires Inv(m) && OwnPages(m, r) && IsUser(m, r, a / PGSIZE, q) && a % PGSIZE + |s| <= PGSIZE && a < MAXVA
    requires Leaf(m, r, a / PGSIZE).Some? && Leaf(m, r, a / PGSIZE).value.u && Leaf(m, r, a / PGSIZE).value.ppn == q
    requires w == Put(m, q, Data(Over(m.page[q].bytes, a % PGSIZE, s)), m.own[q])
    ensures Inv(w) && Poked(m, w, r, a, s)
  {
    hide Find, NodeOk, EntOk, SpaceOk, HeapOk, SameTree;
    PageInv(m, q);
    PutKeeps(m, w, q, Data(Over(m.page[q].bytes, a % PGSIZE, s)), m.own[q]);
    assert w.own == m.own;
    forall x, o: nat
      ensures UserByte(w, x, o) == if x == r && a <= o < a + |s| then Some(s[o - a]) else UserByte(m, x, o)
    {
      if x in m.spaces && o < MAXVA {
        SameLeaf(m, w, x, o / PGSIZE);
        OneByte(m, w, r, a, q, s, x, o);
      }
      SpanBelow(a, |s|);
    }
  }

  lemma SpanBelow(a: nat, n: nat)
    requires a < MAXVA && a % PGSIZE + n <= PGSIZE
    ensures a + n <= MAXVA
  {
  }

  lemma PageInv(m: Mem, q: nat)
    requires Inv(m) && q in m.own && m.own[q].User?
    ensures m.own[q].root in m.spaces && m.own[q].n < VPAGES
  {
    UserLeaf(m, q);
  }

  lemma OneByte(m: Mem, w: Mem, r: nat, a: nat, q: nat, s: seq<Byte>, x: nat, o: nat)
    requires IsUser(m, r, a / PGSIZE, q) && a % PGSIZE + |s| <= PGSIZE && a < MAXVA && o < MAXVA
    requires r in m.spaces && Leaf(m, r, a / PGSIZE).Some? && Leaf(m, r, a / PGSIZE).value.u
    requires Leaf(m, r, a / PGSIZE).value.ppn == q
    requires w == Put(m, q, Data(Over(m.page[q].bytes, a % PGSIZE, s)), m.own[q])
    requires x in m.spaces && Leaf(w, x, o / PGSIZE) == Leaf(m, x, o / PGSIZE)
    ensures UserByte(w, x, o) == if x == r && a <= o < a + |s| then Some(s[o - a]) else UserByte(m, x, o)
  {
    hide Find;
    var p := m.page[q].bytes;
    var at := a % PGSIZE;
    assert |Over(p, at, s)| == PGSIZE;
    if x == r && o / PGSIZE == a / PGSIZE {
      assert o - a == o % PGSIZE - at;
      assert Over(p, at, s)[o % PGSIZE] == if at <= o % PGSIZE < at + |s| then s[o % PGSIZE - at] else p[o % PGSIZE];
    } else if x == r {
      assert !(a <= o < a + |s|) by {
        OtherPage(a, o, |s|);
      }
    }
  }

  lemma OtherPage(a: nat, o: nat, n: nat)
    requires o / PGSIZE != a / PGSIZE && a % PGSIZE + n <= PGSIZE
    ensures !(a <= o < a + n)
  {
  }
}

module UserCopy {
  import opened Blocks
  import opened VmSpec
  import opened VmCode
  import opened UserMemory
  import opened Prelude

  /** copyin: the bytes that byte-at-a-time reading gives; it succeeds if all of them are there. */
  method Copyin(k: Kernel, r: nat, srcva0: nat, len0: nat) returns (ok: bool, dst: seq<Byte>)
    requires k.Valid() && OwnPages(k.M(), r)
    modifies k
    ensures k.M() == old(k.M())
    ensures dst == Readable(k.M(), r, srcva0, len0) && ok == (|dst| == len0)
  {
    hide Inv, Find, UserByte, OwnPages, Readable;
    ghost var m := k.M();
    OwnSpace(m, r);
    var srcva: nat, len: nat := srcva0, len0;
    dst := [];
    while len > 0
      invariant k.Valid() && k.M() == m && len + |dst| == len0 && srcva == srcva0 + |dst|
      invariant Readable(m, r, srcva0, len0) == dst + Readable(m, r, srcva, len)
    {
      var va0 := srcva / PGSIZE * PGSIZE;
      var q := k.Walkaddr(r, va0);
      PageBytes(m, r, va0, q);
      assert va0 / PGSIZE == srcva / PGSIZE;
      if q == 0 {
        NoByte(m, r, va0, srcva);
        ReadableEnd(m, r, srcva, len);
        return false, dst;
      }
      var n := PGSIZE - (srcva - va0);
      if n > len {
        n := len;
      }
      var part := k.page[q].bytes[srcva - va0..srcva - va0 + n];
      PagePart(m, r, srcva, q, part);
      ReadableRun(m, r, srcva, len, part);
      dst := dst + part;
      len := len - n;
      srcva := srcva + n;
    }
    ReadableEnd(m, r, srcva, 0);
    ok := true;
  }

  lemma ReadableEnd(m: Mem, r: nat, a: nat, len: nat)
    requires len == 0 || UserByte(m, r, a) == None
    ensures Readable(m, r, a, len) == []
  {
    hide UserByte;
  }

  /** No byte of a page can be read if its first cannot. */
  lemma NoByte(m: Mem, r: nat, a: nat, o: nat)
    requires a / PGSIZE == o / PGSIZE && UserByte(m, r, a) == None
    ensures UserByte(m, r, o) == None
  {
  }

  lemma PagePart(m: Mem, r: nat, a: nat, q: nat, part: seq<Byte>)
    requires IsUser(m, r, a / PGSIZE, q) && a % PGSIZE + |part| <= PGSIZE
    requires part == m.page[q].bytes[a % PGSIZE..a % PGSIZE + |part|]
    requires forall o: nat :: o / PGSIZE == a / PGSIZE ==> UserByte(m, r, o) == Some(m.page[q].bytes[o % PGSIZE])
    ensures forall i :: 0 <= i < |part| ==> UserByte(m, r, a + i) == Some(part[i])
  {
    hide UserByte;
    forall i | 0 <= i < |part| ensures UserByte(m, r, a + i) == Some(part[i]) {
      assert (a + i) / PGSIZE == a / PGSIZE && (a + i) % PGSIZE == a % PGSIZE + i;
    }
  }

  /** copyout: the bytes of src go to user memory from dstva0 on, up to the first that has no
      page; no other byte of any space changes. */
  method Copyout(k: Kernel, r: nat, dstva0: nat, src: seq<Byte>) returns (ok: bool, ghost done: nat)
    requires k.Valid() && OwnPages(k.M(), r)
    modifies k
    ensures k.Valid() && done <= |src| && ok == (done == |src|)
    ensures Poked(old(k.M()), k.M(), r, dstva0, src[..done])
    ensures OwnPages(k.M(), r) && (old(AllOwn(k.M())) ==> AllOwn(k.M()))
    ensures !ok ==> UserByte(old(k.M()), r, dstva0 + done) == None
  {
    hide Inv, Find, UserByte, Poked, OwnPages, AllOwn;
    ghost var m := k.M();
    var dstva, at := dstva0, 0;
    PokedNothing(m, r, dstva0);
    assert src[..0] == [];
    while at < |src|
      invariant 0 <= at <= |src| && dstva == dstva0 + at
      invariant k.Valid() && OwnPages(k.M(), r) && Poked(m, k.M(), r, dstva0, src[..at])
    {
      ghost var x := k.M();
      OwnSpace(x, r);
      var va0 := dstva / PGSIZE * PGSIZE;
      var q := k.Walkaddr(r, va0);
      PageBytes(x, r, va0, q);
      assert va0 / PGSIZE == dstva / PGSIZE;
      if q == 0 {
        NoByte(x, r, va0, dstva);
        StillNone(m, x, r, dstva0, src[..at], dstva);
        AllOwnStays(m, x, r, dstva0, src[..at]);
        return false, at;
      }
      var n := PGSIZE - (dstva - va0);
      if n > |src| - at {
        n := |src| - at;
      }
      ghost var w := Put(x, q, Data(Over(k.page[q].bytes, dstva % PGSIZE, src[at..at + n])), k.own[q]);
      AddressBelow(va0, dstva);
      PokePage(x, w, r, dstva, q, src[at..at + n]);
      PokedJoin(m, x, w, r, dstva0, src[..at], src[at..at + n]);
      assert src[..at] + src[at..at + n] == src[..at + n];
      OwnStays(x, w, r, dstva, src[at..at + n], r);
      k.page := k.page[q := Data(Over(k.page[q].bytes, dstva - va0, src[at..at + n]))];
      assert k.own[q := k.own[q]] == k.own;
      assert k.M() == w;
      at := at + n;
      dstva := dstva + n;
    }
    assert src[..|src|] == src;
    AllOwnStays(m, k.M(), r, dstva0, src);
    return true, |src|;
  }

  lemma OwnSpace(m: Mem, r: nat)
    requires OwnPages(m, r)
    ensures r in m.spaces
  {
  }

  lemma AddressBelow(a: nat, o: nat)
    requires a / PGSIZE == o / PGSIZE && a < MAXVA
    ensures o < MAXVA
  {
  }

  lemma StillNone(m: Mem, x: Mem, r: nat, a: nat, s: seq<Byte>, o: nat)
    requires Poked(m, x, r, a, s) && UserByte(x, r, o) == None && o >= a + |s|
    ensures UserByte(m, r, o) == None
  {
    hide UserByte;
    assert UserByte(x, r, o) == UserByte(m, r, o);
  }

  lemma OwnStays(x: Mem, w: Mem, r: nat, a: nat, s: seq<Byte>, t: nat)
    requires OwnPages(x, t) && Poked(x, w, r, a, s)
    ensures OwnPages(w, t)
  {
    hide Find, UserByte;
    assert SameTree(x, w, t);
    forall n: nat ensures OwnAt(w, t, n) {
      assert OwnAt(x, t, n);
      SameLeaf(x, w, t, n);
    }
  }

  lemma AllOwnStays(m: Mem, w: Mem, r: nat, a: nat, s: seq<Byte>)
    requires Poked(m, w, r, a, s)
    ensures AllOwn(m) ==> AllOwn(w)
  {
    hide Find, UserByte, OwnPages;
    if AllOwn(m) {
      forall t | t in w.spaces ensures OwnPages(w, t) {
        OwnStays(m, w, r, a, s, t);
      }
    }
  }

  /** `all` is s followed by `rest`. */
  predicate Ahead(all: (bool, seq<Byte>), s: seq<Byte>, rest: (bool, seq<Byte>)) {
    all.0 == rest.0 && all.1 == s + rest.1
  }

  lemma AheadJoin(all: (bool, seq<Byte>), s: seq<Byte>, mid: (bool, seq<Byte>), t: seq<Byte>, rest: (bool, seq<Byte>))
    requires Ahead(all, s, mid) && Ahead(mid, t, rest)
    ensures Ahead(all, s + t, rest)
  {
  }

  lemma AheadStart(all: (bool, seq<Byte>))
    ensures Ahead(all, [], all)
  {
  }

  lemma AheadLast(all: (bool, seq<Byte>), s: seq<Byte>, rest: (bool, seq<Byte>))
    requires Ahead(all, s, rest)
    ensures all == (rest.0, s + rest.1)
  {
  }

  lemma AheadEnd(m: Mem, r: nat, a: nat, max: nat, s: seq<Byte>, o: nat, left: nat)
    requires Ahead(String(m, r, a, max), s, String(m, r, o, left)) && (left == 0 || UserByte(m, r, o) == None)
    ensures String(m, r, a, max) == (false, s)
  {
    hide UserByte;
    assert s + [] == s;
  }

  /** copyinstr's inner loop: bytes of one page, up to a NUL. */
  method CopyUntilNul(p: seq<Byte>, ghost m: Mem, r: nat, a: nat, max: nat) returns (nul: bool, dst: seq<Byte>)
    requires |p| <= max && forall i :: 0 <= i < |p| ==> UserByte(m, r, a + i) == Some(p[i])
    ensures if nul then String(m, r, a, max) == (true, dst)
            else |dst| == |p| && Ahead(String(m, r, a, max), dst, String(m, r, a + |p|, max - |p|))
  {
    hide UserByte;
    var i := 0;
    dst := [];
    while i < |p|
      invariant 0 <= i <= |p| && |dst| == i
      invariant Ahead(String(m, r, a, max), dst, String(m, r, a + i, max - i))
    {
      assert UserByte(m, r, a + i) == Some(p[i]);
      ghost var here := String(m, r, a + i, max - i);
      if p[i] == 0 {
        dst := dst + [p[i]];
        return true, dst;
      }
      AheadJoin(String(m, r, a, max), dst, here, [p[i]], String(m, r, a + i + 1, max - i - 1));
      dst := dst + [p[i]];
      i := i + 1;
    }
    nul := false;
  }

  /** copyinstr: the string at srcva0, read byte by byte; it succeeds just if a NUL is found
      within max0 bytes, all of them readable. */
  method Copyinstr(k: Kernel, r: nat, srcva0: nat, max0: nat) returns (ok: bool, dst: seq<Byte>)
    requires k.Valid() && OwnPages(k.M(), r)
    modifies k
    ensures k.M() == old(k.M())
    ensures (ok, dst) == String(k.M(), r, srcva0, max0)
  {
    hide Inv, Find, UserByte, String, Ahead, OwnPages;
    ghost var m := k.M();
    OwnSpace(m, r);
    var srcva: nat, max: nat := srcva0, max0;
    dst := [];
    AheadStart(String(m, r, srcva, max));
    while max > 0
      invariant k.Valid() && k.M() == m && max + |dst| == max0 && srcva == srcva0 + |dst|
      invariant Ahead(String(m, r, srcva0, max0), dst, String(m, r, srcva, max))
    {
      var va0 := srcva / PGSIZE * PGSIZE;
      var q := k.Walkaddr(r, va0);
      PageBytes(m, r, va0, q);
      assert va0 / PGSIZE == srcva / PGSIZE;
      if q == 0 {
        NoByte(m, r, va0, srcva);
        AheadEnd(m, r, srcva0, max0, dst, srcva, max);
        return false, dst;
      }
      var n := PGSIZE - (srcva - va0);
      if n > max {
        n := max;
      }
      var part := k.page[q].bytes[srcva - va0..srcva - va0 + n];
      PagePart(m, r, srcva, q, part);
      var nul, s := CopyUntilNul(part, m, r, srcva, max);
      if nul {
        AheadLast(String(m, r, srcva0, max0), dst, (true, s));
        dst := dst + s;
        return true, dst;
      }
      AheadJoin(String(m, r, srcva0, max0), dst, String(m, r, srcva, max), s, String(m, r, srcva + n, max - n));
      dst := dst + s;
      max := max - n;
      srcva := srcva + n;
    }
    AheadEnd(m, r, srcva0, max0, dst, srcva, max);
    ok := false;
  }
}
