/** kernel/bio.c: what its list walks compute, and the doubly linked LRU list itself. */
module CacheSpec {
  import opened Blocks

  datatype Key = Key(dev: nat, blockno: nat)

  /** n in an unsigned 32-bit count, such as refcnt. */
  function Wrap(n: int): (r: Word) {
    n % 0x1_0000_0000
  }

  /** The first position holding k, or -1: bget's forward walk. */
  function FirstWith<T(==)>(keys: seq<T>, k: T): (i: int)
    ensures -1 <= i < |keys|
    ensures i >= 0 ==> keys[i] == k
    ensures forall j :: 0 <= j < (if i < 0 then |keys| else i) ==> keys[j] != k
  {
    if keys == [] then -1
    else if keys[0] == k then 0
    else
      var r := FirstWith(keys[1..], k);
      if r < 0 then -1 else r + 1
  }

  /** The last position with no references, or -1: bget's backward walk. */
  function LastZero(refs: seq<nat>): (i: int)
    ensures -1 <= i < |refs|
    ensures i >= 0 ==> refs[i] == 0
    ensures forall j :: i < j < |refs| ==> refs[j] > 0
  {
    if refs == [] then -1
    else if refs[|refs| - 1] == 0 then |refs| - 1
    else LastZero(refs[..|refs| - 1])
  }

  function Without<T>(s: seq<T>, i: nat): (r: seq<T>)
    requires i < |s|
  {
    s[..i] + s[i + 1..]
  }

  function MoveToFront<T>(s: seq<T>, i: nat): (r: seq<T>)
    requires i < |s|
  {
    [s[i]] + Without(s, i)
  }

  lemma FirstWithUnique<T>(keys: seq<T>, k: T, i: int)
    requires -1 <= i < |keys| && (i >= 0 ==> keys[i] == k)
    requires forall j :: 0 <= j < (if i < 0 then |keys| else i) ==> keys[j] != k
    ensures i == FirstWith(keys, k)
  {
  }

  lemma LastZeroUnique(refs: seq<nat>, i: int)
    requires -1 <= i < |refs| && (i >= 0 ==> refs[i] == 0)
    requires forall j :: i < j < |refs| ==> refs[j] > 0
    ensures i == LastZero(refs)
  {
  }
}

module Bcache {
  import opened Blocks
  import opened CacheSpec

  class Buf {
    var valid: bool
    var key: Key
    var refcnt: Word
    var prev: Buf?
    var next: Buf?
    var data: Block

    constructor ()
      ensures !valid && key == Key(0, 0) && refcnt == 0 && prev == null && next == null
    {
      valid, key, refcnt, prev, next, data := false, Key(0, 0), 0, null, null, Zeros();
    }
  }

  class Bcache {
    const head: Buf
    ghost var order: seq<Buf>

    /** The list through head holds `order`, most recently used first, in both directions. */
    ghost predicate Valid()
      reads this, head, order
    {
      var n := |order|;
      && head !in order
      && (forall i, j :: 0 <= i < j < n ==> order[i] != order[j])
      && head.next == (if n == 0 then head else order[0])
      && head.prev == (if n == 0 then head else order[n - 1])
      && (forall i {:trigger order[i].next} :: 0 <= i < n ==> order[i].next == if i + 1 < n then order[i + 1] else head)
      && (forall i {:trigger order[i].prev} :: 0 <= i < n ==> order[i].prev == if i > 0 then order[i - 1] else head)
    }

    ghost function Keys(): (ks: seq<Key>)
      reads this, order
    {
      seq(|order|, i requires 0 <= i < |order| reads this, order => order[i].key)
    }

    ghost function Refs(): (rs: seq<nat>)
      reads this, order
    {
      seq(|order|, i requires 0 <= i < |order| reads this, order => order[i].refcnt)
    }

    /** binit over the given buffers: each goes to the front, so the last is first. */
    constructor (bufs: seq<Buf>)
      requires forall i, j :: 0 <= i < j < |bufs| ==> bufs[i] != bufs[j]
      modifies set b | b in bufs
      ensures Valid() && fresh(head)
      ensures |order| == |bufs| && forall i :: 0 <= i < |bufs| ==> order[i] == bufs[|bufs| - 1 - i]
      ensures forall b :: b in bufs ==> b.key == old(b.key) && b.refcnt == old(b.refcnt) && b.valid == old(b.valid)
    {
      head := new Buf();
      order := [];
      new;
      head.prev, head.next := head, head;
      var k := 0;
      while k < |bufs|
        invariant 0 <= k <= |bufs| && Valid() && fresh(head)
        invariant |order| == k && forall i :: 0 <= i < k ==> order[i] == bufs[k - 1 - i]
        invariant forall b :: b in bufs ==> b.key == old(b.key) && b.refcnt == old(b.refcnt) && b.valid == old(b.valid)
      {
        assert forall i :: 0 <= i < k ==> order[i] != bufs[k];
        PushFront(bufs[k]);
        k := k + 1;
      }
    }

    /** The last four assignments of binit's loop and of brelse. */
    method PushFront(b: Buf)
      requires Valid() && b != head && b !in order
      modifies this`order, head`next, head`prev, b`prev, b`next, order`prev
      ensures Valid() && order == [b] + old(order)
    {
      b.next := head.next;
      b.prev := head;
      head.next.prev := b;
      head.next := b;
      order := [b] + order;
    }

    /** The first two assignments of brelse's relinking. */
    method Unlink(b: Buf, ghost k: nat)
      requires Valid() && k < |order| && order[k] == b
      modifies this`order, head`next, head`prev, order`next, order`prev
      ensures Valid() && order == Without(old(order), k)
    {
      b.next.prev := b.prev;
      b.prev.next := b.next;
      order := Without(order, k);
    }

    /** brelse after releasesleep: the buffer goes to the front exactly if the count, in 32
        bits, becomes 0. */
    method Brelse(b: Buf, ghost k: nat)
      requires Valid() && k < |order| && order[k] == b
      modifies this`order, head`next, head`prev, order`next, order`prev, b`refcnt
      ensures Valid()
      ensures order == if old(b.refcnt) == 1 then MoveToFront(old(order), k) else old(order)
      ensures b.refcnt == if old(b.refcnt) == 0 then 0xffff_ffff else old(b.refcnt) - 1
    {
      b.refcnt := Wrap(b.refcnt - 1);
      if b.refcnt == 0 {
        Unlink(b, k);
        PushFront(b);
      }
    }

    /** bget's forward walk. */
    method FindCached(k: Key) returns (b: Buf)
      requires Valid()
      ensures var i := FirstWith(Keys(), k);
              b == if i < 0 then head else order[i]
    {
      b := head.next;
      ghost var i := 0;
      while b != head && b.key != k
        invariant 0 <= i <= |order| && b == if i < |order| then order[i] else head
        invariant forall j :: 0 <= j < i ==> order[j].key != k
        decreases |order| - i
      {
        assert b == order[i];
        b := b.next;
        i := i + 1;
      }
      FirstWithUnique(Keys(), k, if i < |order| then i else -1);
    }

    /** bget's backward walk. */
    method FindUnused() returns (b: Buf)
      requires Valid()
      ensures var i := LastZero(Refs());
              b == if i < 0 then head else order[i]
    {
      b := head.prev;
      ghost var i := |order| - 1;
      while b != head && b.refcnt != 0
        invariant -1 <= i < |order| && b == if i >= 0 then order[i] else head
        invariant forall j :: i < j < |order| ==> order[j].refcnt > 0
        decreases i + 1
      {
        assert b == order[i];
        b := b.prev;
        i := i - 1;
      }
      LastZeroUnique(Refs(), i);
    }

    /** A buffer that already holds the block gains a reference. */
    method Reference(b: Buf)
      requires Valid() && b in order
      modifies b`refcnt
      ensures Valid() && b.refcnt == Wrap(old(b.refcnt) + 1)
    {
      b.refcnt := Wrap(b.refcnt + 1);
    }

    /** An unused buffer is given a new block, not yet read. */
    method Recycle(b: Buf, k: Key)
      requires Valid() && b in order
      modifies b`key, b`valid, b`refcnt
      ensures Valid() && b.key == k && !b.valid && b.refcnt == 1
    {
      b.key := k;
      b.valid := false;
      b.refcnt := 1;
    }

    /** bget up to acquiresleep. `ok` is false for the panic: no buffer is free. */
    method Bget(k: Key) returns (ok: bool, b: Buf)
      requires Valid()
      modifies order`key, order`valid, order`refcnt
      ensures Valid()
      ensures var i, v := FirstWith(old(Keys()), k), LastZero(old(Refs()));
              && (i >= 0 ==> ok && b == order[i] && b.refcnt == Wrap(old(b.refcnt) + 1)
                             && b.valid == old(b.valid) && b.key == old(b.key) == k)
              && (i < 0 && v >= 0 ==> ok && b == order[v] && b.refcnt == 1 && !b.valid && b.key == k)
              && (i < 0 && v < 0 ==> !ok)
      ensures forall c :: c in order && (c != b || !ok) ==>
                c.key == old(c.key) && c.refcnt == old(c.refcnt) && c.valid == old(c.valid)
    {
      ghost var i, v := FirstWith(Keys(), k), LastZero(Refs());
      b := FindCached(k);
      if b != head {
        assert Keys()[i] == b.key;
        Reference(b);
        return true, b;
      }
      b := FindUnused();
      if b != head {
        Recycle(b, k);
        return true, b;
      }
      ok := false;
    }
  }
}
