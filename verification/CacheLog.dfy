/** The log over the cache (kernel/log.c with kernel/bio.c): both machines moving together.
    log_write pins what is new in the list, commit's writes go through held buffers, and
    install_trans unpins. */
module CacheLog {
  import opened Blocks
  import opened CacheSpec
  import opened LogDisk
  import Cache = CacheMachine
  import Log = LogMachine

  datatype Pair = Pair(t: Cache.State, s: Log.State)

  datatype Move =
    | Cached(act: Cache.Step)        // a step at the cache alone
    | Logged(step: Log.Step)         // a step of the log alone
    | LogWrite(u: nat, i: nat)       // log_write of what use u holds, in operation i
    | Write(u: nat)                  // bwrite of a log block or the header
    | Install(u: nat)                // bwrite of a home block, and bunpin

  /** Use u holds block b of device d, which has been read. */
  predicate Holds(t: Cache.State, u: nat, d: nat, b: nat)
    requires Cache.Sane(t)
  {
    && u < |t.uses| && t.uses[u].stage == Cache.Holding && t.bufs[t.uses[u].buf].valid
    && t.bufs[t.uses[u].buf].key == Key(d, b)
  }

  function Data(t: Cache.State, u: nat): (x: Block)
    requires Cache.Sane(t) && u < |t.uses|
  {
    t.bufs[t.uses[u].buf].data
  }

  /** commit is at its writes to home blocks. */
  predicate Installing(s: Log.State) {
    s.phase.Committing? && |s.lh| < s.phase.i <= 2 * |s.lh|
  }

  /** How many blocks of the list are home and unpinned. */
  function Done(s: Log.State): (k: nat)
    ensures k <= |s.lh|
  {
    if !s.phase.Committing? || s.phase.i <= |s.lh| then 0
    else if s.phase.i <= 2 * |s.lh| + 1 then s.phase.i - |s.lh| - 1
    else |s.lh|
  }

  /** The holder u has the next block write of commit or recovery in its buffer. */
  predicate Next(c: Log.Config, d: nat, p: Pair, u: nat) {
    && Cache.Sane(p.t) && Log.Enabled(c, p.s, Log.DiskWrite)
    && var (b, x) := Log.NextBlockWrite(c, p.s);
       Holds(p.t, u, d, b) && Data(p.t, u) == x
  }

  /** A holder lets go of a block of the device only as the log knows it: what it changed it
      has logged. The log's blocks are written by its own writes alone. */
  predicate Can(c: Log.Config, d: nat, p: Pair, m: Move) {
    match m
    case Cached(step) =>
      && Cache.Enabled(p.t, step) && !step.Write? && !step.Pin? && !step.Unpin? && !step.Drop?
      && (step.Unlock? && p.t.bufs[p.t.uses[step.u].buf].key.dev == d ==>
            var b := p.t.bufs[p.t.uses[step.u].buf].key.blockno;
            b < |p.s.disk| && b < 0x1_0000_0000 && Data(p.t, step.u) == Log.View(p.s, b))
    case Logged(step) => Log.Enabled(c, p.s, step) && !step.LogWrite? && !step.DiskWrite? && !step.Crash?
    case LogWrite(u, i) =>
      && Cache.Sane(p.t) && u < |p.t.uses|
      && var b := p.t.bufs[p.t.uses[u].buf].key.blockno;
         && b < 0x1_0000_0000 && Holds(p.t, u, d, b) && Log.Enabled(c, p.s, Log.LogWrite(i, b, Data(p.t, u)))
         && (b !in p.s.lh ==> Cache.Enabled(p.t, Cache.Pin(u)))
    case Write(u) => Next(c, d, p, u) && !Installing(p.s) && Cache.Enabled(p.t, Cache.Write(u))
    case Install(u) =>
      && Next(c, d, p, u) && Installing(p.s) && Cache.Enabled(p.t, Cache.Write(u))
      && Cache.Enabled(Cache.Do(p.t, Cache.Write(u)), Cache.Unpin(u))
  }

  function Do(c: Log.Config, d: nat, p: Pair, m: Move): (q: Pair)
    requires Can(c, d, p, m)
  {
    match m
    case Cached(step) => p.(t := Cache.Do(p.t, step))
    case Logged(step) => p.(s := Log.Do(c, p.s, step))
    case LogWrite(u, i) =>
      var b: Word := p.t.bufs[p.t.uses[u].buf].key.blockno;
      Pair(if b in p.s.lh then p.t else Cache.Do(p.t, Cache.Pin(u)),
           Log.Do(c, p.s, Log.LogWrite(i, b, Data(p.t, u))))
    case Write(u) => Pair(Cache.Do(p.t, Cache.Write(u)), Log.Do(c, p.s, Log.DiskWrite))
    case Install(u) =>
      Pair(Cache.Do(Cache.Do(p.t, Cache.Write(u)), Cache.Unpin(u)), Log.Do(c, p.s, Log.DiskWrite))
  }

  // ---- what the two have in common --------------------------------------------------------

  /** The blocks of the list that are still pinned. */
  function Left(s: Log.State): (bs: seq<Word>) {
    s.lh[Done(s)..]
  }

  predicate SameDisk(t: Cache.State, s: Log.State, d: nat) {
    && (forall k :: k in t.disk && k.dev == d ==> k.blockno < |s.disk|)
    && forall b: nat :: b < |s.disk| ==> Key(d, b) in t.disk && t.disk[Key(d, b)] == s.disk[b]
  }

  predicate PinnedRight(t: Cache.State, s: Log.State, d: nat, i: nat)
    requires Cache.Sane(t) && i < |t.bufs|
  {
    t.bufs[i].key.dev == d ==>
      && t.pins[i] == (if t.bufs[i].key.blockno in Left(s) then 1 else 0)
      && (t.pins[i] > 0 ==> t.bufs[i].valid)
  }

  predicate HasBuffer(t: Cache.State, i: nat, k: Key) {
    i < |t.bufs| && t.bufs[i].key == k
  }

  /** Exactly the blocks that are listed and not yet home are pinned, each once. */
  ghost predicate Pinned(t: Cache.State, s: Log.State, d: nat)
    requires Cache.Sane(t)
  {
    && (forall i: nat :: i < |t.bufs| ==> PinnedRight(t, s, d, i))
    && forall b :: b in Left(s) ==> exists i :: HasBuffer(t, i, Key(d, b))
  }

  ghost predicate Locked(t: Cache.State, k: Key) {
    exists i: nat :: HasBuffer(t, i, k) && t.bufs[i].locked
  }

  /** Unless somebody holds the block, what was last put in it is what the log machine says a
      reader sees. */
  ghost predicate SeesAt(t: Cache.State, s: Log.State, d: nat, b: Word) {
    b < |s.disk| && !Locked(t, Key(d, b)) ==> Key(d, b) in t.contents && t.contents[Key(d, b)] == Log.View(s, b)
  }

  ghost predicate Agrees(t: Cache.State, s: Log.State, d: nat) {
    && d != 0 && Cache.Sane(t) && SameDisk(t, s, d) && Pinned(t, s, d)
    && forall b: Word :: SeesAt(t, s, d, b)
  }

  ghost predicate Joint(c: Log.Config, init: Disk, d: nat, p: Pair) {
    && Cache.Inv(p.t) && Cache.Paid(p.t) && Log.Inv(c, init, p.s)
    && (p.s.phase.Recovering? ==> p.s.lh == []) && Agrees(p.t, p.s, d)
  }

  // ---- steps at the cache alone --------------------------------------------------------------

  lemma PinnedFrame(t: Cache.State, t': Cache.State, s: Log.State, d: nat)
    requires Cache.Sane(t) && Cache.Sane(t') && Pinned(t, s, d) && |t'.bufs| == |t.bufs| && t'.pins == t.pins
    requires forall i :: 0 <= i < |t.bufs| ==> t'.bufs[i].key == t.bufs[i].key && (t.bufs[i].valid ==> t'.bufs[i].valid)
    ensures Pinned(t', s, d)
  {
    hide Left;
    forall i: nat | i < |t.bufs| ensures PinnedRight(t', s, d, i) {
      assert PinnedRight(t, s, d, i);
    }
    assert forall i: nat, k :: HasBuffer(t, i, k) ==> HasBuffer(t', i, k);
  }

  lemma SeesFrame(t: Cache.State, t': Cache.State, s: Log.State, d: nat, b: Word)
    requires SeesAt(t, s, d, b) && |t'.bufs| == |t.bufs| && (Key(d, b) in t.contents ==> Key(d, b) in t'.contents)
    requires forall i :: 0 <= i < |t.bufs| && t.bufs[i].locked ==> t'.bufs[i].locked && t'.bufs[i].key == t.bufs[i].key
    requires Locked(t', Key(d, b)) || (Key(d, b) in t.contents ==> t'.contents[Key(d, b)] == t.contents[Key(d, b)])
    ensures SeesAt(t', s, d, b)
  {
    if Locked(t, Key(d, b)) {
      var i: nat :| HasBuffer(t, i, Key(d, b)) && t.bufs[i].locked;
      assert HasBuffer(t', i, Key(d, b)) && t'.bufs[i].locked;
    }
  }

  /** A step that leaves disk, contents, keys and pins alone, and unlocks nothing. */
  lemma AgreesFrame(t: Cache.State, t': Cache.State, s: Log.State, d: nat)
    requires Agrees(t, s, d) && Cache.Sane(t') && t'.disk == t.disk && t'.contents == t.contents
    requires |t'.bufs| == |t.bufs| && t'.pins == t.pins
    requires forall i :: 0 <= i < |t.bufs| ==>
               && t'.bufs[i].key == t.bufs[i].key && (t.bufs[i].valid ==> t'.bufs[i].valid)
               && (t.bufs[i].locked ==> t'.bufs[i].locked)
    ensures Agrees(t', s, d)
  {
    hide SeesAt, Pinned;
    PinnedFrame(t, t', s, d);
    forall b: Word ensures SeesAt(t', s, d, b) {
      SeesFrame(t, t', s, d, b);
    }
  }

  /** A recycled buffer is neither pinned nor locked. */
  lemma AgreesRecycle(t: Cache.State, s: Log.State, d: nat, i: nat, k: Key)
    requires Cache.Inv(t) && Agrees(t, s, d) && i < |t.bufs| && t.bufs[i].refcnt == 0 && t.owe[i] == 0
    requires forall j :: 0 <= j < |t.bufs| ==> t.bufs[j].key != k
    ensures Cache.Sane(Cache.DoRecycle(t, i, k)) && Agrees(Cache.DoRecycle(t, i, k), s, d)
  {
    hide Cache.Listed, Cache.Exclusive, Cache.Coherent, Left, SeesAt;
    Cache.IdleBuffer(t, i);
    var t' := Cache.DoRecycle(t, i, k);
    assert Cache.Sane(t');
    forall j: nat | j < |t.bufs| ensures PinnedRight(t', s, d, j) {
      assert PinnedRight(t, s, d, j);
    }
    forall b | b in Left(s) ensures exists j :: HasBuffer(t', j, Key(d, b)) {
      var j: nat :| HasBuffer(t, j, Key(d, b));
      assert PinnedRight(t, s, d, j);
      assert HasBuffer(t', j, Key(d, b));
    }
    forall b: Word ensures SeesAt(t', s, d, b) {
      SeesFrame(t, t', s, d, b);
    }
  }

  lemma AgreesGet(t: Cache.State, s: Log.State, d: nat, k: Key)
    requires Cache.Inv(t) && Cache.Paid(t) && Agrees(t, s, d) && Cache.Enabled(t, Cache.Get(k))
    ensures Cache.Sane(Cache.DoGet(t, k)) && Agrees(Cache.DoGet(t, k), s, d)
  {
    hide Cache.Listed, Cache.Counted, Cache.Exclusive, Cache.Coherent, Agrees;
    AgreesSane(t, s, d);
    var i, v := FirstWith(Cache.OrderKeys(t), k), LastZero(Cache.OrderRefs(t));
    if i >= 0 {
      AgreesFrame(t, Cache.DoHit(t, t.order[i], k), s, d);
    } else if v >= 0 {
      assert Cache.OrderRefs(t)[v] == t.bufs[t.order[v]].refcnt;
      Cache.NotCached(t, k);
      AgreesRecycle(t, s, d, t.order[v], k);
    } else {
      AgreesFrame(t, t.(panicked := true), s, d);
    }
  }

  lemma AgreesSane(t: Cache.State, s: Log.State, d: nat)
    requires Agrees(t, s, d)
    ensures Cache.Sane(t)
  {
  }

  /** What is changed is held. */
  lemma AgreesModify(t: Cache.State, s: Log.State, d: nat, u: nat, x: Block)
    requires Cache.Inv(t) && Agrees(t, s, d) && Cache.Enabled(t, Cache.Modify(u, x))
    ensures Agrees(Cache.DoHeld(t, Cache.Modify(u, x)), s, d)
  {
    hide Cache.Listed, Cache.Coherent, SeesAt, Pinned;
    var t', i := Cache.DoHeld(t, Cache.Modify(u, x)), t.uses[u].buf;
    Cache.HolderLocks(t, u);
    PinnedFrame(t, t', s, d);
    forall b: Word ensures SeesAt(t', s, d, b) {
      if t.bufs[i].key == Key(d, b) {
        assert HasBuffer(t', i, Key(d, b)) && t'.bufs[i].locked;
      }
      SeesFrame(t, t', s, d, b);
    }
  }

  /** What is let go is as the log knows it. */
  lemma AgreesUnlock(t: Cache.State, s: Log.State, d: nat, u: nat)
    requires Cache.Inv(t) && Agrees(t, s, d) && Cache.Enabled(t, Cache.Unlock(u))
    requires var k := t.bufs[t.uses[u].buf].key;
             k.dev == d ==> k.blockno < |s.disk| && k.blockno < 0x1_0000_0000 && Data(t, u) == Log.View(s, k.blockno)
    ensures Agrees(Cache.DoHeld(t, Cache.Unlock(u)), s, d)
  {
    hide Cache.Listed, Cache.Counted, Pinned;
    var t', i := Cache.DoHeld(t, Cache.Unlock(u)), t.uses[u].buf;
    PinnedFrame(t, t', s, d);
    forall b: Word ensures SeesAt(t', s, d, b) {
      assert SeesAt(t, s, d, b);
      if t.bufs[i].key != Key(d, b) && Locked(t, Key(d, b)) {
        var j: nat :| HasBuffer(t, j, Key(d, b)) && t.bufs[j].locked;
        assert HasBuffer(t', j, Key(d, b)) && t'.bufs[j].locked;
      }
    }
  }

  lemma AgreesRelease(t: Cache.State, s: Log.State, d: nat, u: nat)
    requires Cache.Inv(t) && Agrees(t, s, d) && Cache.Enabled(t, Cache.Release(u))
    ensures Agrees(Cache.DoRelease(t, u), s, d)
  {
    hide Cache.Listed, Cache.Counted, Cache.Exclusive, Cache.Coherent, Agrees, Wrap, MoveToFront, FirstWith;
    Cache.ReleaseInv(t, u);
    Cache.ReleaseEffect(t, u);
    Cache.InvSane(Cache.DoRelease(t, u));
    AgreesFrame(t, Cache.DoRelease(t, u), s, d);
  }

  lemma AgreesCached(c: Log.Config, t: Cache.State, s: Log.State, d: nat, step: Cache.Step)
    requires Cache.Inv(t) && Cache.Paid(t) && Agrees(t, s, d) && Can(c, d, Pair(t, s), Cached(step))
    ensures Agrees(Cache.Do(t, step), s, d)
  {
    hide Agrees, Cache.Inv;
    if step.Get? {
      AgreesGet(t, s, d, step.key);
    } else if step.Modify? {
      AgreesModify(t, s, d, step.u, step.data);
    } else if step.Unlock? {
      AgreesUnlock(t, s, d, step.u);
    } else if step.Release? {
      AgreesRelease(t, s, d, step.u);
    } else {
      AgreesFrame(t, Cache.DoHeld(t, step), s, d);
    }
  }

  // ---- steps of the log alone ------------------------------------------------------------------

  lemma LogFrame(t: Cache.State, s: Log.State, s': Log.State, d: nat)
    requires Agrees(t, s, d) && s'.disk == s.disk && Left(s') == Left(s)
    requires forall b: Word :: b < |s.disk| ==> Log.View(s', b) == Log.View(s, b)
    ensures Agrees(t, s', d)
  {
    hide Left, Log.View;
    forall i: nat | i < |t.bufs| ensures PinnedRight(t, s', d, i) {
      assert PinnedRight(t, s, d, i);
    }
    forall b: Word ensures SeesAt(t, s', d, b) {
      assert SeesAt(t, s, d, b);
    }
  }

  /** When commit has finished, what it unpinned is what the disk holds. */
  lemma FinishView(c: Log.Config, init: Disk, s: Log.State, b: Word)
    requires Log.DiskInv(c, init, s) && Log.Enabled(c, s, Log.Finish) && (s.phase.Recovering? ==> s.lh == [])
    requires b < |s.disk|
    ensures Log.View(s, b) == s.disk[b] && Left(s) == []
  {
    if s.phase.Committing? && s.lh != [] && b in s.cache {
      var data, n, base := Log.Dirty(s.lh, s.cache), |s.lh|, s.phase.base;
      CommitNew(c.area, base, s.lh, data, 2 * n + 2);
      RecoveredClear(c.area, s.disk);
      AppliedAt(base, s.lh, data, n, b);
      var k :| 0 <= k < n && s.lh[k] == b;
    }
  }

  lemma AgreesLogged(c: Log.Config, init: Disk, t: Cache.State, s: Log.State, d: nat, step: Log.Step)
    requires Log.DiskInv(c, init, s) && Agrees(t, s, d) && Can(c, d, Pair(t, s), Logged(step))
    requires s.phase.Recovering? ==> s.lh == []
    ensures Agrees(t, Log.Do(c, s, step), d)
  {
    hide Agrees, Log.DiskInv;
    var s' := Log.Do(c, s, step);
    if step.Finish? {
      forall b: Word | b < |s.disk| ensures Log.View(s', b) == Log.View(s, b) {
        FinishView(c, init, s, b);
      }
      if |s.disk| > 0 {
        FinishView(c, init, s, 0);
      }
    }
    LogFrame(t, s, s', d);
  }

  // ---- moves of both ---------------------------------------------------------------------------

  /** Buffers of a held block: the holder's, and no other. */
  lemma OnlyBuffer(t: Cache.State, u: nat, d: nat, b: nat, i: nat)
    requires Cache.Inv(t) && Holds(t, u, d, b) && d != 0 && HasBuffer(t, i, Key(d, b))
    ensures i == t.uses[u].buf && t.bufs[i].locked
  {
    hide Cache.Listed, Cache.Coherent;
    Cache.HolderLocks(t, u);
  }

  lemma HeldLocked(t: Cache.State, u: nat, d: nat, b: nat)
    requires Cache.Inv(t) && Holds(t, u, d, b)
    ensures Locked(t, Key(d, b))
  {
    hide Cache.Listed, Cache.Coherent, Cache.Exclusive;
    Cache.HolderLocks(t, u);
    assert HasBuffer(t, t.uses[u].buf, Key(d, b));
  }

  /** What the log's list and cache map are after log_write. */
  lemma WriteLeft(s: Log.State, i: nat, b: Word, x: Block)
    requires s.phase.Running? && i < |s.ops|
    ensures var s' := Log.DoLogWrite(s, i, b, x);
            && s'.disk == s.disk && (forall k :: k in Left(s') <==> k in Left(s) || k == b)
            && (b in s.lh <==> b in Left(s))
            && forall k: Word :: k < |s.disk| && k != b ==> Log.View(s', k) == Log.View(s, k)
  {
    assert s.lh[0..] == s.lh;
    var s' := Log.DoLogWrite(s, i, b, x);
    assert s'.lh[0..] == s'.lh;
  }

  lemma PinnedLogWrite(t: Cache.State, t': Cache.State, s: Log.State, s': Log.State, d: nat, u: nat, b: Word)
    requires Cache.Inv(t) && Cache.Sane(t') && Pinned(t, s, d) && Holds(t, u, d, b) && d != 0
    requires forall k :: k in Left(s') <==> k in Left(s) || k == b
    requires b !in Left(s) ==> Cache.Enabled(t, Cache.Pin(u))
    requires t' == if b in Left(s) then t else Cache.DoHeld(t, Cache.Pin(u))
    ensures Pinned(t', s', d)
  {
    hide Cache.Listed, Cache.Counted, Cache.Coherent, Left, Wrap;
    var j := t.uses[u].buf;
    forall i: nat | i < |t.bufs| ensures PinnedRight(t', s', d, i) {
      assert PinnedRight(t, s, d, i);
      if t.bufs[i].key == Key(d, b) {
        OnlyBuffer(t, u, d, b, i);
      }
    }
    assert HasBuffer(t', j, Key(d, b));
    assert forall i: nat, k :: HasBuffer(t, i, k) ==> HasBuffer(t', i, k);
  }

  /** A move that changes only the held block b: nothing else is seen differently. */
  lemma SeesHeld(t: Cache.State, t': Cache.State, s: Log.State, s': Log.State, d: nat, u: nat, b: nat)
    requires Cache.Inv(t) && Holds(t, u, d, b) && (forall k: Word :: SeesAt(t, s, d, k)) && |s'.disk| == |s.disk|
    requires t'.contents == t.contents && |t'.bufs| == |t.bufs|
    requires forall i :: 0 <= i < |t.bufs| ==> t'.bufs[i].key == t.bufs[i].key && t'.bufs[i].locked == t.bufs[i].locked
    requires forall k: Word :: k < |s.disk| && k != b ==> Log.View(s', k) == Log.View(s, k)
    ensures forall k: Word :: SeesAt(t', s', d, k)
  {
    hide Cache.Inv, Log.View;
    HeldLocked(t, u, d, b);
    forall k: Word ensures SeesAt(t', s', d, k) {
      assert SeesAt(t, s, d, k);
      if Locked(t, Key(d, k)) {
        var i: nat :| HasBuffer(t, i, Key(d, k)) && t.bufs[i].locked;
        assert HasBuffer(t', i, Key(d, k)) && t'.bufs[i].locked;
      }
    }
  }

  lemma AgreesLogWrite(c: Log.Config, p: Pair, d: nat, u: nat, i: nat)
    requires Cache.Inv(p.t) && Agrees(p.t, p.s, d) && Can(c, d, p, LogWrite(u, i))
    ensures var q := Do(c, d, p, LogWrite(u, i)); Agrees(q.t, q.s, d)
  {
    hide Cache.Inv, Left, Log.View, SeesAt, Pinned;
    var q, b := Do(c, d, p, LogWrite(u, i)), p.t.bufs[p.t.uses[u].buf].key.blockno;
    WriteLeft(p.s, i, b, Data(p.t, u));
    PinnedLogWrite(p.t, q.t, p.s, q.s, d, u, b);
    SeesHeld(p.t, q.t, p.s, q.s, d, u, b);
  }

  /** One block of the device is written on both disks. */
  lemma SameDiskWrite(t: Cache.State, t': Cache.State, s: Log.State, s': Log.State, d: nat, b: nat, x: Block)
    requires SameDisk(t, s, d) && b < |s.disk| && t'.disk == t.disk[Key(d, b) := x] && s'.disk == s.disk[b := x]
    ensures SameDisk(t', s', d)
  {
  }

  /** The write, as the log machine makes it. */
  lemma DiskWriteView(c: Log.Config, s: Log.State)
    requires Log.Enabled(c, s, Log.DiskWrite)
    ensures var s' := Log.Do(c, s, Log.DiskWrite);
            var (b, x) := Log.NextBlockWrite(c, s);
            && s'.disk == s.disk[b := x] && s'.lh == s.lh && s'.phase == s.phase.(i := s.phase.i + 1)
            && forall k: Word :: k < |s.disk| && k != b ==> Log.View(s', k) == Log.View(s, k)
  {
    hide Log.NextBlockWrite;
  }

  lemma WritingLeft(c: Log.Config, s: Log.State)
    requires Log.Enabled(c, s, Log.DiskWrite) && !Installing(s) && (s.phase.Recovering? ==> s.lh == [])
    ensures Left(Log.Do(c, s, Log.DiskWrite)) == Left(s)
  {
    DiskWriteView(c, s);
    hide Log.Do;
  }

  lemma AgreesWrite(c: Log.Config, p: Pair, d: nat, u: nat)
    requires Cache.Inv(p.t) && Agrees(p.t, p.s, d) && Can(c, d, p, Write(u)) && (p.s.phase.Recovering? ==> p.s.lh == [])
    ensures var q := Do(c, d, p, Write(u)); Agrees(q.t, q.s, d)
  {
    hide Cache.Inv, Left, Log.View, SeesAt, Log.Do, Log.NextBlockWrite;
    var q := Do(c, d, p, Write(u));
    var (b, x) := Log.NextBlockWrite(c, p.s);
    DiskWriteView(c, p.s);
    WritingLeft(c, p.s);
    SameDiskWrite(p.t, q.t, p.s, q.s, d, b, x);
    SeesHeld(p.t, q.t, p.s, q.s, d, u, b);
    PinnedSame(p.t, q.t, p.s, q.s, d);
  }

  lemma PinnedSame(t: Cache.State, t': Cache.State, s: Log.State, s': Log.State, d: nat)
    requires Cache.Sane(t) && Cache.Sane(t') && Pinned(t, s, d) && t'.bufs == t.bufs && t'.pins == t.pins
    requires Left(s') == Left(s)
    ensures Pinned(t', s', d)
  {
    hide Left;
    forall i: nat | i < |t.bufs| ensures PinnedRight(t', s', d, i) {
      assert PinnedRight(t, s, d, i);
    }
    assert forall i: nat, k :: HasBuffer(t, i, k) ==> HasBuffer(t', i, k);
  }

  lemma InstallingLeft(c: Log.Config, s: Log.State)
    requires Log.Enabled(c, s, Log.DiskWrite) && Installing(s) && Log.Distinct(s.lh)
    ensures var b := Log.NextBlockWrite(c, s).0;
            && Left(s) != [] && b == Left(s)[0] && Left(Log.Do(c, s, Log.DiskWrite)) == Left(s)[1..]
            && b !in Left(s)[1..]
  {
    DiskWriteView(c, s);
    var k := Done(s);
    assert s.lh[k..][0] == s.lh[k] && s.lh[k..][1..] == s.lh[k + 1..];
    hide Log.Do;
  }

  lemma PinnedInstall(t: Cache.State, t': Cache.State, s: Log.State, s': Log.State, d: nat, u: nat, b: Word)
    requires Cache.Inv(t) && Cache.Sane(t') && Pinned(t, s, d) && Holds(t, u, d, b) && d != 0
    requires Left(s) != [] && b == Left(s)[0] && Left(s') == Left(s)[1..] && b !in Left(s)[1..]
    requires |t'.bufs| == |t.bufs| && |t'.pins| == |t.pins|
    requires forall i :: 0 <= i < |t.bufs| ==>
               && t'.bufs[i].key == t.bufs[i].key && t'.bufs[i].valid == t.bufs[i].valid
               && t.pins[i] == if i == t.uses[u].buf then t'.pins[i] + 1 else t'.pins[i]
    ensures Pinned(t', s', d)
  {
    hide Cache.Listed, Cache.Counted, Cache.Coherent, Left;
    assert Left(s) == [b] + Left(s)[1..];
    forall i: nat | i < |t.bufs| ensures PinnedRight(t', s', d, i) {
      assert PinnedRight(t, s, d, i);
      if t.bufs[i].key == Key(d, b) {
        OnlyBuffer(t, u, d, b, i);
      }
    }
    forall k | k in Left(s') ensures exists i :: HasBuffer(t', i, Key(d, k)) {
      assert k in Left(s);
      var i: nat :| HasBuffer(t, i, Key(d, k));
      assert HasBuffer(t', i, Key(d, k));
    }
  }

  lemma AgreesInstall(c: Log.Config, p: Pair, d: nat, u: nat)
    requires Cache.Inv(p.t) && Agrees(p.t, p.s, d) && Can(c, d, p, Install(u)) && Log.Distinct(p.s.lh)
    ensures var q := Do(c, d, p, Install(u)); Agrees(q.t, q.s, d)
  {
    hide Cache.Inv, Left, Log.View, SeesAt, Log.Do, Log.NextBlockWrite, Pinned, Wrap;
    var q := Do(c, d, p, Install(u));
    var (b, x) := Log.NextBlockWrite(c, p.s);
    DiskWriteView(c, p.s);
    InstallingLeft(c, p.s);
    SameDiskWrite(p.t, q.t, p.s, q.s, d, b, x);
    SeesHeld(p.t, q.t, p.s, q.s, d, u, b);
    PinnedInstall(p.t, q.t, p.s, q.s, d, u, b);
  }

  // ---- whole runs --------------------------------------------------------------------------------

  /** Every move keeps what the two have in common, as long as the list fits the log area. */
  lemma KeepsJoint(c: Log.Config, init: Disk, d: nat, p: Pair, m: Move)
    requires Joint(c, init, d, p) && Can(c, d, p, m) && |Do(c, d, p, m).s.lh| < c.area.size
    ensures Joint(c, init, d, Do(c, d, p, m))
  {
    hide Cache.Inv, Cache.Paid, Log.Inv, Agrees;
    match m
    case Cached(step) => KeepsCached(c, init, d, p, step);
    case Logged(step) => KeepsLogged(c, init, d, p, step);
    case LogWrite(u, i) => KeepsLogWrite(c, init, d, p, u, i);
    case Write(u) => KeepsWrite(c, init, d, p, u);
    case Install(u) => KeepsInstall(c, init, d, p, u);
  }

  lemma KeepsCached(c: Log.Config, init: Disk, d: nat, p: Pair, step: Cache.Step)
    requires Joint(c, init, d, p) && Can(c, d, p, Cached(step))
    ensures Joint(c, init, d, Do(c, d, p, Cached(step)))
  {
    hide Cache.Inv, Cache.Paid, Log.Inv, Agrees, Cache.Do, Cache.Settled;
    Cache.KeepsPaid(p.t, step);
    Cache.KeepsInv(p.t, step);
    AgreesCached(c, p.t, p.s, d, step);
  }

  lemma KeepsLogged(c: Log.Config, init: Disk, d: nat, p: Pair, step: Log.Step)
    requires Joint(c, init, d, p) && Can(c, d, p, Logged(step)) && |Log.Do(c, p.s, step).lh| < c.area.size
    ensures Joint(c, init, d, Do(c, d, p, Logged(step)))
  {
    hide Cache.Inv, Cache.Paid, Log.DiskInv, Log.Reserved, Log.Ids, Agrees;
    Log.KeepsInv(c, init, p.s, step);
    AgreesLogged(c, init, p.t, p.s, d, step);
  }

  lemma KeepsLogWrite(c: Log.Config, init: Disk, d: nat, p: Pair, u: nat, i: nat)
    requires Joint(c, init, d, p) && Can(c, d, p, LogWrite(u, i)) && |Do(c, d, p, LogWrite(u, i)).s.lh| < c.area.size
    ensures Joint(c, init, d, Do(c, d, p, LogWrite(u, i)))
  {
    hide Cache.Inv, Cache.Paid, Log.Inv, Agrees, Cache.Settled;
    var b: Word := p.t.bufs[p.t.uses[u].buf].key.blockno;
    if b !in p.s.lh {
      Cache.KeepsPaid(p.t, Cache.Pin(u));
      Cache.KeepsInv(p.t, Cache.Pin(u));
    }
    Log.KeepsInv(c, init, p.s, Log.LogWrite(i, b, Data(p.t, u)));
    AgreesLogWrite(c, p, d, u, i);
  }

  lemma KeepsWrite(c: Log.Config, init: Disk, d: nat, p: Pair, u: nat)
    requires Joint(c, init, d, p) && Can(c, d, p, Write(u)) && |p.s.lh| < c.area.size
    ensures Joint(c, init, d, Do(c, d, p, Write(u)))
  {
    hide Cache.Inv, Cache.Paid, Log.Inv, Agrees, Cache.Do, Cache.Settled, Log.Do;
    Cache.KeepsPaid(p.t, Cache.Write(u));
    Cache.KeepsInv(p.t, Cache.Write(u));
    DiskWriteView(c, p.s);
    Log.KeepsInv(c, init, p.s, Log.DiskWrite);
    AgreesWrite(c, p, d, u);
  }

  lemma KeepsInstall(c: Log.Config, init: Disk, d: nat, p: Pair, u: nat)
    requires Joint(c, init, d, p) && Can(c, d, p, Install(u)) && |p.s.lh| < c.area.size
    ensures Joint(c, init, d, Do(c, d, p, Install(u)))
  {
    hide Cache.Inv, Cache.Paid, Log.Inv, Agrees, Cache.Do, Cache.Settled, Log.Do;
    var w := Cache.Do(p.t, Cache.Write(u));
    Cache.KeepsPaid(p.t, Cache.Write(u));
    Cache.KeepsInv(p.t, Cache.Write(u));
    Cache.KeepsPaid(w, Cache.Unpin(u));
    Cache.KeepsInv(w, Cache.Unpin(u));
    DiskWriteView(c, p.s);
    Log.KeepsInv(c, init, p.s, Log.DiskWrite);
    ListDistinct(c, init, p.s);
    AgreesInstall(c, p, d, u);
  }

  lemma ListDistinct(c: Log.Config, init: Disk, s: Log.State)
    requires Log.Inv(c, init, s) && !s.phase.Recovering?
    ensures Log.Distinct(s.lh)
  {
    hide Log.DiskInv, Log.Ids;
  }

  /** A run of both from boot on an image of device d whose log is empty, in which the list
      always fits the log area. */
  ghost predicate Execution(c: Log.Config, d: nat, p: Pair, moves: seq<Move>, q: Pair)
    decreases |moves|
  {
    && |p.s.lh| < c.area.size
    && (if moves == [] then p == q
        else Can(c, d, p, moves[0]) && Execution(c, d, Do(c, d, p, moves[0]), moves[1..], q))
  }

  predicate Imaged(disk: map<Key, Block>, d: nat, image: Disk) {
    && (forall k :: k in disk && k.dev == d ==> k.blockno < |image|)
    && forall b: nat :: b < |image| ==> Key(d, b) in disk && disk[Key(d, b)] == image[b]
  }

  ghost predicate Runs(c: Log.Config, n: nat, disk: map<Key, Block>, d: nat, image: Disk, moves: seq<Move>, q: Pair) {
    && d != 0 && Imaged(disk, d, image) && Recoverable(c.area, image) && HeadBlocks(image[c.area.start]) == []
    && Execution(c, d, Pair(Cache.Init(n, disk), Log.Boot(c, image)), moves, q)
  }

  lemma StartsJoint(c: Log.Config, n: nat, disk: map<Key, Block>, d: nat, image: Disk)
    requires d != 0 && Imaged(disk, d, image) && Recoverable(c.area, image) && HeadBlocks(image[c.area.start]) == []
    ensures Joint(c, Recovered(c.area, image), d, Pair(Cache.Init(n, disk), Log.Boot(c, image)))
  {
    hide Log.DiskInv, Log.Reserved, Log.Ids;
    Cache.InitInv(n, disk);
    Log.BootInv(c, image);
  }

  lemma {:induction false} JointHolds(c: Log.Config, init: Disk, d: nat, p: Pair, moves: seq<Move>, q: Pair)
    requires Joint(c, init, d, p) && Execution(c, d, p, moves, q)
    ensures Joint(c, init, d, q)
    decreases |moves|
  {
    hide Joint, Can, Do;
    if moves != [] {
      KeepsJoint(c, init, d, p, moves[0]);
      JointHolds(c, init, d, Do(c, d, p, moves[0]), moves[1..], q);
    }
  }

  /** The log over the cache. In every run of both: exactly the listed blocks that are not yet
      home are pinned, each once; both have the same disk; and unless somebody holds a block,
      what was last put in it is what the log machine says a reader sees. */
  lemma LogOverCache(c: Log.Config, n: nat, disk: map<Key, Block>, d: nat, image: Disk, moves: seq<Move>, q: Pair)
    requires Runs(c, n, disk, d, image, moves, q)
    ensures Agrees(q.t, q.s, d) && Cache.Refines(q.t)
  {
    hide Cache.Inv, Log.Inv, Cache.Refines;
    StartsJoint(c, n, disk, d, image);
    JointHolds(c, Recovered(c.area, image), d, Pair(Cache.Init(n, disk), Log.Boot(c, image)), moves, q);
    Cache.InvRefines(q.t);
  }

  /** Nothing is cut from the runs of either: log_write can pin what is new in the list, and
      install_trans can write and unpin what it holds. */
  lemma PinsAllowed(c: Log.Config, init: Disk, d: nat, p: Pair, u: nat, b: Word)
    requires Joint(c, init, d, p) && !p.t.panicked && Holds(p.t, u, d, b)
    ensures p.s.phase.Running? && b !in p.s.lh ==> Cache.Enabled(p.t, Cache.Pin(u))
    ensures Cache.Enabled(p.t, Cache.Write(u))
    ensures Next(c, d, p, u) && Installing(p.s) && b == Log.NextBlockWrite(c, p.s).0 ==>
              Cache.Enabled(Cache.Do(p.t, Cache.Write(u)), Cache.Unpin(u))
  {
    hide Cache.Inv, Log.DiskInv, Log.Ids, Left, SeesAt, Log.NextBlockWrite;
    assert PinnedRight(p.t, p.s, d, p.t.uses[u].buf);
    if p.s.phase.Running? {
      assert p.s.lh[0..] == p.s.lh;
      RunningLeft(p.s);
    }
    if Next(c, d, p, u) && Installing(p.s) {
      InstallingLeft(c, p.s);
    }
  }

  lemma RunningLeft(s: Log.State)
    requires s.phase.Running?
    ensures Left(s) == s.lh
  {
  }

  // ---- each of the two makes a run of its own ------------------------------------------------------

  lemma CacheMoves(c: Log.Config, d: nat, p: Pair, m: Move) returns (steps: seq<Cache.Step>)
    requires Can(c, d, p, m)
    ensures Cache.Execution(p.t, steps, Do(c, d, p, m).t) && Cache.Ordinary(steps)
  {
    hide Cache.Do, Cache.Enabled, Log.Do, Log.Enabled, Cache.Execution;
    var q := Do(c, d, p, m);
    steps := [];
    Cache.RunsNothing(p.t);
    match m
    case Cached(step) =>
      steps := [step];
      Cache.RunsOne(p.t, step);
    case Logged(_) =>
    case LogWrite(u, _) =>
      if p.t.bufs[p.t.uses[u].buf].key.blockno !in p.s.lh {
        steps := [Cache.Pin(u)];
        Cache.RunsOne(p.t, Cache.Pin(u));
      }
    case Write(u) =>
      steps := [Cache.Write(u)];
      Cache.RunsOne(p.t, Cache.Write(u));
    case Install(u) =>
      steps := [Cache.Write(u)] + [Cache.Unpin(u)];
      Cache.RunsOne(p.t, Cache.Write(u));
      Cache.RunsMore(p.t, [Cache.Write(u)], Cache.Do(p.t, Cache.Write(u)), Cache.Unpin(u));
  }

  lemma LogMoves(c: Log.Config, d: nat, p: Pair, m: Move) returns (steps: seq<Log.Step>)
    requires Can(c, d, p, m)
    ensures var q := Do(c, d, p, m);
            || (steps == [] && q.s == p.s)
            || (|steps| == 1 && Log.Enabled(c, p.s, steps[0]) && q.s == Log.Do(c, p.s, steps[0]))
  {
    hide Cache.Do, Cache.Enabled, Log.Do, Log.Enabled;
    match m
    case Cached(_) => steps := [];
    case Logged(step) => steps := [step];
    case LogWrite(u, i) =>
      var b: Word := p.t.bufs[p.t.uses[u].buf].key.blockno;
      steps := [Log.LogWrite(i, b, Data(p.t, u))];
    case Write(_) => steps := [Log.DiskWrite];
    case Install(_) => steps := [Log.DiskWrite];
  }

  lemma {:induction false} Projects(c: Log.Config, d: nat, p: Pair, moves: seq<Move>, q: Pair)
    returns (cs: seq<Cache.Step>, ls: seq<Log.Step>)
    requires Execution(c, d, p, moves, q)
    ensures Cache.Execution(p.t, cs, q.t) && Cache.Ordinary(cs)
    ensures Log.Execution(c, p.s, ls, q.s) && Log.Fitting(c, p.s, ls)
    decreases |moves|
  {
    hide Can, Do, Cache.Do, Cache.Enabled, Log.Do, Log.Enabled, Cache.Execution;
    if moves == [] {
      cs, ls := [], [];
      Cache.RunsNothing(p.t);
    } else {
      var m := Do(c, d, p, moves[0]);
      var cs', ls' := Projects(c, d, m, moves[1..], q);
      var first := CacheMoves(c, d, p, moves[0]);
      Cache.RunsOn(p.t, first, m.t, cs', q.t);
      cs := first + cs';
      var one := LogMoves(c, d, p, moves[0]);
      ls := one + ls';
      assert one == [] ==> ls == ls';
      assert one != [] ==> ls[0] == one[0] && ls[1..] == ls';
    }
  }

  /** What the cache does is a run of the cache machine, and what the log does a run of the log
      machine in which the list fits. */
  lemma RunsOfBoth(c: Log.Config, n: nat, disk: map<Key, Block>, d: nat, image: Disk, moves: seq<Move>, q: Pair)
    requires Runs(c, n, disk, d, image, moves, q)
    ensures exists steps :: Cache.Runs(n, disk, steps, q.t)
    ensures exists steps :: Log.RunsWithin(c, image, steps, q.s)
  {
    var cs, ls := Projects(c, d, Pair(Cache.Init(n, disk), Log.Boot(c, image)), moves, q);
    assert Cache.Runs(n, disk, cs, q.t);
    assert Log.RunsWithin(c, image, ls, q.s);
  }
}
