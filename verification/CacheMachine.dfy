/** The buffer cache shared by processes (kernel/bio.c with log.c's pinning), as a state
    machine: every interleaving of the atomic sections of bget, acquiresleep, bread's disk
    read, bwrite, releasesleep, brelse, bpin and bunpin. It refines a plain map from block
    to contents. */
module CacheMachine {
  import opened Blocks
  import opened CacheSpec

  /** Far more than there are processes (NPROC) and log entries (LOGSIZE). */
  const MANY: nat := 0x4000_0000

  datatype Buf = Buf(key: Key, valid: bool, refcnt: Word, locked: bool, data: Block)

  datatype Stage = Waiting | Holding | Releasing

  /** One call of bread that has not yet finished its brelse. */
  datatype Use = Use(buf: nat, key: Key, stage: Stage)

  /** `contents` is the plain block map: what was last put in each block. `stamp` and
      `clock` record when each buffer's count last fell to zero in brelse. `owe` records how
      often a buffer was unpinned without a pin. */
  datatype State = State(
    bufs: seq<Buf>,
    order: seq<nat>,
    disk: map<Key, Block>,
    uses: seq<Use>,
    pins: seq<nat>,
    owe: seq<nat>,
    panicked: bool,
    contents: map<Key, Block>,
    stamp: seq<nat>,
    clock: nat)

  datatype Step =
    | Get(key: Key)
    | Lock(u: nat)
    | Fill(u: nat)
    | Modify(u: nat, data: Block)
    | Write(u: nat)
    | Pin(u: nat)
    | Unpin(u: nat)
    | Drop(u: nat)
    | Unlock(u: nat)
    | Release(u: nat)

  /** The buffer of use u agrees with the disk. */
  predicate Clean(s: State, b: nat)
    requires b < |s.bufs|
  {
    s.bufs[b].key in s.disk && s.bufs[b].data == s.disk[s.bufs[b].key]
  }

  predicate Sane(s: State) {
    && |s.pins| == |s.owe| == |s.stamp| == |s.order| == |s.bufs|
    && (forall k :: 0 <= k < |s.uses| ==> s.uses[k].buf < |s.bufs|)
    && (forall k :: 0 <= k < |s.order| ==> s.order[k] < |s.bufs|)
  }

  /** Holders change and write only the buffer they hold; before unlocking, a changed
      buffer has been written (bwrite) or pinned (log_write); a pin is dropped by a holder
      that has written the block home (install_trans). In recovery install_trans unpins a
      buffer that is not pinned: that is the step Drop. */
  predicate Enabled(s: State, step: Step) {
    && Sane(s) && !s.panicked
    && match step
       case Get(k) => k.dev != 0 && k in s.disk && |s.uses| < MANY
       case Lock(u) => u < |s.uses| && s.uses[u].stage == Waiting && !s.bufs[s.uses[u].buf].locked
       case Fill(u) => u < |s.uses| && s.uses[u].stage == Holding && s.bufs[s.uses[u].buf].key in s.disk
       case Modify(u, _) => u < |s.uses| && s.uses[u].stage == Holding && s.bufs[s.uses[u].buf].valid
       case Write(u) => u < |s.uses| && s.uses[u].stage == Holding && s.bufs[s.uses[u].buf].valid
       case Pin(u) => u < |s.uses| && s.uses[u].stage == Holding && s.pins[s.uses[u].buf] < MANY
       case Unpin(u) => u < |s.uses| && s.uses[u].stage == Holding && s.pins[s.uses[u].buf] > 0
                        && Clean(s, s.uses[u].buf)
       case Drop(u) => u < |s.uses| && s.uses[u].stage == Holding && s.pins[s.uses[u].buf] == 0
                       && s.owe[s.uses[u].buf] < MANY
       case Unlock(u) => u < |s.uses| && s.uses[u].stage == Holding && s.bufs[s.uses[u].buf].valid
                         && (Clean(s, s.uses[u].buf) || s.pins[s.uses[u].buf] > 0)
       case Release(u) => u < |s.uses| && s.uses[u].stage == Releasing
  }

  function OrderKeys(s: State): (r: seq<Key>)
    requires Sane(s)
  {
    seq(|s.order|, i requires 0 <= i < |s.order| => s.bufs[s.order[i]].key)
  }

  function OrderRefs(s: State): (r: seq<nat>)
    requires Sane(s)
  {
    seq(|s.order|, i requires 0 <= i < |s.order| => s.bufs[s.order[i]].refcnt)
  }

  function SetBuf(s: State, b: nat, buf: Buf): (t: State)
    requires b < |s.bufs|
  {
    s.(bufs := s.bufs[b := buf])
  }

  function SetStage(s: State, u: nat, stage: Stage): (t: State)
    requires u < |s.uses|
  {
    s.(uses := s.uses[u := s.uses[u].(stage := stage)])
  }

  function DoHit(s: State, b: nat, k: Key): (t: State)
    requires b < |s.bufs|
  {
    SetBuf(s, b, s.bufs[b].(refcnt := Wrap(s.bufs[b].refcnt + 1))).(uses := s.uses + [Use(b, k, Waiting)])
  }

  function DoRecycle(s: State, b: nat, k: Key): (t: State)
    requires b < |s.bufs|
  {
    SetBuf(s, b, s.bufs[b].(key := k, valid := false, refcnt := 1)).(uses := s.uses + [Use(b, k, Waiting)])
  }

  /** bget up to acquiresleep. */
  function DoGet(s: State, k: Key): (t: State)
    requires Sane(s)
  {
    var i, v := FirstWith(OrderKeys(s), k), LastZero(OrderRefs(s));
    if i >= 0 then DoHit(s, s.order[i], k)
    else if v >= 0 then DoRecycle(s, s.order[v], k)
    else s.(panicked := true)
  }

  function DropUse(s: State, u: nat): (t: State)
    requires u < |s.uses| && s.uses[u].buf < |s.bufs|
  {
    var b := s.uses[u].buf;
    SetBuf(s, b, s.bufs[b].(refcnt := Wrap(s.bufs[b].refcnt - 1))).(uses := Without(s.uses, u))
  }

  function Relink(s: State, i: nat): (t: State)
    requires i < |s.order| && s.order[i] < |s.stamp|
  {
    s.(order := MoveToFront(s.order, i), stamp := s.stamp[s.order[i] := s.clock], clock := s.clock + 1)
  }

  /** brelse after releasesleep. */
  function DoRelease(s: State, u: nat): (t: State)
    requires Sane(s) && u < |s.uses|
  {
    var b := s.uses[u].buf;
    var t, i := DropUse(s, u), FirstWith(s.order, b);
    if t.bufs[b].refcnt == 0 && i >= 0 then Relink(t, i) else t
  }

  /** The steps of a process at a buffer it waits for or holds. */
  function DoHeld(s: State, step: Step): (t: State)
    requires Enabled(s, step) && !step.Get? && !step.Release?
  {
    var b := s.uses[step.u].buf;
    var buf := s.bufs[b];
    match step
    case Lock(u) => SetStage(SetBuf(s, b, buf.(locked := true)), u, Holding)
    case Fill(u) => if buf.valid then s else SetBuf(s, b, buf.(data := s.disk[buf.key], valid := true))
    case Modify(u, data) => SetBuf(s, b, buf.(data := data)).(contents := s.contents[buf.key := data])
    case Write(u) => s.(disk := s.disk[buf.key := buf.data])
    case Pin(u) => SetBuf(s, b, buf.(refcnt := Wrap(buf.refcnt + 1))).(pins := s.pins[b := s.pins[b] + 1])
    case Unpin(u) => SetBuf(s, b, buf.(refcnt := Wrap(buf.refcnt - 1))).(pins := s.pins[b := s.pins[b] - 1])
    case Drop(u) => SetBuf(s, b, buf.(refcnt := Wrap(buf.refcnt - 1))).(owe := s.owe[b := s.owe[b] + 1])
    case Unlock(u) => SetStage(SetBuf(s, b, buf.(locked := false)), u, Releasing)
  }

  function Do(s: State, step: Step): (t: State)
    requires Enabled(s, step)
  {
    match step
    case Get(k) => DoGet(s, k)
    case Release(u) => DoRelease(s, u)
    case _ => DoHeld(s, step)
  }

  /** binit: n unused buffers, the last at the front of the list. */
  function Init(n: nat, disk: map<Key, Block>): (s: State) {
    State(seq(n, _ => Buf(Key(0, 0), false, 0, false, Zeros())),
          seq(n, i requires 0 <= i < n => n - 1 - i),
          disk, [], seq(n, _ => 0), seq(n, _ => 0), false, disk, seq(n, i => i), n)
  }

  ghost predicate Execution(s: State, steps: seq<Step>, t: State)
    decreases |steps|
  {
    if steps == [] then s == t
    else Enabled(s, steps[0]) && Execution(Do(s, steps[0]), steps[1..], t)
  }

  /** Every buffer that is unpinned was pinned. */
  ghost predicate Ordinary(steps: seq<Step>) {
    forall i :: 0 <= i < |steps| ==> !steps[i].Drop?
  }

  ghost predicate Runs(n: nat, disk: map<Key, Block>, steps: seq<Step>, t: State) {
    Execution(Init(n, disk), steps, t) && Ordinary(steps)
  }

  // ---- putting runs together ---------------------------------------------------------

  lemma RunsNothing(s: State)
    ensures Execution(s, [], s)
  {
  }

  lemma RunsOne(s: State, step: Step)
    requires Enabled(s, step)
    ensures Execution(s, [step], Do(s, step))
  {
    hide Do;
    assert [step][1..] == [];
    assert Execution(Do(s, step), [], Do(s, step));
  }

  lemma {:induction false} RunsMore(s: State, steps: seq<Step>, t: State, step: Step)
    requires Execution(s, steps, t) && Enabled(t, step)
    ensures Execution(s, steps + [step], Do(t, step))
    decreases |steps|
  {
    hide Do, Enabled;
    if steps == [] {
      RunsOne(t, step);
      assert steps + [step] == [step];
    } else {
      assert (steps + [step])[1..] == steps[1..] + [step];
      RunsMore(Do(s, steps[0]), steps[1..], t, step);
    }
  }

  lemma {:induction false} RunsOn(s: State, a: seq<Step>, m: State, b: seq<Step>, t: State)
    requires Execution(s, a, m) && Execution(m, b, t)
    ensures Execution(s, a + b, t)
    decreases |a|
  {
    hide Do, Enabled;
    if a == [] {
      assert a + b == b;
    } else {
      assert (a + b)[1..] == a[1..] + b;
      RunsOn(Do(s, a[0]), a[1..], m, b, t);
    }
  }

  // ---- counting uses -----------------------------------------------------------------

  function Tally(u: Use, b: nat, held: bool): (n: nat) {
    if u.buf == b && (held ==> u.stage == Holding) then 1 else 0
  }

  /** The uses of buffer b, or only those that hold it. */
  function Count(uses: seq<Use>, b: nat, held: bool): (n: nat) {
    if uses == [] then 0 else Tally(uses[0], b, held) + Count(uses[1..], b, held)
  }

  lemma {:induction false} CountConcat(x: seq<Use>, y: seq<Use>, b: nat, held: bool)
    ensures Count(x + y, b, held) == Count(x, b, held) + Count(y, b, held)
  {
    if x == [] {
      assert x + y == y;
    } else {
      assert (x + y)[1..] == x[1..] + y;
      CountConcat(x[1..], y, b, held);
    }
  }

  lemma CountAt(uses: seq<Use>, u: nat, b: nat, held: bool)
    requires u < |uses|
    ensures Count(uses, b, held) == Count(Without(uses, u), b, held) + Tally(uses[u], b, held)
  {
    var l, r := uses[..u], uses[u + 1..];
    CountConcat(l, r, b, held);
    assert uses == l + ([uses[u]] + r);
    CountConcat(l, [uses[u]] + r, b, held);
    assert ([uses[u]] + r)[1..] == r;
  }

  lemma CountAppend(uses: seq<Use>, u: Use, b: nat, held: bool)
    ensures Count(uses + [u], b, held) == Count(uses, b, held) + Tally(u, b, held)
  {
    CountConcat(uses, [u], b, held);
    assert [u][1..] == [];
  }

  lemma CountSet(uses: seq<Use>, u: nat, use: Use, b: nat, held: bool)
    requires u < |uses|
    ensures Count(uses[u := use], b, held) + Tally(uses[u], b, held) == Count(uses, b, held) + Tally(use, b, held)
  {
    CountAt(uses, u, b, held);
    CountAt(uses[u := use], u, b, held);
    assert Without(uses[u := use], u) == Without(uses, u);
  }

  lemma {:induction false} HeldAreUses(uses: seq<Use>, b: nat)
    ensures Count(uses, b, true) <= Count(uses, b, false)
  {
    if uses != [] {
      HeldAreUses(uses[1..], b);
    }
  }

  lemma {:induction false} CountBound(uses: seq<Use>, b: nat, held: bool)
    ensures Count(uses, b, held) <= |uses|
  {
    if uses != [] {
      CountBound(uses[1..], b, held);
    }
  }

  // ---- the invariant -----------------------------------------------------------------

  ghost predicate Distinct<T>(s: seq<T>) {
    forall i, j :: 0 <= i < j < |s| ==> s[i] != s[j]
  }

  /** The list is a permutation of the buffers, newest zero count first. */
  ghost predicate Listed(s: State) {
    && Sane(s)
    && Distinct(s.order)
    && (forall b :: 0 <= b < |s.bufs| ==> b in s.order)
    && (forall b :: 0 <= b < |s.bufs| ==> s.stamp[b] < s.clock)
    && (forall i, j :: 0 <= i < j < |s.order| ==> s.stamp[s.order[i]] > s.stamp[s.order[j]])
  }

  /** A buffer's count is its uses plus its pins less what it owes, in 32 bits; it is locked
      when exactly one use holds it. */
  ghost predicate CountedAt(s: State, b: nat)
    requires Sane(s) && b < |s.bufs|
  {
    && s.bufs[b].refcnt == Wrap(Count(s.uses, b, false) + s.pins[b] - s.owe[b])
    && s.pins[b] <= MANY && s.owe[b] <= MANY
    && Count(s.uses, b, true) == if s.bufs[b].locked then 1 else 0
  }

  ghost predicate Counted(s: State) {
    && Sane(s) && |s.uses| <= MANY
    && forall b: nat :: b < |s.bufs| ==> CountedAt(s, b)
  }

  /** One buffer per block, and every use's buffer still holds the block it asked for. */
  ghost predicate Exclusive(s: State) {
    && Sane(s)
    && (forall a, b :: 0 <= a < b < |s.bufs| && s.bufs[a].key == s.bufs[b].key ==> s.bufs[a].key.dev == 0)
    && (forall u :: 0 <= u < |s.uses| ==>
          && s.bufs[s.uses[u].buf].key == s.uses[u].key
          && s.uses[u].key.dev != 0 && s.uses[u].key in s.disk)
  }

  ghost predicate Ahead(s: State, b: nat, k: Key)
    requires Sane(s)
  {
    b < |s.bufs| && s.bufs[b].key == k && s.bufs[b].valid && (s.pins[b] > 0 || s.bufs[b].locked)
  }

  /** Buffers hold the block map's contents, and so does the disk, save where a pinned or
      locked buffer is ahead of it. */
  ghost predicate Coherent(s: State) {
    && Sane(s)
    && s.contents.Keys == s.disk.Keys
    && (forall b :: 0 <= b < |s.bufs| && s.bufs[b].valid ==>
          && s.bufs[b].key.dev != 0 && s.bufs[b].key in s.contents
          && s.bufs[b].data == s.contents[s.bufs[b].key])
    && (forall k :: k in s.disk && s.disk[k] != s.contents[k] ==> exists b :: Ahead(s, b, k))
  }

  ghost predicate Inv(s: State) {
    Listed(s) && Counted(s) && Exclusive(s) && Coherent(s)
  }

  /** No buffer that seems unused owes anything. */
  ghost predicate Settled(s: State) {
    Sane(s) && forall b :: 0 <= b < |s.bufs| && s.bufs[b].refcnt == 0 ==> s.owe[b] == 0
  }

  ghost predicate Paid(s: State) {
    forall b :: 0 <= b < |s.owe| ==> s.owe[b] == 0
  }

  lemma InitInv(n: nat, disk: map<Key, Block>)
    ensures Inv(Init(n, disk)) && Paid(Init(n, disk))
  {
    var s := Init(n, disk);
    forall b | 0 <= b < n ensures b in s.order {
      assert s.order[n - 1 - b] == b;
    }
  }

  // ---- every step keeps the counts -----------------------------------------------------

  /** A buffer that owes nothing has the count it should have. */
  lemma CountIs(s: State, b: nat)
    requires Counted(s) && b < |s.bufs|
    ensures s.owe[b] == 0 ==> s.bufs[b].refcnt == Count(s.uses, b, false) + s.pins[b]
    ensures s.bufs[b].refcnt == 0 <==> Count(s.uses, b, false) + s.pins[b] == s.owe[b]
    ensures CountedAt(s, b)
  {
    assert CountedAt(s, b);
    CountBound(s.uses, b, false);
  }

  lemma WrapStep(n: int)
    ensures Wrap(Wrap(n) + 1) == Wrap(n + 1) && Wrap(Wrap(n) - 1) == Wrap(n - 1)
  {
  }

  lemma IdleBuffer(s: State, b: nat)
    requires Counted(s) && b < |s.bufs| && s.bufs[b].refcnt == 0 && s.owe[b] == 0
    ensures s.pins[b] == 0 && !s.bufs[b].locked
    ensures forall u :: 0 <= u < |s.uses| ==> s.uses[u].buf != b
  {
    CountIs(s, b);
    HeldAreUses(s.uses, b);
    forall u | 0 <= u < |s.uses| ensures s.uses[u].buf != b {
      CountAt(s.uses, u, b, false);
    }
  }

  lemma CountedHit(s: State, b: nat, k: Key)
    requires Counted(s) && b < |s.bufs| && |s.uses| < MANY
    ensures Counted(DoHit(s, b, k))
  {
    hide Wrap;
    var t, use := DoHit(s, b, k), Use(b, k, Waiting);
    forall c: nat | c < |s.bufs| ensures CountedAt(t, c) {
      assert CountedAt(s, c);
      WrapStep(Count(s.uses, c, false) + s.pins[c] - s.owe[c]);
      CountAppend(s.uses, use, c, false);
      CountAppend(s.uses, use, c, true);
    }
  }

  lemma CountedRecycle(s: State, b: nat, k: Key)
    requires Counted(s) && b < |s.bufs| && s.bufs[b].refcnt == 0 && s.owe[b] == 0 && |s.uses| < MANY
    ensures Counted(DoRecycle(s, b, k))
  {
    var t, use := DoRecycle(s, b, k), Use(b, k, Waiting);
    CountIs(s, b);
    forall c: nat | c < |s.bufs| ensures CountedAt(t, c) {
      assert CountedAt(s, c);
      CountAppend(s.uses, use, c, false);
      CountAppend(s.uses, use, c, true);
    }
  }

  lemma FrontFacts(order: seq<nat>, i: nat, n: nat)
    requires i < |order| && forall k :: 0 <= k < |order| ==> order[k] < n
    ensures var m := MoveToFront(order, i);
            |m| == |order| && forall k :: 0 <= k < |m| ==> m[k] < n
  {
  }

  lemma FrontMembers(order: seq<nat>, i: nat)
    requires i < |order|
    ensures var m := MoveToFront(order, i);
            (forall x :: x in order ==> x in m) && (Distinct(order) ==> Distinct(m))
  {
    var m := MoveToFront(order, i);
    forall x | x in order ensures x in m {
      var k :| 0 <= k < |order| && order[k] == x;
      assert x == if k == i then m[0] else if k < i then m[k + 1] else m[k];
    }
  }

  lemma CountedDrop(s: State, u: nat)
    requires Counted(s) && Enabled(s, Release(u))
    ensures Counted(DropUse(s, u))
  {
    hide Wrap;
    var t := DropUse(s, u);
    forall c: nat | c < |s.bufs| ensures CountedAt(t, c) {
      assert CountedAt(s, c);
      WrapStep(Count(s.uses, c, false) + s.pins[c] - s.owe[c]);
      CountAt(s.uses, u, c, false);
      CountAt(s.uses, u, c, true);
    }
  }

  lemma CountedHeld(s: State, step: Step)
    requires Counted(s) && Enabled(s, step) && !step.Get? && !step.Release?
    ensures Counted(DoHeld(s, step))
  {
    var t := DoHeld(s, step);
    forall c: nat | c < |s.bufs| ensures CountedAt(t, c) {
      CountedHeldAt(s, step, c);
    }
  }

  lemma CountedHeldAt(s: State, step: Step, c: nat)
    requires Counted(s) && Enabled(s, step) && !step.Get? && !step.Release? && c < |s.bufs|
    ensures Sane(DoHeld(s, step)) && CountedAt(DoHeld(s, step), c)
  {
    hide Wrap, Count;
    var t, u := DoHeld(s, step), step.u;
    assert CountedAt(s, c) && CountedAt(s, s.uses[u].buf);
    WrapStep(Count(s.uses, c, false) + s.pins[c] - s.owe[c]);
    CountSet(s.uses, u, t.uses[u], c, false);
    CountSet(s.uses, u, t.uses[u], c, true);
    assert t.uses == s.uses[u := t.uses[u]];
  }

  // ---- ... the list ---------------------------------------------------------------------

  lemma ListedHit(s: State, b: nat, k: Key)
    requires Listed(s) && b < |s.bufs|
    ensures Listed(DoHit(s, b, k)) && Listed(DoRecycle(s, b, k))
  {
  }

  lemma StampsFront(order: seq<nat>, stamp: seq<nat>, i: nat, clock: nat, m: seq<nat>, st: seq<nat>)
    requires i < |order| && Distinct(order)
    requires forall k :: 0 <= k < |order| ==> order[k] < |stamp| && stamp[order[k]] < clock
    requires forall k, j :: 0 <= k < j < |order| ==> stamp[order[k]] > stamp[order[j]]
    requires m == MoveToFront(order, i) && st == stamp[order[i] := clock]
    requires forall k :: 0 <= k < |m| ==> m[k] < |st|
    ensures forall k, j :: 0 <= k < j < |m| ==> st[m[k]] > st[m[j]]
  {
    forall k | 0 < k < |m| ensures m[k] == order[if k <= i then k - 1 else k] && st[m[k]] == stamp[m[k]] {
    }
  }

  lemma ListedRelink(s: State, i: nat)
    requires Listed(s) && i < |s.order|
    ensures Listed(Relink(s, i))
  {
    var t := Relink(s, i);
    FrontFacts(s.order, i, |s.bufs|);
    FrontMembers(s.order, i);
    StampsFront(s.order, s.stamp, i, s.clock, t.order, t.stamp);
  }

  lemma ListedHeld(s: State, step: Step)
    requires Listed(s) && Counted(s) && Enabled(s, step) && !step.Get? && !step.Release?
    ensures Listed(DoHeld(s, step))
  {
    CountedHeld(s, step);
  }

  // ---- ... one buffer per block -----------------------------------------------------------

  lemma ExclusiveHit(s: State, b: nat, k: Key)
    requires Exclusive(s) && b < |s.bufs| && s.bufs[b].key == k && k.dev != 0 && k in s.disk
    ensures Exclusive(DoHit(s, b, k))
  {
  }

  lemma ExclusiveRecycle(s: State, b: nat, k: Key)
    requires Exclusive(s) && Counted(s) && b < |s.bufs| && s.bufs[b].refcnt == 0 && s.owe[b] == 0
    requires k.dev != 0 && k in s.disk
    requires forall c :: 0 <= c < |s.bufs| ==> s.bufs[c].key != k
    ensures Exclusive(DoRecycle(s, b, k))
  {
    IdleBuffer(s, b);
  }

  lemma ExclusiveDrop(s: State, u: nat)
    requires Exclusive(s) && Counted(s) && Enabled(s, Release(u))
    ensures Exclusive(DropUse(s, u))
  {
  }

  lemma ExclusiveHeld(s: State, step: Step)
    requires Exclusive(s) && Counted(s) && Enabled(s, step) && !step.Get? && !step.Release?
    ensures Exclusive(DoHeld(s, step))
  {
    CountedHeld(s, step);
  }

  // ---- ... and coherence --------------------------------------------------------------------

  lemma CoherentHit(s: State, b: nat, k: Key)
    requires Coherent(s) && b < |s.bufs|
    ensures Coherent(DoHit(s, b, k))
  {
    var t := DoHit(s, b, k);
    assert forall c: nat, k' :: Ahead(s, c, k') ==> Ahead(t, c, k');
  }

  lemma CoherentRecycle(s: State, b: nat, k: Key)
    requires Coherent(s) && Counted(s) && b < |s.bufs| && s.bufs[b].refcnt == 0 && s.owe[b] == 0
    ensures Coherent(DoRecycle(s, b, k))
  {
    var t := DoRecycle(s, b, k);
    IdleBuffer(s, b);
    assert forall c: nat, k' :: Ahead(s, c, k') ==> Ahead(t, c, k');
  }

  lemma CoherentDrop(s: State, u: nat)
    requires Coherent(s) && Counted(s) && Enabled(s, Release(u))
    ensures Coherent(DropUse(s, u))
  {
    assert forall c: nat, k' :: Ahead(s, c, k') ==> Ahead(DropUse(s, u), c, k');
  }

  lemma HolderLocks(s: State, u: nat)
    requires Counted(s) && u < |s.uses| && s.uses[u].stage == Holding
    ensures s.bufs[s.uses[u].buf].locked
  {
    var b := s.uses[u].buf;
    assert CountedAt(s, b);
    CountAt(s.uses, u, b, true);
  }

  lemma CoherentModify(s: State, u: nat, data: Block)
    requires Coherent(s) && Exclusive(s) && Counted(s) && Enabled(s, Modify(u, data))
    ensures Coherent(DoHeld(s, Modify(u, data)))
  {
    var t, b := DoHeld(s, Modify(u, data)), s.uses[u].buf;
    HolderLocks(s, u);
    assert Sane(t);
    forall k | k in t.disk && t.disk[k] != t.contents[k] ensures exists c :: Ahead(t, c, k) {
      if k == s.bufs[b].key {
        assert Ahead(t, b, k);
      } else {
        var c :| Ahead(s, c, k);
        assert Ahead(t, c, k);
      }
    }
  }

  lemma CoherentWrite(s: State, u: nat)
    requires Coherent(s) && Exclusive(s) && Enabled(s, Write(u))
    ensures Coherent(DoHeld(s, Write(u)))
  {
    var t := DoHeld(s, Write(u));
    assert forall c: nat, k' :: Ahead(s, c, k') ==> Ahead(t, c, k');
  }

  lemma StillAhead(s: State, step: Step, c: nat, k: Key)
    requires Counted(s) && Enabled(s, step) && Ahead(s, c, k)
    requires step.Lock? || step.Fill? || step.Pin? || step.Unpin? || step.Drop? || step.Unlock?
    requires step.Unlock? && s.uses[step.u].buf == c ==> s.pins[c] > 0
    ensures Sane(DoHeld(s, step)) && Ahead(DoHeld(s, step), c, k)
  {
    hide Wrap;
    if step.Unpin? {
      HolderLocks(s, step.u);
    }
  }

  lemma HeldData(s: State, step: Step, b: nat)
    requires Coherent(s) && Exclusive(s) && Enabled(s, step) && b < |s.bufs|
    requires step.Lock? || step.Fill? || step.Pin? || step.Unpin? || step.Drop? || step.Unlock?
    ensures var t := DoHeld(s, step);
            && Sane(t) && t.contents == s.contents && t.disk == s.disk
            && (t.bufs[b].valid ==>
                  && t.bufs[b].key.dev != 0 && t.bufs[b].key in t.contents
                  && t.bufs[b].data == t.contents[t.bufs[b].key])
  {
    hide Wrap;
  }

  lemma CoherentHeld(s: State, step: Step)
    requires Coherent(s) && Exclusive(s) && Counted(s) && Enabled(s, step)
    requires step.Lock? || step.Fill? || step.Pin? || step.Unpin? || step.Drop? || step.Unlock?
    ensures Coherent(DoHeld(s, step))
  {
    hide Wrap, Counted;
    var t := DoHeld(s, step);
    HeldData(s, step, s.uses[step.u].buf);
    forall b: nat | b < |s.bufs| && t.bufs[b].valid
      ensures t.bufs[b].key.dev != 0 && t.bufs[b].key in t.contents && t.bufs[b].data == t.contents[t.bufs[b].key]
    {
      HeldData(s, step, b);
    }
    forall k | k in t.disk && t.disk[k] != t.contents[k] ensures exists c :: Ahead(t, c, k) {
      var c: nat :| Ahead(s, c, k);
      assert step.Unlock? && s.uses[step.u].buf == c ==> s.pins[c] > 0;
      StillAhead(s, step, c, k);
    }
  }

  // ---- whole runs ---------------------------------------------------------------------------

  lemma HitInv(s: State, b: nat, k: Key)
    requires Inv(s) && Enabled(s, Get(k)) && b < |s.bufs| && s.bufs[b].key == k
    ensures Inv(DoHit(s, b, k))
  {
    hide Listed, Counted, Exclusive, Coherent;
    CountedHit(s, b, k);
    ListedHit(s, b, k);
    ExclusiveHit(s, b, k);
    CoherentHit(s, b, k);
  }

  lemma RecycleInv(s: State, b: nat, k: Key)
    requires Inv(s) && Enabled(s, Get(k)) && b < |s.bufs| && s.bufs[b].refcnt == 0 && s.owe[b] == 0
    requires forall c :: 0 <= c < |s.bufs| ==> s.bufs[c].key != k
    ensures Inv(DoRecycle(s, b, k))
  {
    hide Listed, Counted, Exclusive, Coherent;
    CountedRecycle(s, b, k);
    ListedHit(s, b, k);
    ExclusiveRecycle(s, b, k);
    CoherentRecycle(s, b, k);
  }

  lemma PanicInv(s: State)
    requires Inv(s)
    ensures Inv(s.(panicked := true))
  {
    var t := s.(panicked := true);
    forall c: nat | c < |s.bufs| ensures CountedAt(t, c) {
      assert CountedAt(s, c);
    }
    assert forall c: nat, k :: Ahead(s, c, k) ==> Ahead(t, c, k);
  }

  /** A block that the walk does not find is in no buffer. */
  lemma NotCached(s: State, k: Key)
    requires Listed(s) && FirstWith(OrderKeys(s), k) < 0
    ensures forall c :: 0 <= c < |s.bufs| ==> s.bufs[c].key != k
  {
    var keys := OrderKeys(s);
    forall c: nat | c < |s.bufs| ensures s.bufs[c].key != k {
      assert c in s.order;
      var j :| 0 <= j < |s.order| && s.order[j] == c;
      assert keys[j] == s.bufs[c].key;
    }
  }

  lemma GetInv(s: State, k: Key)
    requires Inv(s) && Settled(s) && Enabled(s, Get(k))
    ensures Inv(DoGet(s, k))
  {
    hide Listed, Counted, Exclusive, Coherent, DoHit, DoRecycle;
    var i, v := FirstWith(OrderKeys(s), k), LastZero(OrderRefs(s));
    if i >= 0 {
      assert OrderKeys(s)[i] == s.bufs[s.order[i]].key;
      HitInv(s, s.order[i], k);
    } else if v >= 0 {
      assert OrderRefs(s)[v] == s.bufs[s.order[v]].refcnt;
      NotCached(s, k);
      RecycleInv(s, s.order[v], k);
    } else {
      PanicInv(s);
    }
  }

  lemma RelinkInv(s: State, i: nat)
    requires Inv(s) && i < |s.order|
    ensures Inv(Relink(s, i))
  {
    var t := Relink(s, i);
    ListedRelink(s, i);
    forall c: nat | c < |s.bufs| ensures CountedAt(t, c) {
      assert CountedAt(s, c);
    }
    assert forall c: nat, k' :: Ahead(s, c, k') ==> Ahead(t, c, k');
  }

  lemma ReleaseInv(s: State, u: nat)
    requires Inv(s) && Enabled(s, Release(u))
    ensures Inv(DoRelease(s, u))
  {
    var t, i := DropUse(s, u), FirstWith(s.order, s.uses[u].buf);
    CountedDrop(s, u);
    ExclusiveDrop(s, u);
    CoherentDrop(s, u);
    if i >= 0 {
      RelinkInv(t, i);
    }
  }

  lemma InvSane(s: State)
    requires Inv(s)
    ensures Sane(s)
  {
  }

  lemma ReleaseEffect(s: State, u: nat)
    requires Enabled(s, Release(u))
    ensures var t := DoRelease(s, u);
            && t.uses == Without(s.uses, u) && t.disk == s.disk && t.contents == s.contents && t.pins == s.pins
            && t.owe == s.owe && t.panicked == s.panicked && |t.bufs| == |s.bufs|
            && forall c :: 0 <= c < |s.bufs| ==>
                 && t.bufs[c].key == s.bufs[c].key && t.bufs[c].valid == s.bufs[c].valid
                 && t.bufs[c].locked == s.bufs[c].locked
  {
    hide Wrap, MoveToFront, FirstWith, Without;
  }

  lemma CoherentAny(s: State, step: Step)
    requires Coherent(s) && Exclusive(s) && Counted(s) && Enabled(s, step) && !step.Get? && !step.Release?
    ensures Coherent(DoHeld(s, step))
  {
    if step.Modify? {
      CoherentModify(s, step.u, step.data);
    } else if step.Write? {
      CoherentWrite(s, step.u);
    } else {
      CoherentHeld(s, step);
    }
  }

  lemma HeldInv(s: State, step: Step)
    requires Inv(s) && Enabled(s, step) && !step.Get? && !step.Release?
    ensures Inv(DoHeld(s, step))
  {
    CountedHeld(s, step);
    ListedHeld(s, step);
    ExclusiveHeld(s, step);
    CoherentAny(s, step);
  }

  /** Every step keeps the invariant; bget, if no buffer that seems unused owes anything. */
  lemma KeepsInv(s: State, step: Step)
    requires Inv(s) && Enabled(s, step) && (step.Get? ==> Settled(s))
    ensures Inv(Do(s, step))
  {
    if step.Get? {
      GetInv(s, step.key);
    } else if step.Release? {
      ReleaseInv(s, step.u);
    } else {
      HeldInv(s, step);
    }
  }

  lemma KeepsPaid(s: State, step: Step)
    requires Paid(s) && Enabled(s, step) && !step.Drop?
    ensures Settled(s) && Paid(Do(s, step))
  {
  }

  lemma {:induction false} InvHolds(s: State, steps: seq<Step>, t: State)
    requires Inv(s) && Paid(s) && Execution(s, steps, t) && Ordinary(steps)
    ensures Inv(t) && Paid(t)
    decreases |steps|
  {
    hide Inv, Paid, Settled, Do, Enabled;
    if steps != [] {
      KeepsPaid(s, steps[0]);
      KeepsInv(s, steps[0]);
      InvHolds(Do(s, steps[0]), steps[1..], t);
    }
  }

  /** A block has at most one buffer; a buffer in use still holds the block its user asked
      for; no two users hold one buffer; what a holder reads is what was last put in that
      block; a buffer's count is its uses plus its pins; and the list is a permutation of
      the buffers in the order their counts last fell to zero. */
  ghost predicate Refines(t: State) {
    && Sane(t) && |t.order| == |t.bufs|
    && (forall a, b :: 0 <= a < b < |t.bufs| && t.bufs[a].key == t.bufs[b].key ==> t.bufs[a].key.dev == 0)
    && (forall u :: 0 <= u < |t.uses| ==> t.bufs[t.uses[u].buf].key == t.uses[u].key)
    && (forall u, v :: 0 <= u < v < |t.uses| && t.uses[u].stage == Holding && t.uses[v].stage == Holding
          ==> t.uses[u].buf != t.uses[v].buf)
    && t.contents.Keys == t.disk.Keys
    && (forall u :: 0 <= u < |t.uses| && t.uses[u].stage == Holding && t.bufs[t.uses[u].buf].valid ==>
          t.uses[u].key in t.contents && t.bufs[t.uses[u].buf].data == t.contents[t.uses[u].key])
    && (forall b: nat :: b < |t.bufs| ==> t.bufs[b].refcnt == Count(t.uses, b, false) + t.pins[b])
    && Distinct(t.order) && (forall b :: 0 <= b < |t.bufs| ==> b in t.order)
    && (forall i, j :: 0 <= i < j < |t.order| ==> t.stamp[t.order[i]] > t.stamp[t.order[j]])
  }

  lemma InvRefines(t: State)
    requires Inv(t) && Paid(t)
    ensures Refines(t)
  {
    forall u, v | 0 <= u < v < |t.uses| && t.uses[u].stage == Holding && t.uses[v].stage == Holding
      ensures t.uses[u].buf != t.uses[v].buf
    {
      OneHolder(t, u, v);
    }
    forall b: nat | b < |t.bufs| ensures t.bufs[b].refcnt == Count(t.uses, b, false) + t.pins[b] {
      CountIs(t, b);
    }
  }

  /** The cache refines a plain block map, in every run in which what is unpinned was pinned. */
  lemma CacheRefinesBlocks(n: nat, disk: map<Key, Block>, steps: seq<Step>, t: State)
    requires Runs(n, disk, steps, t)
    ensures Refines(t)
  {
    InitInv(n, disk);
    InvHolds(Init(n, disk), steps, t);
    InvRefines(t);
  }

  lemma OneHolder(s: State, u: nat, v: nat)
    requires Counted(s) && u < v < |s.uses| && s.uses[u].stage == Holding && s.uses[v].stage == Holding
    ensures s.uses[u].buf != s.uses[v].buf
  {
    var b := s.uses[u].buf;
    assert CountedAt(s, b);
    CountAt(s.uses, v, b, true);
    CountAt(Without(s.uses, v), u, b, true);
  }

  lemma UnusedOrder(s: State)
    requires Listed(s)
    ensures var v := LastZero(OrderRefs(s));
            && (v >= 0 ==> s.bufs[s.order[v]].refcnt == 0)
            && forall c: nat :: c < |s.bufs| && s.bufs[c].refcnt == 0 ==>
                 v >= 0 && (c != s.order[v] ==> s.stamp[s.order[v]] < s.stamp[c])
  {
    var refs := OrderRefs(s);
    var v := LastZero(refs);
    if v >= 0 {
      assert refs[v] == s.bufs[s.order[v]].refcnt;
    }
    forall c: nat | c < |s.bufs| && s.bufs[c].refcnt == 0
      ensures v >= 0 && (c != s.order[v] ==> s.stamp[s.order[v]] < s.stamp[c])
    {
      assert c in s.order;
      var j :| 0 <= j < |s.order| && s.order[j] == c;
      assert refs[j] == 0;
    }
  }

  /** bget recycles only a buffer that nobody uses or pins, and of those the one whose
      count fell to zero longest ago; it panics only when every buffer is in use. */
  lemma RecyclesLeastRecent(n: nat, disk: map<Key, Block>, steps: seq<Step>, t: State, k: Key, b: nat)
    requires Runs(n, disk, steps, t) && Enabled(t, Get(k)) && b < |t.bufs|
    ensures DoGet(t, k).bufs[b].key != t.bufs[b].key ==>
              && t.pins[b] == 0 && !t.bufs[b].locked
              && (forall u :: 0 <= u < |t.uses| ==> t.uses[u].buf != b)
              && (forall c: nat :: c < |t.bufs| && c != b && t.bufs[c].refcnt == 0 ==> t.stamp[b] < t.stamp[c])
    ensures DoGet(t, k).panicked ==> t.bufs[b].refcnt > 0
  {
    InitInv(n, disk);
    InvHolds(Init(n, disk), steps, t);
    UnusedOrder(t);
    if DoGet(t, k).bufs[b].key != t.bufs[b].key {
      assert b == t.order[LastZero(OrderRefs(t))];
      IdleBuffer(t, b);
    }
  }
}

