/** The log in use (kernel/log.c:113-210): every interleaving of begin_op, log_write,
    end_op, the single block writes of commit, crashes, and the single block writes of
    recovery, as a state machine over atomic steps. */
module LogMachine {
  import opened Blocks
  import opened LogDisk
  import opened Prelude

  /** An operation between begin_op and end_op. `checked`: it has passed log_write's size
      guard, which is tested without the lock, and has not yet appended. */
  datatype Op = Op(id: nat, added: nat, calls: nat, checked: bool)

  datatype Write = Write(op: nat, block: Word, data: Block)

  /** `i` block writes of commit or recovery are done; `base` is the disk they began on. */
  datatype Phase =
    | Running
    | Committing(i: nat, base: Disk)
    | Recovering(i: nat, base: Disk)

  /** A group of writes that were committed together, or lost together in a crash. */
  datatype Epoch = Epoch(writes: seq<Write>, durable: bool)

  /** The first six fields are the log's own; the rest records the history of the run.
      `cache` holds the contents of the pinned buffers. */
  datatype State = State(
    disk: Disk,
    lh: seq<Word>,
    cache: map<Word, Block>,
    ops: seq<Op>,
    committing: bool,
    phase: Phase,
    panicked: bool,
    group: seq<Write>,
    epochs: seq<Epoch>,
    issued: seq<Write>,
    nextId: nat,
    floor: nat)

  /** `strict`: callers make at most MAXOPBLOCKS calls of log_write in one operation,
      rather than only adding at most MAXOPBLOCKS new blocks. */
  datatype Config = Config(area: Area, strict: bool)

  datatype Step =
    | BeginOp
    | CheckSpace(i: nat)
    | LogWrite(i: nat, b: Word, data: Block)
    | EndOp(i: nat)
    | DiskWrite
    | Finish
    | Crash

  function Absorb(lh: seq<Word>, b: Word): (r: seq<Word>) {
    if b in lh then lh else lh + [b]
  }

  lemma AbsorbHome(a: Area, size: nat, lh: seq<Word>, b: Word)
    requires Homes(a, size, lh) && b < size && !InLog(a, b) && |Absorb(lh, b)| <= LOGSIZE
    ensures Homes(a, size, Absorb(lh, b)) <==> |Absorb(lh, b)| < a.size
  {
  }

  function Dirty(lh: seq<Word>, cache: map<Word, Block>): (data: seq<Block>)
    requires forall k :: 0 <= k < |lh| ==> lh[k] in cache
  {
    seq(|lh|, k requires 0 <= k < |lh| => cache[lh[k]])
  }

  predicate Enabled(c: Config, s: State, step: Step) {
    match step
    case BeginOp =>
      && s.phase.Running? && !s.panicked && !s.committing
      && |s.lh| + (|s.ops| + 1) * MAXOPBLOCKS <= LOGSIZE
    case CheckSpace(i) =>
      && s.phase.Running? && !s.panicked && i < |s.ops| && !s.ops[i].checked
      && (c.strict ==> s.ops[i].calls < MAXOPBLOCKS)
    case LogWrite(i, b, _) =>
      && s.phase.Running? && !s.panicked && i < |s.ops| && s.ops[i].checked
      && b < |s.disk| && !InLog(c.area, b)
      && (b in s.lh || s.ops[i].added < MAXOPBLOCKS)
    case EndOp(i) =>
      s.phase.Running? && !s.panicked && i < |s.ops| && !s.ops[i].checked
    case DiskWrite =>
      && !s.panicked && Loggable(c.area, |s.disk|, s.lh)
      && (match s.phase
          case Running => false
          case Committing(i, _) =>
            s.lh != [] && i < 2 * |s.lh| + 2 && forall k :: 0 <= k < |s.lh| ==> s.lh[k] in s.cache
          case Recovering(i, _) => i <= |s.lh|)
    case Finish =>
      && !s.panicked
      && (match s.phase
          case Running => false
          case Committing(i, _) => s.lh == [] || i == 2 * |s.lh| + 2
          case Recovering(i, _) => i == |s.lh| + 1)
    case Crash => Placed(c.area, |s.disk|) && HeadCount(s.disk[c.area.start]) <= LOGSIZE
  }

  function NextBlockWrite(c: Config, s: State): (w: (nat, Block))
    requires Enabled(c, s, DiskWrite)
    ensures w.0 < |s.disk|
  {
    match s.phase
    case Committing(i, _) => CommitWrite(c.area, s.disk, s.lh, Dirty(s.lh, s.cache), i)
    case Recovering(i, _) => RecoverWrite(c.area, s.disk, s.lh, i)
  }

  function DoBeginOp(s: State): (t: State) {
    s.(ops := s.ops + [Op(s.nextId, 0, 0, false)], nextId := s.nextId + 1)
  }

  function DoCheckSpace(c: Config, s: State, i: nat): (t: State)
    requires i < |s.ops|
  {
    if |s.lh| >= LOGSIZE || |s.lh| >= c.area.size - 1 || |s.ops| < 1 then s.(panicked := true)
    else
      var o := s.ops[i];
      s.(ops := s.ops[i := o.(calls := o.calls + 1, checked := true)])
  }

  function DoLogWrite(s: State, i: nat, b: Word, data: Block): (t: State)
    requires i < |s.ops|
  {
    var o, w := s.ops[i], Write(s.ops[i].id, b, data);
    s.(lh := Absorb(s.lh, b),
       cache := s.cache[b := data],
       ops := s.ops[i := o.(added := if b in s.lh then o.added else o.added + 1, checked := false)],
       group := s.group + [w],
       issued := s.issued + [w])
  }

  function DoEndOp(s: State, i: nat): (t: State)
    requires i < |s.ops|
  {
    if s.committing then s.(panicked := true)
    else
      var ops := s.ops[..i] + s.ops[i + 1..];
      if ops == [] then s.(ops := [], committing := true, phase := Committing(0, s.disk))
      else s.(ops := ops)
  }

  /** The disk becomes d by one block write; the first header write makes the group durable. */
  function AfterWrite(s: State, d: Disk): (t: State)
    requires !s.phase.Running?
  {
    var t := s.(disk := d, phase := s.phase.(i := s.phase.i + 1));
    if s.phase.Committing? && s.phase.i == |s.lh|
    then t.(group := [], epochs := s.epochs + [Epoch(s.group, true)], floor := s.nextId)
    else t
  }

  function DoDiskWrite(c: Config, s: State): (t: State)
    requires Enabled(c, s, DiskWrite)
  {
    var (b, data) := NextBlockWrite(c, s);
    AfterWrite(s, s.disk[b := data])
  }

  function DoFinish(s: State): (t: State) {
    s.(lh := [], cache := map[], committing := false, phase := Running)
  }

  function DoCrash(c: Config, s: State): (t: State)
    requires Enabled(c, s, Crash)
  {
    s.(lh := HeadBlocks(s.disk[c.area.start]), cache := map[], ops := [], committing := false,
       phase := Recovering(0, s.disk), panicked := false,
       group := [], epochs := s.epochs + [Epoch(s.group, false)], floor := s.nextId)
  }

  function Do(c: Config, s: State, step: Step): (t: State)
    requires Enabled(c, s, step)
  {
    match step
    case BeginOp => DoBeginOp(s)
    case CheckSpace(i) => DoCheckSpace(c, s, i)
    case LogWrite(i, b, data) => DoLogWrite(s, i, b, data)
    case EndOp(i) => DoEndOp(s, i)
    case DiskWrite => DoDiskWrite(c, s)
    case Finish => DoFinish(s)
    case Crash => DoCrash(c, s)
  }

  /** The machine at boot: recovery is about to run on the image `d`. */
  function Boot(c: Config, d: Disk): (s: State)
    requires Recoverable(c.area, d)
  {
    State(d, HeadBlocks(d[c.area.start]), map[], [], false, Recovering(0, d), false, [], [], [], 0, 0)
  }

  ghost predicate Execution(c: Config, s: State, steps: seq<Step>, t: State)
    decreases |steps|
  {
    if steps == [] then s == t
    else Enabled(c, s, steps[0]) && Execution(c, Do(c, s, steps[0]), steps[1..], t)
  }

  /** A run from boot on image d. */
  ghost predicate Runs(c: Config, d: Disk, steps: seq<Step>, t: State)
    requires Recoverable(c.area, d)
  {
    Execution(c, Boot(c, d), steps, t)
  }

  // ---- what the history says the disk should hold ----------------------------------

  function Replay(d: Disk, ws: seq<Write>): (r: Disk)
    ensures |r| == |d|
    decreases |ws|
  {
    if ws == [] then d
    else
      var w, r := ws[|ws| - 1], Replay(d, ws[..|ws| - 1]);
      if w.block < |d| then r[w.block := w.data] else r
  }

  function DurableDisk(d: Disk, epochs: seq<Epoch>): (r: Disk)
    ensures |r| == |d|
    decreases |epochs|
  {
    if epochs == [] then d
    else
      var e, r := epochs[|epochs| - 1], DurableDisk(d, epochs[..|epochs| - 1]);
      if e.durable then Replay(r, e.writes) else r
  }

  function Flatten(epochs: seq<Epoch>): (ws: seq<Write>)
    decreases |epochs|
  {
    if epochs == [] then [] else Flatten(epochs[..|epochs| - 1]) + epochs[|epochs| - 1].writes
  }

  /** What a reader of block b sees. */
  function View(s: State, b: Word): (data: Block)
    requires b < |s.disk|
  {
    if b in s.cache then s.cache[b] else s.disk[b]
  }

  lemma ReplayHome(a: Area, d: Disk, e: Disk, ws: seq<Write>)
    requires SameHome(a, d, e)
    ensures SameHome(a, Replay(d, ws), Replay(e, ws))
    decreases |ws|
  {
    if ws != [] {
      ReplayHome(a, d, e, ws[..|ws| - 1]);
    }
  }

  // ---- the invariant ---------------------------------------------------------------

  ghost predicate Distinct(lh: seq<Word>) {
    forall i, j :: 0 <= i < j < |lh| ==> lh[i] != lh[j]
  }

  ghost predicate Listed(c: Config, s: State) {
    && Homes(c.area, |s.disk|, s.lh)
    && Distinct(s.lh)
    && (forall k :: 0 <= k < |s.lh| ==> s.lh[k] in s.cache)
    && (forall b :: b in s.cache ==> b in s.lh)
  }

  ghost predicate RunningInv(c: Config, s: State, durable: Disk) {
    && Listed(c, s) && !s.committing
    && Clear(c.area, s.disk)
    && SameHome(c.area, s.disk, durable)
    && var now := Replay(durable, s.group);
       forall b: Word :: b < |s.disk| && !InLog(c.area, b) ==> View(s, b) == now[b]
  }

  /** Before the header write (the n-th) the home blocks are the durable ones and the
      transaction leads to `now`; after it, the transaction's result is durable. */
  ghost predicate Flips(a: Area, i: nat, n: nat, base: Disk, applied: Disk, durable: Disk, now: Disk,
                        group: seq<Write>)
  {
    && (i <= n ==> SameHome(a, base, durable) && SameHome(a, applied, now))
    && (i > n ==> group == [] && SameHome(a, applied, durable))
  }

  lemma FlipsAdvance(a: Area, i: nat, n: nat, base: Disk, applied: Disk, durable: Disk, now: Disk, group: seq<Write>)
    requires Flips(a, i, n, base, applied, durable, now, group)
    ensures if i == n then Flips(a, i + 1, n, base, applied, now, now, [])
            else Flips(a, i + 1, n, base, applied, durable, now, group)
  {
  }

  ghost predicate CommittingInv(c: Config, s: State, durable: Disk)
    requires s.phase.Committing?
  {
    var i, base := s.phase.i, s.phase.base;
    && Listed(c, s) && s.committing && s.ops == [] && !s.panicked
    && |base| == |s.disk| && Clear(c.area, base) && i <= 2 * |s.lh| + 2
    && var data := Dirty(s.lh, s.cache);
       && s.disk == CommitDisk(c.area, base, s.lh, data, i)
       && Flips(c.area, i, |s.lh|, base, Applied(base, s.lh, data, |s.lh|), durable, Replay(durable, s.group), s.group)
  }

  ghost predicate RecoveringInv(c: Config, s: State, durable: Disk)
    requires s.phase.Recovering?
  {
    var i, base := s.phase.i, s.phase.base;
    && s.ops == [] && s.group == [] && s.cache == map[] && !s.committing && !s.panicked
    && Recoverable(c.area, base) && s.lh == HeadBlocks(base[c.area.start]) && i <= |s.lh| + 1
    && s.disk == RecoverDisk(c.area, base, i)
    && SameHome(c.area, Recovered(c.area, base), durable)
  }

  ghost predicate DiskInv(c: Config, init: Disk, s: State) {
    && Placed(c.area, |s.disk|) && |s.disk| == |init|
    && var durable := DurableDisk(init, s.epochs);
       match s.phase
       case Running => RunningInv(c, s, durable)
       case Committing(i, _) =>
         if s.lh != [] then CommittingInv(c, s, durable)
         else
           && i == 0 && s.ops == [] && s.committing && !s.panicked
           && RunningInv(c, s.(committing := false), durable)
       case Recovering(_, _) => RecoveringInv(c, s, durable)
  }

  /** Every disk the machine can show, at whatever step: recovery takes it to the durable groups. */
  lemma DiskInvMeans(c: Config, init: Disk, s: State)
    requires DiskInv(c, init, s)
    ensures Recoverable(c.area, s.disk)
    ensures SameHome(c.area, Recovered(c.area, s.disk), DurableDisk(init, s.epochs))
  {
    match s.phase
    case Running => RecoveredClear(c.area, s.disk);
    case Recovering(i, base) => RecoveryRestarts(c.area, base, i);
    case Committing(i, base) =>
      if s.lh == [] {
        RecoveredClear(c.area, s.disk);
      } else if i <= |s.lh| {
        CommitOld(c.area, base, s.lh, Dirty(s.lh, s.cache), i);
      } else {
        CommitNew(c.area, base, s.lh, Dirty(s.lh, s.cache), i);
      }
  }

  lemma KeepsBoot(c: Config, d: Disk)
    requires Recoverable(c.area, d)
    ensures DiskInv(c, Recovered(c.area, d), Boot(c, d))
  {
  }

  lemma KeepsLogWrite(c: Config, init: Disk, s: State, i: nat, b: Word, data: Block)
    requires DiskInv(c, init, s) && Enabled(c, s, LogWrite(i, b, data))
    requires var lh := Absorb(s.lh, b); |lh| <= LOGSIZE && |lh| < c.area.size
    ensures DiskInv(c, init, DoLogWrite(s, i, b, data))
  {
    hide Listed, View, Clear, SameHome, InLog, Replay;
    var t, durable := DoLogWrite(s, i, b, data), DurableDisk(init, s.epochs);
    WriteListed(c, s, i, b, data);
    forall k: Word | k < |t.disk| && !InLog(c.area, k) ensures View(t, k) == Replay(durable, t.group)[k] {
      WriteViewed(s, t, durable, i, b, data, k);
    }
  }

  lemma WriteListed(c: Config, s: State, i: nat, b: Word, data: Block)
    requires Listed(c, s) && i < |s.ops| && b < |s.disk| && !InLog(c.area, b)
    requires var lh := Absorb(s.lh, b); |lh| <= LOGSIZE && |lh| < c.area.size
    ensures Listed(c, DoLogWrite(s, i, b, data))
  {
  }

  lemma WriteViewed(s: State, t: State, durable: Disk, i: nat, b: Word, data: Block, k: Word)
    requires i < |s.ops| && t == DoLogWrite(s, i, b, data) && b < |s.disk| == |durable| && k < |s.disk|
    requires View(s, k) == Replay(durable, s.group)[k]
    ensures View(t, k) == Replay(durable, t.group)[k]
  {
    assert t.group[..|t.group| - 1] == s.group;
  }

  lemma KeepsEndOp(c: Config, init: Disk, s: State, i: nat)
    requires DiskInv(c, init, s) && Enabled(c, s, EndOp(i))
    ensures DiskInv(c, init, DoEndOp(s, i))
  {
    CommitStarts(c, s, DurableDisk(init, s.epochs));
  }

  lemma CommitStarts(c: Config, s: State, durable: Disk)
    requires RunningInv(c, s, durable) && |durable| == |s.disk|
    ensures SameHome(c.area, Applied(s.disk, s.lh, Dirty(s.lh, s.cache), |s.lh|), Replay(durable, s.group))
  {
    var data := Dirty(s.lh, s.cache);
    var now := Applied(s.disk, s.lh, data, |s.lh|);
    forall b: nat | b < |s.disk| && !InLog(c.area, b) ensures now[b] == Replay(durable, s.group)[b] {
      AppliedAt(s.disk, s.lh, data, |s.lh|, b);
      assert View(s, b) == now[b] by {
        if b in s.cache {
          var k :| 0 <= k < |s.lh| && s.lh[k] == b;
        }
      }
    }
  }

  lemma CommitWriteShape(c: Config, init: Disk, s: State)
    requires DiskInv(c, init, s) && s.phase.Committing? && Enabled(c, s, DiskWrite)
    ensures DoDiskWrite(c, s) ==
            AfterWrite(s, CommitDisk(c.area, s.phase.base, s.lh, Dirty(s.lh, s.cache), s.phase.i + 1))
  {
    CommitDiskStep(c.area, s.phase.base, s.lh, Dirty(s.lh, s.cache), s.phase.i);
  }

  lemma ListedFrame(c: Config, s: State, t: State)
    requires Listed(c, s) && t.lh == s.lh && t.cache == s.cache && |t.disk| == |s.disk|
    ensures Listed(c, t)
  {
  }

  lemma CommittingNext(c: Config, s: State, durable: Disk, t: State, durable': Disk)
    requires s.phase.Committing? && CommittingInv(c, s, durable) && s.phase.i < 2 * |s.lh| + 2
    requires t == s.(disk := t.disk, phase := Committing(s.phase.i + 1, s.phase.base), group := t.group,
                     epochs := t.epochs, floor := t.floor)
    requires t.disk == CommitDisk(c.area, s.phase.base, s.lh, Dirty(s.lh, s.cache), s.phase.i + 1)
    requires Flips(c.area, s.phase.i + 1, |s.lh|, s.phase.base,
                   Applied(s.phase.base, s.lh, Dirty(s.lh, s.cache), |s.lh|),
                   durable', Replay(durable', t.group), t.group)
    ensures CommittingInv(c, t, durable')
  {
    ListedFrame(c, s, t);
  }

  lemma CommitAdvances(c: Config, init: Disk, s: State, d: Disk)
    requires DiskInv(c, init, s) && s.phase.Committing? && s.lh != [] && s.phase.i < 2 * |s.lh| + 2
    requires d == CommitDisk(c.area, s.phase.base, s.lh, Dirty(s.lh, s.cache), s.phase.i + 1)
    ensures DiskInv(c, init, AfterWrite(s, d))
  {
    hide CommitDisk, Applied, Flips;
    var t, durable := AfterWrite(s, d), DurableDisk(init, s.epochs);
    var durable' := DurableDisk(init, t.epochs);
    if s.phase.i == |s.lh| {
      assert t.epochs[..|t.epochs| - 1] == s.epochs;
      assert durable' == Replay(durable, s.group);
    }
    var base, n := s.phase.base, |s.lh|;
    FlipsAdvance(c.area, s.phase.i, n, base, Applied(base, s.lh, Dirty(s.lh, s.cache), n),
                 durable, Replay(durable, s.group), s.group);
    CommittingNext(c, s, durable, t, durable');
  }

  lemma KeepsCommitWrite(c: Config, init: Disk, s: State)
    requires DiskInv(c, init, s) && s.phase.Committing? && Enabled(c, s, DiskWrite)
    ensures DiskInv(c, init, DoDiskWrite(c, s))
  {
    CommitWriteShape(c, init, s);
    CommitAdvances(c, init, s, CommitDisk(c.area, s.phase.base, s.lh, Dirty(s.lh, s.cache), s.phase.i + 1));
  }

  lemma KeepsFinishCommit(c: Config, init: Disk, s: State)
    requires DiskInv(c, init, s) && s.phase.Committing? && Enabled(c, s, Finish)
    ensures DiskInv(c, init, DoFinish(s))
  {
    if s.lh != [] {
      var data, n := Dirty(s.lh, s.cache), |s.lh|;
      CommitNew(c.area, s.phase.base, s.lh, data, 2 * n + 2);
      assert Clear(c.area, s.disk);
      RecoveredClear(c.area, s.disk);
    }
  }

  lemma KeepsRecoverWrite(c: Config, init: Disk, s: State)
    requires DiskInv(c, init, s) && s.phase.Recovering? && Enabled(c, s, DiskWrite)
    ensures DiskInv(c, init, DoDiskWrite(c, s))
  {
    RecoverDiskStep(c.area, s.phase.base, s.phase.i);
  }

  lemma KeepsFinishRecovery(c: Config, init: Disk, s: State)
    requires DiskInv(c, init, s) && s.phase.Recovering? && Enabled(c, s, Finish)
    ensures DiskInv(c, init, DoFinish(s))
  {
    HeadRoundTrip(s.phase.base[c.area.start], []);
    assert s.disk == Recovered(c.area, s.phase.base);
    RecoveredClear(c.area, s.disk);
  }

  lemma KeepsCrash(c: Config, init: Disk, s: State)
    requires DiskInv(c, init, s) && Enabled(c, s, Crash)
    ensures DiskInv(c, init, DoCrash(c, s))
  {
    var t := DoCrash(c, s);
    DiskInvMeans(c, init, s);
    assert t.epochs[..|t.epochs| - 1] == s.epochs;
  }

  lemma KeepsDisk(c: Config, init: Disk, s: State, step: Step)
    requires DiskInv(c, init, s) && Enabled(c, s, step)
    requires step.LogWrite? ==> var lh := Absorb(s.lh, step.b); |lh| <= LOGSIZE && |lh| < c.area.size
    ensures DiskInv(c, init, Do(c, s, step))
  {
    match step
    case BeginOp =>
    case CheckSpace(_) =>
    case LogWrite(i, b, data) => KeepsLogWrite(c, init, s, i, b, data);
    case EndOp(i) => KeepsEndOp(c, init, s, i);
    case DiskWrite => if s.phase.Committing? { KeepsCommitWrite(c, init, s); } else { KeepsRecoverWrite(c, init, s); }
    case Finish => if s.phase.Committing? { KeepsFinishCommit(c, init, s); } else { KeepsFinishRecovery(c, init, s); }
    case Crash => KeepsCrash(c, init, s);
  }

  // ---- the reservation -------------------------------------------------------------

  /** The new blocks that the outstanding operations may still add. */
  function Rooms(ops: seq<Op>): (r: int) {
    if ops == [] then 0 else MAXOPBLOCKS - ops[0].added + Rooms(ops[1..])
  }

  lemma {:induction false} RoomsConcat(x: seq<Op>, y: seq<Op>)
    ensures Rooms(x + y) == Rooms(x) + Rooms(y)
  {
    if x == [] {
      assert x + y == y;
    } else {
      assert (x + y)[1..] == x[1..] + y;
      RoomsConcat(x[1..], y);
    }
  }

  lemma RoomsSplit(ops: seq<Op>, i: nat)
    requires i < |ops|
    ensures Rooms(ops) == Rooms(ops[..i] + ops[i + 1..]) + MAXOPBLOCKS - ops[i].added
    ensures forall o :: Rooms(ops[i := o]) == Rooms(ops[..i] + ops[i + 1..]) + MAXOPBLOCKS - o.added
  {
    var l, r := ops[..i], ops[i + 1..];
    RoomsConcat(l, r);
    forall o ensures Rooms(ops[i := o]) == Rooms(l + r) + MAXOPBLOCKS - o.added {
      assert ops[i := o] == l + ([o] + r);
      RoomsConcat(l, [o] + r);
      assert ([o] + r)[1..] == r;
    }
    assert ops[i := ops[i]] == ops;
  }

  lemma {:induction false} RoomsBounds(ops: seq<Op>)
    requires forall k :: 0 <= k < |ops| ==> ops[k].added <= MAXOPBLOCKS
    ensures 0 <= Rooms(ops) <= |ops| * MAXOPBLOCKS
  {
    if ops != [] {
      RoomsBounds(ops[1..]);
    }
  }

  ghost predicate Reserved(c: Config, s: State) {
    && (forall k :: 0 <= k < |s.ops| ==>
          && s.ops[k].added <= MAXOPBLOCKS
          && s.ops[k].added + (if s.ops[k].checked then 1 else 0) <= s.ops[k].calls
          && (c.strict ==> s.ops[k].calls <= MAXOPBLOCKS))
    && |s.lh| + Rooms(s.ops) <= LOGSIZE && (!s.phase.Recovering? ==> Distinct(s.lh))
    && (s.committing ==> s.ops == [])
    && (!s.phase.Running? ==> s.ops == [])
    && (c.strict && c.area.size > LOGSIZE ==> !s.panicked)
  }

  lemma ReservedRoom(c: Config, s: State, i: nat)
    requires Reserved(c, s) && i < |s.ops|
    ensures |s.lh| + MAXOPBLOCKS - s.ops[i].added <= LOGSIZE
  {
    RoomsSplit(s.ops, i);
    RoomsBounds(s.ops[..i] + s.ops[i + 1..]);
  }

  lemma KeepsReservedCheck(c: Config, s: State, i: nat)
    requires Reserved(c, s) && Enabled(c, s, CheckSpace(i))
    ensures Reserved(c, DoCheckSpace(c, s, i))
  {
    RoomsSplit(s.ops, i);
    ReservedRoom(c, s, i);
  }

  lemma KeepsReservedWrite(c: Config, s: State, i: nat, b: Word, data: Block)
    requires Reserved(c, s) && Enabled(c, s, LogWrite(i, b, data))
    ensures Reserved(c, DoLogWrite(s, i, b, data))
  {
    RoomsSplit(s.ops, i);
  }

  lemma KeepsReservedEnd(c: Config, s: State, i: nat)
    requires Reserved(c, s) && Enabled(c, s, EndOp(i))
    ensures Reserved(c, DoEndOp(s, i))
  {
    RoomsSplit(s.ops, i);
  }

  lemma KeepsReservedBegin(c: Config, s: State)
    requires Reserved(c, s) && Enabled(c, s, BeginOp)
    ensures Reserved(c, DoBeginOp(s))
  {
    RoomsConcat(s.ops, [Op(s.nextId, 0, 0, false)]);
    RoomsBounds(s.ops);
  }

  lemma KeepsReserved(c: Config, s: State, step: Step)
    requires Reserved(c, s) && Enabled(c, s, step)
    ensures Reserved(c, Do(c, s, step))
  {
    match step
    case BeginOp => KeepsReservedBegin(c, s);
    case CheckSpace(i) => KeepsReservedCheck(c, s, i);
    case LogWrite(i, b, data) => KeepsReservedWrite(c, s, i, b, data);
    case EndOp(i) => KeepsReservedEnd(c, s, i);
    case DiskWrite =>
    case Finish =>
    case Crash =>
  }

  // ---- operations are never split --------------------------------------------------

  ghost predicate Ordered(epochs: seq<Epoch>, floor: nat) {
    && (forall g, w :: 0 <= g < |epochs| && w in epochs[g].writes ==> w.op < floor)
    && (forall g, h, v, w :: 0 <= g < h < |epochs| && v in epochs[g].writes && w in epochs[h].writes
          ==> v.op < w.op)
  }

  ghost predicate Ids(s: State) {
    && s.floor <= s.nextId
    && (forall k :: 0 <= k < |s.ops| ==> s.floor <= s.ops[k].id < s.nextId)
    && (forall w :: w in s.group ==> s.floor <= w.op < s.nextId)
    && Ordered(s.epochs, s.floor)
    && s.issued == Flatten(s.epochs) + s.group
    && (!s.phase.Running? ==> s.ops == [])
  }

  lemma OrderedAppend(epochs: seq<Epoch>, floor: nat, e: Epoch, floor': nat)
    requires Ordered(epochs, floor) && floor <= floor'
    requires forall w :: w in e.writes ==> floor <= w.op < floor'
    ensures Ordered(epochs + [e], floor')
    ensures Flatten(epochs + [e]) == Flatten(epochs) + e.writes
  {
    assert (epochs + [e])[..|epochs|] == epochs;
  }

  lemma KeepsIdsWrite(c: Config, s: State, i: nat, b: Word, data: Block)
    requires Ids(s) && Enabled(c, s, LogWrite(i, b, data))
    ensures Ids(DoLogWrite(s, i, b, data))
  {
  }

  lemma KeepsIdsEnd(c: Config, s: State, i: nat)
    requires Ids(s) && Enabled(c, s, EndOp(i))
    ensures Ids(DoEndOp(s, i))
  {
  }

  lemma KeepsIds(c: Config, s: State, step: Step)
    requires Ids(s) && Enabled(c, s, step)
    ensures Ids(Do(c, s, step))
  {
    match step
    case BeginOp =>
    case CheckSpace(_) =>
    case Finish =>
    case LogWrite(i, b, data) => KeepsIdsWrite(c, s, i, b, data);
    case EndOp(i) => KeepsIdsEnd(c, s, i);
    case DiskWrite => OrderedAppend(s.epochs, s.floor, Epoch(s.group, true), s.nextId);
    case Crash => OrderedAppend(s.epochs, s.floor, Epoch(s.group, false), s.nextId);
  }

  // ---- whole runs ------------------------------------------------------------------

  ghost predicate Inv(c: Config, init: Disk, s: State) {
    DiskInv(c, init, s) && Reserved(c, s) && Ids(s)
  }

  /** A step keeps the invariant as long as the list fits the log area. */
  lemma KeepsInv(c: Config, init: Disk, s: State, step: Step)
    requires Inv(c, init, s) && Enabled(c, s, step) && |Do(c, s, step).lh| < c.area.size
    ensures Inv(c, init, Do(c, s, step))
  {
    KeepsReserved(c, s, step);
    KeepsIds(c, s, step);
    if step.LogWrite? {
      RoomsBounds(Do(c, s, step).ops);
    }
    KeepsDisk(c, init, s, step);
  }

  /** The list fits the log area in every state of the run. */
  ghost predicate Fitting(c: Config, s: State, steps: seq<Step>)
    decreases |steps|
  {
    && |s.lh| < c.area.size
    && (steps != [] ==> Enabled(c, s, steps[0]) && Fitting(c, Do(c, s, steps[0]), steps[1..]))
  }

  /** A run from boot on image d in which the list always fits. */
  ghost predicate RunsWithin(c: Config, d: Disk, steps: seq<Step>, t: State)
    requires Recoverable(c.area, d)
  {
    Runs(c, d, steps, t) && Fitting(c, Boot(c, d), steps)
  }

  lemma {:induction false} InvHolds(c: Config, init: Disk, s: State, steps: seq<Step>, t: State)
    requires Inv(c, init, s) && Execution(c, s, steps, t) && Fitting(c, s, steps)
    ensures Inv(c, init, t)
    decreases |steps|
  {
    if steps != [] {
      KeepsInv(c, init, s, steps[0]);
      InvHolds(c, init, Do(c, s, steps[0]), steps[1..], t);
    }
  }

  /** What needs no bound on the list. */
  lemma {:induction false} ReservedHolds(c: Config, s: State, steps: seq<Step>, t: State)
    requires Reserved(c, s) && Ids(s) && Execution(c, s, steps, t)
    ensures Reserved(c, t) && Ids(t)
    ensures c.area.size > LOGSIZE ==> Fitting(c, s, steps)
    decreases |steps|
  {
    RoomsBounds(s.ops);
    if steps != [] {
      KeepsReserved(c, s, steps[0]);
      KeepsIds(c, s, steps[0]);
      ReservedHolds(c, Do(c, s, steps[0]), steps[1..], t);
    }
  }

  lemma BootInv(c: Config, d: Disk)
    requires Recoverable(c.area, d)
    ensures Inv(c, Recovered(c.area, d), Boot(c, d))
  {
    KeepsBoot(c, d);
  }

  /** The reservation. In every run, for a log area of any size: the list, with all that the
      outstanding operations may still add, stays within LOGSIZE blocks, and names none
      twice once recovery is over; no operation is outstanding during a commit. */
  lemma Reservation(c: Config, d: Disk, steps: seq<Step>, t: State)
    requires Recoverable(c.area, d) && Runs(c, d, steps, t)
    ensures |t.lh| + Rooms(t.ops) <= LOGSIZE && 0 <= Rooms(t.ops)
    ensures !t.phase.Recovering? ==> Distinct(t.lh)
    ensures t.committing ==> t.ops == []
  {
    BootInv(c, d);
    ReservedHolds(c, Boot(c, d), steps, t);
    RoomsBounds(t.ops);
  }

  /** A crash now would recover to the boot image with exactly the durable groups applied. */
  ghost predicate Committed(c: Config, d: Disk, t: State)
    requires Recoverable(c.area, d)
  {
    Recoverable(c.area, t.disk)
        && SameHome(c.area, Recovered(c.area, t.disk), DurableDisk(Recovered(c.area, d), t.epochs))
  }

  /** Group commit. In every run in which the list fits the log area, at every moment, a
      crash and recovery would leave the boot image with exactly the durable groups applied,
      in order; and readers see that image with the current group on top. */
  lemma GroupCommit(c: Config, d: Disk, steps: seq<Step>, t: State)
    requires Recoverable(c.area, d) && RunsWithin(c, d, steps, t)
    ensures Committed(c, d, t)
    ensures t.phase.Running? ==>
              forall b: Word :: b < |t.disk| && !InLog(c.area, b) ==>
                View(t, b) == Replay(DurableDisk(Recovered(c.area, d), t.epochs), t.group)[b]
  {
    BootInv(c, d);
    InvHolds(c, Recovered(c.area, d), Boot(c, d), steps, t);
    DiskInvMeans(c, Recovered(c.area, d), t);
  }

  /** With more than LOGSIZE blocks every run is such a run, and log_write's panic is not reached. */
  lemma LargeLog(c: Config, d: Disk, steps: seq<Step>, t: State)
    requires c.area.size > LOGSIZE && Recoverable(c.area, d) && Runs(c, d, steps, t)
    ensures RunsWithin(c, d, steps, t) && Committed(c, d, t)
    ensures c.strict ==> !t.panicked
  {
    BootInv(c, d);
    ReservedHolds(c, Boot(c, d), steps, t);
    GroupCommit(c, d, steps, t);
  }

  /** All-or-nothing per operation: the groups partition what was ever logged, and no
      operation has writes in two of them, nor in one of them and in the current group. */
  lemma OperationsNotSplit(c: Config, d: Disk, steps: seq<Step>, t: State, g: nat, v: Write, w: Write)
    requires Recoverable(c.area, d) && Runs(c, d, steps, t)
    requires g < |t.epochs| && v in t.epochs[g].writes && v.op == w.op
    ensures t.issued == Flatten(t.epochs) + t.group
    ensures w !in t.group
    ensures forall h :: 0 <= h < |t.epochs| && w in t.epochs[h].writes ==> h == g
    ensures forall k :: 0 <= k < |t.ops| ==> t.ops[k].id != v.op
  {
    BootInv(c, d);
    ReservedHolds(c, Boot(c, d), steps, t);
  }

  /** end_op's own check: an operation that is still outstanding never finds a commit in progress. */
  lemma EndOpDoesNotPanic(c: Config, d: Disk, steps: seq<Step>, t: State, i: nat)
    requires Recoverable(c.area, d)
    requires Runs(c, d, steps, t) && Enabled(c, t, EndOp(i))
    ensures !Do(c, t, EndOp(i)).panicked
  {
    BootInv(c, d);
    ReservedHolds(c, Boot(c, d), steps, t);
  }

  /** Commit and recovery never get stuck while the list fits: until they finish, their next
      block write can be made. */
  lemma CommitProgresses(c: Config, d: Disk, steps: seq<Step>, t: State)
    requires Recoverable(c.area, d)
    requires RunsWithin(c, d, steps, t) && !t.phase.Running?
    ensures Enabled(c, t, DiskWrite) || Enabled(c, t, Finish)
    ensures Enabled(c, t, Crash)
  {
    hide DiskInv, Reserved, Ids, Execution, Fitting, Boot;
    BootInv(c, d);
    InvHolds(c, Recovered(c.area, d), Boot(c, d), steps, t);
    DiskInvMeans(c, Recovered(c.area, d), t);
    NextWrite(c, Recovered(c.area, d), t);
  }

  lemma NextWrite(c: Config, init: Disk, t: State)
    requires DiskInv(c, init, t) && !t.phase.Running?
    ensures Enabled(c, t, DiskWrite) || Enabled(c, t, Finish)
  {
    hide SameHome, Replay, DurableDisk, Flips, CommitDisk, RecoverDisk, Applied, Recovered, Clear;
  }
}
