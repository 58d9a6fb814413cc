/** log_write's size guard (kernel/log.c:196) is one block tighter than begin_op's
    reservation (kernel/log.c:119) when the log has LOGSIZE blocks, as mkfs makes it.
    Here is exactly when the guard stays silent, and what its unlocked test lets through. */
module LogGuard {
  import opened Blocks
  import opened LogDisk
  import opened LogMachine
  import opened Prelude

  /** The k-th block outside the log. */
  function Home(a: Area, k: nat): (b: nat)
    ensures !InLog(a, b)
  {
    if k < a.start then k else k + a.size
  }

  /** A clear log that is not the last thing on the disk, and blocks enough to fill it. */
  predicate Roomy(c: Config, d: Disk) {
    Clear(c.area, d) && c.area.size + LOGSIZE <= |d| && c.area.start + c.area.size < |d|
  }

  /** Nothing was committed since boot on d, and the log is clear. */
  ghost predicate Quiet(c: Config, d: Disk, s: State) {
    && s.phase == Running && !s.panicked && !s.committing && s.epochs == []
    && Roomy(c, s.disk) && SameHome(c.area, s.disk, d)
    && forall j :: 0 <= j < |s.lh| ==> s.lh[j] in s.cache
  }

  /** Three operations have logged k distinct blocks in turn. */
  ghost predicate Filled(c: Config, d: Disk, s: State, k: nat) {
    && Quiet(c, d, s)
    && |s.lh| == k <= LOGSIZE
    && (forall j :: 0 <= j < k ==> s.lh[j] == Home(c.area, j))
    && |s.ops| == 3
    && forall j :: 0 <= j < 3 ==>
         s.ops[j].calls == s.ops[j].added == (k + 2 - j) / 3 && !s.ops[j].checked
  }

  lemma {:induction false} Append(c: Config, s: State, steps: seq<Step>, t: State, step: Step)
    requires Execution(c, s, steps, t) && Enabled(c, t, step)
    ensures Execution(c, s, steps + [step], Do(c, t, step))
    decreases |steps|
  {
    if steps == [] {
      assert (steps + [step])[1..] == [];
    } else {
      assert (steps + [step])[1..] == steps[1..] + [step];
      Append(c, Do(c, s, steps[0]), steps[1..], t, step);
    }
  }

  /** n operations have begun and logged nothing. */
  ghost predicate Begun(c: Config, d: Disk, s: State, n: nat) {
    && Quiet(c, d, s) && s.lh == [] && |s.ops| == n
    && forall j :: 0 <= j < n ==> s.ops[j].calls == s.ops[j].added == 0 && !s.ops[j].checked
  }

  /** Recovery of an empty log: its header is cleared again. */
  lemma Recovers(c: Config, d: Disk) returns (steps: seq<Step>, t: State)
    requires Roomy(c, d)
    ensures Runs(c, d, steps, t) && Begun(c, d, t, 0)
  {
    var b := Boot(c, d);
    HeadRoundTrip(d[c.area.start], []);
    steps, t := [], b;
    assert t.lh == [];
    Append(c, b, steps, t, DiskWrite);
    steps, t := steps + [DiskWrite], Do(c, t, DiskWrite);
    Append(c, b, steps, t, Finish);
    steps, t := steps + [Finish], Do(c, t, Finish);
  }

  lemma Begins(c: Config, d: Disk, s: State, n: nat)
    requires Begun(c, d, s, n) && n < 3
    ensures Enabled(c, s, BeginOp) && Begun(c, d, Do(c, s, BeginOp), n + 1)
  {
  }

  lemma Opens(c: Config, d: Disk) returns (steps: seq<Step>, t: State)
    requires Roomy(c, d)
    ensures Runs(c, d, steps, t) && Filled(c, d, t, 0)
  {
    hide Do, Enabled, Quiet, Execution;
    var b := Boot(c, d);
    steps, t := Recovers(c, d);
    var n := 0;
    while n < 3
      invariant n <= 3 && Execution(c, b, steps, t) && Begun(c, d, t, n)
    {
      Begins(c, d, t, n);
      Append(c, b, steps, t, BeginOp);
      steps, t, n := steps + [BeginOp], Do(c, t, BeginOp), n + 1;
    }
  }

  ghost predicate Ready(c: Config, d: Disk, s: State, k: nat) {
    && Quiet(c, d, s)
    && |s.lh| == k < LOGSIZE
    && (forall j :: 0 <= j < k ==> s.lh[j] == Home(c.area, j))
    && |s.ops| == 3
    && forall j :: 0 <= j < 3 ==>
         && s.ops[j].added == (k + 2 - j) / 3
         && s.ops[j].calls == s.ops[j].added + (if j == k % 3 then 1 else 0)
         && s.ops[j].checked == (j == k % 3)
  }

  lemma Checks(c: Config, d: Disk, s: State, k: nat)
    requires Filled(c, d, s, k) && k < LOGSIZE && k < c.area.size - 1
    ensures Enabled(c, s, CheckSpace(k % 3))
    ensures Ready(c, d, Do(c, s, CheckSpace(k % 3)), k)
  {
  }

  lemma Logs(c: Config, d: Disk, s: State, k: nat)
    requires Ready(c, d, s, k)
    ensures Enabled(c, s, LogWrite(k % 3, Home(c.area, k), Zeros()))
    ensures Filled(c, d, Do(c, s, LogWrite(k % 3, Home(c.area, k), Zeros())), k + 1)
  {
    var h: Word := Home(c.area, k);
    assert h !in s.lh;
    var t := DoLogWrite(s, k % 3, h, Zeros());
    assert t.lh == s.lh + [h];
  }

  lemma {:induction false} Fills(c: Config, d: Disk, k: nat) returns (steps: seq<Step>, t: State)
    requires Roomy(c, d) && k <= LOGSIZE && (k == 0 || k <= c.area.size - 1)
    ensures Runs(c, d, steps, t) && Filled(c, d, t, k)
  {
    hide Filled;
    if k == 0 {
      steps, t := Opens(c, d);
    } else {
      var s;
      steps, s := Fills(c, d, k - 1);
      var i := (k - 1) % 3;
      Checks(c, d, s, k - 1);
      Append(c, Boot(c, d), steps, s, CheckSpace(i));
      steps, s := steps + [CheckSpace(i)], Do(c, s, CheckSpace(i));
      var w := LogWrite(i, Home(c.area, k - 1), Zeros());
      Logs(c, d, s, k - 1);
      Append(c, Boot(c, d), steps, s, w);
      steps, t := steps + [w], Do(c, s, w);
    }
  }

  /** Within the reservation, log_write's panic is unreachable if and only if operations make
      at most MAXOPBLOCKS calls of log_write and the log area has more than LOGSIZE blocks. */
  lemma GuardSilentExactly(c: Config, d: Disk)
    requires Roomy(c, d)
    ensures (forall steps, t :: Runs(c, d, steps, t) ==> !t.panicked)
            <==> c.strict && c.area.size > LOGSIZE
  {
    if c.strict && c.area.size > LOGSIZE {
      forall steps, t | Runs(c, d, steps, t) ensures !t.panicked {
        LargeLog(c, d, steps, t);
      }
    } else {
      var k := if c.area.size > LOGSIZE then LOGSIZE else c.area.size - 1;
      var steps, s := Fills(c, d, k);
      Append(c, Boot(c, d), steps, s, CheckSpace(k % 3));
      var t := Do(c, s, CheckSpace(k % 3));
      assert Runs(c, d, steps + [CheckSpace(k % 3)], t) && t.panicked;
    }
  }

  // ---- the overrun -----------------------------------------------------------------------

  /** Two operations have passed the guard together and filled one block more than fits, the
      last one with x; `ops` operations are outstanding. */
  ghost predicate Overfull(c: Config, d: Disk, s: State, x: Block, ops: nat) {
    && Quiet(c, d, s) && |s.lh| == c.area.size
    && Loggable(c.area, |s.disk|, s.lh) && s.cache[s.lh[|s.lh| - 1]] == x
    && |s.ops| == ops && forall j :: 0 <= j < ops ==> !s.ops[j].checked
  }

  /** The operations `passing` passed the guard when k blocks were logged; n are now. */
  ghost predicate Passed(c: Config, d: Disk, s: State, k: nat, n: nat, passing: set<nat>) {
    && Quiet(c, d, s) && k <= |s.lh| == n <= LOGSIZE && |s.ops| == 3
    && (forall j :: 0 <= j < n ==> s.lh[j] == Home(c.area, j))
    && forall j :: 0 <= j < 3 ==>
         s.ops[j].checked == (j in passing) && s.ops[j].added <= (k + 2 - j) / 3 + 1
         && (j in passing ==> s.ops[j].added == (k + 2 - j) / 3)
  }

  lemma Race1(c: Config, d: Disk, s: State, k: nat)
    requires Ready(c, d, s, k) && k + 2 == c.area.size <= LOGSIZE
    ensures Enabled(c, s, CheckSpace((k + 1) % 3))
    ensures Passed(c, d, Do(c, s, CheckSpace((k + 1) % 3)), k, k, {k % 3, (k + 1) % 3})
  {
  }

  lemma Race2(c: Config, d: Disk, s: State, k: nat)
    requires Passed(c, d, s, k, k, {k % 3, (k + 1) % 3}) && k + 2 == c.area.size <= LOGSIZE
    ensures Enabled(c, s, LogWrite(k % 3, Home(c.area, k), Zeros()))
    ensures Passed(c, d, Do(c, s, LogWrite(k % 3, Home(c.area, k), Zeros())), k, k + 1, {(k + 1) % 3})
  {
    var h: Word := Home(c.area, k);
    assert h !in s.lh;
    assert DoLogWrite(s, k % 3, h, Zeros()).lh == s.lh + [h];
  }

  lemma Race3(c: Config, d: Disk, s: State, k: nat, x: Block)
    requires Passed(c, d, s, k, k + 1, {(k + 1) % 3}) && k + 2 == c.area.size <= LOGSIZE
    ensures Enabled(c, s, LogWrite((k + 1) % 3, Home(c.area, k + 1), x))
    ensures Overfull(c, d, Do(c, s, LogWrite((k + 1) % 3, Home(c.area, k + 1), x)), x, 3)
  {
    var h: Word := Home(c.area, k + 1);
    assert h !in s.lh;
    assert DoLogWrite(s, (k + 1) % 3, h, x).lh == s.lh + [h];
  }

  /** The two unlocked tests, and then the two writes. */
  lemma Races(c: Config, d: Disk, s: State, k: nat, x: Block) returns (steps: seq<Step>, t: State)
    requires Filled(c, d, s, k) && k + 2 == c.area.size <= LOGSIZE
    ensures Execution(c, s, steps, t) && Overfull(c, d, t, x, 3)
  {
    hide Filled, Ready, Passed, Overfull;
    var p, q := k % 3, (k + 1) % 3;
    var w1, w2 := LogWrite(p, Home(c.area, k), Zeros()), LogWrite(q, Home(c.area, k + 1), x);
    Checks(c, d, s, k);
    Append(c, s, [], s, CheckSpace(p));
    t, steps := Do(c, s, CheckSpace(p)), [] + [CheckSpace(p)];
    Race1(c, d, t, k);
    Append(c, s, steps, t, CheckSpace(q));
    t, steps := Do(c, t, CheckSpace(q)), steps + [CheckSpace(q)];
    Race2(c, d, t, k);
    Append(c, s, steps, t, w1);
    t, steps := Do(c, t, w1), steps + [w1];
    Race3(c, d, t, k, x);
    Append(c, s, steps, t, w2);
    t, steps := Do(c, t, w2), steps + [w2];
  }

  /** The commit of such a list, after j of its log writes: the last of them goes to the
      block behind the log area. */
  ghost predicate Spilling(c: Config, d: Disk, s: State, x: Block, j: nat) {
    && s.phase.Committing? && s.phase.i == j <= |s.lh| == c.area.size && !s.panicked && s.epochs == []
    && Clear(c.area, s.disk) && Loggable(c.area, |s.disk|, s.lh) && |s.disk| == |d|
    && (forall i :: 0 <= i < |s.lh| ==> s.lh[i] in s.cache) && s.cache[s.lh[|s.lh| - 1]] == x
    && (j == |s.lh| ==> s.disk[c.area.start + c.area.size] == x)
  }

  lemma EndsOne(c: Config, d: Disk, s: State, x: Block, ops: nat)
    requires Overfull(c, d, s, x, ops) && ops > 0
    ensures Enabled(c, s, EndOp(0))
    ensures if ops > 1 then Overfull(c, d, Do(c, s, EndOp(0)), x, ops - 1) else Spilling(c, d, Do(c, s, EndOp(0)), x, 0)
  {
    var t := Do(c, s, EndOp(0));
    assert t.ops == s.ops[..0] + s.ops[1..];
  }

  lemma SpillsOne(c: Config, d: Disk, s: State, x: Block, j: nat)
    requires Spilling(c, d, s, x, j) && j < |s.lh|
    ensures Enabled(c, s, DiskWrite) && Spilling(c, d, Do(c, s, DiskWrite), x, j + 1)
  {
  }

  lemma {:induction false} Spills(c: Config, d: Disk, s: State, x: Block, j: nat) returns (steps: seq<Step>, t: State)
    requires Spilling(c, d, s, x, 0) && j <= |s.lh|
    ensures Execution(c, s, steps, t) && Spilling(c, d, t, x, j)
  {
    hide Spilling;
    if j == 0 {
      steps, t := [], s;
    } else {
      var u;
      steps, u := Spills(c, d, s, x, j - 1);
      SpillLength(c, d, u, x, j - 1);
      SpillLength(c, d, s, x, 0);
      SpillsOne(c, d, u, x, j - 1);
      Append(c, s, steps, u, DiskWrite);
      steps, t := steps + [DiskWrite], Do(c, u, DiskWrite);
    }
  }

  lemma SpillLength(c: Config, d: Disk, s: State, x: Block, j: nat)
    requires Spilling(c, d, s, x, j)
    ensures |s.lh| == c.area.size
  {
  }

  lemma {:induction false} Joins(c: Config, s: State, a: seq<Step>, t: State, b: seq<Step>, u: State)
    requires Execution(c, s, a, t) && Execution(c, t, b, u)
    ensures Execution(c, s, a + b, u)
    decreases |a|
  {
    if a == [] {
      assert a + b == b;
    } else {
      assert (a + b)[1..] == a[1..] + b;
      Joins(c, Do(c, s, a[0]), a[1..], t, b, u);
    }
  }

  /** A run that ends in such a commit, about to write the header. */
  lemma Overruns(c: Config, d: Disk, x: Block) returns (steps: seq<Step>, t: State)
    requires Roomy(c, d) && 2 <= c.area.size <= LOGSIZE
    ensures Runs(c, d, steps, t) && Spilling(c, d, t, x, c.area.size)
  {
    hide Filled, Overfull, Spilling;
    var s;
    steps, s := Fills(c, d, c.area.size - 2);
    var more, u := Races(c, d, s, c.area.size - 2, x);
    Joins(c, Boot(c, d), steps, s, more, u);
    steps := steps + more;
    EndsOne(c, d, u, x, 3);
    Append(c, Boot(c, d), steps, u, EndOp(0));
    steps, u := steps + [EndOp(0)], Do(c, u, EndOp(0));
    EndsOne(c, d, u, x, 2);
    Append(c, Boot(c, d), steps, u, EndOp(0));
    steps, u := steps + [EndOp(0)], Do(c, u, EndOp(0));
    EndsOne(c, d, u, x, 1);
    Append(c, Boot(c, d), steps, u, EndOp(0));
    steps, u := steps + [EndOp(0)], Do(c, u, EndOp(0));
    SpillLength(c, d, u, x, 0);
    more, t := Spills(c, d, u, x, c.area.size);
    Joins(c, Boot(c, d), steps, u, more, t);
    steps := steps + more;
  }

  /** With 2 to LOGSIZE blocks the guard does not protect the disk: two operations pass it
      together, and their commit destroys the home block behind the log area, whatever was
      in it, before anything is durable. */
  lemma GuardRaces(c: Config, d: Disk, x: Block)
    requires Roomy(c, d) && 2 <= c.area.size <= LOGSIZE
    ensures exists steps, t ::
              Runs(c, d, steps, t) && !t.panicked && t.epochs == [] && Clear(c.area, t.disk)
              && |t.disk| == |d| && t.disk[c.area.start + c.area.size] == x
  {
    var steps, t := Overruns(c, d, x);
    assert Runs(c, d, steps, t);
  }

  function Other(b: Block): (r: Block)
    ensures r != b
  {
    if b[0] == 0 then Zeros()[0 := 1] else Zeros()
  }

  /** A log of one block holds no list at all: the guard refuses every write. */
  lemma {:induction false} OneBlock(c: Config, init: Disk, s: State, steps: seq<Step>, t: State)
    requires c.area.size == 1 && Inv(c, init, s) && s.lh == [] && Execution(c, s, steps, t)
    requires forall k :: 0 <= k < |s.ops| ==> !s.ops[k].checked
    ensures Fitting(c, s, steps)
    decreases |steps|
  {
    hide Inv, Enabled, Do;
    if steps != [] {
      OneBlockStep(c, init, s, steps[0]);
      KeepsInv(c, init, s, steps[0]);
      OneBlock(c, init, Do(c, s, steps[0]), steps[1..], t);
    }
  }

  lemma OneBlockStep(c: Config, init: Disk, s: State, step: Step)
    requires c.area.size == 1 && Inv(c, init, s) && s.lh == [] && Enabled(c, s, step)
    requires forall k :: 0 <= k < |s.ops| ==> !s.ops[k].checked
    ensures Do(c, s, step).lh == []
    ensures forall k :: 0 <= k < |Do(c, s, step).ops| ==> !Do(c, s, step).ops[k].checked
  {
    hide DiskInv, Reserved, Ids;
    DiskInvMeans(c, init, s);
  }

  /** Group commit holds in every run if and only if the log area has more than LOGSIZE
      blocks, or only its header. */
  lemma GroupCommitExactly(c: Config, d: Disk)
    requires Roomy(c, d)
    ensures (forall steps, t :: Runs(c, d, steps, t) ==> Committed(c, d, t))
            <==> c.area.size > LOGSIZE || c.area.size == 1
  {
    hide Committed;
    RecoveredClear(c.area, d);
    if c.area.size > LOGSIZE {
      forall steps, t | Runs(c, d, steps, t) ensures Committed(c, d, t) {
        LargeLog(c, d, steps, t);
      }
    } else if c.area.size == 1 {
      BootInv(c, d);
      forall steps, t | Runs(c, d, steps, t) ensures Committed(c, d, t) {
        OneBlock(c, Recovered(c.area, d), Boot(c, d), steps, t);
        GroupCommit(c, d, steps, t);
      }
    } else {
      var x := Other(d[c.area.start + c.area.size]);
      var steps, t := Overruns(c, d, x);
      Destroyed(c, d, t, x);
      assert Runs(c, d, steps, t);
    }
  }

  lemma Destroyed(c: Config, d: Disk, t: State, x: Block)
    requires Roomy(c, d) && Spilling(c, d, t, x, c.area.size) && x != d[c.area.start + c.area.size]
    ensures Recoverable(c.area, d) && !Committed(c, d, t)
  {
    RecoveredClear(c.area, d);
    RecoveredClear(c.area, t.disk);
    var b := c.area.start + c.area.size;
    assert !InLog(c.area, b);
    assert DurableDisk(Recovered(c.area, d), t.epochs) == Recovered(c.area, d);
    assert Recovered(c.area, d)[b] == d[b] && Recovered(c.area, t.disk)[b] == t.disk[b];
  }
}
