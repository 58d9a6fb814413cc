/** The redo log on disk (kernel/log.c): its header block, what recovery makes of a
    disk, and the disks that commit and recovery pass through, one block write at a time. */
module LogDisk {
  import opened Blocks
  import opened Prelude

  type Disk = seq<Block>

  /** Where the log lives: log.start and log.size. Its first block is the header. */
  datatype Area = Area(start: nat, size: nat)

  predicate InLog(a: Area, b: int) {
    a.start <= b < a.start + a.size
  }

  /** The log area lies within a disk of `size` blocks. */
  predicate Placed(a: Area, size: nat) {
    1 <= a.size && a.start + a.size <= size <= 0x1_0000_0000
  }

  /** Block numbers the log can hold: each a block of the disk outside the log. */
  predicate Homes(a: Area, size: nat, lh: seq<Word>) {
    && Placed(a, size)
    && |lh| <= LOGSIZE && |lh| < a.size
    && forall k :: 0 <= k < |lh| ==> lh[k] < size && !InLog(a, lh[k])
  }

  /** A list whose log blocks are blocks of the disk, though perhaps not of the log area. */
  predicate Loggable(a: Area, size: nat, lh: seq<Word>) {
    && Placed(a, size)
    && |lh| <= LOGSIZE && a.start + |lh| < size
    && forall k :: 0 <= k < |lh| ==> lh[k] < size && !InLog(a, lh[k])
  }

  // ---- the header block -----------------------------------------------------------

  /** The count is a C int. */
  function HeadCount(h: Block): (n: int) {
    var w: int := GetWord(h, 0);
    if w < 0x8000_0000 then w else w - 0x1_0000_0000
  }

  /** read_head. */
  function HeadBlocks(h: Block): (lh: seq<Word>)
    requires HeadCount(h) <= LOGSIZE
  {
    var n := HeadCount(h);
    seq(if n < 0 then 0 else n, i requires 0 <= i < n => GetWord(h, i + 1))
  }

  function SetEntries(h: Block, lh: seq<Word>, k: nat): (r: Block)
    requires k <= |lh| <= LOGSIZE
  {
    if k == 0 then SetWord(h, 0, |lh|) else SetWord(SetEntries(h, lh, k - 1), k, lh[k - 1])
  }

  /** write_head: the count and the first |lh| entries; the other words keep stale values. */
  function WithHead(h: Block, lh: seq<Word>): (r: Block)
    requires |lh| <= LOGSIZE
  {
    SetEntries(h, lh, |lh|)
  }

  lemma {:induction false} SetEntriesWord(h: Block, lh: seq<Word>, k: nat, j: nat)
    requires k <= |lh| <= LOGSIZE && j < WORDS
    ensures GetWord(SetEntries(h, lh, k), j) ==
            if j == 0 then |lh| else if j <= k then lh[j - 1] else GetWord(h, j)
  {
    if k == 0 {
      SetGetWord(h, 0, |lh|, j);
    } else {
      SetEntriesWord(h, lh, k - 1, j);
      SetGetWord(SetEntries(h, lh, k - 1), k, lh[k - 1], j);
    }
  }

  /** What write_head stores, read_head reads back, whatever the header block held. */
  lemma HeadRoundTrip(h: Block, lh: seq<Word>)
    requires |lh| <= LOGSIZE
    ensures HeadCount(WithHead(h, lh)) == |lh|
    ensures HeadBlocks(WithHead(h, lh)) == lh
  {
    var r := WithHead(h, lh);
    SetEntriesWord(h, lh, |lh|, 0);
    forall i | 0 <= i < |lh| ensures HeadBlocks(r)[i] == lh[i] {
      SetEntriesWord(h, lh, |lh|, i + 1);
    }
  }

  lemma ClearTwice(h: Block)
    ensures WithHead(WithHead(h, []), []) == WithHead(h, [])
  {
    var r := WithHead(h, []);
    assert r == SetWord(h, 0, 0);
    assert SetWord(r, 0, 0) == r;
  }

  // ---- recovery -------------------------------------------------------------------

  /** install_trans after k blocks: log block i goes to home block lh[i]. */
  function Install(a: Area, d: Disk, lh: seq<Word>, k: nat): (r: Disk)
    requires Homes(a, |d|, lh) && k <= |lh|
    ensures |r| == |d|
  {
    if k == 0 then d else Install(a, d, lh, k - 1)[lh[k - 1] := d[a.start + k]]
  }

  /** The last of the first k entries that names block b, or -1. */
  function LastIndex(lh: seq<Word>, k: nat, b: int): (j: int)
    requires k <= |lh|
    ensures -1 <= j < k
    ensures j >= 0 ==> lh[j] == b
    ensures forall i :: j < i < k ==> lh[i] != b
  {
    if k == 0 then -1 else if lh[k - 1] == b then k - 1 else LastIndex(lh, k - 1, b)
  }

  lemma {:induction false} InstallAt(a: Area, d: Disk, lh: seq<Word>, k: nat, b: nat)
    requires Homes(a, |d|, lh) && k <= |lh| && b < |d|
    ensures var j := LastIndex(lh, k, b);
            Install(a, d, lh, k)[b] == if j >= 0 then d[a.start + 1 + j] else d[b]
    ensures InLog(a, b) ==> Install(a, d, lh, k)[b] == d[b]
  {
    if k > 0 {
      InstallAt(a, d, lh, k - 1, b);
    }
  }

  /** A disk whose header recovery can read and act on. */
  predicate Recoverable(a: Area, d: Disk) {
    Placed(a, |d|) && HeadCount(d[a.start]) <= LOGSIZE && Homes(a, |d|, HeadBlocks(d[a.start]))
  }

  /** The disk that a completed recover_from_log leaves. */
  function Recovered(a: Area, d: Disk): (r: Disk)
    requires Recoverable(a, d)
    ensures |r| == |d|
  {
    var lh := HeadBlocks(d[a.start]);
    Install(a, d, lh, |lh|)[a.start := WithHead(d[a.start], [])]
  }

  /** The disk after i block writes of recover_from_log. */
  function RecoverDisk(a: Area, d: Disk, i: nat): (r: Disk)
    requires Recoverable(a, d) && i <= |HeadBlocks(d[a.start])| + 1
    ensures |r| == |d|
  {
    var lh := HeadBlocks(d[a.start]);
    if i <= |lh| then Install(a, d, lh, i) else Recovered(a, d)
  }

  /** Installing again over a partial install gives the complete install. */
  lemma InstallAgain(a: Area, d: Disk, lh: seq<Word>, k: nat)
    requires Homes(a, |d|, lh) && k <= |lh|
    ensures Install(a, Install(a, d, lh, k), lh, |lh|) == Install(a, d, lh, |lh|)
  {
    var m := Install(a, d, lh, k);
    forall b: nat | b < |d|
      ensures Install(a, m, lh, |lh|)[b] == Install(a, d, lh, |lh|)[b]
    {
      InstallAt(a, m, lh, |lh|, b);
      InstallAt(a, d, lh, |lh|, b);
      InstallAt(a, d, lh, k, b);
      var j := LastIndex(lh, |lh|, b);
      if j >= 0 {
        InstallAt(a, d, lh, k, a.start + 1 + j);
      }
    }
  }

  /** A crash after any number of recovery's writes changes nothing: the next recovery
      ends in the very disk the interrupted one was heading for. */
  lemma RecoveryRestarts(a: Area, d: Disk, i: nat)
    requires Recoverable(a, d) && i <= |HeadBlocks(d[a.start])| + 1
    ensures Recoverable(a, RecoverDisk(a, d, i))
    ensures Recovered(a, RecoverDisk(a, d, i)) == Recovered(a, d)
  {
    var lh := HeadBlocks(d[a.start]);
    var m := RecoverDisk(a, d, i);
    if i <= |lh| {
      InstallAt(a, d, lh, i, a.start);
      InstallAgain(a, d, lh, i);
    } else {
      HeadRoundTrip(d[a.start], []);
      ClearTwice(d[a.start]);
    }
  }

  /** Recovery cut short at crashes[0], then at crashes[1] of the next boot, and so on. */
  function CrashedRecoveries(a: Area, d: Disk, crashes: seq<nat>): (r: Disk)
    requires Recoverable(a, d)
    ensures Recoverable(a, r) && |r| == |d|
    decreases |crashes|
  {
    if crashes == [] then d
    else
      var n := |HeadBlocks(d[a.start])| + 1;
      var i := if crashes[0] <= n then crashes[0] else n;
      RecoveryRestarts(a, d, i);
      CrashedRecoveries(a, RecoverDisk(a, d, i), crashes[1..])
  }

  /** Any number of crashes during recovery, at any points: the recovery that finally
      completes gives what an uninterrupted one would have given. */
  lemma {:induction false} RecoveryIdempotent(a: Area, d: Disk, crashes: seq<nat>)
    requires Recoverable(a, d)
    ensures Recovered(a, CrashedRecoveries(a, d, crashes)) == Recovered(a, d)
    decreases |crashes|
  {
    if crashes != [] {
      var n := |HeadBlocks(d[a.start])| + 1;
      var i := if crashes[0] <= n then crashes[0] else n;
      RecoveryRestarts(a, d, i);
      RecoveryIdempotent(a, RecoverDisk(a, d, i), crashes[1..]);
    }
  }

  // ---- commit ---------------------------------------------------------------------

  /** write_log after k blocks: data[i] is in log block i. */
  function LogWritten(a: Area, d: Disk, data: seq<Block>, k: nat): (r: Disk)
    requires Placed(a, |d|) && k <= |data| < a.size
    ensures |r| == |d|
  {
    if k == 0 then d else LogWritten(a, d, data, k - 1)[a.start + k := data[k - 1]]
  }

  lemma {:induction false} LogWrittenAt(a: Area, d: Disk, data: seq<Block>, k: nat, b: nat)
    requires Placed(a, |d|) && k <= |data| < a.size && b < |d|
    ensures LogWritten(a, d, data, k)[b] ==
            if a.start < b <= a.start + k then data[b - a.start - 1] else d[b]
  {
    if k > 0 {
      LogWrittenAt(a, d, data, k - 1, b);
    }
  }

  predicate Transaction(a: Area, d: Disk, lh: seq<Word>, data: seq<Block>) {
    Homes(a, |d|, lh) && |data| == |lh|
  }

  function Headed(a: Area, d: Disk, lh: seq<Word>, data: seq<Block>): (r: Disk)
    requires Transaction(a, d, lh, data)
    ensures |r| == |d|
  {
    LogWritten(a, d, data, |lh|)[a.start := WithHead(d[a.start], lh)]
  }

  /** The disk after i of the 2n+2 block writes of commit: n log blocks, the header,
      n home blocks, the cleared header. */
  function CommitDisk(a: Area, d: Disk, lh: seq<Word>, data: seq<Block>, i: nat): (r: Disk)
    requires Transaction(a, d, lh, data) && i <= 2 * |lh| + 2
    ensures |r| == |d|
  {
    if i <= |lh| then LogWritten(a, d, data, i)
    else
      var h := Headed(a, d, lh, data);
      if i <= 2 * |lh| + 1 then Install(a, h, lh, i - |lh| - 1)
      else Install(a, h, lh, |lh|)[a.start := WithHead(h[a.start], [])]
  }

  /** The block that commit writes next, and its contents, when the disk is m. */
  function CommitWrite(a: Area, m: Disk, lh: seq<Word>, data: seq<Block>, i: nat): (w: (nat, Block))
    requires Loggable(a, |m|, lh) && |data| == |lh| && i < 2 * |lh| + 2
    ensures w.0 < |m|
  {
    var start, n := a.start, |lh|;
    if i < n then (start + 1 + i, data[i])
    else if i == n then (start, WithHead(m[start], lh))
    else if i <= 2 * n then (lh[i - n - 1], m[start + (i - n)])
    else (start, WithHead(m[start], []))
  }

  /** CommitDisk lists exactly the disks that commit's own writes make. */
  lemma CommitDiskStep(a: Area, d: Disk, lh: seq<Word>, data: seq<Block>, i: nat)
    requires Transaction(a, d, lh, data) && i < 2 * |lh| + 2
    ensures var m := CommitDisk(a, d, lh, data, i);
            var w := CommitWrite(a, m, lh, data, i);
            CommitDisk(a, d, lh, data, i + 1) == m[w.0 := w.1]
  {
    var h, n := Headed(a, d, lh, data), |lh|;
    if n < i <= 2 * n {
      InstallAt(a, h, lh, i - n - 1, a.start + (i - n));
    } else if i == 2 * n + 1 {
      InstallAt(a, h, lh, n, a.start);
    } else if i == n {
      LogWrittenAt(a, d, data, n, a.start);
    }
  }

  /** The block that recovery writes next, and its contents, when the disk is m. */
  function RecoverWrite(a: Area, m: Disk, lh: seq<Word>, i: nat): (w: (nat, Block))
    requires Loggable(a, |m|, lh) && i <= |lh|
    ensures w.0 < |m|
  {
    if i < |lh| then (lh[i], m[a.start + 1 + i]) else (a.start, WithHead(m[a.start], []))
  }

  lemma RecoverDiskStep(a: Area, d: Disk, i: nat)
    requires Recoverable(a, d) && i <= |HeadBlocks(d[a.start])|
    ensures var m, lh := RecoverDisk(a, d, i), HeadBlocks(d[a.start]);
            var w := RecoverWrite(a, m, lh, i);
            RecoverDisk(a, d, i + 1) == m[w.0 := w.1]
  {
    var lh := HeadBlocks(d[a.start]);
    if i < |lh| {
      InstallAt(a, d, lh, i, a.start + 1 + i);
    } else {
      InstallAt(a, d, lh, i, a.start);
    }
  }

  // ---- the disks seen on the way ----------------------------------------------------

  ghost function InstallTrace(a: Area, d: Disk, lh: seq<Word>, k: nat): (t: seq<Disk>)
    requires Homes(a, |d|, lh) && k <= |lh|
  {
    if k == 0 then [] else InstallTrace(a, d, lh, k - 1) + [Install(a, d, lh, k)]
  }

  ghost function RecoverTrace(a: Area, d: Disk, k: nat): (t: seq<Disk>)
    requires Recoverable(a, d) && k <= |HeadBlocks(d[a.start])| + 1
    ensures |t| == k && forall i :: 0 <= i < k ==> t[i] == RecoverDisk(a, d, i + 1)
  {
    if k == 0 then [] else RecoverTrace(a, d, k - 1) + [RecoverDisk(a, d, k)]
  }

  ghost function CommitTrace(a: Area, d: Disk, lh: seq<Word>, data: seq<Block>, k: nat): (t: seq<Disk>)
    requires Transaction(a, d, lh, data) && k <= 2 * |lh| + 2
    ensures |t| == k && forall i :: 0 <= i < k ==> t[i] == CommitDisk(a, d, lh, data, i + 1)
  {
    if k == 0 then [] else CommitTrace(a, d, lh, data, k - 1) + [CommitDisk(a, d, lh, data, k)]
  }

  /** The writes before the header's are those of the log blocks, in order. */
  lemma CommitTraceLogs(a: Area, d: Disk, lh: seq<Word>, data: seq<Block>, k: nat, t: seq<Disk>)
    requires Transaction(a, d, lh, data) && k < |lh|
    ensures LogWritten(a, d, data, k + 1) == LogWritten(a, d, data, k)[a.start + k + 1 := data[k]]
    ensures t + CommitTrace(a, d, lh, data, k + 1) ==
            t + CommitTrace(a, d, lh, data, k) + [LogWritten(a, d, data, k + 1)]
  {
    var u := CommitTrace(a, d, lh, data, k);
    assert t + (u + [LogWritten(a, d, data, k + 1)]) == t + u + [LogWritten(a, d, data, k + 1)];
  }

  lemma {:induction false} CommitTraceInstalls(a: Area, d: Disk, lh: seq<Word>, data: seq<Block>, k: nat)
    requires Transaction(a, d, lh, data) && k <= |lh|
    ensures CommitTrace(a, d, lh, data, |lh| + 1 + k) ==
            CommitTrace(a, d, lh, data, |lh| + 1) + InstallTrace(a, Headed(a, d, lh, data), lh, k)
  {
    if k > 0 {
      CommitTraceInstalls(a, d, lh, data, k - 1);
      var t, m := CommitTrace(a, d, lh, data, |lh| + 1), CommitDisk(a, d, lh, data, |lh| + 1 + k);
      var it := InstallTrace(a, Headed(a, d, lh, data), lh, k - 1);
      assert (t + it) + [m] == t + (it + [m]);
    }
  }

  lemma Regroup<T>(t: seq<T>, a: seq<T>, b: seq<T>, c: seq<T>, d: seq<T>)
    ensures t + a + b + c + d == t + (a + b + c + d)
  {
  }

  lemma CommitTraceParts(a: Area, d: Disk, lh: seq<Word>, data: seq<Block>)
    requires Transaction(a, d, lh, data)
    ensures var h := Headed(a, d, lh, data);
            var m := Install(a, h, lh, |lh|);
            var e := m[a.start := WithHead(m[a.start], [])];
            && CommitDisk(a, d, lh, data, 2 * |lh| + 2) == e
            && CommitTrace(a, d, lh, data, 2 * |lh| + 2) ==
               CommitTrace(a, d, lh, data, |lh|) + [h] + InstallTrace(a, h, lh, |lh|) + [e]
  {
    var h := Headed(a, d, lh, data);
    InstallAt(a, h, lh, |lh|, a.start);
    CommitTraceInstalls(a, d, lh, data, |lh|);
  }

  lemma {:induction false} RecoverTraceInstalls(a: Area, d: Disk, k: nat)
    requires Recoverable(a, d) && k <= |HeadBlocks(d[a.start])|
    ensures RecoverTrace(a, d, k) == InstallTrace(a, d, HeadBlocks(d[a.start]), k)
  {
    if k > 0 {
      RecoverTraceInstalls(a, d, k - 1);
    }
  }

  /** The transaction applied to the home blocks at once. */
  function Applied(d: Disk, lh: seq<Word>, data: seq<Block>, k: nat): (r: Disk)
    requires k <= |lh| == |data|
    requires forall i :: 0 <= i < |lh| ==> lh[i] < |d|
    ensures |r| == |d|
  {
    if k == 0 then d else Applied(d, lh, data, k - 1)[lh[k - 1] := data[k - 1]]
  }

  lemma {:induction false} AppliedAt(d: Disk, lh: seq<Word>, data: seq<Block>, k: nat, b: nat)
    requires k <= |lh| == |data| && b < |d|
    requires forall i :: 0 <= i < |lh| ==> lh[i] < |d|
    ensures var j := LastIndex(lh, k, b);
            Applied(d, lh, data, k)[b] == if j >= 0 then data[j] else d[b]
  {
    if k > 0 {
      AppliedAt(d, lh, data, k - 1, b);
    }
  }

  predicate SameHome(a: Area, d: Disk, e: Disk) {
    |d| == |e| && forall b :: 0 <= b < |d| && !InLog(a, b) ==> d[b] == e[b]
  }

  predicate Clear(a: Area, d: Disk) {
    Placed(a, |d|) && HeadCount(d[a.start]) == 0
  }

  lemma RecoveredClear(a: Area, d: Disk)
    requires Clear(a, d)
    ensures Recoverable(a, d) && SameHome(a, Recovered(a, d), d)
  {
  }

  /** Every disk up to the first header write recovers to the old home blocks. */
  lemma CommitOld(a: Area, d: Disk, lh: seq<Word>, data: seq<Block>, i: nat)
    requires Transaction(a, d, lh, data) && Clear(a, d) && i <= |lh|
    ensures var m := CommitDisk(a, d, lh, data, i);
            Clear(a, m) && Recoverable(a, m) && SameHome(a, Recovered(a, m), d)
  {
    var m := CommitDisk(a, d, lh, data, i);
    LogWrittenAt(a, d, data, i, a.start);
    RecoveredClear(a, m);
    forall b: nat | b < |d| && !InLog(a, b) ensures m[b] == d[b] {
      LogWrittenAt(a, d, data, i, b);
    }
  }

  lemma HeadedRecovers(a: Area, d: Disk, lh: seq<Word>, data: seq<Block>)
    requires Transaction(a, d, lh, data)
    ensures var h := Headed(a, d, lh, data);
            && Recoverable(a, h) && HeadBlocks(h[a.start]) == lh
            && SameHome(a, Recovered(a, h), Applied(d, lh, data, |lh|))
  {
    hide Applied, Install, LogWritten;
    var h := Headed(a, d, lh, data);
    HeadRoundTrip(d[a.start], lh);
    forall b: nat | b < |d| && !InLog(a, b)
      ensures Recovered(a, h)[b] == Applied(d, lh, data, |lh|)[b]
    {
      InstallAt(a, h, lh, |lh|, b);
      AppliedAt(d, lh, data, |lh|, b);
      var j := LastIndex(lh, |lh|, b);
      LogWrittenAt(a, d, data, |lh|, if j >= 0 then a.start + 1 + j else b);
    }
  }

  /** Every disk from the first header write on recovers to the new home blocks. */
  lemma CommitNew(a: Area, d: Disk, lh: seq<Word>, data: seq<Block>, i: nat)
    requires Transaction(a, d, lh, data) && |lh| < i <= 2 * |lh| + 2
    ensures var m := CommitDisk(a, d, lh, data, i);
            Recoverable(a, m) && SameHome(a, Recovered(a, m), Applied(d, lh, data, |lh|))
    ensures i == 2 * |lh| + 2 ==> Clear(a, CommitDisk(a, d, lh, data, i))
  {
    var h := Headed(a, d, lh, data);
    HeadedRecovers(a, d, lh, data);
    RecoveryRestarts(a, h, i - |lh| - 1);
    HeadRoundTrip(h[a.start], []);
  }

  /** Crash atomicity. A crash after any i of commit's writes, then any number of crashed
      recoveries, then a completed one: all home blocks old, or all new, and the outcome
      flips exactly at the first header write. */
  lemma CrashAtomicity(a: Area, d: Disk, lh: seq<Word>, data: seq<Block>, i: nat, crashes: seq<nat>)
    requires Transaction(a, d, lh, data) && Clear(a, d) && i <= 2 * |lh| + 2
    ensures var m := CommitDisk(a, d, lh, data, i);
            && Recoverable(a, m)
            && SameHome(a, Recovered(a, CrashedRecoveries(a, m, crashes)),
                        if i <= |lh| then d else Applied(d, lh, data, |lh|))
  {
    var m := CommitDisk(a, d, lh, data, i);
    if i <= |lh| {
      CommitOld(a, d, lh, data, i);
    } else {
      CommitNew(a, d, lh, data, i);
    }
    RecoveryIdempotent(a, m, crashes);
  }
}
