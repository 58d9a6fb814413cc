/** kernel/log.c as code: the in-memory log and its methods over a disk of blocks.
    `trace` records every disk the block writes have made, so that a crash between any
    two of them can be talked about. Buffers that are not pinned hold what the disk holds,
    so only the pinned ones appear, in `cache`. */
module Log {
  import opened Blocks
  import opened LogDisk
  import LogMachine
  import opened Prelude

  class Log {
    const area: Area
    var disk: Disk
    var cache: map<Word, Block>
    var n: int
    const block: array<Word>
    var outstanding: nat
    var committing: bool
    ghost var trace: seq<Disk>

    ghost predicate Valid()
      reads this, block
    {
      block.Length == LOGSIZE && n <= LOGSIZE && Placed(area, |disk|)
    }

    /** The logged block numbers. */
    ghost function Logged(): (lh: seq<Word>)
      requires Valid()
      reads this, block
    {
      if n < 0 then [] else block[..n]
    }

    /** Exactly the logged blocks are pinned. */
    ghost predicate Tracked()
      requires Valid()
      reads this, block
    {
      && n >= 0
      && (forall k :: 0 <= k < n ==> block[k] in cache)
      && (forall b :: b in cache ==> b in Logged())
    }

    /** Moreover the log is over home blocks and fits its area. */
    ghost predicate Pinned()
      requires Valid()
      reads this, block
    {
      Tracked() && Homes(area, |disk|, Logged())
    }

    /** initlog, before recovery. */
    constructor (area: Area, image: Disk)
      requires Placed(area, |image|)
      ensures Valid() && this.area == area && disk == image && cache == map[] && fresh(block)
      ensures n == 0 && outstanding == 0 && !committing && trace == []
    {
      this.area := area;
      disk := image;
      cache := map[];
      n := 0;
      block := new Word[LOGSIZE](_ => 0);
      outstanding := 0;
      committing := false;
      trace := [];
    }

    /** bread: a pinned buffer's contents, or the disk's. */
    method Bread(b: nat) returns (data: Block)
      requires Valid() && b < |disk|
      ensures data == if b in cache then cache[b] else disk[b]
    {
      data := if b in cache then cache[b] else disk[b];
    }

    /** bwrite: one block write. */
    method Bwrite(b: nat, data: Block)
      requires Valid() && b < |disk|
      modifies this`disk, this`trace
      ensures Valid() && disk == old(disk)[b := data] && trace == old(trace) + [disk]
    {
      disk := disk[b := data];
      trace := trace + [disk];
    }

    /** One pass of begin_op's loop: `ok` is false where the code sleeps and tries again. */
    method TryBeginOp() returns (ok: bool)
      requires Valid()
      modifies this`outstanding
      ensures ok == (!committing && n + (old(outstanding) + 1) * MAXOPBLOCKS <= LOGSIZE)
      ensures outstanding == old(outstanding) + if ok then 1 else 0
    {
      if committing {
        ok := false;
      } else if n + (outstanding + 1) * MAXOPBLOCKS > LOGSIZE {
        ok := false;
      } else {
        outstanding := outstanding + 1;
        ok := true;
      }
    }

    /** log_write under its lock, with the new contents of the caller's buffer. The tests
        for room were made before the lock, so others may have filled the area since. */
    method LogWrite(b: Word, data: Block)
      requires Valid() && Tracked() && (b in Logged() || n < LOGSIZE)
      modifies this`n, this`cache, block
      ensures Valid() && Tracked()
      ensures Logged() == LogMachine.Absorb(old(Logged()), b)
      ensures cache == old(cache)[b := data]
      ensures old(Pinned()) && b < |disk| && !InLog(area, b) ==> (Pinned() <==> n < area.size)
    {
      hide Homes;
      var i := 0;
      while i < n && block[i] != b
        invariant 0 <= i <= n
        invariant forall j :: 0 <= j < i ==> block[j] != b
        invariant b in old(Logged()) || n < LOGSIZE
      {
        i := i + 1;
      }
      ghost var lh := block[..n];
      block[i] := b;
      if i == n {
        n := n + 1;
        assert block[..n] == lh + [b];
      } else {
        assert lh[i] == b;
        assert block[..n] == lh;
      }
      cache := cache[b := data];
      if Homes(area, |disk|, lh) && b < |disk| && !InLog(area, b) {
        LogMachine.AbsorbHome(area, |disk|, lh, b);
      }
    }

    /** One turn of write_log's loop. */
    method LogBlock(tail: nat)
      requires Valid() && tail < n && block[tail] in cache && block[tail] < |disk| && area.start + tail + 1 < |disk|
      modifies this`disk, this`trace
      ensures Valid() && disk == old(disk)[area.start + tail + 1 := cache[block[tail]]]
      ensures trace == old(trace) + [disk]
    {
      var from := Bread(block[tail]);
      Bwrite(area.start + tail + 1, from);
    }

    /** write_log. */
    method WriteLog(ghost base: Disk, ghost data: seq<Block>)
      requires Valid() && Pinned() && disk == base && data == LogMachine.Dirty(Logged(), cache)
      modifies this`disk, this`trace
      ensures Valid() && Pinned()
      ensures disk == LogWritten(area, base, data, n)
      ensures trace == old(trace) + CommitTrace(area, base, Logged(), data, n)
    {
      ghost var lh := Logged();
      assert LogWritten(area, base, data, 0) == base && CommitTrace(area, base, lh, data, 0) == [];
      hide CommitDisk, CommitTrace, LogWritten;
      var tail := 0;
      while tail < n
        invariant 0 <= tail <= n && Valid() && |disk| == |base|
        invariant disk == LogWritten(area, base, data, tail)
        invariant trace == old(trace) + CommitTrace(area, base, lh, data, tail)
      {
        CommitTraceLogs(area, base, lh, data, tail, old(trace));
        LogBlock(tail);
        tail := tail + 1;
      }
    }

    /** write_head. */
    method WriteHead()
      requires Valid() && n >= 0 && area.start !in cache
      modifies this`disk, this`trace
      ensures Valid() && |disk| == |old(disk)|
      ensures disk == old(disk)[area.start := WithHead(old(disk)[area.start], Logged())]
      ensures trace == old(trace) + [disk]
    {
      var hb := Bread(area.start);
      hb := SetWord(hb, 0, n);
      var i := 0;
      while i < n
        invariant 0 <= i <= n
        invariant hb == SetEntries(disk[area.start], Logged(), i)
      {
        hb := SetWord(hb, i + 1, block[i]);
        i := i + 1;
      }
      Bwrite(area.start, hb);
    }

    /** read_head. */
    method ReadHead()
      requires Valid() && area.start !in cache && HeadCount(disk[area.start]) <= LOGSIZE
      modifies this`n, block
      ensures Valid() && n == HeadCount(disk[area.start])
      ensures Logged() == HeadBlocks(disk[area.start])
    {
      hide GetWord;
      var h := Bread(area.start);
      n := HeadCount(h);
      var i := 0;
      while i < n
        invariant 0 <= i <= LOGSIZE && (n < 0 ==> i == 0) && (n >= 0 ==> i <= n)
        invariant n == HeadCount(h)
        invariant forall j :: 0 <= j < i ==> block[j] == GetWord(h, j + 1)
      {
        block[i] := GetWord(h, i + 1);
        i := i + 1;
      }
      assert Logged() == HeadBlocks(h);
    }

    /** install_trans: each log block goes home, and the home buffer is unpinned. */
    method InstallTrans(ghost base: Disk, ghost lh: seq<Word>)
      requires Valid() && disk == base && Homes(area, |disk|, lh) && lh == Logged()
      requires forall b :: b in cache ==> b in lh
      modifies this`disk, this`trace, this`cache
      ensures Valid() && cache == map[]
      ensures disk == Install(area, base, lh, |lh|)
      ensures trace == old(trace) + InstallTrace(area, base, lh, |lh|)
    {
      var tail := 0;
      while tail < n
        invariant 0 <= tail <= |lh| && Valid() && |disk| == |base|
        invariant disk == Install(area, base, lh, tail)
        invariant trace == old(trace) + InstallTrace(area, base, lh, tail)
        invariant forall b :: b in cache ==> b in lh[tail..]
      {
        var from := Bread(area.start + tail + 1);
        InstallAt(area, base, lh, tail, area.start + tail + 1);
        Bwrite(block[tail], from);
        assert disk == Install(area, base, lh, tail + 1);
        cache := cache - {block[tail]};
        assert lh[tail..] == [lh[tail]] + lh[tail + 1..];
        tail := tail + 1;
      }
    }

    /** commit of a nonempty log. */
    method CommitSome(ghost base: Disk, ghost lh: seq<Word>, ghost data: seq<Block>)
      requires Valid() && Pinned() && n > 0
      requires base == disk && lh == Logged() && data == LogMachine.Dirty(lh, cache)
      modifies this`disk, this`trace, this`cache, this`n
      ensures Valid() && n == 0 && cache == map[]
      ensures disk == CommitDisk(area, base, lh, data, 2 * |lh| + 2)
      ensures trace == old(trace) + CommitTrace(area, base, lh, data, 2 * |lh| + 2)
    {
      WriteLog(base, data);
      WriteHead();
      LogWrittenAt(area, base, data, |lh|, area.start);
      ghost var h := Headed(area, base, lh, data);
      InstallTrans(h, lh);
      n := 0;
      WriteHead();
      CommitTraceParts(area, base, lh, data);
      Regroup(old(trace), CommitTrace(area, base, lh, data, |lh|), [h], InstallTrace(area, h, lh, |lh|), [disk]);
    }

    /** commit: the disks it goes through are CommitDisk 1, 2, ..., 2n+2 and no others. */
    method Commit()
      requires Valid() && Pinned()
      modifies this`disk, this`trace, this`cache, this`n
      ensures Valid() && n == 0 && cache == map[]
      ensures var lh := old(Logged());
              var data := LogMachine.Dirty(lh, old(cache));
              if lh == [] then disk == old(disk) && trace == old(trace)
              else
                && disk == CommitDisk(area, old(disk), lh, data, 2 * |lh| + 2)
                && trace == old(trace) + CommitTrace(area, old(disk), lh, data, 2 * |lh| + 2)
    {
      if n > 0 {
        CommitSome(disk, Logged(), LogMachine.Dirty(Logged(), cache));
      } else {
        assert cache == map[];
      }
    }

    /** end_op: the last operation out commits. False means the committing panic. */
    method EndOp() returns (ok: bool)
      requires Valid() && Pinned() && outstanding > 0
      modifies this`disk, this`trace, this`cache, this`n, this`outstanding, this`committing
      ensures ok == !old(committing)
      ensures outstanding == old(outstanding) - 1 && committing == old(committing)
      ensures ok && outstanding > 0 ==> disk == old(disk) && n == old(n) && cache == old(cache)
      ensures ok && outstanding == 0 ==>
                && n == 0 && cache == map[]
                && var lh := old(Logged());
                   disk == if lh == [] then old(disk)
                           else CommitDisk(area, old(disk), lh, LogMachine.Dirty(lh, old(cache)), 2 * |lh| + 2)
    {
      var doCommit := false;
      outstanding := outstanding - 1;
      if committing {
        return false;
      }
      if outstanding == 0 {
        doCommit := true;
        committing := true;
      }
      if doCommit {
        Commit();
        committing := false;
      }
      ok := true;
    }

    /** recover_from_log: the disks it goes through are RecoverDisk 1, 2, ..., n+1. */
    method Recover()
      requires Valid() && cache == map[] && Recoverable(area, disk)
      modifies this`disk, this`trace, this`cache, this`n, block
      ensures Valid() && n == 0 && cache == map[]
      ensures disk == Recovered(area, old(disk))
      ensures trace == old(trace) + RecoverTrace(area, old(disk), |HeadBlocks(old(disk)[area.start])| + 1)
    {
      ghost var base := disk;
      ReadHead();
      ghost var lh := Logged();
      InstallTrans(base, lh);
      n := 0;
      InstallAt(area, base, lh, |lh|, area.start);
      RecoverTraceInstalls(area, base, |lh|);
      assert Logged() == [];
      WriteHead();
    }
  }
}
