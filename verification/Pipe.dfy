/** kernel/pipe.c: the ring of PIPESIZE bytes with free-running 32-bit counters. */
module PipeRing {
  import opened Blocks

  const PIPESIZE: nat := 512
  const WRAP: nat := 0x1_0000_0000

  /** data, nread and nwrite of struct pipe. */
  datatype Ring = Ring(data: seq<Byte>, nread: Word, nwrite: Word)

  predicate Full(r: Ring) {
    r.nwrite == (r.nread + PIPESIZE) % WRAP
  }

  predicate Empty(r: Ring) {
    r.nread == r.nwrite
  }

  function Put(r: Ring, b: Byte): (t: Ring)
    requires |r.data| == PIPESIZE
  {
    Ring(r.data[r.nwrite % PIPESIZE := b], r.nread, (r.nwrite + 1) % WRAP)
  }

  function Take(r: Ring): (t: (Byte, Ring))
    requires |r.data| == PIPESIZE
  {
    (r.data[r.nread % PIPESIZE], Ring(r.data, (r.nread + 1) % WRAP, r.nwrite))
  }

  /** The ring after `put` was written and `got` read, over the pipe's whole life: the
      counters are those lengths modulo 2^32 and the ring holds what is between them. */
  ghost predicate Holds(r: Ring, put: seq<Byte>, got: seq<Byte>) {
    && |r.data| == PIPESIZE
    && got <= put && |put| - |got| <= PIPESIZE
    && r.nwrite == |put| % WRAP && r.nread == |got| % WRAP
    && forall k :: |got| <= k < |put| ==> r.data[k % PIPESIZE] == put[k]
  }

  lemma WrapIndex(n: nat)
    ensures (n % WRAP) % PIPESIZE == n % PIPESIZE
  {
    var q := n / WRAP;
    assert n == (q * 0x80_0000) * PIPESIZE + n % WRAP;
    ModAdd(q * 0x80_0000, n % WRAP);
  }

  lemma ModAdd(q: nat, x: nat)
    ensures (q * PIPESIZE + x) % PIPESIZE == x % PIPESIZE
  {
    if q > 0 {
      ModAdd(q - 1, x);
      assert ((q - 1) * PIPESIZE + x) + PIPESIZE == q * PIPESIZE + x;
    }
  }

  /** The wrapped comparisons decide exactly fullness and emptiness. */
  lemma Tests(r: Ring, put: seq<Byte>, got: seq<Byte>)
    requires Holds(r, put, got)
    ensures Full(r) <==> |put| - |got| == PIPESIZE
    ensures Empty(r) <==> put == got
  {
    Shift(|got|, |put| - |got|);
    if |put| == |got| {
      assert put == got;
    }
  }

  lemma Shift(g: nat, d: nat)
    requires d <= PIPESIZE
    ensures (g + d) % WRAP == (g % WRAP + d) % WRAP
    ensures (g + d) % WRAP == (g % WRAP + PIPESIZE) % WRAP <==> d == PIPESIZE
    ensures (g + d) % WRAP == g % WRAP <==> d == 0
  {
  }

  lemma PutHolds(r: Ring, put: seq<Byte>, got: seq<Byte>, b: Byte)
    requires Holds(r, put, got) && !Full(r)
    ensures Holds(Put(r, b), put + [b], got)
  {
    Tests(r, put, got);
    WrapIndex(|put|);
    Shift(|put|, 1);
    forall k | |got| <= k < |put| ensures k % PIPESIZE != |put| % PIPESIZE {
      NearIndex(k, |put| - k);
    }
  }

  lemma NearIndex(k: nat, d: nat)
    requires 0 < d < PIPESIZE
    ensures k % PIPESIZE != (k + d) % PIPESIZE
  {
  }

  lemma TakeHolds(r: Ring, put: seq<Byte>, got: seq<Byte>)
    requires Holds(r, put, got) && !Empty(r)
    ensures Holds(Take(r).1, put, got + [Take(r).0])
  {
    Tests(r, put, got);
    WrapIndex(|got|);
    Shift(|got|, 1);
    assert r.data[|got| % PIPESIZE] == put[|got|];
    assert put[..|got| + 1] == put[..|got|] + [put[|got|]];
  }
}

/** pipewrite's and piperead's loops over the bytes, between two sleeps: the part of each
    call that runs without letting go of the pipe's lock. */
module PipeCode {
  import opened Blocks
  import opened PipeRing

  class Pipe {
    const data: array<Byte>
    var nread: Word
    var nwrite: Word
    ghost var put: seq<Byte>
    ghost var got: seq<Byte>

    ghost function AsRing(): (r: Ring)
      reads this, data
    {
      Ring(data[..], nread, nwrite)
    }

    ghost predicate Valid()
      reads this, data
    {
      data.Length == PIPESIZE && Holds(AsRing(), put, got)
    }

    /** pipealloc. */
    constructor ()
      ensures Valid() && put == [] && got == [] && fresh(data)
    {
      data := new Byte[PIPESIZE](_ => 0);
      nread, nwrite := 0, 0;
      put, got := [], [];
    }

    /** Copies bytes in until they are all in or the ring is full. */
    method WriteUntilFull(bytes: seq<Byte>) returns (n: nat)
      requires Valid()
      modifies this`nwrite, this`put, data
      ensures Valid() && n <= |bytes| && put == old(put) + bytes[..n]
      ensures n < |bytes| ==> Full(AsRing())
    {
      n := 0;
      while n < |bytes| && nwrite != (nread + PIPESIZE) % WRAP
        invariant Valid() && 0 <= n <= |bytes| && put == old(put) + bytes[..n]
      {
        PutHolds(AsRing(), put, got, bytes[n]);
        ghost var next := Put(AsRing(), bytes[n]);
        data[nwrite % PIPESIZE] := bytes[n];
        nwrite := (nwrite + 1) % WRAP;
        assert AsRing() == next;
        put := put + [bytes[n]];
        n := n + 1;
      }
    }

    /** Copies out up to `max` bytes, stopping when the ring is empty. */
    method ReadUpTo(max: nat) returns (bytes: seq<Byte>)
      requires Valid()
      modifies this`nread, this`got
      ensures Valid() && got == old(got) + bytes && |bytes| <= max
      ensures |bytes| < max ==> Empty(AsRing())
    {
      bytes := [];
      while |bytes| < max && nread != nwrite
        invariant Valid() && got == old(got) + bytes && |bytes| <= max
        decreases max - |bytes|
      {
        TakeHolds(AsRing(), put, got);
        var b := data[nread % PIPESIZE];
        nread := (nread + 1) % WRAP;
        got := got + [b];
        bytes := bytes + [b];
      }
    }
  }
}

/** Readers, writers and closers of one pipe in every interleaving. Channel 0 is
    &pi->nread, where readers sleep; channel 1 is &pi->nwrite, where writers sleep. */
module PipeMachine {
  import opened Blocks
  import opened PipeRing
  import opened Monitor

  datatype Prog =
    | Idle
    | WLoop(bytes: seq<Byte>, n: nat)   // pipewrite, at the head of its loops
    | WFull(bytes: seq<Byte>, n: nat)   // ring full: in or after wakeup(&nread), about to sleep
    | WDone                             // past the loop, about to wakeup(&nread)
    | WQuit                             // returning -1
    | RTest(max: nat)                   // piperead, at the wait loop
    | RCopy(max: nat, n: nat)           // piperead, in the copy loop
    | RDone                             // past the loop, about to wakeup(&nwrite)
    | RQuit                             // returning -1
    | Closing(writable: bool)           // pipeclose, about to clear the flag
    | Closed(writable: bool)            // about to wakeup the other side
    | Leaving                           // in or after the last wakeup, about to release the lock

  /** `quit`: a killed writer that owed readers a wakeup has returned from a full pipe that
      still had readers, and no wakeup of readers has ended since. */
  datatype Pipe = Pipe(
    ring: Ring, readopen: bool, writeopen: bool,
    killed: seq<bool>, prog: seq<Prog>, mon: State,
    put: seq<Byte>, got: seq<Byte>, quit: bool)

  datatype Action =
    | StartWrite(i: nat, bytes: seq<Byte>)
    | StartRead(i: nat, max: nat)
    | StartClose(i: nat, writable: bool)
    | GetLock(i: nat)
    | PutByte(i: nat)
    | StopWriting(i: nat)            // all written, or copyin failed
    | GiveUpWriting(i: nat)          // full, and no reader or killed
    | WakeReaders(i: nat)            // full: wakeup(&nread)
    | SleepWriter(i: nat)
    | SleepReader(i: nat)
    | GiveUpReading(i: nat)
    | StartCopying(i: nat)
    | TakeByte(i: nat, ok: bool)     // ok: copyout succeeded
    | StopReading(i: nat)
    | CloseEnd(i: nat)
    | LastWakeup(i: nat)
    | Leave(i: nat)
    | KillProc(i: nat)
    | Inside(step: Step)

  predicate Writer(p: Prog) {
    p.WLoop? || p.WFull? || p.WDone? || p.WQuit?
  }

  predicate Reader(p: Prog) {
    p.RTest? || p.RCopy? || p.RDone? || p.RQuit?
  }

  /** When sleeping on each channel is justified. */
  function Justified(r: Ring, readopen: bool, writeopen: bool): (j: seq<bool>) {
    [Empty(r) && writeopen, Full(r) && readopen]
  }

  function RingAfter(s: Pipe, a: Action): (r: Ring)
    requires |s.ring.data| == PIPESIZE
  {
    match a
    case PutByte(i) =>
      if i < |s.prog| && s.prog[i].WLoop? && s.prog[i].n < |s.prog[i].bytes|
      then Put(s.ring, s.prog[i].bytes[s.prog[i].n]) else s.ring
    case TakeByte(_, _) => Take(s.ring).1
    case _ => s.ring
  }

  predicate OpenAfter(s: Pipe, a: Action, writable: bool) {
    var open := if writable then s.writeopen else s.readopen;
    open && !(a.CloseEnd? && a.i < |s.prog| && s.prog[a.i] == Closing(writable))
  }

  /** What the action is to the lock and to sleep and wakeup. */
  function LockStep(s: Pipe, a: Action): (step: Step)
    requires |s.ring.data| == PIPESIZE
  {
    match a
    case StartWrite(i, _) => Enter(i)
    case StartRead(i, _) => Enter(i)
    case StartClose(i, _) => Enter(i)
    case GetLock(i) => Acquire(i)
    case WakeReaders(i) => WakeStart(i, 0)
    case SleepWriter(i) => SleepStart(i, 1)
    case SleepReader(i) => SleepStart(i, 0)
    case LastWakeup(i) =>
      WakeStart(i, if i < |s.prog| && (s.prog[i].RDone? || s.prog[i] == Closed(false)) then 1 else 0)
    case Leave(i) => Release(i)
    case KillProc(i) => Kill(i)
    case Inside(step) => step
    case _ => Act(a.i, Justified(RingAfter(s, a), OpenAfter(s, a, false), OpenAfter(s, a, true)))
  }

  /** An end is closed only when no call is using it, and no call starts on an end that is
      closed or being closed: each call holds a reference to its file. */
  predicate Can(s: Pipe, a: Action) {
    && |s.ring.data| == PIPESIZE && Sane(s.mon) && |s.prog| == |s.killed| == |s.mon.pc|
    && Enabled(s.mon, LockStep(s, a))
    && match a
       case StartWrite(i, _) =>
         s.prog[i] == Idle && s.writeopen && forall k :: 0 <= k < |s.prog| ==> s.prog[k] != Closing(true)
       case StartRead(i, _) =>
         s.prog[i] == Idle && s.readopen && forall k :: 0 <= k < |s.prog| ==> s.prog[k] != Closing(false)
       case StartClose(i, w) =>
         && s.prog[i] == Idle && (if w then s.writeopen else s.readopen)
         && forall k :: 0 <= k < |s.prog| ==>
              s.prog[k] != Closing(w) && (w ==> !Writer(s.prog[k])) && (!w ==> !Reader(s.prog[k]))
       case GetLock(_) => true
       case PutByte(i) => s.prog[i].WLoop? && s.prog[i].n < |s.prog[i].bytes| && !Full(s.ring)
       case StopWriting(i) => s.prog[i].WLoop? && (s.prog[i].n < |s.prog[i].bytes| ==> !Full(s.ring))
       case GiveUpWriting(i) =>
         s.prog[i].WLoop? && s.prog[i].n < |s.prog[i].bytes| && Full(s.ring) && (!s.readopen || s.killed[i])
       case WakeReaders(i) =>
         s.prog[i].WLoop? && s.prog[i].n < |s.prog[i].bytes| && Full(s.ring) && s.readopen && !s.killed[i]
       case SleepWriter(i) => s.prog[i].WFull?
       case SleepReader(i) => s.prog[i].RTest? && Empty(s.ring) && s.writeopen && !s.killed[i]
       case GiveUpReading(i) => s.prog[i].RTest? && Empty(s.ring) && s.writeopen && s.killed[i]
       case StartCopying(i) => s.prog[i].RTest? && !(Empty(s.ring) && s.writeopen)
       case TakeByte(i, _) => s.prog[i].RCopy? && s.prog[i].n < s.prog[i].max && !Empty(s.ring)
       case StopReading(i) => s.prog[i].RCopy? && (s.prog[i].n >= s.prog[i].max || Empty(s.ring))
       case CloseEnd(i) => s.prog[i].Closing?
       case LastWakeup(i) => s.prog[i].WDone? || s.prog[i].RDone? || s.prog[i].Closed?
       case Leave(i) => s.prog[i].WQuit? || s.prog[i].RQuit? || s.prog[i].Leaving?
       case KillProc(_) => true
       case Inside(step) => step.SleepStep? || step.Schedule? || step.Resume? || step.WakeStep?
  }

  function ProgAfter(s: Pipe, a: Action): (p: Prog)
    requires Can(s, a) && !a.Inside? && !a.KillProc?
  {
    var p := s.prog[a.i];
    match a
    case StartWrite(_, bytes) => WLoop(bytes, 0)
    case StartRead(_, max) => RTest(max)
    case StartClose(_, w) => Closing(w)
    case PutByte(_) => WLoop(p.bytes, p.n + 1)
    case StopWriting(_) => WDone
    case GiveUpWriting(_) => WQuit
    case WakeReaders(_) => WFull(p.bytes, p.n)
    case SleepWriter(_) => WLoop(p.bytes, p.n)
    case GiveUpReading(_) => RQuit
    case StartCopying(_) => RCopy(p.max, 0)
    case TakeByte(_, ok) => if ok then RCopy(p.max, p.n + 1) else RDone
    case StopReading(_) => RDone
    case CloseEnd(_) => Closed(p.writable)
    case LastWakeup(_) => Leaving
    case Leave(_) => Idle
    case _ => p
  }

  /** The step ends wakeup(&nread). */
  predicate ReadersWoken(s: Pipe, step: Step)
    requires Enabled(s.mon, step)
  {
    step.WakeStep? && s.mon.pc[step.i].c == 0 && s.mon.pc[step.i].j >= |s.mon.pc|
  }

  function Next(s: Pipe, a: Action): (t: Pipe)
    requires Can(s, a)
    ensures Sane(t.mon) && |t.prog| == |t.killed| == |t.mon.pc| == |s.prog|
  {
    var mon := Do(s.mon, LockStep(s, a));
    if a.Inside? then s.(mon := mon, quit := s.quit && !ReadersWoken(s, a.step))
    else if a.KillProc? then s.(mon := mon, killed := s.killed[a.i := true])
    else
      s.(ring := RingAfter(s, a),
         readopen := OpenAfter(s, a, false),
         writeopen := OpenAfter(s, a, true),
         prog := s.prog[a.i := ProgAfter(s, a)],
         mon := mon,
         put := if a.PutByte? then s.put + [s.prog[a.i].bytes[s.prog[a.i].n]] else s.put,
         got := if a.TakeByte? then s.got + [Take(s.ring).0] else s.got,
         quit := s.quit || (a.GiveUpWriting? && s.readopen && 0 in s.mon.owed))
  }

  function Fresh(n: nat): (s: Pipe) {
    Pipe(Ring(seq(PIPESIZE, _ => 0), 0, 0), true, true, seq(n, _ => false), seq(n, _ => Idle),
         Init(n, [true, false]), [], [], false)
  }

  ghost predicate Execution(s: Pipe, actions: seq<Action>, t: Pipe)
    decreases |actions|
  {
    if actions == [] then s == t
    else Can(s, actions[0]) && Execution(Next(s, actions[0]), actions[1..], t)
  }

  ghost predicate Runs(n: nat, actions: seq<Action>, t: Pipe) {
    Execution(Fresh(n), actions, t)
  }

  // ---- the invariant ------------------------------------------------------------------------

  /** The lock position a program can be in, and what it may owe there. */
  predicate Consistent(s: Pipe, i: nat)
    requires Sane(s.mon) && i < |s.prog| == |s.mon.pc|
  {
    var p, pc, owed := s.prog[i], s.mon.pc[i], s.mon.owed;
    match p
    case Idle => pc == Out
    case WLoop(_, _) => pc != Out && !pc.Waking? && (OnChannel(pc) ==> pc.c == 1) && (pc == In ==> owed <= {0})
    case WFull(_, n) => (pc == In && owed == {} && Full(s.ring) && s.readopen && n < |p.bytes|)
                        || (pc.Waking? && pc.c == 0 && owed <= {0} && Full(s.ring) && s.readopen && n < |p.bytes|)
    case WDone => pc == In && owed <= {0}
    case WQuit => pc == In && owed <= {0} && (0 in owed ==> s.quit || !s.readopen)
    case RTest(_) => pc != Out && !pc.Waking? && (OnChannel(pc) ==> pc.c == 0) && (pc == In ==> owed == {})
    case RCopy(_, _) => pc == In && owed <= {1}
    case RDone => pc == In && owed <= {1}
    case RQuit => pc == In && owed == {}
    case Closing(_) => pc == Want || (pc == In && owed == {})
    case Closed(w) => pc == In && owed <= {if w then 0 else 1}
    case Leaving => (pc == In && owed == {}) || (pc.Waking? && owed <= {pc.c})
  }

  predicate User(p: Prog, w: bool) {
    if w then Writer(p) else Reader(p)
  }

  /** Whoever uses or is closing an end finds it open, and closes it alone. */
  predicate EndOk(prog: seq<Prog>, open: bool, w: bool) {
    && (forall k :: 0 <= k < |prog| && (User(prog[k], w) || prog[k] == Closing(w)) ==> open)
    && (forall k, l :: 0 <= k < |prog| && 0 <= l < |prog| && k != l && prog[k] == Closing(w)
          ==> !User(prog[l], w) && prog[l] != Closing(w))
  }

  predicate PipeInv(s: Pipe) {
    && Inv(s.mon) && |s.prog| == |s.killed| == |s.mon.pc|
    && s.mon.just == Justified(s.ring, s.readopen, s.writeopen)
    && s.mon.debt <= {0} && (0 in s.mon.debt ==> s.quit || !s.readopen)
    && (forall i: nat :: i < |s.prog| ==> Consistent(s, i))
    && EndOk(s.prog, s.readopen, false) && EndOk(s.prog, s.writeopen, true)
  }

  lemma FreshInv(n: nat)
    ensures PipeInv(Fresh(n)) && Holds(Fresh(n).ring, [], [])
  {
    InitInv(n, [true, false]);
  }

  lemma KeepsRing(s: Pipe, a: Action)
    requires Can(s, a) && Holds(s.ring, s.put, s.got)
    ensures var t := Next(s, a);
            Holds(t.ring, t.put, t.got) && s.put <= t.put && s.got <= t.got
  {
    if a.PutByte? {
      PutHolds(s.ring, s.put, s.got, s.prog[a.i].bytes[s.prog[a.i].n]);
    } else if a.TakeByte? {
      TakeHolds(s.ring, s.put, s.got);
    }
  }

  lemma KeepsJust(s: Pipe, a: Action)
    requires Can(s, a) && s.mon.just == Justified(s.ring, s.readopen, s.writeopen)
    ensures var t := Next(s, a);
            t.mon.just == Justified(t.ring, t.readopen, t.writeopen)
  {
    Changes(s.mon, LockStep(s, a));
    assert a.Inside? ==> !a.step.Act?;
    hide Can, Enabled, Do, Justified, ProgAfter, ReadersWoken;
  }

  /** While some other process holds the lock, nothing about the pipe changes. */
  lemma Untouched(s: Pipe, a: Action, i: nat, k: nat)
    requires PipeInv(s) && Can(s, a) && i == LockStep(s, a).i && k < |s.prog| && k != i && HoldsLk(s.mon.pc[k])
    ensures var t := Next(s, a); t.ring == s.ring && t.readopen == s.readopen && t.quit == s.quit
  {
    assert Local(s.mon, i) && Local(s.mon, k);
  }

  lemma ProgFrame(s: Pipe, a: Action, i: nat, k: nat)
    requires Can(s, a) && i == LockStep(s, a).i && k < |s.prog| && k != i
    ensures Next(s, a).prog[k] == s.prog[k] && Next(s, a).mon == Do(s.mon, LockStep(s, a))
  {
    assert !a.Inside? ==> a.i == i;
    hide Do, Can, LockStep, ProgAfter, RingAfter, OpenAfter;
  }

  lemma KeepsOther(s: Pipe, a: Action, i: nat, k: nat)
    requires PipeInv(s) && Can(s, a) && i == LockStep(s, a).i && k < |s.prog| && k != i
    ensures Consistent(Next(s, a), k)
  {
    assert Consistent(s, k);
    Frame(s.mon, LockStep(s, a), k);
    ProgFrame(s, a, i, k);
    if HoldsLk(s.mon.pc[k]) {
      Untouched(s, a, i, k);
    }
    hide Next, Can, LockStep, Do, Enabled;
  }

  /** What an action inside the lock does to what is owed. */
  lemma ActOwes(s: Pipe, a: Action)
    requires PipeInv(s) && Can(s, a) && LockStep(s, a).Act?
    ensures var t := Next(s, a);
            && t.mon.pc == s.mon.pc && s.mon.pc[a.i] == In
            && t.mon.owed <= s.mon.owed + (if a.PutByte? || (a.CloseEnd? && s.prog[a.i].writable) then {0}
                                           else if a.TakeByte? || a.CloseEnd? then {1} else {})
  {
  }

  lemma KeepsSelfAct(s: Pipe, a: Action)
    requires PipeInv(s) && Can(s, a) && LockStep(s, a).Act?
    ensures Consistent(Next(s, a), a.i)
  {
    hide Do, EndOk, Inv;
    assert Consistent(s, a.i);
    ActOwes(s, a);
  }

  lemma KeepsSelfEnter(s: Pipe, a: Action)
    requires PipeInv(s) && Can(s, a) && (a.StartWrite? || a.StartRead? || a.StartClose? || a.GetLock? || a.KillProc?)
    ensures Consistent(Next(s, a), a.i)
  {
    assert Consistent(s, a.i);
  }

  lemma KeepsSelfLock(s: Pipe, a: Action)
    requires PipeInv(s) && Can(s, a)
    requires a.WakeReaders? || a.SleepWriter? || a.SleepReader? || a.LastWakeup? || a.Leave?
    ensures Consistent(Next(s, a), a.i)
  {
    hide EndOk, NotLost, Local;
    assert Consistent(s, a.i);
  }

  lemma KeepsSelfInside(s: Pipe, step: Step)
    requires PipeInv(s) && Can(s, Inside(step))
    ensures Consistent(Next(s, Inside(step)), step.i)
  {
    hide Do, EndOk;
    assert Consistent(s, step.i) && Local(s.mon, step.i);
    InsideStep(s.mon, step);
  }

  lemma KeepsSelf(s: Pipe, a: Action, i: nat)
    requires PipeInv(s) && Can(s, a) && i == LockStep(s, a).i
    ensures Consistent(Next(s, a), i)
  {
    if a.Inside? {
      KeepsSelfInside(s, a.step);
    } else if LockStep(s, a).Act? {
      KeepsSelfAct(s, a);
    } else if a.WakeReaders? || a.SleepWriter? || a.SleepReader? || a.LastWakeup? || a.Leave? {
      KeepsSelfLock(s, a);
    } else {
      KeepsSelfEnter(s, a);
    }
  }

  /** The ways a process may change its dealings with end w. */
  predicate EndMove(prog: seq<Prog>, open: bool, w: bool, i: nat, p: Prog, open': bool)
    requires i < |prog|
  {
    if User(p, w) then
      open' == open && (User(prog[i], w) || (open && forall k :: 0 <= k < |prog| ==> prog[k] != Closing(w)))
    else if p == Closing(w) then
      open' == open && (prog[i] == p
          || (open && forall k :: 0 <= k < |prog| ==> prog[k] != Closing(w) && !User(prog[k], w)))
    else open' == open || prog[i] == Closing(w)
  }

  lemma EndMoves(prog: seq<Prog>, open: bool, w: bool, i: nat, p: Prog, open': bool)
    requires EndOk(prog, open, w) && i < |prog| && EndMove(prog, open, w, i, p, open')
    ensures EndOk(prog[i := p], open', w)
  {
  }

  lemma ActionMoves(s: Pipe, a: Action, w: bool)
    requires Can(s, a) && !a.Inside? && !a.KillProc?
    ensures a.i < |s.prog|
    ensures EndMove(s.prog, if w then s.writeopen else s.readopen, w, a.i, ProgAfter(s, a), OpenAfter(s, a, w))
  {
    hide Do, Justified, RingAfter;
    assert a.i < |s.prog|;
    hide Enabled, LockStep;
    if !(a.StartWrite? || a.StartRead? || a.StartClose?) {
      assert User(ProgAfter(s, a), w) ==> User(s.prog[a.i], w);
    }
  }

  lemma KeepsEnds(s: Pipe, a: Action, w: bool)
    requires Can(s, a) && EndOk(s.prog, if w then s.writeopen else s.readopen, w)
    ensures EndOk(Next(s, a).prog, if w then Next(s, a).writeopen else Next(s, a).readopen, w)
  {
    if !a.Inside? && !a.KillProc? {
      ActionMoves(s, a, w);
      hide Do, Can, EndMove, EndOk, ProgAfter, OpenAfter, LockStep;
      EndMoves(s.prog, if w then s.writeopen else s.readopen, w, a.i, ProgAfter(s, a), OpenAfter(s, a, w));
    }
  }

  lemma KeepsDebt(s: Pipe, a: Action)
    requires PipeInv(s) && Can(s, a)
    ensures var t := Next(s, a);
            t.mon.debt <= {0} && (0 in t.mon.debt ==> t.quit || !t.readopen)
  {
    if a.Leave? {
      assert Consistent(s, a.i);
    }
    Changes(s.mon, LockStep(s, a));
    hide Do, Inv, Local, Justified, EndOk, RingAfter, ProgAfter;
  }

  lemma KeepsPipeInv(s: Pipe, a: Action)
    requires PipeInv(s) && Can(s, a)
    ensures PipeInv(Next(s, a))
  {
    var t, i := Next(s, a), LockStep(s, a).i;
    KeepsInv(s.mon, LockStep(s, a));
    KeepsJust(s, a);
    KeepsDebt(s, a);
    KeepsEnds(s, a, false);
    KeepsEnds(s, a, true);
    forall k: nat | k < |t.prog| ensures Consistent(t, k) {
      if k == i {
        KeepsSelf(s, a, i);
      } else {
        KeepsOther(s, a, i, k);
      }
    }
  }

  lemma {:induction false} PipeInvHolds(s: Pipe, actions: seq<Action>, t: Pipe)
    requires PipeInv(s) && Holds(s.ring, s.put, s.got) && Execution(s, actions, t)
    ensures PipeInv(t) && Holds(t.ring, t.put, t.got)
    decreases |actions|
  {
    if actions != [] {
      KeepsPipeInv(s, actions[0]);
      KeepsRing(s, actions[0]);
      PipeInvHolds(Next(s, actions[0]), actions[1..], t);
    }
  }

  /** Whoever finds the pipe full, or empty, may sleep: the model cuts no run at the call of sleep. */
  lemma SleepAllowed(s: Pipe, i: nat)
    requires PipeInv(s) && |s.ring.data| == PIPESIZE && i < |s.prog| && s.mon.pc[i] == In
    ensures s.prog[i].WFull? ==> Can(s, SleepWriter(i))
    ensures s.prog[i].RTest? && Empty(s.ring) && s.writeopen && !s.killed[i] ==> Can(s, SleepReader(i))
  {
    assert Consistent(s, i);
  }

  /** In every interleaving, and however often the 32-bit counters have wrapped: what was
      taken out is a prefix of what was put in, the difference fits the ring, and the
      counters tell full from empty. */
  lemma PipeIsFifo(n: nat, actions: seq<Action>, t: Pipe)
    requires Runs(n, actions, t)
    ensures t.got <= t.put && |t.put| - |t.got| <= PIPESIZE
    ensures t.ring.nwrite == |t.put| % WRAP && t.ring.nread == |t.got| % WRAP
    ensures Empty(t.ring) <==> t.got == t.put
    ensures Full(t.ring) <==> |t.put| - |t.got| == PIPESIZE
  {
    FreshInv(n);
    PipeInvHolds(Fresh(n), actions, t);
    Tests(t.ring, t.put, t.got);
  }

  /** Whenever the lock is free, a writer asleep (or past its test on the way to sleep)
      faces a full pipe with a reader's end open, killed processes or not. */
  lemma WriterNotStranded(n: nat, actions: seq<Action>, t: Pipe, i: nat)
    requires Runs(n, actions, t) && t.mon.lk == -1
    requires Sane(t.mon) && i < |t.mon.pc| && Committed(t.mon, i, 1)
    ensures Full(t.ring) && t.readopen
  {
    FreshInv(n);
    PipeInvHolds(Fresh(n), actions, t);
    NoLostWakeup(t.mon, i, 1);
  }

  /** And a sleeping reader faces an empty pipe with the writer's end open, unless readers are
      owed a wakeup. */
  lemma ReaderNotStranded(n: nat, actions: seq<Action>, t: Pipe, i: nat)
    requires Runs(n, actions, t) && t.mon.lk == -1 && 0 !in t.mon.debt
    requires Sane(t.mon) && i < |t.mon.pc| && Committed(t.mon, i, 0)
    ensures Empty(t.ring) && t.writeopen
  {
    FreshInv(n);
    PipeInvHolds(Fresh(n), actions, t);
    NoLostWakeup(t.mon, i, 0);
  }

  /** That is so only if the read end is closed, or a killed writer gave up on a full pipe
      after the last wakeup of readers and after having put something in. */
  lemma DebtOfKilledWriter(n: nat, actions: seq<Action>, t: Pipe)
    requires Runs(n, actions, t) && 0 in t.mon.debt
    ensures t.quit || !t.readopen
  {
    FreshInv(n);
    PipeInvHolds(Fresh(n), actions, t);
  }

  // ---- the exception is real -----------------------------------------------------------------

  lemma {:induction false} Append(s: Pipe, actions: seq<Action>, t: Pipe, a: Action)
    requires Execution(s, actions, t) && Can(t, a)
    ensures Execution(s, actions + [a], Next(t, a))
    decreases |actions|
  {
    hide Can, Next;
    if actions == [] {
      assert (actions + [a])[1..] == [];
    } else {
      assert (actions + [a])[1..] == actions[1..] + [a];
      Append(Next(s, actions[0]), actions[1..], t, a);
    }
  }

  /** Two processes: 0 reads one byte, 1 writes PIPESIZE + 1 and has put n of them. */
  ghost predicate Shape(s: Pipe, pc0: Pc, p0: Prog, pc1: Pc, p1: Prog, lk: int, killed: bool, n: nat) {
    && |s.ring.data| == PIPESIZE && Sane(s.mon) && |s.prog| == |s.killed| == |s.mon.pc| == 2
    && s.ring.nread == 0 && s.ring.nwrite == n <= PIPESIZE && s.readopen && s.writeopen
    && s.mon.just == Justified(s.ring, true, true)
    && (n == 0 ==> s.mon.owed == {}) && (n > 0 && lk == 1 ==> 0 in s.mon.owed)
    && s.mon.pc == [pc0, pc1] && s.prog == [p0, p1]
    && s.mon.lk == lk && s.mon.plk == [if HoldsOwn(pc0) then 0 else -1, -1]
    && (s.mon.sleeping[0] <==> pc0.Sleep3? || pc0.Asleep?)
    && !s.killed[0] && s.killed[1] == killed
  }

  ghost function Bytes(): (b: seq<Byte>) {
    seq(PIPESIZE + 1, _ => 0)
  }

  lemma Step1(s: Pipe)
    requires Shape(s, Out, Idle, Out, Idle, -1, false, 0)
    ensures Can(s, StartRead(0, 1)) && Shape(Next(s, StartRead(0, 1)), Want, RTest(1), Out, Idle, -1, false, 0)
  {
  }

  lemma Step2(s: Pipe)
    requires Shape(s, Want, RTest(1), Out, Idle, -1, false, 0)
    ensures Can(s, GetLock(0)) && Shape(Next(s, GetLock(0)), In, RTest(1), Out, Idle, 0, false, 0)
  {
  }

  lemma Step3(s: Pipe)
    requires Shape(s, In, RTest(1), Out, Idle, 0, false, 0)
    ensures Can(s, SleepReader(0)) && Shape(Next(s, SleepReader(0)), Sleep0(0), RTest(1), Out, Idle, 0, false, 0)
  {
  }

  /** Going to sleep, from one position in sleep to the next. */
  lemma Step4(s: Pipe, pc: Pc, pc': Pc, lk: int, lk': int)
    requires (pc, pc', lk, lk') == (Sleep0(0), Sleep1(0), 0, 0) || (pc, pc', lk, lk') == (Sleep1(0), Sleep2(0), 0, -1)
             || (pc, pc', lk, lk') == (Sleep2(0), Sleep3(0), -1, -1)
             || (pc, pc', lk, lk') == (Sleep3(0), Asleep(0), -1, -1)
    requires Shape(s, pc, RTest(1), Out, Idle, lk, false, 0)
    ensures Can(s, Inside(SleepStep(0)))
            && Shape(Next(s, Inside(SleepStep(0))), pc', RTest(1), Out, Idle, lk', false, 0)
  {
  }

  lemma Step5(s: Pipe)
    requires Shape(s, Asleep(0), RTest(1), Out, Idle, -1, false, 0)
    ensures Can(s, KillProc(1)) && Shape(Next(s, KillProc(1)), Asleep(0), RTest(1), Out, Idle, -1, true, 0)
  {
  }

  lemma Step6(s: Pipe)
    requires Shape(s, Asleep(0), RTest(1), Out, Idle, -1, true, 0)
    ensures Can(s, StartWrite(1, Bytes()))
    ensures Shape(Next(s, StartWrite(1, Bytes())), Asleep(0), RTest(1), Want, WLoop(Bytes(), 0), -1, true, 0)
  {
  }

  lemma Step7(s: Pipe)
    requires Shape(s, Asleep(0), RTest(1), Want, WLoop(Bytes(), 0), -1, true, 0)
    ensures Can(s, GetLock(1)) && Shape(Next(s, GetLock(1)), Asleep(0), RTest(1), In, WLoop(Bytes(), 0), 1, true, 0)
  {
  }

  lemma Step8(s: Pipe, n: nat)
    requires Shape(s, Asleep(0), RTest(1), In, WLoop(Bytes(), n), 1, true, n) && n < PIPESIZE
    ensures Can(s, PutByte(1))
    ensures Shape(Next(s, PutByte(1)), Asleep(0), RTest(1), In, WLoop(Bytes(), n + 1), 1, true, n + 1)
  {
  }

  lemma Step9(s: Pipe)
    requires Shape(s, Asleep(0), RTest(1), In, WLoop(Bytes(), PIPESIZE), 1, true, PIPESIZE)
    ensures Can(s, GiveUpWriting(1)) && Next(s, GiveUpWriting(1)).quit
    ensures Shape(Next(s, GiveUpWriting(1)), Asleep(0), RTest(1), In, WQuit, 1, true, PIPESIZE)
  {
  }

  lemma Step10(s: Pipe)
    requires Shape(s, Asleep(0), RTest(1), In, WQuit, 1, true, PIPESIZE)
    ensures Can(s, Leave(1)) && Next(s, Leave(1)).quit == s.quit
    ensures Shape(Next(s, Leave(1)), Asleep(0), RTest(1), Out, Idle, -1, true, PIPESIZE)
  {
  }

  lemma Step0()
    ensures Shape(Fresh(2), Out, Idle, Out, Idle, -1, false, 0)
  {
  }

  lemma ReaderSleeps() returns (actions: seq<Action>, t: Pipe)
    ensures Execution(Fresh(2), actions, t) && Shape(t, Asleep(0), RTest(1), Out, Idle, -1, false, 0)
  {
    hide Can, Next, Shape, Fresh, Do;
    var f, z := Fresh(2), Inside(SleepStep(0));
    actions, t := [], f;
    Step0();
    Step1(t);
    Append(f, actions, t, StartRead(0, 1));
    actions, t := actions + [StartRead(0, 1)], Next(t, StartRead(0, 1));
    Step2(t);
    Append(f, actions, t, GetLock(0));
    actions, t := actions + [GetLock(0)], Next(t, GetLock(0));
    Step3(t);
    Append(f, actions, t, SleepReader(0));
    actions, t := actions + [SleepReader(0)], Next(t, SleepReader(0));
    Step4(t, Sleep0(0), Sleep1(0), 0, 0);
    Append(f, actions, t, z);
    actions, t := actions + [z], Next(t, z);
    Step4(t, Sleep1(0), Sleep2(0), 0, -1);
    Append(f, actions, t, z);
    actions, t := actions + [z], Next(t, z);
    Step4(t, Sleep2(0), Sleep3(0), -1, -1);
    Append(f, actions, t, z);
    actions, t := actions + [z], Next(t, z);
    Step4(t, Sleep3(0), Asleep(0), -1, -1);
    Append(f, actions, t, z);
    actions, t := actions + [z], Next(t, z);
  }

  lemma WriterStarts() returns (actions: seq<Action>, t: Pipe)
    ensures Execution(Fresh(2), actions, t) && Shape(t, Asleep(0), RTest(1), In, WLoop(Bytes(), 0), 1, true, 0)
  {
    hide Can, Next, Shape, Execution;
    var f, w := Fresh(2), StartWrite(1, Bytes());
    actions, t := ReaderSleeps();
    Step5(t);
    Append(f, actions, t, KillProc(1));
    actions, t := actions + [KillProc(1)], Next(t, KillProc(1));
    Step6(t);
    Append(f, actions, t, w);
    actions, t := actions + [w], Next(t, w);
    Step7(t);
    Append(f, actions, t, GetLock(1));
    actions, t := actions + [GetLock(1)], Next(t, GetLock(1));
  }

  lemma {:induction false} WriterFills(n: nat) returns (actions: seq<Action>, t: Pipe)
    requires n <= PIPESIZE
    ensures Execution(Fresh(2), actions, t) && Shape(t, Asleep(0), RTest(1), In, WLoop(Bytes(), n), 1, true, n)
  {
    hide Can, Next, Shape, Execution;
    if n == 0 {
      actions, t := WriterStarts();
    } else {
      var s;
      actions, s := WriterFills(n - 1);
      Step8(s, n - 1);
      Append(Fresh(2), actions, s, PutByte(1));
      actions, t := actions + [PutByte(1)], Next(s, PutByte(1));
    }
  }

  ghost predicate Stranded(t: Pipe) {
    t.quit && t.mon.lk == -1 && Sane(t.mon) && |t.mon.pc| == 2 && Committed(t.mon, 0, 0) && Full(t.ring)
        && !Empty(t.ring)
  }

  lemma IsStranded(t: Pipe)
    requires t.quit && Shape(t, Asleep(0), RTest(1), Out, Idle, -1, true, PIPESIZE)
    ensures Stranded(t)
  {
  }

  /** A writer killed at a full pipe returns without waking readers: there is a run that
      leaves a reader asleep on a full pipe with the lock free. */
  lemma KilledWriterStrandsReader()
    ensures exists actions, t :: Runs(2, actions, t) && Stranded(t)
  {
    hide Can, Next, Shape, Fresh, Do, Stranded;
    var f := Fresh(2);
    var actions, t := WriterFills(PIPESIZE);
    Step9(t);
    Append(f, actions, t, GiveUpWriting(1));
    actions, t := actions + [GiveUpWriting(1)], Next(t, GiveUpWriting(1));
    Step10(t);
    Append(f, actions, t, Leave(1));
    actions, t := actions + [Leave(1)], Next(t, Leave(1));
    IsStranded(t);
    assert Runs(2, actions, t);
  }
}
