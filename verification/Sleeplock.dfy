/** kernel/sleeplock.c over sleep and wakeup: processes calling acquiresleep and
    releasesleep in any interleaving, with kill waking any of them at any time. */
module Sleeplock {
  import opened Monitor

  /** Where a process is in sleeplock.c. */
  datatype Prog =
    | Idle
    | Acquiring       // in acquiresleep, not yet past its while loop
    | Taken           // set locked, about to release lk
    | Holding         // returned from acquiresleep
    | Releasing       // in releasesleep, about to clear locked
    | Cleared         // cleared locked, about to wakeup
    | Woken           // in or after wakeup, about to release lk

  /** `pid` is the holder's process number, or -1. The one channel is the lock itself. */
  datatype Lock = Lock(locked: bool, pid: int, prog: seq<Prog>, mon: State)

  datatype Action =
    | StartAcquire(i: nat)
    | StartRelease(i: nat)
    | GetLk(i: nat)
    | GoToSleep(i: nat)
    | Take(i: nat)
    | Clear(i: nat)
    | Wake(i: nat)
    | LeaveLk(i: nat)
    | Inside(step: Step)

  function Step1(a: Action, s: Lock): (step: Step) {
    match a
    case StartAcquire(i) => Enter(i)
    case StartRelease(i) => Enter(i)
    case GetLk(i) => Acquire(i)
    case GoToSleep(i) => SleepStart(i, 0)
    case Take(i) => Act(i, [true])
    case Clear(i) => Act(i, [false])
    case Wake(i) => WakeStart(i, 0)
    case LeaveLk(i) => Release(i)
    case Inside(step) => step
  }

  predicate Can(s: Lock, a: Action) {
    && Enabled(s.mon, Step1(a, s)) && |s.prog| == |s.mon.pc|
    && match a
       case StartAcquire(i) => s.prog[i] == Idle
       case StartRelease(i) => s.prog[i] == Holding
       case GetLk(i) => true
       case GoToSleep(i) => s.prog[i] == Acquiring && s.locked
       case Take(i) => s.prog[i] == Acquiring && !s.locked
       case Clear(i) => s.prog[i] == Releasing
       case Wake(i) => s.prog[i] == Cleared
       case LeaveLk(i) => s.prog[i] == Taken || s.prog[i] == Woken
       case Inside(step) => step.SleepStep? || step.Schedule? || step.Resume? || step.WakeStep? || step.Kill?
  }

  function Next(s: Lock, a: Action): (t: Lock)
    requires Can(s, a)
  {
    var mon := Do(s.mon, Step1(a, s));
    match a
    case StartAcquire(i) => s.(prog := s.prog[i := Acquiring], mon := mon)
    case StartRelease(i) => s.(prog := s.prog[i := Releasing], mon := mon)
    case Take(i) => s.(locked := true, pid := i, prog := s.prog[i := Taken], mon := mon)
    case Clear(i) => s.(locked := false, pid := -1, prog := s.prog[i := Cleared], mon := mon)
    case Wake(i) => s.(prog := s.prog[i := Woken], mon := mon)
    case LeaveLk(i) => s.(prog := s.prog[i := if s.prog[i] == Taken then Holding else Idle], mon := mon)
    case _ => s.(mon := mon)
  }

  function Fresh(n: nat): (s: Lock) {
    Lock(false, -1, seq(n, _ => Idle), Init(n, [false]))
  }

  ghost predicate Execution(s: Lock, actions: seq<Action>, t: Lock)
    decreases |actions|
  {
    if actions == [] then s == t
    else Can(s, actions[0]) && Execution(Next(s, actions[0]), actions[1..], t)
  }

  ghost predicate Runs(n: nat, actions: seq<Action>, t: Lock) {
    Execution(Fresh(n), actions, t)
  }

  // ---- the invariant ----------------------------------------------------------------------

  /** Programs in which this process owns the sleep lock. */
  predicate Owns(p: Prog) {
    p == Taken || p == Holding || p == Releasing
  }

  predicate Consistent(s: Lock, i: nat)
    requires Sane(s.mon) && i < |s.prog| == |s.mon.pc|
  {
    && (Owns(s.prog[i]) <==> s.locked && s.pid == i)
    && match s.prog[i]
       case Idle => s.mon.pc[i] == Out
       case Acquiring => s.mon.pc[i] != Out && !s.mon.pc[i].Waking?
       case Taken => s.mon.pc[i] == In
       case Holding => s.mon.pc[i] == Out
       case Releasing => s.mon.pc[i] == Want || s.mon.pc[i] == In
       case Cleared => s.mon.pc[i] == In
       case Woken => s.mon.pc[i] == In || s.mon.pc[i].Waking?
  }

  /** Only between clearing `locked` and the end of wakeup is anything owed. */
  predicate Owing(s: Lock)
    requires Sane(s.mon) && |s.prog| == |s.mon.pc|
  {
    s.mon.owed == {}
    || (&& 0 <= s.mon.lk < |s.prog|
        && (s.prog[s.mon.lk] == Cleared || (s.prog[s.mon.lk] == Woken && s.mon.pc[s.mon.lk].Waking?)))
  }

  predicate LockInv(s: Lock) {
    && Inv(s.mon) && |s.prog| == |s.mon.pc|
    && s.mon.just == [s.locked] && s.mon.debt == {} && s.mon.owed <= {0}
    && (s.locked ==> 0 <= s.pid < |s.prog|)
    && (forall i: nat :: i < |s.prog| ==> Consistent(s, i))
    && Owing(s)
  }

  lemma KeepsOwn(s: Lock, a: Action)
    requires LockInv(s) && Can(s, a)
    ensures Consistent(Next(s, a), Step1(a, s).i)
  {
    var i := Step1(a, s).i;
    assert Consistent(s, i) && Local(s.mon, i);
    hide Inv;
  }

  lemma KeepsOther(s: Lock, a: Action, k: nat)
    requires LockInv(s) && Can(s, a) && k < |s.prog| && k != Step1(a, s).i
    ensures Consistent(Next(s, a), k)
  {
    assert Consistent(s, k) && Consistent(s, Step1(a, s).i);
    hide Inv, Local;
  }

  lemma KeepsOwing(s: Lock, a: Action)
    requires LockInv(s) && Can(s, a)
    ensures Owing(Next(s, a)) && Next(s, a).mon.owed <= {0} && Next(s, a).mon.debt == {}
  {
    var i := Step1(a, s).i;
    assert Consistent(s, i) && Local(s.mon, i);
    if 0 <= s.mon.lk {
      assert Consistent(s, s.mon.lk) && Local(s.mon, s.mon.lk);
    }
  }

  lemma KeepsLockInv(s: Lock, a: Action)
    requires LockInv(s) && Can(s, a)
    ensures LockInv(Next(s, a))
  {
    KeepsInv(s.mon, Step1(a, s));
    KeepsOwing(s, a);
    forall k: nat | k < |s.prog| ensures Consistent(Next(s, a), k) {
      if k == Step1(a, s).i {
        KeepsOwn(s, a);
      } else {
        KeepsOther(s, a, k);
      }
    }
  }

  lemma {:induction false} LockInvHolds(s: Lock, actions: seq<Action>, t: Lock)
    requires LockInv(s) && Execution(s, actions, t)
    ensures LockInv(t)
    decreases |actions|
  {
    if actions != [] {
      KeepsLockInv(s, actions[0]);
      LockInvHolds(Next(s, actions[0]), actions[1..], t);
    }
  }

  /** Whoever finds the lock taken may sleep: the model cuts no run at the call of sleep. */
  lemma SleepAllowed(s: Lock, i: nat)
    requires LockInv(s) && i < |s.prog| && s.prog[i] == Acquiring && s.mon.pc[i] == In && s.locked
    ensures Can(s, GoToSleep(i))
  {
    assert Local(s.mon, i);
  }

  /** In every interleaving at most one process is between acquiresleep and releasesleep,
      and holdingsleep's test is true of exactly that one. */
  lemma MutualExclusion(n: nat, actions: seq<Action>, t: Lock, i: nat, k: nat)
    requires Runs(n, actions, t) && i < |t.prog| && k < |t.prog|
    requires t.prog[i] == Holding && Owns(t.prog[k])
    ensures i == k && t.locked && t.pid == i
  {
    LockInvHolds(Fresh(n), actions, t);
    assert Consistent(t, i) && Consistent(t, k);
  }

  /** No interleaving strands a sleeper: when the inner spinlock is free, a process that
      sleeps on the lock, or has left the loop test on its way to sleeping, waits for a
      process that still owns it. */
  lemma NoStrandedSleeper(n: nat, actions: seq<Action>, t: Lock, i: nat)
    requires Runs(n, actions, t) && t.mon.lk == -1
    requires Sane(t.mon) && i < |t.mon.pc| && Committed(t.mon, i, 0)
    ensures t.locked && 0 <= t.pid < |t.prog| && Owns(t.prog[t.pid]) && t.pid != i
  {
    LockInvHolds(Fresh(n), actions, t);
    NoLostWakeup(t.mon, i, 0);
    assert Consistent(t, i) && Consistent(t, t.pid) && Local(t.mon, i);
  }
}
