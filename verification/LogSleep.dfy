/** begin_op and end_op over sleep and wakeup (kernel/log.c:114-158): processes beginning and
    ending operations, logging blocks and committing, in any interleaving, with kill waking
    any of them at any time. */
module LogSleep {
  import opened Monitor
  import opened Prelude

  /** Where a process is in log.c. */
  datatype Prog =
    | Idle
    | Begin           // in begin_op, not yet past its loop
    | Admitted        // counted itself in, about to release log.lock
    | InOp            // returned from begin_op
    | Logging         // in log_write, about to append
    | Logged          // appended, about to release log.lock
    | Ending          // in end_op, about to count itself out
    | Ended           // others are outstanding: about to wakeup(&log)
    | Last            // set committing, about to release log.lock
    | EndWoken        // in or after that wakeup, about to release log.lock
    | Committing      // in commit, without log.lock
    | Cleared         // commit has set lh.n to 0
    | Finishing       // in end_op after commit, about to clear committing
    | Finished        // cleared it, about to wakeup(&log)
    | FinishWoken     // in or after that wakeup, about to release log.lock

  /** log.outstanding, log.committing and log.lh.n. The one channel is &log. */
  datatype Log = Log(outstanding: int, committing: bool, n: nat, panicked: bool, prog: seq<Prog>, mon: State)

  datatype Action =
    | StartBegin(i: nat)
    | StartLog(i: nat)
    | StartEnd(i: nat)
    | StartFinish(i: nat)
    | GetLock(i: nat)
    | GoToSleep(i: nat)
    | Admit(i: nat)
    | Append(i: nat)
    | CountOut(i: nat)
    | ClearList(i: nat)
    | ClearFlag(i: nat)
    | Wake(i: nat)
    | Leave(i: nat)
    | Inside(step: Step)

  /** begin_op's test: it has to wait. */
  predicate Waits(outstanding: int, committing: bool, n: nat) {
    committing || n + (outstanding + 1) * MAXOPBLOCKS > LOGSIZE
  }

  /** What the action does to the three fields. */
  function Fields(s: Log, a: Action): (f: (int, bool, nat)) {
    match a
    case Admit(_) => (s.outstanding + 1, s.committing, s.n)
    case Append(_) => (s.outstanding, s.committing, s.n + 1)
    case CountOut(_) => (s.outstanding - 1, s.committing || s.outstanding == 1, s.n)
    case ClearList(_) => (s.outstanding, s.committing, 0)
    case ClearFlag(_) => (s.outstanding, false, s.n)
    case _ => (s.outstanding, s.committing, s.n)
  }

  function LockStep(s: Log, a: Action): (step: Step) {
    match a
    case StartBegin(i) => Enter(i)
    case StartLog(i) => Enter(i)
    case StartEnd(i) => Enter(i)
    case StartFinish(i) => Enter(i)
    case GetLock(i) => Acquire(i)
    case GoToSleep(i) => SleepStart(i, 0)
    case Wake(i) => WakeStart(i, 0)
    case Leave(i) => Release(i)
    case Inside(step) => step
    case _ => var f := Fields(s, a); Act(a.i, [Waits(f.0, f.1, f.2)])
  }

  /** commit clears lh.n without holding log.lock; every other action is a step at the lock. */
  predicate Can(s: Log, a: Action) {
    && Sane(s.mon) && |s.prog| == |s.mon.pc| && !s.panicked
    && (if a.ClearList? then a.i < |s.prog| else Enabled(s.mon, LockStep(s, a)))
    && match a
       case StartBegin(i) => s.prog[i] == Idle
       case StartLog(i) => s.prog[i] == InOp
       case StartEnd(i) => s.prog[i] == InOp
       case StartFinish(i) => s.prog[i] == Cleared
       case GetLock(_) => true
       case GoToSleep(i) => s.prog[i] == Begin && Waits(s.outstanding, s.committing, s.n)
       case Admit(i) => s.prog[i] == Begin && !Waits(s.outstanding, s.committing, s.n)
       case Append(i) => s.prog[i] == Logging && s.n < LOGSIZE
       case CountOut(i) => s.prog[i] == Ending
       case ClearList(i) => s.prog[i] == Committing
       case ClearFlag(i) => s.prog[i] == Finishing
       case Wake(i) => s.prog[i] == Ended || s.prog[i] == Finished
       case Leave(i) =>
         s.prog[i] == Admitted || s.prog[i] == Logged || s.prog[i] == Last || s.prog[i] == EndWoken
         || s.prog[i] == FinishWoken
       case Inside(step) => step.SleepStep? || step.Schedule? || step.Resume? || step.WakeStep? || step.Kill?
  }

  function ProgAfter(s: Log, a: Action): (p: Prog)
    requires Can(s, a) && !a.Inside?
  {
    var p := s.prog[a.i];
    match a
    case StartBegin(_) => Begin
    case StartLog(_) => Logging
    case StartEnd(_) => Ending
    case StartFinish(_) => Finishing
    case Admit(_) => Admitted
    case Append(_) => Logged
    case CountOut(_) => if s.outstanding == 1 then Last else Ended
    case ClearList(_) => Cleared
    case ClearFlag(_) => Finished
    case Wake(_) => if p == Ended then EndWoken else FinishWoken
    case Leave(_) => if p == Admitted || p == Logged then InOp else if p == Last then Committing else Idle
    case _ => p
  }

  /** CountOut of a process that finds a commit going on is end_op's panic. */
  function Next(s: Log, a: Action): (t: Log)
    requires Can(s, a)
  {
    var mon := if a.ClearList? then s.mon else Do(s.mon, LockStep(s, a));
    if a.Inside? then s.(mon := mon)
    else
      var f := Fields(s, a);
      Log(f.0, f.1, f.2, a.CountOut? && s.committing, s.prog[a.i := ProgAfter(s, a)], mon)
  }

  function Fresh(k: nat): (s: Log) {
    Log(0, false, 0, false, seq(k, _ => Idle), Init(k, [false]))
  }

  ghost predicate Execution(s: Log, actions: seq<Action>, t: Log)
    decreases |actions|
  {
    if actions == [] then s == t
    else Can(s, actions[0]) && Execution(Next(s, actions[0]), actions[1..], t)
  }

  ghost predicate Runs(k: nat, actions: seq<Action>, t: Log) {
    Execution(Fresh(k), actions, t)
  }

  // ---- the invariant ----------------------------------------------------------------------

  /** The process is counted in log.outstanding. */
  predicate Counts(p: Prog) {
    p == Admitted || p == InOp || p == Logging || p == Logged || p == Ending
  }

  /** The process is the one that commits. */
  predicate Commits(p: Prog) {
    p == Last || p == Committing || p == Cleared || p == Finishing
  }

  ghost function Outstanding(prog: seq<Prog>): (who: set<nat>) {
    set i: nat | i < |prog| && Counts(prog[i])
  }

  /** Where a process can be with respect to log.lock. */
  predicate Fits(p: Prog, pc: Pc) {
    match p
    case Idle => pc == Out
    case Begin => pc != Out && !pc.Waking?
    case InOp => pc == Out
    case Committing => pc == Out
    case Cleared => pc == Out
    case Logging => pc == Want || pc == In
    case Ending => pc == Want || pc == In
    case Finishing => pc == Want || pc == In
    case EndWoken => pc == In || pc.Waking?
    case FinishWoken => pc == In || pc.Waking?
    case _ => pc == In
  }

  predicate Consistent(s: Log, i: nat)
    requires Sane(s.mon) && i < |s.prog| == |s.mon.pc|
  {
    Fits(s.prog[i], s.mon.pc[i])
  }

  /** Only between a change that makes room and the end of the wakeup after it is anything owed. */
  predicate Owing(s: Log)
    requires Sane(s.mon) && |s.prog| == |s.mon.pc|
  {
    s.mon.owed == {}
    || (&& 0 <= s.mon.lk < |s.prog|
        && var p, pc := s.prog[s.mon.lk], s.mon.pc[s.mon.lk];
           p == Ended || p == Finished || (pc.Waking? && (p == EndWoken || p == FinishWoken)))
  }

  ghost predicate OneCommitter(prog: seq<Prog>, committing: bool) {
    && (committing <==> exists i :: 0 <= i < |prog| && Commits(prog[i]))
    && forall i, j :: 0 <= i < j < |prog| ==> !(Commits(prog[i]) && Commits(prog[j]))
  }

  /** No operation is outstanding while one process commits, and then only one does; the list
      is empty when nothing is going on. */
  ghost predicate Booked(s: Log) {
    && s.outstanding == |Outstanding(s.prog)| && !s.panicked
    && (s.committing ==> s.outstanding == 0)
    && (!s.committing && s.outstanding == 0 ==> s.n == 0)
    && OneCommitter(s.prog, s.committing)
    && (forall i :: 0 <= i < |s.prog| && (s.prog[i] == Cleared || s.prog[i] == Finishing) ==> s.n == 0)
  }

  ghost predicate LogInv(s: Log) {
    && Inv(s.mon) && |s.prog| == |s.mon.pc|
    && s.mon.just == [Waits(s.outstanding, s.committing, s.n)] && s.mon.debt == {} && s.mon.owed <= {0}
    && (forall i: nat :: i < |s.prog| ==> Consistent(s, i))
    && Owing(s) && Booked(s)
  }

  lemma FreshInv(k: nat)
    ensures LogInv(Fresh(k))
  {
    assert Outstanding(Fresh(k).prog) == {};
  }

  lemma OutstandingSet(prog: seq<Prog>, i: nat, p: Prog)
    requires i < |prog|
    ensures Outstanding(prog[i := p]) == if Counts(p) then Outstanding(prog) + {i} else Outstanding(prog) - {i}
    ensures i in Outstanding(prog) <==> Counts(prog[i])
  {
  }

  function One(b: bool): (n: int) {
    if b then 1 else 0
  }

  lemma CountsAfter(s: Log, a: Action)
    requires Can(s, a) && !a.Inside?
    ensures a.i < |s.prog|
    ensures Fields(s, a).0 == s.outstanding + One(Counts(ProgAfter(s, a))) - One(Counts(s.prog[a.i]))
  {
    hide Do, Waits;
    assert a.i < |s.prog|;
  }

  lemma KeepsCount(s: Log, a: Action)
    requires Booked(s) && Can(s, a) && !a.Inside?
    ensures var t := Next(s, a); t.outstanding == |Outstanding(t.prog)|
  {
    CountsAfter(s, a);
    hide Do, Can, Fields, ProgAfter, Counts, Outstanding;
    OutstandingSet(s.prog, a.i, ProgAfter(s, a));
  }

  lemma SomeOutstanding(s: Log, i: nat)
    requires Booked(s) && i < |s.prog| && Counts(s.prog[i])
    ensures s.outstanding > 0 && !s.committing && forall j :: 0 <= j < |s.prog| ==> !Commits(s.prog[j])
  {
    assert i in Outstanding(s.prog);
  }

  lemma CommitterSet(prog: seq<Prog>, committing: bool, i: nat, p: Prog)
    requires OneCommitter(prog, committing) && i < |prog| && (Commits(p) ==> Commits(prog[i]) || !committing)
    ensures OneCommitter(prog[i := p], if Commits(prog[i]) then Commits(p) else committing || Commits(p))
  {
    hide Commits;
    var prog' := prog[i := p];
    if committing && !Commits(prog[i]) {
      var j :| 0 <= j < |prog| && Commits(prog[j]);
      assert Commits(prog'[j]);
    }
    if Commits(p) {
      assert Commits(prog'[i]);
    }
  }

  /** An action at process i that changes none of the fields. */
  lemma BookedFrame(s: Log, t: Log, i: nat)
    requires Booked(s) && i < |s.prog| == |t.prog| && t.prog == s.prog[i := t.prog[i]]
    requires t.outstanding == s.outstanding == |Outstanding(t.prog)| && t.committing == s.committing && t.n == s.n
    requires !t.panicked && (Commits(t.prog[i]) <==> Commits(s.prog[i]))
    requires t.prog[i] == Cleared || t.prog[i] == Finishing ==> s.n == 0
    ensures Booked(t)
  {
    hide Outstanding;
    CommitterSet(s.prog, s.committing, i, t.prog[i]);
  }

  /** An action that changes the fields. */
  lemma BookedAct(s: Log, a: Action)
    requires Booked(s) && Can(s, a) && (a.Admit? || a.Append? || a.CountOut? || a.ClearList? || a.ClearFlag?)
    ensures Booked(Next(s, a))
  {
    var i := a.i;
    KeepsCount(s, a);
    if Counts(s.prog[i]) {
      SomeOutstanding(s, i);
    }
    CommitterSet(s.prog, s.committing, i, ProgAfter(s, a));
    assert Commits(s.prog[i]) ==> s.committing;
    hide Do, Enabled, Outstanding, OneCommitter;
  }

  lemma KeepsBooked(s: Log, a: Action)
    requires Booked(s) && Can(s, a)
    ensures Booked(Next(s, a))
  {
    if a.Admit? || a.Append? || a.CountOut? || a.ClearList? || a.ClearFlag? {
      BookedAct(s, a);
    } else if !a.Inside? {
      KeepsCount(s, a);
      hide Do, Waits, Outstanding, Booked;
      StillBooked(s, a);
      BookedFrame(s, Next(s, a), a.i);
    }
  }

  lemma StillBooked(s: Log, a: Action)
    requires Booked(s) && Can(s, a)
    requires !(a.Admit? || a.Append? || a.CountOut? || a.ClearList? || a.ClearFlag? || a.Inside?)
    ensures a.i < |s.prog| && (Commits(ProgAfter(s, a)) <==> Commits(s.prog[a.i]))
    ensures ProgAfter(s, a) == Cleared || ProgAfter(s, a) == Finishing ==> s.n == 0
  {
    hide Do, Waits, Outstanding;
  }

  lemma KeepsOther(s: Log, a: Action, i: nat, k: nat)
    requires LogInv(s) && Can(s, a) && !a.ClearList? && i == LockStep(s, a).i && k < |s.prog| && k != i
    ensures var t := Next(s, a); |t.prog| == |s.prog| == |t.mon.pc| && Fits(t.prog[k], t.mon.pc[k])
  {
    assert Consistent(s, k);
    Frame(s.mon, LockStep(s, a), k);
    assert !a.Inside? ==> a.i == i;
    hide Do, LockStep, ProgAfter, Fields, Fits, Booked;
  }

  lemma KeepsSelf(s: Log, a: Action)
    requires LogInv(s) && Can(s, a) && !a.Inside? && !a.ClearList?
    ensures var t := Next(s, a); a.i < |t.prog| == |t.mon.pc| && Fits(t.prog[a.i], t.mon.pc[a.i])
  {
    hide Booked, Owing, Waits, Local;
    assert Consistent(s, a.i);
  }

  lemma KeepsInside(s: Log, step: Step)
    requires LogInv(s) && Can(s, Inside(step))
    ensures var t := Next(s, Inside(step)); step.i < |t.prog| == |t.mon.pc| && Fits(t.prog[step.i], t.mon.pc[step.i])
  {
    hide Booked, Owing, Waits;
    assert Consistent(s, step.i) && Local(s.mon, step.i);
    if !step.Kill? {
      InsideStep(s.mon, step);
      hide Do;
    }
  }

  lemma KeepsConsistent(s: Log, a: Action, k: nat)
    requires LogInv(s) && Can(s, a) && k < |s.prog|
    ensures Sane(Next(s, a).mon) && |Next(s, a).prog| == |Next(s, a).mon.pc| && Consistent(Next(s, a), k)
  {
    if a.ClearList? {
      assert Consistent(s, k);
    } else if k != LockStep(s, a).i {
      KeepsOther(s, a, LockStep(s, a).i, k);
    } else if a.Inside? {
      KeepsInside(s, a.step);
    } else {
      KeepsSelf(s, a);
    }
    hide Do, LockStep, Fits, Booked, Owing;
  }

  /** What an action does to what is owed. */
  lemma Owes(s: Log, a: Action)
    requires LogInv(s) && Can(s, a) && !a.Inside? && !a.ClearList?
    ensures var t := Next(s, a);
            && t.mon.debt == s.mon.debt + (if a.Leave? then s.mon.owed else {})
            && t.mon.owed == (if a.Leave? then {} else if a.CountOut? || a.ClearFlag? then t.mon.owed else s.mon.owed)
            && t.mon.owed <= {0}
  {
    hide Booked, Owing, Local, Consistent;
  }

  lemma KeepsOwingSelf(s: Log, a: Action)
    requires LogInv(s) && Can(s, a) && !a.Inside? && !a.ClearList?
    ensures var t := Next(s, a);
            Sane(t.mon) && |t.prog| == |t.mon.pc| && Owing(t) && t.mon.owed <= {0} && t.mon.debt == {}
  {
    Owes(s, a);
    assert Consistent(s, a.i) && Local(s.mon, a.i);
    if 0 <= s.mon.lk {
      assert Consistent(s, s.mon.lk) && Local(s.mon, s.mon.lk);
    }
    hide Booked, Waits;
  }

  lemma KeepsOwingInside(s: Log, step: Step)
    requires LogInv(s) && Can(s, Inside(step))
    ensures var t := Next(s, Inside(step));
            Sane(t.mon) && |t.prog| == |t.mon.pc| && Owing(t) && t.mon.owed <= {0} && t.mon.debt == {}
  {
    hide Booked, Waits;
    assert Consistent(s, step.i) && Local(s.mon, step.i);
    if 0 <= s.mon.lk {
      assert Consistent(s, s.mon.lk) && Local(s.mon, s.mon.lk);
    }
    hide Fits;
  }

  lemma KeepsOwing(s: Log, a: Action)
    requires LogInv(s) && Can(s, a)
    ensures var t := Next(s, a);
            Sane(t.mon) && |t.prog| == |t.mon.pc| && Owing(t) && t.mon.owed <= {0} && t.mon.debt == {}
  {
    if a.Inside? {
      KeepsOwingInside(s, a.step);
    } else if !a.ClearList? {
      KeepsOwingSelf(s, a);
    }
  }

  lemma KeepsLogInv(s: Log, a: Action)
    requires LogInv(s) && Can(s, a)
    ensures LogInv(Next(s, a))
  {
    if !a.ClearList? {
      KeepsInv(s.mon, LockStep(s, a));
    }
    KeepsOwing(s, a);
    KeepsBooked(s, a);
    forall k: nat | k < |s.prog| ensures Consistent(Next(s, a), k) {
      KeepsConsistent(s, a, k);
    }
  }

  lemma {:induction false} LogInvHolds(s: Log, actions: seq<Action>, t: Log)
    requires LogInv(s) && Execution(s, actions, t)
    ensures LogInv(t)
    decreases |actions|
  {
    hide LogInv, Can, Next;
    if actions != [] {
      KeepsLogInv(s, actions[0]);
      LogInvHolds(Next(s, actions[0]), actions[1..], t);
    }
  }

  /** Whoever has to wait may sleep: the model cuts no run at the call of sleep. */
  lemma SleepAllowed(s: Log, i: nat)
    requires LogInv(s) && i < |s.prog| && s.prog[i] == Begin && s.mon.pc[i] == In
    requires Waits(s.outstanding, s.committing, s.n)
    ensures Can(s, GoToSleep(i))
  {
    assert Local(s.mon, i);
  }

  /** No interleaving strands a begin_op: with log.lock free, a process that sleeps in it, or
      has left its test on the way to sleeping, still has to wait; and it waits for a process
      that commits, or for one with an outstanding operation, which will wake it. */
  lemma NoStrandedBegin(k: nat, actions: seq<Action>, t: Log, i: nat)
    requires Runs(k, actions, t) && t.mon.lk == -1
    requires Sane(t.mon) && i < |t.mon.pc| && Committed(t.mon, i, 0)
    ensures Waits(t.outstanding, t.committing, t.n)
    ensures exists j :: 0 <= j < |t.prog| && j != i && (if t.committing then Commits(t.prog[j]) else Counts(t.prog[j]))
  {
    FreshInv(k);
    LogInvHolds(Fresh(k), actions, t);
    NoLostWakeup(t.mon, i, 0);
    assert Consistent(t, i) && Local(t.mon, i);
    assert t.prog[i] == Begin;
    if !t.committing {
      assert t.outstanding > 0;
      var j :| j in Outstanding(t.prog);
    }
  }

  /** No end_op finds a commit in progress, log.outstanding is the number of operations, and
      at most one process commits at a time. */
  lemma OneCommits(k: nat, actions: seq<Action>, t: Log)
    requires Runs(k, actions, t)
    ensures !t.panicked && t.outstanding == |Outstanding(t.prog)| && (t.committing ==> t.outstanding == 0)
    ensures forall i, j :: 0 <= i < j < |t.prog| ==> !(Commits(t.prog[i]) && Commits(t.prog[j]))
  {
    FreshInv(k);
    LogInvHolds(Fresh(k), actions, t);
  }
}
