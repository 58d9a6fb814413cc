/** sleep and wakeup (kernel/proc.c:529-602) around one spinlock `lk`, for any program that
    uses them: every interleaving of the atomic steps between lock operations, including
    the window in sleep after lk is released and before the state is SLEEPING, and kill's
    spurious wakeups. What a sleeper on channel c waits for is abstracted to one bit,
    just[c]: "sleeping on c is justified". */
module Monitor {
  /** Where a process stands with respect to lk. */
  datatype Pc =
    | Out                         // not using lk
    | Want                        // in acquire(lk)
    | In                          // holds lk
    | Sleep0(c: nat)              // in sleep, about to acquire p->lock
    | Sleep1(c: nat)              // holds both, about to release lk
    | Sleep2(c: nat)              // holds p->lock only, state not yet SLEEPING
    | Sleep3(c: nat)              // state SLEEPING, about to sched
    | Asleep(c: nat)              // off the processor
    | Awake                       // scheduled again, holds p->lock
    | Waking(c: nat, j: nat)      // in wakeup(c), holding lk, about to look at process j

  /** lk and plk hold a process number, or -1. `owed`: channels whose sleepers the holder of
      lk has made unjustified and not yet finished waking. `debt`: channels that were
      owed a wakeup when lk was released without it, and have had none since. */
  datatype State = State(
    lk: int,
    plk: seq<int>,
    pc: seq<Pc>,
    sleeping: seq<bool>,
    chan: seq<int>,
    just: seq<bool>,
    owed: set<nat>,
    debt: set<nat>)

  datatype Step =
    | Enter(i: nat)
    | Acquire(i: nat)
    | Act(i: nat, just': seq<bool>)
    | Release(i: nat)
    | SleepStart(i: nat, c: nat)
    | SleepStep(i: nat)
    | Schedule(i: nat)
    | Resume(i: nat)
    | WakeStart(i: nat, c: nat)
    | WakeStep(i: nat)
    | Kill(i: nat)

  predicate Sane(s: State) {
    |s.plk| == |s.pc| == |s.sleeping| == |s.chan|
  }

  predicate Enabled(s: State, step: Step) {
    && Sane(s) && step.i < |s.pc|
    && var i := step.i;
       match step
       case Enter(_) => s.pc[i] == Out
       case Acquire(_) => s.pc[i] == Want && s.lk == -1
       case Act(_, j) => s.pc[i] == In && |j| == |s.just|
       case Release(_) => s.pc[i] == In
       case SleepStart(_, c) => s.pc[i] == In && c < |s.just| && s.just[c] && s.owed == {}
       case SleepStep(_) =>
         s.pc[i].Sleep1? || s.pc[i].Sleep2? || s.pc[i].Sleep3? || (s.pc[i].Sleep0? && s.plk[i] == -1)
       case Schedule(_) => s.pc[i].Asleep? && !s.sleeping[i] && s.plk[i] == -1
       case Resume(_) => s.pc[i] == Awake
       case WakeStart(_, c) => s.pc[i] == In && c < |s.just|
       case WakeStep(_) => s.pc[i].Waking? && (s.pc[i].j < |s.pc| ==> s.plk[s.pc[i].j] == -1)
       case Kill(_) => s.plk[i] == -1
  }

  function Do(s: State, step: Step): (t: State)
    requires Enabled(s, step)
    ensures Sane(t) && |t.pc| == |s.pc|
  {
    var i := step.i;
    match step
    case Enter(_) => s.(pc := s.pc[i := Want])
    case Acquire(_) => s.(pc := s.pc[i := In], lk := i)
    case Act(_, just') => s.(just := just', owed := s.owed + set c | 0 <= c < |s.just| && s.just[c] && !just'[c])
    case Release(_) => s.(pc := s.pc[i := Out], lk := -1, debt := s.debt + s.owed, owed := {})
    case SleepStart(_, c) => s.(pc := s.pc[i := Sleep0(c)])
    case SleepStep(_) =>
      (match s.pc[i]
       case Sleep0(c) => s.(pc := s.pc[i := Sleep1(c)], plk := s.plk[i := i])
       case Sleep1(c) => s.(pc := s.pc[i := Sleep2(c)], lk := -1)
       case Sleep2(c) => s.(pc := s.pc[i := Sleep3(c)], chan := s.chan[i := c], sleeping := s.sleeping[i := true])
       case Sleep3(c) => s.(pc := s.pc[i := Asleep(c)], plk := s.plk[i := -1])
       case _ => s)
    case Schedule(_) => s.(pc := s.pc[i := Awake], plk := s.plk[i := i])
    case Resume(_) => s.(pc := s.pc[i := Want], plk := s.plk[i := -1], chan := s.chan[i := -1])
    case WakeStart(_, c) => s.(pc := s.pc[i := Waking(c, 0)])
    case WakeStep(_) =>
      var c, j := s.pc[i].c, s.pc[i].j;
      if j < |s.pc| then
        s.(pc := s.pc[i := Waking(c, j + 1)],
           sleeping := if s.sleeping[j] && s.chan[j] == c then s.sleeping[j := false] else s.sleeping)
      else s.(pc := s.pc[i := In], owed := s.owed - {c}, debt := s.debt - {c})
    case Kill(_) => s.(sleeping := s.sleeping[i := false])
  }

  function Init(n: nat, just: seq<bool>): (s: State) {
    State(-1, seq(n, _ => -1), seq(n, _ => Out), seq(n, _ => false), seq(n, _ => -1), just, {}, {})
  }

  /** Only an action changes what is justified, and only a release makes debts. */
  lemma Changes(s: State, step: Step)
    requires Enabled(s, step)
    ensures var t := Do(s, step);
            && t.just == (if step.Act? then step.just' else s.just)
            && (if step.Release? then t.debt == s.debt + s.owed else t.debt <= s.debt)
  {
  }

  // ---- the invariant -----------------------------------------------------------------------

  predicate HoldsLk(pc: Pc) {
    pc == In || pc.Sleep0? || pc.Sleep1? || pc.Waking?
  }

  predicate HoldsOwn(pc: Pc) {
    pc.Sleep1? || pc.Sleep2? || pc.Sleep3? || pc == Awake
  }

  predicate OnChannel(pc: Pc) {
    pc.Sleep0? || pc.Sleep1? || pc.Sleep2? || pc.Sleep3? || pc.Asleep? || pc.Waking?
  }

  /** Process i is asleep on c, or will be without looking at anything again. */
  predicate Committed(s: State, i: nat, c: nat)
    requires Sane(s) && i < |s.pc|
  {
    || s.pc[i] == Sleep0(c) || s.pc[i] == Sleep1(c) || s.pc[i] == Sleep2(c)
    || ((s.pc[i] == Sleep3(c) || s.pc[i] == Asleep(c)) && s.sleeping[i])
  }

  /** What is known of process i alone. */
  predicate Local(s: State, i: nat)
    requires Sane(s) && i < |s.pc|
  {
    && (s.lk == i <==> HoldsLk(s.pc[i]))
    && (s.plk[i] == i || s.plk[i] == -1) && (s.plk[i] == i <==> HoldsOwn(s.pc[i]))
    && (s.sleeping[i] ==> s.pc[i].Sleep3? || s.pc[i].Asleep?)
    && (s.pc[i].Sleep3? || s.pc[i].Asleep? ==> s.chan[i] == s.pc[i].c)
    && (s.pc[i].Sleep0? || s.pc[i].Sleep1? ==> s.owed == {})
    && (OnChannel(s.pc[i]) ==> s.pc[i].c < |s.just|)
    && (s.pc[i].Waking? ==> s.pc[i].j <= |s.pc|)
  }

  /** The wakeup that process i needs, if its sleep on c is no longer justified, is still to come. */
  predicate WillWake(s: State, i: nat, c: nat)
    requires Sane(s)
  {
    && 0 <= s.lk < |s.pc| && c in s.owed
    && (s.pc[s.lk].Waking? && s.pc[s.lk].c == c ==> s.pc[s.lk].j <= i)
  }

  predicate NotLost(s: State, i: nat, c: nat)
    requires Sane(s) && i < |s.pc| && c < |s.just|
  {
    Committed(s, i, c) ==> s.just[c] || WillWake(s, i, c)
  }

  /** A wakeup under way has left no sleeper behind it. */
  predicate Passed(s: State, i: nat)
    requires Sane(s) && i < |s.pc|
  {
    0 <= s.lk < |s.pc| && s.pc[s.lk].Waking? && i < s.pc[s.lk].j ==> !Committed(s, i, s.pc[s.lk].c)
  }

  predicate Inv(s: State) {
    && Sane(s) && -1 <= s.lk < |s.pc|
    && (s.lk == -1 ==> s.owed == {})
    && (forall i: nat :: i < |s.pc| ==> Local(s, i) && Passed(s, i))
    && forall i: nat, c: nat :: i < |s.pc| && c < |s.just| && c !in s.debt ==> NotLost(s, i, c)
  }

  lemma InitInv(n: nat, just: seq<bool>)
    ensures Inv(Init(n, just))
  {
  }

  lemma OneHolder(s: State, i: nat, k: nat)
    requires Inv(s) && i < |s.pc| && k < |s.pc| && HoldsLk(s.pc[i]) && HoldsLk(s.pc[k])
    ensures i == k
  {
    assert Local(s, i) && Local(s, k);
  }

  lemma KeepsLocalSelf(s: State, step: Step)
    requires Inv(s) && Enabled(s, step)
    ensures Local(Do(s, step), step.i)
  {
    assert Local(s, step.i);
  }

  lemma KeepsLocalOther(s: State, step: Step, k: nat)
    requires Inv(s) && Enabled(s, step) && k < |s.pc| && k != step.i
    ensures Local(Do(s, step), k)
  {
    assert Local(s, k) && Local(s, step.i);
  }

  lemma KeepsPassed(s: State, step: Step, k: nat)
    requires Inv(s) && Enabled(s, step) && k < |s.pc|
    ensures Passed(Do(s, step), k)
  {
    assert Local(s, k) && Local(s, step.i) && Passed(s, k);
    if 0 <= s.lk {
      assert Local(s, s.lk);
    }
  }

  lemma KeepsNotLost(s: State, step: Step, k: nat, c: nat)
    requires Inv(s) && Enabled(s, step) && k < |s.pc| && c < |s.just| && c !in Do(s, step).debt
    ensures NotLost(Do(s, step), k, c)
  {
    assert Local(s, k) && Local(s, step.i) && Passed(s, k);
    assert c !in s.debt ==> NotLost(s, k, c);
  }

  lemma KeepsInv(s: State, step: Step)
    requires Inv(s) && Enabled(s, step)
    ensures Inv(Do(s, step))
  {
    var t := Do(s, step);
    assert Local(s, step.i);
    forall k: nat | k < |t.pc| ensures Local(t, k) && Passed(t, k) {
      KeepsPassed(s, step, k);
      if k == step.i {
        KeepsLocalSelf(s, step);
      } else {
        KeepsLocalOther(s, step, k);
      }
    }
    forall k: nat, c: nat | k < |t.pc| && c < |t.just| && c !in t.debt ensures NotLost(t, k, c) {
      KeepsNotLost(s, step, k, c);
    }
  }

  /** A step of one process, as another one sees it. */
  lemma Frame(s: State, step: Step, k: nat)
    requires Inv(s) && Enabled(s, step) && k < |s.pc| && k != step.i
    ensures var t := Do(s, step);
            && t.pc[k] == s.pc[k]
            && (HoldsLk(s.pc[k]) ==> t.owed == s.owed && t.just == s.just && t.lk == s.lk == k)
  {
    assert Local(s, k) && Local(s, step.i);
  }

  /** A step inside sleep, wakeup or the scheduler, as the process itself sees it. */
  lemma InsideStep(s: State, step: Step)
    requires Inv(s) && Enabled(s, step)
    requires step.SleepStep? || step.Schedule? || step.Resume? || step.WakeStep?
    ensures var t, pc := Do(s, step), s.pc[step.i];
            var pc' := t.pc[step.i];
            && t.just == s.just && t.debt == s.debt - (if pc.Waking? && pc' == In then {pc.c} else {})
            && (if pc.Waking?
                then (pc'.Waking? && pc'.c == pc.c && t.owed == s.owed) || (pc' == In && t.owed == s.owed - {pc.c})
                else || pc' == Want || pc' == Awake
                     || (OnChannel(pc) && OnChannel(pc') && pc'.c == pc.c && !pc'.Waking?))
  {
  }

  /** No lost wakeup: whenever lk is free, a process that sleeps on c, or is on its way to
      sleeping on c, is justified in doing so. */
  lemma NoLostWakeup(s: State, i: nat, c: nat)
    requires Inv(s) && c !in s.debt && s.lk == -1 && i < |s.pc| && c < |s.just| && Committed(s, i, c)
    ensures s.just[c]
  {
    assert NotLost(s, i, c);
  }
}
