/** sleep and wakeup (kernel/proc.c) around a condition that a spinlock protects, for any number of processes and every
    interleaving, with kill waking sleepers at any time. The condition and the operations on the data are parameters;
    the sleep locks of kernel/sleeplock.c and begin_op and end_op of kernel/log.c are the two instances. */
module SleepWakeup {
  /** The code around one spinlock lk. blocked: a process that finds the data so goes to sleep. quiet: what process p
      does to the data in a critical section without calling wakeup before it ends. loud: what it does before it calls
      wakeup. outside: what it does to the data without holding lk. */
  datatype Monitor<!D> = Monitor(blocked: D -> bool, quiet: (nat, D, D) -> bool, loud: (nat, D, D) -> bool,
                                 outside: (nat, D, D) -> bool)

  datatype Pc =
    | Out  // not in this code
    | Critical(wake: bool)  // holds lk; wake: wakeup is still to be called
    | Waking(i: nat, held: bool)  // in the loop of wakeup, holding lk, and process i's lock if held
    | Sleep1  // sleep has acquired p->lock, and still holds lk
    | Sleep2  // has released lk
    | Sleep3  // has set p->state = SLEEPING, and still holds p->lock
    | Off  // switched away
    | Resumed  // switched to, with p->lock
    | Again  // has released p->lock, and will acquire lk

  /** lk: the process in the critical section, or -1. lock: the process that holds p->lock, or -1, where the scheduler
      that switches to or from p counts as p. asleep: p->state == SLEEPING && p->chan is this channel. */
  datatype State<D> = State(lk: int, lock: seq<int>, asleep: seq<bool>, pc: seq<Pc>, data: D)

  datatype Action =
    | Enter
    | Quiet
    | Loud
    | Outside
    | Exit
    | StartWake
    | WakeLock
    | WakeOne
    | WakeSkip
    | EndWake
    | GoSleep
    | ReleaseLk
    | SetAsleep
    | SwitchAway
    | Kill(victim: nat)
    | SwitchTo
    | Tidy

  predicate WellFormed<D>(s: State<D>) {
    |s.asleep| == |s.pc| == |s.lock|
  }

  predicate Next<D(==)>(m: Monitor<D>, s: State<D>, p: nat, a: Action, t: State<D>)
    requires WellFormed(s) && p < |s.pc|
  {
    var k := s.pc[p];
    match a
    case Enter => (k.Out? || k.Again?) && s.lk == -1 && t == s.(lk := p, pc := s.pc[p := Critical(false)])
    case Quiet => k.Critical? && m.quiet(p, s.data, t.data) && t == s.(data := t.data)
    case Loud => k.Critical? && m.loud(p, s.data, t.data) && t == s.(data := t.data, pc := s.pc[p := Critical(true)])
    case Outside => k.Out? && m.outside(p, s.data, t.data) && t == s.(data := t.data)
    case Exit => k == Critical(false) && t == s.(lk := -1, pc := s.pc[p := Out])
    case StartWake => k.Critical? && t == s.(pc := s.pc[p := Waking(0, false)])
    case WakeLock =>
      && k.Waking? && !k.held && k.i < |s.pc| && k.i != p && s.lock[k.i] == -1
      && t == s.(lock := s.lock[k.i := p], pc := s.pc[p := Waking(k.i, true)])
    case WakeOne =>
      && k.Waking? && k.held && k.i < |s.pc|
      && t == s.(asleep := s.asleep[k.i := false], lock := s.lock[k.i := -1], pc := s.pc[p := Waking(k.i + 1, false)])
    case WakeSkip => k == Waking(p, false) && t == s.(pc := s.pc[p := Waking(p + 1, false)])
    case EndWake => k == Waking(|s.pc|, false) && t == s.(pc := s.pc[p := Critical(false)])
    case GoSleep => k == Critical(false) && m.blocked(s.data) && s.lock[p] == -1
                    && t == s.(lock := s.lock[p := p], pc := s.pc[p := Sleep1])
    case ReleaseLk => k.Sleep1? && t == s.(lk := -1, pc := s.pc[p := Sleep2])
    case SetAsleep => k.Sleep2? && t == s.(asleep := s.asleep[p := true], pc := s.pc[p := Sleep3])
    case SwitchAway => k.Sleep3? && t == s.(lock := s.lock[p := -1], pc := s.pc[p := Off])
    case Kill(q) => q < |s.pc| && s.lock[q] == -1 && t == s.(asleep := s.asleep[q := false])
    case SwitchTo => k.Off? && !s.asleep[p] && s.lock[p] == -1
                     && t == s.(lock := s.lock[p := p], pc := s.pc[p := Resumed])
    case Tidy => k.Resumed? && t == s.(lock := s.lock[p := -1], pc := s.pc[p := Again])
  }

  predicate Init<D>(s: State<D>) {
    && WellFormed(s) && s.lk == -1
    && forall p | 0 <= p < |s.pc| :: s.pc[p].Out? && s.lock[p] == -1 && !s.asleep[p]
  }

  datatype Run<D> = Start(first: State<D>) | Then(before: Run<D>, p: nat, action: Action, now: State<D>)

  function Final<D>(run: Run<D>): State<D> {
    if run.Start? then run.first else run.now
  }

  predicate IsRun<D(==)>(m: Monitor<D>, run: Run<D>) {
    if run.Start? then Init(run.first)
    else IsRun(m, run.before) && WellFormed(Final(run.before)) && run.p < |Final(run.before).pc|
         && Next(m, Final(run.before), run.p, run.action, run.now)
  }

  /** The monitor calls wakeup whenever a process that found the data blocked might go on. */
  ghost predicate Careful<D(!new)>(m: Monitor<D>) {
    forall p, d, e :: m.quiet(p, d, e) || m.outside(p, d, e) ==> m.blocked(d) ==> m.blocked(e)
  }

  // The invariant.

  predicate HoldsLk(k: Pc) {
    k.Critical? || k.Waking? || k.Sleep1?
  }

  predicate HoldsOwn(k: Pc) {
    k.Sleep1? || k.Sleep2? || k.Sleep3? || k.Resumed?
  }

  /** Process w, with pc k, will still come to process p in wakeup. */
  predicate WillWake(k: Pc, p: nat) {
    k == Critical(true) || (k.Waking? && k.i <= p)
  }

  /** Process p has decided to sleep, or sleeps. */
  predicate Sleeps<D>(s: State<D>, p: nat)
    requires WellFormed(s) && p < |s.pc|
  {
    s.pc[p].Sleep2? || s.asleep[p]
  }

  /** Who holds which lock. */
  predicate LocksOk<D>(s: State<D>, p: nat)
    requires WellFormed(s) && p < |s.pc|
  {
    && (s.lk == p <==> HoldsLk(s.pc[p]))
    && (s.lock[p] == p <==> HoldsOwn(s.pc[p]))
    && LentOk(s, p)
  }

  /** A p->lock that p does not hold itself is held by a process in wakeup. */
  predicate LentOk<D>(s: State<D>, p: nat)
    requires WellFormed(s) && p < |s.pc|
  {
    && (s.lock[p] >= 0 && s.lock[p] != p ==> s.lock[p] < |s.pc| && s.pc[s.lock[p]] == Waking(p, true))
    && (s.pc[p].Waking? && s.pc[p].held ==> s.pc[p].i < |s.pc| && s.pc[p].i != p && s.lock[s.pc[p].i] == p)
  }

  /** A process that has decided to sleep has a reason to, or will be woken. */
  predicate SleepOk<D>(m: Monitor<D>, s: State<D>, p: nat)
    requires WellFormed(s) && p < |s.pc|
  {
    && (s.asleep[p] ==> s.pc[p].Sleep3? || s.pc[p].Off?)
    && (s.pc[p].Sleep1? ==> m.blocked(s.data))
    && (Sleeps(s, p) ==> m.blocked(s.data) || (0 <= s.lk < |s.pc| && WillWake(s.pc[s.lk], p)))
  }

  predicate Inv<D>(m: Monitor<D>, s: State<D>) {
    && WellFormed(s) && -1 <= s.lk < |s.pc| && (s.lk >= 0 ==> HoldsLk(s.pc[s.lk]))
    && forall p | 0 <= p < |s.pc| :: LocksOk(s, p) && SleepOk(m, s, p)
  }

  lemma StepKeepsLocks<D>(m: Monitor<D>, s: State<D>, p: nat, a: Action, t: State<D>, q: nat)
    requires Inv(m, s) && p < |s.pc| && q < |s.pc| && Next(m, s, p, a, t)
    ensures WellFormed(t) && |t.pc| == |s.pc| && LocksOk(t, q)
  {
    assert LocksOk(s, p) && LocksOk(s, q);
    StepKeepsLent(m, s, p, a, t, q);
    hide LentOk;
  }

  lemma StepKeepsLent<D>(m: Monitor<D>, s: State<D>, p: nat, a: Action, t: State<D>, q: nat)
    requires Inv(m, s) && p < |s.pc| && q < |s.pc| && Next(m, s, p, a, t)
    ensures WellFormed(t) && |t.pc| == |s.pc| && LentOk(t, q)
  {
    assert LocksOk(s, p) && LocksOk(s, q);
  }

  lemma StepKeepsSleep<D(!new)>(m: Monitor<D>, s: State<D>, p: nat, a: Action, t: State<D>, q: nat)
    requires Careful(m) && Inv(m, s) && p < |s.pc| && q < |s.pc| && Next(m, s, p, a, t)
    ensures WellFormed(t) && |t.pc| == |s.pc| && SleepOk(m, t, q)
  {
    assert LocksOk(s, p) && LocksOk(s, q) && SleepOk(m, s, q);
    assert s.lk >= 0 ==> LocksOk(s, s.lk);
  }

  lemma StepKeepsInv<D(!new)>(m: Monitor<D>, s: State<D>, p: nat, a: Action, t: State<D>)
    requires Careful(m) && Inv(m, s) && p < |s.pc| && Next(m, s, p, a, t)
    ensures Inv(m, t)
  {
    assert LocksOk(s, p);
    forall q | 0 <= q < |s.pc|
      ensures WellFormed(t) && |t.pc| == |s.pc| && LocksOk(t, q) && SleepOk(m, t, q)
    {
      StepKeepsLocks(m, s, p, a, t, q);
      StepKeepsSleep(m, s, p, a, t, q);
    }
  }

  lemma {:induction false} RunsKeepInv<D(!new)>(m: Monitor<D>, run: Run<D>)
    requires Careful(m) && IsRun(m, run)
    ensures Inv(m, Final(run))
  {
    if run.Then? {
      RunsKeepInv(m, run.before);
      StepKeepsInv(m, Final(run.before), run.p, run.action, run.now);
    }
  }

  /** Whenever the spinlock is free, a process sleeps only while the condition it waits for is still false. */
  lemma NoLostWakeup<D(!new)>(m: Monitor<D>, run: Run<D>, p: nat)
    requires Careful(m) && IsRun(m, run) && Final(run).lk == -1 && p < |Final(run).asleep| && Final(run).asleep[p]
    ensures m.blocked(Final(run).data)
  {
    RunsKeepInv(m, run);
    assert SleepOk(m, Final(run), p);
  }

  // Sleep locks.

  /** holders: the processes that have come back from acquiresleep, and have not called releasesleep since. */
  datatype SleepLock = SleepLock(locked: bool, pid: nat, holders: set<nat>)

  function SleepLockMonitor(): Monitor<SleepLock> {
    Monitor((d: SleepLock) => d.locked, AcquireSleep, ReleaseSleep, (p: nat, d: SleepLock, e: SleepLock) => false)
  }

  /** The end of acquiresleep, once it has found the lock free. */
  predicate AcquireSleep(p: nat, d: SleepLock, e: SleepLock) {
    !d.locked && e == SleepLock(true, p, d.holders + {p})
  }

  /** releasesleep, which a holder calls. */
  predicate ReleaseSleep(p: nat, d: SleepLock, e: SleepLock) {
    p in d.holders && e == SleepLock(false, 0, d.holders - {p})
  }

  /** A sleep lock has at most one holder, whose number it keeps. */
  predicate OneHolder(d: SleepLock) {
    d.holders == if d.locked then {d.pid} else {}
  }

  lemma {:induction false} SleepLockExcludes(run: Run<SleepLock>)
    requires IsRun(SleepLockMonitor(), run) && OneHolder(First(run).data)
    ensures OneHolder(Final(run).data)
  {
    if run.Then? {
      SleepLockExcludes(run.before);
    }
  }

  function First<D>(run: Run<D>): State<D> {
    if run.Start? then run.first else First(run.before)
  }

  /** No process sleeps on a sleep lock that is free, while the lock's spinlock is free. */
  lemma SleepLockNoLostWakeup(run: Run<SleepLock>, p: nat)
    requires IsRun(SleepLockMonitor(), run) && Final(run).lk == -1 && p < |Final(run).asleep| && Final(run).asleep[p]
    ensures Final(run).data.locked
  {
    NoLostWakeup(SleepLockMonitor(), run, p);
  }

  // Transactions.

  datatype LogData = LogData(outstanding: nat, committing: bool, n: nat)

  /** begin_op's test: M is MAXOPBLOCKS, and L is LOGSIZE. */
  predicate MustWait(M: nat, L: nat, d: LogData) {
    d.committing || d.n + (d.outstanding + 1) * M > L
  }

  /** begin_op is admitted; log_write adds an entry; end_op of the last operation starts a commit. */
  predicate LogQuiet(M: nat, L: nat, d: LogData, e: LogData) {
    || (!MustWait(M, L, d) && e == d.(outstanding := d.outstanding + 1))
    || (d.outstanding >= 1 && d.n < L && e == d.(n := d.n + 1))
    || (d.outstanding == 1 && !d.committing && e == d.(outstanding := 0, committing := true))
  }

  /** end_op of another operation, and the end of a commit. */
  predicate LogLoud(d: LogData, e: LogData) {
    || (d.outstanding > 1 && !d.committing && e == d.(outstanding := d.outstanding - 1))
    || (d.committing && e == d.(committing := false))
  }

  /** commit empties the header without the spinlock. */
  predicate LogOutside(d: LogData, e: LogData) {
    d.committing && e == d.(n := 0)
  }

  function LogMonitor(M: nat, L: nat): Monitor<LogData> {
    Monitor((d: LogData) => MustWait(M, L, d), (p: nat, d: LogData, e: LogData) => LogQuiet(M, L, d, e),
            (p: nat, d: LogData, e: LogData) => LogLoud(d, e), (p: nat, d: LogData, e: LogData) => LogOutside(d, e))
  }

  /** While log.lock is free, no process sleeps in begin_op unless a commit is under way or the reservation does not
      fit. */
  lemma BeginOpNoLostWakeup(M: nat, L: nat, run: Run<LogData>, p: nat)
    requires IsRun(LogMonitor(M, L), run) && Final(run).lk == -1 && p < |Final(run).asleep| && Final(run).asleep[p]
    ensures MustWait(M, L, Final(run).data)
  {
    forall d: LogData, e: LogData | LogQuiet(M, L, d, e) && MustWait(M, L, d)
      ensures MustWait(M, L, e)
    {
    }
    assert Careful(LogMonitor(M, L));
    NoLostWakeup(LogMonitor(M, L), run, p);
  }
}
