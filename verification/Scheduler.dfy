/** The hand-off of a process between CPUs (kernel/proc.c): scheduler, sched and swtch, and everything else that takes a
    p->lock, from a process or from an interrupt that finds a CPU in its scheduler; for any number of CPUs and processes
    and every interleaving. acquire, release and swtch are atomic steps. */
module Scheduler {
  datatype ProcState = UNUSED | USED | SLEEPING | RUNNABLE | RUNNING | ZOMBIE

  /** Where the kernel thread of a process is, while a CPU executes it. */
  datatype Pc =
    | Resumed  // just after swtch, with p->lock from the scheduler
    | Running  // holds no p->lock
    | Own  // has acquired its own p->lock
    | Leaving  // has changed its state, and is about to swtch to the scheduler
    | Other(q: nat)  // holds q->lock, in wakeup, kill, wait or fork

  /** What a CPU executes: its scheduler, or a process on its kernel stack. */
  datatype Control =
    | Loop  // between two processes
    | Wake(p: nat)  // has acquired p->lock, in the wakeup of an interrupt handler
    | Look(p: nat)  // has acquired p->lock
    | Chose(p: nat)  // has set p->state = RUNNING
    | Ready(p: nat)  // has set c->proc = p
    | Proc(p: nat, pc: Pc)
    | Returned(p: nat)  // swtch has come back; p is the scheduler's local variable
    | Cleared(p: nat)  // has set c->proc = 0

  /** lock: for each process the CPU that holds p->lock, or -1. current: c->proc, or -1. saved: the scheduler's variable
      p, as kept on its stack while a process runs. */
  datatype State = State(control: seq<Control>, current: seq<int>, saved: seq<nat>, lock: seq<int>,
                         state: seq<ProcState>)

  datatype Action =
    | Acquire(p: nat)
    | Skip
    | Choose
    | SetCurrent
    | SwitchTo
    | ReleaseOwn
    | AcquireOwn
    | Leave(to: ProcState)
    | SwitchBack
    | ClearCurrent
    | ReleaseCleared
    | Interrupt(p: nat)
    | Wakeup
    | ReleaseWoken
    | AcquireOther(q: nat)
    | ChangeOther(to: ProcState)
    | ReleaseOther

  /** The state changes that a thread makes to another process: wakeup and kill, freeproc in wait, and allocproc,
      freeproc and the last step of fork. */
  predicate MayChange(from: ProcState, to: ProcState) {
    || (from == SLEEPING && to == RUNNABLE)
    || (from == ZOMBIE && to == UNUSED)
    || (from == UNUSED && to == USED)
    || (from == USED && (to == UNUSED || to == RUNNABLE))
  }

  predicate WellFormed(s: State) {
    && |s.current| == |s.control| == |s.saved| && |s.state| == |s.lock|
    && forall c | 0 <= c < |s.control| :: s.control[c].Loop? || s.control[c].p < |s.lock|
  }

  predicate Next(s: State, c: nat, a: Action, t: State)
    requires WellFormed(s) && c < |s.control|
  {
    var k := s.control[c];
    match a
    case Acquire(p) => k.Loop? && p < |s.lock| && s.lock[p] == -1
                       && t == s.(lock := s.lock[p := c], control := s.control[c := Look(p)])
    case Skip => k.Look? && s.state[k.p] != RUNNABLE
                 && t == s.(lock := s.lock[k.p := -1], control := s.control[c := Loop])
    case Choose => k.Look? && s.state[k.p] == RUNNABLE
                   && t == s.(state := s.state[k.p := RUNNING], control := s.control[c := Chose(k.p)])
    case SetCurrent => k.Chose? && t == s.(current := s.current[c := k.p], control := s.control[c := Ready(k.p)])
    case SwitchTo => k.Ready? && t == s.(saved := s.saved[c := k.p], control := s.control[c := Proc(k.p, Resumed)])
    case ReleaseOwn => k.Proc? && (k.pc.Resumed? || k.pc.Own?)
                       && t == s.(lock := s.lock[k.p := -1], control := s.control[c := Proc(k.p, Running)])
    case AcquireOwn => k.Proc? && k.pc.Running? && s.lock[k.p] == -1
                       && t == s.(lock := s.lock[k.p := c], control := s.control[c := Proc(k.p, Own)])
    case Leave(to) =>
      && k.Proc? && k.pc.Own? && (to == RUNNABLE || to == SLEEPING || to == ZOMBIE)
      && t == s.(state := s.state[k.p := to], control := s.control[c := Proc(k.p, Leaving)])
    case SwitchBack => k.Proc? && k.pc.Leaving? && s.saved[c] < |s.lock|
                       && t == s.(control := s.control[c := Returned(s.saved[c])])
    case ClearCurrent => k.Returned? && t == s.(current := s.current[c := -1], control := s.control[c := Cleared(k.p)])
    case ReleaseCleared => k.Cleared? && t == s.(lock := s.lock[k.p := -1], control := s.control[c := Loop])
    case Interrupt(p) =>
      k.Loop? && p < |s.lock| && s.lock[p] == -1 && t == s.(lock := s.lock[p := c], control := s.control[c := Wake(p)])
    case Wakeup => k.Wake? && s.state[k.p] == SLEEPING && t == s.(state := s.state[k.p := RUNNABLE])
    case ReleaseWoken => k.Wake? && t == s.(lock := s.lock[k.p := -1], control := s.control[c := Loop])
    case AcquireOther(q) =>
      && k.Proc? && k.pc.Running? && q < |s.lock| && q != k.p && s.lock[q] == -1
      && t == s.(lock := s.lock[q := c], control := s.control[c := Proc(k.p, Other(q))])
    case ChangeOther(to) =>
      k.Proc? && k.pc.Other? && k.pc.q < |s.lock| && MayChange(s.state[k.pc.q], to)
      && t == s.(state := s.state[k.pc.q := to])
    case ReleaseOther =>
      k.Proc? && k.pc.Other? && k.pc.q < |s.lock|
      && t == s.(lock := s.lock[k.pc.q := -1], control := s.control[c := Proc(k.p, Running)])
  }

  /** At boot all CPUs are in their schedulers, and no process runs. */
  predicate Init(s: State) {
    && WellFormed(s)
    && (forall c | 0 <= c < |s.control| :: s.control[c].Loop? && s.current[c] == -1)
    && (forall p | 0 <= p < |s.lock| :: s.lock[p] == -1 && s.state[p] != RUNNING && s.state[p] != ZOMBIE)
  }

  datatype Run = Start(first: State) | Then(before: Run, cpu: nat, action: Action, now: State)

  function Final(run: Run): State {
    if run.Start? then run.first else run.now
  }

  predicate IsRun(run: Run) {
    if run.Start? then Init(run.first)
    else IsRun(run.before) && WellFormed(Final(run.before)) && run.cpu < |Final(run.before).control|
         && Next(Final(run.before), run.cpu, run.action, run.now)
  }

  // The invariant, one CPU and one process at a time.

  /** The CPU holds p->lock. */
  predicate Holds(k: Control, p: nat) {
    match k
    case Loop => false
    case Proc(q, pc) => (q == p && !pc.Running? && !pc.Other?) || (pc.Other? && pc.q == p)
    case _ => k.p == p
  }

  /** The CPU makes process p a running one. */
  predicate Runs(k: Control, p: nat) {
    ((k.Chose? || k.Ready?) && k.p == p) || (k.Proc? && k.p == p && !k.pc.Leaving?)
  }

  /** The CPU executes on the kernel stack of p. */
  predicate OnStack(k: Control, p: nat) {
    k.Proc? && k.p == p
  }

  predicate CpuOk(s: State, c: nat)
    requires WellFormed(s) && c < |s.control|
  {
    var k := s.control[c];
    && s.current[c] == (if k.Ready? || k.Proc? || k.Returned? then k.p else -1)
    && (k.Proc? ==> s.saved[c] == k.p && (k.pc.Other? ==> k.pc.q < |s.lock| && k.pc.q != k.p))
    && (k.Proc? && k.pc.Leaving? ==> s.state[k.p] != RUNNING)
    && (k.Returned? || k.Cleared? ==> s.state[k.p] != RUNNING)
  }

  predicate PairOk(s: State, c: nat, p: nat)
    requires WellFormed(s) && c < |s.control| && p < |s.lock|
  {
    && (s.lock[p] == c <==> Holds(s.control[c], p))
    && (Runs(s.control[c], p) ==> s.state[p] == RUNNING)
  }

  /** No two CPUs run the same process, and a running process is run by some CPU. */
  predicate OneRuns(s: State, p: nat)
    requires WellFormed(s) && p < |s.lock|
  {
    && (forall c, d | 0 <= c < d < |s.control| :: !(Runs(s.control[c], p) && Runs(s.control[d], p)))
    && (s.state[p] == RUNNING ==> exists c :: 0 <= c < |s.control| && Runs(s.control[c], p))
    && -1 <= s.lock[p] < |s.control|
  }

  predicate Inv(s: State) {
    && WellFormed(s)
    && (forall c | 0 <= c < |s.control| :: CpuOk(s, c))
    && (forall c, p | 0 <= c < |s.control| && 0 <= p < |s.lock| :: PairOk(s, c, p))
    && (forall p | 0 <= p < |s.lock| :: OneRuns(s, p))
  }

  lemma StepKeepsInv(s: State, c: nat, a: Action, t: State)
    requires Inv(s) && c < |s.control| && Next(s, c, a, t)
    ensures Inv(t)
  {
    var k := s.control[c];
    assert CpuOk(s, c);
    assert WellFormed(t);
    forall d | 0 <= d < |t.control|
      ensures CpuOk(t, d)
    {
      assert CpuOk(s, d);
      StepKeepsCpu(s, c, a, t, d);
    }
    forall d, p | 0 <= d < |t.control| && 0 <= p < |t.lock|
      ensures PairOk(t, d, p)
    {
      StepKeepsPair(s, c, a, t, d, p);
    }
    forall p | 0 <= p < |t.lock|
      ensures OneRuns(t, p)
    {
      StepKeepsOne(s, c, a, t, p);
    }
  }

  lemma StepKeepsCpu(s: State, c: nat, a: Action, t: State, d: nat)
    requires Inv(s) && c < |s.control| && Next(s, c, a, t) && WellFormed(t) && d < |t.control|
    ensures CpuOk(t, d)
  {
    assert CpuOk(s, d) && CpuOk(s, c);
    if !s.control[d].Loop? {
      var q := s.control[d].p;
      assert PairOk(s, d, q) && PairOk(s, c, q);
    }
  }

  lemma StepKeepsPair(s: State, c: nat, a: Action, t: State, d: nat, p: nat)
    requires Inv(s) && c < |s.control| && Next(s, c, a, t) && WellFormed(t) && d < |t.control| && p < |t.lock|
    ensures PairOk(t, d, p)
  {
    assert CpuOk(s, d) && CpuOk(s, c) && PairOk(s, d, p) && PairOk(s, c, p) && OneRuns(s, p);
    assert c < d ==> !(Runs(s.control[c], p) && Runs(s.control[d], p));
    assert d < c ==> !(Runs(s.control[d], p) && Runs(s.control[c], p));
  }

  /** A step changes neither who runs p nor whether p is RUNNING, or it changes both. */
  lemma RunsAfter(s: State, c: nat, a: Action, t: State, p: nat)
    requires Inv(s) && c < |s.control| && Next(s, c, a, t) && p < |s.lock|
    ensures |t.control| == |s.control| && |t.lock| == |s.lock| == |t.state| && t.control == s.control[c := t.control[c]]
    ensures -1 <= t.lock[p] < |t.control|
    ensures Runs(t.control[c], p) == Runs(s.control[c], p) ==> (t.state[p] == RUNNING) == (s.state[p] == RUNNING)
    ensures Runs(t.control[c], p) && !Runs(s.control[c], p) ==> t.state[p] == RUNNING && s.state[p] != RUNNING
    ensures !Runs(t.control[c], p) && Runs(s.control[c], p) ==> t.state[p] != RUNNING
  {
    assert CpuOk(s, c) && OneRuns(s, p) && PairOk(s, c, p);
  }

  lemma StepKeepsOne(s: State, c: nat, a: Action, t: State, p: nat)
    requires Inv(s) && c < |s.control| && Next(s, c, a, t) && WellFormed(t) && p < |t.lock|
    ensures OneRuns(t, p)
  {
    RunsAfter(s, c, a, t, p);
    OneStillRuns(s, c, t, p);
  }

  lemma OneStillRuns(s: State, c: nat, t: State, p: nat)
    requires Inv(s) && c < |s.control| && WellFormed(t) && |t.control| == |s.control| && p < |s.lock| == |t.lock|
             && t.control == s.control[c := t.control[c]]
    requires -1 <= t.lock[p] < |t.control|
    requires Runs(t.control[c], p) == Runs(s.control[c], p) ==> (t.state[p] == RUNNING) == (s.state[p] == RUNNING)
    requires Runs(t.control[c], p) && !Runs(s.control[c], p) ==> t.state[p] == RUNNING && s.state[p] != RUNNING
    requires !Runs(t.control[c], p) && Runs(s.control[c], p) ==> t.state[p] != RUNNING
    ensures OneRuns(t, p)
  {
    hide Runs;
    assert OneRuns(s, p);
    forall d | 0 <= d < |s.control|
      ensures Runs(s.control[d], p) ==> s.state[p] == RUNNING
    {
      assert PairOk(s, d, p);
    }
    if s.state[p] == RUNNING {
      var e :| 0 <= e < |s.control| && Runs(s.control[e], p);
      assert t.state[p] == RUNNING ==> Runs(t.control[e], p);
    } else if t.state[p] == RUNNING {
      assert Runs(t.control[c], p);
    }
  }

  lemma {:induction false} RunsKeepInv(run: Run)
    requires IsRun(run)
    ensures Inv(Final(run))
  {
    if run.Then? {
      RunsKeepInv(run.before);
      StepKeepsInv(Final(run.before), run.cpu, run.action, run.now);
    }
  }

  /** What the state of a process may become. */
  predicate LifeCycle(from: ProcState, to: ProcState) {
    match from
    case UNUSED => to == USED
    case USED => to == RUNNABLE || to == UNUSED
    case RUNNABLE => to == RUNNING
    case RUNNING => to == RUNNABLE || to == SLEEPING || to == ZOMBIE
    case SLEEPING => to == RUNNABLE
    case ZOMBIE => to == UNUSED
  }

  /** The last step of a run, whatever it is. A process changes its state as its life goes, and only by a CPU that holds
      its p->lock; it begins to run only where a scheduler has found it RUNNABLE, and stops only by its own doing. */
  lemma StepsFollowLifeCycle(run: Run, p: nat)
    requires IsRun(run) && run.Then? && p < |run.now.state|
    ensures var s, t, c := Final(run.before), run.now, run.cpu;
            && WellFormed(s) && WellFormed(t) && |s.state| == |t.state| && |s.control| == |t.control|
            && (s.state[p] == t.state[p] || (LifeCycle(s.state[p], t.state[p]) && s.lock[p] == c))
            && (s.state[p] != RUNNING && t.state[p] == RUNNING ==>
                  s.state[p] == RUNNABLE && s.control[c] == Look(p) && t.control[c] == Chose(p))
            && (s.state[p] == RUNNING && t.state[p] != RUNNING ==> s.current[c] == p && OnStack(s.control[c], p))
  {
    RunsKeepInv(run.before);
    var s, c := Final(run.before), run.cpu;
    StepKeepsInv(s, c, run.action, run.now);
    assert CpuOk(s, c) && PairOk(s, c, p) && OneRuns(s, p);
  }

  /** A scheduler that has looked at a process takes it if it is RUNNABLE, and passes on if it is not: it never gives up
      the p->lock of a RUNNABLE process that it has not run. */
  lemma SchedulerDecides(run: Run)
    requires IsRun(run) && run.Then?
    ensures run.cpu < |Final(run.before).control| && WellFormed(Final(run.before)) && WellFormed(run.now)
    ensures Final(run.before).control[run.cpu].Look? ==>
              var s, t, c := Final(run.before), run.now, run.cpu;
              var p := s.control[c].p;
              && |t.state| == |s.state|
              && if s.state[p] == RUNNABLE then t.state[p] == RUNNING && t.lock[p] == c
                 else t.state[p] == s.state[p] && t.lock[p] == -1
  {
    RunsKeepInv(run.before);
    var s, c := Final(run.before), run.cpu;
    StepKeepsInv(s, c, run.action, run.now);
    if s.control[c].Look? {
      assert CpuOk(s, c) && PairOk(s, c, s.control[c].p);
    }
  }

  /** A CPU that holds a p->lock can take a step, whatever the others hold: there is no deadlock over these locks. */
  lemma HolderCanStep(run: Run, c: nat, p: nat)
    requires IsRun(run) && c < |Final(run).control| && p < |Final(run).lock| && Final(run).lock[p] == c
    ensures WellFormed(Final(run)) && exists a, t :: Next(Final(run), c, a, t)
  {
    RunsKeepInv(run);
    var s := Final(run);
    var k := s.control[c];
    assert CpuOk(s, c) && PairOk(s, c, p);
    var free := s.lock[p := -1];
    if k.Look? && s.state[p] == RUNNABLE {
      assert Next(s, c, Choose, s.(state := s.state[p := RUNNING], control := s.control[c := Chose(p)]));
    } else if k.Look? {
      assert Next(s, c, Skip, s.(lock := free, control := s.control[c := Loop]));
    } else if k.Wake? {
      assert Next(s, c, ReleaseWoken, s.(lock := free, control := s.control[c := Loop]));
    } else if k.Cleared? {
      assert Next(s, c, ReleaseCleared, s.(lock := free, control := s.control[c := Loop]));
    } else if k.Chose? {
      assert Next(s, c, SetCurrent, s.(current := s.current[c := p], control := s.control[c := Ready(p)]));
    } else if k.Ready? {
      assert Next(s, c, SwitchTo, s.(saved := s.saved[c := p], control := s.control[c := Proc(p, Resumed)]));
    } else if k.Returned? {
      assert Next(s, c, ClearCurrent, s.(current := s.current[c := -1], control := s.control[c := Cleared(p)]));
    } else if k.pc.Leaving? {
      assert Next(s, c, SwitchBack, s.(control := s.control[c := Returned(s.saved[c])]));
    } else if k.pc.Other? {
      assert Next(s, c, ReleaseOther, s.(lock := free, control := s.control[c := Proc(k.p, Running)]));
    } else {
      assert Next(s, c, ReleaseOwn, s.(lock := free, control := s.control[c := Proc(p, Running)]));
    }
  }

  /** Whenever p->lock is free, p is RUNNING if and only if exactly one CPU has c->proc == p, and otherwise none has. */
  lemma HandOff(run: Run, p: nat)
    requires IsRun(run) && p < |Final(run).lock| && Final(run).lock[p] == -1
    ensures WellFormed(Final(run))
    ensures Final(run).state[p] == RUNNING <==> exists c :: 0 <= c < |Final(run).control| && Final(run).current[c] == p
    ensures forall c, d | 0 <= c < d < |Final(run).control| ::
              !(Final(run).current[c] == p && Final(run).current[d] == p)
  {
    RunsKeepInv(run);
    FreeLockHandOff(Final(run), p);
  }

  lemma FreeLockHandOff(s: State, p: nat)
    requires Inv(s) && p < |s.lock| && s.lock[p] == -1
    ensures s.state[p] == RUNNING <==> exists c :: 0 <= c < |s.control| && s.current[c] == p
    ensures forall c, d | 0 <= c < d < |s.control| :: !(s.current[c] == p && s.current[d] == p)
  {
    assert OneRuns(s, p);
    forall c | 0 <= c < |s.control|
      ensures s.current[c] == p <==> Runs(s.control[c], p)
      ensures Runs(s.control[c], p) ==> s.state[p] == RUNNING
    {
      assert CpuOk(s, c) && PairOk(s, c, p);
    }
    if s.state[p] == RUNNING {
      var c :| 0 <= c < |s.control| && Runs(s.control[c], p);
      assert s.current[c] == p;
    }
  }

  /** A thread that has found a ZOMBIE under its p->lock, as wait does before it frees it, can be sure that no CPU is
      still on the kernel stack of the zombie. */
  lemma ZombieOffStack(run: Run, c: nat, d: nat)
    requires IsRun(run) && c < |Final(run).control| && d < |Final(run).control|
    requires Final(run).control[c].Proc? && Final(run).control[c].pc.Other?
    requires var q := Final(run).control[c].pc.q; q < |Final(run).state| && Final(run).state[q] == ZOMBIE
    ensures !OnStack(Final(run).control[d], Final(run).control[c].pc.q)
  {
    RunsKeepInv(run);
    var s := Final(run);
    var q := s.control[c].pc.q;
    assert CpuOk(s, c) && CpuOk(s, d) && PairOk(s, c, q) && PairOk(s, d, q);
  }

  /** When a scheduler is about to switch to a process, no CPU is on the kernel stack of that process. */
  lemma SwitchIsSafe(run: Run, c: nat, d: nat)
    requires IsRun(run) && c < |Final(run).control| && d < |Final(run).control| && Final(run).control[c].Ready?
    ensures !OnStack(Final(run).control[d], Final(run).control[c].p)
  {
    RunsKeepInv(run);
    var s := Final(run);
    var p := s.control[c].p;
    assert PairOk(s, c, p) && PairOk(s, d, p) && OneRuns(s, p);
    var x, y := if c < d then c else d, if c < d then d else c;
    assert x < y ==> !(Runs(s.control[x], p) && Runs(s.control[y], p));
  }

  /** sched's checks never fail: the process holds its p->lock and no other, and is not RUNNING. swtch then returns to a
      scheduler whose variable p is the process that has left. */
  lemma SwitchBackFindsP(run: Run, c: nat)
    requires IsRun(run) && c < |Final(run).control| && Final(run).control[c].Proc? && Final(run).control[c].pc.Leaving?
    ensures var s := Final(run); var p := s.control[c].p;
                                 && WellFormed(s) && s.saved[c] == p && s.state[p] != RUNNING && s.current[c] == p
                                 && forall q | 0 <= q < |s.lock| :: s.lock[q] == c <==> q == p
  {
    RunsKeepInv(run);
    var s := Final(run);
    assert CpuOk(s, c);
    forall q | 0 <= q < |s.lock|
      ensures s.lock[q] == c <==> q == s.control[c].p
    {
      assert PairOk(s, c, q);
    }
  }
}
