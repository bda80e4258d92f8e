/** fork, exit and wait (kernel/proc.c) around wait_lock, for any number of processes and every interleaving. Process 0
    is initproc. kill may wake a sleeper at any time. */
module ProcessTree {
  /** LIVE stands for RUNNABLE, RUNNING and SLEEPING. */
  datatype ProcState = UNUSED | USED | LIVE | ZOMBIE

  datatype Pc =
    | Slot  // no thread yet, or no longer
    | Out  // not in this code
    | Fork1(q: nat)  // allocproc has claimed slot q
    | Fork2(q: nat)  // holds wait_lock
    | Fork3(q: nat)  // has set the parent of q, and released wait_lock
    | Exit1(i: nat)  // reparent is at slot i; from here to Exit4 wait_lock is held
    | Exit1w(i: nat, k: nat)  // has given slot i to init; wakeup(initproc) is at slot k
    | Exit2(k: nat)  // wakeup(p->parent) is at slot k
    | Exit3
    | Exit4  // holds its p->lock, and is a ZOMBIE
    | Exit5  // has released wait_lock
    | Dead  // switched away for good
    | Wait1(i: nat, kids: bool)  // scanning slot i; from here to Wait3 wait_lock is held
    | Wait2(i: nat, kids: bool)  // holds the lock of child i
    | Wait3  // sleep: holds its own p->lock
    | Wait4  // has released wait_lock
    | Wait5  // has set p->state = SLEEPING
    | Off
    | Resumed  // switched to again, with its p->lock
    | Again

  /** asleep: p->state == SLEEPING && p->chan == p, as wait sleeps. */
  datatype State = State(wl: int, lock: seq<int>, parent: seq<int>, state: seq<ProcState>, asleep: seq<bool>,
                         killed: seq<bool>, pc: seq<Pc>)

  datatype Action =
    | ForkAlloc(q: nat) | ForkFail | ForkLock | ForkParent | ForkRun
    | ExitEnter | Reparent | VisitInit | EndVisitInit | EndReparent | VisitParent | EndVisitParent | SetZombie
    | ExitRelease | Die
    | WaitEnter | Scan | ScanLock | ScanNext | Reap | WaitFail | WaitNone | WaitSleep | WaitRelease | WaitAsleep
    | WaitOff
    | Kill(victim: nat) | Resume | Tidy

  predicate WellFormed(s: State) {
    |s.lock| == |s.parent| == |s.state| == |s.asleep| == |s.killed| == |s.pc| && |s.pc| > 0
  }

  /** One turn of wakeup(chan) by p, which skips p itself. */
  function Visited(s: State, p: nat, k: nat, chan: int): (asleep: seq<bool>)
    requires k < |s.asleep|
  {
    if k != p && k == chan then s.asleep[k := false] else s.asleep
  }

  predicate MayVisit(s: State, p: nat, k: nat)
    requires WellFormed(s)
  {
    k < |s.pc| && (k == p || s.lock[k] == -1)
  }

  predicate ForkStep(s: State, p: nat, a: Action, t: State)
    requires WellFormed(s) && p < |s.pc|
  {
    var k := s.pc[p];
    match a
    case ForkAlloc(q) =>
      && k.Out? && q < |s.pc| && s.state[q] == UNUSED && s.lock[q] == -1
      && t == s.(state := s.state[q := USED], pc := s.pc[p := Fork1(q)])
    case ForkFail => k.Fork1? && k.q < |s.pc| && s.lock[k.q] == -1
                     && t == s.(state := s.state[k.q := UNUSED], pc := s.pc[p := Out])
    case ForkLock => k.Fork1? && s.wl == -1 && t == s.(wl := p, pc := s.pc[p := Fork2(k.q)])
    case ForkParent => k.Fork2? && k.q < |s.pc|
                       && t == s.(wl := -1, parent := s.parent[k.q := p], pc := s.pc[p := Fork3(k.q)])
    case ForkRun => k.Fork3? && k.q < |s.pc| && s.lock[k.q] == -1
                    && t == s.(state := s.state[k.q := LIVE], pc := s.pc[k.q := Out][p := Out])
    case _ => false
  }

  predicate ExitStep(s: State, p: nat, a: Action, t: State)
    requires WellFormed(s) && p < |s.pc|
  {
    var k := s.pc[p];
    match a
    case ExitEnter => k.Out? && p != 0 && s.wl == -1 && t == s.(wl := p, pc := s.pc[p := Exit1(0)])
    case Reparent =>
      && k.Exit1? && k.i < |s.pc|
      && t == if s.parent[k.i] == p then s.(parent := s.parent[k.i := 0], pc := s.pc[p := Exit1w(k.i, 0)])
              else s.(pc := s.pc[p := Exit1(k.i + 1)])
    case VisitInit => k.Exit1w? && MayVisit(s, p, k.k)
                      && t == s.(asleep := Visited(s, p, k.k, 0), pc := s.pc[p := Exit1w(k.i, k.k + 1)])
    case EndVisitInit => k.Exit1w? && k.k == |s.pc| && t == s.(pc := s.pc[p := Exit1(k.i + 1)])
    case EndReparent => k == Exit1(|s.pc|) && t == s.(pc := s.pc[p := Exit2(0)])
    case VisitParent => k.Exit2? && MayVisit(s, p, k.k)
                        && t == s.(asleep := Visited(s, p, k.k, s.parent[p]), pc := s.pc[p := Exit2(k.k + 1)])
    case EndVisitParent => k == Exit2(|s.pc|) && t == s.(pc := s.pc[p := Exit3])
    case SetZombie => k.Exit3? && s.lock[p] == -1
                      && t == s.(lock := s.lock[p := p], state := s.state[p := ZOMBIE], pc := s.pc[p := Exit4])
    case ExitRelease => k.Exit4? && t == s.(wl := -1, pc := s.pc[p := Exit5])
    case Die => k.Exit5? && t == s.(lock := s.lock[p := -1], pc := s.pc[p := Dead])
    case _ => false
  }

  predicate WaitStep(s: State, p: nat, a: Action, t: State)
    requires WellFormed(s) && p < |s.pc|
  {
    var k := s.pc[p];
    match a
    case WaitEnter => (k.Out? || k.Again?) && s.wl == -1 && t == s.(wl := p, pc := s.pc[p := Wait1(0, false)])
    case Scan => k.Wait1? && k.i < |s.pc| && s.parent[k.i] != p && t == s.(pc := s.pc[p := Wait1(k.i + 1, k.kids)])
    case ScanLock =>
      && k.Wait1? && k.i < |s.pc| && s.parent[k.i] == p && s.lock[k.i] == -1
      && t == s.(lock := s.lock[k.i := p], pc := s.pc[p := Wait2(k.i, true)])
    case ScanNext =>
      k.Wait2? && k.i < |s.pc| && s.state[k.i] != ZOMBIE
      && t == s.(lock := s.lock[k.i := -1], pc := s.pc[p := Wait1(k.i + 1, k.kids)])
    case Reap =>
      && k.Wait2? && k.i < |s.pc| && s.state[k.i] == ZOMBIE
      && t == s.(wl := -1, lock := s.lock[k.i := -1], parent := s.parent[k.i := -1], state := s.state[k.i := UNUSED],
              killed := s.killed[k.i := false], pc := s.pc[k.i := Slot][p := Out])
    case WaitFail =>
      k.Wait2? && k.i < |s.pc| && s.state[k.i] == ZOMBIE
      && t == s.(wl := -1, lock := s.lock[k.i := -1], pc := s.pc[p := Out])
    case WaitNone => k.Wait1? && k.i == |s.pc| && (!k.kids || s.killed[p]) && t == s.(wl := -1, pc := s.pc[p := Out])
    case _ => false
  }

  predicate SleepStep(s: State, p: nat, a: Action, t: State)
    requires WellFormed(s) && p < |s.pc|
  {
    var k := s.pc[p];
    match a
    case WaitSleep => k == Wait1(|s.pc|, true) && s.lock[p] == -1
                      && t == s.(lock := s.lock[p := p], pc := s.pc[p := Wait3])
    case WaitRelease => k.Wait3? && t == s.(wl := -1, pc := s.pc[p := Wait4])
    case WaitAsleep => k.Wait4? && t == s.(asleep := s.asleep[p := true], pc := s.pc[p := Wait5])
    case WaitOff => k.Wait5? && t == s.(lock := s.lock[p := -1], pc := s.pc[p := Off])
    case Kill(q) => q < |s.pc| && s.lock[q] == -1
                    && t == s.(asleep := s.asleep[q := false], killed := s.killed[q := true])
    case Resume => k.Off? && !s.asleep[p] && s.lock[p] == -1
                   && t == s.(lock := s.lock[p := p], pc := s.pc[p := Resumed])
    case Tidy => k.Resumed? && t == s.(lock := s.lock[p := -1], pc := s.pc[p := Again])
    case _ => false
  }

  predicate Next(s: State, p: nat, a: Action, t: State)
    requires WellFormed(s) && p < |s.pc|
  {
    ForkStep(s, p, a, t) || ExitStep(s, p, a, t) || WaitStep(s, p, a, t) || SleepStep(s, p, a, t)
  }

  /** After boot there is just init. */
  predicate Init(s: State) {
    && WellFormed(s) && s.wl == -1
    && forall p | 0 <= p < |s.pc| ::
         s.lock[p] == -1 && s.parent[p] == -1 && !s.asleep[p] && s.state[p] == (if p == 0 then LIVE else UNUSED)
         && s.pc[p] == if p == 0 then Out else Slot
  }

  datatype Run = Start(first: State) | Then(before: Run, p: nat, action: Action, now: State)

  function Final(run: Run): State {
    if run.Start? then run.first else run.now
  }

  predicate IsRun(run: Run) {
    if run.Start? then Init(run.first)
    else IsRun(run.before) && WellFormed(Final(run.before)) && run.p < |Final(run.before).pc|
         && Next(Final(run.before), run.p, run.action, run.now)
  }

  // The invariant.

  predicate HoldsWaitLock(k: Pc) {
    k.Fork2? || k.Exit1? || k.Exit1w? || k.Exit2? || k.Exit3? || k.Exit4? || k.Wait1? || k.Wait2? || k.Wait3?
  }

  predicate HoldsOwn(k: Pc) {
    k.Exit4? || k.Exit5? || k.Wait3? || k.Wait4? || k.Wait5? || k.Resumed?
  }

  predicate Forks(k: Pc, q: nat) {
    (k.Fork1? || k.Fork2? || k.Fork3?) && k.q == q
  }

  /** Process p sleeps in wait, or has decided to. */
  predicate Sleeps(s: State, p: nat)
    requires WellFormed(s) && p < |s.pc|
  {
    s.pc[p].Wait4? || s.asleep[p]
  }

  /** The locks a process holds. */
  predicate LocksOk(s: State, p: nat)
    requires WellFormed(s) && p < |s.pc|
  {
    && (s.wl == p <==> HoldsWaitLock(s.pc[p]))
    && (s.lock[p] == p ==> HoldsOwn(s.pc[p]) || (s.pc[p].Wait2? && s.pc[p].i == p))
    && (HoldsOwn(s.pc[p]) ==> s.lock[p] == p)
    && (s.pc[p].Wait2? ==> s.pc[p].i < |s.pc| && s.lock[s.pc[p].i] == p && s.parent[s.pc[p].i] == p)
  }

  /** What the state of a process says about its thread and its parent. */
  predicate StatusOk(s: State, p: nat)
    requires WellFormed(s) && p < |s.pc|
  {
    && (s.asleep[p] ==> s.pc[p].Wait5? || s.pc[p].Off?)
    && (s.state[p] == ZOMBIE <==> s.pc[p].Exit4? || s.pc[p].Exit5? || s.pc[p].Dead?)
    && (s.state[p] == UNUSED || s.state[p] == USED <==> s.pc[p].Slot?)
    && -1 <= s.parent[p] < |s.pc|
    && (p == 0 ==> s.state[p] == LIVE && !(s.pc[p].Exit1? || s.pc[p].Exit1w? || s.pc[p].Exit2? || s.pc[p].Exit3?))
    && (p != 0 && (s.state[p] == LIVE || s.state[p] == ZOMBIE) ==> s.parent[p] >= 0)
    && (s.state[p] == UNUSED ==> s.parent[p] == -1)
  }

  predicate SelfOk(s: State, p: nat)
    requires WellFormed(s) && p < |s.pc|
  {
    LocksOk(s, p) && StatusOk(s, p)
  }

  /** A forking process and the slot it has claimed. */
  predicate ForkOk(s: State, p: nat, q: nat)
    requires WellFormed(s) && p < |s.pc| && q < |s.pc|
  {
    && (Forks(s.pc[p], q) ==> s.state[q] == USED && (s.pc[p].Fork3? ==> s.parent[q] == p)
                              && (!s.pc[p].Fork3? ==> s.parent[q] == -1))
    && (s.state[q] == USED && s.parent[q] == p ==> s.pc[p] == Fork3(q))
  }

  /** No two processes claim the same slot. */
  predicate OneForks(s: State, q: nat)
    requires WellFormed(s) && q < |s.pc|
  {
    forall p, r | 0 <= p < r < |s.pc| :: !(Forks(s.pc[p], q) && Forks(s.pc[r], q))
  }

  /** A process p with a child q is alive, will give q away before it is not, and does not overlook q in wait. */
  predicate TreeOk(s: State, p: nat, q: nat)
    requires WellFormed(s) && p < |s.pc| && q < |s.pc|
  {
    s.parent[q] == p ==>
      && s.state[p] == LIVE && s.state[q] != UNUSED
      && (s.pc[p].Wait1? && q < s.pc[p].i ==> s.pc[p].kids) && (s.pc[p].Wait2? ==> s.pc[p].kids)
      && (s.pc[p].Exit1? ==> q >= s.pc[p].i) && (s.pc[p].Exit1w? ==> q > s.pc[p].i) && !s.pc[p].Exit2?
      && !s.pc[p].Exit3?
  }

  /** If p sleeps and its child q is a zombie, then p is init and about to be woken; and wait has not overlooked q. */
  predicate WatchOk(s: State, p: nat, q: nat)
    requires WellFormed(s) && p < |s.pc| && q < |s.pc|
  {
    s.parent[q] == p ==>
      && (s.state[q] == ZOMBIE && Sleeps(s, p)
          ==> p == 0 && 0 <= s.wl < |s.pc| && s.pc[s.wl].Exit1w? && s.pc[s.wl].k == 0)
      && (s.pc[q].Exit2? && s.pc[q].k > p ==> !Sleeps(s, p)) && (s.pc[q].Exit3? ==> !Sleeps(s, p))
      && ((s.pc[p].Wait1? || s.pc[p].Wait2?) && q < s.pc[p].i ==> s.state[q] != ZOMBIE)
      && (s.pc[p].Wait3? ==> s.state[q] != ZOMBIE)
  }

  predicate Inv(s: State) {
    && WellFormed(s) && -1 <= s.wl < |s.pc|
    && (forall p | 0 <= p < |s.pc| :: SelfOk(s, p) && OneForks(s, p))
    && (forall p, q | 0 <= p < |s.pc| && 0 <= q < |s.pc| :: ForkOk(s, p, q) && TreeOk(s, p, q) && WatchOk(s, p, q))
  }

  lemma StepKeepsForm(s: State, p: nat, a: Action, t: State)
    requires Inv(s) && p < |s.pc| && Next(s, p, a, t)
    ensures WellFormed(t) && |t.pc| == |s.pc| && -1 <= t.wl < |t.pc|
  {
    hide LocksOk, StatusOk, ForkOk, TreeOk, WatchOk, OneForks;
  }

  // What the steps keep, of the acting process p and of others.

  lemma ForkKeepsLocks(s: State, p: nat, a: Action, t: State, x: nat)
    requires WellFormed(s) && p < |s.pc| && ForkStep(s, p, a, t) && WellFormed(t) && |t.pc| == |s.pc| && x < |s.pc|
    requires SelfOk(s, p) && SelfOk(s, x) && ForkOk(s, p, x)
    requires (s.pc[p].Fork1? || s.pc[p].Fork2? || s.pc[p].Fork3?) && s.pc[p].q < |s.pc|
             ==> SelfOk(s, s.pc[p].q) && ForkOk(s, p, s.pc[p].q)
    ensures LocksOk(t, x)
  {
  }

  lemma ForkKeepsStatus(s: State, p: nat, a: Action, t: State, x: nat)
    requires WellFormed(s) && p < |s.pc| && ForkStep(s, p, a, t) && WellFormed(t) && |t.pc| == |s.pc| && x < |s.pc|
    requires SelfOk(s, p) && SelfOk(s, x) && ForkOk(s, p, x) && TreeOk(s, p, x)
    requires (s.pc[p].Fork1? || s.pc[p].Fork2? || s.pc[p].Fork3?) && s.pc[p].q < |s.pc|
             ==> SelfOk(s, s.pc[p].q) && ForkOk(s, p, s.pc[p].q)
    ensures StatusOk(t, x)
  {
  }

  lemma ForkKeepsFork(s: State, p: nat, a: Action, t: State, x: nat, y: nat)
    requires WellFormed(s) && p < |s.pc| && ForkStep(s, p, a, t) && WellFormed(t) && |t.pc| == |s.pc| && x < |s.pc|
             && y < |s.pc|
    requires SelfOk(s, p) && SelfOk(s, x) && SelfOk(s, y) && ForkOk(s, p, x) && ForkOk(s, p, y) && ForkOk(s, x, y)
             && OneForks(s, y)
    ensures ForkOk(t, x, y)
  {
  }

  lemma ForkKeepsTree(s: State, p: nat, a: Action, t: State, x: nat, y: nat)
    requires WellFormed(s) && p < |s.pc| && ForkStep(s, p, a, t) && WellFormed(t) && |t.pc| == |s.pc| && x < |s.pc|
             && y < |s.pc|
    requires SelfOk(s, p) && SelfOk(s, x) && SelfOk(s, y) && ForkOk(s, p, x) && ForkOk(s, p, y) && TreeOk(s, x, y)
    requires (s.pc[p].Fork1? || s.pc[p].Fork2? || s.pc[p].Fork3?) && s.pc[p].q < |s.pc|
             ==> SelfOk(s, s.pc[p].q) && ForkOk(s, p, s.pc[p].q)
    ensures TreeOk(t, x, y)
  {
  }

  lemma ForkKeepsWatch(s: State, p: nat, a: Action, t: State, x: nat, y: nat)
    requires WellFormed(s) && p < |s.pc| && ForkStep(s, p, a, t) && WellFormed(t) && |t.pc| == |s.pc| && x < |s.pc|
             && y < |s.pc|
    requires SelfOk(s, p) && SelfOk(s, x) && SelfOk(s, y) && ForkOk(s, p, x) && ForkOk(s, p, y) && TreeOk(s, x, y)
             && WatchOk(s, x, y)
    requires -1 <= s.wl < |s.pc| && (s.wl >= 0 ==> SelfOk(s, s.wl))
    requires (s.pc[p].Fork1? || s.pc[p].Fork2? || s.pc[p].Fork3?) && s.pc[p].q < |s.pc|
             ==> SelfOk(s, s.pc[p].q) && ForkOk(s, p, s.pc[p].q)
    ensures WatchOk(t, x, y)
  {
  }

  lemma ExitKeepsLocks(s: State, p: nat, a: Action, t: State, x: nat)
    requires WellFormed(s) && p < |s.pc| && ExitStep(s, p, a, t) && WellFormed(t) && |t.pc| == |s.pc| && x < |s.pc|
    requires SelfOk(s, p) && SelfOk(s, x) && ForkOk(s, p, x)
    ensures LocksOk(t, x)
  {
  }

  lemma ExitKeepsStatus(s: State, p: nat, a: Action, t: State, x: nat)
    requires WellFormed(s) && p < |s.pc| && ExitStep(s, p, a, t) && WellFormed(t) && |t.pc| == |s.pc| && x < |s.pc|
    requires SelfOk(s, p) && SelfOk(s, x) && ForkOk(s, p, x) && TreeOk(s, p, x)
    ensures StatusOk(t, x)
  {
  }

  lemma ExitKeepsFork(s: State, p: nat, a: Action, t: State, x: nat, y: nat)
    requires WellFormed(s) && p < |s.pc| && ExitStep(s, p, a, t) && WellFormed(t) && |t.pc| == |s.pc| && x < |s.pc|
             && y < |s.pc|
    requires SelfOk(s, p) && SelfOk(s, x) && SelfOk(s, y) && ForkOk(s, p, x) && ForkOk(s, p, y) && ForkOk(s, x, y)
             && OneForks(s, y)
    ensures ForkOk(t, x, y)
  {
  }

  lemma ExitKeepsTree(s: State, p: nat, a: Action, t: State, x: nat, y: nat)
    requires WellFormed(s) && p < |s.pc| && ExitStep(s, p, a, t) && WellFormed(t) && |t.pc| == |s.pc| && x < |s.pc|
             && y < |s.pc|
    requires SelfOk(s, p) && SelfOk(s, x) && SelfOk(s, y) && ForkOk(s, p, x) && ForkOk(s, p, y) && TreeOk(s, x, y)
    ensures TreeOk(t, x, y)
  {
  }

  lemma ExitKeepsWatch(s: State, p: nat, a: Action, t: State, x: nat, y: nat)
    requires WellFormed(s) && p < |s.pc| && ExitStep(s, p, a, t) && WellFormed(t) && |t.pc| == |s.pc| && x < |s.pc|
             && y < |s.pc|
    requires SelfOk(s, p) && SelfOk(s, x) && SelfOk(s, y) && ForkOk(s, p, x) && ForkOk(s, p, y) && TreeOk(s, x, y)
             && WatchOk(s, x, y)
    requires -1 <= s.wl < |s.pc| && (s.wl >= 0 ==> SelfOk(s, s.wl))
    ensures WatchOk(t, x, y)
  {
  }

  lemma WaitKeepsLocks(s: State, p: nat, a: Action, t: State, x: nat)
    requires WellFormed(s) && p < |s.pc| && WaitStep(s, p, a, t) && WellFormed(t) && |t.pc| == |s.pc| && x < |s.pc|
    requires SelfOk(s, p) && SelfOk(s, x) && ForkOk(s, p, x)
    requires s.pc[p].Wait2? && s.pc[p].i < |s.pc| ==> SelfOk(s, s.pc[p].i)
    ensures LocksOk(t, x)
  {
  }

  lemma WaitKeepsStatus(s: State, p: nat, a: Action, t: State, x: nat)
    requires WellFormed(s) && p < |s.pc| && WaitStep(s, p, a, t) && WellFormed(t) && |t.pc| == |s.pc| && x < |s.pc|
    requires SelfOk(s, p) && SelfOk(s, x) && ForkOk(s, p, x) && TreeOk(s, p, x)
    requires s.pc[p].Wait2? && s.pc[p].i < |s.pc| ==> SelfOk(s, s.pc[p].i)
    ensures StatusOk(t, x)
  {
  }

  lemma WaitKeepsFork(s: State, p: nat, a: Action, t: State, x: nat, y: nat)
    requires WellFormed(s) && p < |s.pc| && WaitStep(s, p, a, t) && WellFormed(t) && |t.pc| == |s.pc| && x < |s.pc|
             && y < |s.pc|
    requires SelfOk(s, p) && SelfOk(s, x) && SelfOk(s, y) && ForkOk(s, p, x) && ForkOk(s, p, y) && ForkOk(s, x, y)
             && OneForks(s, y)
    ensures ForkOk(t, x, y)
  {
  }

  lemma WaitKeepsTree(s: State, p: nat, a: Action, t: State, x: nat, y: nat)
    requires WellFormed(s) && p < |s.pc| && WaitStep(s, p, a, t) && WellFormed(t) && |t.pc| == |s.pc| && x < |s.pc|
             && y < |s.pc|
    requires SelfOk(s, p) && SelfOk(s, x) && SelfOk(s, y) && ForkOk(s, p, x) && ForkOk(s, p, y) && TreeOk(s, x, y)
    requires s.pc[p].Wait2? && s.pc[p].i < |s.pc| ==> SelfOk(s, s.pc[p].i)
    ensures TreeOk(t, x, y)
  {
  }

  lemma WaitKeepsWatch(s: State, p: nat, a: Action, t: State, x: nat, y: nat)
    requires WellFormed(s) && p < |s.pc| && WaitStep(s, p, a, t) && WellFormed(t) && |t.pc| == |s.pc| && x < |s.pc|
             && y < |s.pc|
    requires SelfOk(s, p) && SelfOk(s, x) && SelfOk(s, y) && ForkOk(s, p, x) && ForkOk(s, p, y) && TreeOk(s, x, y)
             && WatchOk(s, x, y)
    requires -1 <= s.wl < |s.pc| && (s.wl >= 0 ==> SelfOk(s, s.wl))
    requires s.pc[p].Wait2? && s.pc[p].i < |s.pc| ==> SelfOk(s, s.pc[p].i)
    ensures WatchOk(t, x, y)
  {
  }

  lemma SleepKeepsLocks(s: State, p: nat, a: Action, t: State, x: nat)
    requires WellFormed(s) && p < |s.pc| && SleepStep(s, p, a, t) && WellFormed(t) && |t.pc| == |s.pc| && x < |s.pc|
    requires SelfOk(s, p) && SelfOk(s, x) && ForkOk(s, p, x)
    ensures LocksOk(t, x)
  {
  }

  lemma SleepKeepsStatus(s: State, p: nat, a: Action, t: State, x: nat)
    requires WellFormed(s) && p < |s.pc| && SleepStep(s, p, a, t) && WellFormed(t) && |t.pc| == |s.pc| && x < |s.pc|
    requires SelfOk(s, p) && SelfOk(s, x) && ForkOk(s, p, x) && TreeOk(s, p, x)
    ensures StatusOk(t, x)
  {
  }

  lemma SleepKeepsFork(s: State, p: nat, a: Action, t: State, x: nat, y: nat)
    requires WellFormed(s) && p < |s.pc| && SleepStep(s, p, a, t) && WellFormed(t) && |t.pc| == |s.pc| && x < |s.pc|
             && y < |s.pc|
    requires SelfOk(s, p) && SelfOk(s, x) && SelfOk(s, y) && ForkOk(s, p, x) && ForkOk(s, p, y) && ForkOk(s, x, y)
             && OneForks(s, y)
    ensures ForkOk(t, x, y)
  {
  }

  lemma SleepKeepsTree(s: State, p: nat, a: Action, t: State, x: nat, y: nat)
    requires WellFormed(s) && p < |s.pc| && SleepStep(s, p, a, t) && WellFormed(t) && |t.pc| == |s.pc| && x < |s.pc|
             && y < |s.pc|
    requires SelfOk(s, p) && SelfOk(s, x) && SelfOk(s, y) && ForkOk(s, p, x) && ForkOk(s, p, y) && TreeOk(s, x, y)
    ensures TreeOk(t, x, y)
  {
  }

  lemma SleepKeepsWatch(s: State, p: nat, a: Action, t: State, x: nat, y: nat)
    requires WellFormed(s) && p < |s.pc| && SleepStep(s, p, a, t) && WellFormed(t) && |t.pc| == |s.pc| && x < |s.pc|
             && y < |s.pc|
    requires SelfOk(s, p) && SelfOk(s, x) && SelfOk(s, y) && ForkOk(s, p, x) && ForkOk(s, p, y) && TreeOk(s, x, y)
             && WatchOk(s, x, y)
    requires -1 <= s.wl < |s.pc| && (s.wl >= 0 ==> SelfOk(s, s.wl))
    ensures WatchOk(t, x, y)
  {
  }

  lemma StepKeepsOneForks(s: State, p: nat, a: Action, t: State, y: nat)
    requires WellFormed(s) && p < |s.pc| && Next(s, p, a, t) && WellFormed(t) && |t.pc| == |s.pc| && y < |s.pc|
    requires OneForks(s, y) && (forall x | 0 <= x < |s.pc| :: ForkOk(s, x, y))
    ensures OneForks(t, y)
  {
    forall x | 0 <= x < |s.pc|
      ensures Forks(t.pc[x], y) ==> Forks(s.pc[x], y) || (x == p && s.state[y] == UNUSED)
    {
    }
    forall x | 0 <= x < |s.pc|
      ensures Forks(s.pc[x], y) ==> s.state[y] == USED
    {
      assert ForkOk(s, x, y);
    }
    hide Next, ForkOk;
  }

  lemma StepKeepsSelf(s: State, p: nat, a: Action, t: State, x: nat)
    requires Inv(s) && p < |s.pc| && Next(s, p, a, t) && WellFormed(t) && |t.pc| == |s.pc| && x < |s.pc|
    ensures SelfOk(t, x)
  {
    hide LocksOk, StatusOk, ForkOk, TreeOk, WatchOk, OneForks, ForkStep, ExitStep, WaitStep, SleepStep;
    assert SelfOk(s, p) && SelfOk(s, x) && ForkOk(s, p, x) && TreeOk(s, p, x);
    var k := s.pc[p];
    assert (k.Fork1? || k.Fork2? || k.Fork3?) && k.q < |s.pc| ==> SelfOk(s, k.q) && ForkOk(s, p, k.q);
    assert k.Wait2? && k.i < |s.pc| ==> SelfOk(s, k.i);
    if ForkStep(s, p, a, t) {
      ForkKeepsLocks(s, p, a, t, x);
      ForkKeepsStatus(s, p, a, t, x);
    } else if ExitStep(s, p, a, t) {
      ExitKeepsLocks(s, p, a, t, x);
      ExitKeepsStatus(s, p, a, t, x);
    } else if WaitStep(s, p, a, t) {
      WaitKeepsLocks(s, p, a, t, x);
      WaitKeepsStatus(s, p, a, t, x);
    } else {
      SleepKeepsLocks(s, p, a, t, x);
      SleepKeepsStatus(s, p, a, t, x);
    }
  }

  lemma StepKeepsPair(s: State, p: nat, a: Action, t: State, x: nat, y: nat)
    requires Inv(s) && p < |s.pc| && Next(s, p, a, t) && WellFormed(t) && |t.pc| == |s.pc| && x < |s.pc| && y < |s.pc|
    ensures ForkOk(t, x, y) && TreeOk(t, x, y) && WatchOk(t, x, y)
  {
    hide LocksOk, StatusOk, ForkOk, TreeOk, WatchOk, OneForks, ForkStep, ExitStep, WaitStep, SleepStep;
    assert SelfOk(s, p) && SelfOk(s, x) && SelfOk(s, y) && ForkOk(s, p, x) && ForkOk(s, p, y) && ForkOk(s, x, y)
           && OneForks(s, y);
    assert TreeOk(s, x, y) && WatchOk(s, x, y) && (s.wl >= 0 ==> SelfOk(s, s.wl));
    var k := s.pc[p];
    assert (k.Fork1? || k.Fork2? || k.Fork3?) && k.q < |s.pc| ==> SelfOk(s, k.q) && ForkOk(s, p, k.q);
    assert k.Wait2? && k.i < |s.pc| ==> SelfOk(s, k.i);
    if ForkStep(s, p, a, t) {
      ForkKeepsFork(s, p, a, t, x, y);
      ForkKeepsTree(s, p, a, t, x, y);
      ForkKeepsWatch(s, p, a, t, x, y);
    } else if ExitStep(s, p, a, t) {
      ExitKeepsFork(s, p, a, t, x, y);
      ExitKeepsTree(s, p, a, t, x, y);
      ExitKeepsWatch(s, p, a, t, x, y);
    } else if WaitStep(s, p, a, t) {
      WaitKeepsFork(s, p, a, t, x, y);
      WaitKeepsTree(s, p, a, t, x, y);
      WaitKeepsWatch(s, p, a, t, x, y);
    } else {
      SleepKeepsFork(s, p, a, t, x, y);
      SleepKeepsTree(s, p, a, t, x, y);
      SleepKeepsWatch(s, p, a, t, x, y);
    }
  }

  lemma StepKeepsInv(s: State, p: nat, a: Action, t: State)
    requires Inv(s) && p < |s.pc| && Next(s, p, a, t)
    ensures Inv(t)
  {
    hide LocksOk, StatusOk, ForkOk, TreeOk, WatchOk, OneForks, Next;
    StepKeepsForm(s, p, a, t);
    forall x | 0 <= x < |t.pc|
      ensures SelfOk(t, x) && OneForks(t, x)
    {
      StepKeepsSelf(s, p, a, t, x);
      StepKeepsOneForks(s, p, a, t, x);
    }
    forall x, y | 0 <= x < |t.pc| && 0 <= y < |t.pc|
      ensures ForkOk(t, x, y) && TreeOk(t, x, y) && WatchOk(t, x, y)
    {
      StepKeepsPair(s, p, a, t, x, y);
    }
  }

  lemma InitOk(s: State)
    requires Init(s)
    ensures Inv(s)
  {
  }

  lemma {:induction false} RunsKeepInv(run: Run)
    requires IsRun(run)
    ensures Inv(Final(run))
  {
    hide Inv, Next, Init;
    if run.Start? {
      InitOk(run.first);
    } else {
      RunsKeepInv(run.before);
      StepKeepsInv(Final(run.before), run.p, run.action, run.now);
    }
  }

  /** In every reachable state no process has a ZOMBIE or UNUSED parent, and every process other than init that has been
      made RUNNABLE has a parent until it is freed. */
  lemma ParentsAlive(run: Run, q: nat)
    requires IsRun(run) && q < |Final(run).pc|
    ensures WellFormed(Final(run))
    ensures var s := Final(run);
            && (0 <= s.parent[q] ==> s.parent[q] < |s.pc| && s.state[s.parent[q]] == LIVE)
            && (q != 0 && (s.state[q] == LIVE || s.state[q] == ZOMBIE) ==> s.parent[q] >= 0)
  {
    RunsKeepInv(run);
    var s := Final(run);
    assert SelfOk(s, q);
    assert s.parent[q] >= 0 ==> TreeOk(s, s.parent[q], q);
  }

  /** Whenever wait_lock is free, no process is asleep in wait while it has a ZOMBIE child. */
  lemma NoOverlookedZombie(run: Run, p: nat, q: nat)
    requires IsRun(run) && p < |Final(run).pc| && q < |Final(run).pc| && Final(run).wl == -1
    ensures WellFormed(Final(run))
    ensures var s := Final(run); s.parent[q] == p && s.state[q] == ZOMBIE ==> !s.asleep[p]
  {
    RunsKeepInv(run);
    assert WatchOk(Final(run), p, q);
  }

  predicate LifeCycle(from: ProcState, to: ProcState) {
    match from
    case UNUSED => to == USED
    case USED => to == LIVE || to == UNUSED
    case LIVE => to == ZOMBIE
    case ZOMBIE => to == UNUSED
  }

  /** The last step of a run, whatever it is: a process lives, dies by its own doing and without children, and is freed
      by its parent. */
  lemma StepsFollowLifeCycle(run: Run, q: nat)
    requires IsRun(run) && run.Then? && q < |run.now.pc|
    ensures var s, t, p := Final(run.before), run.now, run.p;
            && WellFormed(s) && WellFormed(t) && |s.pc| == |t.pc|
            && (s.state[q] != t.state[q] ==> LifeCycle(s.state[q], t.state[q]))
            && (s.state[q] == LIVE && t.state[q] == ZOMBIE ==> q == p && q != 0 && forall x | 0 <= x < |t.pc| ::
                                                                 t.parent[x] != q)
            && (s.state[q] == ZOMBIE && t.state[q] == UNUSED ==> s.parent[q] == p && s.pc[q].Dead?)
  {
    hide LocksOk, StatusOk, ForkOk, TreeOk, WatchOk, OneForks, Next;
    RunsKeepInv(run.before);
    var s, t, p := Final(run.before), run.now, run.p;
    StepKeepsForm(s, p, run.action, t);
    assert SelfOk(s, p) && SelfOk(s, q) && ForkOk(s, p, q);
    StateChanges(s, p, run.action, t, q);
    if s.state[q] == LIVE && t.state[q] == ZOMBIE {
      forall x | 0 <= x < |t.pc|
        ensures t.parent[x] != q
      {
        assert TreeOk(s, p, x);
        DiesAlone(s, p, run.action, t, x);
      }
    }
  }

  /** What a step of p may do to the state of q. */
  predicate ChangeOk(s: State, p: nat, t: State, q: nat)
    requires WellFormed(s) && WellFormed(t) && |s.pc| == |t.pc| && p < |s.pc| && q < |s.pc|
  {
    && (s.state[q] != t.state[q] ==> LifeCycle(s.state[q], t.state[q]))
    && (s.state[q] == LIVE && t.state[q] == ZOMBIE ==> q == p && q != 0 && s.pc[p].Exit3? && t.parent == s.parent)
    && (s.state[q] == ZOMBIE && t.state[q] == UNUSED ==> s.parent[q] == p && s.pc[q].Dead?)
  }

  lemma StateChanges(s: State, p: nat, a: Action, t: State, q: nat)
    requires WellFormed(s) && WellFormed(t) && |s.pc| == |t.pc| && p < |s.pc| && q < |s.pc| && Next(s, p, a, t)
    requires SelfOk(s, p) && SelfOk(s, q) && ForkOk(s, p, q)
    ensures ChangeOk(s, p, t, q)
  {
    hide SelfOk, ForkOk, ForkStep, ExitStep, WaitStep, SleepStep, ChangeOk;
    if ForkStep(s, p, a, t) {
      ForkChanges(s, p, a, t, q);
    } else if ExitStep(s, p, a, t) {
      ExitChanges(s, p, a, t, q);
    } else if WaitStep(s, p, a, t) {
      WaitChanges(s, p, a, t, q);
    } else {
      SleepChanges(s, p, a, t, q);
    }
  }

  lemma ForkChanges(s: State, p: nat, a: Action, t: State, q: nat)
    requires WellFormed(s) && WellFormed(t) && |s.pc| == |t.pc| && p < |s.pc| && q < |s.pc| && ForkStep(s, p, a, t)
    requires ForkOk(s, p, q)
    ensures ChangeOk(s, p, t, q)
  {
  }

  lemma ExitChanges(s: State, p: nat, a: Action, t: State, q: nat)
    requires WellFormed(s) && WellFormed(t) && |s.pc| == |t.pc| && p < |s.pc| && q < |s.pc| && ExitStep(s, p, a, t)
    requires SelfOk(s, p)
    ensures ChangeOk(s, p, t, q)
  {
    hide LocksOk;
  }

  lemma WaitChanges(s: State, p: nat, a: Action, t: State, q: nat)
    requires WellFormed(s) && WellFormed(t) && |s.pc| == |t.pc| && p < |s.pc| && q < |s.pc| && WaitStep(s, p, a, t)
    requires SelfOk(s, p) && SelfOk(s, q)
    ensures ChangeOk(s, p, t, q)
  {
  }

  lemma SleepChanges(s: State, p: nat, a: Action, t: State, q: nat)
    requires WellFormed(s) && WellFormed(t) && |s.pc| == |t.pc| && p < |s.pc| && q < |s.pc| && SleepStep(s, p, a, t)
    ensures ChangeOk(s, p, t, q)
  {
  }

  lemma DiesAlone(s: State, p: nat, a: Action, t: State, x: nat)
    requires WellFormed(s) && p < |s.pc| && x < |s.pc| && TreeOk(s, p, x) && s.pc[p].Exit3? && t.parent == s.parent
    ensures t.parent[x] != p
  {
  }

  /** The parent of a process changes only under wait_lock: fork sets it, exit gives its children to init, and wait
      clears it. */
  lemma ParentChanges(run: Run, q: nat)
    requires IsRun(run) && run.Then? && q < |run.now.pc|
    ensures var s, t, p := Final(run.before), run.now, run.p;
            && WellFormed(s) && WellFormed(t) && |s.pc| == |t.pc| && p < |s.pc|
            && (s.parent[q] != t.parent[q] ==>
                  && s.wl == p
                  && if s.parent[q] == -1 then s.state[q] == USED && t.parent[q] == p
                     else s.parent[q] == p && (t.parent[q] == 0 || (t.parent[q] == -1 && s.state[q] == ZOMBIE)))
  {
    RunsKeepInv(run.before);
    var s, p := Final(run.before), run.p;
    StepKeepsForm(s, p, run.action, run.now);
    assert SelfOk(s, p) && SelfOk(s, q) && ForkOk(s, p, q) && TreeOk(s, p, q);
  }

  /** wait returns from its scan without a child only if it has none, or was killed. */
  lemma WaitFindsChildren(run: Run, q: nat)
    requires IsRun(run) && run.Then? && q < |run.now.pc|
    ensures var s, t, p := Final(run.before), run.now, run.p;
            && WellFormed(s) && WellFormed(t) && |s.pc| == |t.pc| && p < |s.pc|
            && (s.pc[p].Wait1? && t.pc[p].Out? && s.parent[q] == p ==> s.killed[p])
  {
    RunsKeepInv(run.before);
    var s, p := Final(run.before), run.p;
    StepKeepsForm(s, p, run.action, run.now);
    assert TreeOk(s, p, q);
  }
}
