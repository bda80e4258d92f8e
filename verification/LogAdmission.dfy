/** The admission protocol of begin_op, log_write and end_op (kernel/log.c), over every interleaving of
    any number of operations. Constants are symbolic: M is MAXOPBLOCKS, the log holds 3 * M entries, as
    LOGSIZE does, and mkfs gives the on-disk log 3 * M blocks, one of which is the header. */
module LogAdmission {
  import opened Blocks

  /** lh: the blocks in the header; ops: for each open operation, how many entries it has added. */
  datatype Admission = Admission(lh: seq<nat>, committing: bool, ops: seq<nat>)

  const INIT := Admission([], false, [])

  datatype Step =
    | Begin
    | Write(op: nat, block: nat)
    | End(op: nat)
    | Commit
    | EndCommit

  function Capacity(M: nat): nat {
    3 * M
  }

  /** log_write's "too big a transaction" test, with nlog == LOGSIZE. */
  predicate TooBig(M: nat, s: Admission) {
    |s.lh| >= Capacity(M) || |s.lh| >= Capacity(M) - 1
  }

  /** What one step does, when it neither sleeps nor panics. */
  predicate Allowed(M: nat, s: Admission, step: Step, t: Admission) {
    match step
    case Begin =>
      && !s.committing && |s.lh| + (|s.ops| + 1) * M <= Capacity(M)
      && t == s.(ops := s.ops + [0])
    case Write(op, k) =>
      && op < |s.ops| && !TooBig(M, s)
      && if k in s.lh then t == s
         else t == s.(lh := s.lh + [k], ops := s.ops[op := s.ops[op] + 1])
    case End(op) =>
      && op < |s.ops|
      && var rest := s.ops[..op] + s.ops[op + 1..];
      t == s.(ops := rest, committing := rest == [])
    case Commit =>
      s.committing && t == s.(lh := [])
    case EndCommit =>
      s.committing && s.lh == [] && t == s.(committing := false)
  }

  /** The same, where no operation adds more than B entries. */
  predicate Next(M: nat, B: nat, s: Admission, step: Step, t: Admission) {
    && Allowed(M, s, step, t)
    && (step.Write? && step.block !in s.lh ==> s.ops[step.op] < B)
  }

  /** A run: the initial state, or a run followed by one more step. */
  datatype Run = Start | Then(before: Run, step: Step, now: Admission)

  function Final(run: Run): Admission {
    if run.Start? then INIT else run.now
  }

  predicate IsRun(M: nat, B: nat, run: Run) {
    run.Then? ==> IsRun(M, B, run.before) && Next(M, B, Final(run.before), run.step, run.now)
  }

  /** A run without a bound on what an operation adds. */
  predicate Possible(M: nat, run: Run) {
    run.Then? ==> Possible(M, run.before) && Allowed(M, Final(run.before), run.step, run.now)
  }

  /** A log_write by some open operation would panic. */
  predicate Panics(M: nat, s: Admission) {
    s.ops != [] && TooBig(M, s)
  }

  /** The reserved budget not yet spent. */
  function Unspent(M: nat, ops: seq<nat>): (r: int) {
    if ops == [] then 0 else M - ops[0] + Unspent(M, ops[1..])
  }

  lemma {:induction false} UnspentAppend(M: nat, a: seq<nat>, b: seq<nat>)
    ensures Unspent(M, a + b) == Unspent(M, a) + Unspent(M, b)
  {
    if a == [] {
      assert a + b == b;
    } else {
      assert (a + b)[1..] == a[1..] + b;
      UnspentAppend(M, a[1..], b);
    }
  }

  lemma UnspentWithout(M: nat, ops: seq<nat>, i: nat)
    requires i < |ops|
    ensures Unspent(M, ops) == Unspent(M, ops[..i] + ops[i + 1..]) + M - ops[i]
  {
    UnspentAppend(M, ops[..i], ops[i + 1..]);
    UnspentAppend(M, ops[..i], [ops[i]] + ops[i + 1..]);
    assert ops == ops[..i] + ([ops[i]] + ops[i + 1..]);
  }

  lemma UnspentUpdate(M: nat, ops: seq<nat>, i: nat, c: nat)
    requires i < |ops|
    ensures Unspent(M, ops[i := c]) == Unspent(M, ops) + ops[i] - c
  {
    UnspentWithout(M, ops, i);
    UnspentWithout(M, ops[i := c], i);
    assert ops[i := c][..i] + ops[i := c][i + 1..] == ops[..i] + ops[i + 1..];
  }

  lemma {:induction false} UnspentAtMost(M: nat, ops: seq<nat>)
    ensures Unspent(M, ops) <= |ops| * M
  {
    if ops != [] {
      UnspentAtMost(M, ops[1..]);
      assert |ops| * M == M + |ops[1..]| * M;
    }
  }

  lemma {:induction false} UnspentAtLeast(M: nat, B: nat, ops: seq<nat>)
    requires B <= M && forall i | 0 <= i < |ops| :: ops[i] <= B
    ensures Unspent(M, ops) >= if B < M then |ops| else 0
  {
    if ops != [] {
      UnspentAtLeast(M, B, ops[1..]);
    }
  }

  /** Isolation and admission: no operation is open during a commit; a header entry is there once; and the
      header plus all unspent reservations fit the log, with one to spare when a single operation is open. */
  ghost predicate Admitted(M: nat, B: nat, s: Admission) {
    && (s.committing ==> s.ops == [])
    && (s.ops == [] && !s.committing ==> s.lh == [])
    && Distinct(s.lh)
    && (forall i | 0 <= i < |s.ops| :: s.ops[i] <= B)
    && |s.lh| + Unspent(M, s.ops) <= Capacity(M)
    && (B < M && |s.ops| == 1 ==> |s.lh| + Unspent(M, s.ops) < Capacity(M))
  }

  lemma BeginKeepsAdmitted(M: nat, B: nat, s: Admission)
    requires 1 <= M && B <= M && Admitted(M, B, s)
    requires !s.committing && |s.lh| + (|s.ops| + 1) * M <= Capacity(M)
    ensures Admitted(M, B, s.(ops := s.ops + [0]))
  {
    UnspentAppend(M, s.ops, [0]);
    UnspentAtMost(M, s.ops);
    assert Unspent(M, [0]) == M;
    assert |s.lh| + Unspent(M, s.ops) + M <= Capacity(M) by {
      assert (|s.ops| + 1) * M == |s.ops| * M + M;
    }
  }

  lemma EndKeepsAdmitted(M: nat, B: nat, s: Admission, op: nat)
    requires 1 <= M && B <= M && Admitted(M, B, s) && op < |s.ops|
    ensures var rest := s.ops[..op] + s.ops[op + 1..];
            Admitted(M, B, s.(ops := rest, committing := rest == []))
  {
    UnspentWithout(M, s.ops, op);
    var rest := s.ops[..op] + s.ops[op + 1..];
    assert forall i | 0 <= i < |rest| :: rest[i] <= B;
  }

  lemma StepKeepsAdmitted(M: nat, B: nat, s: Admission, step: Step, t: Admission)
    requires 1 <= M && B <= M && Admitted(M, B, s) && Next(M, B, s, step, t)
    ensures Admitted(M, B, t)
  {
    match step
    case Begin =>
      BeginKeepsAdmitted(M, B, s);
    case Write(op, k) =>
      if k !in s.lh {
        UnspentUpdate(M, s.ops, op, s.ops[op] + 1);
      }
    case End(op) =>
      EndKeepsAdmitted(M, B, s, op);
    case Commit =>
    case EndCommit =>
  }

  /** Every run ends in an admitted state, for every bound up to the reservation itself. */
  lemma {:induction false} RunsAreAdmitted(M: nat, B: nat, run: Run)
    requires 1 <= M && B <= M && IsRun(M, B, run)
    ensures Admitted(M, B, Final(run))
  {
    if run.Then? {
      RunsAreAdmitted(M, B, run.before);
      StepKeepsAdmitted(M, B, Final(run.before), run.step, run.now);
    }
  }

  /** With one entry fewer than its reservation per operation, log_write always finds room. */
  lemma AdmittedHasRoom(M: nat, B: nat, s: Admission)
    requires 1 <= M && B < M && Admitted(M, B, s) && s.ops != []
    ensures !TooBig(M, s)
  {
    UnspentAtLeast(M, B, s.ops);
  }

  // What operations pass to log_write, which absorbs a block that is in the header already.

  /** The blocks that each open operation has passed to log_write. */
  function Passed(run: Run): (passed: seq<set<nat>>) {
    match run
    case Start => []
    case Then(before, step, _) =>
      var p := Passed(before);
      match step
      case Begin => p + [{}]
      case Write(op, k) => if op < |p| then p[op := p[op] + {k}] else p
      case End(op) => if op < |p| then p[..op] + p[op + 1..] else p
      case _ => p
  }

  /** At no time has an open operation passed more than B blocks. */
  predicate Small(B: nat, run: Run) {
    && (forall i | 0 <= i < |Passed(run)| :: |Passed(run)[i]| <= B)
    && (run.Then? ==> Small(B, run.before))
  }

  /** All blocks that open operations have passed are in the header, and no operation has added more entries than
      blocks. */
  predicate Counted(s: Admission, passed: seq<set<nat>>) {
    && |passed| == |s.ops| && (s.committing ==> s.ops == [])
    && forall i | 0 <= i < |passed| :: passed[i] <= Elements(s.lh) && s.ops[i] <= |passed[i]|
  }

  lemma WriteCounted(M: nat, s: Admission, op: nat, k: nat, t: Admission, passed: seq<set<nat>>)
    requires Counted(s, passed) && Allowed(M, s, Write(op, k), t)
    ensures Counted(t, passed[op := passed[op] + {k}])
    ensures k !in s.lh ==> s.ops[op] < |passed[op] + {k}|
  {
    assert forall j | j in s.lh :: j in t.lh;
    assert k in t.lh;
  }

  lemma {:induction false} PassedCounted(M: nat, run: Run)
    requires Possible(M, run)
    ensures Counted(Final(run), Passed(run))
  {
    if run.Then? {
      PassedCounted(M, run.before);
      if run.step.Write? {
        WriteCounted(M, Final(run.before), run.step.op, run.step.block, run.now, Passed(run.before));
      }
    }
  }

  lemma {:induction false} RunsArePossible(M: nat, B: nat, run: Run)
    requires IsRun(M, B, run)
    ensures Possible(M, run)
  {
    if run.Then? {
      RunsArePossible(M, B, run.before);
    }
  }

  // Too small a reservation.

  /** Every block that an operation passed was a new one. */
  predicate OnlyNew(B: nat, run: Run) {
    && Small(B, run) && |Passed(run)| == |Final(run).ops|
    && forall i | 0 <= i < |Passed(run)| :: |Passed(run)[i]| == Final(run).ops[i]
  }

  /** The header holds blocks 0, 1, 2 and so on. */
  predicate Counting(lh: seq<nat>) {
    forall i | 0 <= i < |lh| :: lh[i] == i
  }

  /** Operation op logs new blocks until it has used its whole reservation, or until the log is too big. */
  lemma {:induction false} Spend(M: nat, B: nat, run: Run, op: nat) returns (longer: Run)
    requires M <= B && IsRun(M, B, run) && OnlyNew(B, run)
    requires var s := Final(run); op < |s.ops| && s.ops[op] <= M && Counting(s.lh)
    ensures IsRun(M, B, longer) && OnlyNew(B, longer)
    ensures var s, t := Final(run), Final(longer);
            && Counting(t.lh) && op < |s.ops| == |t.ops| && t.ops == s.ops[op := t.ops[op]]
            && t.ops[op] <= M && |t.lh| + s.ops[op] == |s.lh| + t.ops[op]
            && (t.ops[op] == M || TooBig(M, t))
    decreases M - Final(run).ops[op]
  {
    var s := Final(run);
    if s.ops[op] == M || TooBig(M, s) {
      longer := run;
    } else {
      var t := s.(lh := s.lh + [|s.lh|], ops := s.ops[op := s.ops[op] + 1]);
      RunsArePossible(M, B, run);
      PassedCounted(M, run);
      assert |s.lh| !in Passed(run)[op];
      longer := Spend(M, B, Then(run, Write(op, |s.lh|), t), op);
    }
  }

  lemma AtMostThree(M: nat, k: nat)
    requires k < 3
    ensures (k + 1) * M <= 3 * M
  {
  }

  lemma OneMore(M: nat, B: nat, run: Run, k: nat) returns (longer: Run)
    requires IsRun(M, B, run) && OnlyNew(B, run) && Final(run) == Admission([], false, seq(k, _ => 0)) && k < 3
    ensures IsRun(M, B, longer) && OnlyNew(B, longer) && Final(longer) == Admission([], false, seq(k + 1, _ => 0))
  {
    var t := Admission([], false, seq(k + 1, _ => 0));
    assert t.ops == Final(run).ops + [0];
    AtMostThree(M, k);
    longer := Then(run, Begin, t);
  }

  lemma ThreeOpen(M: nat, B: nat) returns (run: Run)
    ensures IsRun(M, B, run) && OnlyNew(B, run) && Final(run) == Admission([], false, [0, 0, 0])
  {
    assert INIT.ops == seq(0, _ => 0);
    run := OneMore(M, B, Start, 0);
    run := OneMore(M, B, run, 1);
    run := OneMore(M, B, run, 2);
    assert seq(3, _ => 0) == [0, 0, 0];
  }

  /** If operations may use their whole reservation, three of them reach the panic. */
  lemma WholeReservationPanics(M: nat, B: nat) returns (run: Run)
    requires 1 <= M <= B
    ensures IsRun(M, B, run) && Small(B, run) && Panics(M, Final(run))
  {
    run := ThreeOpen(M, B);
    run := Spend(M, B, run, 0);
    if !TooBig(M, Final(run)) {
      run := Spend(M, B, run, 1);
      if !TooBig(M, Final(run)) {
        run := Spend(M, B, run, 2);
      }
    }
  }

  /** Exactly when log_write can never panic on size: for every run, if and only if no operation may add
      as many entries as begin_op reserves for it. */
  lemma RoomExactly(M: nat, B: nat)
    requires 1 <= M
    ensures B < M <==> forall run | IsRun(M, B, run) :: !Panics(M, Final(run))
  {
    if B < M {
      forall run | IsRun(M, B, run)
        ensures !Panics(M, Final(run))
      {
        RunsAreAdmitted(M, B, run);
        if Final(run).ops != [] {
          AdmittedHasRoom(M, B, Final(run));
        }
      }
    } else {
      var run := WholeReservationPanics(M, B);
    }
  }

  /** Operations that pass few blocks add few entries. */
  lemma {:induction false} SmallRuns(M: nat, B: nat, run: Run)
    requires Possible(M, run) && Small(B, run)
    ensures IsRun(M, B, run)
  {
    if run.Then? {
      SmallRuns(M, B, run.before);
      PassedCounted(M, run.before);
      if run.step.Write? {
        WriteCounted(M, Final(run.before), run.step.op, run.step.block, run.now, Passed(run.before));
        assert |Passed(run)[run.step.op]| <= B;
      }
    }
  }

  /** In terms of what an operation passes to log_write, and so of what its code does: log_write never panics on size,
      in any run, if and only if no operation may pass as many blocks as begin_op reserves for it. */
  lemma PassedExactly(M: nat, B: nat)
    requires 1 <= M
    ensures B < M <==> forall run | Possible(M, run) && Small(B, run) :: !Panics(M, Final(run))
  {
    if B < M {
      forall run | Possible(M, run) && Small(B, run)
        ensures !Panics(M, Final(run))
      {
        SmallRuns(M, B, run);
        RoomExactly(M, B);
      }
    } else {
      var run := WholeReservationPanics(M, B);
      RunsArePossible(M, B, run);
    }
  }
}
