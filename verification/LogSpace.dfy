/**
 The admission side of kernel/log.c: begin_op, log_write and end_op of any
 number of concurrent system calls, each critical section one step.  The
 question is how many new blocks a system call may log before the panic
 "too big a transaction" can fire on the image mkfs makes.
 */
module LogSpace {
  import opened CrashRecovery

  // log.size on the image mkfs makes: nlog = LOGSIZE, header block included.
  const NLOG: nat := LOGSIZE

  datatype State = State(n: nat, outstanding: int, committing: bool,
                         used: map<nat, nat>)  // new blocks logged so far by each active operation

  datatype Step =
    | Begin(op: nat)             // begin_op gets past its waiting loop
    | Write(op: nat, isNew: bool) // log_write of a block new to the transaction, or of one in it
    | End(op: nat)               // the first critical section of end_op
    | CommitDone                 // commit and the second critical section of end_op

  const Boot: State := State(0, 0, false, map[])

  predicate Admits(n: nat, outstanding: int, committing: bool) {
    !committing && n + (outstanding + 1) * MAXOPBLOCKS <= LOGSIZE
  }

  predicate TooBig(n: nat) {
    n >= LOGSIZE || n >= NLOG - 1
  }

  // The step is one the processes may take, when none logs more than `budget` new blocks per operation.
  ghost predicate Enabled(s: State, step: Step, budget: nat) {
    match step
    case Begin(op) => op !in s.used && Admits(s.n, s.outstanding, s.committing)
    case Write(op, isNew) => op in s.used && (isNew ==> s.used[op] < budget)
    case End(op) => op in s.used
    case CommitDone => s.committing
  }

  ghost predicate Panics(s: State, step: Step) {
    match step
    case Begin(_) => false
    case Write(_, _) => TooBig(s.n) || s.outstanding < 1
    case End(_) => s.committing
    case CommitDone => false
  }

  ghost function Next(s: State, step: Step): State {
    match step
    case Begin(op) => s.(outstanding := s.outstanding + 1, used := s.used[op := 0])
    case Write(op, isNew) =>
      if isNew && op in s.used then s.(n := s.n + 1, used := s.used[op := s.used[op] + 1]) else s
    case End(op) => s.(outstanding := s.outstanding - 1, committing := s.outstanding == 1, used := s.used - {op})
    case CommitDone => s.(n := 0, committing := false)
  }

  // A run from boot in which no step before the last state panicked.
  ghost predicate Run(steps: seq<Step>, budget: nat) {
    if steps == [] then true
    else
      var m := |steps| - 1;
      Run(steps[..m], budget) && Enabled(After(steps[..m]), steps[m], budget) && !Panics(After(steps[..m]), steps[m])
  }

  ghost function After(steps: seq<Step>): State {
    if steps == [] then Boot else Next(After(steps[..|steps| - 1]), steps[|steps| - 1])
  }

  // New blocks the active operations may still log.
  ghost function Left(used: map<nat, nat>, budget: nat): int {
    if used == map[] then 0
    else
      var op :| op in used;
      budget - used[op] + Left(used - {op}, budget)
  }

  lemma {:induction false} LeftWithout(used: map<nat, nat>, budget: nat, op: nat)
    requires op in used
    ensures Left(used, budget) == budget - used[op] + Left(used - {op}, budget)
    decreases |used|
  {
    var p :| p in used && Left(used, budget) == budget - used[p] + Left(used - {p}, budget);
    if p != op {
      LeftWithout(used - {p}, budget, op);
      LeftWithout(used - {op}, budget, p);
      assert used - {p} - {op} == used - {op} - {p};
    }
  }

  lemma LeftWith(used: map<nat, nat>, budget: nat, op: nat, v: nat)
    ensures Left(used[op := v], budget) == budget - v + Left(used - {op}, budget)
  {
    LeftWithout(used[op := v], budget, op);
    assert used[op := v] - {op} == used - {op};
  }

  lemma SizeWithout(used: map<nat, nat>, op: nat)
    requires op in used
    ensures |used - {op}| == |used| - 1
  {
    assert (used - {op}).Keys == used.Keys - {op};
  }

  lemma {:induction false} LeftBounds(used: map<nat, nat>, budget: nat)
    requires forall op :: op in used ==> used[op] <= budget
    ensures 0 <= Left(used, budget)
    ensures |used| == 0 ==> Left(used, budget) == 0
    ensures |used| == 1 ==> Left(used, budget) <= budget
    ensures |used| == 2 ==> Left(used, budget) <= 2 * budget
    decreases |used|
  {
    if used != map[] {
      var p :| p in used && Left(used, budget) == budget - used[p] + Left(used - {p}, budget);
      SizeWithout(used, p);
      LeftBounds(used - {p}, budget);
    }
  }

  // What every step keeps.  The last line is the point: blocks logged and blocks still allowed fit below the guard.
  ghost predicate Inv(s: State, budget: nat) {
    && s.outstanding == |s.used|
    && (s.committing ==> s.outstanding == 0)
    && (s.outstanding == 0 && !s.committing ==> s.n == 0)
    && (forall op :: op in s.used ==> s.used[op] <= budget)
    && s.n + Left(s.used, budget) <= 2 * budget + MAXOPBLOCKS
  }

  lemma BeginKeepsInv(s: State, op: nat, budget: nat)
    requires budget < MAXOPBLOCKS && Inv(s, budget) && Enabled(s, Begin(op), budget)
    ensures Inv(Next(s, Begin(op)), budget)
  {
    LeftBounds(s.used, budget);
    LeftWith(s.used, budget, op, 0);
    assert s.used - {op} == s.used;
    assert s.used[op := 0].Keys == s.used.Keys + {op};
  }

  lemma WriteKeepsInv(s: State, op: nat, isNew: bool, budget: nat)
    requires budget < MAXOPBLOCKS && Inv(s, budget) && Enabled(s, Write(op, isNew), budget)
    ensures !Panics(s, Write(op, isNew)) && Inv(Next(s, Write(op, isNew)), budget)
  {
    LeftBounds(s.used, budget);
    LeftWithout(s.used, budget, op);
    LeftWith(s.used, budget, op, s.used[op] + 1);
    SizeWithout(s.used, op);
    assert s.used[op := s.used[op] + 1].Keys == s.used.Keys;
  }

  lemma StepKeepsInv(s: State, step: Step, budget: nat)
    requires budget < MAXOPBLOCKS && Inv(s, budget) && Enabled(s, step, budget)
    ensures !Panics(s, step) && Inv(Next(s, step), budget)
  {
    match step
    case Begin(op) =>
      BeginKeepsInv(s, op, budget);
    case Write(op, isNew) =>
      WriteKeepsInv(s, op, isNew, budget);
    case End(op) =>
      LeftWithout(s.used, budget, op);
      SizeWithout(s.used, op);
    case CommitDone =>
      LeftBounds(s.used, budget);
  }

  lemma {:induction false} RunKeepsInv(steps: seq<Step>, budget: nat)
    requires budget < MAXOPBLOCKS && Run(steps, budget)
    ensures Inv(After(steps), budget)
  {
    if steps != [] {
      var m := |steps| - 1;
      RunKeepsInv(steps[..m], budget);
      StepKeepsInv(After(steps[..m]), steps[m], budget);
    }
  }

  /** Whatever the interleaving, no operation is under way while the log commits and the log stays below the guard. */
  lemma LogStaysSmall(steps: seq<Step>, budget: nat)
    requires budget < MAXOPBLOCKS && Run(steps, budget)
    ensures var s := After(steps);
      && s.outstanding == |s.used|
      && (s.committing ==> s.used == map[])
      && s.n <= 28 && !TooBig(s.n)
  {
    RunKeepsInv(steps, budget);
    LeftBounds(After(steps).used, budget);
  }

  // No panic is one enabled step away from any run.
  ghost predicate NeverPanics(budget: nat) {
    forall steps, step :: Run(steps, budget) && Enabled(After(steps), step, budget) ==> !Panics(After(steps), step)
  }

  // Three operations admitted at once, then `count` new blocks logged, ten by each in turn.
  ghost function ThreeOps(count: nat): seq<Step> {
    [Begin(0), Begin(1), Begin(2)] + seq(count, i requires 0 <= i => Write(i / MAXOPBLOCKS, true))
  }

  // Operation op's share of the first `count` blocks.
  ghost function Share(count: nat, op: nat): nat {
    if count <= op * MAXOPBLOCKS then 0 else if count >= (op + 1) * MAXOPBLOCKS then MAXOPBLOCKS
    else count - op * MAXOPBLOCKS
  }

  lemma Extends(steps: seq<Step>, step: Step, budget: nat)
    requires Run(steps, budget) && Enabled(After(steps), step, budget) && !Panics(After(steps), step)
    ensures Run(steps + [step], budget) && After(steps + [step]) == Next(After(steps), step)
  {
    assert (steps + [step])[..|steps|] == steps;
  }

  lemma ThreeBegins(budget: nat)
    ensures Run(ThreeOps(0), budget) && After(ThreeOps(0)) == State(0, 3, false, map[0 := 0, 1 := 0, 2 := 0])
  {
    Extends([], Begin(0), budget);
    assert [] + [Begin(0)] == [Begin(0)];
    Extends([Begin(0)], Begin(1), budget);
    assert [Begin(0)] + [Begin(1)] == [Begin(0), Begin(1)];
    Extends([Begin(0), Begin(1)], Begin(2), budget);
    assert [Begin(0), Begin(1)] + [Begin(2)] == ThreeOps(0);
  }

  ghost function Shared(count: nat): State {
    State(count, 3, false, map[0 := Share(count, 0), 1 := Share(count, 1), 2 := Share(count, 2)])
  }

  lemma SharedStep(count: nat)
    requires count + 1 < NLOG
    ensures Enabled(Shared(count), Write(count / MAXOPBLOCKS, true), MAXOPBLOCKS)
    ensures !Panics(Shared(count), Write(count / MAXOPBLOCKS, true))
    ensures Next(Shared(count), Write(count / MAXOPBLOCKS, true)) == Shared(count + 1)
  {
    var op := count / MAXOPBLOCKS;
    assert op == 0 || op == 1 || op == 2;
    assert Share(count, op) == count - op * MAXOPBLOCKS < MAXOPBLOCKS;
  }

  lemma {:induction false} ThreeOpsRun(count: nat, budget: nat)
    requires count < NLOG && budget >= MAXOPBLOCKS
    ensures Run(ThreeOps(count), budget) && After(ThreeOps(count)) == Shared(count)
  {
    if count == 0 {
      ThreeBegins(budget);
    } else {
      ThreeOpsRun(count - 1, budget);
      SharedStep(count - 1);
      var step := Write((count - 1) / MAXOPBLOCKS, true);
      Extends(ThreeOps(count - 1), step, budget);
      assert ThreeOps(count - 1) + [step] == ThreeOps(count);
    }
  }

  /** The guard is out of reach exactly when every operation logs fewer than MAXOPBLOCKS new blocks. */
  lemma SafeBudget(budget: nat)
    ensures NeverPanics(budget) <==> budget < MAXOPBLOCKS
  {
    if budget < MAXOPBLOCKS {
      forall steps, step | Run(steps, budget) && Enabled(After(steps), step, budget) ensures !Panics(After(steps), step)
      {
        RunKeepsInv(steps, budget);
        StepKeepsInv(After(steps), step, budget);
      }
    } else {
      ThreeOpsRun(NLOG - 1, budget);
      assert Enabled(After(ThreeOps(NLOG - 1)), Write(2, true), budget);
      assert Panics(After(ThreeOps(NLOG - 1)), Write(2, true));
    }
  }
}
