/**
 The LAZY file manager of concurrency/Lazy-Read-Write/finaltry.c: any number of
 request threads on one file, as a machine whose steps are the clock, a
 thread's look at the clock, and its critical sections on the file's lock.
 */
module LazyFiles {
  import opened Common

  datatype Operation = Read | Write | Delete
  datatype Outcome = Completed | Declined | Cancelled

  datatype Filenode = Filenode(deleted: bool, readers: int, writers: int, occupants: int)

  // Where a thread is: before its request time, in the one-second sleep after
  // sending, at the top of the loop, about to take the lock, waiting on the
  // condition variable, at work, or finished.
  datatype Place = Pending | Resting | Looping | Trying | Waiting(signalled: bool) | Working | Finished

  datatype Thread = Thread(op: Operation, at: Place, send: nat, current: nat, takenUp: Option<nat>,
    outcomes: seq<Outcome>)

  datatype State = State(file: Filenode, now: nat, threads: seq<Thread>)

  // The limit on occupants, and how long a user waits.
  datatype Config = Config(c: nat, t: nat)

  datatype Step =
    | Tick | Send(i: nat) | Rested(i: nat) | Look(i: nat) | Try(i: nat)
    | Finish(i: nat) | Wake(i: nat) | TimeOut(i: nat)

  function CanProcess(file: Filenode, op: Operation, c: nat): bool {
    if file.deleted then false else
    match op
    case Read => file.occupants < c
    case Write => file.writers == 0 && file.occupants == 0
    case Delete => file.occupants == 0
  }

  // ---- the steps

  function TakeUp(file: Filenode, op: Operation): Filenode {
    match op
    case Read => file.(readers := file.readers + 1, occupants := file.occupants + 1)
    case Write => file.(writers := file.writers + 1, occupants := file.occupants + 1)
    case Delete => file.(deleted := true)
  }

  function Leave(file: Filenode, op: Operation): Filenode {
    match op
    case Read => file.(readers := file.readers - 1, occupants := file.occupants - 1)
    case Write => file.(writers := file.writers - 1, occupants := file.occupants - 1)
    case Delete => file
  }

  function Ended(th: Thread, o: Outcome): Thread {
    th.(at := Finished, outcomes := th.outcomes + [o])
  }

  function Signalled(th: Thread): Thread {
    if th.at.Waiting? then th.(at := Waiting(true)) else th
  }

  function Broadcast(ths: seq<Thread>): (r: seq<Thread>)
    ensures |r| == |ths|
    ensures forall i :: 0 <= i < |ths| ==> r[i] == Signalled(ths[i])
  {
    seq(|ths|, i requires 0 <= i < |ths| => Signalled(ths[i]))
  }

  predicate Enabled(s: State, step: Step, cfg: Config) {
    match step
    case Tick => true
    case Send(i) => i < |s.threads| && s.threads[i].at.Pending?
    case Rested(i) => i < |s.threads| && s.threads[i].at.Resting? && s.now > s.threads[i].send
    case Look(i) => i < |s.threads| && s.threads[i].at.Looping?
    case Try(i) => i < |s.threads| && s.threads[i].at.Trying?
    case Finish(i) => i < |s.threads| && s.threads[i].at.Working?
    case Wake(i) => i < |s.threads| && s.threads[i].at.Waiting?
    case TimeOut(i) => i < |s.threads| && s.threads[i].at.Waiting? && s.now >= s.threads[i].send + cfg.t
  }

  function With(s: State, i: nat, th: Thread): State
    requires i < |s.threads|
  {
    s.(threads := s.threads[i := th])
  }

  function Next(s: State, step: Step, cfg: Config): State
    requires Enabled(s, step, cfg)
  {
    match step
    case Tick => s.(now := s.now + 1)
    case Send(i) => With(s, i, s.threads[i].(at := Resting, send := s.now))
    case Rested(i) => With(s, i, s.threads[i].(at := Looping))
    case Look(i) => With(s, i, Looked(s.threads[i], s.now, cfg.t))
    case Try(i) => Tried(s, i, cfg.c)
    case Finish(i) =>
      var s' := With(s, i, Ended(s.threads[i], Completed));
      State(Leave(s.file, s.threads[i].op), s.now, Broadcast(s'.threads))
    case Wake(i) => With(s, i, s.threads[i].(at := Looping))
    case TimeOut(i) => With(s, i, Ended(s.threads[i], Cancelled))
  }

  function Looked(th: Thread, now: nat, t: nat): Thread {
    var th' := th.(current := now);
    if now >= th.send + t then Ended(th', Cancelled) else th'.(at := Trying)
  }

  function Tried(s: State, i: nat, c: nat): State
    requires i < |s.threads|
  {
    var th := s.threads[i];
    if s.file.deleted then With(s, i, Ended(th, Declined))
    else if CanProcess(s.file, th.op, c) then
      With(s, i, th.(at := Working, takenUp := Some(th.current))).(file := TakeUp(s.file, th.op))
    else With(s, i, th.(at := Waiting(false)))
  }

  predicate Initial(s: State) {
    && s.file == Filenode(false, 0, 0, 0)
    && forall i :: 0 <= i < |s.threads| ==>
      s.threads[i] == Thread(s.threads[i].op, Pending, 0, 0, None, [])
  }

  ghost predicate Run(s: State, steps: seq<Step>, cfg: Config, s': State)
    decreases |steps|
  {
    if steps == [] then s' == s
    else Enabled(s, steps[0], cfg) && Run(Next(s, steps[0], cfg), steps[1..], cfg, s')
  }

  // ---- occupants

  predicate AtWork(th: Thread, op: Operation) {
    th.at.Working? && th.op == op
  }

  ghost function Count(ths: seq<Thread>, op: Operation): nat {
    if ths == [] then 0 else Count(ths[..|ths| - 1], op) + if AtWork(ths[|ths| - 1], op) then 1 else 0
  }

  lemma {:induction false} CountWith(ths: seq<Thread>, i: nat, th: Thread, op: Operation)
    requires i < |ths|
    ensures Count(ths[i := th], op) ==
      Count(ths, op) - (if AtWork(ths[i], op) then 1 else 0) + (if AtWork(th, op) then 1 else 0)
  {
    var n := |ths| - 1;
    if i == n {
      assert ths[i := th][..n] == ths[..n];
    } else {
      assert ths[i := th][..n] == ths[..n][i := th];
      CountWith(ths[..n], i, th, op);
    }
  }

  lemma {:induction false} CountSame(ths: seq<Thread>, ths': seq<Thread>, op: Operation)
    requires |ths| == |ths'| && forall i :: 0 <= i < |ths| ==> AtWork(ths[i], op) == AtWork(ths'[i], op)
    ensures Count(ths, op) == Count(ths', op)
  {
    if ths != [] {
      CountSame(ths[..|ths| - 1], ths'[..|ths| - 1], op);
    }
  }

  ghost predicate Counted(s: State, c: nat) {
    && s.file.readers == Count(s.threads, Read) && s.file.writers == Count(s.threads, Write)
    && s.file.occupants == s.file.readers + s.file.writers
    && s.file.writers <= 1 && s.file.occupants <= c
    && (s.file.deleted ==> s.file.occupants == 0)
  }

  // ---- waiting, times and outcomes, thread by thread

  // A thread that waits unsignalled has nothing to do.
  predicate RightlyWaiting(file: Filenode, th: Thread, c: nat) {
    th.at == Waiting(false) ==> !CanProcess(file, th.op, c)
  }

  // The clock readings of a thread, and what it has printed in the end.
  predicate InOrder(th: Thread, now: nat, t: nat) {
    && th.send <= now && th.current <= now
    && (th.at.Looping? ==> th.send < now)
    && (th.at.Trying? || th.at.Waiting? || th.at.Working? ==> th.send < th.current < th.send + t)
    && (th.takenUp.Some? ==> th.takenUp == Some(th.current) && th.send < th.current < th.send + t)
    && (th.takenUp.Some? <==> th.at.Working? || (|th.outcomes| == 1 && th.outcomes[0] == Completed))
    && |th.outcomes| == (if th.at.Finished? then 1 else 0)
  }

  ghost predicate Waiters(s: State, c: nat) {
    forall i :: 0 <= i < |s.threads| ==> RightlyWaiting(s.file, s.threads[i], c)
  }

  ghost predicate Threads(s: State, t: nat) {
    forall i :: 0 <= i < |s.threads| ==> InOrder(s.threads[i], s.now, t)
  }

  // A file is deleted when a delete has been taken up, and only one ever is.
  ghost predicate Deletions(s: State) {
    && (forall i :: 0 <= i < |s.threads| && s.threads[i].op == Delete && s.threads[i].takenUp.Some? ==> s.file.deleted)
    && (forall i, j :: 0 <= i < j < |s.threads| && s.threads[i].op == Delete && s.threads[j].op == Delete ==>
        s.threads[i].takenUp.None? || s.threads[j].takenUp.None?)
  }

  // On a deleted file only the deleter, while it is at work, keeps anyone waiting.
  ghost predicate Dismissed(s: State) {
    s.file.deleted ==>
      || (exists i :: 0 <= i < |s.threads| && AtWork(s.threads[i], Delete))
      || (forall i :: 0 <= i < |s.threads| ==> s.threads[i].at != Waiting(false))
  }

  ghost predicate Inv(s: State, cfg: Config) {
    Counted(s, cfg.c) && Waiters(s, cfg.c) && Threads(s, cfg.t) && Deletions(s) && Dismissed(s)
  }

  // A step moves at most one thread in or out of its work.
  lemma CountStep(s: State, step: Step, cfg: Config, op: Operation)
    requires Enabled(s, step, cfg) && !step.Tick?
    ensures var s' := Next(s, step, cfg);
      Count(s'.threads, op) == Count(s.threads, op)
        - (if AtWork(s.threads[step.i], op) then 1 else 0) + (if AtWork(s'.threads[step.i], op) then 1 else 0)
  {
    var s' := Next(s, step, cfg);
    CountWith(s.threads, step.i, s'.threads[step.i], op);
    CountSame(s'.threads, s.threads[step.i := s'.threads[step.i]], op);
  }

  lemma CountedStep(s: State, step: Step, cfg: Config)
    requires cfg.c >= 1 && Counted(s, cfg.c) && Enabled(s, step, cfg)
    ensures Counted(Next(s, step, cfg), cfg.c)
  {
    hide Count, Broadcast;
    if !step.Tick? {
      CountStep(s, step, cfg, Read);
      CountStep(s, step, cfg, Write);
    }
  }

  lemma WaitersStep(s: State, step: Step, cfg: Config)
    requires Counted(s, cfg.c) && Waiters(s, cfg.c) && Enabled(s, step, cfg)
    ensures Waiters(Next(s, step, cfg), cfg.c)
  {
  }

  lemma ThreadsStep(s: State, step: Step, cfg: Config)
    requires Threads(s, cfg.t) && Enabled(s, step, cfg)
    ensures Threads(Next(s, step, cfg), cfg.t)
  {
  }

  lemma DeletionsStep(s: State, step: Step, cfg: Config)
    requires Deletions(s) && Enabled(s, step, cfg)
    ensures Deletions(Next(s, step, cfg))
  {
  }

  lemma DismissedStep(s: State, step: Step, cfg: Config)
    requires Dismissed(s) && Enabled(s, step, cfg)
    ensures Dismissed(Next(s, step, cfg))
  {
    var s' := Next(s, step, cfg);
    if i :| 0 <= i < |s.threads| && AtWork(s.threads[i], Delete) {
      assert !step.Finish? ==> AtWork(s'.threads[i], Delete);
    } else if step.Try? {
      assert s.threads[step.i].op == Delete && s'.threads[step.i].at.Working? ==> AtWork(s'.threads[step.i], Delete);
    }
  }

  lemma StepKeeps(s: State, step: Step, cfg: Config)
    requires cfg.c >= 1 && Inv(s, cfg) && Enabled(s, step, cfg)
    ensures Inv(Next(s, step, cfg), cfg)
  {
    CountedStep(s, step, cfg);
    WaitersStep(s, step, cfg);
    ThreadsStep(s, step, cfg);
    DeletionsStep(s, step, cfg);
    DismissedStep(s, step, cfg);
  }

  lemma {:induction false} NobodyAtWork(ths: seq<Thread>, op: Operation)
    requires forall i :: 0 <= i < |ths| ==> ths[i].at.Pending?
    ensures Count(ths, op) == 0
  {
    if ths != [] {
      NobodyAtWork(ths[..|ths| - 1], op);
    }
  }

  lemma InitialInv(s: State, cfg: Config)
    requires Initial(s)
    ensures Inv(s, cfg)
  {
    NobodyAtWork(s.threads, Read);
    NobodyAtWork(s.threads, Write);
  }

  lemma {:induction false} RunKeeps(s: State, steps: seq<Step>, cfg: Config, s': State)
    requires cfg.c >= 1 && Inv(s, cfg) && Run(s, steps, cfg, s')
    ensures Inv(s', cfg) && |s'.threads| == |s.threads|
    decreases |steps|
  {
    if steps != [] {
      StepKeeps(s, steps[0], cfg);
      RunKeeps(Next(s, steps[0], cfg), steps[1..], cfg, s');
    }
  }

  // ---- what every run of LAZY guarantees

  /** Occupants are the threads at work; never two writers, never more than c occupants, none on a deleted file. */
  lemma OccupancyIsSafe(s: State, steps: seq<Step>, cfg: Config, s': State)
    requires cfg.c >= 1 && Initial(s) && Run(s, steps, cfg, s')
    ensures s'.file.occupants == s'.file.readers + s'.file.writers == Count(s'.threads, Read) + Count(s'.threads, Write)
    ensures s'.file.writers <= 1 && s'.file.occupants <= cfg.c
    ensures s'.file.deleted ==> forall i :: 0 <= i < |s'.threads| && s'.threads[i].at.Working? ==>
      s'.threads[i].op == Delete
  {
    InitialInv(s, cfg);
    RunKeeps(s, steps, cfg, s');
    forall i | s'.file.deleted && 0 <= i < |s'.threads| && s'.threads[i].at.Working? ensures s'.threads[i].op == Delete
    {
      CountWith(s'.threads, i, s'.threads[i].(at := Looping), s'.threads[i].op);
    }
  }

  /** A deleted file stays deleted. */
  lemma {:induction false} DeletedForGood(s: State, steps: seq<Step>, cfg: Config, s': State)
    requires s.file.deleted && Run(s, steps, cfg, s')
    ensures s'.file.deleted
    decreases |steps|
  {
    if steps != [] {
      DeletedForGood(Next(s, steps[0], cfg), steps[1..], cfg, s');
    }
  }

  /**
   No wakeup is lost: no thread waits unsignalled for what it could have, and
   on a deleted file none does at all once the deleter has finished.
   */
  lemma NoLostWakeup(s: State, steps: seq<Step>, cfg: Config, s': State, i: nat)
    requires cfg.c >= 1 && Initial(s) && Run(s, steps, cfg, s') && i < |s'.threads|
      && s'.threads[i].at == Waiting(false)
    ensures !CanProcess(s'.file, s'.threads[i].op, cfg.c)
    ensures s'.file.deleted ==> exists j :: 0 <= j < |s'.threads| && AtWork(s'.threads[j], Delete)
  {
    InitialInv(s, cfg);
    RunKeeps(s, steps, cfg, s');
    assert RightlyWaiting(s'.file, s'.threads[i], cfg.c);
  }

  /** A finished request has one outcome, and one that was taken up was so within its time. */
  lemma OneOutcome(s: State, steps: seq<Step>, cfg: Config, s': State, i: nat)
    requires cfg.c >= 1 && Initial(s) && Run(s, steps, cfg, s') && i < |s'.threads|
    ensures s'.threads[i].at.Finished? <==> |s'.threads[i].outcomes| == 1
    ensures |s'.threads[i].outcomes| <= 1
    ensures s'.threads[i].outcomes == [Completed] ==> s'.threads[i].takenUp.Some?
    ensures s'.threads[i].takenUp.Some? ==>
      s'.threads[i].send + 1 <= s'.threads[i].takenUp.value < s'.threads[i].send + cfg.t
      && (s'.threads[i].at.Finished? ==> s'.threads[i].outcomes == [Completed])
  {
    InitialInv(s, cfg);
    RunKeeps(s, steps, cfg, s');
    assert InOrder(s'.threads[i], s'.now, cfg.t);
  }

  /** At most one delete is ever taken up. */
  lemma OneDelete(s: State, steps: seq<Step>, cfg: Config, s': State, i: nat, j: nat)
    requires cfg.c >= 1 && Initial(s) && Run(s, steps, cfg, s') && i < j < |s'.threads|
    requires s'.threads[i].op == Delete && s'.threads[j].op == Delete
    ensures s'.threads[i].takenUp.None? || s'.threads[j].takenUp.None?
  {
    InitialInv(s, cfg);
    RunKeeps(s, steps, cfg, s');
  }
}
