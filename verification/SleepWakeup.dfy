/**
 sleep and wakeup of kernel/proc.c, lock by lock: any number of processes wait
 for a condition that lk protects, and make it true, in every interleaving of
 the steps between one lock operation and the next.
 */
module SleepWakeup {
  import opened Common

  datatype Place =
    | Outside                     // holding neither lock
    | Entered                     // holding lk, about to test the condition
    | Tested                      // holding lk, the condition was false, calling sleep
    | Both                        // sleep holds lk and the process's own lock
    | Dropped                     // sleep has released lk
    | Marked                      // state is SLEEPING, own lock not yet released
    | Parked(runnable: bool)      // off the CPU, own lock free
    | Resumed                     // running again in sleep, holding its own lock
    | Scanning(next: nat)         // holding lk, inside wakeup, about to look at process next

  datatype State = State(lk: Option<nat>, cond: bool, at: seq<Place>)

  datatype Step =
    | Acquire(p: nat)             // lk, to test the condition
    | Test(p: nat, consume: bool) // true: leave, perhaps making it false again; false: call sleep
    | LockSelf(p: nat) | DropLk(p: nat) | Mark(p: nat) | Park(p: nat)
    | Resume(p: nat) | Tidy(p: nat)
    | AcquireToWake(p: nat)       // lk, to change the condition and call wakeup
    | Set(p: nat, to: bool)       // change the condition, at any time before releasing lk
    | Look(p: nat)                // wakeup at one process
    | Release(p: nat)             // lk, after wakeup has looked at all
    | Kill(p: nat)                // kill makes any sleeper runnable

  predicate HoldsLk(pl: Place) {
    pl.Entered? || pl.Tested? || pl.Both? || pl.Scanning?
  }

  predicate HoldsOwn(pl: Place) {
    pl.Both? || pl.Dropped? || pl.Marked? || pl.Resumed?
  }

  // On the way to sleep, or asleep, and not made runnable.
  predicate Sleepy(pl: Place) {
    pl.Dropped? || pl.Marked? || pl == Parked(false)
  }

  predicate Enabled(s: State, st: Step) {
    && st.p < |s.at|
    && match st
       case Acquire(p) => s.at[p].Outside? && s.lk.None?
       case Test(p, consume) => s.at[p].Entered?
       case LockSelf(p) => s.at[p].Tested?
       case DropLk(p) => s.at[p].Both?
       case Mark(p) => s.at[p].Dropped?
       case Park(p) => s.at[p].Marked?
       case Resume(p) => s.at[p] == Parked(true)
       case Tidy(p) => s.at[p].Resumed?
       case AcquireToWake(p) => s.at[p].Outside? && s.lk.None?
       case Set(p, to) => s.at[p].Scanning?
       case Look(p) => s.at[p].Scanning? && s.at[p].next < |s.at|
         && (s.at[p].next == p || !HoldsOwn(s.at[s.at[p].next]))
       case Release(p) => s.at[p].Scanning? && s.at[p].next == |s.at|
       case Kill(p) => s.at[p].Parked?
  }

  function To(s: State, p: nat, pl: Place): State
    requires p < |s.at|
  {
    s.(at := s.at[p := pl])
  }

  // wakeup's test and store for process i
  function Woken(pl: Place): Place {
    if pl == Parked(false) then Parked(true) else pl
  }

  function Next(s: State, st: Step): State
    requires Enabled(s, st)
  {
    match st
    case Acquire(p) => To(s, p, Entered).(lk := Some(p))
    case Test(p, consume) =>
      if s.cond then To(s, p, Outside).(lk := None, cond := !consume) else To(s, p, Tested)
    case LockSelf(p) => To(s, p, Both)
    case DropLk(p) => To(s, p, Dropped).(lk := None)
    case Mark(p) => To(s, p, Marked)
    case Park(p) => To(s, p, Parked(false))
    case Resume(p) => To(s, p, Resumed)
    case Tidy(p) => To(s, p, Outside)
    case AcquireToWake(p) => To(s, p, Scanning(0)).(lk := Some(p))
    case Set(p, to) => s.(cond := to)
    case Look(p) =>
      var i := s.at[p].next;
      To(if i == p then s else To(s, i, Woken(s.at[i])), p, Scanning(i + 1))
    case Release(p) => To(s, p, Outside).(lk := None)
    case Kill(p) => To(s, p, Parked(true))
  }

  predicate Initial(s: State) {
    s.lk.None? && forall p :: 0 <= p < |s.at| ==> s.at[p].Outside?
  }

  ghost predicate Run(s: State, steps: seq<Step>, s': State)
    decreases |steps|
  {
    if steps == [] then s' == s else Enabled(s, steps[0]) && Run(Next(s, steps[0]), steps[1..], s')
  }

  // ---- the invariant

  ghost predicate OneHolder(s: State) {
    && (forall p :: 0 <= p < |s.at| && HoldsLk(s.at[p]) ==> s.lk == Some(p))
    && (s.lk.Some? ==> s.lk.value < |s.at| && HoldsLk(s.at[s.lk.value]))
  }

  // Who has tested the condition and still holds lk found it false, and it still is.
  ghost predicate TestsStand(s: State) {
    forall p :: 0 <= p < |s.at| && (s.at[p].Tested? || s.at[p].Both?) ==> !s.cond
  }

  // Nobody that wakeup has looked at is asleep or going to sleep.
  ghost predicate PassedAwake(s: State) {
    forall w, p :: 0 <= w < |s.at| && s.at[w].Scanning? && 0 <= p < |s.at| && p < s.at[w].next && p != w ==>
      !Sleepy(s.at[p])
  }

  predicate WakeupUnderWay(s: State) {
    s.lk.Some? && s.lk.value < |s.at| && s.at[s.lk.value].Scanning?
  }

  // And outside of wakeup nobody is while the condition is true.
  ghost predicate NobodySleepsOnTrue(s: State) {
    s.cond && !WakeupUnderWay(s) ==> forall p :: 0 <= p < |s.at| ==> !Sleepy(s.at[p])
  }

  ghost predicate Inv(s: State) {
    OneHolder(s) && TestsStand(s) && PassedAwake(s) && NobodySleepsOnTrue(s)
  }

  lemma HolderStep(s: State, st: Step)
    requires OneHolder(s) && Enabled(s, st)
    ensures OneHolder(Next(s, st))
  {
  }

  lemma TestsStep(s: State, st: Step)
    requires OneHolder(s) && TestsStand(s) && Enabled(s, st)
    ensures TestsStand(Next(s, st))
  {
  }

  lemma PassedStep(s: State, st: Step)
    requires OneHolder(s) && PassedAwake(s) && Enabled(s, st)
    ensures PassedAwake(Next(s, st))
  {
    var s' := Next(s, st);
    forall w, p | 0 <= w < |s'.at| && s'.at[w].Scanning? && 0 <= p < |s'.at| && p < s'.at[w].next && p != w
      ensures !Sleepy(s'.at[p])
    {
      assert s.at[w].Scanning? && p < s.at[w].next ==> !Sleepy(s.at[p]);
    }
  }

  lemma SleepsStep(s: State, st: Step)
    requires Inv(s) && Enabled(s, st)
    ensures NobodySleepsOnTrue(Next(s, st))
  {
    var s' := Next(s, st);
    if st.Release? {
      assert forall p :: 0 <= p < |s.at| && p != st.p ==> !Sleepy(s.at[p]);
    } else if st.DropLk? {
      assert !s.cond;
    }
  }

  lemma StepKeeps(s: State, st: Step)
    requires Inv(s) && Enabled(s, st)
    ensures Inv(Next(s, st)) && |Next(s, st).at| == |s.at|
  {
    hide OneHolder, TestsStand, PassedAwake, NobodySleepsOnTrue;
    HolderStep(s, st);
    TestsStep(s, st);
    PassedStep(s, st);
    SleepsStep(s, st);
  }

  lemma {:induction false} RunKeeps(s: State, steps: seq<Step>, s': State)
    requires Inv(s) && Run(s, steps, s')
    ensures Inv(s') && |s'.at| == |s.at|
    decreases |steps|
  {
    if steps != [] {
      StepKeeps(s, steps[0]);
      RunKeeps(Next(s, steps[0]), steps[1..], s');
    }
  }

  /** No wakeup is lost: while the condition is true and no wakeup is under way, nobody is left sleeping. */
  lemma NoLostWakeup(s: State, steps: seq<Step>, s': State, p: nat)
    requires Initial(s) && Run(s, steps, s') && p < |s'.at|
    requires s'.cond && !WakeupUnderWay(s')
    ensures !Sleepy(s'.at[p])
  {
    RunKeeps(s, steps, s');
  }

  /** When a wakeup made under lk releases it, everybody who slept or was about to is runnable. */
  lemma EverySleeperIsWoken(s: State, steps: seq<Step>, s': State, w: nat, p: nat)
    requires Initial(s) && Run(s, steps, s') && Enabled(s', Release(w)) && p < |s'.at| && p != w
    ensures !Sleepy(Next(s', Release(w)).at[p])
  {
    RunKeeps(s, steps, s');
  }

  /** Nobody ever holds lk together with another. */
  lemma LkExcludes(s: State, steps: seq<Step>, s': State, p: nat, q: nat)
    requires Initial(s) && Run(s, steps, s') && p < |s'.at| && q < |s'.at| && p != q && HoldsLk(s'.at[p])
    ensures !HoldsLk(s'.at[q])
  {
    RunKeeps(s, steps, s');
  }
}
