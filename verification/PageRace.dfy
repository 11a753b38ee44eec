/**
 One physical page and its reference count when kfree's test, its decrement
 and its push on the free list are separate steps, and so are the store that
 clears the entry after kfree has returned, mapping a page and counting it in
 fork, and reading the count and setting PTE_W in cowalloc.
 Each process does one thing at a time; different processes interleave freely.
 */
module PageRace {
  import opened Common

  datatype Phase = Testing | Decrementing | Freeing

  datatype State = State(
    count: int,               // pageref.ref of the page
    listed: nat,              // how often the page is on the free list
    leaves: map<nat, bool>,   // user entries that map it and are not being unmapped, with their PTE_W
    stale: map<nat, bool>,    // entries being unmapped, valid until they are cleared
    dropping: map<nat, Phase>, // those of them whose kfree is under way
    forking: map<nat, nat>,   // child entries mapped but not yet counted, with their parent's
    claiming: set<nat>)       // entries whose cowalloc has read a count of one

  datatype Step =
    | Alloc(h: nat)                    // kalloc, and a writable entry for the page
    | ForkMap(parent: nat, child: nat) // uvmcopy: write-protect and mappages
    | ForkInc(child: nat)              // uvmcopy: refcnt_inc
    | Drop(h: nat)                     // uvmunmap calls kfree for an entry
    | Test(h: nat)                     // kfree: get_refcnt(pa) > 1 ?
    | Dec(h: nat)                      // kfree: refcnt_dec
    | Push(h: nat)                     // kfree: on the free list
    | Clear(h: nat)                    // uvmunmap, kfree having returned: *pte = 0
    | CowTest(h: nat)                  // cowalloc: get_refcnt(pa) == 1
    | CowSet(h: nat)                   // cowalloc: set PTE_W

  const Boot: State := State(0, 1, map[], map[], map[], map[], {})

  // The valid entries of the page.
  ghost function Entries(s: State): map<nat, bool> {
    s.leaves + s.stale
  }

  // kfree has returned for entry h; all its process still does is to clear it.
  ghost predicate Clearing(s: State, h: nat) {
    h in s.stale && h !in s.dropping
  }

  // The process owning entry h is not in the middle of something.
  ghost predicate Idle(s: State, h: nat) {
    h in s.leaves && h !in s.forking && h !in s.forking.Values && h !in s.claiming
  }

  ghost predicate Enabled(s: State, step: Step) {
    match step
    case Alloc(h) => s.listed > 0 && h !in s.stale
    case ForkMap(p, c) => Idle(s, p) && c !in s.leaves && c !in s.stale
    case ForkInc(c) => c in s.forking
    case Drop(h) => Idle(s, h)
    case Test(h) => h in s.dropping && s.dropping[h] == Testing
    case Dec(h) => h in s.dropping && s.dropping[h] == Decrementing
    case Push(h) => h in s.dropping && s.dropping[h] == Freeing
    case Clear(h) => Clearing(s, h)
    case CowTest(h) => Idle(s, h) && !s.leaves[h] && s.count == 1
    case CowSet(h) => h in s.claiming
  }

  ghost function Next(s: State, step: Step): State {
    match step
    case Alloc(h) => s.(listed := if s.listed > 0 then s.listed - 1 else 0, count := 1, leaves := s.leaves[h := true])
    case ForkMap(p, c) => s.(leaves := s.leaves[p := false][c := false], forking := s.forking[c := p])
    case ForkInc(c) => s.(count := s.count + 1, forking := s.forking - {c})
    case Drop(h) => s.(leaves := s.leaves - {h}, stale := s.stale[h := h in s.leaves && s.leaves[h]],
      dropping := s.dropping[h := Testing])
    case Test(h) => s.(dropping := s.dropping[h := if s.count > 1 then Decrementing else Freeing])
    case Dec(h) => s.(count := s.count - 1, dropping := s.dropping - {h})
    case Push(h) => s.(listed := s.listed + 1, dropping := s.dropping - {h})
    case Clear(h) => s.(stale := s.stale - {h})
    case CowTest(h) => s.(claiming := s.claiming + {h})
    case CowSet(h) => s.(leaves := s.leaves[h := true], claiming := s.claiming - {h})
  }

  // Nobody uses the page or is about to, or to stop.
  ghost predicate Quiet(s: State) {
    s.leaves == map[] && s.dropping == map[] && s.forking == map[] && s.claiming == {}
  }

  // The page belongs to entry h and to nothing else.
  ghost predicate Exclusive(s: State, h: nat) {
    s.leaves.Keys == {h} && s.dropping == map[] && s.forking == map[] && s.count == 1 && s.listed == 0
  }

  ghost predicate Inv(s: State) {
    Counted(s) && Given(s)
  }

  ghost predicate Counted(s: State) {
    && s.listed <= 1
    && (s.listed == 1 ==> Quiet(s))
    && (s.listed == 0 ==> s.count == |s.leaves| + |s.dropping| - |s.forking|)
    && (forall c :: c in s.forking ==> c in s.leaves && s.forking[c] in s.leaves && s.forking[c] !in s.forking)
    && (forall h :: h in s.claiming ==> Exclusive(s, h))
    && (forall h :: h in s.leaves && s.leaves[h] ==> Exclusive(s, h))
    && (forall h :: h in s.dropping && s.dropping[h] == Freeing ==> s.leaves == map[] && s.dropping.Keys == {h})
  }

  // Entries given up: a writable one is the only one in kfree, with no other left to use the page.
  ghost predicate Given(s: State) {
    && (forall h :: h in s.stale ==> h !in s.leaves)
    && (forall h :: h in s.dropping ==> h in s.stale)
    && (forall h :: h in s.dropping && s.stale[h] ==> s.leaves == map[] && s.dropping.Keys == {h})
  }

  lemma Size<T>(m: map<nat, T>)
    ensures |m| == |m.Keys|
  {
  }

  // Children waiting to be counted leave at least their parent's entry over.
  lemma Uncounted(s: State, others: set<nat>)
    requires Counted(s) && others <= s.leaves.Keys - s.forking.Keys - s.forking.Values
    ensures s.forking == map[] ==> |s.leaves| >= |others|
    ensures s.forking != map[] ==> |s.leaves| >= |s.forking| + |others| + 1
  {
    Size(s.leaves);
    Size(s.forking);
    if s.forking == map[] {
      Subset(others, s.leaves.Keys);
    } else {
      var c :| c in s.forking;
      var parent := s.forking[c];
      assert parent in s.forking.Values;
      var some := s.forking.Keys + others + {parent};
      assert |some| == |s.forking.Keys| + |others| + 1;
      Subset(some, s.leaves.Keys);
    }
  }

  lemma TestKeeps(s: State, h: nat)
    requires Counted(s) && Given(s) && Enabled(s, Test(h))
    ensures Counted(Next(s, Test(h)))
  {
    var s' := Next(s, Test(h));
    assert s'.dropping.Keys == s.dropping.Keys;
    Size(s.dropping);
    Size(s'.dropping);
    if s.count <= 1 {
      Uncounted(s, {});
      Subset({h}, s.dropping.Keys);
      assert s.leaves == map[] by {
        Size(s.leaves);
      }
      assert |s.dropping.Keys - {h}| == 0;
      assert s.dropping.Keys == {h};
    }
  }

  lemma CowTestKeeps(s: State, h: nat)
    requires Counted(s) && Given(s) && Enabled(s, CowTest(h))
    ensures Counted(Next(s, CowTest(h)))
  {
    Uncounted(s, {h});
    Size(s.leaves);
    Size(s.dropping);
    assert s.forking == map[];
    assert |s.leaves.Keys - {h}| == |s.leaves.Keys| - 1;
    assert s.leaves.Keys == {h};
  }

  lemma OneMore<T>(m: map<nat, T>, k: nat, v: T)
    requires k !in m
    ensures |m[k := v]| == |m| + 1
  {
    assert m[k := v].Keys == m.Keys + {k};
  }

  lemma OneLess<T>(m: map<nat, T>, k: nat)
    requires k in m
    ensures |m - {k}| == |m| - 1
  {
    assert (m - {k}).Keys == m.Keys - {k};
  }

  lemma ForkMapSizes(s: State, p: nat, c: nat)
    requires p in s.leaves && c !in s.leaves && c !in s.forking
    ensures |s.leaves[p := false][c := false]| == |s.leaves| + 1 && |s.forking[c := p]| == |s.forking| + 1
  {
    assert s.leaves[p := false].Keys == s.leaves.Keys;
    Size(s.leaves);
    Size(s.leaves[p := false]);
    OneMore(s.leaves[p := false], c, false);
    OneMore(s.forking, c, p);
  }

  // Beside an idle entry no other is writable, and nobody is claiming the page.
  lemma ReadOnlyElsewhere(s: State, p: nat)
    requires Counted(s) && Idle(s, p)
    ensures s.claiming == {} && s.listed == 0 && forall h :: h in s.leaves && h != p ==> !s.leaves[h]
  {
    forall h | h in s.leaves && h != p ensures !s.leaves[h] {
      assert s.leaves[h] ==> s.leaves.Keys == {h};
    }
  }

  lemma ForkMapKeeps(s: State, p: nat, c: nat)
    requires Counted(s) && Given(s) && Enabled(s, ForkMap(p, c))
    ensures Counted(Next(s, ForkMap(p, c)))
  {
    var s' := Next(s, ForkMap(p, c));
    ForkMapSizes(s, p, c);
    ReadOnlyElsewhere(s, p);
    assert forall d :: d in s.forking ==> s.forking[d] in s.forking.Values;
  }

  lemma DropKeeps(s: State, h: nat)
    requires Counted(s) && Given(s) && Enabled(s, Drop(h))
    ensures Counted(Next(s, Drop(h)))
  {
    OneLess(s.leaves, h);
    OneMore(s.dropping, h, Testing);
    assert forall g :: g in s.leaves && g != h ==> !s.leaves[g];
    assert s.claiming == {} && s.listed == 0;
    assert forall d :: d in s.forking ==> s.forking[d] in s.forking.Values;
  }

  lemma ForkIncKeeps(s: State, c: nat)
    requires Counted(s) && Given(s) && Enabled(s, ForkInc(c))
    ensures Counted(Next(s, ForkInc(c)))
  {
    OneLess(s.forking, c);
    assert forall g :: g in s.leaves ==> !s.leaves[g];
    assert s.claiming == {} && s.listed == 0;
  }

  lemma DecKeeps(s: State, h: nat)
    requires Counted(s) && Given(s) && Enabled(s, Dec(h))
    ensures Counted(Next(s, Dec(h)))
  {
    OneLess(s.dropping, h);
    assert forall g :: g in s.leaves ==> !s.leaves[g];
    assert s.claiming == {} && s.listed == 0;
  }

  lemma PushKeeps(s: State, h: nat)
    requires Counted(s) && Given(s) && Enabled(s, Push(h))
    ensures Counted(Next(s, Push(h))) && Quiet(Next(s, Push(h)))
  {
    assert s.claiming == {} && s.listed == 0;
    assert s.forking.Keys == {};
    assert (s.dropping - {h}).Keys == {};
  }

  lemma AllocKeeps(s: State, h: nat)
    requires Counted(s) && Enabled(s, Alloc(h))
    ensures Counted(Next(s, Alloc(h)))
  {
    assert Next(s, Alloc(h)).leaves == map[h := true];
  }

  lemma CowSetKeeps(s: State, h: nat)
    requires Counted(s) && Enabled(s, CowSet(h))
    ensures Counted(Next(s, CowSet(h)))
  {
    assert Next(s, CowSet(h)).leaves.Keys == s.leaves.Keys;
  }

  lemma CountedStep(s: State, step: Step)
    requires Counted(s) && Given(s) && Enabled(s, step)
    ensures Counted(Next(s, step))
  {
    hide Counted, Given, Enabled, Next;
    match step
    case Alloc(h) => AllocKeeps(s, h);
    case ForkMap(p, c) => ForkMapKeeps(s, p, c);
    case ForkInc(c) => ForkIncKeeps(s, c);
    case Drop(h) => DropKeeps(s, h);
    case Test(h) => TestKeeps(s, h);
    case Dec(h) => DecKeeps(s, h);
    case Push(h) => PushKeeps(s, h);
    case Clear(h) => ClearKeeps(s, h);
    case CowTest(h) => CowTestKeeps(s, h);
    case CowSet(h) => CowSetKeeps(s, h);
  }

  lemma ClearKeeps(s: State, h: nat)
    requires Counted(s) && Enabled(s, Clear(h))
    ensures Counted(Next(s, Clear(h)))
  {
  }

  lemma GivenDrop(s: State, h: nat)
    requires Counted(s) && Given(s) && Enabled(s, Drop(h))
    ensures Given(Next(s, Drop(h)))
  {
    if s.leaves[h] {
      assert s.leaves.Keys == {h};
      assert (s.leaves - {h}).Keys == {};
    }
  }

  lemma GivenEnd(s: State, h: nat)
    requires Given(s) && (Enabled(s, Dec(h)) || Enabled(s, Push(h)))
    ensures Given(Next(s, Dec(h))) && Given(Next(s, Push(h)))
  {
    assert s.dropping.Keys == {h} ==> (s.dropping - {h}).Keys == {};
  }

  lemma GivenTest(s: State, h: nat)
    requires Given(s) && Enabled(s, Test(h))
    ensures Given(Next(s, Test(h)))
  {
    assert Next(s, Test(h)).dropping.Keys == s.dropping.Keys;
  }

  lemma GivenStep(s: State, step: Step)
    requires Counted(s) && Given(s) && Enabled(s, step)
    ensures Given(Next(s, step))
  {
    if step.Drop? {
      GivenDrop(s, step.h);
    } else if step.Dec? || step.Push? {
      GivenEnd(s, step.h);
    } else if step.Test? {
      GivenTest(s, step.h);
    }
  }

  /** Every step, whoever takes it, keeps the invariant. */
  lemma StepKeeps(s: State, step: Step)
    requires Inv(s) && Enabled(s, step)
    ensures Inv(Next(s, step))
  {
    hide Counted, Given, Enabled, Next;
    CountedStep(s, step);
    GivenStep(s, step);
  }

  ghost function After(steps: seq<Step>): State {
    if steps == [] then Boot else Next(After(steps[..|steps| - 1]), steps[|steps| - 1])
  }

  ghost predicate Run(steps: seq<Step>) {
    steps == [] || (Run(steps[..|steps| - 1]) && Enabled(After(steps[..|steps| - 1]), steps[|steps| - 1]))
  }

  lemma {:induction false} RunKeeps(steps: seq<Step>)
    requires Run(steps)
    ensures Inv(After(steps))
  {
    if steps != [] {
      RunKeeps(steps[..|steps| - 1]);
      StepKeeps(After(steps[..|steps| - 1]), steps[|steps| - 1]);
    }
  }

  /**
   In every interleaving: a page is listed at most once; the entries of a
   listed page are all waiting to be cleared, their kfree done; beside a
   writable entry that is not, every other entry is; and between operations
   the count is the number of entries in use.
   */
  lemma RaceSafe(steps: seq<Step>)
    requires Run(steps)
    ensures var s := After(steps);
      && s.listed <= 1
      && (s.listed == 1 ==> forall h :: h in Entries(s) ==> Clearing(s, h))
      && (forall g, h :: g in Entries(s) && Entries(s)[g] && !Clearing(s, g) && h in Entries(s) && h != g ==>
         Clearing(s, h))
      && (s.listed == 0 && s.dropping == map[] && s.forking == map[] ==> s.count == |s.leaves|)
  {
    RunKeeps(steps);
  }

  // kfree puts the page on the free list while its entry is still there, and kalloc hands it out again.
  const StaleRun: seq<Step> := [Alloc(0), Drop(0), Test(0), Push(0), Alloc(1)]

  /** So a listed page can have a valid entry, and a page two writable ones. */
  lemma StaleEntries()
    ensures Run(StaleRun[..4]) && After(StaleRun[..4]).listed == 1 && Entries(After(StaleRun[..4])) == map[0 := true]
    ensures Run(StaleRun) && Entries(After(StaleRun)) == map[0 := true, 1 := true]
  {
    var l := StaleRun;
    Extends([], l[0]);
    assert [] + [l[0]] == l[..1];
    Extends(l[..1], l[1]);
    assert l[..1] + [l[1]] == l[..2];
    assert After(l[..2]) == State(1, 0, map[], map[0 := true], map[0 := Testing], map[], {});
    Extends(l[..2], l[2]);
    assert l[..2] + [l[2]] == l[..3];
    Extends(l[..3], l[3]);
    assert l[..3] + [l[3]] == l[..4];
    assert After(l[..4]) == State(1, 1, map[], map[0 := true], map[], map[], {});
    Extends(l[..4], l[4]);
    assert l[..4] + [l[4]] == l;
  }

  // Nobody uses the page, and it is not on the free list either.
  ghost predicate Leaked(s: State) {
    Quiet(s) && s.listed == 0
  }

  // No kfree tests the count while another is between its test and its decrement.
  ghost predicate Serial(steps: seq<Step>) {
    steps == [] || (
      var m := |steps| - 1;
      Serial(steps[..m]) && (steps[m].Test? ==> !Overlapping(After(steps[..m]))))
  }

  ghost predicate Overlapping(s: State) {
    exists h :: h in s.dropping && s.dropping[h] == Decrementing
  }

  // With one kfree at a time, the count it found above one cannot become zero.
  ghost predicate SerialInv(s: State) {
    && Inv(s) && !Leaked(s)
    && (forall g, h :: g in s.dropping && h in s.dropping && s.dropping[g] == s.dropping[h] == Decrementing ==> g == h)
    && (Overlapping(s) ==> s.count > 1)
  }

  // What a step leaves behind to show that the page is not lost.
  lemma NotLost(s: State, step: Step)
    requires Inv(s) && Enabled(s, step) && !step.Dec? && Inv(Next(s, step)) && !Leaked(s)
    ensures !Leaked(Next(s, step))
  {
    hide Inv, Exclusive;
    var s' := Next(s, step);
    match step
    case Alloc(h) => assert h in s'.leaves;
    case ForkMap(p, c) => assert c in s'.leaves;
    case ForkInc(c) => ChildMapped(s, c);
      assert c in s'.leaves;
    case Drop(h) => assert h in s'.dropping;
    case Test(h) => assert h in s'.dropping;
    case Push(h) => assert s'.listed > 0;
    case Clear(h) =>
    case CowTest(h) => assert h in s'.claiming;
    case CowSet(h) => assert h in s'.leaves;
  }

  lemma ChildMapped(s: State, c: nat)
    requires Inv(s) && c in s.forking
    ensures c in s.leaves
  {
  }

  lemma SerialDec(s: State, h: nat)
    requires SerialInv(s) && Enabled(s, Dec(h)) && Inv(Next(s, Dec(h)))
    ensures SerialInv(Next(s, Dec(h)))
  {
    assert Overlapping(s);
    assert !Overlapping(Next(s, Dec(h)));
  }

  lemma SerialStep(s: State, step: Step)
    requires SerialInv(s) && Enabled(s, step) && (step.Test? ==> !Overlapping(s))
    ensures SerialInv(Next(s, step))
  {
    hide Inv, Leaked;
    StepKeeps(s, step);
    if step.Dec? {
      SerialDec(s, step.h);
    } else {
      NotLost(s, step);
      DroppingMore(s, step);
    }
  }

  lemma DroppingMore(s: State, step: Step)
    requires Inv(s) && Enabled(s, step) && !step.Dec? && (step.Test? ==> !Overlapping(s))
    requires forall g, h :: g in s.dropping && h in s.dropping && s.dropping[g] == s.dropping[h] == Decrementing ==>
      g == h
    requires Overlapping(s) ==> s.count > 1
    ensures var s' := Next(s, step);
      && (forall g, h :: g in s'.dropping && h in s'.dropping && s'.dropping[g] == s'.dropping[h] == Decrementing ==>
         g == h)
      && (Overlapping(s') ==> s'.count > 1)
  {
    hide Inv, Next, Enabled;
    var s' := Next(s, step);
    if step.Test? {
      TestsOne(s, step.h);
      assert forall h :: h in s'.dropping && s'.dropping[h] == Decrementing ==> Decs(s', h);
    } else {
      forall h | h in s'.dropping && s'.dropping[h] == Decrementing
        ensures h in s.dropping && s.dropping[h] == Decrementing
      {
        NoNewDec(s, step, h);
      }
      CountStays(s, step);
    }
  }

  ghost predicate Decs(s: State, h: nat) {
    h in s.dropping && s.dropping[h] == Decrementing
  }

  lemma NoNewDec(s: State, step: Step, h: nat)
    requires Inv(s) && Enabled(s, step) && !step.Dec? && !step.Test?
    ensures Decs(Next(s, step), h) ==> Decs(s, h)
  {
  }

  // Only a fork adds to the count, and only kfree's decrement takes from it.
  lemma CountStays(s: State, step: Step)
    requires Inv(s) && Enabled(s, step) && !step.Dec?
    ensures s.dropping != map[] ==> Next(s, step).count >= s.count
  {
  }

  lemma TestsOne(s: State, h: nat)
    requires Enabled(s, Test(h)) && !Overlapping(s)
    ensures forall g :: Decs(Next(s, Test(h)), g) ==> g == h && s.count > 1
    ensures Next(s, Test(h)).count == s.count
  {
    assert forall g :: g in s.dropping ==> s.dropping[g] != Decrementing;
  }

  /** Then the page whose last entry goes is always back on the free list. */
  lemma {:induction false} SerialNeverLeaks(steps: seq<Step>)
    requires Run(steps) && Serial(steps)
    ensures SerialInv(After(steps)) && !Leaked(After(steps))
  {
    if steps != [] {
      SerialNeverLeaks(steps[..|steps| - 1]);
      SerialStep(After(steps[..|steps| - 1]), steps[|steps| - 1]);
    }
  }

  /** In every interleaving, what loses the page is a decrement that finds the count at one, and nothing else. */
  lemma LostExactlyWhen(steps: seq<Step>, step: Step)
    requires Run(steps) && Enabled(After(steps), step) && !Leaked(After(steps))
    ensures Leaked(Next(After(steps), step)) <==> step.Dec? && After(steps).count == 1
  {
    var s := After(steps);
    RunKeeps(steps);
    StepKeeps(s, step);
    if step.Dec? {
      LastDec(s, step.h);
    } else {
      NotLost(s, step);
    }
  }

  lemma LastDec(s: State, h: nat)
    requires Inv(s) && Enabled(s, Dec(h))
    ensures Leaked(Next(s, Dec(h))) <==> s.count == 1
  {
    Uncounted(s, {});
    Size(s.leaves);
    Size(s.dropping);
    OneLess(s.dropping, h);
    if s.count == 1 {
      assert |s.leaves| == 0 && |s.dropping - {h}| == 0;
    }
  }

  /** And then it is lost for good: all that is left to do is to clear entries. */
  lemma LostForGood(steps: seq<Step>, step: Step)
    requires Run(steps) && Leaked(After(steps)) && Enabled(After(steps), step)
    ensures step.Clear? && Leaked(Next(After(steps), step))
  {
    RunKeeps(steps);
  }

  // Two processes share the page and give it up; both test before either decrements.
  const LeakingRun: seq<Step> := [
    Alloc(0), ForkMap(0, 1), ForkInc(1), Drop(0), Drop(1), Test(0), Test(1), Dec(0), Dec(1), Clear(0), Clear(1)]

  lemma Extends(steps: seq<Step>, step: Step)
    requires Run(steps) && Enabled(After(steps), step)
    ensures Run(steps + [step]) && After(steps + [step]) == Next(After(steps), step)
  {
    assert (steps + [step])[..|steps|] == steps;
  }

  /** With overlapping kfrees the page can be lost: no entry, not free. */
  lemma OverlapLeaks()
    ensures Run(LeakingRun) && Leaked(After(LeakingRun)) && Entries(After(LeakingRun)) == map[]
  {
    var l := LeakingRun;
    Extends([], l[0]);
    assert [] + [l[0]] == l[..1];
    assert After(l[..1]) == State(1, 0, map[0 := true], map[], map[], map[], {});
    Extends(l[..1], l[1]);
    assert l[..1] + [l[1]] == l[..2];
    assert After(l[..2]) == State(1, 0, map[0 := false, 1 := false], map[], map[], map[1 := 0], {});
    Extends(l[..2], l[2]);
    assert l[..2] + [l[2]] == l[..3];
    assert After(l[..3]) == State(2, 0, map[0 := false, 1 := false], map[], map[], map[], {});
    LeakingDrops();
    LeakingTests();
    LeakingEnd();
  }

  lemma LeakingDrops()
    requires Run(LeakingRun[..3])
      && After(LeakingRun[..3]) == State(2, 0, map[0 := false, 1 := false], map[], map[], map[], {})
    ensures Run(LeakingRun[..5])
    ensures After(LeakingRun[..5]) ==
      State(2, 0, map[], map[0 := false, 1 := false], map[0 := Testing, 1 := Testing], map[], {})
  {
    var l := LeakingRun;
    Extends(l[..3], l[3]);
    assert l[..3] + [l[3]] == l[..4];
    assert After(l[..4]) == State(2, 0, map[1 := false], map[0 := false], map[0 := Testing], map[], {});
    Extends(l[..4], l[4]);
    assert l[..4] + [l[4]] == l[..5];
  }

  lemma LeakingTests()
    requires Run(LeakingRun[..5])
    requires After(LeakingRun[..5]) ==
      State(2, 0, map[], map[0 := false, 1 := false], map[0 := Testing, 1 := Testing], map[], {})
    ensures Run(LeakingRun[..7])
    ensures After(LeakingRun[..7]) ==
      State(2, 0, map[], map[0 := false, 1 := false], map[0 := Decrementing, 1 := Decrementing], map[], {})
  {
    var l := LeakingRun;
    Extends(l[..5], l[5]);
    assert l[..5] + [l[5]] == l[..6];
    Extends(l[..6], l[6]);
    assert l[..6] + [l[6]] == l[..7];
  }

  lemma LeakingEnd()
    requires Run(LeakingRun[..7])
    requires After(LeakingRun[..7]) ==
      State(2, 0, map[], map[0 := false, 1 := false], map[0 := Decrementing, 1 := Decrementing], map[], {})
    ensures Run(LeakingRun) && Leaked(After(LeakingRun)) && Entries(After(LeakingRun)) == map[]
  {
    var l := LeakingRun;
    Extends(l[..7], l[7]);
    assert l[..7] + [l[7]] == l[..8];
    Extends(l[..8], l[8]);
    assert l[..8] + [l[8]] == l[..9];
    assert After(l[..9]) == State(0, 0, map[], map[0 := false, 1 := false], map[], map[], {});
    Extends(l[..9], l[9]);
    assert l[..9] + [l[9]] == l[..10];
    Extends(l[..10], l[10]);
    assert l[..10] + [l[10]] == l;
  }
}
