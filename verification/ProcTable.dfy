/**
 The process table of kernel/proc.c: fork, exit, reparent, wait and freeproc.
 A method is one critical section (on a process's lock or on wait_lock), and
 sections of different processes may come in any order; fork is three of them.
 */
module ProcTable {
  import opened Common

  const INIT: nat := 0

  // Alive stands for RUNNABLE, RUNNING and SLEEPING.
  datatype Status = Unused | Used | Alive | Zombie
  datatype Proc = Proc(state: Status, pid: nat, parent: Option<nat>, xstate: int)

  const FREE: Proc := Proc(Unused, 0, None, 0)

  // A fork under way: the child's slot, and whether its parent field is set yet.
  datatype Fork = Fork(child: nat, linked: bool)

  // Forks under way, the status of every process that has exited, and what wait has returned.
  datatype History = History(forking: map<nat, Fork>, exited: map<nat, int>, reported: seq<(nat, int)>)

  // ---- the invariant

  // A parent is alive; only init and children not yet linked have none.
  ghost predicate Parents(procs: seq<Proc>) {
    && INIT < |procs| && procs[INIT].state == Alive && procs[INIT].parent == None
    && (forall i :: 0 <= i < |procs| && procs[i].parent.Some? ==>
        procs[i].state != Unused && procs[i].parent.value < |procs| && procs[i].parent.value != i
          && procs[procs[i].parent.value].state == Alive)
    && (forall i :: 0 <= i < |procs| && i != INIT && (procs[i].state == Alive || procs[i].state == Zombie) ==>
       procs[i].parent.Some?)
  }

  ghost predicate Forks(procs: seq<Proc>, forking: map<nat, Fork>) {
    && (forall p :: p in forking ==>
        && p < |procs| && forking[p].child < |procs|
        && procs[p].state == Alive && procs[forking[p].child].state == Used
        && procs[forking[p].child].parent == if forking[p].linked then Some(p) else None)
    && (forall p, q :: p in forking && q in forking && p != q ==> forking[p].child != forking[q].child)
  }

  ghost predicate Pids(procs: seq<Proc>, nextpid: nat) {
    && (forall i :: 0 <= i < |procs| ==>
       if procs[i].state == Unused then procs[i] == FREE else 0 < procs[i].pid < nextpid)
    && (forall i, j :: 0 <= i < j < |procs| && procs[i].state != Unused && procs[j].state != Unused ==>
       procs[i].pid != procs[j].pid)
  }

  // A zombie is exited and not yet reported; its slot still has its own status.
  ghost predicate Exits(procs: seq<Proc>, nextpid: nat, exited: map<nat, int>, reported: seq<(nat, int)>) {
    && 0 < nextpid && (forall pid :: pid in exited ==> pid < nextpid)
    && (forall i :: 0 <= i < |procs| && procs[i].state == Zombie ==>
       procs[i].pid in exited && exited[procs[i].pid] == procs[i].xstate)
    && (forall i :: 0 <= i < |procs| && (procs[i].state == Alive || procs[i].state == Used) ==> procs[i].pid !in exited)
    && (forall k :: 0 <= k < |reported| ==> reported[k].0 in exited && exited[reported[k].0] == reported[k].1)
    && (forall k, i :: 0 <= k < |reported| && 0 <= i < |procs| && procs[i].state != Unused ==>
       reported[k].0 != procs[i].pid)
    && (forall k, m :: 0 <= k < m < |reported| ==> reported[k].0 != reported[m].0)
  }

  ghost predicate IsZombie(procs: seq<Proc>, pid: nat, i: nat) {
    i < |procs| && procs[i].state == Zombie && procs[i].pid == pid
  }

  ghost predicate InTable(procs: seq<Proc>, pid: nat) {
    exists i: nat :: IsZombie(procs, pid, i)
  }

  ghost predicate Reported(reported: seq<(nat, int)>, pid: nat) {
    exists k :: 0 <= k < |reported| && reported[k].0 == pid
  }

  // No exit is lost.
  ghost predicate NoneLost(procs: seq<Proc>, exited: map<nat, int>, reported: seq<(nat, int)>) {
    forall pid :: pid in exited ==> Reported(reported, pid) || InTable(procs, pid)
  }

  ghost predicate Inv(procs: seq<Proc>, nextpid: nat, h: History) {
    && Parents(procs) && Forks(procs, h.forking) && Pids(procs, nextpid)
    && Exits(procs, nextpid, h.exited, h.reported) && NoneLost(procs, h.exited, h.reported)
  }

  // Nobody sleeps in wait who has a zombie to wait for.
  ghost predicate Rested(procs: seq<Proc>, asleep: set<nat>) {
    && (forall p :: p in asleep ==> p < |procs| && procs[p].state == Alive)
    && (forall i :: 0 <= i < |procs| && procs[i].state == Zombie && procs[i].parent.Some? ==>
       procs[i].parent.value !in asleep)
  }

  /** Every zombie has a living parent, which can wait for it. */
  lemma ZombiesHaveParents(procs: seq<Proc>, nextpid: nat, h: History, i: nat)
    requires Inv(procs, nextpid, h) && i < |procs| && procs[i].state == Zombie
    ensures procs[i].parent.Some? && procs[i].parent.value < |procs| && procs[procs[i].parent.value].state == Alive
  {
    assert i != INIT;
  }

  /** What wait returned: no pid twice, each with the status its process exited with. */
  lemma ReportedOnce(procs: seq<Proc>, nextpid: nat, h: History, k: nat, m: nat)
    requires Inv(procs, nextpid, h) && k < |h.reported| && m < |h.reported| && h.reported[k].0 == h.reported[m].0
    ensures k == m && h.reported[k].0 in h.exited && h.exited[h.reported[k].0] == h.reported[k].1
  {
  }

  /** No wakeup of wait is lost: a process asleep in wait has no zombie child. */
  lemma SleepersHaveNoZombies(procs: seq<Proc>, asleep: set<nat>, p: nat, i: nat)
    requires Rested(procs, asleep) && p in asleep && IsChild(procs, p, i)
    ensures procs[i].state != Zombie
  {
  }

  /** Every process that has exited has been reported or is a zombie in the table, and not both. */
  lemma ReportedOrZombie(procs: seq<Proc>, nextpid: nat, h: History, pid: nat)
    requires Inv(procs, nextpid, h) && pid in h.exited
    ensures Reported(h.reported, pid) <==> !InTable(procs, pid)
  {
    if Reported(h.reported, pid) {
      var k :| 0 <= k < |h.reported| && h.reported[k].0 == pid;
      forall i: nat ensures !IsZombie(procs, pid, i) {
        assert i < |procs| && procs[i].state != Unused ==> h.reported[k].0 != procs[i].pid;
      }
    }
  }

  // A slot that is no zombie loses none by changing.
  lemma NoneLostWith(procs: seq<Proc>, exited: map<nat, int>, reported: seq<(nat, int)>, np: nat, x: Proc)
    requires NoneLost(procs, exited, reported) && np < |procs| && procs[np].state != Zombie
    ensures NoneLost(procs[np := x], exited, reported)
  {
    forall pid | pid in exited && !Reported(reported, pid) ensures InTable(procs[np := x], pid) {
      var i: nat :| IsZombie(procs, pid, i);
      assert IsZombie(procs[np := x], pid, i);
    }
  }

  lemma NoneLostReap(procs: seq<Proc>, exited: map<nat, int>, reported: seq<(nat, int)>, i: nat)
    requires NoneLost(procs, exited, reported) && i < |procs| && procs[i].state == Zombie
    ensures NoneLost(procs[i := FREE], exited, reported + [(procs[i].pid, procs[i].xstate)])
  {
    var reported' := reported + [(procs[i].pid, procs[i].xstate)];
    assert reported'[|reported|].0 == procs[i].pid && forall k :: 0 <= k < |reported| ==> reported'[k] == reported[k];
    forall pid | pid in exited && !Reported(reported', pid) ensures InTable(procs[i := FREE], pid) {
      var j: nat :| IsZombie(procs, pid, j);
      assert IsZombie(procs[i := FREE], pid, j);
    }
  }

  lemma NoneLostExit(procs: seq<Proc>, exited: map<nat, int>, reported: seq<(nat, int)>, p: nat, status: int)
    requires NoneLost(procs, exited, reported) && p < |procs| && procs[p].state == Alive
    ensures NoneLost(Reparented(procs, p)[p := Died(procs[p], status)], exited[procs[p].pid := status], reported)
  {
    var procs' := Reparented(procs, p)[p := Died(procs[p], status)];
    assert IsZombie(procs', procs[p].pid, p);
    forall pid | pid in exited && !Reported(reported, pid) ensures InTable(procs', pid) {
      var i: nat :| IsZombie(procs, pid, i);
      assert IsZombie(procs', pid, i);
    }
  }

  // ---- reparent

  ghost function Reparented(procs: seq<Proc>, p: nat): (r: seq<Proc>)
    ensures |r| == |procs|
    ensures forall i :: 0 <= i < |procs| ==>
      r[i] == if procs[i].parent == Some(p) then procs[i].(parent := Some(INIT)) else procs[i]
  {
    seq(|procs|, i requires 0 <= i < |procs| => if procs[i].parent == Some(p) then procs[i].(parent := Some(INIT))
      else procs[i])
  }

  function Died(x: Proc, status: int): Proc {
    x.(state := Zombie, xstate := status)
  }

  lemma ExitParents(procs: seq<Proc>, p: nat, status: int)
    requires Parents(procs) && p < |procs| && p != INIT && procs[p].state == Alive
    ensures Parents(Reparented(procs, p)[p := Died(procs[p], status)])
  {
    var procs' := Reparented(procs, p)[p := Died(procs[p], status)];
    forall i | 0 <= i < |procs| && procs'[i].parent.Some?
      ensures procs'[i].parent.value < |procs| && procs'[i].parent.value != i
        && procs'[procs'[i].parent.value].state == Alive
    {
      assert procs[i].parent.Some?;
    }
  }

  lemma ExitForks(procs: seq<Proc>, forking: map<nat, Fork>, p: nat, status: int)
    requires Forks(procs, forking) && Parents(procs) && p < |procs| && p != INIT && procs[p].state == Alive
      && p !in forking
    ensures Forks(Reparented(procs, p)[p := Died(procs[p], status)], forking)
  {
  }

  lemma ExitPids(procs: seq<Proc>, nextpid: nat, p: nat, status: int)
    requires Pids(procs, nextpid) && Parents(procs) && p < |procs| && procs[p].state == Alive
    ensures Pids(Reparented(procs, p)[p := Died(procs[p], status)], nextpid)
  {
  }

  lemma ExitExits(procs: seq<Proc>, nextpid: nat, exited: map<nat, int>, reported: seq<(nat, int)>, p: nat, status: int)
    requires Exits(procs, nextpid, exited, reported) && Pids(procs, nextpid) && p < |procs| && procs[p].state == Alive
    ensures procs[p].pid !in exited
    ensures Exits(Reparented(procs, p)[p := Died(procs[p], status)], nextpid, exited[procs[p].pid := status], reported)
  {
    forall i | 0 <= i < |procs| && i != p && procs[i].state != Unused ensures procs[i].pid != procs[p].pid {
      assert if i < p then procs[i].pid != procs[p].pid else procs[p].pid != procs[i].pid;
    }
  }

  ghost predicate HasChild(procs: seq<Proc>, p: nat) {
    exists i: nat :: IsChild(procs, p, i)
  }

  // Who still sleeps in wait after exit of p.
  ghost function Roused(procs: seq<Proc>, asleep: set<nat>, p: nat): set<nat>
    requires p < |procs|
  {
    asleep - (if procs[p].parent.Some? then {procs[p].parent.value} else {})
      - (if HasChild(procs, p) then {INIT} else {})
  }

  // exit wakes whoever gets a new zombie: its parent, and init when it inherits children.
  lemma ExitRested(procs: seq<Proc>, asleep: set<nat>, p: nat, status: int)
    requires Rested(procs, asleep) && Parents(procs) && p < |procs| && p != INIT && procs[p].state == Alive
      && p !in asleep
    ensures procs[p].parent.Some?
    ensures Rested(Reparented(procs, p)[p := Died(procs[p], status)],
                   asleep - (if HasChild(procs, p) then {INIT} else {}) - {procs[p].parent.value})
  {
    var procs' := Reparented(procs, p)[p := Died(procs[p], status)];
    var asleep' := asleep - (if HasChild(procs, p) then {INIT} else {}) - {procs[p].parent.value};
    forall i | 0 <= i < |procs| && procs'[i].state == Zombie && procs'[i].parent.Some?
      ensures procs'[i].parent.value !in asleep'
    {
      if i != p && procs[i].parent == Some(p) {
        assert IsChild(procs, p, i);
      }
    }
  }

  // ---- allocproc, fork and freeproc

  // A slot that is nobody's parent may change, as long as its own parent is right.
  lemma ParentsWith(procs: seq<Proc>, np: nat, x: Proc)
    requires Parents(procs) && np < |procs| && procs[np].state != Alive
    requires x.parent.Some? ==>
      x.state != Unused && x.parent.value < |procs| && x.parent.value != np && procs[x.parent.value].state == Alive
    requires x.state == Alive || x.state == Zombie ==> x.parent.Some?
    ensures Parents(procs[np := x])
  {
  }

  // A slot keeps its pid, is freed, or gets the next pid.
  lemma PidsWith(procs: seq<Proc>, nextpid: nat, np: nat, x: Proc)
    requires Pids(procs, nextpid) && np < |procs|
    requires x == FREE || (x.state != Unused && procs[np].state != Unused && x.pid == procs[np].pid)
    ensures Pids(procs[np := x], nextpid)
  {
  }

  lemma PidsNext(procs: seq<Proc>, nextpid: nat, np: nat)
    requires Pids(procs, nextpid) && np < |procs| && 0 < nextpid
    ensures Pids(procs[np := Proc(Used, nextpid, None, 0)], nextpid + 1)
  {
  }

  // A slot whose process has not exited and does not now.
  lemma ExitsWith(procs: seq<Proc>, nextpid: nat, nextpid': nat, h: History, np: nat, x: Proc)
    requires Exits(procs, nextpid, h.exited, h.reported) && np < |procs| && nextpid <= nextpid'
    requires x.state != Zombie && (x.state != Unused ==>
      x.pid >= nextpid || (procs[np].state == Used && x.pid == procs[np].pid))
    ensures Exits(procs[np := x], nextpid', h.exited, h.reported)
  {
  }

  lemma ForksAlloc(procs: seq<Proc>, forking: map<nat, Fork>, p: nat, np: nat, x: Proc)
    requires Forks(procs, forking) && p < |procs| && procs[p].state == Alive && p !in forking && np < |procs|
      && procs[np].state == Unused
    requires x.state == Used && x.parent == None
    ensures Forks(procs[np := x], forking[p := Fork(np, false)])
  {
  }

  lemma ForksLink(procs: seq<Proc>, forking: map<nat, Fork>, p: nat)
    requires Forks(procs, forking) && p in forking
    ensures var np := forking[p].child;
      np < |procs| && Forks(procs[np := procs[np].(parent := Some(p))], forking[p := Fork(np, true)])
  {
  }

  // A fork that ends lets its child's slot become anything.
  lemma ForksEnd(procs: seq<Proc>, forking: map<nat, Fork>, p: nat, x: Proc)
    requires Forks(procs, forking) && p in forking
    ensures forking[p].child < |procs| && Forks(procs[forking[p].child := x], forking - {p})
  {
  }

  lemma AllocKeeps(procs: seq<Proc>, nextpid: nat, h: History, p: nat, np: nat)
    requires Inv(procs, nextpid, h) && p < |procs| && procs[p].state == Alive && p !in h.forking && np < |procs|
      && procs[np].state == Unused
    ensures Inv(procs[np := Proc(Used, nextpid, None, 0)], nextpid + 1, h.(forking := h.forking[p := Fork(np, false)]))
  {
    hide Parents, Forks, Pids, NoneLost;
    ParentsWith(procs, np, Proc(Used, nextpid, None, 0));
    ForksAlloc(procs, h.forking, p, np, Proc(Used, nextpid, None, 0));
    PidsNext(procs, nextpid, np);
    ExitsWith(procs, nextpid, nextpid + 1, h, np, Proc(Used, nextpid, None, 0));
    NoneLostWith(procs, h.exited, h.reported, np, Proc(Used, nextpid, None, 0));
  }

  lemma ChildIs(procs: seq<Proc>, forking: map<nat, Fork>, p: nat)
    requires Forks(procs, forking) && p in forking
    ensures p < |procs| && forking[p].child < |procs| && procs[p].state == Alive
      && procs[forking[p].child].state == Used && p != forking[p].child
    ensures procs[forking[p].child].parent == if forking[p].linked then Some(p) else None
  {
  }

  lemma AbandonKeeps(procs: seq<Proc>, nextpid: nat, h: History, p: nat)
    requires Inv(procs, nextpid, h) && p in h.forking && !h.forking[p].linked
    ensures h.forking[p].child < |procs|
      && Inv(procs[h.forking[p].child := FREE], nextpid, h.(forking := h.forking - {p}))
  {
    hide Parents, Forks, Pids, Exits, NoneLost;
    ChildIs(procs, h.forking, p);
    ParentsWith(procs, h.forking[p].child, FREE);
    ForksEnd(procs, h.forking, p, FREE);
    PidsWith(procs, nextpid, h.forking[p].child, FREE);
    ExitsWith(procs, nextpid, nextpid, h, h.forking[p].child, FREE);
    NoneLostWith(procs, h.exited, h.reported, h.forking[p].child, FREE);
  }

  lemma LinkKeeps(procs: seq<Proc>, nextpid: nat, h: History, p: nat)
    requires Inv(procs, nextpid, h) && p in h.forking && !h.forking[p].linked
    ensures var np := h.forking[p].child;
      np < |procs| && Inv(procs[np := procs[np].(parent := Some(p))], nextpid,
        h.(forking := h.forking[p := Fork(np, true)]))
  {
    hide Parents, Forks, Pids, Exits, NoneLost;
    ChildIs(procs, h.forking, p);
    var np := h.forking[p].child;
    ParentsWith(procs, np, procs[np].(parent := Some(p)));
    ForksLink(procs, h.forking, p);
    PidsWith(procs, nextpid, np, procs[np].(parent := Some(p)));
    ExitsWith(procs, nextpid, nextpid, h, np, procs[np].(parent := Some(p)));
    NoneLostWith(procs, h.exited, h.reported, np, procs[np].(parent := Some(p)));
  }

  lemma StartKeeps(procs: seq<Proc>, nextpid: nat, h: History, p: nat)
    requires Inv(procs, nextpid, h) && p in h.forking && h.forking[p].linked
    ensures var np := h.forking[p].child;
      np < |procs| && Inv(procs[np := procs[np].(state := Alive)], nextpid, h.(forking := h.forking - {p}))
  {
    hide Parents, Forks, Pids, Exits, NoneLost;
    ChildIs(procs, h.forking, p);
    var np := h.forking[p].child;
    ParentsWith(procs, np, procs[np].(state := Alive));
    ForksEnd(procs, h.forking, p, procs[np].(state := Alive));
    PidsWith(procs, nextpid, np, procs[np].(state := Alive));
    ExitsWith(procs, nextpid, nextpid, h, np, procs[np].(state := Alive));
    NoneLostWith(procs, h.exited, h.reported, np, procs[np].(state := Alive));
  }

  lemma ReapKeeps(procs: seq<Proc>, nextpid: nat, h: History, i: nat)
    requires Inv(procs, nextpid, h) && i < |procs| && procs[i].state == Zombie
    ensures Inv(procs[i := FREE], nextpid, h.(reported := h.reported + [(procs[i].pid, procs[i].xstate)]))
  {
    hide Parents, Forks, Pids, Exits, NoneLost;
    ParentsWith(procs, i, FREE);
    ForksReap(procs, h.forking, i);
    PidsWith(procs, nextpid, i, FREE);
    ExitsReap(procs, nextpid, h.exited, h.reported, i);
    NoneLostReap(procs, h.exited, h.reported, i);
  }

  lemma ForksReap(procs: seq<Proc>, forking: map<nat, Fork>, i: nat)
    requires Forks(procs, forking) && i < |procs| && procs[i].state == Zombie
    ensures Forks(procs[i := FREE], forking)
  {
  }

  lemma ExitsReap(procs: seq<Proc>, nextpid: nat, exited: map<nat, int>, reported: seq<(nat, int)>, i: nat)
    requires Exits(procs, nextpid, exited, reported) && Pids(procs, nextpid) && i < |procs| && procs[i].state == Zombie
    ensures Exits(procs[i := FREE], nextpid, exited, reported + [(procs[i].pid, procs[i].xstate)])
  {
    forall j | 0 <= j < |procs| && j != i && procs[j].state != Unused ensures procs[j].pid != procs[i].pid {
      assert if i < j then procs[i].pid != procs[j].pid else procs[j].pid != procs[i].pid;
    }
  }

  predicate IsChild(procs: seq<Proc>, p: nat, i: nat) {
    i < |procs| && procs[i].parent == Some(p)
  }

  // r is what slot i, the first zombie child of p, held; the slot is free now.
  ghost predicate TakenFrom(procs: seq<Proc>, procs': seq<Proc>, p: nat, i: nat, r: Waited) {
    && IsChild(procs, p, i) && procs[i].state == Zombie
    && (forall j: nat :: j < i && IsChild(procs, p, j) ==> procs[j].state != Zombie)
    && r == Reaped(procs[i].pid, procs[i].xstate) && procs' == procs[i := FREE]
  }

  // ---- the table

  // wait: a child's pid and status, no children, an address that cannot be written, or nothing yet
  datatype Waited = Reaped(pid: nat, xstate: int) | NoChildren | CopyFailed | MustSleep

  class Table {
    var procs: seq<Proc>
    var nextpid: nat
    var asleep: set<nat>       // processes SLEEPING in wait, on themselves
    var h: History

    ghost predicate Valid()
      reads this
    {
      Inv(procs, nextpid, h) && Rested(procs, asleep)
    }

    /** procinit and userinit: init alone. */
    constructor (n: nat)
      requires n > 0
      ensures Valid() && |procs| == n && h.exited == map[] && h.reported == []
    {
      procs := seq(n, _ => FREE)[INIT := Proc(Alive, 1, None, 0)];
      nextpid := 2;
      asleep := {};
      h := History(map[], map[], []);
    }

    /** The first section of fork: allocproc's scan; None when the table is full. */
    method AllocProc(p: nat) returns (r: Option<nat>)
      requires Valid() && p < |procs| && procs[p].state == Alive && p !in h.forking && p !in asleep
      modifies this`procs, this`nextpid, this`h
      ensures Valid() && |procs| == |old(procs)|
      ensures r.None? <==> forall i :: 0 <= i < |procs| ==> old(procs)[i].state != Unused
      ensures r.None? ==> procs == old(procs) && h == old(h) && nextpid == old(nextpid)
      ensures r.Some? ==> forall i :: 0 <= i < r.value < |procs| ==> old(procs)[i].state != Unused
      ensures r.Some? ==>
        r.value < |procs| && old(procs)[r.value] == FREE
          && procs == old(procs)[r.value := Proc(Used, old(nextpid), None, 0)]
      ensures r.Some? ==>
        h == old(h).(forking := old(h).forking[p := Fork(r.value, false)]) && nextpid == old(nextpid) + 1
    {
      hide Parents, Forks, Exits, NoneLost, Rested;
      var i := 0;
      while i < |procs|
        invariant i <= |procs| && Valid() && procs == old(procs) && h == old(h) && nextpid == old(nextpid)
        invariant forall j :: 0 <= j < i ==> procs[j].state != Unused
      {
        if procs[i].state == Unused {
          AllocKeeps(procs, nextpid, h, p, i);
          RestedWith(procs, asleep, i, Proc(Used, nextpid, None, 0));
          procs := procs[i := Proc(Used, nextpid, None, 0)];
          nextpid := nextpid + 1;
          h := h.(forking := h.forking[p := Fork(i, false)]);
          return Some(i);
        }
        i := i + 1;
      }
      return None;
    }

    /** fork gives up: its child's slot is free again. */
    method Abandon(p: nat, np: nat)
      requires Valid() && p in h.forking && h.forking[p] == Fork(np, false)
      modifies this`procs, this`h
      ensures Valid() && np < |old(procs)| && procs == old(procs)[np := FREE]
        && h == old(h).(forking := old(h).forking - {p})
    {
      hide Inv, Rested;
      AbandonKeeps(procs, nextpid, h, p);
      ChildUsed(procs, nextpid, h, p);
      RestedWith(procs, asleep, np, FREE);
      procs := procs[np := FREE];
      h := h.(forking := h.forking - {p});
    }

    /** fork under wait_lock: the child gets its parent. */
    method Link(p: nat, np: nat)
      requires Valid() && p in h.forking && h.forking[p] == Fork(np, false)
      modifies this`procs, this`h
      ensures Valid() && np < |old(procs)| && procs == old(procs)[np := old(procs)[np].(parent := Some(p))]
      ensures h == old(h).(forking := old(h).forking[p := Fork(np, true)])
    {
      hide Inv, Rested;
      LinkKeeps(procs, nextpid, h, p);
      ChildUsed(procs, nextpid, h, p);
      RestedWith(procs, asleep, np, procs[np].(parent := Some(p)));
      procs := procs[np := procs[np].(parent := Some(p))];
      h := h.(forking := h.forking[p := Fork(np, true)]);
    }

    /** fork's last section: the child may run. */
    method Start(p: nat, np: nat)
      requires Valid() && p in h.forking && h.forking[p] == Fork(np, true)
      modifies this`procs, this`h
      ensures Valid() && np < |old(procs)| && procs == old(procs)[np := old(procs)[np].(state := Alive)]
      ensures h == old(h).(forking := old(h).forking - {p})
    {
      hide Inv, Rested;
      StartKeeps(procs, nextpid, h, p);
      ChildUsed(procs, nextpid, h, p);
      RestedWith(procs, asleep, np, procs[np].(state := Alive));
      procs := procs[np := procs[np].(state := Alive)];
      h := h.(forking := h.forking - {p});
    }

    /** reparent: p's children become init's, and init is woken if there are any. */
    method Reparent(p: nat)
      modifies this`procs, this`asleep
      ensures procs == Reparented(old(procs), p)
      ensures asleep == old(asleep) - if HasChild(old(procs), p) then {INIT} else {}
    {
      var i := 0;
      while i < |procs|
        invariant i <= |procs| == |old(procs)|
        invariant forall j :: 0 <= j < |procs| ==>
          procs[j] == if j < i then Reparented(old(procs), p)[j] else old(procs)[j]
        invariant asleep == old(asleep) - if exists j: nat :: j < i && IsChild(old(procs), p, j) then {INIT} else {}
      {
        if procs[i].parent == Some(p) {
          assert IsChild(old(procs), p, i);
          procs := procs[i := procs[i].(parent := Some(INIT))];
          asleep := asleep - {INIT};
        }
        i := i + 1;
      }
    }

    /**
     exit of any process but init, under wait_lock: its children go to init, itself
     to its parent as a zombie, and both are woken if they slept in wait.
     */
    method Exit(p: nat, status: int)
      requires Valid() && p < |procs| && p != INIT && procs[p].state == Alive && p !in h.forking && p !in asleep
      modifies this`procs, this`asleep, this`h
      ensures Valid() && |procs| == |old(procs)| && procs[p] == Died(old(procs)[p], status)
      ensures forall i :: 0 <= i < |procs| && i != p ==>
        procs[i] == if old(procs)[i].parent == Some(p) then old(procs)[i].(parent := Some(INIT)) else old(procs)[i]
      ensures procs[p].parent.Some? && procs[p].parent.value !in asleep
      ensures procs == Reparented(old(procs), p)[p := Died(old(procs)[p], status)]
      ensures asleep == Roused(old(procs), old(asleep), p)
      ensures h == old(h).(exited := old(h).exited[old(procs)[p].pid := status])
    {
      hide Parents, Forks, Pids, Exits, NoneLost, Rested;
      ExitParents(procs, p, status);
      ExitForks(procs, h.forking, p, status);
      ExitPids(procs, nextpid, p, status);
      ExitExits(procs, nextpid, h.exited, h.reported, p, status);
      NoneLostExit(procs, h.exited, h.reported, p, status);
      ExitRested(procs, asleep, p, status);
      NotOwnParent(procs, p);
      var me := procs[p];
      Reparent(p);
      asleep := asleep - {me.parent.value};     // wakeup(p->parent)
      procs := procs[p := Died(me, status)];
      h := h.(exited := h.exited[me.pid := status]);
    }

    /** A wakeup or a kill: a process that slept in wait looks again. */
    method Wake(p: nat)
      requires Valid()
      modifies this`asleep
      ensures Valid() && asleep == old(asleep) - {p}
    {
      hide Inv;
      asleep := asleep - {p};
    }

    /**
     One scan of wait under wait_lock, to its return or its sleep; copied says whether
     copyout to the caller's address succeeds.
     */
    method Wait(p: nat, copied: bool, killed: bool) returns (r: Waited)
      requires Valid() && p < |procs| && procs[p].state == Alive && p !in asleep
      modifies this`procs, this`asleep, this`h
      ensures Valid() && |procs| == |old(procs)|
      ensures r.Reaped? ==> exists i: nat :: TakenFrom(old(procs), procs, p, i, r)
      ensures r.Reaped? ==> copied && h == old(h).(reported := old(h).reported + [(r.pid, r.xstate)])
      ensures !r.Reaped? ==> procs == old(procs) && h == old(h)
      ensures r.Reaped? || r.CopyFailed? <==>
        exists i: nat :: IsChild(old(procs), p, i) && old(procs)[i].state == Zombie
      ensures r.CopyFailed? ==> !copied
      ensures r.NoChildren? ==> killed || forall i: nat :: !IsChild(procs, p, i)
      ensures asleep == old(asleep) + if r.MustSleep? then {p} else {}
      ensures r.MustSleep? ==> !killed && exists i: nat :: IsChild(procs, p, i)
    {
      hide Inv, Rested;
      var havekids := false;
      var i := 0;
      while i < |procs|
        invariant i <= |procs| && Valid() && procs == old(procs) && h == old(h) && asleep == old(asleep)
        invariant havekids <==> exists j: nat :: j < i && IsChild(procs, p, j)
        invariant forall j: nat :: j < i && IsChild(procs, p, j) ==> procs[j].state != Zombie
      {
        if procs[i].parent == Some(p) {
          havekids := true;
          assert IsChild(procs, p, i);
          if procs[i].state == Zombie {
            if !copied {
              return CopyFailed;
            }
            ReapKeeps(procs, nextpid, h, i);
            RestedWith(procs, asleep, i, FREE);
            var pid, xstate := procs[i].pid, procs[i].xstate;
            procs := procs[i := FREE];
            h := h.(reported := h.reported + [(pid, xstate)]);
            assert TakenFrom(old(procs), procs, p, i, Reaped(pid, xstate));
            return Reaped(pid, xstate);
          }
        }
        i := i + 1;
      }
      if !havekids || killed {
        return NoChildren;
      }
      NothingToWaitFor(procs, asleep, p);
      asleep := asleep + {p};                   // sleep(p, &wait_lock)
      return MustSleep;
    }

    ghost function Now(): Scene
      reads this
    {
      Scene(procs, nextpid, asleep, h)
    }

    /** One critical section, if the process can come to it now. */
    method Do(op: Op) returns (r: Result)
      requires Valid()
      modifies this
      ensures Valid() && Follows(old(Now()), op, r, Now())
    {
      hide Inv, Rested;
      if !Ready(Scene(procs, nextpid, asleep, h), op) {
        return Unfit;
      }
      match op {
        case Allocate(p) =>
          var slot := AllocProc(p);
          r := if slot.None? then Full else Slot(slot.value);
        case GiveUp(p) =>
          Abandon(p, h.forking[p].child);
          r := Done;
        case Link(p) =>
          Link(p, h.forking[p].child);
          r := Done;
        case Start(p) =>
          Start(p, h.forking[p].child);
          r := Done;
        case Exit(p, status) =>
          r := Left(procs[p].pid, status);
          Exit(p, status);
        case Wait(p, copied, killed) =>
          var w := Wait(p, copied, killed);
          r := Answer(w);
        case Wake(p) =>
          Wake(p);
          r := Done;
      }
    }

    /**
     Forks, exits and waits of any processes in any order, from the start of
     init.  No process exits twice or is reported twice, what wait reports is
     what that process exited with, before, and in the end every exit has been
     reported or is still a zombie, with a living parent.  Nobody sleeps in
     wait, at any moment, who has a zombie to wait for.
     */
    method Run(script: seq<Op>) returns (rs: seq<Result>, ghost scenes: seq<Scene>)
      requires Valid() && h.exited == map[] && h.reported == []
      modifies this
      ensures Valid() && |rs| == |script| && |scenes| == |script| + 1
      ensures scenes[0] == old(Now()) && scenes[|script|] == Now()
      ensures forall k :: 0 <= k < |script| ==> Follows(scenes[k], script[k], rs[k], scenes[k + 1])
      ensures forall k :: 0 <= k <= |script| ==> Rested(scenes[k].procs, scenes[k].asleep)
      ensures forall k :: 0 <= k <= |script| ==> Settled(rs[..k], scenes[k].procs)
      ensures Orderly(rs)
    {
      hide Inv, Rested, Follows, Orderly, Remembers, Settled;
      rs, scenes := [], [Now()];
      NoResults(h);
      AllSettled(Now(), rs);
      while |rs| < |script|
        invariant |rs| <= |script| && |scenes| == |rs| + 1 && Valid()
        invariant scenes[0] == old(Now()) && scenes[|rs|] == Now()
        invariant forall k :: 0 <= k < |rs| ==> Follows(scenes[k], script[k], rs[k], scenes[k + 1])
        invariant forall k :: 0 <= k <= |rs| ==> Rested(scenes[k].procs, scenes[k].asleep)
        invariant forall k :: 0 <= k <= |rs| ==> Settled(rs[..k], scenes[k].procs)
        invariant Orderly(rs) && Remembers(rs, h)
        decreases |script| - |rs|
      {
        ghost var before := Now();
        var n := |rs|;
        var r := Do(script[n]);
        OrderlyMore(before, script[n], r, Now(), rs);
        AllSettled(Now(), rs + [r]);
        assert forall k :: 0 <= k <= n ==> (rs + [r])[..k] == rs[..k];
        assert (rs + [r])[..n + 1] == rs + [r];
        rs, scenes := rs + [r], scenes + [Now()];
      }
    }
  }

  // ---- whole runs

  /** The whole table at one moment. */
  datatype Scene = Scene(procs: seq<Proc>, nextpid: nat, asleep: set<nat>, h: History)

  /** The critical sections, as any process may come to them next. */
  datatype Op =
    | Allocate(p: nat) | GiveUp(p: nat) | Link(p: nat) | Start(p: nat)   // fork
    | Exit(p: nat, status: int)
    | Wait(p: nat, copied: bool, killed: bool)
    | Wake(p: nat)

  // Unfit: the process is not where it could do this.
  datatype Result = Unfit | Full | Slot(i: nat) | Done | Left(pid: nat, status: int) | Answer(w: Waited)

  predicate Ready(s: Scene, op: Op) {
    match op
    case Allocate(p) => p < |s.procs| && s.procs[p].state == Alive && p !in s.h.forking && p !in s.asleep
    case GiveUp(p) => p in s.h.forking && !s.h.forking[p].linked
    case Link(p) => p in s.h.forking && !s.h.forking[p].linked
    case Start(p) => p in s.h.forking && s.h.forking[p].linked
    case Exit(p, status) =>
      p < |s.procs| && p != INIT && s.procs[p].state == Alive && p !in s.h.forking && p !in s.asleep
    case Wait(p, copied, killed) => p < |s.procs| && s.procs[p].state == Alive && p !in s.asleep
    case Wake(p) => true
  }

  // The child's slot of a fork under way becomes x.
  ghost predicate Turns(s: Scene, p: nat, x: Proc, forking: map<nat, Fork>, s': Scene)
    requires p in s.h.forking
  {
    var np := s.h.forking[p].child;
    np < |s.procs| && s' == s.(procs := s.procs[np := x], h := s.h.(forking := forking))
  }

  ghost predicate Allocates(s: Scene, p: nat, r: Result, s': Scene) {
    match r
    case Full => s' == s && forall i :: 0 <= i < |s.procs| ==> s.procs[i].state != Unused
    case Slot(i) =>
      && i < |s.procs| && s.procs[i].state == Unused && (forall j :: 0 <= j < i ==> s.procs[j].state != Unused)
      && s' == Scene(s.procs[i := Proc(Used, s.nextpid, None, 0)], s.nextpid + 1, s.asleep,
                     s.h.(forking := s.h.forking[p := Fork(i, false)]))
    case _ => false
  }

  ghost predicate Waits(s: Scene, p: nat, copied: bool, killed: bool, w: Waited, s': Scene) {
    && (w.Reaped? || w.CopyFailed? <==> exists i: nat :: IsChild(s.procs, p, i) && s.procs[i].state == Zombie)
    && (w.Reaped? ==> copied && exists i: nat :: TakenFrom(s.procs, s'.procs, p, i, w))
    && (w.CopyFailed? ==> !copied)
    && (w.NoChildren? ==> killed || !HasChild(s.procs, p))
    && (w.MustSleep? ==> !killed && HasChild(s.procs, p))
    && s' == if w.Reaped? then s.(procs := s'.procs, h := s.h.(reported := s.h.reported + [(w.pid, w.xstate)]))
             else if w.MustSleep? then s.(asleep := s.asleep + {p}) else s
  }

  /** What one critical section does to the table. */
  ghost predicate Follows(s: Scene, op: Op, r: Result, s': Scene) {
    if !Ready(s, op) then r == Unfit && s' == s
    else
      match op
      case Allocate(p) => Allocates(s, p, r, s')
      case GiveUp(p) => r == Done && Turns(s, p, FREE, s.h.forking - {p}, s')
      case Link(p) =>
        var np := s.h.forking[p].child;
        && r == Done && np < |s.procs|
        && Turns(s, p, s.procs[np].(parent := Some(p)), s.h.forking[p := Fork(np, true)], s')
      case Start(p) =>
        var np := s.h.forking[p].child;
        r == Done && np < |s.procs| && Turns(s, p, s.procs[np].(state := Alive), s.h.forking - {p}, s')
      case Exit(p, status) =>
        var pid := s.procs[p].pid;
        && r == Left(pid, status)
        && s' == Scene(Reparented(s.procs, p)[p := Died(s.procs[p], status)], s.nextpid,
                       Roused(s.procs, s.asleep, p), s.h.(exited := s.h.exited[pid := status]))
      case Wait(p, copied, killed) => r.Answer? && Waits(s, p, copied, killed, r.w, s')
      case Wake(p) => r == Done && s' == s.(asleep := s.asleep - {p})
  }

  ghost predicate Sound(s: Scene) {
    Inv(s.procs, s.nextpid, s.h) && Rested(s.procs, s.asleep)
  }

  // What a run's results say, and nothing else: the exits and the reports of wait.

  // Wait returned this pid and status.
  ghost predicate Reports(r: Result, pid: nat, status: int) {
    r == Answer(Reaped(pid, status))
  }

  // No pid leaves twice, none is reported twice, and a report comes after its exit.
  ghost predicate Orderly(rs: seq<Result>) {
    && (forall j, k :: 0 <= j < k < |rs| && rs[j].Left? && rs[k].Left? ==> rs[j].pid != rs[k].pid)
    && (forall j, k :: 0 <= j < k < |rs| && rs[j].Answer? && rs[k].Answer? && rs[j].w.Reaped? && rs[k].w.Reaped? ==>
      rs[j].w.pid != rs[k].w.pid)
    && Later(rs)
  }

  ghost predicate Later(rs: seq<Result>) {
    forall k :: 0 <= k < |rs| && rs[k].Answer? && rs[k].w.Reaped? ==> Left(rs[k].w.pid, rs[k].w.xstate) in rs[..k]
  }

  lemma LaterMore(rs: seq<Result>, r: Result)
    requires Later(rs) && (r.Answer? && r.w.Reaped? ==> Left(r.w.pid, r.w.xstate) in rs)
    ensures Later(rs + [r])
  {
    var rs' := rs + [r];
    forall k | 0 <= k < |rs'| && rs'[k].Answer? && rs'[k].w.Reaped?
      ensures Left(rs'[k].w.pid, rs'[k].w.xstate) in rs'[..k]
    {
      assert rs'[..k] == rs[..k];
      assert k == |rs| ==> rs[..k] == rs;
    }
  }

  // Whoever left was reported later, or else is a zombie with its status and a living parent.
  ghost predicate Settled(rs: seq<Result>, procs: seq<Proc>) {
    forall j :: 0 <= j < |rs| && rs[j].Left? ==>
      ((exists k :: j < k < |rs| && Reports(rs[k], rs[j].pid, rs[j].status))
        <==> !exists i: nat :: Awaits(procs, rs[j].pid, rs[j].status, i))
  }

  ghost predicate Awaits(procs: seq<Proc>, pid: nat, status: int, i: nat) {
    && IsZombie(procs, pid, i) && procs[i].xstate == status
    && procs[i].parent.Some? && procs[i].parent.value < |procs| && procs[procs[i].parent.value].state == Alive
  }

  // The history has the exits and the reports of the results.
  ghost predicate Remembers(rs: seq<Result>, h: History) {
    && (forall j :: 0 <= j < |rs| && rs[j].Left? ==> rs[j].pid in h.exited && h.exited[rs[j].pid] == rs[j].status)
    && (forall pid :: pid in h.exited ==> Left(pid, h.exited[pid]) in rs)
    && (forall j :: 0 <= j < |rs| && rs[j].Answer? && rs[j].w.Reaped? ==> (rs[j].w.pid, rs[j].w.xstate) in h.reported)
    && (forall m :: 0 <= m < |h.reported| ==> Answer(Reaped(h.reported[m].0, h.reported[m].1)) in rs)
  }

  lemma NoResults(h: History)
    requires h.exited == map[] && h.reported == []
    ensures Orderly([]) && Remembers([], h)
  {
  }

  lemma QuietMore(rs: seq<Result>, h: History, r: Result, h': History)
    requires Orderly(rs) && Remembers(rs, h) && h'.exited == h.exited && h'.reported == h.reported
    requires !r.Left? && !(r.Answer? && r.w.Reaped?)
    ensures Orderly(rs + [r]) && Remembers(rs + [r], h')
  {
    hide Later;
    LaterMore(rs, r);
  }

  lemma LeftMore(rs: seq<Result>, h: History, pid: nat, status: int, h': History)
    requires Orderly(rs) && Remembers(rs, h) && pid !in h.exited && h' == h.(exited := h.exited[pid := status])
    ensures Orderly(rs + [Left(pid, status)]) && Remembers(rs + [Left(pid, status)], h')
  {
    hide Later;
    LaterMore(rs, Left(pid, status));
    var rs' := rs + [Left(pid, status)];
    assert rs'[|rs|] == Left(pid, status);
  }

  lemma ReportMore(rs: seq<Result>, h: History, pid: nat, status: int, h': History)
    requires Orderly(rs) && Remembers(rs, h) && pid in h.exited && h.exited[pid] == status
    requires forall m :: 0 <= m < |h.reported| ==> h.reported[m].0 != pid
    requires h' == h.(reported := h.reported + [(pid, status)])
    ensures Orderly(rs + [Answer(Reaped(pid, status))]) && Remembers(rs + [Answer(Reaped(pid, status))], h')
  {
    hide Later;
    assert Left(pid, status) in rs;
    LaterMore(rs, Answer(Reaped(pid, status)));
    var rs' := rs + [Answer(Reaped(pid, status))];
    assert rs'[|rs|] == Answer(Reaped(pid, status));
    assert h'.reported[|h.reported|] == (pid, status);
  }

  // The slot wait takes has a status not reported yet.
  lemma ReapedAfresh(s: Scene, p: nat, copied: bool, killed: bool, w: Waited, s': Scene)
    requires Sound(s) && Waits(s, p, copied, killed, w, s') && w.Reaped?
    ensures w.pid in s.h.exited && s.h.exited[w.pid] == w.xstate
    ensures forall m :: 0 <= m < |s.h.reported| ==> s.h.reported[m].0 != w.pid
  {
    hide Parents, Forks, Pids, NoneLost, Rested;
    var i: nat :| TakenFrom(s.procs, s'.procs, p, i, w);
  }

  lemma OrderlyMore(s: Scene, op: Op, r: Result, s': Scene, rs: seq<Result>)
    requires Sound(s) && Follows(s, op, r, s') && Orderly(rs) && Remembers(rs, s.h)
    ensures Orderly(rs + [r]) && Remembers(rs + [r], s'.h)
  {
    hide Parents, Forks, Pids, NoneLost, Rested, Orderly, Remembers;
    if r.Left? {
      LeftMore(rs, s.h, r.pid, r.status, s'.h);
    } else if r.Answer? && r.w.Reaped? {
      ReapedAfresh(s, op.p, op.copied, op.killed, r.w, s');
      ReportMore(rs, s.h, r.w.pid, r.w.xstate, s'.h);
    } else {
      QuietMore(rs, s.h, r, s'.h);
    }
  }

  lemma AllSettled(s: Scene, rs: seq<Result>)
    requires Sound(s) && Orderly(rs) && Remembers(rs, s.h)
    ensures Settled(rs, s.procs)
  {
    hide Orderly, Remembers, Inv, Rested;
    forall j | 0 <= j < |rs| && rs[j].Left?
      ensures (exists k :: j < k < |rs| && Reports(rs[k], rs[j].pid, rs[j].status))
        <==> !exists i: nat :: Awaits(s.procs, rs[j].pid, rs[j].status, i)
    {
      OneSettled(s, rs, j);
    }
  }

  lemma OneSettled(s: Scene, rs: seq<Result>, j: nat)
    requires Sound(s) && Orderly(rs) && Remembers(rs, s.h) && j < |rs| && rs[j].Left?
    ensures (exists k :: j < k < |rs| && Reports(rs[k], rs[j].pid, rs[j].status))
      <==> !exists i: nat :: Awaits(s.procs, rs[j].pid, rs[j].status, i)
  {
    hide Parents, Forks, Pids, NoneLost, Rested, Exits;
    var pid, status := rs[j].pid, rs[j].status;
    ReportedOrZombie(s.procs, s.nextpid, s.h, pid);
    if Reported(s.h.reported, pid) {
      var k := ReportAfter(s, rs, j);
      assert Reports(rs[k], pid, status);
    } else {
      var i: nat :| IsZombie(s.procs, pid, i);
      ZombieStatus(s, i);
      assert Awaits(s.procs, pid, status, i);
      assert forall k :: j < k < |rs| && Reports(rs[k], pid, status) ==> (pid, status) in s.h.reported;
    }
  }

  lemma ZombieStatus(s: Scene, i: nat)
    requires Sound(s) && i < |s.procs| && s.procs[i].state == Zombie
    ensures s.procs[i].pid in s.h.exited && s.h.exited[s.procs[i].pid] == s.procs[i].xstate
    ensures Awaits(s.procs, s.procs[i].pid, s.procs[i].xstate, i)
  {
    hide Forks, Pids, NoneLost, Rested;
    ZombiesHaveParents(s.procs, s.nextpid, s.h, i);
  }

  // The report of an exit follows it.
  lemma ReportAfter(s: Scene, rs: seq<Result>, j: nat) returns (k: nat)
    requires Sound(s) && Orderly(rs) && Remembers(rs, s.h) && j < |rs| && rs[j].Left?
    requires Reported(s.h.reported, rs[j].pid)
    ensures j < k < |rs| && Reports(rs[k], rs[j].pid, rs[j].status)
  {
    hide Parents, Forks, Pids, NoneLost, Rested;
    var m: nat :| m < |s.h.reported| && s.h.reported[m].0 == rs[j].pid;
    k :| 0 <= k < |rs| && rs[k] == Answer(Reaped(s.h.reported[m].0, s.h.reported[m].1));
    var j' :| 0 <= j' < k && rs[j'] == Left(rs[k].w.pid, rs[k].w.xstate);
  }

  lemma NothingToWaitFor(procs: seq<Proc>, asleep: set<nat>, p: nat)
    requires Rested(procs, asleep) && p < |procs| && procs[p].state == Alive
    requires forall i: nat :: IsChild(procs, p, i) ==> procs[i].state != Zombie
    ensures Rested(procs, asleep + {p})
  {
    forall i: nat | i < |procs| && procs[i].parent == Some(p) ensures procs[i].state != Zombie {
      assert IsChild(procs, p, i);
    }
  }

  lemma RestedWith(procs: seq<Proc>, asleep: set<nat>, np: nat, x: Proc)
    requires Rested(procs, asleep) && np < |procs| && procs[np].state != Alive && x.state != Zombie
    ensures Rested(procs[np := x], asleep)
  {
  }

  lemma ChildUsed(procs: seq<Proc>, nextpid: nat, h: History, p: nat)
    requires Inv(procs, nextpid, h) && p in h.forking
    ensures h.forking[p].child < |procs| && procs[h.forking[p].child].state == Used
  {
  }

  lemma NotOwnParent(procs: seq<Proc>, p: nat)
    requires Parents(procs) && p < |procs|
    ensures procs[p].parent != Some(p)
  {
  }
}
